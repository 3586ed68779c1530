/**
 Dropping tombstones above a non-empty deeper level brings deleted keys back: for every engine
 with three or more levels, a run from an empty database in which a deleted key becomes
 readable again (src/engine.rs:608-618).
 */
module Resurrection {
  import opened Bytes
  import opened OrderedMaps
  import opened ValueCodec
  import opened Tables
  import opened Compaction
  import opened Cascade
  import opened Machine

  const VALUE: Value := [7]

  function Digit(i: nat): Key
    requires i < 256
  {
    [i as byte]
  }

  function PutDigit(i: nat): Event
    requires i < 256
  {
    Event(Put(Digit(i), VALUE), 0, 0)
  }

  function Puts(n: nat): (evs: seq<Event>)
    requires n <= 256
    ensures |evs| == n
  {
    if n == 0 then [] else Puts(n - 1) + [PutDigit(n - 1)]
  }

  /** Every write overflows the memtable and every flush triggers a compaction. */
  predicate Eager(o: Options) {
    o.memtableSize == 0 && o.l0Threshold == 1 && o.maxLevels >= 3
  }

  lemma {:induction false} SettledCascade(rs: seq<Reader>, id: nat, level: nat, now: nat, o: Options)
    requires o.l0Threshold >= 1 && Settled(rs, o, level)
    ensures Cascaded(rs, id, level, now, o) == (rs, id)
    ensures SafeCascade(rs, id, level, now, o)
    decreases LastLevel(o) - level
  {
    if level < LastLevel(o) {
      SettledCascade(rs, id, level + 1, now, o);
    }
  }

  /** `n` one-key tables in level 1, for the keys below `n`, and nothing else. */
  ghost predicate OneKeyTables(rs: seq<Reader>, n: nat)
    requires n <= 256
  {
    && |rs| == n
    && forall i | 0 <= i < n :: rs[i].meta.level == 1 && rs[i].meta.minKey == rs[i].meta.maxKey == Digit(i)
  }

  lemma {:induction false} AllAtLevelOne(rs: seq<Reader>)
    requires forall r <- rs :: r.meta.level == 1
    ensures AtLevel(rs, 1) == rs
  {
    if rs != [] {
      var init := rs[..|rs| - 1];
      AllAtLevelOne(init);
      PickLast(init, rs[|rs| - 1], Level(1));
      assert rs == init + [rs[|rs| - 1]];
    }
  }

  lemma {:induction false} PickNothing(rs: seq<Reader>, c: Choice)
    requires forall r <- rs :: !Takes(c, r.meta)
    ensures Pick(rs, c) == []
  {
    if rs != [] {
      PickNothing(rs[..|rs| - 1], c);
    }
  }

  lemma {:induction false} PickEverything(rs: seq<Reader>, c: Choice)
    requires forall r <- rs :: Takes(c, r.meta)
    ensures Pick(rs, c) == rs
  {
    if rs != [] {
      PickEverything(rs[..|rs| - 1], c);
    }
  }

  /**
   A table of level `l` holding one version of one key, no other table as shallow, and none of its key in the
   next level.
   */
  ghost predicate Lone(rs: seq<Reader>, t: Reader, l: nat, k: Key, v: Value) {
    && (forall r <- rs :: r.meta.level >= l + 1)
    && (forall r <- rs :: r.meta.level == l + 1 ==> !Overlaps(r.meta, k, k))
    && t.meta.level == l && t.data == map[k := v] && t.meta.minKey == t.meta.maxKey == k
  }

  lemma LoneLevel(rs: seq<Reader>, t: Reader, l: nat, k: Key, v: Value)
    requires Lone(rs, t, l, k, v)
    ensures AtLevel(rs + [t], l) == [t]
  {
    EmptyLevel(rs, l);
    PickLast(rs, t, Level(l));
  }

  lemma LoneHull(rs: seq<Reader>, t: Reader, l: nat, k: Key, v: Value)
    requires Lone(rs, t, l, k, v) && AtLevel(rs + [t], l) == [t]
    ensures Lo(rs + [t], l) == k && Hi(rs + [t], l) == k
  {
    SetsOfOne(t);
    SingletonMinMax(k);
  }

  lemma SetsOfOne(t: Reader)
    ensures MinKeys([t]) == {t.meta.minKey} && MaxKeys([t]) == {t.meta.maxKey}
  {
    assert t in [t];
  }

  lemma LoneMerged(rs: seq<Reader>, t: Reader, l: nat, k: Key, v: Value)
    requires Lone(rs, t, l, k, v) && AtLevel(rs + [t], l) == [t]
    ensures Merged(rs + [t], l) == map[k := v]
  {
    LoneHull(rs, t, l, k, v);
    PickNothing(rs, Range(l + 1, k, k));
    PickLast(rs, t, Range(l + 1, k, k));
    OverlayOne(t);
    assert [] + [t] == [t];
  }

  lemma OverlayOne(t: Reader)
    ensures Overlay([t]) == t.data
  {
    assert [t][..0] == [];
  }

  lemma LoneSurvivors(rs: seq<Reader>, t: Reader, l: nat, k: Key, v: Value)
    requires Lone(rs, t, l, k, v) && AtLevel(rs + [t], l) == [t]
    ensures Survivors(rs + [t], l) == rs
  {
    LoneHull(rs, t, l, k, v);
    PickEverything(rs, Surviving(l, k, k));
    PickLast(rs, t, Surviving(l, k, k));
  }

  lemma LoneDeeper(rs: seq<Reader>, t: Reader, l: nat)
    requires t.meta.level == l
    ensures Deeper(rs + [t], l) == Deeper(rs, l)
  {
    PickLast(rs, t, Below(l + 1));
  }

  /** Compacting the level of a lone live table moves it one level down, safely. */
  lemma LoneCompact(rs: seq<Reader>, t: Reader, l: nat, k: Key, v: Value, now: nat, id: nat)
    requires Lone(rs, t, l, k, v) && Live(v, now)
    ensures AtLevel(rs + [t], l) == [t]
    ensures Compact(rs + [t], l, now, id) == rs + [OneKey(k, v, id, l + 1)]
    ensures StepId(rs + [t], l, now, id) == id + 1
    ensures SafeStep(rs + [t], l, now)
  {
    LoneLevel(rs, t, l, k, v);
    LoneMerged(rs, t, l, k, v);
    LoneSurvivors(rs, t, l, k, v);
    assert LivePart(map[k := v], now) == map[k := v];
    NewOneKey(k, v, id, l + 1);
  }

  /** A full level is compacted, and the cascade goes on with the next one. */
  lemma FullStep(rs: seq<Reader>, id: nat, l: nat, now: nat, o: Options)
    requires o.l0Threshold >= 1 && l < LastLevel(o) && Full(rs, o, l) && AtLevel(rs, l) != []
    ensures Cascaded(rs, id, l, now, o) == Cascaded(Compact(rs, l, now, id), StepId(rs, l, now, id), l + 1, now, o)
    ensures SafeCascade(rs, id, l, now, o) <==>
            SafeStep(rs, l, now) && SafeCascade(Compact(rs, l, now, id), StepId(rs, l, now, id), l + 1, now, o)
  {
  }

  /** A cascade that ends with its first step. */
  lemma OneStep(rs: seq<Reader>, id: nat, l: nat, now: nat, o: Options)
    requires o.l0Threshold >= 1 && l < LastLevel(o) && Full(rs, o, l) && AtLevel(rs, l) != []
    requires SafeStep(rs, l, now) && Settled(Compact(rs, l, now, id), o, l + 1)
    ensures Cascaded(rs, id, l, now, o) == (Compact(rs, l, now, id), StepId(rs, l, now, id))
    ensures SafeCascade(rs, id, l, now, o)
  {
    FullStep(rs, id, l, now, o);
    SettledCascade(Compact(rs, l, now, id), StepId(rs, l, now, id), l + 1, now, o);
  }

  lemma EagerThresholds(o: Options)
    requires Eager(o)
    ensures Threshold(o, 0) == 1 && Threshold(o, 1) == 10
  {
    assert Pow10(0) == 1 && Pow10(1) == 10;
  }

  lemma DigitsApart(i: nat, j: nat)
    requires i < 256 && j < 256 && i != j
    ensures !Overlaps(SSTMeta(0, 0, Digit(i), Digit(i)), Digit(j), Digit(j))
  {
    assert Digit(i)[0] != Digit(j)[0];
  }

  function Enc(n: nat): Value {
    EncodeWithSeq(VALUE, n + 1)
  }

  lemma EncLive(n: nat, now: nat)
    ensures Live(Enc(n), now)
  {
    InnerRoundTrip(VALUE, n + 1, now);
  }

  /** A write to an engine with an empty active list flushes a table of its one key. */
  ghost predicate Tops(s: State, e: Event, t: Reader, o: Options) {
    && o.l0Threshold >= 1 && Overflows(s, e, o) && Applied(s, e).active != map[]
    && FlushedReaders(Applied(s, e)) == s.readers + [t]
  }

  lemma WriteTops(s: State, e: Event, v: Value, o: Options)
    requires Eager(o) && s.active == map[] && v == EncodeWithSeq(InnerOf(e.op, e.now), s.nextSeq)
    ensures Tops(s, e, OneKey(e.op.key, v, s.nextId, 0), o)
  {
    assert Applied(s, e).active == map[e.op.key := v];
    NewOneKey(e.op.key, v, s.nextId, 0);
  }

  /** The write ends as its cascade does. */
  lemma WriteCascades(s: State, e: Event, t: Reader, rs: seq<Reader>, id: nat, o: Options)
    requires Tops(s, e, t, o) && Cascaded(s.readers + [t], s.nextId + 1, 0, e.now, o) == (rs, id)
    ensures Write(s, e, o).active == map[] && Write(s, e, o).readers == rs
    ensures SafeWrite(s, e, o) <==> SafeCascade(s.readers + [t], s.nextId + 1, 0, e.now, o)
  {
  }

  lemma LoneDigit(rs: seq<Reader>, n: nat, id: nat)
    requires n < 256 && OneKeyTables(rs, n)
    ensures Lone(rs, OneKey(Digit(n), Enc(n), id, 0), 0, Digit(n), Enc(n))
  {
    forall r <- rs ensures r.meta.level == 1 && !Overlaps(r.meta, Digit(n), Digit(n)) {
      var i :| 0 <= i < n && rs[i] == r;
      DigitsApart(i, n);
    }
  }

  /** A further one-key table in level 1. */
  function WithDigit(rs: seq<Reader>, n: nat, id: nat): seq<Reader>
    requires n < 256
  {
    rs + [OneKey(Digit(n), Enc(n), id, 1)]
  }

  lemma OneMoreTable(rs: seq<Reader>, n: nat, id: nat)
    requires n < 256 && OneKeyTables(rs, n)
    ensures OneKeyTables(WithDigit(rs, n, id), n + 1)
  {
  }

  /** Compacting level 0 adds the next one-key table to level 1. */
  lemma DigitStep(rs: seq<Reader>, n: nat, id: nat, now: nat, o: Options)
    requires Eager(o) && n < 256 && OneKeyTables(rs, n)
    ensures var all := rs + [OneKey(Digit(n), Enc(n), id, 0)];
            && Full(all, o, 0) && AtLevel(all, 0) != [] && SafeStep(all, 0, now)
            && Compact(all, 0, now, id + 1) == WithDigit(rs, n, id + 1) && StepId(all, 0, now, id + 1) == id + 2
  {
    LoneDigit(rs, n, id);
    EncLive(n, now);
    LoneCompact(rs, OneKey(Digit(n), Enc(n), id, 0), 0, Digit(n), Enc(n), now, id + 1);
    EagerThresholds(o);
  }

  lemma DigitWF(rs: seq<Reader>, n: nat, id: nat)
    requires n < 256 && WF(rs) && (forall r <- rs :: r.meta.id < id) && OneKeyTables(rs, n)
    ensures WF(WithDigit(rs, n, id))
  {
    var u := OneKey(Digit(n), Enc(n), id, 1);
    assert Digit(n) in u.data;
    forall x <- rs ensures Compatible(x, u) {
      var i :| 0 <= i < n && rs[i] == x;
      assert Lt(Digit(i), Digit(n));
    }
    WFAppend(rs, u);
  }

  /** Level 1 is full with as many tables as its threshold says; no other level is. */
  lemma OnlyLevelOneFull(rs: seq<Reader>, n: nat, o: Options, l: nat)
    requires Eager(o) && n <= 256 && OneKeyTables(rs, n)
    ensures l != 1 ==> !Full(rs, o, l)
    ensures Full(rs, o, 1) <==> n >= Threshold(o, 1)
  {
    AllAtLevelOne(rs);
    if l != 1 {
      EmptyLevel(rs, l);
      ThresholdPositive(o, l);
    }
  }

  /** While level 1 stays under its threshold, the cascade ends there. */
  lemma FillCascade(rs: seq<Reader>, n: nat, id: nat, now: nat, o: Options)
    requires Eager(o) && n < 255 && OneKeyTables(rs, n) && n + 1 < Threshold(o, 1)
    ensures var all := rs + [OneKey(Digit(n), Enc(n), id, 0)];
            && Cascaded(all, id + 1, 0, now, o) == (WithDigit(rs, n, id + 1), id + 2)
            && SafeCascade(all, id + 1, 0, now, o)
  {
    DigitStep(rs, n, id, now, o);
    var next := WithDigit(rs, n, id + 1);
    forall l: nat | 1 <= l < LastLevel(o) ensures !Full(next, o, l) {
      OnlyLevelOneFull(next, n + 1, o, l);
    }
    OneStep(rs + [OneKey(Digit(n), Enc(n), id, 0)], id + 1, 0, now, o);
  }

  /** While level 1 stays under its threshold, a write just adds the next table. */
  lemma FillStep(s: State, n: nat, o: Options)
    requires Eager(o) && n < 255 && s.active == map[] && s.nextSeq == n + 1
    requires OneKeyTables(s.readers, n) && n + 1 < Threshold(o, 1)
    ensures Write(s, PutDigit(n), o).active == map[]
    ensures OneKeyTables(Write(s, PutDigit(n), o).readers, n + 1)
    ensures SafeWrite(s, PutDigit(n), o)
  {
    WriteTops(s, PutDigit(n), Enc(n), o);
    FillCascade(s.readers, n, s.nextId, 0, o);
    OneMoreTable(s.readers, n, s.nextId + 1);
    WriteCascades(s, PutDigit(n), OneKey(Digit(n), Enc(n), s.nextId, 0), WithDigit(s.readers, n, s.nextId + 1),
                  s.nextId + 2, o);
  }

  /** Writes of new keys fill level 1 one table at a time. */
  lemma {:induction false} FillLevelOne(n: nat, o: Options)
    requires Eager(o) && n < 256 && n < Threshold(o, 1)
    ensures Run(Puts(n), o).active == map[] && OneKeyTables(Run(Puts(n), o).readers, n)
    ensures SafeRun(Puts(n), o)
  {
    if n == 0 {
      NothingFilled([], o);
    } else {
      FillLevelOne(n - 1, o);
      FillNext(Puts(n - 1), Puts(n), n - 1, o);
    }
  }

  lemma NothingFilled(evs: seq<Event>, o: Options)
    requires o.l0Threshold >= 1 && evs == []
    ensures Run(evs, o).active == map[] && OneKeyTables(Run(evs, o).readers, 0) && SafeRun(evs, o)
  {
  }

  lemma FillNext(evs: seq<Event>, all: seq<Event>, n: nat, o: Options)
    requires Eager(o) && n < 255 && n + 1 < Threshold(o, 1) && |evs| == n && SafeRun(evs, o)
    requires Run(evs, o).active == map[] && OneKeyTables(Run(evs, o).readers, n) && all == evs + [PutDigit(n)]
    ensures Run(all, o).active == map[] && OneKeyTables(Run(all, o).readers, n + 1) && SafeRun(all, o)
  {
    RunInv(evs, o);
    FillStep(Run(evs, o), n, o);
    ExtendSafe(evs, PutDigit(n), o);
  }

  lemma ExtendSafe(evs: seq<Event>, e: Event, o: Options)
    requires o.l0Threshold >= 1 && SafeRun(evs, o) && SafeWrite(Run(evs, o), e, o)
    ensures SafeRun(evs + [e], o)
    ensures Run(evs + [e], o) == Write(Run(evs, o), e, o)
  {
    var all := evs + [e];
    assert all[..|evs|] == evs;
    forall n | 0 <= n < |all| ensures SafeWrite(Run(all[..n], o), all[n], o) {
      if n < |evs| {
        assert all[..n] == evs[..n];
      }
    }
  }

  /** A level above which nothing lies deeper is compacted safely. */
  lemma NothingDeeperSafe(rs: seq<Reader>, l: nat, now: nat)
    requires AtLevel(rs, l) != [] && forall r <- rs :: r.meta.level <= l + 1
    ensures SafeStep(rs, l, now)
  {
    PickNothing(rs, Below(l + 1));
    forall k ensures !Uncovers(rs, l, now, k) {
      LookupNone(Deeper(rs, l), k);
    }
  }

  /** After compacting a level above empty ones, only the level below it holds something: one table. */
  lemma SettledBeneath(rs: seq<Reader>, l: nat, now: nat, id: nat, o: Options)
    requires Eager(o) && AtLevel(rs, l) != [] && forall r <- rs :: r.meta.level == l
    ensures Settled(Compact(rs, l, now, id), o, l + 1)
  {
    forall m: nat | l + 1 <= m < LastLevel(o) ensures !Full(Compact(rs, l, now, id), o, m) {
      CompactCounts(rs, l, now, id, m);
      EmptyLevel(rs, m);
      LargeThreshold(o, m);
    }
  }

  lemma LargeThreshold(o: Options, l: nat)
    requires Eager(o) && l >= 1
    ensures Threshold(o, l) >= 10
  {
    assert Pow10(l) == 10 * Pow10(l - 1);
  }

  /** A full level 1 with nothing else: everything moves to level 2, safely. */
  lemma LevelOneMoves(rs: seq<Reader>, n: nat, id: nat, now: nat, o: Options)
    requires Eager(o) && n <= 256 && OneKeyTables(rs, n) && n >= Threshold(o, 1)
    requires WF(rs) && forall r <- rs :: r.meta.id < id
    ensures SafeCascade(rs, id, 1, now, o)
    ensures forall r <- Cascaded(rs, id, 1, now, o).0 :: r.meta.level >= 2
  {
    OnlyLevelOneFull(rs, n, o, 1);
    FullNonempty(rs, o, 1);
    NothingDeeperSafe(rs, 1, now);
    SettledBeneath(rs, 1, now, id, o);
    OneStep(rs, id, 1, now, o);
    CompactWF(rs, 1, now, id);
  }

  /** The cascade after the write that fills level 1. */
  lemma TopUpCascade(rs: seq<Reader>, n: nat, id: nat, now: nat, o: Options)
    requires Eager(o) && n < 256 && OneKeyTables(rs, n) && n + 1 >= Threshold(o, 1)
    requires WF(rs) && forall r <- rs :: r.meta.id < id
    ensures var all := rs + [OneKey(Digit(n), Enc(n), id, 0)];
            && SafeCascade(all, id + 1, 0, now, o)
            && forall r <- Cascaded(all, id + 1, 0, now, o).0 :: r.meta.level >= 2
  {
    DigitStep(rs, n, id, now, o);
    DigitWF(rs, n, id + 1);
    OneMoreTable(rs, n, id + 1);
    LevelOneMoves(WithDigit(rs, n, id + 1), n + 1, id + 2, now, o);
    TwoSteps(rs + [OneKey(Digit(n), Enc(n), id, 0)], WithDigit(rs, n, id + 1), id + 1, id + 2, now, o);
  }

  /** A cascade that goes on safely at level 1, and moves everything deeper. */
  lemma TwoSteps(all: seq<Reader>, next: seq<Reader>, id: nat, id': nat, now: nat, o: Options)
    requires Eager(o) && Full(all, o, 0) && AtLevel(all, 0) != [] && SafeStep(all, 0, now)
    requires Compact(all, 0, now, id) == next && StepId(all, 0, now, id) == id'
    requires SafeCascade(next, id', 1, now, o) && forall r <- Cascaded(next, id', 1, now, o).0 :: r.meta.level >= 2
    ensures SafeCascade(all, id, 0, now, o) && forall r <- Cascaded(all, id, 0, now, o).0 :: r.meta.level >= 2
  {
    FullStep(all, id, 0, now, o);
  }

  /** The write that fills level 1 moves all data to level 2. */
  lemma TopUpStep(s: State, n: nat, o: Options)
    requires Eager(o) && n < 256 && s.active == map[] && s.nextSeq == n + 1
    requires OneKeyTables(s.readers, n) && n + 1 >= Threshold(o, 1)
    requires WF(s.readers) && forall r <- s.readers :: r.meta.id < s.nextId
    ensures Write(s, PutDigit(n), o).active == map[]
    ensures forall r <- Write(s, PutDigit(n), o).readers :: r.meta.level >= 2
    ensures SafeWrite(s, PutDigit(n), o)
  {
    WriteTops(s, PutDigit(n), Enc(n), o);
    TopUpCascade(s.readers, n, s.nextId, 0, o);
    var (rs, id) := Cascaded(s.readers + [OneKey(Digit(n), Enc(n), s.nextId, 0)], s.nextId + 1, 0, 0, o);
    WriteCascades(s, PutDigit(n), OneKey(Digit(n), Enc(n), s.nextId, 0), rs, id, o);
  }

  /** After as many writes as the threshold of level 1 says, all data lies in level 2. */
  lemma FillLevelTwo(n: nat, o: Options)
    requires Eager(o) && n < 256 && n + 1 == Threshold(o, 1)
    ensures SafeRun(Puts(n + 1), o)
    ensures Run(Puts(n + 1), o).active == map[]
    ensures forall r <- Run(Puts(n + 1), o).readers :: r.meta.level >= 2
  {
    FillLevelOne(n, o);
    RunInv(Puts(n), o);
    TopUpStep(Run(Puts(n), o), n, o);
    ExtendSafe(Puts(n), PutDigit(n), o);
  }

  /** A lone dead version above a visible one deeper down uncovers it. */
  lemma LoneUncovers(rs: seq<Reader>, t: Reader, l: nat, k: Key, v: Value, now: nat)
    requires Lone(rs, t, l, k, v) && !Live(v, now) && Show(Lookup(Deeper(rs, l), k), now).Some?
    ensures AtLevel(rs + [t], l) == [t] && Uncovers(rs + [t], l, now, k)
  {
    LoneLevel(rs, t, l, k, v);
    LoneMerged(rs, t, l, k, v);
    LoneDeeper(rs, t, l);
  }

  /** A cascade whose first step uncovers a version of the key leaves it uncovered. */
  lemma UncoveringCascade(rs: seq<Reader>, id: nat, l: nat, now: nat, o: Options, k: Key)
    requires o.l0Threshold >= 1 && l < LastLevel(o) && Full(rs, o, l) && AtLevel(rs, l) != []
    requires WF(rs) && (forall r <- rs :: r.meta.id < id) && CascadeInv(rs, o, l) && Uncovers(rs, l, now, k)
    ensures Show(Lookup(Cascaded(rs, id, l, now, o).0, k), now) == Show(Lookup(Deeper(rs, l), k), now)
  {
    FullStep(rs, id, l, now, o);
    CascadeInvStep(rs, id, l, now, o);
    CompactLookup(rs, l, now, id, k);
    CascadeOnlyUncovers(Compact(rs, l, now, id), StepId(rs, l, now, id), l + 1, now, o, k);
  }

  /** The cascade after a deletion is flushed above data that lies in level 2. */
  lemma DeletionCascade(rs: seq<Reader>, t: Reader, k: Key, v: Value, id: nat, now: nat, o: Options)
    requires Eager(o) && (forall r <- rs :: r.meta.level >= 2) && Lone(rs, t, 0, k, v) && !Live(v, now)
    requires Show(Lookup(rs, k), now).Some?
    requires WF(rs + [t]) && (forall r <- rs + [t] :: r.meta.id < id) && CascadeInv(rs + [t], o, 0)
    ensures Show(Lookup(Cascaded(rs + [t], id, 0, now, o).0, k), now) == Show(Lookup(rs, k), now)
  {
    PickEverything(rs, Below(1));
    LoneUncovers(rs, t, 0, k, v, now);
    LoneDeeper(rs, t, 0);
    EagerThresholds(o);
    UncoveringCascade(rs + [t], id, 0, now, o, k);
  }

  lemma TombstoneDead(v: Value, q: nat, now: nat)
    requires v == EncodeWithSeq(TOMBSTONE, q)
    ensures !Live(v, now)
  {
    InnerRoundTrip(TOMBSTONE, q, now);
  }

  /** A deletion above data that lies in level 2 uncovers it. */
  lemma DeleteUncovers(s: State, e: Event, o: Options)
    requires Eager(o) && Inv(s, o) && s.active == map[]
    requires forall r <- s.readers :: r.meta.level >= 2
    requires e.op.Delete? && Show(Lookup(s.readers, e.op.key), e.now).Some?
    ensures Show(Get(Write(s, e, o), e.op.key), e.now) == Show(Lookup(s.readers, e.op.key), e.now)
  {
    var k, v := e.op.key, EncodeWithSeq(TOMBSTONE, s.nextSeq);
    var t := OneKey(k, v, s.nextId, 0);
    WriteTops(s, e, v, o);
    TombstoneDead(v, s.nextSeq, e.now);
    AppliedInv(s, e, o);
    FlushedReadersInv(Applied(s, e), o);
    DeletionCascade(s.readers, t, k, v, s.nextId + 1, e.now, o);
    var (rs, id) := Cascaded(s.readers + [t], s.nextId + 1, 0, e.now, o);
    WriteCascades(s, e, t, rs, id, o);
  }

  /**
   Ten writes of different keys and the deletion of the first: the deleted key is readable
   again, although the map of last writes has it deleted.
   */
  lemma DeletedKeyReturns(o: Options) returns (evs: seq<Event>)
    requires Eager(o)
    ensures |evs| == 11 && Timely(evs) && evs[10].op == Delete(Digit(0))
    ensures SpecGet(SpecRun(evs), Digit(0), Clock(evs)) == None
    ensures Show(Get(Run(evs, o), Digit(0)), Clock(evs)) == Some(VALUE)
  {
    var n, e := 9, Event(Delete(Digit(0)), 0, 0);
    evs := Puts(n + 1) + [e];
    PutsTimely(n + 1);
    EagerThresholds(o);
    FillLevelTwo(n, o);
    PutsSpec(n + 1);
    DeleteAfter(Puts(n + 1), e, o);
    TenAndOne(Puts(n + 1), e);
  }

  lemma TenAndOne(puts: seq<Event>, e: Event)
    requires |puts| == 10 && Timely(puts) && (forall p <- puts :: p.now == 0) && e.now == 0
    ensures |puts + [e]| == 11 && (puts + [e])[10] == e && Timely(puts + [e]) && Clock(puts + [e]) == 0
  {
  }

  lemma DeleteAfter(puts: seq<Event>, e: Event, o: Options)
    requires Eager(o) && SafeRun(puts, o) && Run(puts, o).active == map[]
    requires (forall r <- Run(puts, o).readers :: r.meta.level >= 2) && (forall p <- puts :: p.now == 0)
    requires Digit(0) in SpecRun(puts) && SpecRun(puts)[Digit(0)] == VALUE
    requires e == Event(Delete(Digit(0)), 0, 0)
    ensures SpecGet(SpecRun(puts + [e]), Digit(0), 0) == None
    ensures Show(Get(Run(puts + [e], o), Digit(0)), 0) == Some(VALUE)
  {
    assert (puts + [e])[..|puts|] == puts;
    RunInv(puts, o);
    assert puts != [] ==> puts[|puts| - 1] in puts;
    RunRefines(puts, o);
    ShowDeleted(Run(puts, o), SpecRun(puts), e, o);
  }

  lemma ShowDeleted(s: State, m: Spec, e: Event, o: Options)
    requires Eager(o) && Inv(s, o) && s.active == map[] && Refines(s, m, 0)
    requires forall r <- s.readers :: r.meta.level >= 2
    requires e == Event(Delete(Digit(0)), 0, 0) && Digit(0) in m && m[Digit(0)] == VALUE
    ensures Show(Get(Write(s, e, o), Digit(0)), 0) == Some(VALUE)
    ensures SpecGet(SpecWrite(m, e), Digit(0), 0) == None
  {
    assert Show(Get(s, Digit(0)), 0) == SpecGet(m, Digit(0), 0);
    assert UnpackInner(VALUE, 0) == Some(VALUE);
    DeleteUncovers(s, e, o);
  }

  lemma {:induction false} PutsTimely(n: nat)
    requires n <= 256
    ensures forall i | 0 <= i < n :: Puts(n)[i].now == 0
  {
    if n > 0 {
      PutsTimely(n - 1);
    }
  }

  lemma {:induction false} PutsSpec(n: nat)
    requires 1 <= n <= 256
    ensures Digit(0) in SpecRun(Puts(n)) && SpecRun(Puts(n))[Digit(0)] == VALUE
  {
    assert Puts(n)[..n - 1] == Puts(n - 1);
    if n > 1 {
      PutsSpec(n - 1);
    }
  }
}
