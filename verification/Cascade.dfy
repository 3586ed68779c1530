/**
 The compaction cascade that follows every flush (src/engine.rs:555-572), and why a level
 is only ever compacted when everything above it has just been emptied.
 */
module Cascade {
  import opened Bytes
  import opened ValueCodec
  import opened Tables
  import opened Compaction

  datatype Options = Options(memtableSize: nat, l0Threshold: nat, maxLevels: nat, syncWal: bool)

  function Pow10(n: nat): (p: nat)
    ensures p >= 1
  {
    if n == 0 then 1 else 10 * Pow10(n - 1)
  }

  function Threshold(o: Options, level: nat): nat {
    o.l0Threshold * Pow10(level)
  }

  /** The levels that `maybe_compact` visits are those below this one. */
  function LastLevel(o: Options): nat {
    if o.maxLevels == 0 then 0 else o.maxLevels - 1
  }

  predicate Full(rs: seq<Reader>, o: Options, level: nat) {
    |AtLevel(rs, level)| >= Threshold(o, level)
  }

  lemma FullNonempty(rs: seq<Reader>, o: Options, level: nat)
    requires o.l0Threshold >= 1 && Full(rs, o, level)
    ensures AtLevel(rs, level) != []
  {
    ThresholdPositive(o, level);
  }

  lemma ThresholdPositive(o: Options, level: nat)
    requires o.l0Threshold >= 1
    ensures Threshold(o, level) >= 1
  {
    assert o.l0Threshold * Pow10(level) >= 1;
  }

  /** The first threshold is the option's; each level holds ten times as many tables as the one above it. */
  lemma ThresholdSteps(o: Options, level: nat)
    ensures Threshold(o, 0) == o.l0Threshold
    ensures Threshold(o, level + 1) == 10 * Threshold(o, level)
  {
    assert Pow10(0) == 1 && Pow10(level + 1) == 10 * Pow10(level);
  }

  function StepId(rs: seq<Reader>, src: nat, now: nat, id: nat): nat
    requires AtLevel(rs, src) != []
  {
    if LivePart(Merged(rs, src), now) == map[] then id else id + 1
  }

  function Cascaded(rs: seq<Reader>, id: nat, level: nat, now: nat, o: Options): (seq<Reader>, nat)
    requires o.l0Threshold >= 1
    decreases LastLevel(o) - level
  {
    if level >= LastLevel(o) then (rs, id)
    else if !Full(rs, o, level) then Cascaded(rs, id, level + 1, now, o)
    else
      FullNonempty(rs, o, level);
      Cascaded(Compact(rs, level, now, id), StepId(rs, level, now, id), level + 1, now, o)
  }

  /** A full level is compacted, and the cascade goes on with the result. */
  lemma CascadedStep(rs: seq<Reader>, id: nat, level: nat, now: nat, o: Options, next: seq<Reader>)
    requires o.l0Threshold >= 1 && level < LastLevel(o) && Full(rs, o, level) && AtLevel(rs, level) != []
    requires next == Compact(rs, level, now, id)
    ensures Cascaded(rs, id, level, now, o) == Cascaded(next, StepId(rs, level, now, id), level + 1, now, o)
  {
  }

  /** Every compaction of the cascade is a safe step. */
  ghost predicate SafeCascade(rs: seq<Reader>, id: nat, level: nat, now: nat, o: Options)
    requires o.l0Threshold >= 1
    decreases LastLevel(o) - level
  {
    if level >= LastLevel(o) then true
    else if !Full(rs, o, level) then SafeCascade(rs, id, level + 1, now, o)
    else
      FullNonempty(rs, o, level);
      && SafeStep(rs, level, now)
      && SafeCascade(Compact(rs, level, now, id), StepId(rs, level, now, id), level + 1, now, o)
  }

  // ---------------------------------------------------------------------
  // Level counts
  // ---------------------------------------------------------------------

  lemma {:induction false} PickPick(rs: seq<Reader>, c: Choice, d: Choice, e: Choice)
    requires forall r <- rs :: Takes(e, r.meta) <==> Takes(c, r.meta) && Takes(d, r.meta)
    ensures Pick(Pick(rs, c), d) == Pick(rs, e)
  {
    if rs != [] {
      var init, r := rs[..|rs| - 1], rs[|rs| - 1];
      assert rs == init + [r];
      PickPick(init, c, d, e);
      PickLast(init, r, c);
      PickLast(init, r, e);
      PickLast(Pick(init, c), r, d);
    }
  }

  lemma {:induction false} EmptyLevel(rs: seq<Reader>, l: nat)
    requires forall r <- rs :: r.meta.level != l
    ensures AtLevel(rs, l) == []
  {
    if rs != [] {
      EmptyLevel(rs[..|rs| - 1], l);
    }
  }

  lemma {:induction false} FewerAtLevel(rs: seq<Reader>, c: Choice, l: nat)
    ensures |AtLevel(Pick(rs, c), l)| <= |AtLevel(rs, l)|
  {
    if rs != [] {
      var init, r := rs[..|rs| - 1], rs[|rs| - 1];
      assert rs == init + [r];
      FewerAtLevel(init, c, l);
      PickLast(init, r, c);
      PickLast(init, r, Level(l));
      PickLast(Pick(init, c), r, Level(l));
    }
  }

  /** A compaction step empties its source, adds at most one table below, and leaves the rest. */
  lemma CompactCounts(rs: seq<Reader>, src: nat, now: nat, id: nat, l: nat)
    requires AtLevel(rs, src) != []
    ensures l == src ==> AtLevel(Compact(rs, src, now, id), l) == []
    ensures l != src && l != src + 1 ==> AtLevel(Compact(rs, src, now, id), l) == AtLevel(rs, l)
    ensures l == src + 1 ==> |AtLevel(Compact(rs, src, now, id), l)| <= |AtLevel(rs, l)| + 1
  {
    var c := Surviving(src, Lo(rs, src), Hi(rs, src));
    var out := Output(rs, src, now, id);
    PickAppend(Survivors(rs, src), out, Level(l));
    if out != [] {
      PickOne(out[0], Level(l));
    }
    if l == src {
      PickMembers(rs, c);
      EmptyLevel(Survivors(rs, src), l);
    } else if l == src + 1 {
      FewerAtLevel(rs, c, l);
    } else {
      PickPick(rs, c, Level(l), Level(l));
    }
  }

  // ---------------------------------------------------------------------
  // The cascade invariant
  // ---------------------------------------------------------------------

  /** Every visited level from `from` on is under its threshold. */
  ghost predicate Settled(rs: seq<Reader>, o: Options, from: nat) {
    forall l: nat | from <= l < LastLevel(o) :: !Full(rs, o, l)
  }

  ghost predicate SettledBelow(rs: seq<Reader>, o: Options, to: nat) {
    forall l: nat | l < to && l < LastLevel(o) :: !Full(rs, o, l)
  }

  /** Either nothing remains to be done, or everything above `level` is empty. */
  ghost predicate CascadeInv(rs: seq<Reader>, o: Options, level: nat) {
    && SettledBelow(rs, o, level)
    && Settled(rs, o, level + 1)
    && (Settled(rs, o, level) || ShallowEmpty(rs, level))
  }

  lemma CascadeInvStep(rs: seq<Reader>, id: nat, level: nat, now: nat, o: Options)
    requires o.l0Threshold >= 1 && CascadeInv(rs, o, level) && level < LastLevel(o)
    requires Full(rs, o, level) && AtLevel(rs, level) != []
    requires WF(rs) && forall r <- rs :: r.meta.id < id
    ensures ShallowEmpty(rs, level)
    ensures CascadeInv(Compact(rs, level, now, id), o, level + 1)
    ensures WF(Compact(rs, level, now, id))
    ensures forall r <- Compact(rs, level, now, id) :: r.meta.id < StepId(rs, level, now, id)
  {
    var rs' := Compact(rs, level, now, id);
    CompactWF(rs, level, now, id);
    CompactIds(rs, level, now, id);
    forall l: nat | l != level + 1 && l < LastLevel(o) ensures !Full(rs', o, l) {
      CompactNotFull(rs, id, level, now, o, l);
    }
  }

  lemma CompactIds(rs: seq<Reader>, src: nat, now: nat, id: nat)
    requires AtLevel(rs, src) != [] && forall r <- rs :: r.meta.id < id
    ensures forall r <- Compact(rs, src, now, id) :: r.meta.id < StepId(rs, src, now, id)
  {
    PickMembers(rs, Surviving(src, Lo(rs, src), Hi(rs, src)));
  }

  lemma CompactNotFull(rs: seq<Reader>, id: nat, level: nat, now: nat, o: Options, l: nat)
    requires o.l0Threshold >= 1 && AtLevel(rs, level) != []
    requires l == level || (l != level + 1 && !Full(rs, o, l))
    ensures !Full(Compact(rs, level, now, id), o, l)
  {
    CompactCounts(rs, level, now, id, l);
    ThresholdPositive(o, l);
  }

  /** All tables lie in levels below the limit. */
  ghost predicate Depth(rs: seq<Reader>, limit: nat) {
    forall r <- rs :: r.meta.level <= limit
  }

  lemma CompactDepth(rs: seq<Reader>, src: nat, now: nat, id: nat, limit: nat)
    requires AtLevel(rs, src) != [] && Depth(rs, limit) && src + 1 <= limit
    ensures Depth(Compact(rs, src, now, id), limit)
  {
    PickMembers(rs, Surviving(src, Lo(rs, src), Hi(rs, src)));
  }

  /**
   The cascade keeps the reader-list invariant and ends with every level but the last under
   its threshold.
   */
  lemma {:induction false} CascadeKeeps(rs: seq<Reader>, id: nat, level: nat, now: nat, o: Options)
    requires o.l0Threshold >= 1 && CascadeInv(rs, o, level) && Depth(rs, LastLevel(o))
    requires WF(rs) && forall r <- rs :: r.meta.id < id
    ensures var (rs', id') := Cascaded(rs, id, level, now, o);
            WF(rs') && (forall r <- rs' :: r.meta.id < id') && id <= id' &&
            Settled(rs', o, 0) && Depth(rs', LastLevel(o))
    decreases LastLevel(o) - level
  {
    if level >= LastLevel(o) {
    } else if !Full(rs, o, level) {
      CascadeKeeps(rs, id, level + 1, now, o);
    } else {
      FullNonempty(rs, o, level);
      CascadeInvStep(rs, id, level, now, o);
      CompactDepth(rs, level, now, id, LastLevel(o));
      CascadeKeeps(Compact(rs, level, now, id), StepId(rs, level, now, id), level + 1, now, o);
    }
  }

  /** What every compaction keeps, the cascade keeps. */
  lemma {:induction false} CascadeInduction(rs: seq<Reader>, id: nat, level: nat, now: nat, o: Options,
                                            keeps: seq<Reader> -> bool)
    requires o.l0Threshold >= 1 && CascadeInv(rs, o, level)
    requires WF(rs) && forall r <- rs :: r.meta.id < id
    requires forall xs, l: nat, i: nat | WF(xs) && AtLevel(xs, l) != [] && ShallowEmpty(xs, l) && keeps(xs) ::
               keeps(Compact(xs, l, now, i))
    requires keeps(rs)
    ensures keeps(Cascaded(rs, id, level, now, o).0)
    decreases LastLevel(o) - level
  {
    if level >= LastLevel(o) {
    } else if !Full(rs, o, level) {
      CascadeInduction(rs, id, level + 1, now, o, keeps);
    } else {
      FullNonempty(rs, o, level);
      var next := Compact(rs, level, now, id);
      CascadeInvStep(rs, id, level, now, o);
      CascadedStep(rs, id, level, now, o, next);
      CascadeInduction(next, StepId(rs, level, now, id), level + 1, now, o, keeps);
    }
  }

  // ---------------------------------------------------------------------
  // Which levels are compacted, by table counts
  // ---------------------------------------------------------------------

  /** With every level but the last below its limit nothing is compacted. */
  lemma {:induction false} NothingToDo(rs: seq<Reader>, id: nat, level: nat, now: nat, o: Options)
    requires o.l0Threshold >= 1
    requires forall l: nat | level <= l && l + 1 < o.maxLevels :: |AtLevel(rs, l)| < o.l0Threshold * Pow10(l)
    ensures Cascaded(rs, id, level, now, o) == (rs, id)
    decreases LastLevel(o) - level
  {
    if level < LastLevel(o) {
      NothingToDo(rs, id, level + 1, now, o);
    }
  }

  /** Levels below their limits are passed over. */
  lemma {:induction false} PassesOver(rs: seq<Reader>, id: nat, level: nat, l: nat, now: nat, o: Options)
    requires o.l0Threshold >= 1 && level <= l < LastLevel(o)
    requires forall m: nat | level <= m < l :: |AtLevel(rs, m)| < o.l0Threshold * Pow10(m)
    ensures Cascaded(rs, id, level, now, o) == Cascaded(rs, id, l, now, o)
    decreases l - level
  {
    if level < l {
      PassesOver(rs, id, level + 1, l, now, o);
    }
  }

  /** Deeper compactions bring nothing up. */
  lemma {:induction false} StaysEmpty(rs: seq<Reader>, id: nat, level: nat, l: nat, now: nat, o: Options)
    requires o.l0Threshold >= 1 && l < level && AtLevel(rs, l) == []
    ensures AtLevel(Cascaded(rs, id, level, now, o).0, l) == []
    decreases LastLevel(o) - level
  {
    if level >= LastLevel(o) {
    } else if !Full(rs, o, level) {
      StaysEmpty(rs, id, level + 1, l, now, o);
    } else {
      FullNonempty(rs, o, level);
      var next := Compact(rs, level, now, id);
      CompactCounts(rs, level, now, id, l);
      CascadedStep(rs, id, level, now, o, next);
      StaysEmpty(next, StepId(rs, level, now, id), level + 1, l, now, o);
    }
  }

  /** The shallowest level that has reached its limit, other than the last, is empty afterwards. */
  lemma FullIsEmptied(rs: seq<Reader>, id: nat, l: nat, now: nat, o: Options)
    requires o.l0Threshold >= 1 && l + 1 < o.maxLevels && |AtLevel(rs, l)| >= o.l0Threshold * Pow10(l)
    requires forall m: nat | m < l :: |AtLevel(rs, m)| < o.l0Threshold * Pow10(m)
    ensures AtLevel(Cascaded(rs, id, 0, now, o).0, l) == []
  {
    PassesOver(rs, id, 0, l, now, o);
    FullNonempty(rs, o, l);
    CompactCounts(rs, l, now, id, l);
    CascadedStep(rs, id, l, now, o, Compact(rs, l, now, id));
    StaysEmpty(Compact(rs, l, now, id), StepId(rs, l, now, id), l + 1, l, now, o);
  }

  lemma RoomLeft(rs: seq<Reader>, id: nat, src: nat, now: nat, m: nat, limit: nat)
    requires AtLevel(rs, src) != [] && src < m && |AtLevel(rs, m)| + (if m == src + 1 then 1 else 0) < limit
    ensures |AtLevel(Compact(rs, src, now, id), m)| < limit
  {
    CompactCounts(rs, src, now, id, m);
  }

  /** If the next level has room for one more table, that one compaction is all that happens. */
  lemma OneCompaction(rs: seq<Reader>, id: nat, l: nat, now: nat, o: Options)
    requires o.l0Threshold >= 1 && l + 1 < o.maxLevels && |AtLevel(rs, l)| >= o.l0Threshold * Pow10(l)
    requires forall m: nat | m != l && m + 1 < o.maxLevels ::
               |AtLevel(rs, m)| + (if m == l + 1 then 1 else 0) < o.l0Threshold * Pow10(m)
    ensures AtLevel(rs, l) != []
    ensures Cascaded(rs, id, 0, now, o) == (Compact(rs, l, now, id), StepId(rs, l, now, id))
  {
    PassesOver(rs, id, 0, l, now, o);
    FullNonempty(rs, o, l);
    var next := Compact(rs, l, now, id);
    CascadedStep(rs, id, l, now, o, next);
    forall m: nat | l + 1 <= m && m + 1 < o.maxLevels ensures |AtLevel(next, m)| < o.l0Threshold * Pow10(m) {
      RoomLeft(rs, id, l, now, m, o.l0Threshold * Pow10(m));
    }
    NothingToDo(next, StepId(rs, l, now, id), l + 1, now, o);
  }

  // ---------------------------------------------------------------------
  // The view
  // ---------------------------------------------------------------------

  /** A cascade of safe steps shows every key as before, now and later. */
  lemma {:induction false} SafeCascadeShows(rs: seq<Reader>, id: nat, level: nat, now: nat, o: Options, k: Key,
                                            later: nat)
    requires o.l0Threshold >= 1 && CascadeInv(rs, o, level) && now <= later
    requires WF(rs) && forall r <- rs :: r.meta.id < id
    requires SafeCascade(rs, id, level, now, o)
    ensures Show(Lookup(Cascaded(rs, id, level, now, o).0, k), later) == Show(Lookup(rs, k), later)
    decreases LastLevel(o) - level
  {
    if level >= LastLevel(o) {
    } else if !Full(rs, o, level) {
      SafeCascadeShows(rs, id, level + 1, now, o, k, later);
    } else {
      FullNonempty(rs, o, level);
      var next := Compact(rs, level, now, id);
      CascadeInvStep(rs, id, level, now, o);
      CascadedStep(rs, id, level, now, o, next);
      CompactShow(rs, level, now, id, k, later);
      SafeCascadeShows(next, StepId(rs, level, now, id), level + 1, now, o, k, later);
    }
  }

  /** At the compaction clock a cascade never hides or changes a visible key. */
  lemma CascadeOnlyUncovers(rs: seq<Reader>, id: nat, level: nat, now: nat, o: Options, k: Key)
    requires o.l0Threshold >= 1 && CascadeInv(rs, o, level)
    requires WF(rs) && forall r <- rs :: r.meta.id < id
    ensures Show(Lookup(rs, k), now).Some? ==>
            Show(Lookup(Cascaded(rs, id, level, now, o).0, k), now) == Show(Lookup(rs, k), now)
  {
    var shown := Show(Lookup(rs, k), now);
    var keeps := xs => shown.Some? ==> Show(Lookup(xs, k), now) == shown;
    forall xs, l: nat, i: nat | WF(xs) && AtLevel(xs, l) != [] && ShallowEmpty(xs, l) && keeps(xs)
      ensures keeps(Compact(xs, l, now, i))
    {
      CompactShow(xs, l, now, i, k, now);
    }
    CascadeInduction(rs, id, level, now, o, keeps);
  }

  /** An unsafe cascade makes some hidden key visible again, at once. */
  lemma {:induction false} UnsafeCascadeUncovers(rs: seq<Reader>, id: nat, level: nat, now: nat, o: Options)
      returns (k: Key)
    requires o.l0Threshold >= 1 && CascadeInv(rs, o, level)
    requires WF(rs) && forall r <- rs :: r.meta.id < id
    requires !SafeCascade(rs, id, level, now, o)
    ensures Show(Lookup(rs, k), now) == None
    ensures Show(Lookup(Cascaded(rs, id, level, now, o).0, k), now).Some?
    decreases LastLevel(o) - level
  {
    if !Full(rs, o, level) {
      k := UnsafeCascadeUncovers(rs, id, level + 1, now, o);
    } else {
      FullNonempty(rs, o, level);
      CascadeInvStep(rs, id, level, now, o);
      var rs', id' := Compact(rs, level, now, id), StepId(rs, level, now, id);
      if SafeStep(rs, level, now) {
        k := UnsafeCascadeUncovers(rs', id', level + 1, now, o);
        CompactShow(rs, level, now, id, k, now);
      } else {
        k :| Uncovers(rs, level, now, k);
        CompactShow(rs, level, now, id, k, now);
        CascadeOnlyUncovers(rs', id', level + 1, now, o, k);
      }
    }
  }

  /** No compaction of the cascade merges a table whose range meets that of a table below its destination. */
  ghost predicate ClearCascade(rs: seq<Reader>, id: nat, level: nat, now: nat, o: Options)
    requires o.l0Threshold >= 1
    decreases LastLevel(o) - level
  {
    if level >= LastLevel(o) then true
    else if !Full(rs, o, level) then ClearCascade(rs, id, level + 1, now, o)
    else
      FullNonempty(rs, o, level);
      && NoDeeperOverlap(rs, level)
      && ClearCascade(Compact(rs, level, now, id), StepId(rs, level, now, id), level + 1, now, o)
  }

  /** Such a cascade is safe, with any number of levels. */
  lemma {:induction false} ClearCascadeSafe(rs: seq<Reader>, id: nat, level: nat, now: nat, o: Options)
    requires o.l0Threshold >= 1 && CascadeInv(rs, o, level)
    requires WF(rs) && forall r <- rs :: r.meta.id < id
    requires ClearCascade(rs, id, level, now, o)
    ensures SafeCascade(rs, id, level, now, o)
    decreases LastLevel(o) - level
  {
    if level >= LastLevel(o) {
    } else if !Full(rs, o, level) {
      ClearCascadeSafe(rs, id, level + 1, now, o);
    } else {
      FullNonempty(rs, o, level);
      NoDeeperOverlapIsSafe(rs, level, now);
      CascadeInvStep(rs, id, level, now, o);
      ClearCascadeSafe(Compact(rs, level, now, id), StepId(rs, level, now, id), level + 1, now, o);
    }
  }

  /** With at most two levels nothing lies below the destination, so every cascade is safe. */
  lemma {:induction false} TwoLevelsSafe(rs: seq<Reader>, id: nat, level: nat, now: nat, o: Options)
    requires o.l0Threshold >= 1 && o.maxLevels <= 2 && Depth(rs, LastLevel(o))
    ensures SafeCascade(rs, id, level, now, o)
    decreases LastLevel(o) - level
  {
    if level < LastLevel(o) {
      if Full(rs, o, level) {
        FullNonempty(rs, o, level);
        PickMembers(rs, Below(level + 1));
        forall k ensures !Uncovers(rs, level, now, k) {
          LookupNone(Deeper(rs, level), k);
        }
        CompactDepth(rs, level, now, id, LastLevel(o));
        TwoLevelsSafe(Compact(rs, level, now, id), StepId(rs, level, now, id), level + 1, now, o);
      } else {
        TwoLevelsSafe(rs, id, level + 1, now, o);
      }
    }
  }
}
