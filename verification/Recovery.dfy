/**
 Reopening a database (src/engine.rs:129-187, 489-504): the log is replayed and the readers are
 rebuilt level by level, shallow levels first. When does the reopened engine answer as before?
 */
module Recovery {
  import opened Bytes
  import opened OrderedMaps
  import opened ValueCodec
  import opened Tables
  import opened Compaction
  import opened Cascade
  import opened WalRecord
  import opened Sizes
  import opened Machine

  // ---------------------------------------------------------------------
  // Log replay
  // ---------------------------------------------------------------------

  function ReplayOne(m: map<Key, Value>, r: Record): map<Key, Value> {
    m[r.key := if r.op.OpDelete? then TOMBSTONE else r.value]
  }

  function Replay(wal: seq<Record>): map<Key, Value> {
    if wal == [] then map[] else ReplayOne(Replay(wal[..|wal| - 1]), wal[|wal| - 1])
  }

  /** The answer for a key from a log that is replayed above tables. */
  function LogGet(rs: seq<Reader>, log: seq<Record>, k: Key): Option<Value> {
    if k in Replay(log) then Some(Replay(log)[k]) else Lookup(rs, k)
  }

  /** The engine that has replayed `log`. */
  function WithLog(s: State, log: seq<Record>, size: nat): State {
    s.(wal := log, active := Replay(log), size := size)
  }

  lemma WithLogAnswers(s: State, log: seq<Record>, size: nat, k: Key)
    ensures Get(WithLog(s, log, size), k) == LogGet(s.readers, log, k)
  {
  }

  /** Records of a log's end name the versions that the whole log leaves. */
  lemma {:induction false} ReplaySuffix(wal: seq<Record>, j: nat, k: Key)
    requires j <= |wal| && k in Replay(wal[j..])
    ensures k in Replay(wal) && Replay(wal)[k] == Replay(wal[j..])[k]
  {
    var init, last := wal[..|wal| - 1], wal[|wal| - 1];
    assert wal[j..][..|wal[j..]| - 1] == init[j..];
    if k != last.key {
      ReplaySuffix(init, j, k);
    }
  }

  /** Later records win over earlier ones. */
  lemma {:induction false} ReplayConcat(a: seq<Record>, b: seq<Record>, k: Key)
    ensures k in Replay(a + b) <==> k in Replay(a) || k in Replay(b)
    ensures k in Replay(a + b) ==> Replay(a + b)[k] == if k in Replay(b) then Replay(b)[k] else Replay(a)[k]
  {
    if b == [] {
      assert a + b == a;
    } else {
      var init := b[..|b| - 1];
      assert (a + b)[..|a + b| - 1] == a + init;
      ReplayConcat(a, init, k);
    }
  }

  /** The log and the active list show the same for every key, forever. */
  ghost predicate LogMatches(s: State) {
    && Replay(s.wal).Keys == s.active.Keys
    && forall k, t | k in s.active :: UnpackValue(Replay(s.wal)[k], t) == UnpackValue(s.active[k], t)
  }

  /** The whole log shows what the running engine shows. */
  lemma WholeLogShows(s: State, k: Key, t: nat)
    requires LogMatches(s)
    ensures Show(LogGet(s.readers, s.wal, k), t) == Show(Get(s, k), t)
  {
  }

  lemma AppliedLogMatches(s: State, e: Event)
    requires LogMatches(s)
    ensures LogMatches(Applied(s, e))
  {
    var s1, rec := Applied(s, e), RecordOf(e.op, e.now, s.nextSeq);
    assert s1.wal[..|s.wal|] == s.wal;
    forall k, t | k in s1.active ensures UnpackValue(Replay(s1.wal)[k], t) == UnpackValue(s1.active[k], t) {
      if k == rec.key && e.op.Delete? {
        InnerRoundTrip(TOMBSTONE, s.nextSeq, t);
      }
    }
  }

  lemma WriteLogMatches(s: State, e: Event, o: Options)
    requires LogMatches(s) && o.l0Threshold >= 1
    ensures LogMatches(Write(s, e, o))
  {
    AppliedLogMatches(s, e);
  }

  // ---------------------------------------------------------------------
  // The directory
  // ---------------------------------------------------------------------

  /** Table files by id, the saved manifest, and the records of the log. */
  datatype Disk = Disk(files: map<nat, map<Key, Value>>, levels: seq<seq<SSTMeta>>, wal: seq<Record>)

  function Metas(rs: seq<Reader>): (ms: seq<SSTMeta>)
    ensures |ms| == |rs| && forall i | 0 <= i < |rs| :: ms[i] == rs[i].meta
  {
    if rs == [] then [] else Metas(rs[..|rs| - 1]) + [rs[|rs| - 1].meta]
  }

  /** The directory holds the state: its tables, its manifest, its log. Other files may lie around. */
  ghost predicate Stores(d: Disk, s: State) {
    && (forall r <- s.readers :: r.meta.id in d.files && d.files[r.meta.id] == r.data)
    && (forall r <- s.readers :: r.meta.level < |d.levels|)
    && (forall l | 0 <= l < |d.levels| :: d.levels[l] == Metas(AtLevel(s.readers, l)))
    && d.wal == s.wal
  }

  function OpenLevel(metas: seq<SSTMeta>, files: map<nat, map<Key, Value>>): seq<Reader> {
    if metas == [] then []
    else
      var rest, m := OpenLevel(metas[..|metas| - 1], files), metas[|metas| - 1];
      if m.id in files then rest + [Reader(m, files[m.id])] else rest
  }

  function OpenLevels(levels: seq<seq<SSTMeta>>, files: map<nat, map<Key, Value>>): seq<Reader> {
    if levels == [] then []
    else OpenLevels(levels[..|levels| - 1], files) + OpenLevel(levels[|levels| - 1], files)
  }

  function NextIdOf(rs: seq<Reader>): nat {
    if rs == [] then 1
    else
      var n, id := NextIdOf(rs[..|rs| - 1]), rs[|rs| - 1].meta.id;
      if id >= n then id + 1 else n
  }

  /** `open_with_options`; `size` is what the replayed list's towers add up to. */
  function Open(d: Disk, size: nat): State {
    var rs := OpenLevels(d.levels, d.files);
    State(Replay(d.wal), size, d.wal, rs, 1, NextIdOf(rs))
  }

  lemma {:induction false} NextIdAbove(rs: seq<Reader>)
    ensures forall r <- rs :: r.meta.id < NextIdOf(rs)
    ensures NextIdOf(rs) >= 1
  {
    if rs != [] {
      NextIdAbove(rs[..|rs| - 1]);
    }
  }

  /** The reader list after a reopen: the first `n` levels, shallow first. */
  function ByLevel(rs: seq<Reader>, n: nat): seq<Reader> {
    if n == 0 then [] else ByLevel(rs, n - 1) + AtLevel(rs, n - 1)
  }

  lemma {:induction false} OpenLevelReads(rs: seq<Reader>, files: map<nat, map<Key, Value>>)
    requires forall r <- rs :: r.meta.id in files && files[r.meta.id] == r.data
    ensures OpenLevel(Metas(rs), files) == rs
  {
    if rs != [] {
      var init := rs[..|rs| - 1];
      OpenLevelReads(init, files);
      assert Metas(rs)[..|rs| - 1] == Metas(init);
      assert rs == init + [rs[|rs| - 1]];
    }
  }

  lemma OneLevelReads(d: Disk, s: State, l: nat)
    requires Stores(d, s) && l < |d.levels|
    ensures OpenLevel(d.levels[l], d.files) == AtLevel(s.readers, l)
  {
    PickMembers(s.readers, Level(l));
    OpenLevelReads(AtLevel(s.readers, l), d.files);
  }

  lemma OpenLevelsLast(levels: seq<seq<SSTMeta>>, n: nat, files: map<nat, map<Key, Value>>)
    requires n < |levels|
    ensures OpenLevels(levels[..n + 1], files) == OpenLevels(levels[..n], files) + OpenLevel(levels[n], files)
  {
    assert levels[..n + 1][..n] == levels[..n];
  }

  lemma {:induction false} OpenLevelsReads(d: Disk, s: State, n: nat)
    requires Stores(d, s) && n <= |d.levels|
    ensures OpenLevels(d.levels[..n], d.files) == ByLevel(s.readers, n)
  {
    if n > 0 {
      OpenLevelsReads(d, s, n - 1);
      OpenLevelsLast(d.levels, n - 1, d.files);
      OneLevelReads(d, s, n - 1);
    }
  }

  /** Opening depends only on what the manifest lists: stray files change nothing. */
  lemma OpenStored(d: Disk, s: State, size: nat)
    requires Stores(d, s)
    ensures Open(d, size).readers == ByLevel(s.readers, |d.levels|)
    ensures Open(d, size).active == Replay(s.wal)
  {
    OpenLevelsReads(d, s, |d.levels|);
    assert d.levels[..|d.levels|] == d.levels;
  }

  // ---------------------------------------------------------------------
  // Shallowest and deepest answers
  // ---------------------------------------------------------------------

  function LevelLookup(rs: seq<Reader>, l: nat, k: Key): Option<Value> {
    Lookup(AtLevel(rs, l), k)
  }

  ghost predicate Shallowest(rs: seq<Reader>, k: Key, l: nat) {
    LevelLookup(rs, l, k).Some? && forall m: nat | m < l :: LevelLookup(rs, m, k).None?
  }

  ghost predicate Deepest(rs: seq<Reader>, k: Key, l: nat, n: nat) {
    l < n && LevelLookup(rs, l, k).Some? && forall m: nat | l < m < n :: LevelLookup(rs, m, k).None?
  }

  lemma HolderLevel(rs: seq<Reader>, k: Key, l: nat)
    ensures LevelLookup(rs, l, k).Some? <==> exists r :: r in rs && r.meta.level == l && k in r.data
  {
    PickMembers(rs, Level(l));
    HoldsLookup(AtLevel(rs, l), k);
    if r :| r in rs && r.meta.level == l && k in r.data {
      assert r in AtLevel(rs, l);
    }
  }

  /** In the running engine the shallowest level holding a key answers. */
  lemma ShallowestAnswers(rs: seq<Reader>, k: Key, l: nat)
    requires WF(rs) && Shallowest(rs, k, l)
    ensures Lookup(rs, k) == LevelLookup(rs, l, k)
  {
    HolderLevel(rs, k, l);
    LookupNewest(rs, k);
    var r :| r in rs && r.meta.level == l && k in r.data;
    var p :| Newest(rs, k, p) && Lookup(rs, k) == Some(rs[p].data[k]);
    var i :| 0 <= i < |rs| && rs[i] == r;
    assert rs[p].meta.level <= l by {
      if i != p { assert Compatible(rs[i], rs[p]); }
    }
    assert rs[p] in rs;
    HolderLevel(rs, k, rs[p].meta.level);
    LookupPick(rs, Level(l), k, p);
  }

  lemma NoLevelNoAnswer(rs: seq<Reader>, k: Key)
    requires forall l: nat :: LevelLookup(rs, l, k).None?
    ensures Lookup(rs, k) == None
  {
    forall r <- rs ensures k !in r.data {
      if k in r.data {
        HolderLevel(rs, k, r.meta.level);
      }
    }
    LookupNone(rs, k);
  }

  /** In the reopened engine the deepest level holding a key answers. */
  lemma {:induction false} DeepestAnswers(rs: seq<Reader>, k: Key, l: nat, n: nat)
    requires Deepest(rs, k, l, n)
    ensures Lookup(ByLevel(rs, n), k) == LevelLookup(rs, l, k)
  {
    LookupAppend(ByLevel(rs, n - 1), AtLevel(rs, n - 1), k);
    if l < n - 1 {
      assert LevelLookup(rs, n - 1, k).None?;
      DeepestAnswers(rs, k, l, n - 1);
    }
  }

  lemma {:induction false} NoLevelNoReopenedAnswer(rs: seq<Reader>, k: Key, n: nat)
    requires forall l: nat | l < n :: LevelLookup(rs, l, k).None?
    ensures Lookup(ByLevel(rs, n), k) == None
  {
    if n > 0 {
      assert LevelLookup(rs, n - 1, k).None?;
      NoLevelNoReopenedAnswer(rs, k, n - 1);
      LookupAppend(ByLevel(rs, n - 1), AtLevel(rs, n - 1), k);
    }
  }

  lemma {:induction false} FindShallowest(rs: seq<Reader>, k: Key, n: nat) returns (l: nat)
    requires exists m: nat :: m < n && LevelLookup(rs, m, k).Some?
    ensures l < n && Shallowest(rs, k, l)
  {
    if m: nat :| m < n - 1 && LevelLookup(rs, m, k).Some? {
      l := FindShallowest(rs, k, n - 1);
    } else {
      l := n - 1;
    }
  }

  lemma {:induction false} FindDeepest(rs: seq<Reader>, k: Key, n: nat) returns (l: nat)
    requires exists m: nat :: m < n && LevelLookup(rs, m, k).Some?
    ensures Deepest(rs, k, l, n)
  {
    if LevelLookup(rs, n - 1, k).Some? {
      l := n - 1;
    } else {
      l := FindDeepest(rs, k, n - 1);
    }
  }

  /** Two levels hold different versions of `k`, and the deepest shows something else than the shallowest. */
  ghost predicate Stale(rs: seq<Reader>, n: nat, k: Key, t: nat) {
    exists l: nat, m: nat ::
      && l < m && Shallowest(rs, k, l) && Deepest(rs, k, m, n)
      && Show(LevelLookup(rs, l, k), t) != Show(LevelLookup(rs, m, k), t)
  }

  lemma ByLevelShowsIff(rs: seq<Reader>, n: nat, k: Key, t: nat)
    requires WF(rs) && forall r <- rs :: r.meta.level < n
    ensures Show(Lookup(ByLevel(rs, n), k), t) == Show(Lookup(rs, k), t) <==> !Stale(rs, n, k, t)
  {
    if m: nat :| m < n && LevelLookup(rs, m, k).Some? {
      var l := FindShallowest(rs, k, n);
      var d := FindDeepest(rs, k, n);
      ShallowestAnswers(rs, k, l);
      DeepestAnswers(rs, k, d, n);
      SameExtremes(rs, k, l, d, n, t);
    } else {
      forall l: nat ensures LevelLookup(rs, l, k).None? {
        HolderLevel(rs, k, l);
      }
      NoLevelNoAnswer(rs, k);
      NoLevelNoReopenedAnswer(rs, k, n);
    }
  }

  lemma SameExtremes(rs: seq<Reader>, k: Key, l: nat, d: nat, n: nat, t: nat)
    requires Shallowest(rs, k, l) && Deepest(rs, k, d, n)
    ensures l <= d
    ensures Stale(rs, n, k, t) <==> Show(LevelLookup(rs, l, k), t) != Show(LevelLookup(rs, d, k), t)
  {
    if Stale(rs, n, k, t) {
      var l', d' :| l' < d' && Shallowest(rs, k, l') && Deepest(rs, k, d', n)
                    && Show(LevelLookup(rs, l', k), t) != Show(LevelLookup(rs, d', k), t);
      assert l' == l && d' == d;
    }
  }

  /**
   Reopening shows every key as before exactly when no key outside the log is stale: held in two
   levels whose deepest version shows something else than the shallowest.
   */
  lemma ReopenShowsIff(s: State, d: Disk, size: nat, t: nat)
    requires WF(s.readers) && LogMatches(s) && Stores(d, s)
    ensures (forall k :: Show(Get(Open(d, size), k), t) == Show(Get(s, k), t)) <==>
            (forall k :: k in s.active || !Stale(s.readers, |d.levels|, k, t))
  {
    OpenStored(d, s, size);
    forall k ensures Show(Get(Open(d, size), k), t) == Show(Get(s, k), t) <==>
                     k in s.active || !Stale(s.readers, |d.levels|, k, t)
    {
      ByLevelShowsIff(s.readers, |d.levels|, k, t);
    }
  }

  // ---------------------------------------------------------------------
  // A sufficient condition: no key lies in two levels
  // ---------------------------------------------------------------------

  ghost predicate OneLevelPerKey(rs: seq<Reader>) {
    forall a, b, k | a in rs && b in rs && k in a.data && k in b.data :: a.meta.level == b.meta.level
  }

  lemma OneLevelNotStale(rs: seq<Reader>, n: nat, k: Key, t: nat)
    requires OneLevelPerKey(rs)
    ensures !Stale(rs, n, k, t)
  {
    if Stale(rs, n, k, t) {
      var l, m :| l < m && Shallowest(rs, k, l) && Deepest(rs, k, m, n)
                  && Show(LevelLookup(rs, l, k), t) != Show(LevelLookup(rs, m, k), t);
      HolderLevel(rs, k, l);
      HolderLevel(rs, k, m);
    }
  }

  lemma {:induction false} ByLevelMembers(rs: seq<Reader>, n: nat)
    ensures forall r :: r in ByLevel(rs, n) <==> r in rs && r.meta.level < n
  {
    if n > 0 {
      ByLevelMembers(rs, n - 1);
      PickMembers(rs, Level(n - 1));
    }
  }

  lemma WFConcat(a: seq<Reader>, b: seq<Reader>)
    requires WF(a) && WF(b) && forall x <- a, y <- b :: Compatible(x, y)
    ensures WF(a + b)
  {
    var ab := a + b;
    forall i, j | 0 <= i < j < |ab| ensures Compatible(ab[i], ab[j]) {
      if i < |a| <= j {
        assert ab[i] in a && ab[j] in b;
      } else if j < |a| {
        assert Compatible(a[i], a[j]);
      } else {
        assert Compatible(b[i - |a|], b[j - |a|]);
      }
    }
  }

  /** The rebuilt list satisfies the reader-list invariant again. */
  lemma {:induction false} ByLevelWF(rs: seq<Reader>, n: nat)
    requires WF(rs) && OneLevelPerKey(rs)
    ensures WF(ByLevel(rs, n))
  {
    if n > 0 {
      ByLevelWF(rs, n - 1);
      WFPick(rs, Level(n - 1));
      ByLevelMembers(rs, n - 1);
      PickMembers(rs, Level(n - 1));
      forall x <- ByLevel(rs, n - 1), y <- AtLevel(rs, n - 1) ensures Compatible(x, y) {
        var i :| 0 <= i < |rs| && rs[i] == x;
        var j :| 0 <= j < |rs| && rs[j] == y;
        assert Compatible(rs[if i < j then i else j], rs[if i < j then j else i]);
      }
      WFConcat(ByLevel(rs, n - 1), AtLevel(rs, n - 1));
    }
  }

  lemma {:induction false} ByLevelCounts(rs: seq<Reader>, n: nat, l: nat)
    ensures AtLevel(ByLevel(rs, n), l) == if l < n then AtLevel(rs, l) else []
  {
    if n > 0 {
      ByLevelCounts(rs, n - 1, l);
      PickAppend(ByLevel(rs, n - 1), AtLevel(rs, n - 1), Level(l));
      if l == n - 1 {
        PickPick(rs, Level(l), Level(l), Level(l));
      } else {
        PickMembers(rs, Level(n - 1));
        EmptyLevel(AtLevel(rs, n - 1), l);
      }
    }
  }

  predicate FitsList(active: map<Key, Value>, size: nat) {
    size >= LIST_SIZE && (size == LIST_SIZE <==> active == map[])
  }

  /** A reopened engine is again in a good state, and shows what the closed one showed. */
  lemma ReopenKeeps(s: State, d: Disk, size: nat, o: Options)
    requires Inv(s, o) && LogMatches(s) && Stores(d, s) && OneLevelPerKey(s.readers)
    requires FitsList(Replay(s.wal), size)
    ensures Inv(Open(d, size), o) && LogMatches(Open(d, size))
    ensures forall k, t :: Show(Get(Open(d, size), k), t) == Show(Get(s, k), t)
  {
    var n := |d.levels|;
    OpenStored(d, s, size);
    ByLevelWF(s.readers, n);
    ByLevelMembers(s.readers, n);
    NextIdAbove(ByLevel(s.readers, n));
    forall l: nat | 1 <= l < LastLevel(o) ensures !Full(ByLevel(s.readers, n), o, l) {
      ByLevelCounts(s.readers, n, l);
      ThresholdPositive(o, l);
      assert !Full(s.readers, o, l);
    }
    forall k, t ensures Show(Get(Open(d, size), k), t) == Show(Get(s, k), t) {
      OneLevelNotStale(s.readers, n, k, t);
      ByLevelShowsIff(s.readers, n, k, t);
    }
  }

  // ---------------------------------------------------------------------
  // Tables and whatever log is left
  // ---------------------------------------------------------------------

  /** A directory whose log was exchanged opens as its tables and that log. */
  lemma OpenLogShows(s: State, d: Disk, log: seq<Record>, size: nat, k: Key, t: nat)
    requires WF(s.readers) && Stores(d, s) && OneLevelPerKey(s.readers)
    ensures Show(Get(Open(d.(wal := log), size), k), t) == Show(LogGet(s.readers, log, k), t)
  {
    OpenStored(d.(wal := log), s.(wal := log), size);
    TablesReopen(s.readers, |d.levels|, k, t);
  }

  /** Regrouping tables of which no two levels share a key changes no answer. */
  lemma TablesReopen(rs: seq<Reader>, n: nat, k: Key, t: nat)
    requires WF(rs) && OneLevelPerKey(rs) && forall r <- rs :: r.meta.level < n
    ensures Show(Lookup(ByLevel(rs, n), k), t) == Show(Lookup(rs, k), t)
  {
    ByLevelShowsIff(rs, n, k, t);
    OneLevelNotStale(rs, n, k, t);
  }

  /** What the log has to say about its keys at clock `t` is what the tables say. */
  ghost predicate HarmlessAt(rs: seq<Reader>, log: seq<Record>, t: nat) {
    forall k | k in Replay(log) :: Show(Some(Replay(log)[k]), t) == Show(Lookup(rs, k), t)
  }

  /** A log above tables that already hold its writes changes no answer if and only if it is harmless. */
  lemma LogAboveTablesIff(s: State, d: Disk, log: seq<Record>, size: nat, t: nat)
    requires WF(s.readers) && Stores(d, s) && OneLevelPerKey(s.readers)
    ensures (forall k :: Show(Get(Open(d.(wal := log), size), k), t) == Show(Lookup(s.readers, k), t)) <==>
            HarmlessAt(s.readers, log, t)
  {
    forall k ensures Show(Get(Open(d.(wal := log), size), k), t) == Show(LogGet(s.readers, log, k), t) {
      OpenLogShows(s, d, log, size, k, t);
    }
  }

  // ---------------------------------------------------------------------
  // The first compaction after a reopen
  // ---------------------------------------------------------------------

  /** A choice within one level picks the same tables, in the same order, from the regrouped list. */
  lemma RegroupedPick(rs: seq<Reader>, n: nat, c: Choice, l: nat)
    requires l < n && forall m: SSTMeta | Takes(c, m) :: m.level == l
    ensures Pick(ByLevel(rs, n), c) == Pick(rs, c)
  {
    ByLevelCounts(rs, n, l);
    PickPick(ByLevel(rs, n), Level(l), c, c);
    PickPick(rs, Level(l), c, c);
  }

  lemma {:induction false} PickOfLevel(rs: seq<Reader>, dst: nat, lo: Key, hi: Key, n: nat)
    requires forall r <- rs :: r.meta.level < n
    ensures Pick(ByLevel(rs, n), Range(dst, lo, hi)) == Pick(rs, Range(dst, lo, hi))
  {
    if dst < n {
      RegroupedPick(rs, n, Range(dst, lo, hi), dst);
    } else {
      ByLevelMembers(rs, n);
      PickMembers(rs, Range(dst, lo, hi));
      PickMembers(ByLevel(rs, n), Range(dst, lo, hi));
      NoMembers(Pick(rs, Range(dst, lo, hi)));
      NoMembers(Pick(ByLevel(rs, n), Range(dst, lo, hi)));
    }
  }

  lemma NoMembers(rs: seq<Reader>)
    ensures (forall r :: r !in rs) ==> rs == []
  {
    if rs != [] {
      assert rs[0] in rs;
    }
  }

  /** Compaction merges by level, so the regrouped list merges as the original one. */
  lemma RegroupedMerge(rs: seq<Reader>, n: nat, src: nat)
    requires (forall r <- rs :: r.meta.level < n) && src < n && AtLevel(rs, src) != []
    ensures AtLevel(ByLevel(rs, n), src) == AtLevel(rs, src) && Merged(ByLevel(rs, n), src) == Merged(rs, src)
  {
    ByLevelCounts(rs, n, src);
    PickOfLevel(rs, src + 1, Lo(rs, src), Hi(rs, src), n);
  }

  /** What a step writes answers for its keys; a key outside the merge is answered as before. */
  lemma WrittenAnswers(rs: seq<Reader>, src: nat, now: nat, id: nat, k: Key)
    requires AtLevel(rs, src) != []
    ensures k in Merged(rs, src) && Live(Merged(rs, src)[k], now) ==>
              Lookup(Compact(rs, src, now, id), k) == Some(Merged(rs, src)[k])
    ensures k !in Merged(rs, src) ==> Lookup(Compact(rs, src, now, id), k) == Lookup(rs, k)
  {
    var kept := LivePart(Merged(rs, src), now);
    if kept == map[] {
      assert Compact(rs, src, now, id) == Survivors(rs, src);
      assert k in Merged(rs, src) && Live(Merged(rs, src)[k], now) ==> k in kept;
    } else {
      LookupLast(Survivors(rs, src), NewTable(kept, id, src + 1), k);
    }
    if k !in Merged(rs, src) {
      UnmergedLookup(rs, src, k);
    }
  }

  /**
   After a reopen the first compaction of the shallowest level brings the newest version of every live key
   that it merges back to readers; a key that it does not merge keeps the answer that the reopen gave it.
   */
  lemma CompactionRepairs(rs: seq<Reader>, n: nat, src: nat, now: nat, id: nat, k: Key)
    requires WF(rs) && (forall r <- rs :: r.meta.level < n)
    requires src < n && AtLevel(rs, src) != [] && ShallowEmpty(rs, src)
    ensures var u := ByLevel(rs, n);
            && AtLevel(u, src) != []
            && (k in Merged(rs, src) && Live(Merged(rs, src)[k], now) ==>
                  Lookup(Compact(u, src, now, id), k) == Lookup(rs, k))
            && (k !in Merged(rs, src) ==> Lookup(Compact(u, src, now, id), k) == Lookup(u, k))
  {
    RegroupedMerge(rs, n, src);
    WrittenAnswers(ByLevel(rs, n), src, now, id, k);
    if k in Merged(rs, src) {
      MergedLookup(rs, src, k);
    }
  }

  /** The next free id is one above the greatest one in use, and 1 in an empty database. */
  lemma {:induction false} NextIdLeast(rs: seq<Reader>)
    ensures rs == [] ==> NextIdOf(rs) == 1
    ensures NextIdOf(rs) == 1 || exists r :: r in rs && NextIdOf(rs) == r.meta.id + 1
  {
    if rs != [] {
      NextIdLeast(rs[..|rs| - 1]);
      assert rs[|rs| - 1] in rs;
    }
  }

  /** The table is one that the listing names and whose file exists. */
  predicate Readable(r: Reader, metas: seq<SSTMeta>, files: map<nat, map<Key, Value>>) {
    r.meta in metas && r.meta.id in files && r.data == files[r.meta.id]
  }

  /** Opening reads exactly the listed tables that have a file. */
  lemma {:induction false} OpenedTables(levels: seq<seq<SSTMeta>>, files: map<nat, map<Key, Value>>, r: Reader)
    ensures r in OpenLevels(levels, files) <==> exists l :: 0 <= l < |levels| && Readable(r, levels[l], files)
  {
    if levels != [] {
      var init, last := levels[..|levels| - 1], levels[|levels| - 1];
      OpenedTables(init, files, r);
      OpenedLevel(last, files, r);
      if r in OpenLevels(init, files) {
        var l :| 0 <= l < |init| && Readable(r, init[l], files);
        assert Readable(r, levels[l], files);
      }
      if l :| 0 <= l < |levels| && Readable(r, levels[l], files) {
        assert l < |init| ==> Readable(r, init[l], files);
      }
    }
  }

  lemma {:induction false} OpenedLevel(metas: seq<SSTMeta>, files: map<nat, map<Key, Value>>, r: Reader)
    ensures r in OpenLevel(metas, files) <==> Readable(r, metas, files)
  {
    if metas != [] {
      OpenedLevel(metas[..|metas| - 1], files, r);
      assert metas == metas[..|metas| - 1] + [metas[|metas| - 1]];
    }
  }

  /** The order: what the first part of a level gives comes before what the rest gives. */
  lemma {:induction false} OpenLevelConcat(a: seq<SSTMeta>, b: seq<SSTMeta>, files: map<nat, map<Key, Value>>)
    ensures OpenLevel(a + b, files) == OpenLevel(a, files) + OpenLevel(b, files)
  {
    if b == [] {
      assert a + b == a;
    } else {
      assert (a + b)[..|a + b| - 1] == a + b[..|b| - 1];
      OpenLevelConcat(a, b[..|b| - 1], files);
    }
  }
}
