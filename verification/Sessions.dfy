/**
 Crashes around the flush protocol (src/engine.rs:507-549), the directories that an engine leaves behind, and
 clean closes.
 */
module Sessions {
  import opened Bytes
  import opened OrderedMaps
  import opened ValueCodec
  import opened Tables
  import opened Compaction
  import opened Cascade
  import opened WalRecord
  import opened Sizes
  import opened Machine
  import opened Recovery

  // ---------------------------------------------------------------------
  // Crash points of a flush
  // ---------------------------------------------------------------------

  /** How far the flush of the frozen list has come. */
  datatype Point = Logged | SstWritten | ManifestSaved | LogTruncated

  function AddSst(levels: seq<seq<SSTMeta>>, m: SSTMeta): (ls: seq<seq<SSTMeta>>)
    decreases m.level + 1 - |levels|
  {
    if |levels| <= m.level then AddSst(levels + [[]], m)
    else levels[m.level := levels[m.level] + [m]]
  }

  /** The directory left behind when the process dies at `p`. */
  function CrashDisk(d: Disk, s: State, p: Point): Disk
    requires s.active != map[]
  {
    var t := NewTable(s.active, s.nextId, 0);
    match p
    case Logged => d
    case SstWritten => d.(files := d.files[s.nextId := s.active])
    case ManifestSaved => d.(files := d.files[s.nextId := s.active], levels := AddSst(d.levels, t.meta))
    case LogTruncated => Disk(d.files[s.nextId := s.active], AddSst(d.levels, t.meta), [])
  }

  /** The engine state that the directory at `p` stores. */
  function Reached(s: State, p: Point): State
    requires s.active != map[]
  {
    match p
    case Logged => s
    case SstWritten => s
    case ManifestSaved => s.(readers := FlushedReaders(s), nextId := s.nextId + 1)
    case LogTruncated =>
      s.(active := map[], size := LIST_SIZE, wal := [], readers := FlushedReaders(s), nextId := s.nextId + 1)
  }

  lemma MetasAppend(rs: seq<Reader>, r: Reader)
    ensures Metas(rs + [r]) == Metas(rs) + [r.meta]
  {
    assert (rs + [r])[..|rs|] == rs;
  }

  lemma AddTopLevel(levels: seq<seq<SSTMeta>>, m: SSTMeta)
    requires m.level == 0
    ensures |AddSst(levels, m)| == if levels == [] then 1 else |levels|
    ensures AddSst(levels, m)[0] == (if levels == [] then [] else levels[0]) + [m]
    ensures forall l | 1 <= l < |levels| :: AddSst(levels, m)[l] == levels[l]
  {
    if levels == [] {
      assert AddSst([], m) == AddSst([[]], m);
    }
  }

  lemma CrashDiskStores(d: Disk, s: State, p: Point)
    requires s.active != map[] && Stores(d, s) && forall r <- s.readers :: r.meta.id < s.nextId
    ensures Stores(CrashDisk(d, s, p), Reached(s, p))
  {
    if p == ManifestSaved || p == LogTruncated {
      FlushedStores(d, s);
    }
  }

  lemma FlushedStores(d: Disk, s: State)
    requires s.active != map[] && Stores(d, s) && forall r <- s.readers :: r.meta.id < s.nextId
    ensures Stores(CrashDisk(d, s, ManifestSaved), Reached(s, ManifestSaved))
  {
    var t := NewTable(s.active, s.nextId, 0);
    var levels := AddSst(d.levels, t.meta);
    AddTopLevel(d.levels, t.meta);
    forall l | 0 <= l < |levels| ensures levels[l] == Metas(AtLevel(FlushedReaders(s), l)) {
      FlushedLevel(d, s, l);
    }
    StoresMore(d, s, t, levels, CrashDisk(d, s, ManifestSaved), Reached(s, ManifestSaved));
  }

  /** A directory extended by the file and the entry of one table. */
  lemma StoresMore(d: Disk, s: State, t: Reader, levels: seq<seq<SSTMeta>>, d': Disk, s': State)
    requires Stores(d, s) && forall r <- s.readers :: r.meta.id != t.meta.id
    requires d' == Disk(d.files[t.meta.id := t.data], levels, d.wal) && s'.readers == s.readers + [t] && s'.wal == s.wal
    requires |d.levels| <= |levels| && t.meta.level < |levels|
    requires forall l | 0 <= l < |levels| :: levels[l] == Metas(AtLevel(s'.readers, l))
    ensures Stores(d', s')
  {
  }

  lemma FlushedLevel(d: Disk, s: State, l: nat)
    requires s.active != map[] && Stores(d, s)
    requires l < |AddSst(d.levels, NewTable(s.active, s.nextId, 0).meta)|
    ensures AddSst(d.levels, NewTable(s.active, s.nextId, 0).meta)[l] == Metas(AtLevel(FlushedReaders(s), l))
  {
    var t := NewTable(s.active, s.nextId, 0);
    AddTopLevel(d.levels, t.meta);
    PickLast(s.readers, t, Level(l));
    MetasAppend(AtLevel(s.readers, l), t);
    if d.levels == [] {
      EmptyLevel(s.readers, l);
    }
  }

  /** The engine answers the same at every point of the flush. */
  lemma ReachedShows(s: State, p: Point, k: Key)
    requires s.active != map[]
    ensures Get(Reached(s, p), k) == Get(s, k)
  {
    FlushedLookup(s, k);
  }

  lemma ReachedInv(s: State, p: Point, o: Options)
    requires Inv(s, o) && LogMatches(s) && s.active != map[]
    ensures Inv(Reached(s, p), o) && LogMatches(Reached(s, p))
  {
    FlushedReadersInv(s, o);
  }

  /**
   Crash safety of a flush: reopening after a crash at any point shows every key as if there had
   been no crash, provided no key then lies in two levels.
   */
  lemma FlushCrashSafe(s: State, d: Disk, p: Point, size: nat, o: Options, k: Key, t: nat)
    requires Inv(s, o) && LogMatches(s) && s.active != map[] && Stores(d, s)
    requires OneLevelPerKey(Reached(s, p).readers)
    requires FitsList(Replay(Reached(s, p).wal), size)
    ensures Show(Get(Open(CrashDisk(d, s, p), size), k), t) == Show(Get(s, k), t)
  {
    ReachedInv(s, p, o);
    CrashDiskStores(d, s, p);
    ReachedShows(s, p, k);
    ReopenKeeps(Reached(s, p), CrashDisk(d, s, p), size, o);
  }

  /**
   The exact condition: reopening after a crash at `p` shows every key as before if and only if no key outside
   the log is stale there.
   */
  lemma FlushCrashShowsIff(s: State, d: Disk, p: Point, size: nat, o: Options, t: nat)
    requires Inv(s, o) && LogMatches(s) && s.active != map[] && Stores(d, s)
    ensures var r, n := Reached(s, p), |CrashDisk(d, s, p).levels|;
            (forall k :: Show(Get(Open(CrashDisk(d, s, p), size), k), t) == Show(Get(s, k), t)) <==>
            (forall k :: k in r.active || !Stale(r.readers, n, k, t))
  {
    ReachedInv(s, p, o);
    CrashDiskStores(d, s, p);
    ReopenShowsIff(Reached(s, p), CrashDisk(d, s, p), size, t);
    forall k ensures Get(Reached(s, p), k) == Get(s, k) { ReachedShows(s, p, k); }
  }

  /**
   Records lost from the log behind a saved manifest: every key is shown as before if and only if the records
   that are left say of their keys what the engine said.
   */
  lemma ManifestLossIff(s: State, d: Disk, log: seq<Record>, size: nat, o: Options, t: nat)
    requires Inv(s, o) && LogMatches(s) && s.active != map[] && Stores(d, s) && OneLevelPerKey(FlushedReaders(s))
    ensures (forall k :: Show(Get(Open(CrashDisk(d, s, ManifestSaved).(wal := log), size), k), t) == Show(Get(s, k), t))
            <==> forall k | k in Replay(log) :: Show(Some(Replay(log)[k]), t) == Show(Get(s, k), t)
  {
    ReachedInv(s, ManifestSaved, o);
    CrashDiskStores(d, s, ManifestSaved);
    LogAboveTablesIff(Reached(s, ManifestSaved), CrashDisk(d, s, ManifestSaved), log, size, t);
    forall k ensures Lookup(FlushedReaders(s), k) == Get(s, k) { FlushedLookup(s, k); }
  }

  /** When all tables lie in level 0 the proviso holds at every point. */
  lemma TopLevelOnly(s: State, p: Point)
    requires s.active != map[] && Depth(s.readers, 0)
    ensures OneLevelPerKey(Reached(s, p).readers)
  {
  }

  // ---------------------------------------------------------------------
  // Directories and closing
  // ---------------------------------------------------------------------

  /** A directory that stores `s`, with nothing else in it. */
  function DiskOf(s: State): Disk {
    Disk(FilesOf(s.readers), LevelsOf(s.readers, Height(s.readers)), s.wal)
  }

  function FilesOf(rs: seq<Reader>): map<nat, map<Key, Value>> {
    if rs == [] then map[] else FilesOf(rs[..|rs| - 1])[rs[|rs| - 1].meta.id := rs[|rs| - 1].data]
  }

  function Height(rs: seq<Reader>): nat {
    if rs == [] then 0
    else
      var h, l := Height(rs[..|rs| - 1]), rs[|rs| - 1].meta.level;
      if l >= h then l + 1 else h
  }

  function LevelsOf(rs: seq<Reader>, n: nat): seq<seq<SSTMeta>> {
    if n == 0 then [] else LevelsOf(rs, n - 1) + [Metas(AtLevel(rs, n - 1))]
  }

  lemma {:induction false} FilesOfReads(rs: seq<Reader>)
    requires WF(rs)
    ensures forall r <- rs :: r.meta.id in FilesOf(rs) && FilesOf(rs)[r.meta.id] == r.data
  {
    if rs != [] {
      var n := |rs| - 1;
      FilesOfReads(rs[..n]);
      forall r <- rs ensures r.meta.id in FilesOf(rs) && FilesOf(rs)[r.meta.id] == r.data {
        var i :| 0 <= i < |rs| && rs[i] == r;
        if i < n {
          assert rs[..n][i] == r;
          assert Compatible(rs[i], rs[n]);
        }
      }
    }
  }

  lemma {:induction false} HeightAbove(rs: seq<Reader>)
    ensures forall r <- rs :: r.meta.level < Height(rs)
  {
    if rs != [] {
      HeightAbove(rs[..|rs| - 1]);
    }
  }

  lemma {:induction false} LevelsOfAt(rs: seq<Reader>, n: nat)
    ensures |LevelsOf(rs, n)| == n && forall l | 0 <= l < n :: LevelsOf(rs, n)[l] == Metas(AtLevel(rs, l))
  {
    if n > 0 {
      LevelsOfAt(rs, n - 1);
    }
  }

  lemma DiskOfStores(s: State)
    requires WF(s.readers)
    ensures Stores(DiskOf(s), s)
  {
    FilesOfReads(s.readers);
    HeightAbove(s.readers);
    LevelsOfAt(s.readers, Height(s.readers));
  }

  /** `close` flushes what is still in memory. */
  function Closed(s: State, now: nat, o: Options): State
    requires o.l0Threshold >= 1
  {
    if s.active == map[] then s else Flushed(s, now, o)
  }

  /** A closed engine has nothing in memory and, if it had, an empty log. */
  lemma ClosedEmpties(s: State, now: nat, o: Options)
    requires o.l0Threshold >= 1
    ensures Closed(s, now, o).active == map[] && (s.active != map[] ==> Closed(s, now, o).wal == [])
  {
  }

  /** The state of a database between steps: sound, logged, and refining the map of last writes. */
  ghost predicate Good(s: State, m: Spec, clock: nat, o: Options) {
    Inv(s, o) && LogMatches(s) && Refines(s, m, clock)
  }

  lemma ReopenGood(s: State, d: Disk, m: Spec, clock: nat, size: nat, o: Options)
    requires Good(s, m, clock, o) && Stores(d, s) && OneLevelPerKey(s.readers) && FitsList(Replay(s.wal), size)
    ensures Good(Open(d, size), m, clock, o)
  {
    ReopenKeeps(s, d, size, o);
    forall k, t | clock <= t ensures Show(Get(Open(d, size), k), t) == SpecGet(m, k, t) {
      assert Show(Get(Open(d, size), k), t) == Show(Get(s, k), t);
    }
  }

  lemma ClosedGood(s: State, m: Spec, clock: nat, now: nat, o: Options)
    requires Good(s, m, clock, o) && clock <= now && (s.active != map[] ==> SafeFlush(s, now, o))
    ensures Good(Closed(s, now, o), m, now, o)
  {
    if s.active != map[] {
      FlushedInv(s, now, o);
      forall k, t | now <= t ensures Show(Get(Flushed(s, now, o), k), t) == SpecGet(m, k, t) {
        FlushedShows(s, now, o, k, t);
      }
    }
  }
}
