/**
 Whole histories of a database: any number of sessions, with writes, clean closes, process deaths inside a flush
 and between writes, and log files of which only a beginning survives.

 The log file holds more than the engine's own records: a writer that is dropped after the truncation of the log
 (src/engine.rs:661-670) appends the records that it still buffers. They stay in front of all later ones.
 */
module Histories {
  import opened Bytes
  import opened OrderedMaps
  import opened ValueCodec
  import opened Tables
  import opened Compaction
  import opened Cascade
  import opened WalRecord
  import opened Sizes
  import opened Machine
  import opened Recovery
  import opened Sessions

  // ---------------------------------------------------------------------
  // Databases and steps
  // ---------------------------------------------------------------------

  /**
   An engine, the records left in front of its own in the log file, and how many of the file's records its
   tables cover.
   */
  datatype Db = Db(s: State, residue: seq<Record>, covered: nat)

  const FRESH := Db(EMPTY, [], 0)

  /** The records of the log file and of the writer's buffer. */
  function File(db: Db): seq<Record> {
    db.residue + db.s.wal
  }

  datatype Step =
    | Do(e: Event, held: nat)                                  // a write; a flush in it finds `held` records buffered
    | Crash(e: Event, p: Point, held: nat, m: nat, size: nat)  // the process dies in the flush; `m` records are left
    | Restart(size: nat)                                       // the process dies, the log file is complete
    | Lose(m: nat, size: nat)                                  // the process dies and `m` records are left
    | Close(now: nat, held: nat, size: nat)                    // a clean close, and an open

  /** The last `held` records, which come out of the buffer behind the truncation. */
  function Residue(wal: seq<Record>, held: nat): seq<Record> {
    if held <= |wal| then wal[|wal| - held..] else wal
  }

  function FirstRecords(log: seq<Record>, m: nat): seq<Record> {
    if m <= |log| then log[..m] else log
  }

  /** A database right after the truncation of its log. */
  function Truncated(s: State, wal: seq<Record>, held: nat): Db {
    Db(s, Residue(wal, held), |Residue(wal, held)|)
  }

  function DoDb(db: Db, e: Event, held: nat, o: Options): Db
    requires o.l0Threshold >= 1
  {
    var s' := Write(db.s, e, o);
    if Overflows(db.s, e, o) then Truncated(s', Applied(db.s, e).wal, held) else Db(s', db.residue, db.covered)
  }

  /** The database when the flush in write `e` has come to `p`. */
  function Mid(db: Db, e: Event, p: Point, held: nat): Db {
    var s1 := Applied(db.s, e);
    assert e.op.key in s1.active;
    match p
    case Logged => Db(s1, db.residue, db.covered)
    case SstWritten => Db(s1, db.residue, db.covered)
    case ManifestSaved => Db(Reached(s1, p), db.residue, |db.residue + s1.wal|)
    case LogTruncated => Truncated(Reached(s1, p), s1.wal, held)
  }

  function ClosedDb(db: Db, now: nat, held: nat, o: Options): Db
    requires o.l0Threshold >= 1
  {
    if db.s.active == map[] then db else Truncated(Closed(db.s, now, o), db.s.wal, held)
  }

  /** Open directory `d` with the first `m` records of the log. */
  function Reopen(db: Db, d: Disk, m: nat, size: nat): Db {
    Db(Open(d.(wal := FirstRecords(File(db), m)), size), [], if m < db.covered then m else db.covered)
  }

  function CrashDir(db: Db, e: Event, p: Point): Disk {
    var s1 := Applied(db.s, e);
    assert e.op.key in s1.active;
    CrashDisk(DiskOf(db.s).(wal := s1.wal), s1, p)
  }

  function Take(db: Db, x: Step, o: Options): Db
    requires o.l0Threshold >= 1
  {
    match x
    case Do(e, held) => DoDb(db, e, held, o)
    case Crash(e, p, held, m, size) => Reopen(Mid(db, e, p, held), CrashDir(db, e, p), m, size)
    case Restart(size) => Reopen(db, DiskOf(db.s), |File(db)|, size)
    case Lose(m, size) => Reopen(db, DiskOf(db.s), m, size)
    case Close(now, held, size) =>
      var c := ClosedDb(db, now, held, o);
      Reopen(c, DiskOf(c.s), |File(c)|, size)
  }

  function TickOf(x: Step, clock: nat): nat {
    match x
    case Do(e, _) => e.now
    case Crash(e, _, _, _, _) => e.now
    case Restart(_) => clock
    case Lose(_, _) => clock
    case Close(now, _, _) => now
  }

  /** The writes without the last `c`. */
  function Without(evs: seq<Event>, c: int): seq<Event> {
    if 0 <= c <= |evs| then evs[..|evs| - c] else evs
  }

  /**
   The writes that are left with the first `m` records: those of the tables, and those of the records behind the
   covered ones.
   */
  function Remaining(db: Db, evs: seq<Event>, m: nat): seq<Event> {
    Without(evs, |File(db)| - if m < db.covered then db.covered else m)
  }

  function WritesTake(evs: seq<Event>, db: Db, x: Step): seq<Event> {
    match x
    case Do(e, _) => evs + [e]
    case Crash(e, p, held, m, _) => Remaining(Mid(db, e, p, held), evs + [e], m)
    case Restart(_) => evs
    case Lose(m, _) => Remaining(db, evs, m)
    case Close(_, _, _) => evs
  }

  // ---------------------------------------------------------------------
  // What a log above tables shows
  // ---------------------------------------------------------------------

  /** Tables and log show the map, from `clock` on. */
  ghost predicate LogShows(rs: seq<Reader>, log: seq<Record>, spec: Spec, clock: nat) {
    forall k, t | clock <= t :: Show(LogGet(rs, log, k), t) == SpecGet(spec, k, t)
  }

  /** What the log says of its keys is what the tables say, from `clock` on. */
  ghost predicate Harmless(rs: seq<Reader>, log: seq<Record>, clock: nat) {
    forall t | clock <= t :: HarmlessAt(rs, log, t)
  }

  /** Above tables that show the map, exactly the harmless logs leave it shown. */
  lemma HarmlessIff(rs: seq<Reader>, log: seq<Record>, spec: Spec, clock: nat)
    requires LogShows(rs, [], spec, clock)
    ensures LogShows(rs, log, spec, clock) <==> Harmless(rs, log, clock)
  {
    forall k, t | clock <= t ensures Show(Lookup(rs, k), t) == SpecGet(spec, k, t) {
      assert LogGet(rs, [], k) == Lookup(rs, k);
    }
    if Harmless(rs, log, clock) {
      forall k, t | clock <= t ensures Show(LogGet(rs, log, k), t) == SpecGet(spec, k, t) {
        assert HarmlessAt(rs, log, t);
      }
    }
    if LogShows(rs, log, spec, clock) {
      forall t | clock <= t ensures HarmlessAt(rs, log, t) {
        forall k | k in Replay(log) ensures Show(Some(Replay(log)[k]), t) == Show(Lookup(rs, k), t) {
          assert LogGet(rs, log, k) == Some(Replay(log)[k]);
        }
      }
    }
  }

  lemma HarmlessLater(rs: seq<Reader>, log: seq<Record>, clock: nat, later: nat)
    requires Harmless(rs, log, clock) && clock <= later
    ensures Harmless(rs, log, later)
  {
  }

  /** With only the first `m` records left the database shows the writes without those of the others. */
  ghost predicate CutTracks(db: Db, evs: seq<Event>, m: nat, clock: nat) {
    && m <= |File(db)| && |File(db)| - m <= |evs|
    && LogShows(db.s.readers, File(db)[..m], SpecRun(Without(evs, |File(db)| - m)), clock)
  }

  /** The tables alone show the writes without those of the records that they do not cover. */
  ghost predicate Backed(db: Db, evs: seq<Event>, clock: nat) {
    && db.covered <= |File(db)| && |File(db)| - db.covered <= |evs|
    && LogShows(db.s.readers, [], SpecRun(Without(evs, |File(db)| - db.covered)), clock)
    && Harmless(db.s.readers, File(db)[..db.covered], clock)
  }

  ghost predicate Tracks(db: Db, evs: seq<Event>, clock: nat) {
    Backed(db, evs, clock) && forall m: nat | db.covered <= m <= |File(db)| :: CutTracks(db, evs, m, clock)
  }

  /** A database between steps. */
  ghost predicate Durable(db: Db, evs: seq<Event>, clock: nat, o: Options) {
    && Good(db.s, SpecRun(evs), clock, o)
    && Tracks(db, evs, clock)
    && Harmless(db.s.readers, db.residue, clock)
  }

  /** The covered records alone show what the tables show. */
  lemma CoveredTracks(db: Db, evs: seq<Event>, clock: nat)
    requires Backed(db, evs, clock)
    ensures CutTracks(db, evs, db.covered, clock)
  {
    HarmlessIff(db.s.readers, File(db)[..db.covered], SpecRun(Without(evs, |File(db)| - db.covered)), clock);
  }

  /** With the whole log, residue included, the tables show what the engine shows. */
  lemma WholeFileShows(db: Db, k: Key, t: nat, clock: nat)
    requires LogMatches(db.s) && Harmless(db.s.readers, db.residue, clock) && clock <= t
    ensures Show(LogGet(db.s.readers, File(db), k), t) == Show(Get(db.s, k), t)
  {
    ReplayConcat(db.residue, db.s.wal, k);
    WholeLogShows(db.s, k, t);
    assert HarmlessAt(db.s.readers, db.residue, t);
  }

  lemma WholeTracks(db: Db, evs: seq<Event>, clock: nat)
    requires LogMatches(db.s) && Refines(db.s, SpecRun(evs), clock) && Harmless(db.s.readers, db.residue, clock)
    ensures CutTracks(db, evs, |File(db)|, clock)
  {
    assert Without(evs, 0) == evs && File(db)[..|File(db)|] == File(db);
    forall k, t | clock <= t ensures Show(LogGet(db.s.readers, File(db), k), t) == SpecGet(SpecRun(evs), k, t) {
      WholeFileShows(db, k, t, clock);
    }
  }

  // ---------------------------------------------------------------------
  // Writes
  // ---------------------------------------------------------------------

  lemma SpecRunLast(evs: seq<Event>, e: Event)
    ensures SpecRun(evs + [e]) == SpecWrite(SpecRun(evs), e)
  {
    assert (evs + [e])[..|evs|] == evs;
  }

  /** A logged write that is not flushed. */
  function Logs(db: Db, e: Event): Db {
    Db(Applied(db.s, e), db.residue, db.covered)
  }

  lemma LogsFile(db: Db, e: Event)
    ensures File(Logs(db, e)) == File(db) + [RecordOf(e.op, e.now, db.s.nextSeq)]
  {
  }

  /** A further record changes nothing for the cuts before it. */
  lemma OlderCut(db: Db, evs: seq<Event>, e: Event, m: nat, clock: nat)
    requires CutTracks(db, evs, m, clock) && clock <= e.now
    ensures CutTracks(Logs(db, e), evs + [e], m, e.now)
  {
    LogsFile(db, e);
    assert File(Logs(db, e))[..m] == File(db)[..m];
    assert Without(evs + [e], |File(db)| + 1 - m) == Without(evs, |File(db)| - m);
  }

  lemma LogsBacked(db: Db, evs: seq<Event>, e: Event, clock: nat)
    requires Backed(db, evs, clock) && clock <= e.now
    ensures Backed(Logs(db, e), evs + [e], e.now)
  {
    LogsFile(db, e);
    assert File(Logs(db, e))[..db.covered] == File(db)[..db.covered];
    assert Without(evs + [e], |File(db)| + 1 - db.covered) == Without(evs, |File(db)| - db.covered);
    HarmlessLater(db.s.readers, File(db)[..db.covered], clock, e.now);
  }

  lemma LogsTracks(db: Db, evs: seq<Event>, e: Event, clock: nat)
    requires Tracks(db, evs, clock) && Harmless(db.s.readers, db.residue, clock) && clock <= e.now
    requires LogMatches(Applied(db.s, e)) && Refines(Applied(db.s, e), SpecRun(evs + [e]), e.now)
    ensures Tracks(Logs(db, e), evs + [e], e.now) && Harmless(db.s.readers, db.residue, e.now)
  {
    var next := Logs(db, e);
    LogsBacked(db, evs, e, clock);
    HarmlessLater(db.s.readers, db.residue, clock, e.now);
    WholeTracks(next, evs + [e], e.now);
    LogsFile(db, e);
    forall m: nat | next.covered <= m <= |File(next)| ensures CutTracks(next, evs + [e], m, e.now) {
      if m <= |File(db)| {
        OlderCut(db, evs, e, m, clock);
      }
    }
  }

  /** What buffered records say of their keys is what the engine said. */
  lemma ResidueShows(s: State, held: nat, k: Key, t: nat)
    requires LogMatches(s) && k in Replay(Residue(s.wal, held))
    ensures Show(Some(Replay(Residue(s.wal, held))[k]), t) == Show(Get(s, k), t)
  {
    var j := if held <= |s.wal| then |s.wal| - held else 0;
    assert Residue(s.wal, held) == s.wal[j..];
    ReplaySuffix(s.wal, j, k);
    WholeLogShows(s, k, t);
  }

  /** Tables that show what the engine showed make its buffered records harmless. */
  lemma ResidueHarmless(s: State, rs: seq<Reader>, held: nat, clock: nat)
    requires LogMatches(s) && forall k, t | clock <= t :: Show(Lookup(rs, k), t) == Show(Get(s, k), t)
    ensures Harmless(rs, Residue(s.wal, held), clock)
  {
    forall t | clock <= t ensures HarmlessAt(rs, Residue(s.wal, held), t) {
      forall k | k in Replay(Residue(s.wal, held))
        ensures Show(Some(Replay(Residue(s.wal, held))[k]), t) == Show(Lookup(rs, k), t)
      {
        ResidueShows(s, held, k, t);
      }
    }
  }

  /** After a truncation the tables cover everything. */
  lemma TruncatedTracks(s: State, wal: seq<Record>, held: nat, evs: seq<Event>, clock: nat)
    requires s.active == map[] && s.wal == [] && Refines(s, SpecRun(evs), clock)
    requires Harmless(s.readers, Residue(wal, held), clock)
    ensures Tracks(Truncated(s, wal, held), evs, clock)
  {
    var db := Truncated(s, wal, held);
    assert File(db) == db.residue;
    forall k, t | clock <= t ensures Show(LogGet(s.readers, [], k), t) == SpecGet(SpecRun(evs), k, t) {
      assert LogGet(s.readers, [], k) == Get(s, k);
    }
    CoveredWhole(db, evs, clock);
  }

  /** A flush, whatever it leaves in front of the next records. */
  lemma FlushTracks(s: State, now: nat, held: nat, evs: seq<Event>, clock: nat, o: Options)
    requires Inv(s, o) && LogMatches(s) && s.active != map[] && SafeFlush(s, now, o) && clock <= now
    requires Refines(s, SpecRun(evs), clock)
    ensures Tracks(Truncated(Flushed(s, now, o), s.wal, held), evs, now)
    ensures Harmless(Flushed(s, now, o).readers, Residue(s.wal, held), now)
  {
    var f := Flushed(s, now, o);
    forall k, t | now <= t ensures Show(Lookup(f.readers, k), t) == Show(Get(s, k), t) {
      FlushedShows(s, now, o, k, t);
      assert Get(f, k) == Lookup(f.readers, k);
    }
    ResidueHarmless(s, f.readers, held, now);
    forall k, t | now <= t ensures Show(Get(f, k), t) == SpecGet(SpecRun(evs), k, t) {
      assert Get(f, k) == Lookup(f.readers, k);
    }
    TruncatedTracks(f, s.wal, held, evs, now);
  }

  /** A write that reached the log and the active list. */
  lemma AppliedGood(s: State, evs: seq<Event>, clock: nat, e: Event, o: Options)
    requires Good(s, SpecRun(evs), clock, o) && clock <= e.now
    ensures Good(Applied(s, e), SpecRun(evs + [e]), e.now, o)
  {
    SpecRunLast(evs, e);
    AppliedInv(s, e, o);
    AppliedLogMatches(s, e);
    AppliedRefines(s, SpecRun(evs), clock, e);
  }

  lemma DoDurable(db: Db, evs: seq<Event>, clock: nat, e: Event, held: nat, o: Options)
    requires Durable(db, evs, clock, o) && clock <= e.now && SafeWrite(db.s, e, o)
    ensures Durable(DoDb(db, e, held, o), evs + [e], e.now, o)
  {
    AppliedGood(db.s, evs, clock, e, o);
    SpecRunLast(evs, e);
    WriteInv(db.s, e, o);
    WriteLogMatches(db.s, e, o);
    WriteRefines(db.s, SpecRun(evs), clock, e, o);
    assert e.op.key in Applied(db.s, e).active;
    if Overflows(db.s, e, o) {
      FlushTracks(Applied(db.s, e), e.now, held, evs + [e], e.now, o);
    } else {
      LogsTracks(db, evs, e, clock);
    }
  }

  // ---------------------------------------------------------------------
  // The points of a flush
  // ---------------------------------------------------------------------

  /** Behind a saved manifest the whole log is harmless. */
  lemma SavedHarmless(db: Db, clock: nat)
    requires LogMatches(db.s) && db.s.active != map[] && Harmless(db.s.readers, db.residue, clock)
    ensures Harmless(FlushedReaders(db.s), File(db), clock)
  {
    forall t | clock <= t ensures HarmlessAt(FlushedReaders(db.s), File(db), t) {
      forall k | k in Replay(File(db))
        ensures Show(Some(Replay(File(db))[k]), t) == Show(Lookup(FlushedReaders(db.s), k), t)
      {
        WholeFileShows(db, k, t, clock);
        FlushedLookup(db.s, k);
      }
    }
  }

  /** The new table alone shows what the engine shows. */
  lemma SavedShows(s: State, spec: Spec, clock: nat)
    requires s.active != map[] && Refines(s, spec, clock)
    ensures LogShows(FlushedReaders(s), [], spec, clock)
  {
    forall k, t | clock <= t ensures Show(LogGet(FlushedReaders(s), [], k), t) == SpecGet(spec, k, t) {
      FlushedLookup(s, k);
    }
  }

  /** Behind a saved manifest the tables cover the whole log. */
  lemma SavedTracks(db: Db, evs: seq<Event>, clock: nat)
    requires LogMatches(db.s) && Refines(db.s, SpecRun(evs), clock) && db.s.active != map[]
    requires Harmless(db.s.readers, db.residue, clock)
    ensures Tracks(Db(Reached(db.s, ManifestSaved), db.residue, |File(db)|), evs, clock)
  {
    var mid := Db(Reached(db.s, ManifestSaved), db.residue, |File(db)|);
    SavedHarmless(db, clock);
    SavedShows(db.s, SpecRun(evs), clock);
    CoveredWhole(mid, evs, clock);
  }

  /** Where the tables cover the whole log, its one cut is the whole log. */
  lemma CoveredWhole(db: Db, evs: seq<Event>, clock: nat)
    requires db.covered == |File(db)| && LogShows(db.s.readers, [], SpecRun(evs), clock)
    requires Harmless(db.s.readers, File(db), clock)
    ensures Tracks(db, evs, clock)
  {
    var n := |File(db)|;
    assert File(db)[..n] == File(db) && Without(evs, n - n) == evs;
    CoveredTracks(db, evs, clock);
    forall m: nat | n <= m <= n ensures CutTracks(db, evs, m, clock) { assert m == db.covered; }
  }

  /** Behind the truncation only the residue is left. */
  lemma EmptiedTracks(s: State, held: nat, evs: seq<Event>, clock: nat)
    requires LogMatches(s) && Refines(s, SpecRun(evs), clock) && s.active != map[]
    ensures Tracks(Truncated(Reached(s, LogTruncated), s.wal, held), evs, clock)
  {
    forall k ensures Lookup(FlushedReaders(s), k) == Get(s, k) { FlushedLookup(s, k); }
    ResidueHarmless(s, FlushedReaders(s), held, clock);
    TruncatedTracks(Reached(s, LogTruncated), s.wal, held, evs, clock);
  }

  /** Whatever point the flush has come to: the database there tracks the writes, and the directory stores it. */
  lemma MidTracks(db: Db, evs: seq<Event>, clock: nat, e: Event, p: Point, held: nat, o: Options)
    requires Durable(db, evs, clock, o) && clock <= e.now
    ensures var mid := Mid(db, e, p, held);
            Inv(mid.s, o) && Tracks(mid, evs + [e], e.now) && Stores(CrashDir(db, e, p), mid.s)
  {
    var s1, next := Applied(db.s, e), Logs(db, e);
    assert e.op.key in s1.active;
    AppliedGood(db.s, evs, clock, e, o);
    LogsTracks(db, evs, e, clock);
    ReachedInv(s1, p, o);
    DiskOfStores(db.s);
    CrashDiskStores(DiskOf(db.s).(wal := s1.wal), s1, p);
    match p
    case Logged =>
    case SstWritten =>
    case ManifestSaved => SavedTracks(next, evs + [e], e.now);
    case LogTruncated => EmptiedTracks(s1, held, evs + [e], e.now);
  }

  // ---------------------------------------------------------------------
  // Reopening above any log that is left
  // ---------------------------------------------------------------------

  /** What is left of a log file: its first `m` records, harmless if they are fewer than the tables cover. */
  ghost predicate FileLeft(db: Db, m: nat, size: nat, clock: nat) {
    && m <= |File(db)|
    && FitsList(Replay(File(db)[..m]), size)
    && (m < db.covered ==> Harmless(db.s.readers, File(db)[..m], clock))
  }

  /** Tables and the log that is left show the surviving writes. */
  lemma LeftShows(db: Db, evs: seq<Event>, m: nat, clock: nat)
    requires Tracks(db, evs, clock) && m <= |File(db)|
    ensures LogShows(db.s.readers, File(db)[..m], SpecRun(Remaining(db, evs, m)), clock) <==>
            (m < db.covered ==> Harmless(db.s.readers, File(db)[..m], clock))
  {
    if m < db.covered {
      HarmlessIff(db.s.readers, File(db)[..m], SpecRun(Remaining(db, evs, m)), clock);
    } else {
      assert CutTracks(db, evs, m, clock);
    }
  }

  /** Opening regroups the tables, which changes no answer when each key lies in one level. */
  lemma RegroupedShows(rs: seq<Reader>, n: nat, log: seq<Record>, spec: Spec, clock: nat)
    requires WF(rs) && OneLevelPerKey(rs) && forall r <- rs :: r.meta.level < n
    ensures LogShows(ByLevel(rs, n), log, spec, clock) <==> LogShows(rs, log, spec, clock)
  {
    forall k, t ensures Show(LogGet(ByLevel(rs, n), log, k), t) == Show(LogGet(rs, log, k), t) {
      TablesReopen(rs, n, k, t);
    }
  }

  lemma RegroupedHarmless(rs: seq<Reader>, n: nat, log: seq<Record>, clock: nat)
    requires WF(rs) && OneLevelPerKey(rs) && forall r <- rs :: r.meta.level < n
    requires Harmless(rs, log, clock)
    ensures Harmless(ByLevel(rs, n), log, clock)
  {
    forall t | clock <= t ensures HarmlessAt(ByLevel(rs, n), log, t) {
      assert HarmlessAt(rs, log, t);
      forall k ensures Show(Lookup(ByLevel(rs, n), k), t) == Show(Lookup(rs, k), t) {
        TablesReopen(rs, n, k, t);
      }
    }
  }

  /**
   A log file of which the first `m` records are left: the reopened engine shows the surviving writes if and only if
   these records are all that the tables cover, and possibly more, or are harmless.
   */
  lemma LoseShowsIff(db: Db, evs: seq<Event>, d: Disk, m: nat, clock: nat, size: nat, o: Options)
    requires Inv(db.s, o) && Tracks(db, evs, clock) && Stores(d, db.s) && OneLevelPerKey(db.s.readers)
    requires m <= |File(db)|
    ensures Refines(Reopen(db, d, m, size).s, SpecRun(Remaining(db, evs, m)), clock) <==>
            (m < db.covered ==> Harmless(db.s.readers, File(db)[..m], clock))
  {
    var u, spec := Reopen(db, d, m, size).s, SpecRun(Remaining(db, evs, m));
    LeftShows(db, evs, m, clock);
    RegroupedShows(db.s.readers, |d.levels|, File(db)[..m], spec, clock);
    OpenStored(d.(wal := File(db)[..m]), WithLog(db.s, File(db)[..m], size), size);
    forall k ensures Get(u, k) == LogGet(u.readers, File(db)[..m], k) {}
  }

  /** The cuts of what is left are cuts of what was there. */
  lemma LeftCut(db: Db, evs: seq<Event>, m: nat, c: nat, clock: nat)
    requires Tracks(db, evs, clock) && db.covered <= c <= m <= |File(db)|
    ensures LogShows(db.s.readers, File(db)[..m][..c], SpecRun(Without(Remaining(db, evs, m), m - c)), clock)
    ensures m - c <= |Remaining(db, evs, m)|
  {
    assert CutTracks(db, evs, c, clock);
    assert File(db)[..m][..c] == File(db)[..c];
    assert Without(Remaining(db, evs, m), m - c) == Without(evs, |File(db)| - c);
  }

  /** What a reopened database shows with the covered records that it has. */
  lemma LeftBacked(db: Db, evs: seq<Event>, m: nat, clock: nat)
    requires Tracks(db, evs, clock) && m <= |File(db)|
    requires m < db.covered ==> Harmless(db.s.readers, File(db)[..m], clock)
    ensures var c := if m < db.covered then m else db.covered;
            && m - c <= |Remaining(db, evs, m)|
            && LogShows(db.s.readers, [], SpecRun(Without(Remaining(db, evs, m), m - c)), clock)
            && Harmless(db.s.readers, File(db)[..m][..c], clock)
  {
    if m < db.covered {
      assert File(db)[..m][..m] == File(db)[..m];
      assert Without(Remaining(db, evs, m), 0) == Remaining(db, evs, m);
    } else {
      LeftCut(db, evs, m, db.covered, clock);
      assert File(db)[..m][..db.covered] == File(db)[..db.covered];
      assert Without(Remaining(db, evs, m), m - db.covered) == Without(evs, |File(db)| - db.covered);
    }
  }

  lemma LeftCutShows(db: Db, evs: seq<Event>, m: nat, c: nat, clock: nat)
    requires Tracks(db, evs, clock) && m <= |File(db)|
    requires m < db.covered ==> Harmless(db.s.readers, File(db)[..m], clock)
    requires (if m < db.covered then m else db.covered) <= c <= m
    ensures m - c <= |Remaining(db, evs, m)|
    ensures LogShows(db.s.readers, File(db)[..m][..c], SpecRun(Without(Remaining(db, evs, m), m - c)), clock)
  {
    if m < db.covered {
      LeftShows(db, evs, m, clock);
      assert File(db)[..m][..m] == File(db)[..m];
      assert Without(Remaining(db, evs, m), 0) == Remaining(db, evs, m);
    } else {
      LeftCut(db, evs, m, c, clock);
    }
  }

  lemma ReopenTracks(db: Db, evs: seq<Event>, m: nat, clock: nat, next: Db, n: nat)
    requires Tracks(db, evs, clock) && m <= |File(db)|
    requires m < db.covered ==> Harmless(db.s.readers, File(db)[..m], clock)
    requires WF(db.s.readers) && OneLevelPerKey(db.s.readers) && forall r <- db.s.readers :: r.meta.level < n
    requires next.s.readers == ByLevel(db.s.readers, n) && next.s.wal == File(db)[..m] && next.residue == []
    requires next.covered == if m < db.covered then m else db.covered
    ensures Tracks(next, Remaining(db, evs, m), clock)
  {
    var rs, log := db.s.readers, File(db)[..m];
    var left := Remaining(db, evs, m);
    assert File(next) == log;
    LeftBacked(db, evs, m, clock);
    RegroupedShows(rs, n, [], SpecRun(Without(left, m - next.covered)), clock);
    RegroupedHarmless(rs, n, log[..next.covered], clock);
    forall c: nat | next.covered <= c <= |File(next)| ensures CutTracks(next, left, c, clock) {
      LeftCutShows(db, evs, m, c, clock);
      RegroupedShows(rs, n, log[..c], SpecRun(Without(left, m - c)), clock);
    }
  }

  /** The engine with the log that is left, before its tables are regrouped. */
  lemma LeftGood(db: Db, evs: seq<Event>, m: nat, clock: nat, size: nat, o: Options)
    requires Inv(db.s, o) && Tracks(db, evs, clock) && FileLeft(db, m, size, clock)
    ensures Good(WithLog(db.s, File(db)[..m], size), SpecRun(Remaining(db, evs, m)), clock, o)
  {
    var spec := SpecRun(Remaining(db, evs, m));
    LeftShows(db, evs, m, clock);
    forall k, t | clock <= t
      ensures Show(Get(WithLog(db.s, File(db)[..m], size), k), t) == SpecGet(spec, k, t)
    {
      WithLogAnswers(db.s, File(db)[..m], size, k);
    }
  }

  /** Opening a directory with any log that `FileLeft` admits. */
  lemma ReopenDurable(db: Db, evs: seq<Event>, d: Disk, m: nat, clock: nat, size: nat, o: Options)
    requires Inv(db.s, o) && Tracks(db, evs, clock) && Stores(d, db.s) && OneLevelPerKey(db.s.readers)
    requires FileLeft(db, m, size, clock)
    ensures Durable(Reopen(db, d, m, size), Remaining(db, evs, m), clock, o)
  {
    var u, d', next := WithLog(db.s, File(db)[..m], size), d.(wal := File(db)[..m]), Reopen(db, d, m, size);
    LeftGood(db, evs, m, clock, size, o);
    assert Stores(d', u);
    ReopenGood(u, d', SpecRun(Remaining(db, evs, m)), clock, size, o);
    OpenStored(d', u, size);
    ReopenTracks(db, evs, m, clock, next, |d.levels|);
  }

  // ---------------------------------------------------------------------
  // One step
  // ---------------------------------------------------------------------

  ghost predicate SafeReopen(db: Db, m: nat, size: nat, clock: nat) {
    FileLeft(db, m, size, clock) && OneLevelPerKey(db.s.readers)
  }

  /** Compactions are safe, reopens find each key in one level, and a log cut within the covered records is harmless. */
  ghost predicate SafeTake(db: Db, x: Step, clock: nat, o: Options)
    requires o.l0Threshold >= 1
  {
    match x
    case Do(e, _) => SafeWrite(db.s, e, o)
    case Crash(e, p, held, m, size) => SafeReopen(Mid(db, e, p, held), m, size, e.now)
    case Restart(size) => SafeReopen(db, |File(db)|, size, clock)
    case Lose(m, size) => SafeReopen(db, m, size, clock)
    case Close(now, held, size) =>
      var c := ClosedDb(db, now, held, o);
      && (db.s.active != map[] ==> SafeFlush(db.s, now, o))
      && SafeReopen(c, |File(c)|, size, now)
  }

  lemma DurableLater(db: Db, evs: seq<Event>, clock: nat, later: nat, o: Options)
    requires Durable(db, evs, clock, o) && clock <= later
    ensures Durable(db, evs, later, o)
  {
    HarmlessLater(db.s.readers, File(db)[..db.covered], clock, later);
    HarmlessLater(db.s.readers, db.residue, clock, later);
    forall m: nat | db.covered <= m <= |File(db)| ensures CutTracks(db, evs, m, later) {
      assert CutTracks(db, evs, m, clock);
    }
  }

  lemma ClosedDurable(db: Db, evs: seq<Event>, clock: nat, now: nat, held: nat, o: Options)
    requires Durable(db, evs, clock, o) && clock <= now && (db.s.active != map[] ==> SafeFlush(db.s, now, o))
    ensures Durable(ClosedDb(db, now, held, o), evs, now, o)
  {
    if db.s.active == map[] {
      DurableLater(db, evs, clock, now, o);
    } else {
      ClosedGood(db.s, SpecRun(evs), clock, now, o);
      FlushTracks(db.s, now, held, evs, clock, o);
    }
  }

  /** Reopening with the complete log keeps every write. */
  lemma ReopenWhole(db: Db, evs: seq<Event>, clock: nat, size: nat, o: Options)
    requires Durable(db, evs, clock, o) && SafeReopen(db, |File(db)|, size, clock)
    ensures Durable(Reopen(db, DiskOf(db.s), |File(db)|, size), evs, clock, o)
  {
    DiskOfStores(db.s);
    ReopenDurable(db, evs, DiskOf(db.s), |File(db)|, clock, size, o);
    assert Remaining(db, evs, |File(db)|) == evs;
  }

  lemma TakeDurable(db: Db, evs: seq<Event>, clock: nat, x: Step, o: Options)
    requires Durable(db, evs, clock, o) && clock <= TickOf(x, clock) && SafeTake(db, x, clock, o)
    ensures Durable(Take(db, x, o), WritesTake(evs, db, x), TickOf(x, clock), o)
  {
    match x
    case Do(e, held) =>
      DoDurable(db, evs, clock, e, held, o);
    case Crash(e, p, held, m, size) =>
      MidTracks(db, evs, clock, e, p, held, o);
      ReopenDurable(Mid(db, e, p, held), evs + [e], CrashDir(db, e, p), m, e.now, size, o);
    case Restart(size) =>
      ReopenWhole(db, evs, clock, size, o);
    case Lose(m, size) =>
      DiskOfStores(db.s);
      ReopenDurable(db, evs, DiskOf(db.s), m, clock, size, o);
    case Close(now, held, size) =>
      ClosedDurable(db, evs, clock, now, held, o);
      ReopenWhole(ClosedDb(db, now, held, o), evs, now, size, o);
  }

  // ---------------------------------------------------------------------
  // All steps
  // ---------------------------------------------------------------------

  function After(xs: seq<Step>, o: Options): Db
    requires o.l0Threshold >= 1
  {
    if xs == [] then FRESH else Take(After(xs[..|xs| - 1], o), xs[|xs| - 1], o)
  }

  /** The writes that survive the history. */
  function Writes(xs: seq<Step>, o: Options): seq<Event>
    requires o.l0Threshold >= 1
  {
    if xs == [] then []
    else WritesTake(Writes(xs[..|xs| - 1], o), After(xs[..|xs| - 1], o), xs[|xs| - 1])
  }

  function ClockAfter(xs: seq<Step>): nat {
    if xs == [] then 0 else TickOf(xs[|xs| - 1], ClockAfter(xs[..|xs| - 1]))
  }

  /** The map of last writes, counting the writes that survive. */
  function SpecAfter(xs: seq<Step>, o: Options): Spec
    requires o.l0Threshold >= 1
  {
    SpecRun(Writes(xs, o))
  }

  ghost predicate SafeHistory(xs: seq<Step>, o: Options)
    requires o.l0Threshold >= 1
  {
    xs != [] ==>
      var init, x := xs[..|xs| - 1], xs[|xs| - 1];
      && SafeHistory(init, o)
      && SafeTake(After(init, o), x, ClockAfter(init), o)
      && ClockAfter(init) <= TickOf(x, ClockAfter(init))
  }

  lemma FreshDurable(o: Options)
    requires o.l0Threshold >= 1
    ensures Durable(FRESH, [], 0, o)
  {
    InitInv(o);
    CoveredWhole(FRESH, [], 0);
  }

  /** Every safe history, over any number of sessions and crashes, refines the map of the writes that survive. */
  lemma {:induction false} HistoryRefines(xs: seq<Step>, o: Options)
    requires o.l0Threshold >= 1 && SafeHistory(xs, o)
    ensures Durable(After(xs, o), Writes(xs, o), ClockAfter(xs), o)
  {
    if xs == [] {
      FreshDurable(o);
    } else {
      var init := xs[..|xs| - 1];
      HistoryRefines(init, o);
      TakeDurable(After(init, o), Writes(init, o), ClockAfter(init), xs[|xs| - 1], o);
    }
  }

  // ---------------------------------------------------------------------
  // One level
  // ---------------------------------------------------------------------

  /** What the environment may do in a step: what it leaves of a log file is readable as `FileLeft` says. */
  ghost predicate Leaves(db: Db, x: Step, clock: nat, o: Options)
    requires o.l0Threshold >= 1
  {
    match x
    case Do(_, _) => true
    case Crash(e, p, held, m, size) => FileLeft(Mid(db, e, p, held), m, size, e.now)
    case Restart(size) => FileLeft(db, |File(db)|, size, clock)
    case Lose(m, size) => FileLeft(db, m, size, clock)
    case Close(now, held, size) => FileLeft(ClosedDb(db, now, held, o), |File(ClosedDb(db, now, held, o))|, size, now)
  }

  ghost predicate Sensible(xs: seq<Step>, o: Options)
    requires o.l0Threshold >= 1
  {
    xs != [] ==>
      var init, x := xs[..|xs| - 1], xs[|xs| - 1];
      && Sensible(init, o)
      && Leaves(After(init, o), x, ClockAfter(init), o)
      && ClockAfter(init) <= TickOf(x, ClockAfter(init))
  }

  lemma OneLevelSafe(db: Db, x: Step, clock: nat, o: Options)
    requires Inv(db.s, o) && o.maxLevels <= 1 && Leaves(db, x, clock, o)
    ensures SafeTake(db, x, clock, o)
  {
    match x
    case Do(e, _) =>
      AppliedInv(db.s, e, o);
      assert e.op.key in Applied(db.s, e).active;
    case Crash(e, p, held, _, _) =>
      assert e.op.key in Applied(db.s, e).active;
      TopLevelOnly(Applied(db.s, e), p);
    case Restart(_) =>
    case Close(now, _, _) =>
      if db.s.active != map[] {
        FlushedInv(db.s, now, o);
      }
    case Lose(_, _) =>
  }

  /** With a single level every history is safe whose lost log records leave a file that `FileLeft` admits. */
  lemma {:induction false} OneLevelHistory(xs: seq<Step>, o: Options)
    requires o.l0Threshold >= 1 && o.maxLevels <= 1 && Sensible(xs, o)
    ensures SafeHistory(xs, o)
    ensures Durable(After(xs, o), Writes(xs, o), ClockAfter(xs), o)
  {
    if xs != [] {
      var init := xs[..|xs| - 1];
      OneLevelHistory(init, o);
      OneLevelSafe(After(init, o), xs[|xs| - 1], ClockAfter(init), o);
    }
    HistoryRefines(xs, o);
  }

  // ---------------------------------------------------------------------
  // With sync_wal
  // ---------------------------------------------------------------------

  /** Every record is in the file when its write returns: a flush leaves nothing buffered, a crash loses nothing. */
  ghost predicate SyncedStep(db: Db, x: Step) {
    match x
    case Do(_, held) => held == 0
    case Crash(e, p, held, m, size) =>
      held == 0 && m == |File(Mid(db, e, p, held))| && FitsList(Replay(File(Mid(db, e, p, held))), size)
    case Restart(size) => FitsList(Replay(File(db)), size)
    case Lose(m, size) => m == |File(db)| && FitsList(Replay(File(db)), size)
    case Close(_, held, size) => held == 0 && FitsList(if db.s.active == map[] then Replay(File(db)) else map[], size)
  }

  ghost predicate Synced(xs: seq<Step>, o: Options)
    requires o.l0Threshold >= 1
  {
    xs != [] ==>
      var init, x := xs[..|xs| - 1], xs[|xs| - 1];
      && Synced(init, o)
      && SyncedStep(After(init, o), x)
      && ClockAfter(init) <= TickOf(x, ClockAfter(init))
  }

  /** All writes of a history, interrupted ones included. */
  function AllWrites(xs: seq<Step>): seq<Event> {
    if xs == [] then []
    else
      var x := xs[|xs| - 1];
      AllWrites(xs[..|xs| - 1]) + if x.Do? || x.Crash? then [x.e] else []
  }

  /** The complete log is left. */
  lemma WholeLeft(db: Db, evs: seq<Event>, size: nat, clock: nat)
    requires Backed(db, evs, clock) && FitsList(Replay(File(db)), size)
    ensures FileLeft(db, |File(db)|, size, clock) && Remaining(db, evs, |File(db)|) == evs
  {
    assert File(db)[..|File(db)|] == File(db);
  }

  lemma SyncedLeaves(db: Db, evs: seq<Event>, x: Step, clock: nat, o: Options)
    requires Durable(db, evs, clock, o) && SyncedStep(db, x) && clock <= TickOf(x, clock)
    ensures Leaves(db, x, clock, o)
    ensures WritesTake(evs, db, x) == evs + if x.Do? || x.Crash? then [x.e] else []
  {
    match x
    case Do(_, _) =>
    case Crash(e, p, held, m, size) =>
      MidTracks(db, evs, clock, e, p, held, o);
      WholeLeft(Mid(db, e, p, held), evs + [e], size, e.now);
    case Restart(size) => WholeLeft(db, evs, size, clock);
    case Lose(_, size) => WholeLeft(db, evs, size, clock);
    case Close(now, held, size) => SyncedClose(db, evs, clock, now, held, size, o);
  }

  lemma SyncedClose(db: Db, evs: seq<Event>, clock: nat, now: nat, held: nat, size: nat, o: Options)
    requires Durable(db, evs, clock, o) && SyncedStep(db, Close(now, held, size)) && clock <= now
    ensures var c := ClosedDb(db, now, held, o); FileLeft(c, |File(c)|, size, now)
  {
    var c := ClosedDb(db, now, held, o);
    assert File(c)[..|File(c)|] == File(c);
    if db.s.active == map[] {
      WholeLeft(db, evs, size, clock);
    } else {
      assert File(c) == [];
    }
  }

  /** With one level and `sync_wal` no crash, close or reopen loses or revives any write. */
  lemma {:induction false} SyncedHistory(xs: seq<Step>, o: Options)
    requires o.l0Threshold >= 1 && o.maxLevels <= 1 && Synced(xs, o)
    ensures Sensible(xs, o) && Writes(xs, o) == AllWrites(xs)
    ensures Refines(After(xs, o).s, SpecRun(AllWrites(xs)), ClockAfter(xs))
  {
    if xs != [] {
      var init := xs[..|xs| - 1];
      SyncedHistory(init, o);
      OneLevelHistory(init, o);
      SyncedLeaves(After(init, o), Writes(init, o), xs[|xs| - 1], ClockAfter(init), o);
    }
    OneLevelHistory(xs, o);
  }

  // ---------------------------------------------------------------------
  // Sessions without a crash
  // ---------------------------------------------------------------------

  /** A session without a crash, as a history. */
  function Session(evs: seq<Event>): (xs: seq<Step>)
    ensures |xs| == |evs|
  {
    seq(|evs|, i requires 0 <= i < |evs| => Do(evs[i], 0))
  }

  lemma SessionRuns(evs: seq<Event>, o: Options)
    requires o.l0Threshold >= 1
    ensures After(Session(evs), o) == Db(Run(evs, o), [], 0) && Writes(Session(evs), o) == evs
    ensures ClockAfter(Session(evs)) == Clock(evs)
  {
    SessionRunsAs(evs, Session(evs), o);
  }

  lemma {:induction false} SessionRunsAs(evs: seq<Event>, xs: seq<Step>, o: Options)
    requires o.l0Threshold >= 1 && xs == Session(evs)
    ensures After(xs, o) == Db(Run(evs, o), [], 0) && Writes(xs, o) == evs && ClockAfter(xs) == Clock(evs)
    decreases |evs|
  {
    if evs == [] {
      NoSession(o);
    } else {
      var init, e, ys := evs[..|evs| - 1], evs[|evs| - 1], xs[..|xs| - 1];
      SessionInit(evs, init, e, xs, ys);
      SessionRunsAs(init, ys, o);
      SessionStep(init, e, evs, ys, xs, o);
    }
  }

  lemma SessionInit(evs: seq<Event>, init: seq<Event>, e: Event, xs: seq<Step>, ys: seq<Step>)
    requires evs != [] && xs == Session(evs) && init == evs[..|evs| - 1] && e == evs[|evs| - 1] && ys == xs[..|xs| - 1]
    ensures evs == init + [e] && xs == ys + [Do(e, 0)] && ys == Session(init)
  {
  }

  lemma NoSession(o: Options)
    requires o.l0Threshold >= 1
    ensures After([], o) == Db(Run([], o), [], 0) && Writes([], o) == [] && ClockAfter([]) == Clock([])
  {
  }

  lemma RunLast(init: seq<Event>, e: Event, evs: seq<Event>, o: Options)
    requires o.l0Threshold >= 1 && evs == init + [e]
    ensures Run(evs, o) == Write(Run(init, o), e, o) && Clock(evs) == e.now
  {
    assert evs[..|evs| - 1] == init;
  }

  /** A write whose flush finds nothing buffered leaves no residue. */
  lemma DoUnbuffered(s: State, e: Event, o: Options)
    requires o.l0Threshold >= 1
    ensures DoDb(Db(s, [], 0), e, 0, o) == Db(Write(s, e, o), [], 0)
  {
  }

  lemma SessionStep(init: seq<Event>, e: Event, evs: seq<Event>, xs: seq<Step>, all: seq<Step>, o: Options)
    requires o.l0Threshold >= 1 && evs == init + [e] && all == xs + [Do(e, 0)]
    requires After(xs, o) == Db(Run(init, o), [], 0) && Writes(xs, o) == init
    ensures After(all, o) == Db(Run(evs, o), [], 0) && Writes(all, o) == evs && ClockAfter(all) == Clock(evs)
  {
    assert all[..|all| - 1] == xs;
    RunLast(init, e, evs, o);
    DoUnbuffered(Run(init, o), e, o);
  }
}
