/**
 The bytes of the log file: whatever prefix of them survives is a prefix of its records, a torn append happens
 entirely or not at all, and two databases that a lost end of the file leaves with a mixture of writes.
 */
module TornWrites {
  import opened Bytes
  import opened OrderedMaps
  import opened ValueCodec
  import opened WalRecord
  import opened Wal
  import opened Tables
  import opened Machine
  import opened Recovery
  import opened Compaction
  import opened Cascade
  import opened Sizes
  import opened Sessions
  import opened Histories
  import Snapshots

  /** What a reopen finds in the directory when only `n` bytes of the log survived. */
  function Survived(d: Disk, n: nat, crc: Checksum): Result<Disk>
    requires n <= |EncodeAll(d.wal, crc)|
  {
    match ReadAll(EncodeAll(d.wal, crc)[..n], crc)
    case Ok(rs) => Ok(d.(wal := rs))
    case Err(e) => Err(e)
  }

  /** The loss of any bytes at the end of the log leaves a readable log: a prefix of its records. */
  lemma PrefixDurability(d: Disk, n: nat, crc: Checksum)
    requires AllFit(d.wal) && n <= |EncodeAll(d.wal, crc)|
    ensures Survived(d, n, crc) == Ok(d.(wal := d.wal[..Whole(d.wal, n)]))
  {
    TornTail(d.wal, n, crc);
  }

  /** Reopening what a byte loss leaves is reopening with the records that are whole. */
  lemma ByteLossIsRecordLoss(db: Db, d: Disk, n: nat, crc: Checksum, size: nat)
    requires AllFit(File(db)) && n <= |EncodeAll(File(db), crc)|
    ensures var left := Survived(d.(wal := File(db)), n, crc);
            && left.Ok?
            && Open(left.value, size) == Reopen(db, d, Whole(File(db), n), size).s
  {
    PrefixDurability(d.(wal := File(db)), n, crc);
  }

  /**
   After any safe history and the loss of any bytes at the end of the log file, the reopened engine refines the
   surviving writes if and only if the records that are left are all that the tables cover, or are harmless.
   */
  lemma ByteLossRefines(xs: seq<Step>, db: Db, n: nat, crc: Checksum, size: nat, o: Options)
    requires o.l0Threshold >= 1 && SafeHistory(xs, o) && db == After(xs, o) && OneLevelPerKey(db.s.readers)
    requires AllFit(File(db)) && n <= |EncodeAll(File(db), crc)|
    ensures var left, m := Survived(DiskOf(db.s).(wal := File(db)), n, crc), Whole(File(db), n);
            && left.Ok?
            && (Refines(Open(left.value, size), SpecRun(Remaining(db, Writes(xs, o), m)), ClockAfter(xs)) <==>
                (m < db.covered ==> Harmless(db.s.readers, File(db)[..m], ClockAfter(xs))))
  {
    HistoryRefines(xs, o);
    DiskOfStores(db.s);
    ByteLossIsRecordLoss(db, DiskOf(db.s), n, crc, size);
    LoseShowsIff(db, Writes(xs, o), DiskOf(db.s), Whole(File(db), n), ClockAfter(xs), size, o);
  }

  lemma {:induction false} WholeOfAppend(rs: seq<Record>, r: Record, n: nat, crc: Checksum)
    requires |EncodeAll(rs, crc)| <= n <= |EncodeAll(rs + [r], crc)|
    ensures Whole(rs + [r], n) == if n == |EncodeAll(rs + [r], crc)| then |rs| + 1 else |rs|
  {
    EncodeAllAppend(rs, r, crc);
    if rs == [] {
      assert [] + [r] == [r] && [r][1..] == [];
    } else {
      assert (rs + [r])[1..] == rs[1..] + [r];
      EncodeAllAppend(rs[1..], r, crc);
      WholeOfAppend(rs[1..], r, n - |Encode(rs[0], crc)|, crc);
    }
  }

  /**
   A crash in the middle of appending a write's record: the write is recovered exactly when all of its
   bytes reached the file; everything logged before is recovered either way.
   */
  lemma TornAppend(s: State, e: Event, n: nat, crc: Checksum)
    requires AllFit(Applied(s, e).wal)
    requires |EncodeAll(s.wal, crc)| <= n <= |EncodeAll(Applied(s, e).wal, crc)|
    ensures ReadAll(EncodeAll(Applied(s, e).wal, crc)[..n], crc) ==
            Ok(if n == |EncodeAll(Applied(s, e).wal, crc)| then Applied(s, e).wal else s.wal)
  {
    var all := Applied(s, e).wal;
    TornTail(all, n, crc);
    WholeOfAppend(s.wal, RecordOf(e.op, e.now, s.nextSeq), n, crc);
    assert all[..|s.wal|] == s.wal && all[..|all|] == all;
  }

  // ---------------------------------------------------------------------
  // Logs cut within the records that the tables cover
  // ---------------------------------------------------------------------

  /** One level, and room for one entry of `k` in the memtable. */
  predicate Tight(o: Options, k: Key, a: Value) {
    && o.maxLevels == 1 && o.l0Threshold >= 1 && !o.syncWal
    && o.memtableSize == LIST_SIZE + NodeCost(k, EncodeWithSeq(a, 1), 0)
  }

  /** Two writes of one key and a write of another one, all at time 0. */
  function Triple(k: Key, j: Key, a: Value, b: Value, c: Value): seq<Event> {
    [Event(Put(k, a), 0, 0), Event(Put(k, b), 0, 0), Event(Put(j, c), 0, 0)]
  }

  /** No prefix of the writes leaves this view. */
  ghost predicate NoPrefix(u: State, evs: seq<Event>) {
    forall p | 0 <= p <= |evs| :: exists x :: Show(Get(u, x), 0) != SpecGet(SpecRun(evs[..p]), x, 0)
  }

  /** The two writes before the third stay in memory. */
  lemma TwoWrites(k: Key, j: Key, a: Value, b: Value, c: Value, s: State, o: Options)
    requires k != j && Tight(o, k, a)
    requires s == Write(Write(EMPTY, Triple(k, j, a, b, c)[0], o), Triple(k, j, a, b, c)[1], o)
    ensures Inv(s, o) && s.readers == [] && |s.wal| == 2
    ensures s.wal[0] == RecordOf(Put(k, a), 0, 1) && s.wal[1] == RecordOf(Put(k, b), 0, 2)
    ensures s.active == map[k := EncodeWithSeq(b, 2)] && s.nextSeq == 3 && s.nextId == 1
    ensures Overflows(s, Triple(k, j, a, b, c)[2], o)
  {
    var evs := Triple(k, j, a, b, c);
    InitInv(o);
    WriteInv(EMPTY, evs[0], o);
    WriteInv(Write(EMPTY, evs[0], o), evs[1], o);
  }

  lemma PlainShown(v: Value, q: nat)
    requires !Aliased(v)
    ensures Show(Some(EncodeWithSeq(v, q)), 0) == Some(v)
  {
    InnerRoundTrip(v, q, 0);
    PlainValueIff(v, 0);
  }

  lemma MixedSpec(k: Key, j: Key, a: Value, b: Value, c: Value, evs: seq<Event>, p: nat)
    requires k != j && !Aliased(b) && p <= 3
    requires evs == Triple(k, j, a, b, c)
    ensures p <= 2 ==> SpecGet(SpecRun(evs[..p]), j, 0) == None
    ensures p == 3 ==> SpecGet(SpecRun(evs[..p]), k, 0) == Some(b)
  {
    if p <= 2 {
      Snapshots.SpecUntouched(evs[..p], 0, j);
      assert evs[..p][..0] == [];
    } else {
      assert evs[..p] == evs;
      Snapshots.SpecLastWrite(evs, k, 2);
      PlainValueIff(b, 0);
    }
  }

  lemma ReplayFirst(wal: seq<Record>)
    requires |wal| >= 1 && wal[0].op.OpPut?
    ensures Replay(wal[..1]) == map[wal[0].key := wal[0].value]
  {
    assert wal[..1][..0] == [];
  }

  /** The third write, flushed, and the first record. */
  lemma MixedView(k: Key, j: Key, a: Value, b: Value, c: Value, s: State, s1: State)
    requires k != j && !Aliased(a) && !Aliased(c)
    requires |s.wal| == 2 && s.wal[0] == RecordOf(Put(k, a), 0, 1) && s.nextSeq == 3
    requires s1 == Applied(s, Triple(k, j, a, b, c)[2]) && s1.active != map[]
    ensures Show(LogGet(FlushedReaders(s1), s1.wal[..1], k), 0) == Some(a)
    ensures Show(LogGet(FlushedReaders(s1), s1.wal[..1], j), 0) == Some(c)
  {
    ReplayFirst(s1.wal);
    FlushedLookup(s1, j);
    PlainShown(a, 1);
    PlainShown(c, 3);
  }

  /** Whatever prefix of the writes: it has not yet the third, or it has the second. */
  lemma MixedIsNoPrefix(k: Key, j: Key, a: Value, b: Value, c: Value, u: State)
    requires k != j && a != b && !Aliased(b)
    requires Show(Get(u, k), 0) == Some(a) && Show(Get(u, j), 0) == Some(c)
    ensures NoPrefix(u, Triple(k, j, a, b, c))
  {
    var evs := Triple(k, j, a, b, c);
    forall p | 0 <= p <= |evs| ensures exists x :: Show(Get(u, x), 0) != SpecGet(SpecRun(evs[..p]), x, 0) {
      MixedSpec(k, j, a, b, c, evs, p);
      var x := if p <= 2 then j else k;
      assert Show(Get(u, x), 0) != SpecGet(SpecRun(evs[..p]), x, 0);
    }
  }

  /** Opening the flushed table under the first record. */
  lemma MixedOpens(k: Key, j: Key, a: Value, b: Value, c: Value, s: State, s1: State, d: Disk, r: State, u: State,
                   size: nat)
    requires k != j && a != b && !Aliased(a) && !Aliased(b) && !Aliased(c)
    requires |s.wal| == 2 && s.wal[0] == RecordOf(Put(k, a), 0, 1) && s.nextSeq == 3 && s.readers == []
    requires s1 == Applied(s, Triple(k, j, a, b, c)[2]) && s1.active != map[]
    requires r.readers == FlushedReaders(s1) && WF(r.readers) && Stores(d, r) && u == Open(d.(wal := s1.wal[..1]), size)
    ensures Show(Get(u, k), 0) == Some(a) && Show(Get(u, j), 0) == Some(c) && NoPrefix(u, Triple(k, j, a, b, c))
  {
    MixedView(k, j, a, b, c, s, s1);
    assert OneLevelPerKey(r.readers);
    OpenLogShows(r, d, s1.wal[..1], size, k, 0);
    OpenLogShows(r, d, s1.wal[..1], size, j, 0);
    MixedIsNoPrefix(k, j, a, b, c, u);
  }

  /**
   One level, without `sync_wal`: the third write is flushed, the dropped writer appends all three records behind the
   truncation, and only the first of them reaches the disk. All writes lie in tables, yet the overwritten value is back.
   The records fit in the writer's buffer, so that nothing but the flush writes them.
   */
  lemma ResidueCutRevives(k: Key, j: Key, a: Value, b: Value, c: Value, size: nat, o: Options)
      returns (xs: seq<Step>, s: State)
    requires k != j && a != b && !Aliased(a) && !Aliased(b) && !Aliased(c) && Tight(o, k, a)
    requires 75 + 2 * |k| + |j| + |a| + |b| + |c| <= CAPACITY
    ensures var evs := Triple(k, j, a, b, c);
            && xs == Session(evs[..2]) + [Do(evs[2], 3), Lose(1, size)]
            && s == After(Session(evs[..2]), o).s && Overflows(s, evs[2], o)
            && FrameSizes(Applied(s, evs[2]).wal) <= CAPACITY
            && Writes(xs, o) == evs && NoPrefix(After(xs, o).s, evs)
    ensures SpecGet(SpecAfter(xs, o), k, 0) == Some(b) && Show(Get(After(xs, o).s, k), 0) == Some(a)
  {
    var db;
    xs, s, db := ResidueRun(k, j, a, b, c, Triple(k, j, a, b, c), size, o);
    ResidueView(k, j, a, b, c, s, db, After(xs, o).s, size);
    ThreeFrames(Applied(s, Triple(k, j, a, b, c)[2]).wal);
  }

  lemma ThreeFrames(wal: seq<Record>)
    requires |wal| == 3
    ensures FrameSizes(wal) == FrameSize(wal[0]) + FrameSize(wal[1]) + FrameSize(wal[2])
  {
    assert FrameSizes(wal[1..][1..]) == FrameSize(wal[2]) + FrameSizes(wal[1..][1..][1..]);
  }

  /** The history and the database that its flush leaves. */
  lemma ResidueRun(k: Key, j: Key, a: Value, b: Value, c: Value, evs: seq<Event>, size: nat, o: Options)
      returns (xs: seq<Step>, s: State, db: Db)
    requires k != j && Tight(o, k, a) && evs == Triple(k, j, a, b, c)
    ensures xs == Session(evs[..2]) + [Do(evs[2], 3), Lose(1, size)]
    ensures s == After(Session(evs[..2]), o).s && Overflows(s, evs[2], o)
    ensures |s.wal| == 2 && s.wal[0] == RecordOf(Put(k, a), 0, 1) && s.nextSeq == 3 && s.readers == []
    ensures s.wal[1] == RecordOf(Put(k, b), 0, 2)
    ensures Applied(s, evs[2]).active != map[] && WF(db.s.readers) && Stores(DiskOf(db.s), db.s)
    ensures db.s.readers == FlushedReaders(Applied(s, evs[2])) && File(db) == Applied(s, evs[2]).wal
    ensures After(xs, o).s == Open(DiskOf(db.s).(wal := File(db)[..1]), size) && Writes(xs, o) == evs
  {
    xs := Session(evs[..2]) + [Do(evs[2], 3), Lose(1, size)];
    s := Write(Write(EMPTY, evs[0], o), evs[1], o);
    db := DoDb(Db(s, [], 0), evs[2], 3, o);
    TwoWrites(k, j, a, b, c, s, o);
    FlushedTriple(s, evs[2], db, o);
    ResidueHistory(evs, s, db, xs, size, o);
  }

  lemma ResidueView(k: Key, j: Key, a: Value, b: Value, c: Value, s: State, db: Db, u: State, size: nat)
    requires k != j && a != b && !Aliased(a) && !Aliased(b) && !Aliased(c)
    requires |s.wal| == 2 && s.wal[0] == RecordOf(Put(k, a), 0, 1) && s.nextSeq == 3 && s.readers == []
    requires WF(db.s.readers) && Stores(DiskOf(db.s), db.s)
    requires Applied(s, Triple(k, j, a, b, c)[2]).active != map[]
    requires db.s.readers == FlushedReaders(Applied(s, Triple(k, j, a, b, c)[2]))
    requires File(db) == Applied(s, Triple(k, j, a, b, c)[2]).wal
    requires u == Open(DiskOf(db.s).(wal := File(db)[..1]), size)
    ensures Show(Get(u, k), 0) == Some(a) && NoPrefix(u, Triple(k, j, a, b, c))
    ensures SpecGet(SpecRun(Triple(k, j, a, b, c)), k, 0) == Some(b)
  {
    var evs := Triple(k, j, a, b, c);
    MixedOpens(k, j, a, b, c, s, Applied(s, evs[2]), DiskOf(db.s), db.s, u, size);
    MixedSpec(k, j, a, b, c, evs, 3);
    assert evs[..3] == evs;
  }

  lemma ResidueHistory(evs: seq<Event>, s: State, db: Db, xs: seq<Step>, size: nat, o: Options)
    requires |evs| == 3 && o.l0Threshold >= 1 && s == Write(Write(EMPTY, evs[0], o), evs[1], o)
    requires db == DoDb(Db(s, [], 0), evs[2], 3, o) && |File(db)| == 3 && db.covered == 3
    requires xs == Session(evs[..2]) + [Do(evs[2], 3), Lose(1, size)]
    ensures s == After(Session(evs[..2]), o).s
    ensures After(xs, o).s == Open(DiskOf(db.s).(wal := File(db)[..1]), size) && Writes(xs, o) == evs
  {
    var ys := Session(evs[..2]);
    TwoRuns(evs, o);
    SessionRuns(evs[..2], o);
    LastTwo(ys, Do(evs[2], 3), Lose(1, size), xs, o);
    ResidueTake(evs, db, size, o);
  }

  lemma ResidueTake(evs: seq<Event>, db: Db, size: nat, o: Options)
    requires |evs| == 3 && o.l0Threshold >= 1 && |File(db)| == 3 && db.covered == 3
    ensures Take(db, Lose(1, size), o).s == Open(DiskOf(db.s).(wal := File(db)[..1]), size)
    ensures WritesTake(evs[..2] + [evs[2]], db, Lose(1, size)) == evs
  {
    assert evs == evs[..2] + [evs[2]];
  }

  lemma TwoRuns(evs: seq<Event>, o: Options)
    requires |evs| == 3 && o.l0Threshold >= 1
    ensures Run(evs[..2], o) == Write(Write(EMPTY, evs[0], o), evs[1], o)
  {
    assert evs[..2] == [evs[0]] + [evs[1]] && [evs[0]] == [] + [evs[0]];
    RunLast([], evs[0], [evs[0]], o);
    RunLast([evs[0]], evs[1], evs[..2], o);
  }

  lemma LastTwo(xs: seq<Step>, x: Step, y: Step, all: seq<Step>, o: Options)
    requires o.l0Threshold >= 1 && all == xs + [x, y]
    ensures After(all, o) == Take(Take(After(xs, o), x, o), y, o)
    ensures Writes(all, o) == WritesTake(WritesTake(Writes(xs, o), After(xs, o), x), Take(After(xs, o), x, o), y)
  {
    assert all[..|all| - 1] == xs + [x] && (xs + [x])[..|xs|] == xs;
  }

  /** The database behind the flush: one table, and the three records in the log file. */
  lemma FlushedTriple(s: State, e: Event, db: Db, o: Options)
    requires Inv(s, o) && o.maxLevels == 1 && |s.wal| == 2 && Overflows(s, e, o)
    requires db == DoDb(Db(s, [], 0), e, 3, o)
    ensures Applied(s, e).active != map[] && WF(db.s.readers) && Stores(DiskOf(db.s), db.s)
    ensures db.s.readers == FlushedReaders(Applied(s, e)) && File(db) == Applied(s, e).wal && db.covered == 3
  {
    assert e.op.key in Applied(s, e).active;
    WriteInv(s, e, o);
    DiskOfStores(db.s);
  }

  /** The same records lost inside the flush, behind the manifest: neither all writes nor a prefix of them. */
  lemma LossBehindManifest(k: Key, j: Key, a: Value, b: Value, c: Value, size: nat, o: Options)
      returns (xs: seq<Step>, s: State)
    requires k != j && a != b && !Aliased(a) && !Aliased(b) && !Aliased(c) && Tight(o, k, a)
    ensures var evs := Triple(k, j, a, b, c);
            && xs == Session(evs[..2]) + [Crash(evs[2], ManifestSaved, 0, 1, size)]
            && s == After(Session(evs[..2]), o).s && Overflows(s, evs[2], o)
            && NoPrefix(After(xs, o).s, evs)
    ensures Show(Get(After(xs, o).s, k), 0) == Some(a) && Show(Get(After(xs, o).s, j), 0) == Some(c)
  {
    var evs := Triple(k, j, a, b, c);
    xs := Session(evs[..2]) + [Crash(evs[2], ManifestSaved, 0, 1, size)];
    s := Write(Write(EMPTY, evs[0], o), evs[1], o);
    TwoWrites(k, j, a, b, c, s, o);
    TwoRuns(evs, o);
    SessionRuns(evs[..2], o);
    assert xs[..2] == Session(evs[..2]);
    SavedTriple(s, evs[2], o);
    var db := Db(s, [], 0);
    var d, r := CrashDir(db, evs[2], ManifestSaved), Mid(db, evs[2], ManifestSaved, 0);
    assert File(r) == Applied(s, evs[2]).wal;
    MixedOpens(k, j, a, b, c, s, Applied(s, evs[2]), d, r.s, After(xs, o).s, size);
  }

  lemma SavedTriple(s: State, e: Event, o: Options)
    requires Inv(s, o)
    ensures var d, r := CrashDir(Db(s, [], 0), e, ManifestSaved), Mid(Db(s, [], 0), e, ManifestSaved, 0).s;
            && Applied(s, e).active != map[]
            && WF(r.readers) && Stores(d, r) && r.readers == FlushedReaders(Applied(s, e))
  {
    var s1 := Applied(s, e);
    assert e.op.key in s1.active;
    AppliedInv(s, e, o);
    FlushedReadersInv(s1, o);
    DiskOfStores(s);
    CrashDiskStores(DiskOf(s).(wal := s1.wal), s1, ManifestSaved);
  }
}
