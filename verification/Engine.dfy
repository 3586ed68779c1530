/**
 The engine (src/engine.rs) over its memtable, log, manifest, reader list and table files. Every
 method is tied to the state machine: reads to the lookup functions, writes to `Machine.Write`.
 */
module Engines {
  import opened Bytes
  import opened OrderedMaps
  import opened Sizes
  import opened ValueCodec
  import opened WalRecord
  import opened Wal
  import opened Tables
  import opened Compaction
  import opened Cascade
  import opened Machine
  import opened Recovery
  import opened Removal
  import SkipLists
  import Sessions
  import Histories
  import Snapshots
  import Scans
  import opened MemTables

  /** The reader of a freshly built table file. */
  lemma BuiltTable(es: seq<Entry>, id: nat, level: nat)
    requires Sorted(es) && es != []
    ensures ToMap(es) != map[]
    ensures NewTable(ToMap(es), id, level) == Reader(SSTMeta(id, level, es[0].0, es[|es| - 1].0), ToMap(es))
  {
    ToMapKeys(es);
    NoKeys(es);
    NonemptyMap(es);
    LastIsGreatest(es);
    FirstIsLeast(es);
    var s := KeysOf(es);
    LeastUnique(s, es[0].0, MinKey(s));
    GreatestUnique(s, es[|es| - 1].0, MaxKey(s));
  }

  lemma FirstIsLeast(es: seq<Entry>)
    requires Sorted(es) && es != []
    ensures IsLeast(es[0].0, KeysOf(es))
  {
    assert es[0] in es;
    forall x <- KeysOf(es) ensures Le(es[0].0, x) {
      var i :| 0 <= i < |es| && es[i].0 == x;
    }
  }

  /** The table, if any, that merged entries are written to. */
  function Written(kept: map<Key, Value>, id: nat, level: nat): seq<Reader> {
    if kept == map[] then [] else [NewTable(kept, id, level)]
  }

  lemma CompactResult(rs: seq<Reader>, src: nat, now: nat, id: nat, kept: map<Key, Value>, rs': seq<Reader>)
    requires AtLevel(rs, src) != [] && UniqueIds(rs, id)
    requires kept == LivePart(Overlay(Inputs(rs, src)), now)
    requires rs' == Without(rs + Written(kept, id, src + 1), Ids(Inputs(rs, src)))
    ensures rs' == Compact(rs, src, now, id)
    ensures StepId(rs, src, now, id) == if kept == map[] then id else id + 1
  {
    RemoveInputs(rs, src, id, Written(kept, id, src + 1));
  }

  datatype OpenResult = Opened(engine: Engine) | Failed(error: KvError)

  class Engine {
    const opts: Options
    var memtable: MemTable
    var file: seq<Record>                       // the log file
    var buffer: seq<Record>                     // appended records that the log writer still buffers
    ghost var residue: seq<Record>              // what came out of a buffer behind the last truncation of the log
    ghost var wal: seq<Record>                  // the records of this engine
    ghost var covered: nat                      // how many of the log's records the tables already hold
    var files: map<nat, map<Key, Value>>        // table files by id
    var saved: seq<seq<SSTMeta>>                // the manifest file
    var levels: seq<seq<SSTMeta>>               // the manifest in memory
    var readers: seq<Reader>
    var nextId: nat
    var nextSeq: nat

    /** Manifest, reader list and directory agree. */
    ghost predicate Coupled()
      reads this
    {
      Listed(levels, readers) && Filed(files, readers) && UniqueIds(readers, nextId)
    }

    /** File and buffer together are the log, and only the engine's own records can be buffered. */
    ghost predicate Logged()
      reads this
    {
      file + buffer == residue + wal && |buffer| <= |wal| && (opts.syncWal ==> buffer == [])
    }

    ghost predicate Valid()
      reads this, memtable, memtable.active, memtable.active.spine, memtable.immutable,
            MemTable.Nodes(memtable.immutable)
    {
      && memtable.Valid() && memtable.maxSize == opts.memtableSize && opts.l0Threshold >= 1
      && Coupled() && Logged()
    }

    /** The abstract state, leaving out a frozen list that waits for its flush. */
    ghost function St(): State
      reads this, memtable, memtable.active
    {
      State(memtable.Active(), memtable.active.size, wal, readers, nextSeq, nextId)
    }

    /** The engine with what its log file holds, as histories see it. */
    ghost function Database(): Histories.Db
      reads this, memtable, memtable.active
    {
      Histories.Db(St(), residue, covered)
    }

    /** What reading needs, whatever the manifest lists. */
    ghost predicate Readable()
      reads this, memtable, memtable.active, memtable.active.spine, memtable.immutable,
            MemTable.Nodes(memtable.immutable)
    {
      memtable.Valid() && memtable.immutable == null
    }

    /** Between two operations nothing is frozen and the manifest on disk is current. */
    ghost predicate Ready()
      reads this, memtable, memtable.active, memtable.active.spine, memtable.immutable,
            MemTable.Nodes(memtable.immutable)
    {
      Valid() && memtable.immutable == null && saved == levels
    }

    // -------------------------------------------------------------------
    // Opening
    // -------------------------------------------------------------------

    /** Put the records of a log into a fresh memtable, without freezing. */
    static method ReplayRecords(wal: seq<Record>, memtableSize: nat) returns (m: MemTable)
      ensures fresh(m) && fresh(m.active) && forall n <- m.active.spine :: fresh(n)
      ensures m.Valid() && m.maxSize == memtableSize && m.immutable == null
      ensures m.Active() == Replay(wal)
    {
      m := new MemTable(memtableSize);
      for i := 0 to |wal|
        invariant fresh(m) && fresh(m.active) && forall n <- m.active.spine :: fresh(n)
        invariant m.Valid() && m.maxSize == memtableSize && m.immutable == null
        invariant m.Active() == Replay(wal[..i])
      {
        assert wal[..i + 1][..i] == wal[..i];
        var rec := wal[i];
        var value := match rec.op case OpPut => rec.value case OpDelete => TOMBSTONE;
        assert forall p | 0 <= p < |m.active.spine| :: m.active.spine[p] in m.active.spine;
        var tower := m.PutNoFreeze(rec.key, value);
      }
      assert wal[..|wal|] == wal;
    }

    /** Replay a log file into a fresh memtable; the first record that does not decode is an error. */
    static method ReplayWal(log: seq<byte>, crc: Checksum, memtableSize: nat)
        returns (m: MemTable?, records: Result<seq<Record>>)
      ensures records == ReadAll(log, crc) && (m == null <==> records.Err?)
      ensures m != null ==> fresh(m) && fresh(m.active) && forall n <- m.active.spine :: fresh(n)
      ensures m != null ==> m.Valid() && m.maxSize == memtableSize && m.immutable == null
      ensures m != null ==> m.Active() == Replay(records.value)
    {
      var reader := new WALReader(log, crc);
      records := reader.ReadToEnd();
      m := null;
      if records.Ok? {
        m := ReplayRecords(records.value, memtableSize);
      }
    }

    /** Readers for the tables of one level whose files exist; others are skipped. */
    static method OpenLevelReaders(level: seq<SSTMeta>, files: map<nat, map<Key, Value>>, done: seq<Reader>, id: nat)
      returns (rs: seq<Reader>, next: nat)
      requires id == NextIdOf(done)
      ensures rs == done + OpenLevel(level, files) && next == NextIdOf(rs)
    {
      rs, next := done, id;
      for i := 0 to |level|
        invariant rs == done + OpenLevel(level[..i], files) && next == NextIdOf(rs)
      {
        OpenLevelLast(level, i, files);
        var meta := level[i];
        if meta.id in files {
          NextIdLast(rs, Reader(meta, files[meta.id]));
          if meta.id >= next {
            next := meta.id + 1;
          }
          rs := rs + [Reader(meta, files[meta.id])];
        }
      }
      assert level[..|level|] == level;
    }

    /** Readers for everything the manifest lists, shallow levels first, and the next free id. */
    static method OpenReaders(levels: seq<seq<SSTMeta>>, files: map<nat, map<Key, Value>>)
      returns (rs: seq<Reader>, next: nat)
      ensures rs == OpenLevels(levels, files) && next == NextIdOf(rs)
    {
      rs, next := [], 1;
      for l := 0 to |levels|
        invariant rs == OpenLevels(levels[..l], files) && next == NextIdOf(rs)
      {
        rs, next := OpenLevelReaders(levels[l], files, rs, next);
        OpenLevelsLast(levels, l, files);
      }
      assert levels[..|levels|] == levels;
    }

    constructor Assemble(files: map<nat, map<Key, Value>>, levels: seq<seq<SSTMeta>>, log: seq<Record>,
                         ghost covered: nat, readers: seq<Reader>, nextId: nat, memtable: MemTable, opts: Options)
      ensures this.files == files && this.levels == levels && saved == levels && this.opts == opts
      ensures file == wal == log && buffer == residue == [] && this.covered == covered
      ensures this.readers == readers && this.nextId == nextId && nextSeq == 1 && this.memtable == memtable
    {
      this.files, this.levels, this.saved, this.opts := files, levels, levels, opts;
      this.file, this.buffer, this.wal, this.residue, this.covered := log, [], log, [], covered;
      this.readers, this.nextId, this.nextSeq, this.memtable := readers, nextId, 1, memtable;
    }

    /**
     Open a directory, whatever it holds; one that an engine left behind opens ready for use. How many of the log's
     records the tables already hold is known to the proof alone.
     */
    static method Open(files: map<nat, map<Key, Value>>, levels: seq<seq<SSTMeta>>, log: seq<byte>, crc: Checksum,
                       opts: Options, ghost covered: nat)
      returns (r: OpenResult)
      requires opts.l0Threshold >= 1
      ensures match r
              case Failed(e) => ReadAll(log, crc) == Err(e)
              case Opened(engine) =>
                && ReadAll(log, crc).Ok?
                && engine.OpenedFrom(Disk(files, levels, ReadAll(log, crc).value), opts)
                && engine.residue == [] && engine.covered == covered
      ensures r.Opened? ==> fresh(r.engine) && fresh(r.engine.memtable) && fresh(r.engine.memtable.active)
      ensures r.Opened? ==> forall n <- r.engine.memtable.active.spine :: fresh(n)
    {
      var rs, next := OpenReaders(levels, files);
      var m, records := ReplayWal(log, crc, opts.memtableSize);
      if records.Err? {
        return Failed(records.error);
      }
      var engine := new Engine.Assemble(files, levels, records.value, covered, rs, next, m, opts);
      OpenedCoupled(Disk(files, levels, records.value), rs, next);
      NonemptyMap(m.active.entries);
      r := Opened(engine);
    }

    /** The engine is what opening the directory gives. */
    ghost predicate OpenedFrom(d: Disk, o: Options)
      reads this, memtable, memtable.active, memtable.active.spine, memtable.immutable,
            MemTable.Nodes(memtable.immutable)
    {
      && opts == o && saved == d.levels && file == d.wal && buffer == []
      && St() == Recovery.Open(d, memtable.active.size)
      && FitsList(Replay(d.wal), memtable.active.size)
      && Readable() && ((exists s :: LeftBy(d, s)) ==> Ready())
    }

    // -------------------------------------------------------------------
    // Manifest and reader list
    // -------------------------------------------------------------------

    method AddSst(meta: SSTMeta)
      modifies this`levels
      ensures |levels| == if meta.level < |old(levels)| then |old(levels)| else meta.level + 1
      ensures forall l | 0 <= l < |levels| ::
                levels[l] == MetasAt(old(levels), l) + if l == meta.level then [meta] else []
    {
      while |levels| <= meta.level
        invariant |old(levels)| <= |levels|
        invariant |levels| <= meta.level + 1 || |levels| == |old(levels)|
        invariant forall l | 0 <= l < |levels| :: levels[l] == MetasAt(old(levels), l)
        decreases meta.level + 1 - |levels|
      {
        levels := levels + [[]];
      }
      levels := levels[meta.level := levels[meta.level] + [meta]];
    }

    /** Remove an id from the first level that lists it. */
    method RemoveSst(id: nat) returns (found: bool)
      requires Listed(levels, readers) && UniqueIds(readers, nextId)
      modifies this`levels
      ensures |levels| == |old(levels)|
      ensures forall l | 0 <= l < |levels| :: levels[l] == WithoutMeta(old(levels)[l], id)
      ensures found <==> exists l, m :: 0 <= l < |old(levels)| && m in old(levels)[l] && m.id == id
    {
      ghost var before: seq<seq<SSTMeta>> := levels;
      var l := 0;
      while l < |levels|
        invariant l <= |levels| && levels == before
        invariant forall a | 0 <= a < l ::
                    WithoutMeta(before[a], id) == before[a] && forall m: SSTMeta | m in before[a] :: m.id != id
      {
        var rest := WithoutMeta(levels[l], id);
        WithoutMetaAbsent(levels[l], id);
        if |rest| < |levels[l]| {
          OnlyOneLevel(before, readers, nextId, l, id);
          levels := levels[l := rest];
          return true;
        }
        l := l + 1;
      }
      return false;
    }

    /** Register a new table. */
    method Install(r: Reader)
      requires Coupled() && r.meta.id == nextId - 1 && forall x <- readers :: x.meta.id < nextId - 1
      modifies this`levels, this`readers, this`files
      ensures Coupled()
      ensures readers == old(readers) + [r]
    {
      ghost var before := levels;
      files := files[r.meta.id := r.data];
      AddSst(r.meta);
      ListedAppend(before, readers, r, levels);
      UniqueIdsAppend(readers, r, nextId);
      readers := readers + [r];
    }

    /** Take a table out of manifest, reader list and directory. */
    method Uninstall(id: nat)
      requires Coupled()
      modifies this`levels, this`readers, this`files
      ensures Coupled()
      ensures readers == Without(old(readers), {id})
    {
      ghost var before := levels;
      var found := RemoveSst(id);
      Uninstalled(before, readers, files, nextId, id, levels, Without(readers, {id}));
      readers := Without(readers, {id});
      files := files - {id};
    }

    // -------------------------------------------------------------------
    // Compaction
    // -------------------------------------------------------------------

    /** `sst_readers.iter().find(|(m, _)| m.id == id)` */
    method FindReader(id: nat) returns (r: Option<Reader>)
      ensures r.Some? ==> r.value in readers && r.value.meta.id == id
      ensures r.None? ==> forall x <- readers :: x.meta.id != id
    {
      for i := 0 to |readers|
        invariant forall j | 0 <= j < i :: readers[j].meta.id != id
      {
        if readers[i].meta.id == id {
          return Some(readers[i]);
        }
      }
      return None;
    }

    /** Overlay the tables with the listed ids, in order. */
    method MergeTables(metas: seq<SSTMeta>, ghost rs: seq<Reader>) returns (all: map<Key, Value>)
      requires Coupled() && metas == Metas(rs) && forall r <- rs :: r in readers
      ensures all == Overlay(rs)
    {
      all := map[];
      for i := 0 to |metas|
        invariant all == Overlay(rs[..i])
      {
        assert rs[..i + 1][..i] == rs[..i];
        assert rs[i] in rs;
        var r := FindReader(metas[i].id);
        if r.Some? {
          IdReader(readers, nextId, r.value, rs[i]);
          ToMapSortedEntries(r.value.data);
          all := InsertAll(all, SortedEntries(r.value.data));
        }
      }
      assert rs[..|rs|] == rs;
    }

    /** Remove the tables with the listed ids, one by one. */
    method RemoveTables(metas: seq<SSTMeta>, ghost rs: seq<Reader>)
      requires Coupled() && metas == Metas(rs)
      modifies this`levels, this`readers, this`files
      ensures Coupled()
      ensures readers == Without(old(readers), Ids(rs))
    {
      WithoutNone(readers);
      assert Ids(rs[..0]) == {};
      for i := 0 to |metas|
        invariant Coupled()
        invariant readers == Without(old(readers), Ids(rs[..i]))
      {
        IdsStep(rs, i);
        WithoutMore(old(readers), Ids(rs[..i]), metas[i].id);
        Uninstall(metas[i].id);
      }
      assert rs[..|rs|] == rs;
    }

    /** Write the merged entries to a new table of the destination level. */
    method WriteOutput(kept: map<Key, Value>, dst: nat)
      requires Coupled()
      modifies this`levels, this`readers, this`files, this`nextId
      ensures Coupled()
      ensures readers == old(readers) + Written(kept, old(nextId), dst)
      ensures nextId == if kept == map[] then old(nextId) else old(nextId) + 1
    {
      if kept != map[] {
        var id := nextId;
        nextId := nextId + 1;
        var es := SortedEntries(kept);
        ToMapSortedEntries(kept);
        NonemptyMap(es);
        BuiltTable(es, id, dst);
        Install(Reader(SSTMeta(id, dst, es[0].0, es[|es| - 1].0), ToMap(es)));
      }
    }

    /** The listing of the tables that compacting `src` merges, the older level first. */
    method SelectInputs(src: nat) returns (metas: seq<SSTMeta>)
      requires Coupled() && AtLevel(readers, src) != []
      ensures metas == Metas(Inputs(readers, src))
    {
      var srcMetas := MetasAt(levels, src);
      MetasAtListed(levels, readers, src);
      ListedHull(AtLevel(readers, src));
      KeysNonempty(AtLevel(readers, src));
      var lo, hi := MinKey(MinsOf(srcMetas)), MaxKey(MaxesOf(srcMetas));
      var dstMetas := Overlapping(MetasAt(levels, src + 1), lo, hi);
      MetasAtListed(levels, readers, src + 1);
      OverlappingListed(readers, src + 1, lo, hi);
      MetasConcat(Chosen(readers, src), AtLevel(readers, src));
      metas := dstMetas + srcMetas;
    }

    /** Add the merged table, then remove the tables it replaces. */
    method Replace(metas: seq<SSTMeta>, ghost inputs: seq<Reader>, kept: map<Key, Value>, dst: nat)
      requires Coupled() && metas == Metas(inputs)
      modifies this`levels, this`readers, this`files, this`nextId, this`saved
      ensures Coupled() && saved == levels
      ensures readers == Without(old(readers) + Written(kept, old(nextId), dst), Ids(inputs))
      ensures nextId == if kept == map[] then old(nextId) else old(nextId) + 1
    {
      WriteOutput(kept, dst);
      RemoveTables(metas, inputs);
      saved := levels;
    }

    /** Merge a level into the next one. */
    method CompactLevel(src: nat, now: nat)
      requires Coupled() && AtLevel(readers, src) != []
      modifies this`levels, this`readers, this`files, this`nextId, this`saved
      ensures Coupled() && saved == levels
      ensures readers == Compact(old(readers), src, now, old(nextId))
      ensures nextId == StepId(old(readers), src, now, old(nextId))
    {
      ghost var rs, inputs := readers, Inputs(readers, src);
      var metas := SelectInputs(src);
      InputsPresent(rs, src);
      var all := MergeTables(metas, inputs);
      var kept := LivePart(all, now);
      Replace(metas, inputs, kept, src + 1);
      CompactResult(rs, src, now, old(nextId), kept, readers);
    }

    /** Compact every level that has reached its threshold, shallow to deep. */
    method MaybeCompact(now: nat)
      requires Coupled() && saved == levels && opts.l0Threshold >= 1
      modifies this`levels, this`readers, this`files, this`nextId, this`saved
      ensures Coupled() && saved == levels
      ensures (readers, nextId) == Cascaded(old(readers), old(nextId), 0, now, opts)
    {
      var last := LastLevel(opts);
      for level := 0 to last
        invariant Coupled() && saved == levels
        invariant Cascaded(readers, nextId, level, now, opts) == Cascaded(old(readers), old(nextId), 0, now, opts)
      {
        var threshold := Threshold(opts, level);
        MetasAtListed(levels, readers, level);
        if |MetasAt(levels, level)| < threshold {
          continue;
        }
        FullNonempty(readers, opts, level);
        CompactLevel(level, now);
      }
    }

    // -------------------------------------------------------------------
    // Flush
    // -------------------------------------------------------------------

    /** Append a record to the log; the writer spills its buffer when the record does not fit in. */
    method AppendLog(rec: Record)
      requires Logged()
      modifies this`file, this`buffer, this`wal
      ensures Logged() && wal == old(wal) + [rec]
      ensures (file, buffer) ==
              if opts.syncWal then (old(file + buffer) + [rec], []) else SpilledRecords(old(file), old(buffer), rec)
    {
      SpilledInOrder(file, buffer, rec);
      wal := wal + [rec];
      if FrameSize(rec) > CAPACITY - FrameSizes(buffer) {
        file, buffer := file + buffer, [];
      }
      if FrameSize(rec) >= CAPACITY {
        file := file + [rec];
      } else {
        buffer := buffer + [rec];
      }
      assert file + buffer == old(file + buffer) + [rec] == residue + wal;
      if opts.syncWal {
        FlushLog();
        assert file + [] == file;
      }
    }

    method FlushLog()
      modifies this`file, this`buffer
      ensures file == old(file + buffer) && buffer == []
    {
      file, buffer := file + buffer, [];
    }

    /** Truncate the log file and open it anew; the old writer is dropped last, and appends what it still buffers. */
    method ResetWal()
      requires Logged()
      modifies this`file, this`buffer, this`wal, this`residue, this`covered
      ensures Logged() && wal == [] && residue == Histories.Residue(old(wal), |old(buffer)|) && covered == |residue|
      ensures file == old(buffer) && buffer == []
    {
      LogEnd(file, buffer, residue, wal);
      residue, wal, covered := buffer, [], |buffer|;
      var dropped := buffer;
      file, buffer := [], [];
      file := file + dropped;
    }

    /** Flush the frozen list, if there is one: table file, manifest, log, then compaction. */
    method MaybeFlush(now: nat)
      requires Valid() && saved == levels
      modifies this, memtable
      ensures Ready() && memtable == old(memtable) && memtable.active == old(memtable.active)
      ensures CanDrain(old(memtable.Frozen())) && St() == Drained(old(St()), old(memtable.Frozen()), now, opts)
      ensures if old(memtable.Frozen()).None? then Database() == old(Database()) && buffer == old(buffer)
              else residue == Histories.Residue(old(wal), |old(buffer)|) && covered == |residue| && buffer == []
    {
      if memtable.immutable != null {
        var list := memtable.TakeImmutable();
        FlushList(list, now);
      }
    }

    /** Flush a list that is no longer part of the memtable. */
    method FlushList(list: SkipLists.SkipList, now: nat)
      requires Coupled() && Logged() && opts.l0Threshold >= 1 && list.Valid() && list.entries != []
      modifies this`levels, this`readers, this`files, this`nextId, this`saved
      modifies this`file, this`buffer, this`wal, this`residue, this`covered
      ensures Coupled() && saved == levels && list.Map() != map[]
      ensures Logged() && wal == [] && residue == Histories.Residue(old(wal), |old(buffer)|) && covered == |residue|
      ensures buffer == []
      ensures (readers, nextId) ==
              Cascaded(old(readers) + [NewTable(list.Map(), old(nextId), 0)], old(nextId) + 1, 0, now, opts)
    {
      WriteList(list);
      MaybeCompact(now);
    }

    /** The table of a list. */
    method WriteList(list: SkipLists.SkipList)
      requires Coupled() && Logged() && list.Valid() && list.entries != []
      modifies this`levels, this`readers, this`files, this`nextId, this`saved
      modifies this`file, this`buffer, this`wal, this`residue, this`covered
      ensures Coupled() && saved == levels && list.Map() != map[]
      ensures Logged() && wal == [] && residue == Histories.Residue(old(wal), |old(buffer)|) && covered == |residue|
      ensures buffer == []
      ensures readers == old(readers) + [NewTable(list.Map(), old(nextId), 0)] && nextId == old(nextId) + 1
    {
      var es := list.CollectAll();
      NonemptyMap(es);
      WriteFlushed(es);
    }

    /** The durable part of a flush: table file, manifest, log. */
    method WriteFlushed(es: seq<Entry>)
      requires Coupled() && Logged() && Sorted(es) && es != [] && ToMap(es) != map[]
      modifies this`levels, this`readers, this`files, this`nextId, this`saved
      modifies this`file, this`buffer, this`wal, this`residue, this`covered
      ensures Coupled() && saved == levels
      ensures Logged() && wal == [] && residue == Histories.Residue(old(wal), |old(buffer)|) && covered == |residue|
      ensures buffer == []
      ensures readers == old(readers) + [NewTable(ToMap(es), old(nextId), 0)] && nextId == old(nextId) + 1
    {
      var id := nextId;
      nextId := nextId + 1;
      BuiltTable(es, id, 0);
      Install(Reader(SSTMeta(id, 0, es[0].0, es[|es| - 1].0), ToMap(es)));
      saved := levels;
      ResetWal();
    }

    // -------------------------------------------------------------------
    // Writes
    // -------------------------------------------------------------------

    /** Log a record and put it into the memtable. */
    method LogAndPut(rec: Record) returns (tower: nat)
      requires Valid() && memtable.immutable == null
      modifies this`file, this`buffer, this`wal, memtable, memtable.active, memtable.active.spine
      ensures Valid() && (memtable.active == old(memtable.active) || fresh(memtable.active))
      ensures forall n <- memtable.active.spine :: n in old(memtable.active.spine) || fresh(n)
      ensures wal == old(wal) + [rec] && (opts.syncWal ==> buffer == [])
      ensures Kept(old(memtable.Active()), old(memtable.active.size), rec, tower, opts,
                   memtable.Frozen(), memtable.Active(), memtable.active.size)
    {
      AppendLog(rec);
      tower := memtable.Put(rec.key, rec.value);
    }

    /** Log a numbered write and store it. */
    method Store(rec: Record, ghost op: Op, ghost now: nat) returns (tower: nat)
      requires Ready() && nextSeq >= 1 && rec == RecordOf(op, now, nextSeq - 1)
      modifies this`file, this`buffer, this`wal, memtable, memtable.active, memtable.active.spine
      ensures Valid() && (memtable.active == old(memtable.active) || fresh(memtable.active))
      ensures forall n <- memtable.active.spine :: n in old(memtable.active.spine) || fresh(n)
      ensures wal == old(wal) + [rec] && (opts.syncWal ==> buffer == [])
      ensures Stored(old(St()).(nextSeq := old(nextSeq) - 1), Event(op, now, tower), opts, memtable.Frozen(), St())
    {
      ghost var s := St().(nextSeq := nextSeq - 1);
      tower := LogAndPut(rec);
      StoredResult(s, Event(op, now, tower), opts, rec, memtable.Frozen(), memtable.Active(), memtable.active.size,
                   St());
    }

    /** Log a numbered write, store it, and flush if that froze the list; the flush finds `held` records buffered. */
    method Commit(rec: Record, ghost op: Op, now: nat) returns (tower: nat, ghost held: nat)
      requires Ready() && nextSeq >= 1 && rec == RecordOf(op, now, nextSeq - 1)
      modifies this, memtable, memtable.active, memtable.active.spine
      ensures Ready() && memtable == old(memtable)
      ensures memtable.active == old(memtable.active) || fresh(memtable.active)
      ensures forall n <- memtable.active.spine :: n in old(memtable.active.spine) || fresh(n)
      ensures Database() == Histories.DoDb(old(Database()).(s := old(St()).(nextSeq := old(nextSeq) - 1)),
                                           Event(op, now, tower), held, opts)
      ensures opts.syncWal ==> held == 0
    {
      ghost var db := Database().(s := St().(nextSeq := nextSeq - 1));
      tower := Store(rec, op, now);
      held := |buffer|;
      ghost var frozen := memtable.Frozen();
      WriteResult(db.s, Event(op, now, tower), opts, frozen, St());
      MaybeFlush(now);
      WriteDatabase(db, Event(op, now, tower), opts, frozen, held, Database());
    }

    method Put(key: Key, value: Value, now: nat) returns (tower: nat, ghost held: nat)
      requires Ready()
      modifies this, memtable, memtable.active, memtable.active.spine
      ensures Ready() && memtable == old(memtable)
      ensures memtable.active == old(memtable.active) || fresh(memtable.active)
      ensures forall n <- memtable.active.spine :: n in old(memtable.active.spine) || fresh(n)
      ensures St() == Write(old(St()), Event(Op.Put(key, value), now, tower), opts)
      ensures Database() == Histories.DoDb(old(Database()), Event(Op.Put(key, value), now, tower), held, opts)
      ensures opts.syncWal ==> held == 0
    {
      var seqNo := nextSeq;
      nextSeq := nextSeq + 1;
      var encoded := EncodeWithSeq(value, seqNo);
      tower, held := Commit(Record(OpPut, key, encoded), Op.Put(key, value), now);
    }

    method Delete(key: Key, now: nat) returns (tower: nat, ghost held: nat)
      requires Ready()
      modifies this, memtable, memtable.active, memtable.active.spine
      ensures Ready() && memtable == old(memtable)
      ensures memtable.active == old(memtable.active) || fresh(memtable.active)
      ensures forall n <- memtable.active.spine :: n in old(memtable.active.spine) || fresh(n)
      ensures St() == Write(old(St()), Event(Op.Delete(key), now, tower), opts)
      ensures Database() == Histories.DoDb(old(Database()), Event(Op.Delete(key), now, tower), held, opts)
      ensures opts.syncWal ==> held == 0
    {
      var seqNo := nextSeq;
      nextSeq := nextSeq + 1;
      var encoded := EncodeWithSeq(TOMBSTONE, seqNo);
      tower, held := Commit(Record(OpDelete, key, encoded), Op.Delete(key), now);
    }

    method PutWithTtl(key: Key, value: Value, ttl: nat, now: nat) returns (tower: nat, ghost held: nat)
      requires Ready()
      modifies this, memtable, memtable.active, memtable.active.spine
      ensures Ready() && memtable == old(memtable)
      ensures memtable.active == old(memtable.active) || fresh(memtable.active)
      ensures forall n <- memtable.active.spine :: n in old(memtable.active.spine) || fresh(n)
      ensures St() == Write(old(St()), Event(Op.PutTtl(key, value, ttl), now, tower), opts)
      ensures Database() == Histories.DoDb(old(Database()), Event(Op.PutTtl(key, value, ttl), now, tower), held, opts)
      ensures opts.syncWal ==> held == 0
    {
      var expiry := now + ttl;
      var inner := [TTL_MARKER] + LE(expiry, 8) + value;
      var seqNo := nextSeq;
      nextSeq := nextSeq + 1;
      var encoded := EncodeWithSeq(inner, seqNo);
      tower, held := Commit(Record(OpPut, key, encoded), Op.PutTtl(key, value, ttl), now);
    }

    /** Freeze what is in memory, and flush it. */
    method Drain(now: nat)
      requires Ready()
      modifies this, memtable
      ensures Ready() && buffer == (if old(memtable.Active()) == map[] then old(buffer) else [])
      ensures Database() == Histories.ClosedDb(old(Database()), now, |old(buffer)|, opts)
    {
      ghost var db, held := Database(), |buffer|;
      var done := memtable.Freeze();
      ghost var frozen := memtable.Frozen();
      CloseResult(db.s, St(), done, frozen, now, opts);
      MaybeFlush(now);
      CloseDatabase(db, done, frozen, now, held, opts, Database());
    }

    /** Flush what is in memory, and the log, before the engine goes away. */
    method Close(now: nat)
      requires Ready()
      modifies this, memtable
      ensures Ready() && Database() == Histories.ClosedDb(old(Database()), now, |old(buffer)|, opts)
      ensures file == Histories.File(Database()) && buffer == [] && memtable.Active() == map[]
    {
      MaybeFlush(now);
      Drain(now);
      Seal();
    }

    /** Flush the log and save the manifest. */
    method Seal()
      requires Ready()
      modifies this`file, this`buffer, this`saved
      ensures Ready() && Database() == old(Database()) && file == Histories.File(Database()) && buffer == []
    {
      FlushLog();
      assert file + [] == file;
      saved := levels;
    }

    // -------------------------------------------------------------------
    // Reads
    // -------------------------------------------------------------------

    /** The number of the next write stands for everything written so far. */
    method Snapshot() returns (snap: nat)
      ensures snap == nextSeq
    {
      snap := nextSeq;
    }

    method Get(key: Key, now: nat) returns (r: Option<Value>)
      requires Readable()
      ensures r == Show(Machine.Get(St(), key), now)
    {
      var v := memtable.Get(key);
      if v.Some? {
        return UnpackValue(v.value, now);
      }
      assert readers[..|readers|] == readers;
      for i := |readers| downto 0
        invariant Lookup(readers, key) == Lookup(readers[..i], key)
      {
        assert readers[..i + 1][..i] == readers[..i];
        if key in readers[i].data {
          return UnpackValue(readers[i].data[key], now);
        }
      }
      return None;
    }

    method GetAt(key: Key, snap: nat, now: nat) returns (r: Option<Value>)
      requires Readable()
      ensures r == Show(Snapshots.GetAt(St(), key, snap), now)
    {
      var v := memtable.Get(key);
      if v.Some? {
        var (inner, seqNo) := DecodeWithSeq(v.value);
        if seqNo < snap {
          return UnpackInner(inner, now);
        }
      }
      assert readers[..|readers|] == readers;
      for i := |readers| downto 0
        invariant Snapshots.LookupAt(readers, key, snap, Snapshots.SeqOf) ==
                  Snapshots.LookupAt(readers[..i], key, snap, Snapshots.SeqOf)
      {
        assert readers[..i + 1][..i] == readers[..i];
        if key in readers[i].data {
          var (inner, seqNo) := DecodeWithSeq(readers[i].data[key]);
          if seqNo < snap {
            return UnpackInner(inner, now);
          }
        }
      }
      return None;
    }

    /** Insert the entries of one table that lie in the range. */
    method InsertWithin(into: map<Key, Value>, data: map<Key, Value>, start: Key, end: Key) returns (m: map<Key, Value>)
      ensures m == into + RangePart(data, start, end)
    {
      m := into;
      var es := SortedEntries(data);
      for i := 0 to |es|
        invariant m == into + RangePart(ToMap(es[..i]), start, end)
      {
        StepWithin(into, es, i, start, end);
        if Le(start, es[i].0) && Lt(es[i].0, end) {
          m := m[es[i].0 := es[i].1];
        }
      }
      assert es[..|es|] == es;
      ToMapSortedEntries(data);
    }

    /** All versions in the range, tables oldest first, then the memtable. */
    method ScanMap(start: Key, end: Key) returns (m: map<Key, Value>)
      requires Readable()
      ensures m == Scans.ScanMap(St(), start, end)
    {
      m := map[];
      for i := 0 to |readers|
        invariant m == Scans.OverlayRange(readers[..i], start, end)
      {
        assert readers[..i + 1][..i] == readers[..i];
        m := InsertWithin(m, readers[i].data, start, end);
      }
      assert readers[..|readers|] == readers;
      var es := memtable.Scan(start, end);
      ToMapSortedEntries(InRange(None, memtable.Active(), start, end));
      NothingFrozen(memtable.Active(), start, end);
      m := InsertAll(m, es);
    }

    method Scan(start: Key, end: Key, now: nat) returns (r: seq<Entry>)
      requires Readable()
      ensures r == Scans.Scan(St(), start, end, now)
    {
      var m := ScanMap(start, end);
      r := Scans.Display(SortedEntries(LivePart(m, now)), now);
    }

    /** The upper bound of a prefix scan. */
    static method NextKey(prefix: Key) returns (next: Key)
      ensures next == Scans.NextKey(prefix)
    {
      next := prefix;
      for i := |next| downto 0
        invariant next == prefix && Scans.LastLow(prefix) == Scans.LastLow(prefix[..i])
      {
        assert prefix[..i + 1][..i] == prefix[..i];
        if next[i] < 255 {
          next := next[i := next[i] + 1];
          return;
        }
      }
      next := next + [0];
    }

    method PrefixScan(prefix: Key, now: nat) returns (r: seq<Entry>)
      requires Readable()
      ensures r == Scans.PrefixScan(St(), prefix, now)
    {
      var end := NextKey(prefix);
      r := Scan(prefix, end, now);
    }
  }

  lemma OpenLevelLast(level: seq<SSTMeta>, i: nat, files: map<nat, map<Key, Value>>)
    requires i < |level|
    ensures OpenLevel(level[..i + 1], files) ==
            if level[i].id in files then OpenLevel(level[..i], files) + [Reader(level[i], files[level[i].id])]
            else OpenLevel(level[..i], files)
  {
    assert level[..i + 1][..i] == level[..i];
  }

  lemma NextIdLast(rs: seq<Reader>, r: Reader)
    ensures NextIdOf(rs + [r]) == if r.meta.id >= NextIdOf(rs) then r.meta.id + 1 else NextIdOf(rs)
  {
    assert (rs + [r])[..|rs|] == rs;
  }

  /** The directory is one that an engine in state `s` left behind. */
  ghost predicate LeftBy(d: Disk, s: State) {
    Stores(d, s) && UniqueIds(s.readers, s.nextId)
  }

  lemma OpenedCoupled(d: Disk, rs: seq<Reader>, next: nat)
    requires rs == OpenLevels(d.levels, d.files) && next == NextIdOf(rs)
    ensures (exists s :: LeftBy(d, s)) ==> Listed(d.levels, rs) && Filed(d.files, rs) && UniqueIds(rs, next)
  {
    if s :| LeftBy(d, s) {
      OpenStored(d, s, LIST_SIZE);
      OpenCoupled(d, s, rs);
    }
  }

  predicate CanDrain(frozen: Option<map<Key, Value>>) {
    frozen.Some? ==> frozen.value != map[]
  }

  /** The state after the frozen list, if any, has been flushed. */
  function Drained(s: State, frozen: Option<map<Key, Value>>, now: nat, o: Options): State
    requires CanDrain(frozen) && o.l0Threshold >= 1
  {
    match frozen
    case None => s
    case Some(f) =>
      var (rs, id) := Cascaded(s.readers + [NewTable(f, s.nextId, 0)], s.nextId + 1, 0, now, o);
      s.(wal := [], readers := rs, nextId := id)
  }

  /** A write has been stored: its list is frozen if it became too large. */
  ghost predicate Stored(s: State, e: Event, o: Options, frozen: Option<map<Key, Value>>, s1: State) {
    var a := Applied(s, e);
    if a.size > o.memtableSize then frozen == Some(a.active) && s1 == a.(active := map[], size := LIST_SIZE)
    else frozen == None && s1 == a
  }

  /** What the memtable holds, and has frozen, after a record was put into it. */
  ghost predicate Kept(before: map<Key, Value>, size: nat, rec: Record, tower: nat, o: Options,
                       frozen: Option<map<Key, Value>>, after: map<Key, Value>, sizeAfter: nat) {
    var a := before[rec.key := rec.value];
    var n := size + if rec.key in before then 0 else NodeCost(rec.key, rec.value, tower);
    if n > o.memtableSize then frozen == Some(a) && after == map[] && sizeAfter == LIST_SIZE
    else frozen == None && after == a && sizeAfter == n
  }

  lemma StoredResult(s: State, e: Event, o: Options, rec: Record, frozen: Option<map<Key, Value>>,
                     active: map<Key, Value>, size: nat, s1: State)
    requires rec == RecordOf(e.op, e.now, s.nextSeq)
    requires Kept(s.active, s.size, rec, e.tower, o, frozen, active, size)
    requires s1 == State(active, size, s.wal + [rec], s.readers, s.nextSeq + 1, s.nextId)
    ensures Stored(s, e, o, frozen, s1)
  {
  }

  /** A write into the memtable, and then draining what it froze, is a write. */
  lemma WriteResult(s: State, e: Event, o: Options, frozen: Option<map<Key, Value>>, s1: State)
    requires o.l0Threshold >= 1 && Stored(s, e, o, frozen, s1)
    ensures CanDrain(frozen) && Drained(s1, frozen, e.now, o) == Write(s, e, o)
  {
    assert e.op.key in Applied(s, e).active;
  }

  /** Freezing a list and draining it is a flush. */
  lemma CloseResult(s: State, s1: State, done: bool, frozen: Option<map<Key, Value>>, now: nat, o: Options)
    requires o.l0Threshold >= 1 && (done <==> s.active != map[])
    requires if done then frozen == Some(s.active) && s1 == s.(active := map[], size := LIST_SIZE)
             else frozen == None && s1 == s
    ensures CanDrain(frozen) && Drained(s1, frozen, now, o) == Sessions.Closed(s, now, o)
  {
  }

  /** Storing and flushing add up to one step of the database. */
  lemma WriteDatabase(db: Histories.Db, e: Event, o: Options, frozen: Option<map<Key, Value>>, held: nat,
                      next: Histories.Db)
    requires o.l0Threshold >= 1 && next.s == Write(db.s, e, o)
    requires frozen.Some? <==> Overflows(db.s, e, o)
    requires if frozen.None? then next.residue == db.residue && next.covered == db.covered
             else next.residue == Histories.Residue(Applied(db.s, e).wal, held) && next.covered == |next.residue|
    ensures next == Histories.DoDb(db, e, held, o)
  {
  }

  lemma CloseDatabase(db: Histories.Db, done: bool, frozen: Option<map<Key, Value>>, now: nat, held: nat, o: Options,
                      next: Histories.Db)
    requires o.l0Threshold >= 1 && next.s == Sessions.Closed(db.s, now, o)
    requires (done <==> db.s.active != map[]) && (frozen.Some? <==> done)
    requires if frozen.None? then next.residue == db.residue && next.covered == db.covered
             else next.residue == Histories.Residue(db.s.wal, held) && next.covered == |next.residue|
    ensures next == Histories.ClosedDb(db, now, held, o)
  {
  }

  /** What is buffered is the end of the engine's own records. */
  lemma LogEnd(file: seq<Record>, buffer: seq<Record>, residue: seq<Record>, wal: seq<Record>)
    requires file + buffer == residue + wal && |buffer| <= |wal|
    ensures buffer == Histories.Residue(wal, |buffer|)
  {
    assert buffer == (file + buffer)[|file|..];
  }

  lemma StepWithin(into: map<Key, Value>, es: seq<Entry>, i: nat, lo: Key, hi: Key)
    requires i < |es|
    ensures var m := into + RangePart(ToMap(es[..i]), lo, hi);
            into + RangePart(ToMap(es[..i + 1]), lo, hi) == if Within(es[i].0, lo, hi) then m[es[i].0 := es[i].1] else m
  {
    var a, b := ToMap(es[..i]), ToMap(es[..i + 1]);
    assert es[..i + 1][..i] == es[..i];
    assert b == a[es[i].0 := es[i].1];
    assert RangePart(b, lo, hi) ==
           if Within(es[i].0, lo, hi) then RangePart(a, lo, hi)[es[i].0 := es[i].1] else RangePart(a, lo, hi);
  }

  lemma NothingFrozen(active: map<Key, Value>, lo: Key, hi: Key)
    ensures InRange(None, active, lo, hi) == RangePart(active, lo, hi)
  {
  }

  lemma IdsStep(rs: seq<Reader>, i: nat)
    requires i < |rs|
    ensures Ids(rs[..i + 1]) == Ids(rs[..i]) + {rs[i].meta.id}
  {
    assert rs[..i + 1] == rs[..i] + [rs[i]];
  }

  lemma {:induction false} MetasConcat(a: seq<Reader>, b: seq<Reader>)
    ensures Metas(a + b) == Metas(a) + Metas(b)
  {
  }

  lemma InputsPresent(rs: seq<Reader>, src: nat)
    requires AtLevel(rs, src) != []
    ensures forall r <- Inputs(rs, src) :: r in rs
  {
    forall r <- Inputs(rs, src) ensures r in rs { InputMembers(rs, src, r); }
  }

  function MinsOf(ms: seq<SSTMeta>): set<Key> {
    set m <- ms :: m.minKey
  }

  function MaxesOf(ms: seq<SSTMeta>): set<Key> {
    set m <- ms :: m.maxKey
  }

  /** The hull computed from the listing is the hull of the tables. */
  lemma {:induction false} ListedHull(rs: seq<Reader>)
    ensures MinsOf(Metas(rs)) == MinKeys(rs) && MaxesOf(Metas(rs)) == MaxKeys(rs)
  {
    if rs != [] {
      var init, r := rs[..|rs| - 1], rs[|rs| - 1];
      assert rs == init + [r];
      ListedHull(init);
      MetasLast(init, r);
      assert MinsOf(Metas(init) + [r.meta]) == MinsOf(Metas(init)) + {r.meta.minKey};
      assert MaxesOf(Metas(init) + [r.meta]) == MaxesOf(Metas(init)) + {r.meta.maxKey};
      assert MinKeys(init + [r]) == MinKeys(init) + {r.meta.minKey};
      assert MaxKeys(init + [r]) == MaxKeys(init) + {r.meta.maxKey};
    }
  }

  lemma OnlyOneLevel(levels: seq<seq<SSTMeta>>, rs: seq<Reader>, bound: nat, l: nat, id: nat)
    requires Listed(levels, rs) && UniqueIds(rs, bound) && l < |levels|
    requires |WithoutMeta(levels[l], id)| < |levels[l]|
    ensures exists m :: m in levels[l] && m.id == id
    ensures forall a | 0 <= a < |levels| && a != l :: WithoutMeta(levels[a], id) == levels[a]
  {
    WithoutMetaAbsent(levels[l], id);
    var m :| m in levels[l] && m.id == id;
    forall a | 0 <= a < |levels| && a != l ensures WithoutMeta(levels[a], id) == levels[a] {
      forall n <- levels[a] ensures n.id != id {
        if n.id == id { ListedOnce(levels, rs, bound, a, l, n, m); }
      }
      WithoutMetaAbsent(levels[a], id);
    }
  }
}
