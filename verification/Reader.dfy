/** SSTable readers (src/sstable/reader.rs): lookups and iteration behind an optional shared block cache. */
module TableReaders {
  import opened Bytes
  import opened OrderedMaps
  import opened Blocks
  import opened Bloom
  import opened Builders
  import opened Caches
  import opened TableFormat
  import Tables

  // ---------------------------------------------------------------------
  // Opening
  // ---------------------------------------------------------------------

  lemma PrependStep(a: Index, e: (nat, Key), r: Option<Index>)
    requires r.Some?
    ensures a + Prepend(e, r).value == a + [e] + r.value
  {
  }

  /** What is left to parse agrees with the whole. */
  ghost predicate SameParse(whole: Option<Index>, done: Index, rest: Option<Index>) {
    whole == if rest.Some? then Some(done + rest.value) else None
  }

  lemma SameParseStart(r: Option<Index>)
    ensures SameParse(r, [], r)
  {
    if r.Some? {
      assert [] + r.value == r.value;
    }
  }

  lemma ParseStep(buf: seq<byte>, pos: nat, n: nat, whole: Option<Index>, done: Index)
    requires pos <= |buf| && n > 0 && SameParse(whole, done, ParseEntries(buf[pos..], n))
    ensures |buf| < pos + 8 ==> whole == None
    ensures |buf| >= pos + 8 ==>
              var len := FromLE(buf[pos + 4..pos + 8]);
              && (|buf| < pos + 8 + len ==> whole == None)
              && (|buf| >= pos + 8 + len ==>
                    SameParse(whole, done + [(FromLE(buf[pos..pos + 4]), buf[pos + 8..pos + 8 + len])],
                              ParseEntries(buf[pos + 8 + len..], n - 1)))
  {
    var rest := buf[pos..];
    if |rest| >= 8 {
      assert rest[..4] == buf[pos..pos + 4] && rest[4..8] == buf[pos + 4..pos + 8];
      var len := FromLE(rest[4..8]);
      if |rest| >= 8 + len {
        assert rest[8..8 + len] == buf[pos + 8..pos + 8 + len] && rest[8 + len..] == buf[pos + 8 + len..];
        var tail := ParseEntries(rest[8 + len..], n - 1);
        if tail.Some? {
          PrependStep(done, (FromLE(rest[..4]), rest[8..8 + len]), tail);
        }
      }
    }
  }

  method ParseIndexAt(data: seq<byte>, offset: nat) returns (r: Option<Index>)
    ensures r == ParseIndex(data, offset)
  {
    if |data| < offset + 4 {
      return None;
    }
    var num := FromLE(data[offset..offset + 4]);
    var entries: Index := [];
    var pos: nat := offset + 4;
    SameParseStart(ParseIndex(data, offset));
    for i := 0 to num
      invariant pos <= |data|
      invariant SameParse(ParseIndex(data, offset), entries, ParseEntries(data[pos..], num - i))
    {
      ParseStep(data, pos, num - i, ParseIndex(data, offset), entries);
      if |data| < pos + 8 {
        return None;
      }
      var blockOffset, keyLen := FromLE(data[pos..pos + 4]), FromLE(data[pos + 4..pos + 8]);
      pos := pos + 8;
      if |data| < pos + keyLen {
        return None;
      }
      entries := entries + [(blockOffset, data[pos..pos + keyLen])];
      pos := pos + keyLen;
    }
    assert entries + [] == entries;
    r := Some(entries);
  }

  datatype OpenResult = Open(reader: SSTableReader) | Corrupted | Panicked

  /** Open a file: footer, index, filter. */
  method OpenWithCache(data: seq<byte>, sstId: nat, cache: BlockCache?) returns (r: OpenResult)
    ensures match r
            case Open(reader) =>
              ParseTable(data) == Parsed(reader.table) && reader.sstId == sstId && reader.cache == cache
            case Corrupted => ParseTable(data) == BadFile
            case Panicked => ParseTable(data) == CrashFile
  {
    if |data| < 8 {
      return Corrupted;
    }
    var len := |data|;
    var indexOffset, bloomOffset := FromLE(data[len - 8..len - 4]), FromLE(data[len - 4..]);
    var index := ParseIndexAt(data, indexOffset);
    if index.None? {
      return Corrupted;
    }
    if bloomOffset > len - 8 {
      return Panicked;
    }
    var bloom := Bloom.Decode(data[bloomOffset..len - 8]);
    if bloom.None? {
      return Corrupted;
    }
    var reader := new SSTableReader(Table(data, index.value, indexOffset, bloom.value), sstId, cache);
    r := Open(reader);
  }

  // ---------------------------------------------------------------------
  // Binary search
  // ---------------------------------------------------------------------

  ghost predicate Ascending<T(!new)>(s: seq<T>, keyOf: T -> Key) {
    forall i, j | 0 <= i < j < |s| :: Lt(keyOf(s[i]), keyOf(s[j]))
  }

  /** `i` splits the list into smaller keys, and keys not smaller, strictly greater if not `found`. */
  ghost predicate Splits<T(!new)>(s: seq<T>, keyOf: T -> Key, key: Key, found: bool, i: nat) {
    && i <= |s|
    && (forall j | 0 <= j < i :: Lt(keyOf(s[j]), key))
    && (forall j | i <= j < |s| :: if found && j == i then keyOf(s[j]) == key else Lt(key, keyOf(s[j])))
  }

  /** `binary_search_by` on the keys of a list; on an unsorted list a hit is still a hit. */
  method Search<T(!new)>(s: seq<T>, keyOf: T -> Key, key: Key) returns (found: bool, i: nat)
    ensures i <= |s| && (found ==> i < |s| && keyOf(s[i]) == key)
    ensures Ascending(s, keyOf) ==> Splits(s, keyOf, key, found, i)
  {
    LtOrder();
    var lo, hi := 0, |s|;
    while lo < hi
      invariant 0 <= lo <= hi <= |s|
      invariant Ascending(s, keyOf) ==> forall j | 0 <= j < lo :: Lt(keyOf(s[j]), key)
      invariant Ascending(s, keyOf) ==> forall j | hi <= j < |s| :: Lt(key, keyOf(s[j]))
    {
      var mid := (lo + hi) / 2;
      if keyOf(s[mid]) == key {
        return true, mid;
      } else if Lt(keyOf(s[mid]), key) {
        lo := mid + 1;
      } else {
        hi := mid;
      }
    }
    return false, lo;
  }

  function IndexKey(e: (nat, Key)): Key {
    e.1
  }

  function EntryKey(e: Entry): Key {
    e.0
  }

  // ---------------------------------------------------------------------
  // Cache coherence
  // ---------------------------------------------------------------------

  /** Every cached block of table `id` is the block that loading from the file gives. */
  ghost predicate Coherent(m: Slots, id: nat, t: Table) {
    forall i: nat | CacheKey(id, i) in m :: i < |t.index| && LoadOf(t, i) == Good(m[CacheKey(id, i)].block)
  }

  /** Slots only come from before or from loading blocks of table `id`. */
  ghost predicate OnlyLoads(m: Slots, n: Slots, id: nat, t: Table) {
    forall k <- n :: (k in m && n[k] == m[k])
                     || (k.sstId == id && k.blockIdx < |t.index| && LoadOf(t, k.blockIdx) == Good(n[k].block))
  }

  /** Loading blocks of one table keeps the cache coherent for all. */
  lemma LoadingKeepsCoherence(m: Slots, n: Slots, id: nat, t: Table, other: nat, u: Table)
    requires OnlyLoads(m, n, id, t) && Coherent(m, other, u) && (other == id ==> u == t)
    ensures Coherent(n, other, u)
  {
    forall i: nat | CacheKey(other, i) in n
      ensures i < |u.index| && LoadOf(u, i) == Good(n[CacheKey(other, i)].block)
    {
      var k := CacheKey(other, i);
      assert (k in m && n[k] == m[k]) ||
             (k.sstId == id && k.blockIdx < |t.index| && LoadOf(t, k.blockIdx) == Good(n[k].block));
    }
  }

  lemma StoreOnlyLoads(c: Lru, capacity: nat, id: nat, t: Table, i: nat, block: BlockData)
    requires i < |t.index| && LoadOf(t, i) == Good(block)
    ensures OnlyLoads(c.slots, Stored(c, CacheKey(id, i), block, capacity).slots, id, t)
  {
  }

  // ---------------------------------------------------------------------
  // The reader
  // ---------------------------------------------------------------------

  datatype Answer = Answer(value: Option<Value>) | ReadError | ReadPanic

  /** What a correct lookup may answer, whatever the table holds. */
  ghost predicate Honest(t: Table, key: Key, r: Answer) {
    match r
    case Answer(None) => true
    case Answer(Some(v)) =>
      TestOf(t.bloom, key) == Maybe
      && exists i :: 0 <= i < |t.index| && LoadOf(t, i).Good? && (key, v) in LoadOf(t, i).block.entries
    case ReadError => exists i :: 0 <= i < |t.index| && LoadOf(t, i) == Bad
    case ReadPanic => HasCrash(t) || TestOf(t.bloom, key) == OutOfRange
  }

  /** Decoding some block panics. */
  ghost predicate HasCrash(t: Table) {
    exists i :: 0 <= i < |t.index| && LoadOf(t, i) == Crash
  }

  /** The lookup of a faithful copy, from the results of the two searches. */
  lemma LookupIs(t: Table, es: seq<Entry>, key: Key, foundIdx: bool, i: nat)
    requires Intact(t, es) && Splits(t.index, IndexKey, key, foundIdx, i)
    ensures i == |t.index| ==> Tables.At(ToMap(es), key) == None
    ensures i < |t.index| ==> LoadOf(t, i).Good? && Sorted(LoadOf(t, i).block.entries)
    ensures i < |t.index| ==> forall v :: (key, v) in es <==> (key, v) in LoadOf(t, i).block.entries
  {
    var bs :| Flat(bs) == es && Holds(t, bs);
    forall j | 0 <= j < i ensures Lt(LastKey(bs[j]), key) {
      assert IndexKey(t.index[j]) == LastKey(bs[j]);
    }
    if i < |bs| {
      BlockSorted(bs, i);
      assert IndexKey(t.index[i]) == LastKey(bs[i]);
    }
    forall v ensures (key, v) in es <==> i < |bs| && (key, v) in bs[i] { OnlyBlock(bs, i, key, v); }
    AtList(es, key);
  }

  /** The value of a key in a sorted list. */
  lemma AtList(es: seq<Entry>, key: Key)
    requires Sorted(es)
    ensures Tables.At(ToMap(es), key).None? ==> forall v :: (key, v) !in es
    ensures Tables.At(ToMap(es), key).Some? ==> (key, Tables.At(ToMap(es), key).value) in es
    ensures forall v | (key, v) in es :: Tables.At(ToMap(es), key) == Some(v)
  {
    ToMapLists(es);
    if key in ToMap(es) {
      var e :| e in es && e.0 == key;
      assert e == (key, ToMap(es)[key]);
    }
    forall v | (key, v) in es ensures Tables.At(ToMap(es), key) == Some(v) {
      assert (key, v).0 in ToMap(es);
    }
  }

  lemma IndexAscends(t: Table, es: seq<Entry>)
    requires Intact(t, es)
    ensures Ascending(t.index, IndexKey)
  {
    var bs :| Flat(bs) == es && Holds(t, bs);
    forall i, j | 0 <= i < j < |t.index| ensures Lt(IndexKey(t.index[i]), IndexKey(t.index[j])) {
      LastKeysAscend(bs, i, j);
    }
  }

  /** The search within the block decides. */
  lemma BlockAnswer(es: seq<Entry>, b: seq<Entry>, key: Key, found: bool, i: nat)
    requires Sorted(es) && Sorted(b) && forall v :: (key, v) in es <==> (key, v) in b
    requires Ascending(b, EntryKey) ==> Splits(b, EntryKey, key, found, i)
    requires found ==> i < |b| && b[i].0 == key
    ensures Tables.At(ToMap(es), key) == if found then Some(b[i].1) else None
  {
    AtList(es, key);
    forall p, q | 0 <= p < q < |b| ensures Lt(EntryKey(b[p]), EntryKey(b[q])) { }
    if found {
      assert b[i] == (key, b[i].1) && b[i] in b;
    } else {
      forall v ensures (key, v) !in b {
        if (key, v) in b {
          var p :| 0 <= p < |b| && b[p] == (key, v);
          assert EntryKey(b[p]) == key;
          LtIrreflexive(key);
        }
      }
    }
  }

  class SSTableReader {
    const table: Table
    const sstId: nat
    const cache: BlockCache?

    constructor (table: Table, sstId: nat, cache: BlockCache?)
      ensures this.table == table && this.sstId == sstId && this.cache == cache
    {
      this.table, this.sstId, this.cache := table, sstId, cache;
    }

    ghost predicate Valid()
      reads cache
    {
      cache != null ==> cache.Valid() && Coherent(cache.slots, sstId, table)
    }

    /** A block from the cache if it is there, else from the file. */
    method LoadBlock(i: nat) returns (r: Decoded)
      requires Valid() && i < |table.index|
      modifies cache
      ensures Valid() && r == LoadOf(table, i)
      ensures cache != null ==> OnlyLoads(old(cache.slots), cache.slots, sstId, table)
      ensures cache != null ==>
                cache.St() == if CacheKey(sstId, i) in old(cache.slots) then Used(old(cache.St()), CacheKey(sstId, i))
                              else if r.Good? then Stored(old(cache.St()), CacheKey(sstId, i), r.block, cache.capacity)
                              else old(cache.St())
    {
      if cache != null {
        var hit := cache.Get(CacheKey(sstId, i));
        if hit.Some? {
          return Good(hit.value);
        }
      }
      if BlockEnd(table, i) > |table.data| || BlockStart(table, i) > BlockEnd(table, i) {
        return Bad;
      }
      r := DecodeBytes(table.data[BlockStart(table, i)..BlockEnd(table, i)]);
      if r.Good? && cache != null {
        Remember(i, r.block);
      }
    }

    /** Put a freshly decoded block into the cache. */
    method Remember(i: nat, block: BlockData)
      requires Valid() && cache != null && i < |table.index| && LoadOf(table, i) == Good(block)
      modifies cache
      ensures Valid() && OnlyLoads(old(cache.slots), cache.slots, sstId, table)
      ensures cache.St() == Stored(old(cache.St()), CacheKey(sstId, i), block, cache.capacity)
    {
      ghost var before := cache.St();
      cache.Put(CacheKey(sstId, i), block);
      StoreOnlyLoads(before, cache.capacity, sstId, table, i, block);
      LoadingKeepsCoherence(before.slots, cache.slots, sstId, table, sstId, table);
    }

    /** Bloom filter, index search, block search. A faithful copy answers as the map it holds. */
    method Get(key: Key) returns (r: Answer)
      requires Valid()
      modifies cache
      ensures Valid() && Honest(table, key, r)
      ensures cache != null ==> OnlyLoads(old(cache.slots), cache.slots, sstId, table)
      ensures forall es | Intact(table, es) :: r == Answer(Tables.At(ToMap(es), key))
      ensures TestOf(table.bloom, key) == Absent ==> r == Answer(None)
      ensures TestOf(table.bloom, key) == Absent && cache != null ==> cache.St() == old(cache.St())
      ensures TestOf(table.bloom, key) == OutOfRange ==> r == ReadPanic
    {
      var tested := Test(table.bloom, key);
      match tested
      case Absent => FilteredOut(table, key); return Answer(None);
      case OutOfRange => NeverOutOfRange(table, key); return ReadPanic;
      case Maybe =>
      var foundIdx, i := Search(table.index, IndexKey, key);
      if !foundIdx && i >= |table.index| {
        NothingPast(table, key, foundIdx, i);
        return Answer(None);
      }
      var block := LoadBlock(i);
      match block
      case Bad => NeverBad(table, i); return ReadError;
      case Crash => NeverBad(table, i); return ReadPanic;
      case Good(b) =>
        var found, j := Search(b.entries, EntryKey, key);
        DecidedByBlock(table, key, foundIdx, i, b.entries, found, j);
        return if found then Answer(Some(b.entries[j].1)) else Answer(None);
    }
  }

  lemma FilteredOut(t: Table, key: Key)
    requires TestOf(t.bloom, key) == Absent
    ensures forall es | Intact(t, es) :: Tables.At(ToMap(es), key) == None
  {
    forall es | Intact(t, es) ensures Tables.At(ToMap(es), key) == None {
      TestDecides(t.bloom, key);
      AtList(es, key);
    }
  }

  lemma NeverOutOfRange(t: Table, key: Key)
    requires TestOf(t.bloom, key) == OutOfRange
    ensures forall es :: !Intact(t, es)
  {
    if InRange(t.bloom) {
      TestDecides(t.bloom, key);
    }
  }

  lemma NothingPast(t: Table, key: Key, found: bool, i: nat)
    requires i == |t.index| && (Ascending(t.index, IndexKey) ==> Splits(t.index, IndexKey, key, found, i))
    ensures forall es | Intact(t, es) :: Tables.At(ToMap(es), key) == None
  {
    forall es | Intact(t, es) ensures Tables.At(ToMap(es), key) == None {
      IndexAscends(t, es);
      LookupIs(t, es, key, found, i);
    }
  }

  lemma NeverBad(t: Table, i: nat)
    requires i < |t.index| && !LoadOf(t, i).Good?
    ensures forall es :: !Intact(t, es)
  {
  }

  lemma DecidedByBlock(t: Table, key: Key, foundIdx: bool, i: nat, b: seq<Entry>, found: bool, j: nat)
    requires i < |t.index| && (Ascending(t.index, IndexKey) ==> Splits(t.index, IndexKey, key, foundIdx, i))
    requires LoadOf(t, i).Good? && LoadOf(t, i).block.entries == b
    requires Ascending(b, EntryKey) ==> Splits(b, EntryKey, key, found, j)
    requires found ==> j < |b| && b[j].0 == key
    ensures forall es | Intact(t, es) :: Tables.At(ToMap(es), key) == if found then Some(b[j].1) else None
  {
    forall es | Intact(t, es) ensures Tables.At(ToMap(es), key) == if found then Some(b[j].1) else None {
      IndexAscends(t, es);
      LookupIs(t, es, key, foundIdx, i);
      BlockAnswer(es, b, key, found, j);
    }
  }

  // ---------------------------------------------------------------------
  // The iterator
  // ---------------------------------------------------------------------

  /** An iterator position: between blocks, or within a loaded one. */
  ghost predicate At(t: Table, blockIdx: nat, entryIdx: nat, current: Option<BlockData>) {
    && blockIdx <= |t.index|
    && (current.Some? ==>
          blockIdx < |t.index| && LoadOf(t, blockIdx) == Good(current.value) && entryIdx <= |current.value.entries|)
  }

  ghost function LeftAt(t: Table, blockIdx: nat, entryIdx: nat, current: Option<BlockData>): seq<Entry>
    requires At(t, blockIdx, entryIdx, current)
  {
    if current.Some? then current.value.entries[entryIdx..] + Coming(t, blockIdx + 1) else Coming(t, blockIdx)
  }

  lemma TakeStep(t: Table, blockIdx: nat, entryIdx: nat, b: BlockData)
    requires At(t, blockIdx, entryIdx, Some(b)) && entryIdx < |b.entries|
    ensures var left := LeftAt(t, blockIdx, entryIdx, Some(b));
            left != [] && left[0] == b.entries[entryIdx] && left[1..] == LeftAt(t, blockIdx, entryIdx + 1, Some(b))
  {
  }

  lemma SkipStep(t: Table, blockIdx: nat, entryIdx: nat, b: BlockData)
    requires At(t, blockIdx, entryIdx, Some(b)) && entryIdx == |b.entries|
    ensures LeftAt(t, blockIdx, entryIdx, Some(b)) == LeftAt(t, blockIdx + 1, entryIdx, None)
  {
  }

  datatype Item = Yield(entry: Entry) | End | IterPanic

  class SSTableIterator {
    const reader: SSTableReader
    var blockIdx: nat
    var entryIdx: nat
    var currentBlock: Option<BlockData>

    constructor (reader: SSTableReader)
      ensures this.reader == reader && Positioned() && Left() == Coming(reader.table, 0)
    {
      this.reader := reader;
      blockIdx, entryIdx, currentBlock := 0, 0, None;
    }

    ghost predicate Positioned()
      reads this
    {
      At(reader.table, blockIdx, entryIdx, currentBlock)
    }

    /** The entries still to come. */
    ghost function Left(): seq<Entry>
      reads this
      requires Positioned()
    {
      LeftAt(reader.table, blockIdx, entryIdx, currentBlock)
    }

    /** Load the block at the current position, or say why there is none. */
    method Fetch() returns (stop: Option<Item>)
      requires reader.Valid() && Positioned() && currentBlock.None?
      modifies this`currentBlock, this`entryIdx, reader.cache
      ensures reader.Valid() && Positioned() && Left() == old(Left())
      ensures stop.None? <==> currentBlock.Some?
      ensures stop.Some? ==> Left() == [] && !stop.value.Yield? && (stop.value.IterPanic? ==> HasCrash(reader.table))
    {
      if blockIdx >= |reader.table.index| {
        return Some(End);
      }
      var block := reader.LoadBlock(blockIdx);
      match block
      case Bad => return Some(End);
      case Crash => return Some(IterPanic);
      case Good(b) =>
        currentBlock, entryIdx := Some(b), 0;
        assert b.entries[0..] == b.entries;
        return None;
    }

    /** Move past a block that is used up. */
    method Skip(ghost block: BlockData)
      requires Positioned() && currentBlock == Some(block) && entryIdx == |block.entries|
      modifies this`blockIdx, this`currentBlock
      ensures Positioned() && Left() == old(Left()) && currentBlock == None && blockIdx == old(blockIdx) + 1
    {
      SkipStep(reader.table, blockIdx, entryIdx, block);
      blockIdx := blockIdx + 1;
      currentBlock := None;
    }

    /** The next entry in key order. */
    method Next() returns (r: Item)
      requires reader.Valid() && Positioned()
      modifies this, reader.cache
      ensures reader.Valid() && Positioned()
      ensures old(Left()) != [] ==> r == Yield(old(Left())[0]) && Left() == old(Left())[1..]
      ensures old(Left()) == [] ==> !r.Yield? && Left() == []
      ensures r.IterPanic? ==> HasCrash(reader.table)
    {
      ghost var left := Left();
      while true
        invariant reader.Valid() && Positioned() && left == Left()
        decreases |reader.table.index| - blockIdx, currentBlock.None?
      {
        if currentBlock.None? {
          var fetched := Fetch();
          if fetched.Some? {
            return fetched.value;
          }
        }
        var block := currentBlock.value;
        if entryIdx < |block.entries| {
          TakeStep(reader.table, blockIdx, entryIdx, block);
          r := Yield(block.entries[entryIdx]);
          entryIdx := entryIdx + 1;
          return;
        }
        Skip(block);
      }
    }
  }

  lemma IntactHasNoCrash(t: Table)
    requires HasCrash(t)
    ensures forall es :: !Intact(t, es)
  {
  }

  lemma IntactWalk(t: Table, es: seq<Entry>, panicked: bool)
    requires es == Coming(t, 0) && (panicked ==> HasCrash(t))
    ensures forall all | Intact(t, all) :: es == all && !panicked
  {
    forall all | Intact(t, all) ensures es == all && !panicked {
      IntactIteration(t, all);
      if panicked { IntactHasNoCrash(t); }
    }
  }

  lemma OneMore(es: seq<Entry>, left: seq<Entry>)
    requires left != []
    ensures es + [left[0]] + left[1..] == es + left
  {
  }

  /** Walk a table from start to end. */
  method Entries(reader: SSTableReader) returns (es: seq<Entry>, panicked: bool)
    requires reader.Valid()
    modifies reader.cache
    ensures reader.Valid() && es == Coming(reader.table, 0)
    ensures forall all | Intact(reader.table, all) :: es == all && !panicked
  {
    var it := new SSTableIterator(reader);
    ghost var all := Coming(reader.table, 0);
    es, panicked := [], false;
    while true
      invariant reader.Valid() && it.Positioned() && it.reader == reader
      invariant es + it.Left() == all
      decreases |it.Left()|
    {
      ghost var left := it.Left();
      var item := it.Next();
      if !item.Yield? {
        panicked := item.IterPanic?;
        break;
      }
      OneMore(es, left);
      es := es + [item.entry];
    }
    IntactWalk(reader.table, es, panicked);
  }

  /**
   The end-to-end round trip: a file written by the builder opens, its table walks back exactly the entries,
   and the map that lookups answer from holds `k` with `v` exactly when that pair was added.
   */
  lemma RoundTrip(file: seq<byte>, es: seq<Entry>, blockSize: nat, numHashes: nat)
    requires Sorted(es) && Representable(es) && |file| < U32 && numHashes <= 30
    requires IsTable(file, es, blockSize, numHashes)
    ensures ParseTable(file).Parsed? && Intact(ParseTable(file).table, es)
    ensures Coming(ParseTable(file).table, 0) == es
    ensures forall k, v :: Tables.At(ToMap(es), k) == Some(v) <==> (k, v) in es
  {
    BuiltIsIntact(file, es, blockSize, numHashes);
    IntactIteration(ParseTable(file).table, es);
    forall k, v ensures Tables.At(ToMap(es), k) == Some(v) <==> (k, v) in es { AtList(es, k); }
  }

  /** A file that the builder can have written for the entries, within the bounds of the format. */
  ghost predicate WrittenFor(file: seq<byte>, es: seq<Entry>) {
    && Sorted(es) && Representable(es) && |file| < U32
    && exists blockSize, numHashes :: numHashes <= 30 && IsTable(file, es, blockSize, numHashes)
  }

  lemma WrittenIsIntact(file: seq<byte>, es: seq<Entry>)
    requires WrittenFor(file, es)
    ensures ParseTable(file).Parsed? && Intact(ParseTable(file).table, es)
  {
    var blockSize, numHashes :| numHashes <= 30 && IsTable(file, es, blockSize, numHashes);
    BuiltIsIntact(file, es, blockSize, numHashes);
  }

  /** What a lookup in a file answers if the file was written for some entries: their map's value. */
  ghost predicate Faithful(file: seq<byte>, key: Key, r: Answer) {
    forall es | WrittenFor(file, es) :: r == Answer(Tables.At(ToMap(es), key))
  }

  lemma FaithfulAnswer(file: seq<byte>, key: Key, r: Answer)
    requires ParseTable(file).Parsed? ==>
               forall es | Intact(ParseTable(file).table, es) :: r == Answer(Tables.At(ToMap(es), key))
    ensures Faithful(file, key, r)
  {
    forall es | WrittenFor(file, es) ensures r == Answer(Tables.At(ToMap(es), key)) {
      WrittenIsIntact(file, es);
    }
  }

  /** Open a file and look a key up: on every file that the builder wrote, the value that was added, or none. */
  method FindInFile(file: seq<byte>, sstId: nat, cache: BlockCache?, key: Key) returns (r: Answer)
    requires cache != null ==> cache.Valid()
    requires cache != null && ParseTable(file).Parsed? ==> Coherent(cache.slots, sstId, ParseTable(file).table)
    modifies cache
    ensures Faithful(file, key, r)
  {
    var result := OpenWithCache(file, sstId, cache);
    match result {
      case Corrupted => r := ReadError;
      case Panicked => r := ReadPanic;
      case Open(reader) => r := reader.Get(key);
    }
    FaithfulAnswer(file, key, r);
  }

  /** A table written from the sorted entries of a map answers as that map: what the engine takes a table to be. */
  lemma MapRoundTrip(file: seq<byte>, m: map<Key, Value>, blockSize: nat, numHashes: nat)
    requires Representable(SortedEntries(m)) && |file| < U32 && numHashes <= 30
    requires IsTable(file, SortedEntries(m), blockSize, numHashes)
    ensures ParseTable(file).Parsed? && Intact(ParseTable(file).table, SortedEntries(m))
    ensures ToMap(Coming(ParseTable(file).table, 0)) == m
    ensures forall r | Intact(ParseTable(file).table, r) :: ToMap(r) == m
  {
    RoundTrip(file, SortedEntries(m), blockSize, numHashes);
    ToMapSortedEntries(m);
    forall r | Intact(ParseTable(file).table, r) ensures ToMap(r) == m {
      IntactIteration(ParseTable(file).table, r);
    }
  }
}
