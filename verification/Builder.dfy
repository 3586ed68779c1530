/** The SSTable file format and its writer (src/sstable/builder.rs). */
module Builders {
  import opened Bytes
  import opened OrderedMaps
  import opened Blocks
  import opened Bloom

  /** Where each block starts, and its last key. */
  type Index = seq<(nat, Key)>

  const BITS_PER_KEY: nat := 10

  // ---------------------------------------------------------------------
  // The file as a function of its blocks
  // ---------------------------------------------------------------------

  function LastKey(es: seq<Entry>): Key
    requires es != []
  {
    es[|es| - 1].0
  }

  function Flat(bs: seq<seq<Entry>>): seq<Entry> {
    if bs == [] then [] else Flat(bs[..|bs| - 1]) + bs[|bs| - 1]
  }

  function Data(bs: seq<seq<Entry>>): seq<byte> {
    if bs == [] then [] else Data(bs[..|bs| - 1]) + EncodeBlock(bs[|bs| - 1])
  }

  predicate NoneEmpty(bs: seq<seq<Entry>>) {
    forall i | 0 <= i < |bs| :: bs[i] != []
  }

  function IndexOf(bs: seq<seq<Entry>>): (idx: Index)
    requires NoneEmpty(bs)
    ensures |idx| == |bs|
  {
    if bs == [] then []
    else IndexOf(bs[..|bs| - 1]) + [(|Data(bs[..|bs| - 1])| % U32, LastKey(bs[|bs| - 1]))]
  }

  function EncodeIndexEntry(e: (nat, Key)): (b: seq<byte>)
    ensures |b| == 8 + |e.1|
  {
    LE(e.0, 4) + LE(|e.1|, 4) + e.1
  }

  function EncodeIndexEntries(idx: Index): seq<byte> {
    if idx == [] then [] else EncodeIndexEntry(idx[0]) + EncodeIndexEntries(idx[1..])
  }

  function EncodeIndex(idx: Index): seq<byte> {
    LE(|idx|, 4) + EncodeIndexEntries(idx)
  }

  /** Data blocks, index block, bloom filter, footer. */
  function TableBytes(bs: seq<seq<Entry>>, f: BloomFilter): seq<byte>
    requires NoneEmpty(bs)
  {
    var data := Data(bs);
    var index := EncodeIndex(IndexOf(bs));
    data + index + EncodeFilter(f) + (LE(|data|, 4) + LE(|data + index|, 4))
  }

  // ---------------------------------------------------------------------
  // Cutting the entries into blocks
  // ---------------------------------------------------------------------

  /** Finished blocks and the block being filled. */
  datatype Filling = Filling(done: seq<seq<Entry>>, current: seq<Entry>)

  function AddTo(f: Filling, e: Entry, blockSize: nat): Filling {
    if RawSize(f.current) > 0 && RawSize(f.current) + |e.0| + |e.1| + 8 > blockSize
    then Filling(f.done + [f.current], [e])
    else Filling(f.done, f.current + [e])
  }

  function Fill(es: seq<Entry>, blockSize: nat): Filling {
    if es == [] then Filling([], []) else AddTo(Fill(es[..|es| - 1], blockSize), es[|es| - 1], blockSize)
  }

  function Closed(f: Filling): seq<seq<Entry>> {
    if f.current == [] then f.done else f.done + [f.current]
  }

  function BlocksOf(es: seq<Entry>, blockSize: nat): seq<seq<Entry>> {
    Closed(Fill(es, blockSize))
  }

  lemma FlatAppend(bs: seq<seq<Entry>>, b: seq<Entry>)
    ensures Flat(bs + [b]) == Flat(bs) + b
  {
    assert (bs + [b])[..|bs|] == bs;
  }

  lemma DataAppend(bs: seq<seq<Entry>>, b: seq<Entry>)
    ensures Data(bs + [b]) == Data(bs) + EncodeBlock(b)
  {
    assert (bs + [b])[..|bs|] == bs;
  }

  lemma IndexAppend(bs: seq<seq<Entry>>, b: seq<Entry>)
    requires NoneEmpty(bs) && b != []
    ensures IndexOf(bs + [b]) == IndexOf(bs) + [(|Data(bs)| % U32, LastKey(b))]
  {
    assert (bs + [b])[..|bs|] == bs;
  }

  lemma {:induction false} EmptyWhenNoSize(es: seq<Entry>)
    ensures RawSize(es) > 0 <==> es != []
  {
  }

  /** A block is over the target size only if it holds a single entry. */
  predicate Modest(b: seq<Entry>, blockSize: nat) {
    b != [] && (|b| == 1 || RawSize(b) <= blockSize)
  }

  predicate AllModest(bs: seq<seq<Entry>>, blockSize: nat) {
    forall i | 0 <= i < |bs| :: Modest(bs[i], blockSize)
  }

  lemma RawSizeAppend(es: seq<Entry>, e: Entry)
    ensures RawSize(es + [e]) == RawSize(es) + 8 + |e.0| + |e.1|
  {
    assert (es + [e])[..|es|] == es;
  }

  /** The blocks, and the one being filled, hold the entries in order; only single entries exceed the target size. */
  ghost predicate Partition(f: Filling, es: seq<Entry>, blockSize: nat) {
    && AllModest(f.done, blockSize) && (f.current == [] || Modest(f.current, blockSize))
    && Flat(f.done) + f.current == es
  }

  lemma AddToStep(f: Filling, es: seq<Entry>, e: Entry, blockSize: nat)
    requires Partition(f, es, blockSize)
    ensures Partition(AddTo(f, e, blockSize), es + [e], blockSize)
  {
    EmptyWhenNoSize(f.current);
    if RawSize(f.current) > 0 && RawSize(f.current) + |e.0| + |e.1| + 8 > blockSize {
      CloseStep(f, es, e, blockSize);
    } else {
      GrowStep(f, es, e, blockSize);
    }
  }

  /** The current block is closed and the entry starts the next one. */
  lemma CloseStep(f: Filling, es: seq<Entry>, e: Entry, blockSize: nat)
    requires Partition(f, es, blockSize) && f.current != []
    ensures Partition(Filling(f.done + [f.current], [e]), es + [e], blockSize)
  {
    FlatAppend(f.done, f.current);
  }

  /** The entry goes into the current block. */
  lemma GrowStep(f: Filling, es: seq<Entry>, e: Entry, blockSize: nat)
    requires Partition(f, es, blockSize)
    requires f.current == [] || RawSize(f.current) + |e.0| + |e.1| + 8 <= blockSize
    ensures Partition(Filling(f.done, f.current + [e]), es + [e], blockSize)
  {
    RawSizeAppend(f.current, e);
    assert Flat(f.done) + (f.current + [e]) == Flat(f.done) + f.current + [e];
  }

  lemma FillAppend(es: seq<Entry>, e: Entry, blockSize: nat)
    ensures Fill(es + [e], blockSize) == AddTo(Fill(es, blockSize), e, blockSize)
  {
    assert (es + [e])[..|es|] == es;
  }

  lemma {:induction false} FillPartition(es: seq<Entry>, blockSize: nat)
    ensures Partition(Fill(es, blockSize), es, blockSize)
  {
    if es == [] {
      NothingFilled(blockSize);
    } else {
      var init, e := es[..|es| - 1], es[|es| - 1];
      FillPartition(init, blockSize);
      assert init + [e] == es;
      FilledStep(init, e, es, Fill(init, blockSize), Fill(es, blockSize), blockSize);
    }
  }

  lemma FilledStep(init: seq<Entry>, e: Entry, es: seq<Entry>, f: Filling, g: Filling, blockSize: nat)
    requires es == init + [e] && f == Fill(init, blockSize) && g == Fill(es, blockSize) && Partition(f, init, blockSize)
    ensures Partition(g, es, blockSize)
  {
    FillAppend(init, e, blockSize);
    AddToStep(f, init, e, blockSize);
  }

  lemma NothingFilled(blockSize: nat)
    ensures Partition(Fill([], blockSize), [], blockSize)
  {
  }

  lemma ClosedPartition(f: Filling, es: seq<Entry>, blockSize: nat)
    requires Partition(f, es, blockSize)
    ensures AllModest(Closed(f), blockSize) && Flat(Closed(f)) == es
  {
    FlatAppend(f.done, f.current);
  }

  lemma ModestNotEmpty(bs: seq<seq<Entry>>, blockSize: nat)
    requires AllModest(bs, blockSize)
    ensures NoneEmpty(bs)
  {
  }

  /** The blocks hold the entries in order; none is empty, and only single entries exceed the target size. */
  lemma BlocksPartition(es: seq<Entry>, blockSize: nat)
    ensures AllModest(BlocksOf(es, blockSize), blockSize) && NoneEmpty(BlocksOf(es, blockSize))
    ensures Flat(BlocksOf(es, blockSize)) == es
  {
    FillPartition(es, blockSize);
    ClosedPartition(Fill(es, blockSize), es, blockSize);
    ModestNotEmpty(BlocksOf(es, blockSize), blockSize);
  }

  // ---------------------------------------------------------------------
  // The builder
  // ---------------------------------------------------------------------

  function KeyList(es: seq<Entry>): seq<Key> {
    seq(|es|, i requires 0 <= i < |es| => es[i].0)
  }

  lemma KeyListAppend(es: seq<Entry>, e: Entry)
    ensures KeyList(es + [e]) == KeyList(es) + [e.0]
  {
  }

  /** The filter of a finished table. */
  ghost predicate FilterFor(f: BloomFilter, keys: seq<Key>, numHashes: nat) {
    && Sound(f) && Marks(f, keys) && f.numHashes == numHashes
    && f.numBits == NumBits(|keys|, BITS_PER_KEY) && |f.bits| == (f.numBits + 63) / 64
  }

  /** The bytes of a finished table. */
  ghost predicate IsTable(bytes: seq<byte>, es: seq<Entry>, blockSize: nat, numHashes: nat) {
    BlocksPartition(es, blockSize);
    exists f :: FilterFor(f, KeyList(es), numHashes) && bytes == TableBytes(BlocksOf(es, blockSize), f)
  }

  /** A file prefix, its index and its wrapped length for the blocks `bs`. */
  ghost predicate OnDisk(bs: seq<seq<Entry>>, file: seq<byte>, idx: Index, written: nat) {
    NoneEmpty(bs) && file == Data(bs) && idx == IndexOf(bs) && written == |file| % U32
  }

  lemma WrapAdd(a: nat, b: nat, c: nat)
    requires a == b % U32
    ensures (a + c) % U32 == (b + c) % U32
  {
  }

  lemma FlushStep(bs: seq<seq<Entry>>, file: seq<byte>, idx: Index, written: nat, b: seq<Entry>,
                  file': seq<byte>, idx': Index, written': nat)
    requires OnDisk(bs, file, idx, written) && b != []
    requires file' == file + EncodeBlock(b) && idx' == idx + [(written, LastKey(b))]
    requires written' == |file'| % U32
    ensures OnDisk(bs + [b], file', idx', written')
  {
    DataAppend(bs, b);
    IndexAppend(bs, b);
    OneMoreBlock(bs, b);
  }

  lemma OneMoreBlock(bs: seq<seq<Entry>>, b: seq<Entry>)
    requires NoneEmpty(bs) && b != []
    ensures NoneEmpty(bs + [b])
  {
  }

  lemma IndexStep(file: seq<byte>, idx: Index, i: nat, whole: seq<byte>, file': seq<byte>)
    requires i < |idx| && whole == file + EncodeIndexEntries(idx[i..])
    requires file' == file + (LE(idx[i].0, 4) + LE(|idx[i].1|, 4) + idx[i].1)
    ensures whole == file' + EncodeIndexEntries(idx[i + 1..])
  {
    FirstIndexEntry(idx, i);
    assert file' == file + EncodeIndexEntry(idx[i]);
  }

  lemma FirstIndexEntry(idx: Index, i: nat)
    requires i < |idx|
    ensures EncodeIndexEntries(idx[i..]) == EncodeIndexEntry(idx[i]) + EncodeIndexEntries(idx[i + 1..])
  {
    assert idx[i..][1..] == idx[i + 1..];
  }

  class SSTableBuilder {
    var file: seq<byte>
    var currentBlock: Block
    var indexEntries: Index
    var allKeys: seq<Key>
    const blockSize: nat
    var bytesWritten: nat      // a u32
    ghost var added: seq<Entry>

    /** The file holds the blocks `bs`, the current block holds `current`. */
    ghost predicate Wrote(bs: seq<seq<Entry>>, current: seq<Entry>)
      reads this, currentBlock
    {
      && OnDisk(bs, file, indexEntries, bytesWritten)
      && currentBlock.Valid() && currentBlock.entries == current && allKeys == KeyList(added)
    }

    ghost predicate Valid()
      reads this, currentBlock
    {
      var f := Fill(added, blockSize);
      Wrote(f.done, f.current)
    }

    constructor (blockSize: nat)
      ensures Valid() && added == [] && this.blockSize == blockSize && fresh(currentBlock)
    {
      this.blockSize := blockSize;
      file, indexEntries, allKeys, bytesWritten, added := [], [], [], 0, [];
      currentBlock := new Block();
    }

    /** Append an entry, closing the current block first if it would grow past the target size. */
    method Add(key: Key, value: Value)
      requires Valid()
      modifies this, currentBlock
      ensures Valid() && added == old(added) + [(key, value)]
      ensures currentBlock == old(currentBlock) || fresh(currentBlock)
    {
      ghost var f := Fill(added, blockSize);
      EmptyWhenNoSize(f.current);
      if currentBlock.encodedSize > 0 && currentBlock.encodedSize + |key| + |value| + 8 > blockSize {
        FlushBlock(f.done);
      }
      FillAppend(added, (key, value), blockSize);
      Append(AddTo(f, (key, value), blockSize).done, currentBlock.entries, key, value);
    }

    /** Put an entry into the current block. */
    method Append(ghost bs: seq<seq<Entry>>, ghost current: seq<Entry>, key: Key, value: Value)
      requires Wrote(bs, current)
      modifies this`allKeys, this`added, currentBlock
      ensures Wrote(bs, current + [(key, value)]) && added == old(added) + [(key, value)]
    {
      KeyListAppend(added, (key, value));
      allKeys := allKeys + [key];
      currentBlock.Add(key, value);
      added := added + [(key, value)];
    }

    method FlushBlock(ghost bs: seq<seq<Entry>>)
      requires Wrote(bs, currentBlock.entries) && currentBlock.entries != []
      modifies this`file, this`indexEntries, this`bytesWritten, this`currentBlock
      ensures Wrote(bs + [old(currentBlock.entries)], []) && fresh(currentBlock)
    {
      ghost var b, before, idx, written := currentBlock.entries, file, indexEntries, bytesWritten;
      var lastKey := LastKey(currentBlock.entries);
      var encoded := currentBlock.Encode();
      WrapAdd(bytesWritten, |file|, |encoded|);
      file := file + encoded;
      indexEntries := indexEntries + [(bytesWritten, lastKey)];
      bytesWritten := (bytesWritten + |encoded|) % U32;
      FlushStep(bs, before, idx, written, b, file, indexEntries, bytesWritten);
      currentBlock := new Block();
    }

    method WriteIndexBlock()
      modifies this`file, this`bytesWritten
      requires bytesWritten == |file| % U32
      ensures file == old(file) + EncodeIndex(indexEntries) && bytesWritten == |file| % U32
    {
      ghost var whole := file + EncodeIndex(indexEntries);
      WrapAdd(bytesWritten, |file|, 4);
      file := file + LE(|indexEntries|, 4);
      bytesWritten := (bytesWritten + 4) % U32;
      for i := 0 to |indexEntries|
        invariant file + EncodeIndexEntries(indexEntries[i..]) == whole && bytesWritten == |file| % U32
      {
        ghost var before := file;
        var (offset, lastKey) := indexEntries[i];
        WrapAdd(bytesWritten, |file|, 4 + 4 + |lastKey|);
        file := file + (LE(offset, 4) + LE(|lastKey|, 4) + lastKey);
        bytesWritten := (bytesWritten + 4 + 4 + |lastKey|) % U32;
        IndexStep(before, indexEntries, i, whole, file);
      }
    }

    /** Close the last block and write index, filter and footer. `numHashes` stands for the optimal hash count. */
    method Finish(numHashes: nat)
      requires Valid() && 1 <= numHashes <= 30
      modifies this, currentBlock
      ensures IsTable(file, old(added), blockSize, numHashes)
    {
      ghost var f := Fill(added, blockSize);
      ghost var bs := BlocksOf(added, blockSize);
      ghost var es := added;
      if currentBlock.entries != [] {
        FlushBlock(f.done);
      }
      assert Wrote(bs, []) && added == es;
      var indexOffset := bytesWritten;
      WriteIndexBlock();
      var bloomOffset := bytesWritten;
      var bloom := Build(allKeys, BITS_PER_KEY, numHashes);
      var bloomData := Bloom.Encode(bloom);
      file := file + bloomData;
      bytesWritten := (bytesWritten + |bloomData|) % U32;
      file := file + (LE(indexOffset, 4) + LE(bloomOffset, 4));
      FinishedBytes(es, blockSize, numHashes, bloom, indexOffset, bloomOffset, file);
    }
  }

  lemma SliceLast(es: seq<Entry>, i: nat)
    requires i < |es|
    ensures es[..i + 1] == es[..i] + [es[i]]
  {
  }

  /** Build the file of a list of entries, as a flush and a compaction do. */
  method WriteTable(es: seq<Entry>, blockSize: nat, numHashes: nat) returns (file: seq<byte>)
    requires 1 <= numHashes <= 30
    ensures IsTable(file, es, blockSize, numHashes)
  {
    var builder := new SSTableBuilder(blockSize);
    for i := 0 to |es|
      invariant builder.Valid() && builder.added == es[..i] && builder.blockSize == blockSize
      invariant fresh(builder) && fresh(builder.currentBlock)
    {
      SliceLast(es, i);
      builder.Add(es[i].0, es[i].1);
    }
    assert es[..|es|] == es;
    builder.Finish(numHashes);
    file := builder.file;
  }

  /** Writing `w` bytes cuts off everything from the w-th byte on. */
  lemma {:induction false} LEWraps(n: nat, q: nat, r: nat, w: nat)
    requires n == Pow256(w) * q + r && r < Pow256(w)
    ensures LE(r, w) == LE(n, w)
  {
    if w > 0 {
      var p := Pow256(w - 1);
      Regrouped(p, q);
      LowByteApart(n, p * q, r, p);
      LEWraps(n / 256, q, r / 256, w - 1);
      LEFirst(n, w);
      LEFirst(r, w);
    }
  }

  lemma Regrouped(p: nat, q: nat)
    ensures (256 * p) * q == 256 * (p * q)
  {
  }

  lemma LowByteApart(n: nat, m: nat, r: nat, p: nat)
    requires n == 256 * m + r && r < 256 * p
    ensures n % 256 == r % 256 && n / 256 == m + r / 256 && r / 256 < p
  {
  }

  lemma LEWraps4(n: nat)
    ensures LE(n % U32, 4) == LE(n, 4)
  {
    Pow256Values();
    LEWraps(n, n / U32, n % U32, 4);
  }

  lemma FinishedBytes(es: seq<Entry>, blockSize: nat, numHashes: nat, f: BloomFilter, io: nat, bo: nat, file: seq<byte>)
    requires FilterFor(f, KeyList(es), numHashes)
    requires NoneEmpty(BlocksOf(es, blockSize))
    requires var data := Data(BlocksOf(es, blockSize));
             var head := data + EncodeIndex(IndexOf(BlocksOf(es, blockSize)));
             && io == |data| % U32 && bo == |head| % U32 && file == head + EncodeFilter(f) + (LE(io, 4) + LE(bo, 4))
    ensures IsTable(file, es, blockSize, numHashes)
  {
    BlocksPartition(es, blockSize);
    var data := Data(BlocksOf(es, blockSize));
    LEWraps4(|data|);
    LEWraps4(|data + EncodeIndex(IndexOf(BlocksOf(es, blockSize)))|);
    assert file == TableBytes(BlocksOf(es, blockSize), f);
  }

  // ---------------------------------------------------------------------
  // Blocks are filled as far as they go
  // ---------------------------------------------------------------------

  /** The first entry of the next block would have taken this one past the target size. */
  predicate NoRoom(b: seq<Entry>, next: seq<Entry>, blockSize: nat) {
    next != [] && RawSize(b) + 8 + |next[0].0| + |next[0].1| > blockSize
  }

  ghost predicate Packed(bs: seq<seq<Entry>>, blockSize: nat) {
    forall i {:trigger bs[i]} | 0 <= i < |bs| - 1 :: NoRoom(bs[i], bs[i + 1], blockSize)
  }

  /** The last block grows. */
  lemma PackedGrow(bs: seq<seq<Entry>>, b: seq<Entry>, e: Entry, blockSize: nat)
    requires Packed(bs + [b], blockSize) && b != []
    ensures Packed(bs + [b + [e]], blockSize)
  {
    var before, after := bs + [b], bs + [b + [e]];
    forall i {:trigger after[i]} | 0 <= i < |after| - 1 ensures NoRoom(after[i], after[i + 1], blockSize) {
      assert NoRoom(before[i], before[i + 1], blockSize);
      assert after[i] == before[i] && after[i + 1] != [] && after[i + 1][0] == before[i + 1][0];
    }
  }

  /** An entry without room starts a block. */
  lemma PackedClose(bs: seq<seq<Entry>>, b: seq<Entry>, e: Entry, blockSize: nat)
    requires Packed(bs + [b], blockSize) && NoRoom(b, [e], blockSize)
    ensures Packed(bs + [b] + [[e]], blockSize)
  {
    var before, after := bs + [b], bs + [b] + [[e]];
    forall i {:trigger after[i]} | 0 <= i < |after| - 1 ensures NoRoom(after[i], after[i + 1], blockSize) {
      if i < |bs| {
        assert NoRoom(before[i], before[i + 1], blockSize);
        assert after[i] == before[i] && after[i + 1] == before[i + 1];
      }
    }
  }

  lemma {:induction false} FillPacked(es: seq<Entry>, blockSize: nat)
    ensures var f := Fill(es, blockSize);
            Packed(Closed(f), blockSize) && (f.current == [] ==> f.done == [])
  {
    if es != [] {
      var init, e := es[..|es| - 1], es[|es| - 1];
      FillPacked(init, blockSize);
      var f := Fill(init, blockSize);
      EmptyWhenNoSize(f.current);
      if f.current == [] {
        assert [] + [e] == [e];
      } else {
        PackedGrow(f.done, f.current, e, blockSize);
        if NoRoom(f.current, [e], blockSize) {
          PackedClose(f.done, f.current, e, blockSize);
        }
      }
    }
  }

  /** No block ends before it has to: the entry behind it would have taken it past the target size. */
  lemma BlocksPacked(es: seq<Entry>, blockSize: nat, i: nat)
    requires i + 1 < |BlocksOf(es, blockSize)|
    ensures var bs := BlocksOf(es, blockSize);
            bs[i + 1] != [] && RawSize(bs[i]) + 8 + |bs[i + 1][0].0| + |bs[i + 1][0].1| > blockSize
  {
    FillPacked(es, blockSize);
    var bs := BlocksOf(es, blockSize);
    assert NoRoom(bs[i], bs[i + 1], blockSize);
  }

  /** The data block and the index of a table with one entry byte for byte. */
  lemma KnownBlocks(bs: seq<seq<Entry>>)
    requires bs == [[([107], [97])]]
    ensures Data(bs) == [1, 0, 0, 0, 0, 0, 1, 0, 107, 1, 0, 0, 0, 97]
    ensures IndexOf(bs) == [(0, [107])]
  {
    var e: Entry := ([107], [97]);
    LittleEndian(0);
    LittleEndian(1);
    assert EncodeEntry([], e) == [0, 0, 1, 0, 107, 1, 0, 0, 0, 97];
    assert EncodeEntries([], [e]) == EncodeEntry([], e) + [];
    assert bs[..0] == [] && Data(bs) == [] + EncodeBlock([e]);
    assert IndexOf(bs) == [] + [(0, [107])];
  }

  lemma KnownIndex(idx: Index)
    requires idx == [(0, [107])]
    ensures EncodeIndex(idx) == [1, 0, 0, 0, 0, 0, 0, 0, 1, 0, 0, 0, 107]
  {
    LittleEndian(0);
    LittleEndian(1);
    assert idx[1..] == [] && EncodeIndexEntries(idx) == EncodeIndexEntry(idx[0]) + [];
    assert EncodeIndexEntry(idx[0]) == [0, 0, 0, 0, 1, 0, 0, 0, 107];
  }

  /** A table file with one entry byte for byte, around its filter: the footer points at index and filter. */
  lemma KnownTable(f: BloomFilter)
    ensures TableBytes([[([107], [97])]], f) ==
            [1, 0, 0, 0, 0, 0, 1, 0, 107, 1, 0, 0, 0, 97] + [1, 0, 0, 0, 0, 0, 0, 0, 1, 0, 0, 0, 107]
            + EncodeFilter(f) + [14, 0, 0, 0, 27, 0, 0, 0]
  {
    KnownBlocks([[([107], [97])]]);
    KnownIndex([(0, [107])]);
    LittleEndian(14);
    LittleEndian(27);
  }

  /** The filter of a table has ten bits for each of its keys, and 64 at least. */
  lemma TableFilter(bytes: seq<byte>, es: seq<Entry>, blockSize: nat, numHashes: nat)
    requires IsTable(bytes, es, blockSize, numHashes)
    ensures NoneEmpty(BlocksOf(es, blockSize))
    ensures exists f :: && bytes == TableBytes(BlocksOf(es, blockSize), f)
                        && f.numBits == (if |es| <= 6 then 64 else 10 * |es|)
                        && |f.bits| == (f.numBits + 63) / 64 && f.numHashes == numHashes
  {
    BlocksPartition(es, blockSize);
    NumBitsIs(|es|);
  }
}
