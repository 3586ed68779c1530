/** Reading the SSTable file format (src/sstable/reader.rs), and its round trip with the writer. */
module TableFormat {
  import opened Bytes
  import opened OrderedMaps
  import opened Blocks
  import opened Bloom
  import opened Builders

  // ---------------------------------------------------------------------
  // Reading as functions of the bytes
  // ---------------------------------------------------------------------

  /** A parsed file. */
  datatype Table = Table(data: seq<byte>, index: Index, indexOffset: nat, bloom: BloomFilter)

  datatype Parsed = Parsed(table: Table) | BadFile | CrashFile

  function Prepend(e: (nat, Key), r: Option<Index>): Option<Index> {
    if r.Some? then Some([e] + r.value) else None
  }

  function ParseEntries(buf: seq<byte>, n: nat): Option<Index> {
    if n == 0 then Some([])
    else if |buf| < 8 then None
    else
      var len := FromLE(buf[4..8]);
      if |buf| < 8 + len then None
      else Prepend((FromLE(buf[..4]), buf[8..8 + len]), ParseEntries(buf[8 + len..], n - 1))
  }

  function ParseIndex(data: seq<byte>, offset: nat): Option<Index> {
    if |data| < offset + 4 then None
    else ParseEntries(data[offset + 4..], FromLE(data[offset..offset + 4]))
  }

  /** Footer, index and filter; a filter offset past the footer is an out-of-range slice. */
  function ParseTable(data: seq<byte>): Parsed {
    if |data| < 8 then BadFile
    else
      var io, bo := FromLE(data[|data| - 8..|data| - 4]), FromLE(data[|data| - 4..]);
      match ParseIndex(data, io)
      case None => BadFile
      case Some(idx) =>
        if bo > |data| - 8 then CrashFile
        else
          match DecodeFilter(data[bo..|data| - 8])
          case None => BadFile
          case Some(f) => Parsed(Table(data, idx, io, f))
  }

  function BlockStart(t: Table, i: nat): nat
    requires i < |t.index|
  {
    t.index[i].0
  }

  function BlockEnd(t: Table, i: nat): nat
    requires i < |t.index|
  {
    if i + 1 < |t.index| then t.index[i + 1].0 else t.indexOffset
  }

  /** What loading block `i` from the file gives. */
  function LoadOf(t: Table, i: nat): Decoded
    requires i < |t.index|
  {
    if BlockEnd(t, i) > |t.data| || BlockStart(t, i) > BlockEnd(t, i) then Bad
    else DecodedOf(t.data[BlockStart(t, i)..BlockEnd(t, i)])
  }

  /** The entries from block `i` on, up to the first block that cannot be loaded. */
  function Coming(t: Table, i: nat): seq<Entry>
    requires i <= |t.index|
    decreases |t.index| - i
  {
    if i == |t.index| then []
    else if LoadOf(t, i).Good? then LoadOf(t, i).block.entries + Coming(t, i + 1)
    else []
  }

  // ---------------------------------------------------------------------
  // Tables that hold given entries
  // ---------------------------------------------------------------------

  /** The index and the loaded blocks are those of `bs`. */
  ghost predicate Holds(t: Table, bs: seq<seq<Entry>>) {
    && |t.index| == |bs| && NoneEmpty(bs)
    && forall i | 0 <= i < |bs| ::
         t.index[i].1 == LastKey(bs[i]) && LoadOf(t, i).Good? && LoadOf(t, i).block.entries == bs[i]
  }

  /** The filter passes every key. */
  ghost predicate Passes(f: BloomFilter, es: seq<Entry>) {
    InRange(f) && forall i | 0 <= i < |es| :: MayContain(f, es[i].0)
  }

  /** The table is a faithful copy of the sorted entries `es`. */
  ghost predicate Intact(t: Table, es: seq<Entry>) {
    Sorted(es) && Passes(t.bloom, es) && exists bs :: Flat(bs) == es && Holds(t, bs)
  }

  // ---------------------------------------------------------------------
  // Blocks of a sorted list
  // ---------------------------------------------------------------------

  lemma {:induction false} FlatMember(bs: seq<seq<Entry>>, e: Entry)
    ensures e in Flat(bs) <==> exists i :: 0 <= i < |bs| && e in bs[i]
  {
    if bs != [] {
      FlatMember(bs[..|bs| - 1], e);
      if e in Flat(bs[..|bs| - 1]) {
        var i :| 0 <= i < |bs[..|bs| - 1]| && e in bs[..|bs| - 1][i];
        assert e in bs[i];
      }
      if i :| 0 <= i < |bs| && e in bs[i] {
        assert i < |bs| - 1 ==> e in bs[..|bs| - 1][i];
      }
    }
  }

  lemma SortedSplit(a: seq<Entry>, b: seq<Entry>)
    requires Sorted(a + b)
    ensures Sorted(a) && Sorted(b)
    ensures forall e, f | e in a && f in b :: Lt(e.0, f.0)
  {
    var s := a + b;
    forall i, j | 0 <= i < j < |a| ensures Lt(a[i].0, a[j].0) { assert a[i] == s[i] && a[j] == s[j]; }
    forall i, j | 0 <= i < j < |b| ensures Lt(b[i].0, b[j].0) {
      assert b[i] == s[|a| + i] && b[j] == s[|a| + j];
    }
    forall e, f | e in a && f in b ensures Lt(e.0, f.0) {
      var i, j :| 0 <= i < |a| && a[i] == e && 0 <= j < |b| && b[j] == f;
      assert e == s[i] && f == s[|a| + j];
    }
  }

  lemma {:induction false} BlockSorted(bs: seq<seq<Entry>>, i: nat)
    requires Sorted(Flat(bs)) && i < |bs|
    ensures Sorted(bs[i])
  {
    var init := bs[..|bs| - 1];
    SortedSplit(Flat(init), bs[|bs| - 1]);
    if i < |init| {
      BlockSorted(init, i);
    }
  }

  lemma {:induction false} BlocksApart(bs: seq<seq<Entry>>, i: nat, j: nat, e: Entry, f: Entry)
    requires Sorted(Flat(bs)) && i < j < |bs| && e in bs[i] && f in bs[j]
    ensures Lt(e.0, f.0)
  {
    var init := bs[..|bs| - 1];
    SortedSplit(Flat(init), bs[|bs| - 1]);
    if j < |init| {
      BlocksApart(init, i, j, e, f);
    } else {
      assert init[i] == bs[i];
      FlatMember(init, e);
    }
  }

  lemma AtLast(es: seq<Entry>, e: Entry)
    requires Sorted(es) && e in es
    ensures Le(e.0, LastKey(es))
  {
  }

  /** The index is strictly sorted by last key. */
  lemma LastKeysAscend(bs: seq<seq<Entry>>, i: nat, j: nat)
    requires Sorted(Flat(bs)) && NoneEmpty(bs) && i < j < |bs|
    ensures Lt(LastKey(bs[i]), LastKey(bs[j]))
  {
    BlocksApart(bs, i, j, bs[i][|bs[i]| - 1], bs[j][|bs[j]| - 1]);
  }

  /** Blocks that end before the key do not hold it. */
  lemma NotBefore(bs: seq<seq<Entry>>, j: nat, key: Key, v: Value)
    requires Sorted(Flat(bs)) && NoneEmpty(bs) && j < |bs| && Lt(LastKey(bs[j]), key)
    ensures (key, v) !in bs[j]
  {
    if (key, v) in bs[j] {
      BlockSorted(bs, j);
      AtLast(bs[j], (key, v));
      LtFacts(key, LastKey(bs[j]), key);
      LtIrreflexive(key);
    }
  }

  /** The first block whose last key is not less than the key is the only one that can hold it. */
  lemma OnlyBlock(bs: seq<seq<Entry>>, i: nat, key: Key, v: Value)
    requires Sorted(Flat(bs)) && NoneEmpty(bs) && i <= |bs|
    requires forall j | 0 <= j < i :: Lt(LastKey(bs[j]), key)
    requires i < |bs| ==> Le(key, LastKey(bs[i]))
    ensures (key, v) in Flat(bs) <==> i < |bs| && (key, v) in bs[i]
  {
    FlatMember(bs, (key, v));
    forall j | 0 <= j < |bs| && j != i ensures (key, v) !in bs[j] {
      if j < i {
        NotBefore(bs, j, key, v);
      } else if (key, v) in bs[j] {
        BlocksApart(bs, i, j, bs[i][|bs[i]| - 1], (key, v));
        LtFacts(key, LastKey(bs[i]), key);
        LtIrreflexive(key);
      }
    }
  }

  // ---------------------------------------------------------------------
  // The round trip
  // ---------------------------------------------------------------------

  predicate IndexFits(idx: Index) {
    forall i | 0 <= i < |idx| :: idx[i].0 < U32 && |idx[i].1| < U32
  }

  lemma IndexEntryFields(e: (nat, Key), rest: seq<byte>)
    requires e.0 < U32 && |e.1| < U32
    ensures var buf := EncodeIndexEntry(e) + rest;
            && |buf| >= 8 + |e.1| && FromLE(buf[..4]) == e.0 && FromLE(buf[4..8]) == |e.1|
            && buf[8..8 + |e.1|] == e.1 && buf[8 + |e.1|..] == rest
  {
    var a, b := LE(e.0, 4), LE(|e.1|, 4);
    var buf := EncodeIndexEntry(e) + rest;
    assert buf == a + b + e.1 + rest;
    assert buf[..4] == a && buf[4..8] == b;
    assert buf[8..8 + |e.1|] == e.1 && buf[8 + |e.1|..] == rest;
    LERound(e.0, 4);
    LERound(|e.1|, 4);
  }

  lemma {:induction false} ParseEncoded(idx: Index, rest: seq<byte>)
    requires IndexFits(idx)
    ensures ParseEntries(EncodeIndexEntries(idx) + rest, |idx|) == Some(idx)
  {
    if idx != [] {
      var tail := EncodeIndexEntries(idx[1..]) + rest;
      assert EncodeIndexEntries(idx) + rest == EncodeIndexEntry(idx[0]) + tail;
      IndexEntryFields(idx[0], tail);
      ParseEncoded(idx[1..], rest);
      assert [idx[0]] + idx[1..] == idx;
    }
  }

  lemma IndexRoundTrip(before: seq<byte>, idx: Index, rest: seq<byte>)
    requires IndexFits(idx) && |idx| < U32
    ensures ParseIndex(before + EncodeIndex(idx) + rest, |before|) == Some(idx)
  {
    var data := before + EncodeIndex(idx) + rest;
    var n := |before|;
    assert data[n..n + 4] == LE(|idx|, 4);
    assert data[n + 4..] == EncodeIndexEntries(idx) + rest;
    LERound(|idx|, 4);
    ParseEncoded(idx, rest);
  }

  lemma {:induction false} DataPrefix(bs: seq<seq<Entry>>, i: nat)
    requires i <= |bs|
    ensures Data(bs[..i]) <= Data(bs)
  {
    if i == |bs| {
      assert bs[..i] == bs;
    } else {
      DataPrefix(bs[..|bs| - 1], i);
      assert bs[..|bs| - 1][..i] == bs[..i];
    }
  }

  lemma {:induction false} IndexAt(bs: seq<seq<Entry>>, i: nat)
    requires NoneEmpty(bs) && i < |bs|
    ensures IndexOf(bs)[i] == (|Data(bs[..i])| % U32, LastKey(bs[i]))
  {
    if i < |bs| - 1 {
      IndexAt(bs[..|bs| - 1], i);
      assert bs[..|bs| - 1][..i] == bs[..i];
    }
  }

  /** Where block `i` lies in the data. */
  lemma BlockAt(bs: seq<seq<Entry>>, i: nat, rest: seq<byte>)
    requires i < |bs|
    ensures |Data(bs[..i])| <= |Data(bs[..i + 1])| <= |Data(bs)|
    ensures (Data(bs) + rest)[|Data(bs[..i])|..|Data(bs[..i + 1])|] == EncodeBlock(bs[i])
  {
    DataPrefix(bs, i + 1);
    assert bs[..i + 1] == bs[..i] + [bs[i]];
    DataAppend(bs[..i], bs[i]);
    var p := Data(bs[..i + 1]);
    assert (Data(bs) + rest)[..|p|] == p;
    assert (Data(bs) + rest)[|Data(bs[..i])|..|p|] == p[|Data(bs[..i])|..];
  }

  /** A table whose data part is that of `bs`, and whose index is that of `bs`. */
  ghost predicate Framed(t: Table, bs: seq<seq<Entry>>, rest: seq<byte>) {
    && NoneEmpty(bs) && |Data(bs)| < U32
    && t.data == Data(bs) + rest && t.index == IndexOf(bs) && t.indexOffset == |Data(bs)|
  }

  lemma IndexStart(bs: seq<seq<Entry>>, i: nat)
    requires NoneEmpty(bs) && |Data(bs)| < U32 && i < |bs|
    ensures IndexOf(bs)[i] == (|Data(bs[..i])|, LastKey(bs[i]))
  {
    IndexAt(bs, i);
    DataPrefix(bs, i);
    Small(|Data(bs[..i])|);
  }

  lemma Small(n: nat)
    requires n < U32
    ensures n % U32 == n
  {
  }

  lemma Offsets(t: Table, bs: seq<seq<Entry>>, rest: seq<byte>, i: nat)
    requires Framed(t, bs, rest) && i < |bs|
    ensures BlockStart(t, i) == |Data(bs[..i])| && BlockEnd(t, i) == |Data(bs[..i + 1])|
    ensures t.index[i].1 == LastKey(bs[i])
  {
    IndexStart(bs, i);
    if i + 1 < |bs| {
      IndexStart(bs, i + 1);
    } else {
      assert bs[..i + 1] == bs;
    }
  }

  lemma DecodedBlock(es: seq<Entry>)
    requires EntriesFit(es) && |es| < U32
    ensures DecodedOf(EncodeBlock(es)) == Good(BlockData(es, |EncodeBlock(es)| - 4))
  {
    BlockRoundTrip(es, []);
    assert EncodeBlock(es) + [] == EncodeBlock(es);
  }

  lemma LoadsBlock(t: Table, bs: seq<seq<Entry>>, rest: seq<byte>, i: nat)
    requires Framed(t, bs, rest) && i < |bs| && EntriesFit(bs[i]) && |bs[i]| < U32
    ensures LoadOf(t, i).Good? && LoadOf(t, i).block.entries == bs[i] && t.index[i].1 == LastKey(bs[i])
  {
    Offsets(t, bs, rest, i);
    BlockAt(bs, i, rest);
    DecodedBlock(bs[i]);
  }

  lemma {:induction false} BlockLength(bs: seq<seq<Entry>>, i: nat)
    requires i < |bs|
    ensures |bs[i]| <= |Flat(bs)|
  {
    if i < |bs| - 1 {
      BlockLength(bs[..|bs| - 1], i);
    }
  }

  lemma {:induction false} FewBlocks(bs: seq<seq<Entry>>)
    requires NoneEmpty(bs)
    ensures |bs| <= |Flat(bs)|
  {
    if bs != [] {
      FewBlocks(bs[..|bs| - 1]);
    }
  }

  lemma BlockFits(bs: seq<seq<Entry>>, i: nat)
    requires i < |bs| && EntriesFit(Flat(bs))
    ensures EntriesFit(bs[i])
  {
    forall j | 0 <= j < |bs[i]| ensures EntryFits(bs[i][j]) {
      assert bs[i][j] in bs[i];
      FlatMember(bs, bs[i][j]);
      var k :| 0 <= k < |Flat(bs)| && Flat(bs)[k] == bs[i][j];
    }
  }

  lemma FramedHolds(t: Table, bs: seq<seq<Entry>>, rest: seq<byte>)
    requires Framed(t, bs, rest) && EntriesFit(Flat(bs)) && |Flat(bs)| < U32
    ensures Holds(t, bs)
  {
    forall i | 0 <= i < |bs|
      ensures t.index[i].1 == LastKey(bs[i]) && LoadOf(t, i).Good? && LoadOf(t, i).block.entries == bs[i]
    {
      BlockFits(bs, i);
      BlockLength(bs, i);
      LoadsBlock(t, bs, rest, i);
    }
  }

  /** Entries that the file format can represent. */
  predicate Representable(es: seq<Entry>) {
    EntriesFit(es) && |es| * BITS_PER_KEY < U32
  }

  lemma BuiltIndexFits(bs: seq<seq<Entry>>)
    requires NoneEmpty(bs) && EntriesFit(Flat(bs))
    ensures IndexFits(IndexOf(bs))
  {
    forall i | 0 <= i < |bs| ensures IndexOf(bs)[i].0 < U32 && |IndexOf(bs)[i].1| < U32 {
      IndexAt(bs, i);
      BlockFits(bs, i);
      assert EntryFits(bs[i][|bs[i]| - 1]);
    }
  }

  /** The footer of a file shorter than 2^32 bytes gives the true offsets. */
  lemma Footer(a: seq<byte>, b: seq<byte>, c: seq<byte>, file: seq<byte>)
    requires file == a + b + c + (LE(|a|, 4) + LE(|a + b|, 4)) && |file| < U32
    ensures |file| >= 8 && FromLE(file[|file| - 8..|file| - 4]) == |a| && FromLE(file[|file| - 4..]) == |a + b|
    ensures file[|a + b|..|file| - 8] == c
  {
    var x, y := LE(|a|, 4), LE(|a + b|, 4);
    assert file[|file| - 8..|file| - 4] == x && file[|file| - 4..] == y;
    LERound(|a|, 4);
    LERound(|a + b|, 4);
  }

  lemma BuiltIndex(bs: seq<seq<Entry>>, before: seq<byte>, rest: seq<byte>)
    requires NoneEmpty(bs) && EntriesFit(Flat(bs)) && |Flat(bs)| < U32
    ensures ParseIndex(before + EncodeIndex(IndexOf(bs)) + rest, |before|) == Some(IndexOf(bs))
  {
    BuiltIndexFits(bs);
    FewBlocks(bs);
    IndexRoundTrip(before, IndexOf(bs), rest);
  }

  lemma BuiltFilter(f: BloomFilter)
    requires f.numHashes < U32 && f.numBits < U32 && |f.bits| < U32
    ensures DecodeFilter(EncodeFilter(f)) == Some(f)
  {
    FilterRoundTrip(f, []);
    assert EncodeFilter(f) + [] == EncodeFilter(f);
  }

  /** Parsing a file from its parts. */
  lemma PartsParse(data: seq<byte>, idx: Index, f: BloomFilter, file: seq<byte>)
    requires file == data + EncodeIndex(idx) + EncodeFilter(f) + (LE(|data|, 4) + LE(|data + EncodeIndex(idx)|, 4))
    requires |file| < U32 && DecodeFilter(EncodeFilter(f)) == Some(f) && ParseIndex(file, |data|) == Some(idx)
    ensures ParseTable(file) == Parsed(Table(file, idx, |data|, f))
  {
    Footer(data, EncodeIndex(idx), EncodeFilter(f), file);
  }

  lemma BuiltParses(bs: seq<seq<Entry>>, f: BloomFilter, file: seq<byte>)
    requires NoneEmpty(bs) && EntriesFit(Flat(bs)) && |Flat(bs)| < U32 && file == TableBytes(bs, f)
    requires |file| < U32 && f.numHashes < U32 && f.numBits < U32 && |f.bits| < U32
    ensures ParseTable(file) == Parsed(Table(file, IndexOf(bs), |Data(bs)|, f))
  {
    var data, idx := Data(bs), IndexOf(bs);
    var foot := LE(|data|, 4) + LE(|data + EncodeIndex(idx)|, 4);
    DataFirst(data, EncodeIndex(idx), EncodeFilter(f), foot);
    BuiltIndex(bs, data, EncodeFilter(f) + foot);
    BuiltFilter(f);
    PartsParse(data, idx, f, file);
  }

  lemma DataFirst(a: seq<byte>, b: seq<byte>, c: seq<byte>, d: seq<byte>)
    ensures a + b + c + d == a + (b + c + d)
    ensures a + b + c + d == a + b + (c + d)
  {
  }

  lemma BuiltHolds(bs: seq<seq<Entry>>, f: BloomFilter, file: seq<byte>)
    requires NoneEmpty(bs) && EntriesFit(Flat(bs)) && |Flat(bs)| < U32 && file == TableBytes(bs, f) && |file| < U32
    ensures Holds(Table(file, IndexOf(bs), |Data(bs)|, f), bs)
  {
    var index := EncodeIndex(IndexOf(bs));
    var foot := LE(|Data(bs)|, 4) + LE(|Data(bs) + index|, 4);
    var rest := index + EncodeFilter(f) + foot;
    DataFirst(Data(bs), index, EncodeFilter(f), foot);
    FramedHolds(Table(file, IndexOf(bs), |Data(bs)|, f), bs, rest);
  }

  lemma BuiltPasses(f: BloomFilter, es: seq<Entry>)
    requires Sound(f) && Marks(f, KeyList(es))
    ensures Passes(f, es)
  {
    forall i | 0 <= i < |es| ensures MayContain(f, es[i].0) {
      InsertedIsFound(f, KeyList(es), i);
    }
  }

  /** A file written by the builder opens as a faithful copy of the entries that were added. */
  lemma BuiltIsIntact(file: seq<byte>, es: seq<Entry>, blockSize: nat, numHashes: nat)
    requires Sorted(es) && Representable(es) && |file| < U32 && numHashes <= 30
    requires IsTable(file, es, blockSize, numHashes)
    ensures ParseTable(file).Parsed? && Intact(ParseTable(file).table, es)
  {
    var bs := BlocksOf(es, blockSize);
    BlocksPartition(es, blockSize);
    var f :| FilterFor(f, KeyList(es), numHashes) && file == TableBytes(bs, f);
    BuiltParses(bs, f, file);
    BuiltPasses(f, es);
    BuiltHolds(bs, f, file);
  }

  // ---------------------------------------------------------------------
  // Iteration
  // ---------------------------------------------------------------------

  lemma FlatStep(bs: seq<seq<Entry>>, i: nat)
    requires i < |bs|
    ensures Flat(bs[..i + 1]) == Flat(bs[..i]) + bs[i]
  {
    assert bs[..i + 1] == bs[..i] + [bs[i]];
    FlatAppend(bs[..i], bs[i]);
  }

  lemma {:induction false} ComingIs(t: Table, bs: seq<seq<Entry>>, i: nat)
    requires Holds(t, bs) && i <= |bs|
    ensures Flat(bs[..i]) + Coming(t, i) == Flat(bs)
    decreases |bs| - i
  {
    if i == |bs| {
      assert bs[..i] == bs;
    } else {
      ComingIs(t, bs, i + 1);
      FlatStep(bs, i);
    }
  }

  /** Walking all blocks of a faithful copy gives exactly the entries. */
  lemma IntactIteration(t: Table, es: seq<Entry>)
    requires Intact(t, es)
    ensures Coming(t, 0) == es
  {
    var bs :| Flat(bs) == es && Holds(t, bs);
    ComingIs(t, bs, 0);
    assert bs[..0] == [];
  }

  /**
   What opening bytes comes to: an index that does not parse is reported first, then a filter offset past the footer
   is an out-of-range slice, then a filter that does not decode is reported.
   */
  lemma ParseCases(data: seq<byte>)
    ensures |data| < 8 ==> ParseTable(data) == BadFile
    ensures |data| >= 8 ==>
              var io, bo := FromLE(data[|data| - 8..|data| - 4]), FromLE(data[|data| - 4..]);
              && (ParseTable(data) == CrashFile <==> ParseIndex(data, io).Some? && bo > |data| - 8)
              && (ParseTable(data).Parsed? <==>
                    ParseIndex(data, io).Some? && bo <= |data| - 8 && DecodeFilter(data[bo..|data| - 8]).Some?)
              && (ParseTable(data).Parsed? ==>
                    ParseTable(data).table.data == data && ParseTable(data).table.indexOffset == io)
  {
  }

  /** A block lies from its own offset to the next one's, the last one to the index; other offsets are corrupt. */
  lemma LoadCases(t: Table, i: nat)
    requires i < |t.index|
    ensures var end := if i + 1 < |t.index| then t.index[i + 1].0 else t.indexOffset;
            if end > |t.data| || t.index[i].0 > end then LoadOf(t, i) == Bad
            else LoadOf(t, i) == DecodedOf(t.data[t.index[i].0..end])
  {
  }
}
