/** The log file (src/wal/writer.rs): appending records and reading a possibly torn file back. */
module Wal {
  import opened Bytes
  import opened WalRecord

  /** What `BufWriter` buffers at most, in bytes. */
  const CAPACITY: nat := 8192

  /** The log writer, with the buffer that stands between it and the file. */
  class WALWriter {
    const crc: Checksum
    var file: seq<byte>
    var buffer: seq<byte>

    constructor (file: seq<byte>, crc: Checksum)
      ensures this.file == file && this.crc == crc && buffer == []
    {
      this.file := file;
      this.crc := crc;
      this.buffer := [];
    }

    /** The records of the file and those of the buffer, all whole. */
    ghost predicate Holds(written: seq<Record>, buffered: seq<Record>)
      reads this
    {
      file == EncodeAll(written, crc) && buffer == EncodeAll(buffered, crc)
    }

    /**
     `write_all`: what does not fit in sends the buffer to the file first, and follows it if no buffer could
     hold it.
     */
    method WriteAll(data: seq<byte>)
      modifies this
      ensures file + buffer == old(file + buffer) + data
      ensures (file, buffer) == Spilled(old(file), old(buffer), data)
    {
      if |data| > CAPACITY - |buffer| {
        SendBuffer();
      }
      if |data| >= CAPACITY {
        file := file + data;
      } else {
        buffer := buffer + data;
      }
    }

    method SendBuffer()
      modifies this
      ensures file == old(file + buffer) && buffer == []
    {
      file := file + buffer;
      buffer := [];
    }

    method AppendRecord(r: Record, ghost written: seq<Record>, ghost buffered: seq<Record>)
      requires Holds(written, buffered)
      modifies this
      ensures var (w, b) := SpilledRecords(written, buffered, r); Holds(w, b) && w + b == written + buffered + [r]
      ensures file + buffer == old(file + buffer) + Encode(r, crc)
    {
      var encoded := Encode(r, crc);
      SpilledWhole(written, buffered, r, crc);
      WriteAll(encoded);
    }

    method Append(key: Key, value: Value, ghost written: seq<Record>, ghost buffered: seq<Record>)
      requires Holds(written, buffered)
      modifies this
      ensures var r := Record(OpPut, key, value);
              var (w, b) := SpilledRecords(written, buffered, r);
              && Holds(w, b) && w + b == written + buffered + [r]
              && file + buffer == old(file + buffer) + Encode(r, crc)
    {
      AppendRecord(Record(OpPut, key, value), written, buffered);
    }

    /** Everything appended is in the file. */
    method Flush(ghost written: seq<Record>, ghost buffered: seq<Record>)
      requires Holds(written, buffered)
      modifies this
      ensures Holds(written + buffered, []) && file == old(file + buffer)
    {
      EncodeAllSplit(written, buffered, crc);
      SendBuffer();
    }
  }

  /** File and buffer after `write_all`. */
  function Spilled(file: seq<byte>, buffer: seq<byte>, data: seq<byte>): (seq<byte>, seq<byte>) {
    var (f, b) := if |data| > CAPACITY - |buffer| then (file + buffer, []) else (file, buffer);
    if |data| >= CAPACITY then (f + data, b) else (f, b + data)
  }

  /** The records of file and buffer after a record was appended. */
  function SpilledRecords(written: seq<Record>, buffered: seq<Record>, r: Record): (seq<Record>, seq<Record>) {
    var (w, b) :=
      if FrameSize(r) > CAPACITY - FrameSizes(buffered) then (written + buffered, []) else (written, buffered);
    if FrameSize(r) >= CAPACITY then (w + [r], b) else (w, b + [r])
  }

  /** The buffer goes to the file between two records, never within one, and none is lost or out of order. */
  lemma SpilledWhole(written: seq<Record>, buffered: seq<Record>, r: Record, crc: Checksum)
    ensures var (w, b) := SpilledRecords(written, buffered, r);
            && w + b == written + buffered + [r]
            && Spilled(EncodeAll(written, crc), EncodeAll(buffered, crc), Encode(r, crc)) ==
               (EncodeAll(w, crc), EncodeAll(b, crc))
  {
    FrameSizesAre(buffered, crc);
    SpilledInOrder(written, buffered, r);
    EncodeAllSplit(written, buffered, crc);
    if FrameSize(r) >= CAPACITY {
      EncodeAllAppend(if FrameSize(r) > CAPACITY - FrameSizes(buffered) then written + buffered else written, r, crc);
    } else {
      EncodeAllAppend(if FrameSize(r) > CAPACITY - FrameSizes(buffered) then [] else buffered, r, crc);
    }
  }

  lemma SpilledInOrder(written: seq<Record>, buffered: seq<Record>, r: Record)
    ensures var (w, b) := SpilledRecords(written, buffered, r);
            w + b == written + buffered + [r] && |b| <= |buffered| + 1
  {
  }

  /** How many bytes the record takes in the log. */
  function FrameSize(r: Record): nat {
    17 + |r.key| + |r.value|
  }

  function FrameSizes(rs: seq<Record>): nat {
    if rs == [] then 0 else FrameSize(rs[0]) + FrameSizes(rs[1..])
  }

  lemma {:induction false} FrameSizesAre(rs: seq<Record>, crc: Checksum)
    ensures |EncodeAll(rs, crc)| == FrameSizes(rs)
  {
    if rs != [] {
      FrameSizesAre(rs[1..], crc);
    }
  }

  /** The next record of a log, if there is a whole one, and the bytes behind it. */
  function ReadOne(data: seq<byte>, crc: Checksum): (Option<Result<Record>>, seq<byte>) {
    if |data| < 4 then (None, [])
    else
      var n := FromLE(data[..4]);
      if |data| < 4 + n then (None, [])
      else (Some(Decode(data[4..4 + n], crc)), data[4 + n..])
  }

  class WALReader {
    const crc: Checksum
    var rest: seq<byte>

    constructor (file: seq<byte>, crc: Checksum)
      ensures rest == file && this.crc == crc
    {
      rest := file;
      this.crc := crc;
    }

    /** `read_exact`: all of the bytes, or end of file with everything consumed. */
    method ReadExact(n: nat) returns (buf: Option<seq<byte>>)
      modifies this
      ensures |old(rest)| < n ==> buf == None && rest == []
      ensures |old(rest)| >= n ==> buf == Some(old(rest)[..n]) && rest == old(rest)[n..]
    {
      if |rest| < n {
        rest := [];
        return None;
      }
      buf := Some(rest[..n]);
      rest := rest[n..];
    }

    method Next() returns (r: Option<Result<Record>>)
      modifies this
      ensures (r, rest) == ReadOne(old(rest), crc)
      ensures r.Some? ==> |rest| < |old(rest)|
    {
      var lenBuf := ReadExact(4);
      if lenBuf.None? {
        return None;
      }
      var n := FromLE(lenBuf.value);
      var recordBuf := ReadExact(n);
      if recordBuf.None? {
        return None;
      }
      assert old(rest)[4..][..n] == old(rest)[4..4 + n] && old(rest)[4..][n..] == old(rest)[4 + n..];
      r := Some(Decode(recordBuf.value, crc));
    }

    /** Read up to the first missing or torn record; a record that does not decode is an error. */
    method ReadToEnd() returns (all: Result<seq<Record>>)
      modifies this
      ensures all == ReadAll(old(rest), crc)
    {
      var rs: seq<Record> := [];
      all := Ok([]);
      PrependNone(ReadAll(rest, crc));
      while true
        invariant all == Ok(rs)
        invariant ReadAll(old(rest), crc) == Prepend(rs, ReadAll(rest, crc))
        decreases |rest|
      {
        var r := Next();
        match r
        case None =>
          assert rs + [] == rs;
          return;
        case Some(Err(e)) => return Err(e);
        case Some(Ok(rec)) =>
          PrependOne(rs, rec, ReadAll(rest, crc));
          rs := rs + [rec];
          all := Ok(rs);
      }
    }
  }

  function Prepend(rs: seq<Record>, r: Result<seq<Record>>): Result<seq<Record>> {
    match r
    case Ok(more) => Ok(rs + more)
    case Err(e) => Err(e)
  }

  lemma PrependNone(r: Result<seq<Record>>)
    ensures Prepend([], r) == r
  {
    if r.Ok? {
      assert [] + r.value == r.value;
    }
  }

  lemma PrependOne(rs: seq<Record>, rec: Record, r: Result<seq<Record>>)
    ensures Prepend(rs, Prepend([rec], r)) == Prepend(rs + [rec], r)
  {
    if r.Ok? {
      assert rs + ([rec] + r.value) == rs + [rec] + r.value;
    }
  }

  /** All records of a log. */
  function ReadAll(data: seq<byte>, crc: Checksum): Result<seq<Record>>
    decreases |data|
  {
    var (r, rest) := ReadOne(data, crc);
    match r
    case None => Ok([])
    case Some(Err(e)) => Err(e)
    case Some(Ok(rec)) => Prepend([rec], ReadAll(rest, crc))
  }

  /** What appending the records one after another writes. */
  function EncodeAll(rs: seq<Record>, crc: Checksum): seq<byte> {
    if rs == [] then [] else Encode(rs[0], crc) + EncodeAll(rs[1..], crc)
  }

  lemma {:induction false} EncodeAllAppend(rs: seq<Record>, r: Record, crc: Checksum)
    ensures EncodeAll(rs + [r], crc) == EncodeAll(rs, crc) + Encode(r, crc)
  {
    if rs == [] {
      assert [] + [r] == [r] && [r][1..] == [];
    } else {
      assert (rs + [r])[1..] == rs[1..] + [r];
      EncodeAllAppend(rs[1..], r, crc);
    }
  }

  ghost predicate AllFit(rs: seq<Record>) {
    forall r <- rs :: Fits(r)
  }

  /** How many records lie wholly within the first `n` bytes. */
  function Whole(rs: seq<Record>, n: nat): (m: nat)
    ensures m <= |rs|
  {
    if rs == [] || n < 17 + |rs[0].key| + |rs[0].value| then 0
    else 1 + Whole(rs[1..], n - (17 + |rs[0].key| + |rs[0].value|))
  }

  lemma {:induction false} WholeIsMaximal(rs: seq<Record>, n: nat, crc: Checksum)
    ensures |EncodeAll(rs[..Whole(rs, n)], crc)| <= n
    ensures Whole(rs, n) < |rs| ==> |EncodeAll(rs[..Whole(rs, n) + 1], crc)| > n
  {
    var m := Whole(rs, n);
    if rs != [] {
      var k := |Encode(rs[0], crc)|;
      if n < k {
        assert rs[..1] == [rs[0]] && [rs[0]][1..] == [];
      } else {
        WholeIsMaximal(rs[1..], n - k, crc);
        assert rs[..m][1..] == rs[1..][..m - 1];
        if m < |rs| { assert rs[..m + 1][1..] == rs[1..][..m]; }
      }
    }
  }

  /** The head of a log: one encoded record and whatever follows. */
  lemma ReadEncoded(r: Record, rest: seq<byte>, crc: Checksum)
    requires Fits(r)
    ensures ReadOne(Encode(r, crc) + rest, crc) == (Some(Ok(r)), rest)
  {
    var data, body := Encode(r, crc) + rest, Body(r, crc);
    assert data == LE(|body|, 4) + body + rest;
    assert data[..4] == LE(|body|, 4);
    LERound(|body|, 4);
    assert data[4..4 + |body|] == body && data[4 + |body|..] == rest;
    RecordRoundTrip(r, crc);
  }

  lemma ReadAllEncoded(r: Record, rest: seq<byte>, crc: Checksum)
    requires Fits(r)
    ensures ReadAll(Encode(r, crc) + rest, crc) == Prepend([r], ReadAll(rest, crc))
  {
    ReadEncoded(r, rest, crc);
  }

  lemma TailFits(rs: seq<Record>)
    requires AllFit(rs) && rs != []
    ensures Fits(rs[0]) && AllFit(rs[1..])
  {
    assert rs[0] in rs;
    forall r <- rs[1..] ensures Fits(r) { assert r in rs; }
  }

  // ---------------------------------------------------------------------
  // What follows an intact log
  // ---------------------------------------------------------------------

  /** A record, the rest of the log, and what follows the log. */
  lemma ReadMore(r: Record, first: seq<byte>, rest: seq<byte>, log: seq<byte>, tail: seq<byte>, crc: Checksum)
    requires Fits(r) && first == Encode(r, crc) && log == first + rest
    ensures ReadAll(log + tail, crc) == Prepend([r], ReadAll(rest + tail, crc))
  {
    Regroup(first, rest, tail);
    ReadAllEncoded(r, rest + tail, crc);
  }

  lemma PrependCons(rs: seq<Record>, r: Result<seq<Record>>)
    requires rs != []
    ensures Prepend([rs[0]], Prepend(rs[1..], r)) == Prepend(rs, r)
  {
    if r.Ok? {
      assert [rs[0]] + (rs[1..] + r.value) == rs + r.value;
    }
  }

  /** Reading past an intact log goes on with what follows it. */
  lemma {:induction false} ReadPast(rs: seq<Record>, tail: seq<byte>, crc: Checksum)
    requires AllFit(rs)
    ensures ReadAll(EncodeAll(rs, crc) + tail, crc) == Prepend(rs, ReadAll(tail, crc))
    decreases |rs|
  {
    if rs == [] {
      assert [] + tail == tail;
      PrependNone(ReadAll(tail, crc));
    } else {
      TailFits(rs);
      ReadPast(rs[1..], tail, crc);
      ReadMore(rs[0], Encode(rs[0], crc), EncodeAll(rs[1..], crc), EncodeAll(rs, crc), tail, crc);
      PrependCons(rs, ReadAll(tail, crc));
    }
  }

  /** The bytes are too few for a length field, or for what their length field announces. */
  predicate Torn(tail: seq<byte>) {
    |tail| < 4 || |tail| < 4 + FromLE(tail[..4])
  }

  lemma TornIff(tail: seq<byte>, crc: Checksum)
    ensures ReadAll(tail, crc) == Ok([]) <==> Torn(tail)
  {
    var (r, rest) := ReadOne(tail, crc);
    assert r == None <==> Torn(tail);
  }

  /**
   After an intact log the reader stops gracefully if and only if what follows is torn. Any complete
   frame behind it, whatever its bytes, is either read as one more record or an error for the whole log.
   */
  lemma StopsGracefullyIff(rs: seq<Record>, tail: seq<byte>, crc: Checksum)
    requires AllFit(rs)
    ensures ReadAll(EncodeAll(rs, crc) + tail, crc) == Ok(rs) <==> Torn(tail)
  {
    ReadPast(rs, tail, crc);
    TornIff(tail, crc);
    var r := ReadAll(tail, crc);
    assert r.Ok? ==> (rs + r.value == rs <==> r.value == []);
  }

  /** A length field that starts one byte too early announces far more than there is. */
  lemma ShiftedFrameTorn(b: byte, r: Record, crc: Checksum)
    requires |Body(r, crc)| < Pow256(3)
    ensures Torn([b] + Encode(r, crc))
  {
    var n := |Body(r, crc)|;
    var low := LE(n, 3);
    assert ([b] + Encode(r, crc))[..4] == [b] + low;
    LERoundTrip(n, 3);
    DigitsShift(b, low, 0);
    assert FromLE([b] + low) == b as nat + 256 * n;
  }

  /**
   A log is reopened behind its torn bytes: after a single one of them a record of less than 16 MiB is appended in full
   and never read back.
   */
  lemma LostBehindTornByte(rs: seq<Record>, b: byte, r: Record, crc: Checksum)
    requires AllFit(rs) && |Body(r, crc)| < Pow256(3)
    ensures ReadAll(EncodeAll(rs, crc) + [b], crc) == Ok(rs)
    ensures ReadAll(EncodeAll(rs, crc) + ([b] + Encode(r, crc)), crc) == Ok(rs)
  {
    StopsGracefullyIff(rs, [b], crc);
    ShiftedFrameTorn(b, r, crc);
    StopsGracefullyIff(rs, [b] + Encode(r, crc), crc);
  }

  lemma EncodeAllFirst(rs: seq<Record>, first: Record, others: seq<Record>, crc: Checksum)
    requires rs == [first] + others
    ensures EncodeAll(rs, crc) == Encode(first, crc) + EncodeAll(others, crc)
  {
    assert rs[1..] == others;
  }

  lemma SplitCons(r: Record, a: seq<Record>, b: seq<Record>, crc: Checksum)
    requires EncodeAll(a + b, crc) == EncodeAll(a, crc) + EncodeAll(b, crc)
    ensures EncodeAll([r] + (a + b), crc) == EncodeAll([r] + a, crc) + EncodeAll(b, crc)
  {
    EncodeAllFirst([r] + (a + b), r, a + b, crc);
    EncodeAllFirst([r] + a, r, a, crc);
    Regroup(Encode(r, crc), EncodeAll(a, crc), EncodeAll(b, crc));
  }

  lemma SplitNone(b: seq<Record>, crc: Checksum)
    ensures EncodeAll([] + b, crc) == EncodeAll([], crc) + EncodeAll(b, crc)
  {
    assert [] + b == b;
  }

  /** A log is its first records and then the others. */
  lemma {:induction false} EncodeAllSplit(a: seq<Record>, b: seq<Record>, crc: Checksum)
    ensures EncodeAll(a + b, crc) == EncodeAll(a, crc) + EncodeAll(b, crc)
    decreases |a|
  {
    if a == [] {
      SplitNone(b, crc);
    } else {
      EncodeAllSplit(a[1..], b, crc);
      SplitCons(a[0], a[1..], b, crc);
      assert [a[0]] + a[1..] == a && [a[0]] + (a[1..] + b) == a + b;
    }
  }

  /** The beginning of an encoded record is torn. */
  lemma TornFrame(r: Record, rest: seq<byte>, k: nat, crc: Checksum)
    requires Fits(r) && k < |Encode(r, crc)|
    ensures Torn((Encode(r, crc) + rest)[..k])
  {
    CutInFirst(Encode(r, crc), rest, k);
    if k >= 4 {
      CutInFirst(LE(|Body(r, crc)|, 4), Body(r, crc), 4);
      CutSlice(Encode(r, crc), k, 0, 4);
      assert Encode(r, crc)[..k][..4] == LE(|Body(r, crc)|, 4);
      LERound(|Body(r, crc)|, 4);
    }
  }

  /** The next record's bytes, behind all whole records, are torn. */
  lemma RemainderTorn(rs: seq<Record>, m: nat, k: nat, crc: Checksum)
    requires AllFit(rs) && m <= |rs| && k <= |EncodeAll(rs[m..], crc)|
    requires m < |rs| ==> k < |Encode(rs[m], crc)|
    ensures Torn(EncodeAll(rs[m..], crc)[..k])
  {
    if m < |rs| {
      assert rs[m] in rs;
      assert EncodeAll(rs[m..], crc) == Encode(rs[m], crc) + EncodeAll(rs[m..][1..], crc);
      TornFrame(rs[m], EncodeAll(rs[m..][1..], crc), k, crc);
    }
  }

  lemma NextTooLong(rs: seq<Record>, m: nat, n: nat, crc: Checksum)
    requires m < |rs| && |EncodeAll(rs[..m + 1], crc)| > n
    ensures n < |EncodeAll(rs[..m], crc)| + |Encode(rs[m], crc)|
  {
    assert rs[..m + 1] == rs[..m] + [rs[m]];
    EncodeAllAppend(rs[..m], rs[m], crc);
  }

  /**
   Torn-tail recovery: the first `n` bytes of a log read back as exactly the records that lie wholly
   within them, without error and without a partial record, for any checksum function.
   */
  lemma TornTail(rs: seq<Record>, n: nat, crc: Checksum)
    requires AllFit(rs) && n <= |EncodeAll(rs, crc)|
    ensures ReadAll(EncodeAll(rs, crc)[..n], crc) == Ok(rs[..Whole(rs, n)])
  {
    var tail := CutAtWhole(rs, EncodeAll(rs, crc), n, Whole(rs, n), crc);
    StopsGracefullyIff(rs[..Whole(rs, n)], tail, crc);
  }

  /** The first bytes of a log are its whole records and torn bytes. */
  lemma CutAtWhole(rs: seq<Record>, log: seq<byte>, n: nat, m: nat, crc: Checksum) returns (tail: seq<byte>)
    requires AllFit(rs) && log == EncodeAll(rs, crc) && n <= |log| && m == Whole(rs, n)
    ensures log[..n] == EncodeAll(rs[..m], crc) + tail && Torn(tail) && AllFit(rs[..m])
  {
    var whole, others := EncodeAll(rs[..m], crc), EncodeAll(rs[m..], crc);
    WholeIsMaximal(rs, n, crc);
    LogSplit(rs, log, m, whole, others, crc);
    if m < |rs| {
      NextTooLong(rs, m, n, crc);
    }
    CutInTail(whole, others, n);
    RemainderTorn(rs, m, n - |whole|, crc);
    tail := others[..n - |whole|];
  }

  lemma LogSplit(rs: seq<Record>, log: seq<byte>, m: nat, whole: seq<byte>, others: seq<byte>, crc: Checksum)
    requires m <= |rs| && log == EncodeAll(rs, crc) && whole == EncodeAll(rs[..m], crc)
    requires others == EncodeAll(rs[m..], crc)
    ensures log == whole + others
  {
    assert rs == rs[..m] + rs[m..];
    EncodeAllSplit(rs[..m], rs[m..], crc);
  }

  /** An intact log is read back completely. */
  lemma LogRoundTrip(rs: seq<Record>, crc: Checksum)
    requires AllFit(rs)
    ensures ReadAll(EncodeAll(rs, crc), crc) == Ok(rs)
  {
    StopsGracefullyIff(rs, [], crc);
    assert EncodeAll(rs, crc) + [] == EncodeAll(rs, crc);
  }

  /** The complete frames of a file, cut by their length fields alone. */
  function Frames(data: seq<byte>): seq<seq<byte>>
    decreases |data|
  {
    if Torn(data) then []
    else
      var n := FromLE(data[..4]);
      [data[4..4 + n]] + Frames(data[4 + n..])
  }

  /** Every frame decodes, to the records. */
  ghost predicate Decodes(fs: seq<seq<byte>>, rs: seq<Record>, crc: Checksum) {
    |fs| == |rs| && forall i | 0 <= i < |fs| :: Decode(fs[i], crc) == Ok(rs[i])
  }

  lemma DecodesFirst(f: seq<byte>, fs: seq<seq<byte>>, r: Record, rs: seq<Record>, crc: Checksum)
    requires Decode(f, crc) == Ok(r)
    ensures Decodes([f] + fs, [r] + rs, crc) <==> Decodes(fs, rs, crc)
  {
    if Decodes([f] + fs, [r] + rs, crc) {
      forall i | 0 <= i < |fs| ensures Decode(fs[i], crc) == Ok(rs[i]) {
        assert ([f] + fs)[i + 1] == fs[i] && ([r] + rs)[i + 1] == rs[i];
      }
    }
  }

  /** A file that reads without error reads as the records of its frames, all of them. */
  lemma {:induction false} ReadsFrames(data: seq<byte>, crc: Checksum)
    ensures ReadAll(data, crc).Ok? ==> Decodes(Frames(data), ReadAll(data, crc).value, crc)
    ensures ReadAll(data, crc).Err? ==> exists i :: 0 <= i < |Frames(data)| && Decode(Frames(data)[i], crc).Err?
    decreases |data|
  {
    if !Torn(data) {
      var n := FromLE(data[..4]);
      var f, rest := data[4..4 + n], data[4 + n..];
      ReadsFrames(rest, crc);
      FrameStep(data, f, rest, crc);
    }
  }

  lemma FrameStep(data: seq<byte>, f: seq<byte>, rest: seq<byte>, crc: Checksum)
    requires !Torn(data) && f == data[4..4 + FromLE(data[..4])] && rest == data[4 + FromLE(data[..4])..]
    requires ReadAll(rest, crc).Ok? ==> Decodes(Frames(rest), ReadAll(rest, crc).value, crc)
    requires ReadAll(rest, crc).Err? ==> exists i :: 0 <= i < |Frames(rest)| && Decode(Frames(rest)[i], crc).Err?
    ensures ReadAll(data, crc).Ok? ==> Decodes(Frames(data), ReadAll(data, crc).value, crc)
    ensures ReadAll(data, crc).Err? ==> exists i :: 0 <= i < |Frames(data)| && Decode(Frames(data)[i], crc).Err?
  {
    assert ReadOne(data, crc) == (Some(Decode(f, crc)), rest);
    assert Frames(data) == [f] + Frames(rest);
    match Decode(f, crc)
    case Err(e) => assert Frames(data)[0] == f;
    case Ok(r) =>
      if ReadAll(rest, crc).Ok? {
        DecodesFirst(f, Frames(rest), r, ReadAll(rest, crc).value, crc);
      } else {
        var i :| 0 <= i < |Frames(rest)| && Decode(Frames(rest)[i], crc).Err?;
        assert Frames(data)[i + 1] == Frames(rest)[i];
      }
  }

  /** A file is read without error if and only if each of its complete frames decodes. */
  lemma ReadsIff(data: seq<byte>, crc: Checksum)
    ensures ReadAll(data, crc).Ok? <==> forall i | 0 <= i < |Frames(data)| :: Decode(Frames(data)[i], crc).Ok?
  {
    ReadsFrames(data, crc);
  }

  /** A log with four zero bytes behind it, as a file extended by the file system has, cannot be read at all. */
  lemma ZeroTailIsError(rs: seq<Record>, crc: Checksum)
    requires AllFit(rs)
    ensures ReadAll(EncodeAll(rs, crc) + [0, 0, 0, 0], crc) == Err(Corruption)
  {
    ZeroLE([0, 0, 0, 0]);
    CorruptRecordIsError(rs, [], [], crc);
    assert LE(0, 4) + [] + [] == [0, 0, 0, 0];
  }

  /** A complete record that fails to decode is an error for the whole log, not its end. */
  lemma CorruptRecordIsError(rs: seq<Record>, bad: seq<byte>, rest: seq<byte>, crc: Checksum)
    requires AllFit(rs) && |bad| < U32 && Decode(bad, crc).Err?
    ensures ReadAll(EncodeAll(rs, crc) + (LE(|bad|, 4) + bad + rest), crc) == Err(Decode(bad, crc).error)
  {
    ReadPast(rs, LE(|bad|, 4) + bad + rest, crc);
    CorruptFirst(bad, rest, crc);
  }

  lemma CorruptFirst(bad: seq<byte>, rest: seq<byte>, crc: Checksum)
    requires |bad| < U32 && Decode(bad, crc).Err?
    ensures ReadAll(LE(|bad|, 4) + bad + rest, crc) == Err(Decode(bad, crc).error)
  {
    var tail := LE(|bad|, 4) + bad + rest;
    assert tail[..4] == LE(|bad|, 4);
    LERound(|bad|, 4);
    assert tail[4..4 + |bad|] == bad;
  }

  /** A log that is read carries, in each complete frame, the checksum of all other bytes of the frame. */
  lemma ReadChecksums(data: seq<byte>, crc: Checksum)
    requires ReadAll(data, crc).Ok?
    ensures forall i | 0 <= i < |Frames(data)| ::
              |Frames(data)[i]| >= 13 && FromLE(Frames(data)[i][..4]) == crc(Frames(data)[i][4..])
  {
    ReadsIff(data, crc);
    forall i | 0 <= i < |Frames(data)|
      ensures |Frames(data)[i]| >= 13 && FromLE(Frames(data)[i][..4]) == crc(Frames(data)[i][4..])
    {
      DecodeIff(Frames(data)[i], crc);
    }
  }

  /** A complete frame with a wrong checksum makes the whole log an error. */
  lemma WrongChecksumIsError(rs: seq<Record>, bad: seq<byte>, rest: seq<byte>, crc: Checksum)
    requires AllFit(rs) && 13 <= |bad| < U32 && FromLE(bad[..4]) != crc(bad[4..])
    ensures ReadAll(EncodeAll(rs, crc) + (LE(|bad|, 4) + bad + rest), crc) ==
            Err(ChecksumMismatch(FromLE(bad[..4]), crc(bad[4..])))
  {
    DecodeIff(bad, crc);
    CorruptRecordIsError(rs, bad, rest, crc);
  }

  /** A record whose bytes changed on disk behind its checksum is never replayed. */
  lemma ChangedRecordIsError(rs: seq<Record>, r: Record, changed: seq<byte>, rest: seq<byte>, crc: Checksum)
    requires AllFit(rs) && Fits(r) && |changed| == |Payload(r)| && crc(changed) != crc(Payload(r))
    ensures var bad := LE(crc(Payload(r)), 4) + changed;
            ReadAll(EncodeAll(rs, crc) + (LE(|bad|, 4) + bad + rest), crc) ==
            Err(ChecksumMismatch(crc(Payload(r)), crc(changed)))
  {
    ChangedIsRejected(r, changed, crc);
    assert Body(r, crc)[..4] == LE(crc(Payload(r)), 4);
    CorruptRecordIsError(rs, LE(crc(Payload(r)), 4) + changed, rest, crc);
  }

  /**
   The buffer never holds more than 8 KiB; what fits in it leaves the file alone, and what does not sends everything
   buffered before to the file.
   */
  lemma SpilledBounds(file: seq<byte>, buffer: seq<byte>, data: seq<byte>)
    requires |buffer| <= 8192
    ensures var (f, b) := Spilled(file, buffer, data);
            && |b| <= 8192 && f + b == file + buffer + data
            && (|buffer| + |data| <= 8192 && |data| < 8192 ==> f == file)
            && (|buffer| + |data| > 8192 ==> file + buffer <= f)
            && (|data| >= 8192 ==> f == file + buffer + data)
  {
  }
}
