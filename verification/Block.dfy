/** Data blocks with prefix-compressed keys (src/sstable/block.rs). */
module Blocks {
  import opened Bytes
  import opened OrderedMaps

  // ---------------------------------------------------------------------
  // The format as functions
  // ---------------------------------------------------------------------

  /** Length of the longest common prefix. */
  function Shared(a: Key, b: Key): (n: nat)
    ensures n <= |a| && n <= |b| && a[..n] == b[..n]
    ensures n < |a| && n < |b| ==> a[n] != b[n]
  {
    if a == [] || b == [] || a[0] != b[0] then 0
    else
      var n := Shared(a[1..], b[1..]);
      assert a[..n + 1] == [a[0]] + a[1..][..n] && b[..n + 1] == [b[0]] + b[1..][..n];
      n + 1
  }

  function EncodeEntry(prev: Key, e: Entry): (b: seq<byte>)
    ensures |b| == 8 + |e.0| - Shared(prev, e.0) + |e.1|
  {
    var n := Shared(prev, e.0);
    LE(n, 2) + LE(|e.0| - n, 2) + e.0[n..] + LE(|e.1|, 4) + e.1
  }

  function EncodeEntries(prev: Key, es: seq<Entry>): seq<byte>
    decreases |es|
  {
    if es == [] then [] else EncodeEntry(prev, es[0]) + EncodeEntries(es[0].0, es[1..])
  }

  function EncodeBlock(es: seq<Entry>): seq<byte> {
    LE(|es|, 4) + EncodeEntries([], es)
  }

  /** The result of decoding: entries and unread bytes, a corruption error, or an out-of-range slice. */
  datatype Outcome = Done(entries: seq<Entry>, rest: seq<byte>) | Corrupt | Panic

  function DecodeEntry(buf: seq<byte>, prev: Key): (r: Outcome)
    ensures r.Done? ==> |r.entries| == 1 && |r.rest| < |buf|
  {
    if |buf| < 4 then Corrupt
    else
      var n, m := FromLE(buf[..2]), FromLE(buf[2..4]);
      if |buf| < 4 + m then Corrupt
      else if n > |prev| then Panic
      else
        var key := prev[..n] + buf[4..4 + m];
        if |buf| < 8 + m then Corrupt
        else
          var v := FromLE(buf[4 + m..8 + m]);
          if |buf| < 8 + m + v then Corrupt
          else Done([(key, buf[8 + m..8 + m + v])], buf[8 + m + v..])
  }

  function Before(es: seq<Entry>, r: Outcome): Outcome {
    if r.Done? then Done(es + r.entries, r.rest) else r
  }

  function DecodeEntries(buf: seq<byte>, n: nat, prev: Key): Outcome {
    if n == 0 then Done([], buf)
    else
      var r := DecodeEntry(buf, prev);
      if r.Done? then Before(r.entries, DecodeEntries(r.rest, n - 1, r.entries[0].0)) else r
  }

  function DecodeBlock(buf: seq<byte>): Outcome {
    if |buf| < 4 then Corrupt else DecodeEntries(buf[4..], FromLE(buf[..4]), [])
  }

  // ---------------------------------------------------------------------
  // Laws
  // ---------------------------------------------------------------------

  /** Lengths fit the 16-bit and 32-bit fields of an entry. */
  predicate EntryFits(e: Entry) {
    |e.0| < U16 && |e.1| < U32
  }

  predicate EntriesFit(es: seq<Entry>) {
    forall i | 0 <= i < |es| :: EntryFits(es[i])
  }

  /** Where the fields of an encoded entry lie. */
  lemma EntryFields(prev: Key, e: Entry, rest: seq<byte>)
    ensures var n, buf := Shared(prev, e.0), EncodeEntry(prev, e) + rest;
            var m := |e.0| - n;
            && |buf| >= 8 + m + |e.1|
            && buf[..2] == LE(n, 2) && buf[2..4] == LE(m, 2) && buf[4..4 + m] == e.0[n..]
            && buf[4 + m..8 + m] == LE(|e.1|, 4) && buf[8 + m..8 + m + |e.1|] == e.1 && buf[8 + m + |e.1|..] == rest
  {
    var n := Shared(prev, e.0);
    var m := |e.0| - n;
    var a, b, c, d := LE(n, 2), LE(m, 2), e.0[n..], LE(|e.1|, 4);
    var buf := EncodeEntry(prev, e) + rest;
    assert buf == a + b + c + d + e.1 + rest;
    assert buf[2..4] == b;
    assert buf[4..4 + m] == c;
    assert buf[4 + m..8 + m] == d;
    assert buf[8 + m..8 + m + |e.1|] == e.1;
    assert buf[8 + m + |e.1|..] == rest;
  }

  /**
   What decoding an entry comes to, in the order of the checks: a short header or suffix is corrupt, a shared length
   past the previous key is an out-of-range slice, and only then come the checks of the value.
   */
  lemma EntryCases(buf: seq<byte>, prev: Key)
    ensures var n := if |buf| >= 4 then FromLE(buf[..2]) else 0;
            var m := if |buf| >= 4 then FromLE(buf[2..4]) else 0;
            var head := |buf| >= 4 && |buf| >= 4 + m;
            var whole := |buf| >= 8 + m && |buf| >= 8 + m + FromLE(buf[4 + m..8 + m]);
            && (DecodeEntry(buf, prev) == Corrupt <==> !head || (n <= |prev| && !whole))
            && (DecodeEntry(buf, prev) == Panic <==> head && n > |prev|)
            && (head && n <= |prev| && whole ==>
                  var v := FromLE(buf[4 + m..8 + m]);
                  DecodeEntry(buf, prev) ==
                  Done([(prev[..n] + buf[4..4 + m], buf[8 + m..8 + m + v])], buf[8 + m + v..]))
  {
  }

  /** The reconstructed prefix is always within the previous key: no out-of-range slice on encoder output. */
  lemma EntryRoundTrip(prev: Key, e: Entry, rest: seq<byte>)
    requires EntryFits(e)
    ensures DecodeEntry(EncodeEntry(prev, e) + rest, prev) == Done([e], rest)
  {
    var n := Shared(prev, e.0);
    EntryFields(prev, e, rest);
    LERound(n, 2);
    LERound(|e.0| - n, 2);
    LERound(|e.1|, 4);
    assert prev[..n] + e.0[n..] == e.0;
  }

  lemma EntryTorn(prev: Key, e: Entry, k: nat)
    requires EntryFits(e) && k < |EncodeEntry(prev, e)|
    ensures DecodeEntry(EncodeEntry(prev, e)[..k], prev) == Corrupt
  {
    var n, buf := Shared(prev, e.0), EncodeEntry(prev, e);
    var m, cut := |e.0| - n, buf[..k];
    EntryFields(prev, e, []);
    assert buf + [] == buf;
    LERound(n, 2);
    LERound(m, 2);
    LERound(|e.1|, 4);
    if k >= 4 {
      CutSlice(buf, k, 0, 2);
      CutSlice(buf, k, 2, 4);
      assert cut[..2] == buf[..2];
      if k >= 8 + m {
        CutSlice(buf, k, 4 + m, 8 + m);
      }
    }
  }

  /** Decoding one entry more. */
  lemma FirstEntry(prev: Key, es: seq<Entry>, tail: seq<byte>)
    requires EntriesFit(es) && es != []
    ensures DecodeEntries(EncodeEntry(prev, es[0]) + tail, |es|, prev) ==
            Before([es[0]], DecodeEntries(tail, |es| - 1, es[0].0))
  {
    EntryRoundTrip(prev, es[0], tail);
  }

  lemma {:induction false} EntriesRoundTrip(prev: Key, es: seq<Entry>, rest: seq<byte>)
    requires EntriesFit(es)
    ensures DecodeEntries(EncodeEntries(prev, es) + rest, |es|, prev) == Done(es, rest)
    decreases |es|
  {
    if es == [] {
      assert [] + rest == rest;
    } else {
      var tail := EncodeEntries(es[0].0, es[1..]) + rest;
      assert EncodeEntries(prev, es) + rest == EncodeEntry(prev, es[0]) + tail;
      FirstEntry(prev, es, tail);
      EntriesRoundTrip(es[0].0, es[1..], rest);
      assert [es[0]] + es[1..] == es;
    }
  }

  lemma FirstTorn(prev: Key, es: seq<Entry>, k: nat)
    requires EntriesFit(es) && es != [] && k < |EncodeEntry(prev, es[0])|
    ensures DecodeEntries(EncodeEntry(prev, es[0])[..k], |es|, prev) == Corrupt
  {
    EntryTorn(prev, es[0], k);
  }

  lemma TailFits(es: seq<Entry>)
    requires EntriesFit(es) && es != []
    ensures EntriesFit(es[1..])
  {
  }

  lemma EncodedFirst(prev: Key, es: seq<Entry>, whole: seq<byte>)
    requires whole == EncodeEntries(prev, es) && whole != []
    ensures es != [] && whole == EncodeEntry(prev, es[0]) + EncodeEntries(es[0].0, es[1..])
  {
  }

  lemma {:induction false} EntriesTorn(prev: Key, es: seq<Entry>, whole: seq<byte>, k: nat)
    requires EntriesFit(es) && whole == EncodeEntries(prev, es) && k < |whole|
    ensures DecodeEntries(whole[..k], |es|, prev) == Corrupt
    decreases |es|
  {
    EncodedFirst(prev, es, whole);
    var first, tail := EncodeEntry(prev, es[0]), EncodeEntries(es[0].0, es[1..]);
    if k >= |first| {
      TailFits(es);
      EntriesTorn(es[0].0, es[1..], tail, k - |first|);
      TornLater(prev, es, first, tail, whole, k, tail[..k - |first|], |es[1..]|);
    } else {
      CutInFirst(first, tail, k);
      FirstTorn(prev, es, k);
    }
  }

  /** A block torn after its first entry. */
  lemma TornLater(prev: Key, es: seq<Entry>, first: seq<byte>, tail: seq<byte>, whole: seq<byte>, k: nat,
                  cut: seq<byte>, n: nat)
    requires EntriesFit(es) && es != [] && first == EncodeEntry(prev, es[0]) && whole == first + tail
    requires |first| <= k <= |whole|
    requires cut == tail[..k - |first|] && n == |es| - 1 && DecodeEntries(cut, n, es[0].0) == Corrupt
    ensures DecodeEntries(whole[..k], |es|, prev) == Corrupt
  {
    CutInTail(first, tail, k);
    FirstEntry(prev, es, cut);
  }

  /** Encoded blocks are read back, sorted or not, and trailing bytes are ignored. */
  lemma BlockRoundTrip(es: seq<Entry>, rest: seq<byte>)
    requires EntriesFit(es) && |es| < U32
    ensures DecodeBlock(EncodeBlock(es) + rest) == Done(es, rest)
  {
    var buf := EncodeBlock(es) + rest;
    assert buf[..4] == LE(|es|, 4);
    assert buf[4..] == EncodeEntries([], es) + rest;
    LERound(|es|, 4);
    EntriesRoundTrip([], es, rest);
  }

  /** Every proper prefix of an encoded block is rejected as corrupt. */
  lemma TornBlockRejected(es: seq<Entry>, k: nat)
    requires EntriesFit(es) && |es| < U32 && k < |EncodeBlock(es)|
    ensures DecodeBlock(EncodeBlock(es)[..k]) == Corrupt
  {
    var buf := EncodeBlock(es);
    if k >= 4 {
      assert buf[..k][..4] == LE(|es|, 4);
      assert buf[..k][4..] == EncodeEntries([], es)[..k - 4];
      LERound(|es|, 4);
      EntriesTorn([], es, EncodeEntries([], es), k - 4);
    }
  }

  /** A block byte for byte: the second key shares one byte with the first. */
  lemma KnownBlock()
    ensures EncodeBlock([([1, 2], [9]), ([1, 3], [8])]) ==
            [2, 0, 0, 0] + [0, 0, 2, 0, 1, 2, 1, 0, 0, 0, 9] + [1, 0, 1, 0, 3, 1, 0, 0, 0, 8]
  {
    var e, f: Entry := ([1, 2], [9]), ([1, 3], [8]);
    LittleEndian(0);
    LittleEndian(1);
    LittleEndian(2);
    assert EncodeEntry([], e) == [0, 0, 2, 0, 1, 2, 1, 0, 0, 0, 9];
    assert Shared([1, 2], [1, 3]) == 1;
    assert f.0[1..] == [3];
    assert EncodeEntry([1, 2], f) == [1, 0, 1, 0, 3, 1, 0, 0, 0, 8];
    assert [e, f][1..] == [f];
    assert EncodeEntries([1, 2], [f]) == EncodeEntry([1, 2], f) + [];
    assert EncodeEntries([], [e, f]) == EncodeEntry([], e) + EncodeEntries([1, 2], [f]);
  }

  /** What `add` counts: header, key and value of every entry, as if nothing were shared. */
  function RawSize(es: seq<Entry>): nat {
    if es == [] then 0 else RawSize(es[..|es| - 1]) + 8 + |es[|es| - 1].0| + |es[|es| - 1].1|
  }

  /** The bytes that prefix compression saves. */
  function SavedBytes(prev: Key, es: seq<Entry>): nat
    decreases |es|
  {
    if es == [] then 0 else Shared(prev, es[0].0) + SavedBytes(es[0].0, es[1..])
  }

  lemma {:induction false} RawSizeFront(es: seq<Entry>)
    requires es != []
    ensures RawSize(es) == 8 + |es[0].0| + |es[0].1| + RawSize(es[1..])
  {
    if |es| > 1 {
      RawSizeFront(es[..|es| - 1]);
      assert es[1..][..|es| - 2] == es[..|es| - 1][1..];
    }
  }

  lemma {:induction false} EntriesSize(prev: Key, es: seq<Entry>)
    ensures |EncodeEntries(prev, es)| + SavedBytes(prev, es) == RawSize(es)
    decreases |es|
  {
    if es != [] {
      EntriesSize(es[0].0, es[1..]);
      RawSizeFront(es);
    }
  }

  /**
   The size that `add` accumulates is not the encoded length: the block count's four bytes are missing
   and the shared prefixes are counted. The two agree exactly when compression saves four bytes.
   */
  lemma EstimateIff(es: seq<Entry>)
    ensures |EncodeBlock(es)| + SavedBytes([], es) == 4 + RawSize(es)
    ensures |EncodeBlock(es)| == RawSize(es) <==> SavedBytes([], es) == 4
  {
    EntriesSize([], es);
  }

  // ---------------------------------------------------------------------
  // The block object
  // ---------------------------------------------------------------------

  /** A decoded block as a value: its entries and its size for the cache. */
  datatype BlockData = BlockData(entries: seq<Entry>, size: nat)

  datatype Decoded = Good(block: BlockData) | Bad | Crash

  /** What decoding bytes amounts to. */
  function DecodedOf(buf: seq<byte>): Decoded {
    match DecodeBlock(buf)
    case Done(es, rest) => if |buf| >= 4 + |rest| then Good(BlockData(es, |buf| - |rest| - 4)) else Bad
    case Corrupt => Bad
    case Panic => Crash
  }

  class Block {
    var entries: seq<Entry>
    var encodedSize: nat

    constructor ()
      ensures entries == [] && encodedSize == 0
    {
      entries, encodedSize := [], 0;
    }

    ghost predicate Valid()
      reads this
    {
      encodedSize == RawSize(entries)
    }

    method Add(key: Key, value: Value)
      requires Valid()
      modifies this
      ensures Valid() && entries == old(entries) + [(key, value)]
    {
      encodedSize := encodedSize + 8 + |key| + |value|;
      entries := entries + [(key, value)];
    }

    method Encode() returns (buf: seq<byte>)
      ensures buf == EncodeBlock(entries)
    {
      buf := LE(|entries|, 4);
      var prevKey: Key := [];
      for i := 0 to |entries|
        invariant EncodeBlock(entries) == buf + EncodeEntries(prevKey, entries[i..])
      {
        EncodeStep(buf, prevKey, entries, i);
        var (key, value) := entries[i];
        var shared := Shared(prevKey, key);
        var suffix := key[shared..];
        buf := buf + (LE(shared, 2) + LE(|suffix|, 2) + suffix + LE(|value|, 4) + value);
        prevKey := key;
      }
    }
  }

  lemma EncodeStep(buf: seq<byte>, prev: Key, es: seq<Entry>, i: nat)
    requires i < |es|
    ensures buf + EncodeEntries(prev, es[i..]) == buf + EncodeEntry(prev, es[i]) + EncodeEntries(es[i].0, es[i + 1..])
  {
    assert es[i..][1..] == es[i + 1..];
  }

  lemma BeforeStep(es: seq<Entry>, e: Entry, r: Outcome)
    ensures Before(es, Before([e], r)) == Before(es + [e], r)
  {
    if r.Done? {
      assert es + ([e] + r.entries) == es + [e] + r.entries;
    }
  }

  lemma BeforeNone(r: Outcome)
    ensures Before([], r) == r
  {
    if r.Done? {
      assert [] + r.entries == r.entries;
    }
  }

  datatype Step = Next(key: Key, value: Value, offset: nat) | Failed(why: Decoded)

  /** Decode the entry at `offset`. */
  method DecodeOne(buf: seq<byte>, offset: nat, prevKey: Key) returns (r: Step)
    requires offset <= |buf|
    ensures match r
            case Next(k, v, o) =>
              offset < o <= |buf| && DecodeEntry(buf[offset..], prevKey) == Done([(k, v)], buf[o..])
            case Failed(why) =>
              (why == Bad && DecodeEntry(buf[offset..], prevKey) == Corrupt) ||
              (why == Crash && DecodeEntry(buf[offset..], prevKey) == Panic)
  {
    ghost var rest := buf[offset..];
    if |buf| < offset + 4 {
      return Failed(Bad);
    }
    var shared := FromLE(buf[offset..offset + 2]);
    var suffixLen := FromLE(buf[offset + 2..offset + 4]);
    assert rest[..2] == buf[offset..offset + 2] && rest[2..4] == buf[offset + 2..offset + 4];
    var pos := offset + 4;
    if |buf| < pos + suffixLen {
      return Failed(Bad);
    }
    if shared > |prevKey| {
      return Failed(Crash);
    }
    var key := prevKey[..shared] + buf[pos..pos + suffixLen];
    assert rest[4..4 + suffixLen] == buf[pos..pos + suffixLen];
    pos := pos + suffixLen;
    if |buf| < pos + 4 {
      return Failed(Bad);
    }
    var valueLen := FromLE(buf[pos..pos + 4]);
    assert rest[4 + suffixLen..8 + suffixLen] == buf[pos..pos + 4];
    pos := pos + 4;
    if |buf| < pos + valueLen {
      return Failed(Bad);
    }
    var value := buf[pos..pos + valueLen];
    assert rest[8 + suffixLen..8 + suffixLen + valueLen] == value;
    assert rest[8 + suffixLen + valueLen..] == buf[pos + valueLen..];
    r := Next(key, value, pos + valueLen);
  }

  /** Decode a block from its bytes. */
  method DecodeBytes(buf: seq<byte>) returns (r: Decoded)
    ensures r == DecodedOf(buf)
  {
    if |buf| < 4 {
      return Bad;
    }
    var n := FromLE(buf[..4]);
    var entries: seq<Entry> := [];
    var offset := 4;
    var prevKey: Key := [];
    ghost var whole := DecodeBlock(buf);
    BeforeNone(whole);
    for i := 0 to n
      invariant 4 <= offset <= |buf|
      invariant whole == Before(entries, DecodeEntries(buf[offset..], n - i, prevKey))
    {
      var step := DecodeOne(buf, offset, prevKey);
      match step
      case Failed(why) =>
        OneFailed(buf, whole, entries, buf[offset..], n - i, prevKey, why);
        return why;
      case Next(key, value, next) =>
        OneDecoded(whole, entries, buf[offset..], n - i, prevKey, (key, value), buf[next..]);
        offset, prevKey := next, key;
        entries := entries + [(key, value)];
    }
    AllDecoded(buf, whole, entries, offset);
    r := Good(BlockData(entries, offset - 4));
  }

  lemma OneDecoded(whole: Outcome, es: seq<Entry>, buf: seq<byte>, n: nat, prev: Key, e: Entry, rest: seq<byte>)
    requires n > 0 && DecodeEntry(buf, prev) == Done([e], rest) && whole == Before(es, DecodeEntries(buf, n, prev))
    ensures whole == Before(es + [e], DecodeEntries(rest, n - 1, e.0))
  {
    BeforeStep(es, e, DecodeEntries(rest, n - 1, e.0));
  }

  lemma OneFailed(all: seq<byte>, whole: Outcome, es: seq<Entry>, buf: seq<byte>, n: nat, prev: Key, why: Decoded)
    requires n > 0 && whole == Before(es, DecodeEntries(buf, n, prev)) && whole == DecodeBlock(all)
    requires (why == Bad && DecodeEntry(buf, prev) == Corrupt) || (why == Crash && DecodeEntry(buf, prev) == Panic)
    ensures DecodedOf(all) == why
  {
    assert DecodeEntries(buf, n, prev) == DecodeEntry(buf, prev);
  }

  lemma AllDecoded(all: seq<byte>, whole: Outcome, es: seq<Entry>, offset: nat)
    requires 4 <= offset <= |all| && whole == DecodeBlock(all) && whole == Before(es, Done([], all[offset..]))
    ensures DecodedOf(all) == Good(BlockData(es, offset - 4))
  {
    assert es + [] == es;
  }
}
