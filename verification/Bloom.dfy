/** Bloom filters (src/filter/bloom.rs): double hashing over a bit array of 64-bit words. */
module Bloom {
  import opened Bytes

  // ---------------------------------------------------------------------
  // Bits of unsigned words
  // ---------------------------------------------------------------------

  /** `w & (1 << p) != 0` */
  predicate Bit(w: nat, p: nat) {
    if p == 0 then w % 2 == 1 else Bit(w / 2, p - 1)
  }

  /** `w | (1 << p)` */
  function SetBit(w: nat, p: nat): nat {
    if p == 0 then w / 2 * 2 + 1 else SetBit(w / 2, p - 1) * 2 + w % 2
  }

  /** Bitwise exclusive or. */
  function Xor(a: nat, b: nat): nat {
    if a == 0 && b == 0 then 0 else (a % 2 + b % 2) % 2 + 2 * Xor(a / 2, b / 2)
  }

  lemma {:induction false} SetBitSets(w: nat, p: nat, q: nat)
    ensures Bit(SetBit(w, p), q) <==> p == q || Bit(w, q)
  {
    var s := SetBit(w, p);
    if p == 0 {
      assert s / 2 == w / 2 && s % 2 == 1;
    } else {
      assert s / 2 == SetBit(w / 2, p - 1) && s % 2 == w % 2;
      if q > 0 {
        SetBitSets(w / 2, p - 1, q - 1);
      }
    }
  }

  function Pow2(n: nat): nat {
    if n == 0 then 1 else 2 * Pow2(n - 1)
  }

  lemma {:induction false} SetBitBound(w: nat, p: nat, n: nat)
    requires p < n && w < Pow2(n)
    ensures SetBit(w, p) < Pow2(n)
  {
    var half := Pow2(n - 1);
    assert Pow2(n) == 2 * half;
    assert w / 2 < half;
    if p > 0 {
      SetBitBound(w / 2, p - 1, n - 1);
    }
  }

  lemma Pow2Word()
    ensures Pow2(64) == U64
  {
    assert Pow2(4) == 16;
    Pow2Sum(4, 4);
    Pow2Sum(8, 8);
    Pow2Sum(16, 16);
    Pow2Sum(32, 32);
  }

  lemma {:induction false} Pow2Sum(a: nat, b: nat)
    ensures Pow2(a + b) == Pow2(a) * Pow2(b)
  {
    if b > 0 {
      Pow2Sum(a, b - 1);
      assert Pow2(a + b) == 2 * Pow2(a + (b - 1));
    }
  }

  /** Setting a bit of a 64-bit word. */
  function SetWordBit(w: u64, p: nat): (r: u64)
    requires p < 64
    ensures r == SetBit(w, p)
  {
    Pow2Word();
    SetBitBound(w, p, 64);
    SetBit(w, p)
  }

  lemma {:induction false} NoBits(p: nat)
    ensures !Bit(0, p)
  {
    if p > 0 {
      NoBits(p - 1);
    }
  }

  predicate BitAt(bits: seq<u64>, p: nat)
    requires p < 64 * |bits|
  {
    Bit(bits[p / 64], p % 64)
  }

  // ---------------------------------------------------------------------
  // Hashing
  // ---------------------------------------------------------------------

  const FNV_OFFSET: u32 := 0x811c_9dc5
  const FNV_PRIME: u32 := 0x0100_0193
  const SECOND_SEED: u32 := 0x801c_9c56   // exclusive or of the two

  /** One FNV-1a step; multiplication wraps at 32 bits. */
  function Mix(h: u32, b: byte): u32 {
    (Xor(h, b as nat) * FNV_PRIME) % U32
  }

  function FnvFrom(key: Key, h: u32): u32
    decreases |key|
  {
    if key == [] then h else FnvFrom(key[1..], Mix(h, key[0]))
  }

  method Fnv1aWithSeed(key: Key, seed: u32) returns (h: u32)
    ensures h == FnvFrom(key, seed)
  {
    h := seed;
    for i := 0 to |key|
      invariant FnvFrom(key, seed) == FnvFrom(key[i..], h)
    {
      h := Mix(h, key[i]);
      assert key[i..][1..] == key[i + 1..];
    }
  }

  /** The two hashes; the second is made odd. */
  method DoubleHash(key: Key) returns (h1: u32, h2: u32)
    ensures h1 == Hash1(key) && h2 == Hash2(key)
  {
    h1 := Fnv1aWithSeed(key, FNV_OFFSET);
    h2 := Fnv1aWithSeed(key, SECOND_SEED);
    h2 := (h2 * 2 + 1) % U32;
  }

  function Hash1(key: Key): u32 {
    FnvFrom(key, FNV_OFFSET)
  }

  function Hash2(key: Key): u32 {
    (FnvFrom(key, SECOND_SEED) * 2 + 1) % U32
  }

  /** The `i`-th probe, wrapping at 32 bits, cut down to the number of bits. */
  function Probe(h1: u32, h2: u32, i: nat, numBits: nat): (p: nat)
    requires numBits > 0
    ensures p < numBits
  {
    (h1 + i * h2) % U32 % numBits
  }

  /** The `i`-th bit position of a key. */
  function Position(key: Key, i: nat, numBits: nat): (p: nat)
    requires numBits > 0
    ensures p < numBits
  {
    Probe(Hash1(key), Hash2(key), i, numBits)
  }

  // ---------------------------------------------------------------------
  // The filter
  // ---------------------------------------------------------------------

  datatype BloomFilter = BloomFilter(bits: seq<u64>, numHashes: nat, numBits: nat)

  predicate Sound(f: BloomFilter) {
    0 < f.numBits <= 64 * |f.bits|
  }

  /** The key's first `n` positions are all set. */
  predicate Marked(f: BloomFilter, key: Key, n: nat)
    requires Sound(f) && n <= f.numHashes
  {
    forall i | 0 <= i < n :: BitAt(f.bits, Position(key, i, f.numBits))
  }

  /** Every position is within the bit array. */
  predicate InRange(f: BloomFilter) {
    f.numBits <= 64 * |f.bits|
  }

  predicate MayContain(f: BloomFilter, key: Key)
    requires InRange(f)
  {
    f.numBits > 0 && Marked(f, key, f.numHashes)
  }

  /** The positions that the keys' hashes mark. */
  ghost predicate Hit(keys: seq<Key>, numHashes: nat, numBits: nat, p: nat)
    requires numBits > 0
  {
    exists k, i | 0 <= k < |keys| && 0 <= i < numHashes :: Position(keys[k], i, numBits) == p
  }

  /** The bit array marks exactly the positions of the keys. */
  ghost predicate Marks(f: BloomFilter, keys: seq<Key>)
    requires Sound(f)
  {
    forall p: nat | p < 64 * |f.bits| :: BitAt(f.bits, p) <==> Hit(keys, f.numHashes, f.numBits, p)
  }

  /** No false negatives. */
  lemma InsertedIsFound(f: BloomFilter, keys: seq<Key>, k: nat)
    requires Sound(f) && Marks(f, keys) && k < |keys|
    ensures MayContain(f, keys[k])
  {
    forall i | 0 <= i < f.numHashes ensures BitAt(f.bits, Position(keys[k], i, f.numBits)) {
      assert Hit(keys, f.numHashes, f.numBits, Position(keys[k], i, f.numBits));
    }
  }

  /** The empty filter contains nothing. */
  lemma EmptyContainsNothing(f: BloomFilter, key: Key)
    requires Sound(f) && f.numHashes >= 1 && Marks(f, [])
    ensures !MayContain(f, key)
  {
    assert BitAt(f.bits, Position(key, 0, f.numBits)) <==> Hit([], f.numHashes, f.numBits, Position(key, 0, f.numBits));
  }

  function NumBits(n: nat, bitsPerKey: nat): nat {
    if n * bitsPerKey > 64 then n * bitsPerKey else 64
  }

  /** Set one bit of the array. */
  method Mark(bits: array<u64>, p: nat)
    requires p < 64 * bits.Length
    modifies bits
    ensures MarkedAt(old(bits[..]), bits[..], p)
  {
    ghost var before := bits[..];
    bits[p / 64] := SetWordBit(bits[p / 64], p % 64);
    forall q: nat | q < 64 * bits.Length ensures BitAt(bits[..], q) <==> q == p || BitAt(before, q) {
      SetBitSets(before[p / 64], p % 64, q % 64);
      assert bits[..][q / 64] == if q / 64 == p / 64 then SetWordBit(before[p / 64], p % 64) else before[q / 64];
      assert q == q / 64 * 64 + q % 64 && p == p / 64 * 64 + p % 64;
    }
  }

  /** Positions marked once the first `k` keys and `i` hashes of the next one are done. */
  ghost predicate HitSoFar(keys: seq<Key>, k: nat, i: nat, numHashes: nat, numBits: nat, p: nat)
    requires k < |keys| && i <= numHashes && numBits > 0
  {
    Hit(keys[..k], numHashes, numBits, p) || exists j | 0 <= j < i :: Position(keys[k], j, numBits) == p
  }

  method Build(keys: seq<Key>, bitsPerKey: nat, numHashes: nat) returns (f: BloomFilter)
    requires 1 <= numHashes <= 30
    ensures Sound(f) && Marks(f, keys)
    ensures f.numHashes == numHashes && f.numBits == NumBits(|keys|, bitsPerKey) && |f.bits| == (f.numBits + 63) / 64
  {
    var numBits := NumBits(|keys|, bitsPerKey);
    var numWords := (numBits + 63) / 64;
    var bits := new u64[numWords](_ => 0);
    forall p: nat | p < 64 * numWords ensures !BitAt(bits[..], p) {
      NoBits(p % 64);
      assert bits[..][p / 64] == 0;
    }
    for k := 0 to |keys|
      invariant forall p: nat | p < 64 * numWords :: BitAt(bits[..], p) <==> Hit(keys[..k], numHashes, numBits, p)
    {
      MarkKey(bits, keys, k, numHashes, numBits);
      KeyMarked(bits[..], keys, k, numHashes, numBits);
    }
    assert keys[..|keys|] == keys;
    f := BloomFilter(bits[..], numHashes, numBits);
  }

  /** The array marks what the first `k` keys and the first `i` hashes of the next one hit. */
  ghost predicate MarksSoFar(bits: seq<u64>, keys: seq<Key>, k: nat, i: nat, numHashes: nat, numBits: nat)
    requires k < |keys| && i <= numHashes && numBits > 0
  {
    forall p: nat | p < 64 * |bits| :: BitAt(bits, p) <==> HitSoFar(keys, k, i, numHashes, numBits, p)
  }

  ghost predicate MarkedAt(before: seq<u64>, after: seq<u64>, p: nat) {
    && |after| == |before|
    && forall q: nat | q < 64 * |before| :: BitAt(after, q) <==> q == p || BitAt(before, q)
  }

  lemma MarkStep(before: seq<u64>, after: seq<u64>, keys: seq<Key>, k: nat, i: nat, numHashes: nat, numBits: nat)
    requires k < |keys| && i < numHashes && numBits > 0
    requires MarksSoFar(before, keys, k, i, numHashes, numBits)
    requires MarkedAt(before, after, Position(keys[k], i, numBits))
    ensures MarksSoFar(after, keys, k, i + 1, numHashes, numBits)
  {
    forall p: nat | p < 64 * |after| ensures BitAt(after, p) <==> HitSoFar(keys, k, i + 1, numHashes, numBits, p) {
      assert BitAt(after, p) <==> p == Position(keys[k], i, numBits) || BitAt(before, p);
    }
  }

  lemma KeyMarked(bits: seq<u64>, keys: seq<Key>, k: nat, numHashes: nat, numBits: nat)
    requires k < |keys| && numBits > 0 && MarksSoFar(bits, keys, k, numHashes, numHashes, numBits)
    ensures forall p: nat | p < 64 * |bits| :: BitAt(bits, p) <==> Hit(keys[..k + 1], numHashes, numBits, p)
  {
    KeyDone(keys, k, numHashes, numBits);
    forall p: nat | p < 64 * |bits| ensures BitAt(bits, p) <==> Hit(keys[..k + 1], numHashes, numBits, p) {
      assert BitAt(bits, p) <==> HitSoFar(keys, k, numHashes, numHashes, numBits, p);
    }
  }

  /** Mark the positions of key `k`. */
  method MarkKey(bits: array<u64>, keys: seq<Key>, k: nat, numHashes: nat, numBits: nat)
    requires k < |keys| && 0 < numBits <= 64 * bits.Length
    requires MarksSoFar(bits[..], keys, k, 0, numHashes, numBits)
    modifies bits
    ensures MarksSoFar(bits[..], keys, k, numHashes, numHashes, numBits)
  {
    var h1, h2 := DoubleHash(keys[k]);
    for i := 0 to numHashes
      invariant MarksSoFar(bits[..], keys, k, i, numHashes, numBits)
    {
      ghost var before := bits[..];
      var pos := Probe(h1, h2, i, numBits);
      Mark(bits, pos);
      MarkStep(before, bits[..], keys, k, i, numHashes, numBits);
    }
  }

  lemma KeyDone(keys: seq<Key>, k: nat, numHashes: nat, numBits: nat)
    requires k < |keys| && numBits > 0
    ensures forall p: nat :: HitSoFar(keys, k, numHashes, numHashes, numBits, p) <==>
            Hit(keys[..k + 1], numHashes, numBits, p)
  {
    forall p: nat
      ensures HitSoFar(keys, k, numHashes, numHashes, numBits, p) <==> Hit(keys[..k + 1], numHashes, numBits, p)
    {
      if Hit(keys[..k], numHashes, numBits, p) {
        var a, i :| 0 <= a < |keys[..k]| && 0 <= i < numHashes && Position(keys[..k][a], i, numBits) == p;
        assert keys[..k + 1][a] == keys[..k][a];
      }
      if j :| 0 <= j < numHashes && Position(keys[k], j, numBits) == p {
        assert keys[..k + 1][k] == keys[k];
      }
      if Hit(keys[..k + 1], numHashes, numBits, p) {
        var a, i :| 0 <= a < |keys[..k + 1]| && 0 <= i < numHashes && Position(keys[..k + 1][a], i, numBits) == p;
        if a < k { assert keys[..k][a] == keys[..k + 1][a]; }
      }
    }
  }

  /** The outcome of a membership test: a filter read from damaged bytes may send it out of its bit array. */
  datatype Tested = Maybe | Absent | OutOfRange

  /** The test from hash `i` on. */
  function TestFrom(f: BloomFilter, key: Key, i: nat): Tested
    requires f.numBits > 0 && i <= f.numHashes
    decreases f.numHashes - i
  {
    if i == f.numHashes then Maybe
    else
      var p := Position(key, i, f.numBits);
      if p / 64 >= |f.bits| then OutOfRange
      else if Bit(f.bits[p / 64], p % 64) then TestFrom(f, key, i + 1)
      else Absent
  }

  function TestOf(f: BloomFilter, key: Key): Tested {
    if f.numBits == 0 then Absent else TestFrom(f, key, 0)
  }

  lemma {:induction false} TestFromMarked(f: BloomFilter, key: Key, i: nat)
    requires Sound(f) && i <= f.numHashes && Marked(f, key, i)
    ensures TestFrom(f, key, i) == if Marked(f, key, f.numHashes) then Maybe else Absent
    decreases f.numHashes - i
  {
    if i < f.numHashes {
      assert Bit(f.bits[Position(key, i, f.numBits) / 64], Position(key, i, f.numBits) % 64)
             <==> BitAt(f.bits, Position(key, i, f.numBits));
      if BitAt(f.bits, Position(key, i, f.numBits)) {
        TestFromMarked(f, key, i + 1);
      }
    }
  }

  /** On a filter whose bit count fits its words the test decides membership and stays in range. */
  lemma TestDecides(f: BloomFilter, key: Key)
    requires InRange(f)
    ensures TestOf(f, key) == if MayContain(f, key) then Maybe else Absent
  {
    if f.numBits > 0 {
      TestFromMarked(f, key, 0);
    }
  }

  /** The membership test, one hash at a time. */
  method Test(f: BloomFilter, key: Key) returns (r: Tested)
    ensures r == TestOf(f, key)
    ensures InRange(f) ==> r == if MayContain(f, key) then Maybe else Absent
  {
    if InRange(f) {
      TestDecides(f, key);
    }
    if f.numBits == 0 {
      return Absent;
    }
    var h1, h2 := DoubleHash(key);
    for i := 0 to f.numHashes
      invariant TestOf(f, key) == TestFrom(f, key, i)
    {
      var pos := Probe(h1, h2, i, f.numBits);
      if pos / 64 >= |f.bits| {
        return OutOfRange;
      }
      if !Bit(f.bits[pos / 64], pos % 64) {
        return Absent;
      }
    }
    return Maybe;
  }

  // ---------------------------------------------------------------------
  // The byte format
  // ---------------------------------------------------------------------

  function EncodeWords(ws: seq<u64>): (b: seq<byte>)
    ensures |b| == 8 * |ws|
  {
    if ws == [] then [] else LE(ws[0], 8) + EncodeWords(ws[1..])
  }

  function EncodeFilter(f: BloomFilter): (b: seq<byte>)
    ensures |b| == 12 + 8 * |f.bits|
  {
    LE(f.numHashes, 4) + LE(f.numBits, 4) + LE(|f.bits|, 4) + EncodeWords(f.bits)
  }

  function Word(b: seq<byte>): u64
    requires |b| == 8
  {
    FromLERange(b);
    Pow256Values();
    FromLE(b)
  }

  function DecodeWords(b: seq<byte>, n: nat): seq<u64>
    requires |b| >= 8 * n
  {
    if n == 0 then [] else [Word(b[..8])] + DecodeWords(b[8..], n - 1)
  }

  function DecodeFilter(data: seq<byte>): Option<BloomFilter> {
    if |data| < 12 then None
    else
      var n := FromLE(data[8..12]);
      if |data| < 12 + n * 8 then None
      else Some(BloomFilter(DecodeWords(data[12..], n), FromLE(data[..4]), FromLE(data[4..8])))
  }

  lemma WordRoundTrip(w: u64)
    ensures Word(LE(w, 8)) == w
  {
    Pow256Values();
    LERoundTrip(w, 8);
  }

  lemma {:induction false} WordsRoundTrip(ws: seq<u64>, rest: seq<byte>)
    ensures DecodeWords(EncodeWords(ws) + rest, |ws|) == ws
  {
    if ws != [] {
      var first, tail := LE(ws[0], 8), EncodeWords(ws[1..]) + rest;
      assert EncodeWords(ws) + rest == first + tail;
      assert (first + tail)[..8] == first && (first + tail)[8..] == tail;
      WordRoundTrip(ws[0]);
      WordsRoundTrip(ws[1..], rest);
    }
  }

  /** A filter survives its byte format; so do its answers. */
  lemma FilterRoundTrip(f: BloomFilter, rest: seq<byte>)
    requires f.numHashes < U32 && f.numBits < U32 && |f.bits| < U32
    ensures DecodeFilter(EncodeFilter(f) + rest) == Some(f)
  {
    var data := EncodeFilter(f) + rest;
    var a, b, c := LE(f.numHashes, 4), LE(f.numBits, 4), LE(|f.bits|, 4);
    assert data == a + b + c + (EncodeWords(f.bits) + rest);
    assert data[..4] == a && data[4..8] == b && data[8..12] == c && data[12..] == EncodeWords(f.bits) + rest;
    Pow256Values();
    LERoundTrip(f.numHashes, 4);
    LERoundTrip(f.numBits, 4);
    LERoundTrip(|f.bits|, 4);
    WordsRoundTrip(f.bits, rest);
  }

  method Encode(f: BloomFilter) returns (buf: seq<byte>)
    ensures buf == EncodeFilter(f)
  {
    buf := LE(f.numHashes, 4) + LE(f.numBits, 4) + LE(|f.bits|, 4);
    for i := 0 to |f.bits|
      invariant EncodeFilter(f) == buf + EncodeWords(f.bits[i..])
    {
      buf := buf + LE(f.bits[i], 8);
      assert f.bits[i..][1..] == f.bits[i + 1..];
    }
  }

  method Decode(data: seq<byte>) returns (r: Option<BloomFilter>)
    ensures r == DecodeFilter(data)
  {
    if |data| < 12 {
      return None;
    }
    var numHashes, numBits, numWords := FromLE(data[..4]), FromLE(data[4..8]), FromLE(data[8..12]);
    if |data| < 12 + numWords * 8 {
      return None;
    }
    var bits: seq<u64> := [];
    for i := 0 to numWords
      invariant bits + DecodeWords(data[12 + i * 8..], numWords - i) == DecodeWords(data[12..], numWords)
    {
      var offset := 12 + i * 8;
      ghost var rest := data[offset..];
      assert rest[..8] == data[offset..offset + 8] && rest[8..] == data[offset + 8..];
      bits := bits + [Word(data[offset..offset + 8])];
    }
    assert bits == bits + DecodeWords(data[12 + numWords * 8..], 0);
    r := Some(BloomFilter(bits, numHashes, numBits));
  }

  // ---------------------------------------------------------------------
  // Known values
  // ---------------------------------------------------------------------

  /** Exclusive or, bit by bit. */
  lemma {:induction false} XorBits(a: nat, b: nat, p: nat)
    ensures Bit(Xor(a, b), p) <==> Bit(a, p) != Bit(b, p)
  {
    if a == 0 && b == 0 {
      NoBits(p);
    } else {
      assert Xor(a, b) % 2 == (a % 2 + b % 2) % 2 && Xor(a, b) / 2 == Xor(a / 2, b / 2);
      if p > 0 {
        XorBits(a / 2, b / 2, p - 1);
      }
    }
  }

  lemma {:induction false} XorZero(a: nat)
    ensures Xor(a, 0) == a
  {
    if a > 0 {
      XorZero(a / 2);
    }
  }

  /** Exclusive or, one bit at a time. */
  lemma XorPush(a: nat, b: nat, x: nat, y: nat)
    requires x < 2 && y < 2
    ensures Xor(2 * a + x, 2 * b + y) == (x + y) % 2 + 2 * Xor(a, b)
  {
  }

  /** One hashed letter, from any seed. */
  lemma HashLetter(key: Key, h: u32)
    requires key == [97]
    ensures FnvFrom(key, h) == Xor(h, 97) * 0x0100_0193 % 0x1_0000_0000
  {
    assert key[1..] == [];
  }

  /** Exclusive or of the first seed and the letter. */
  lemma FirstBits(h: nat, b: nat)
    requires h == 0x811c_9dc5 && b == 97
    ensures Xor(h, b) == 0x811c_9da4
  {
    XorZero(0x102393b);
    XorPush(0x102393b, 0, 1, 1);
    XorPush(0x2047277, 1, 0, 1);
    XorPush(0x408e4ee, 3, 0, 0);
    XorPush(0x811c9dc, 6, 0, 0);
    XorPush(0x102393b8, 12, 1, 0);
    XorPush(0x20472771, 24, 0, 0);
    XorPush(0x408e4ee2, 48, 1, 1);
  }

  lemma SecondBits(h: nat, b: nat)
    requires h == 0x801c_9c56 && b == 97
    ensures Xor(h, b) == 0x801c_9c37
  {
    XorZero(0x1003938);
    XorPush(0x1003938, 0, 1, 1);
    XorPush(0x2007271, 1, 0, 1);
    XorPush(0x400e4e2, 3, 1, 0);
    XorPush(0x801c9c5, 6, 0, 0);
    XorPush(0x1003938a, 12, 1, 0);
    XorPush(0x20072715, 24, 1, 0);
    XorPush(0x400e4e2b, 48, 0, 1);
  }

  lemma FirstProduct()
    ensures 0x811c_9da4 * 0x0100_0193 % 0x1_0000_0000 == 0xe40c_292c
  {
    assert 0x811c_9da4 * 0x0100_0193 == 8461672 * 0x1_0000_0000 + 0xe40c_292c;
  }

  lemma SecondProduct()
    ensures 0x801c_9c37 * 0x0100_0193 % 0x1_0000_0000 == 3825855125
  {
    assert 0x801c_9c37 * 0x0100_0193 == 8396133 * 0x1_0000_0000 + 3825855125;
  }

  lemma FirstHash(key: Key, h: u32)
    requires key == [97] && h == 0x811c_9dc5
    ensures FnvFrom(key, h) == 0xe40c_292c
  {
    HashLetter(key, h);
    FirstBits(h, 97);
    FirstProduct();
  }

  lemma SecondHash(key: Key, h: u32)
    requires key == [97] && h == 0x801c_9c56
    ensures FnvFrom(key, h) == 3825855125
  {
    HashLetter(key, h);
    SecondBits(h, 97);
    SecondProduct();
  }

  lemma Doubled(key: Key, h: u32)
    requires h == FnvFrom(key, 0x801c_9c56)
    ensures Hash2(key) == (h * 2 + 1) % 0x1_0000_0000
  {
  }

  lemma SecondDoubled(h: nat)
    requires h == 3825855125
    ensures (h * 2 + 1) % 0x1_0000_0000 == 3356742955
  {
  }

  /** The published FNV-1a hash of the letter `a`, and its second hash. */
  lemma KnownHash(key: Key, h1: u32, h2: u32)
    requires key == [97] && h1 == Hash1(key) && h2 == Hash2(key)
    ensures h1 == 0xe40c_292c && h2 == 3356742955
  {
    FirstHash(key, FNV_OFFSET);
    var h := FnvFrom(key, SECOND_SEED);
    SecondHash(key, SECOND_SEED);
    Doubled(key, h);
    SecondDoubled(h);
  }

  /** Multiplication and addition both wrap at 32 bits before the position is cut down. */
  lemma ProbeWraps(h1: u32, h2: u32, i: nat, numBits: nat)
    requires numBits > 0
    ensures Probe(h1, h2, i, numBits) == (h1 + i * h2 % 0x1_0000_0000) % 0x1_0000_0000 % numBits
  {
    SumWraps(h1, i * h2);
  }

  lemma SumWraps(a: nat, b: nat)
    ensures (a + b) % 0x1_0000_0000 == (a + b % 0x1_0000_0000) % 0x1_0000_0000
  {
  }

  /** The positions that the letter `a` has in a filter of seven keys. */
  lemma KnownPositions(key: Key)
    requires key == [97]
    ensures Position(key, 0, 70) == 40 && Position(key, 1, 70) == 49 && Position(key, 2, 70) == 58
  {
    KnownHash(key, Hash1(key), Hash2(key));
    KnownProbes(Hash1(key), Hash2(key));
  }

  lemma KnownProbes(h1: u32, h2: u32)
    requires h1 == 0xe40c_292c && h2 == 3356742955
    ensures Probe(h1, h2, 0, 70) == 40 && Probe(h1, h2, 1, 70) == 49 && Probe(h1, h2, 2, 70) == 58
  {
  }

  /** Ten bits for each key, and one word at least. */
  lemma NumBitsIs(n: nat)
    ensures NumBits(n, 10) == if n <= 6 then 64 else 10 * n
  {
  }

  /** A filter byte for byte: hash count, bit count, word count, words. */
  lemma KnownFilter()
    ensures EncodeFilter(BloomFilter([5], 7, 64)) == [7, 0, 0, 0, 64, 0, 0, 0, 1, 0, 0, 0, 5, 0, 0, 0, 0, 0, 0, 0]
  {
    LittleEndian(7);
    LittleEndian(64);
    LittleEndian(1);
    LEFirst(5, 8);
    ZeroLE([0, 0, 0, 0, 0, 0, 0]);
    assert EncodeWords([5]) == LE(5, 8) + EncodeWords([]);
  }

  /** Which bytes are a filter: a header, and as many words as it announces; more bytes may follow. */
  lemma FilterIff(data: seq<byte>)
    ensures DecodeFilter(data).Some? <==> |data| >= 12 && |data| >= 12 + 8 * FromLE(data[8..12])
    ensures DecodeFilter(data).Some? ==>
              var f := DecodeFilter(data).value;
              f.numHashes == FromLE(data[..4]) && f.numBits == FromLE(data[4..8]) && |f.bits| == FromLE(data[8..12])
  {
    if |data| >= 12 && |data| >= 12 + 8 * FromLE(data[8..12]) {
      WordCount(data[12..], FromLE(data[8..12]));
    }
  }

  lemma {:induction false} WordCount(b: seq<byte>, n: nat)
    requires |b| >= 8 * n
    ensures |DecodeWords(b, n)| == n
  {
    if n > 0 {
      WordCount(b[8..], n - 1);
    }
  }

  /** Position `i` is within the bit array, and its bit is set. */
  predicate SetAt(f: BloomFilter, key: Key, i: nat)
    requires f.numBits > 0
  {
    var p := Position(key, i, f.numBits);
    p / 64 < |f.bits| && Bit(f.bits[p / 64], p % 64)
  }

  /** The test passes exactly when every position from hash `i` on is set. */
  lemma {:induction false} TestPasses(f: BloomFilter, key: Key, i: nat)
    requires f.numBits > 0 && i <= f.numHashes
    ensures TestFrom(f, key, i) == Maybe <==> forall j | i <= j < f.numHashes :: SetAt(f, key, j)
    decreases f.numHashes - i
  {
    if i < f.numHashes {
      TestPasses(f, key, i + 1);
      assert SetAt(f, key, i) || TestFrom(f, key, i) != Maybe;
    }
  }

  /** The test stops at the first position that is not set, and is out of range exactly when that one is. */
  lemma {:induction false} TestStops(f: BloomFilter, key: Key, i: nat, j: nat)
    requires f.numBits > 0 && i <= j < f.numHashes && !SetAt(f, key, j) && forall l | i <= l < j :: SetAt(f, key, l)
    ensures TestFrom(f, key, i) == if Position(key, j, f.numBits) / 64 >= |f.bits| then OutOfRange else Absent
    decreases j - i
  {
    if i < j {
      assert SetAt(f, key, i);
      TestStops(f, key, i + 1, j);
    }
  }
}
