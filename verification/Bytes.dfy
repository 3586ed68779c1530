/** Bytes, little-endian integers, and the lexicographic order on byte strings. */
module Bytes {

  newtype byte = x: int | 0 <= x < 256

  type u32 = x: int | 0 <= x < 0x1_0000_0000

  type u64 = x: int | 0 <= x < 0x1_0000_0000_0000_0000

  // One past the largest value of each integer width of the file formats.
  const U16: nat := 0x1_0000
  const U32: nat := 0x1_0000_0000
  const U64: nat := 0x1_0000_0000_0000_0000

  type Key = seq<byte>
  type Value = seq<byte>

  // ---------------------------------------------------------------------
  // Little-endian integers: to_le_bytes / from_le_bytes
  // ---------------------------------------------------------------------

  function Pow256(w: nat): (p: nat)
    ensures p >= 1
  {
    if w == 0 then 1 else 256 * Pow256(w - 1)
  }

  /** Byte `i` of a number, counting from the least significant one. */
  function ByteOf(n: nat, i: nat): byte
    decreases i
  {
    if i == 0 then (n % 256) as byte else ByteOf(n / 256, i - 1)
  }

  /** The low `w` bytes of `n`, least significant first (higher bytes are cut off). */
  function LE(n: nat, w: nat): (b: seq<byte>)
    ensures |b| == w
  {
    seq(w, i requires 0 <= i < w => ByteOf(n, i))
  }

  lemma LEFirst(n: nat, w: nat)
    requires w > 0
    ensures LE(n, w) == [(n % 256) as byte] + LE(n / 256, w - 1)
  {
  }

  lemma {:induction false} ZeroByte(i: nat)
    ensures ByteOf(0, i) == 0
  {
    if i > 0 {
      ZeroByte(i - 1);
    }
  }

  lemma ZeroLE(b: seq<byte>)
    requires forall i | 0 <= i < |b| :: b[i] == 0
    ensures LE(0, |b|) == b
  {
    forall i | 0 <= i < |b| ensures LE(0, |b|)[i] == b[i] {
      ZeroByte(i);
    }
  }

  function FromLE(b: seq<byte>): nat {
    Digits(b, 0)
  }

  /** The number that the bytes from position `i` on stand for. */
  function Digits(b: seq<byte>, i: nat): nat
    requires i <= |b|
    decreases |b| - i
  {
    if i == |b| then 0 else b[i] as nat + 256 * Digits(b, i + 1)
  }

  lemma {:induction false} DigitsShift(x: byte, b: seq<byte>, i: nat)
    requires i <= |b|
    ensures Digits([x] + b, i + 1) == Digits(b, i)
    decreases |b| - i
  {
    if i < |b| {
      DigitsShift(x, b, i + 1);
    }
  }

  lemma {:induction false} FromLERange(b: seq<byte>)
    ensures FromLE(b) < Pow256(|b|)
  {
    if b != [] {
      FromLERange(b[1..]);
      DigitsShift(b[0], b[1..], 0);
      assert b == [b[0]] + b[1..];
    }
  }

  lemma {:induction false} LERoundTrip(n: nat, w: nat)
    requires n < Pow256(w)
    ensures FromLE(LE(n, w)) == n
  {
    if w > 0 {
      assert n / 256 < Pow256(w - 1);
      LERoundTrip(n / 256, w - 1);
      LEFirst(n, w);
      DigitsShift((n % 256) as byte, LE(n / 256, w - 1), 0);
    }
  }

  lemma Pow256Values()
    ensures Pow256(2) == U16
    ensures Pow256(4) == U32
    ensures Pow256(8) == U64
  {
    assert Pow256(2) == 0x1_0000;
    assert Pow256(4) == 256 * (256 * Pow256(2));
    assert Pow256(6) == 256 * (256 * Pow256(4));
    assert Pow256(8) == 256 * (256 * Pow256(6));
  }

  /** The bytes of a 16-bit and of a 32-bit field, the least significant one first. */
  lemma LittleEndian(n: nat)
    ensures LE(n, 2) == [(n % 256) as byte, (n / 256 % 256) as byte]
    ensures LE(n, 4) == [(n % 256) as byte, (n / 256 % 256) as byte,
                         (n / 0x1_0000 % 256) as byte, (n / 0x100_0000 % 256) as byte]
  {
    assert n / 256 / 256 == n / 0x1_0000 && n / 256 / 256 / 256 == n / 0x100_0000;
    assert ByteOf(n, 1) == ByteOf(n / 256, 0);
    assert ByteOf(n, 2) == ByteOf(n / 256, 1) == ByteOf(n / 256 / 256, 0);
    assert ByteOf(n, 3) == ByteOf(n / 256, 2) == ByteOf(n / 256 / 256, 1) == ByteOf(n / 256 / 256 / 256, 0);
  }

  /** Every further byte weighs 256 times as much as the one before it. */
  lemma LittleEndianValue(a: byte, b: seq<byte>)
    ensures FromLE([]) == 0 && FromLE([a] + b) == a as nat + 256 * FromLE(b)
  {
    DigitsShift(a, b, 0);
  }

  /** The 16-bit and 32-bit fields of the file formats. */
  lemma LERound(n: nat, w: nat)
    requires (w == 2 && n < U16) || (w == 4 && n < U32)
    ensures FromLE(LE(n, w)) == n
  {
    Pow256Values();
    LERoundTrip(n, w);
  }

  /** A slice within a prefix. */
  lemma CutSlice(a: seq<byte>, k: nat, i: nat, j: nat)
    requires i <= j <= k <= |a|
    ensures a[..k][i..j] == a[i..j]
  {
  }

  lemma Regroup(a: seq<byte>, b: seq<byte>, c: seq<byte>)
    ensures a + b + c == a + (b + c)
  {
  }

  // Cutting a concatenation in its first or in its second part.
  lemma CutInFirst(a: seq<byte>, b: seq<byte>, k: nat)
    requires k <= |a|
    ensures (a + b)[..k] == a[..k]
  {
  }

  lemma CutInTail(a: seq<byte>, b: seq<byte>, k: nat)
    requires |a| <= k <= |a + b|
    ensures (a + b)[..k] == a + b[..k - |a|]
  {
  }

  // ---------------------------------------------------------------------
  // Lexicographic order
  // ---------------------------------------------------------------------

  predicate Lt(a: Key, b: Key)
    decreases |a|
  {
    b != [] && (a == [] || a[0] < b[0] || (a[0] == b[0] && Lt(a[1..], b[1..])))
  }

  predicate Le(a: Key, b: Key) {
    a == b || Lt(a, b)
  }

  lemma {:induction false} LtIrreflexive(a: Key)
    ensures !Lt(a, a)
    decreases |a|
  {
    if a != [] {
      LtIrreflexive(a[1..]);
    }
  }

  lemma {:induction false} LtTransitive(a: Key, b: Key, c: Key)
    requires Lt(a, b) && Lt(b, c)
    ensures Lt(a, c)
    decreases |a|
  {
    if a != [] && a[0] == b[0] == c[0] {
      LtTransitive(a[1..], b[1..], c[1..]);
    }
  }

  lemma {:induction false} LtTotal(a: Key, b: Key)
    ensures Lt(a, b) || a == b || Lt(b, a)
    decreases |a|
  {
    if a != [] && b != [] && a[0] == b[0] {
      LtTotal(a[1..], b[1..]);
      assert a == [a[0]] + a[1..] && b == [b[0]] + b[1..];
    }
  }

  /** The order facts in quantified form. */
  lemma LtOrder()
    ensures forall a: Key :: !Lt(a, a)
    ensures forall a: Key, b: Key, c: Key {:trigger Lt(a, b), Lt(b, c)} :: Lt(a, b) && Lt(b, c) ==> Lt(a, c)
    ensures forall a: Key, b: Key {:trigger Lt(a, b)} :: Lt(a, b) || a == b || Lt(b, a)
  {
    forall a: Key ensures !Lt(a, a) { LtIrreflexive(a); }
    forall a: Key, b: Key, c: Key | Lt(a, b) && Lt(b, c) ensures Lt(a, c) { LtTransitive(a, b, c); }
    forall a: Key, b: Key ensures Lt(a, b) || a == b || Lt(b, a) { LtTotal(a, b); }
  }

  /** Order facts for three particular keys. */
  lemma LtFacts(a: Key, b: Key, c: Key)
    ensures !(Lt(a, b) && Lt(b, a))
    ensures Lt(a, b) || a == b || Lt(b, a)
    ensures Le(a, b) && Le(b, c) ==> Le(a, c)
    ensures Le(a, b) && Lt(b, c) ==> Lt(a, c)
    ensures Lt(a, b) && Le(b, c) ==> Lt(a, c)
  {
    LtTotal(a, b);
    LtIrreflexive(a);
    if Lt(a, b) && Lt(b, a) { LtTransitive(a, b, a); }
    if Lt(a, b) && Lt(b, c) { LtTransitive(a, b, c); }
  }

  datatype Option<+T> = None | Some(value: T)
}
