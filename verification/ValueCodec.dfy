/**
 The value encodings of the engine (src/engine.rs:672-724): a stored value is an
 8-byte sequence number followed by an inner value; the inner value is a tombstone,
 a TTL envelope, or the user's bytes.
 */
module ValueCodec {
  import opened Bytes

  const TOMBSTONE: Value := [0]
  const TTL_MARKER: byte := 1

  function EncodeWithSeq(inner: Value, seqNo: nat): Value {
    LE(seqNo, 8) + inner
  }

  /** Sequence number and inner value; a stored value under 8 bytes counts as unnumbered. */
  function DecodeWithSeq(v: Value): (Value, nat) {
    if |v| >= 8 then (v[8..], FromLE(v[..8])) else (v, 0)
  }

  function TtlInner(expiry: nat, value: Value): Value {
    [TTL_MARKER] + LE(expiry, 8) + value
  }

  predicate LooksTtl(inner: Value) {
    |inner| >= 9 && inner[0] == TTL_MARKER
  }

  function UnwrapTtl(inner: Value, now: nat): Option<Value> {
    if LooksTtl(inner) then
      if now >= FromLE(inner[1..9]) then None else Some(inner[9..])
    else
      Some(inner)
  }

  function UnpackInner(inner: Value, now: nat): Option<Value> {
    if inner == TOMBSTONE then None else UnwrapTtl(inner, now)
  }

  function UnpackValue(v: Value, now: nat): Option<Value> {
    UnpackInner(DecodeWithSeq(v).0, now)
  }

  /** What a lookup result shows to the user at clock `now`. */
  function Show(v: Option<Value>, now: nat): Option<Value> {
    if v.Some? then UnpackValue(v.value, now) else None
  }

  predicate Live(v: Value, now: nat) {
    UnpackValue(v, now).Some?
  }

  // ---------------------------------------------------------------------
  // Laws
  // ---------------------------------------------------------------------

  lemma SeqRoundTrip(inner: Value, seqNo: nat)
    requires seqNo < U64
    ensures DecodeWithSeq(EncodeWithSeq(inner, seqNo)) == (inner, seqNo)
  {
    var v := EncodeWithSeq(inner, seqNo);
    assert v[..8] == LE(seqNo, 8) && v[8..] == inner;
    Pow256Values();
    LERoundTrip(seqNo, 8);
  }

  /** The inner value survives whatever the sequence number is. */
  lemma InnerRoundTrip(inner: Value, seqNo: nat, now: nat)
    ensures UnpackValue(EncodeWithSeq(inner, seqNo), now) == UnpackInner(inner, now)
  {
    assert EncodeWithSeq(inner, seqNo)[8..] == inner;
  }

  /** User values that the marker bytes make ambiguous. */
  predicate Aliased(value: Value) {
    value == TOMBSTONE || LooksTtl(value)
  }

  /**
   A plain value is read back unchanged exactly when it is neither a zero byte nor nine or more bytes led by a
   one.
   */
  lemma PlainValueIff(value: Value, now: nat)
    ensures UnpackInner(value, now) == Some(value) <==> !(value == [0] || (|value| >= 9 && value[0] == 1))
    ensures Aliased(value) <==> value == [0] || (|value| >= 9 && value[0] == 1)
  {
    if LooksTtl(value) {
      assert |value[9..]| != |value|;
    }
  }

  /** What a plain value shows that looks like a marker: nothing, or its tail up to the clock in its bytes. */
  lemma AliasedValue(value: Value, now: nat)
    ensures value == [0] ==> UnpackInner(value, now) == None
    ensures |value| >= 9 && value[0] == 1 ==>
              UnpackInner(value, now) == if now < FromLE(value[1..9]) then Some(value[9..]) else None
  {
  }

  /** A TTL value is visible exactly before its expiry, whatever its bytes are. */
  lemma TtlRoundTrip(expiry: nat, value: Value, now: nat)
    requires expiry < U64
    ensures UnpackInner(TtlInner(expiry, value), now) == if now < expiry then Some(value) else None
  {
    var inner := TtlInner(expiry, value);
    assert inner[0] == TTL_MARKER && |inner| >= 9;
    assert inner[1..9] == LE(expiry, 8);
    assert inner[9..] == value;
    Pow256Values();
    LERoundTrip(expiry, 8);
  }

  /** Once hidden, always hidden; while visible, the bytes shown never change. */
  lemma ShowMonotone(v: Option<Value>, now: nat, later: nat)
    requires now <= later
    ensures Show(v, later).Some? ==> Show(v, now) == Show(v, later)
  {
  }
}
