/** Log records and their byte format (src/wal/record.rs). */
module WalRecord {
  import opened Bytes

  datatype OpType = OpPut | OpDelete

  datatype Record = Record(op: OpType, key: Key, value: Value)

  datatype KvError = Corruption | ChecksumMismatch(expected: nat, actual: nat)

  datatype Result<+T> = Ok(value: T) | Err(error: KvError)

  /** Any checksum function; CRC32 in the program. */
  type Checksum = seq<byte> -> u32

  function OpByte(op: OpType): byte {
    match op
    case OpPut => 1
    case OpDelete => 2
  }

  function OpFromByte(b: byte): Result<OpType> {
    if b == 1 then Ok(OpPut) else if b == 2 then Ok(OpDelete) else Err(Corruption)
  }

  /** The bytes that the checksum covers. */
  function Payload(r: Record): (p: seq<byte>)
    ensures |p| == 9 + |r.key| + |r.value|
  {
    [OpByte(r.op)] + LE(|r.key|, 4) + r.key + LE(|r.value|, 4) + r.value
  }

  /** What follows the length field. */
  function Body(r: Record, crc: Checksum): (b: seq<byte>)
    ensures |b| == 13 + |r.key| + |r.value|
  {
    LE(crc(Payload(r)), 4) + Payload(r)
  }

  function Encode(r: Record, crc: Checksum): (b: seq<byte>)
    ensures |b| == 17 + |r.key| + |r.value|
  {
    LE(|Body(r, crc)|, 4) + Body(r, crc)
  }

  /** Decode what follows the length field. */
  function Decode(buf: seq<byte>, crc: Checksum): Result<Record> {
    if |buf| < 13 then Err(Corruption)
    else
      var stored, actual := FromLE(buf[..4]), crc(buf[4..]);
      if stored != actual then Err(ChecksumMismatch(stored, actual))
      else
        match OpFromByte(buf[4])
        case Err(e) => Err(e)
        case Ok(op) =>
          var keyEnd := 9 + FromLE(buf[5..9]);
          if |buf| < keyEnd + 4 then Err(Corruption)
          else
            var valEnd := keyEnd + 4 + FromLE(buf[keyEnd..keyEnd + 4]);
            if |buf| < valEnd then Err(Corruption)
            else Ok(Record(op, buf[9..keyEnd], buf[keyEnd + 4..valEnd]))
  }

  /** The record's length fits the 32-bit length field. */
  predicate Fits(r: Record) {
    13 + |r.key| + |r.value| < U32
  }

  /** Where the fields of a payload lie. */
  lemma PayloadFields(r: Record)
    ensures var p := Payload(r);
            && p[0] == OpByte(r.op) && p[1..5] == LE(|r.key|, 4) && p[5..5 + |r.key|] == r.key
            && p[5 + |r.key|..9 + |r.key|] == LE(|r.value|, 4) && p[9 + |r.key|..] == r.value
  {
    var p := Payload(r);
    var a, b := [OpByte(r.op)], LE(|r.key|, 4);
    var c := LE(|r.value|, 4);
    assert p == a + b + r.key + c + r.value;
    assert p[1..5] == b;
    assert p[5..5 + |r.key|] == r.key;
    assert p[5 + |r.key|..9 + |r.key|] == c;
    assert p[9 + |r.key|..] == r.value;
  }

  lemma Shift(b: seq<byte>, p: seq<byte>, i: nat, j: nat)
    requires |b| == 4 + |p| && b[4..] == p && i <= j <= |p|
    ensures b[4 + i..4 + j] == p[i..j]
  {
    assert b[4..][i..j] == b[4 + i..4 + j];
  }

  /** Every record that fits is read back, whatever the checksum function is. */
  lemma RecordRoundTrip(r: Record, crc: Checksum)
    requires Fits(r)
    ensures Decode(Body(r, crc), crc) == Ok(r)
  {
    var p, buf := Payload(r), Body(r, crc);
    assert buf[..4] == LE(crc(p), 4) && buf[4..] == p;
    LERound(crc(p), 4);
    LERound(|r.key|, 4);
    LERound(|r.value|, 4);
    PayloadFields(r);
    assert buf[4] == p[0];
    Shift(buf, p, 1, 5);
    Shift(buf, p, 5, 5 + |r.key|);
    Shift(buf, p, 5 + |r.key|, 9 + |r.key|);
    Shift(buf, p, 9 + |r.key|, |p|);
    assert p[9 + |r.key|..|p|] == p[9 + |r.key|..];
  }

  /**
   What decodes: a complete body whose checksum is that of all bytes behind it, with a known operation and two fields
   within the bytes. A wrong checksum is reported before anything else is looked at.
   */
  lemma DecodeIff(buf: seq<byte>, crc: Checksum)
    ensures |buf| < 13 ==> Decode(buf, crc) == Err(Corruption)
    ensures |buf| >= 13 && FromLE(buf[..4]) != crc(buf[4..]) ==>
              Decode(buf, crc) == Err(ChecksumMismatch(FromLE(buf[..4]), crc(buf[4..])))
    ensures Decode(buf, crc).Ok? <==>
            && |buf| >= 13 && FromLE(buf[..4]) == crc(buf[4..]) && (buf[4] == 1 || buf[4] == 2)
            && (var n := FromLE(buf[5..9]); |buf| >= 13 + n && |buf| >= 13 + n + FromLE(buf[9 + n..13 + n]))
  {
  }

  /** What a decoded record holds, byte for byte. */
  lemma DecodedFields(buf: seq<byte>, crc: Checksum)
    requires Decode(buf, crc).Ok?
    ensures var r, n := Decode(buf, crc).value, FromLE(buf[5..9]);
            && (r.op == OpPut <==> buf[4] == 1) && (r.op == OpDelete <==> buf[4] == 2)
            && r.key == buf[9..9 + n] && r.value == buf[13 + n..13 + n + FromLE(buf[9 + n..13 + n])]
  {
  }

  /** The stored checksum of an encoded record is that of all bytes behind it. */
  lemma BodyChecksum(r: Record, crc: Checksum)
    ensures FromLE(Body(r, crc)[..4]) == crc(Body(r, crc)[4..]) && Body(r, crc)[4..] == Payload(r)
  {
    assert Body(r, crc)[..4] == LE(crc(Payload(r)), 4) && Body(r, crc)[4..] == Payload(r);
    LERound(crc(Payload(r)), 4);
  }

  /** A record whose value changed on disk does not decode, for any checksum that tells the two apart. */
  lemma ChangedIsRejected(r: Record, changed: seq<byte>, crc: Checksum)
    requires |changed| == |Payload(r)| && crc(changed) != crc(Payload(r))
    ensures Decode(Body(r, crc)[..4] + changed, crc) == Err(ChecksumMismatch(crc(Payload(r)), crc(changed)))
  {
    BodyChecksum(r, crc);
    var buf := Body(r, crc)[..4] + changed;
    assert buf[..4] == Body(r, crc)[..4] && buf[4..] == changed;
  }

  /** One record byte for byte: a put of `a` under `k`, whatever the checksum function is. */
  lemma KnownRecord(crc: Checksum)
    ensures var payload := [1, 1, 0, 0, 0, 107, 1, 0, 0, 0, 97];
            Encode(Record(OpPut, [107], [97]), crc) == [15, 0, 0, 0] + LE(crc(payload), 4) + payload
    ensures Payload(Record(OpDelete, [107], [])) == [2, 1, 0, 0, 0, 107, 0, 0, 0, 0]
  {
    LittleEndian(0);
    LittleEndian(1);
    LittleEndian(15);
    var r := Record(OpPut, [107], [97]);
    assert Payload(r) == [1, 1, 0, 0, 0, 107, 1, 0, 0, 0, 97];
    assert |Body(r, crc)| == 15;
  }
}
