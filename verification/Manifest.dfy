/** The manifest file (src/manifest.rs): which tables belong to each level. */
module Manifests {
  import opened Bytes
  import opened Tables

  type Levels = seq<seq<SSTMeta>>

  const MAGIC: seq<byte> := [0x4B, 0x56, 0x44, 0x42]
  const VERSION: nat := 1

  // ---------------------------------------------------------------------
  // The format as functions
  // ---------------------------------------------------------------------

  function EncodeField(b: seq<byte>): (r: seq<byte>)
    ensures |r| == 4 + |b|
  {
    LE(|b|, 4) + b
  }

  /** The level of a table is not written: its position says it. */
  function EncodeSst(m: SSTMeta): seq<byte> {
    LE(m.id, 8) + EncodeField(m.minKey) + EncodeField(m.maxKey)
  }

  function EncodeSsts(ms: seq<SSTMeta>): seq<byte> {
    if ms == [] then [] else EncodeSst(ms[0]) + EncodeSsts(ms[1..])
  }

  function EncodeLevel(ms: seq<SSTMeta>): seq<byte> {
    LE(|ms|, 4) + EncodeSsts(ms)
  }

  function EncodeLevels(ls: Levels): seq<byte> {
    if ls == [] then [] else EncodeLevel(ls[0]) + EncodeLevels(ls[1..])
  }

  function EncodeManifest(ls: Levels): seq<byte> {
    MAGIC + LE(VERSION, 4) + LE(|ls|, 4) + EncodeLevels(ls)
  }

  datatype Part<T> = Got(value: T, rest: seq<byte>) | Bad

  function DecodeField(buf: seq<byte>): Part<seq<byte>> {
    if |buf| < 4 then Bad
    else
      var len := FromLE(buf[..4]);
      if |buf| < 4 + len then Bad else Got(buf[4..4 + len], buf[4 + len..])
  }

  function DecodeSst(buf: seq<byte>): Part<SSTMeta> {
    if |buf| < 8 then Bad
    else
      match DecodeField(buf[8..])
      case Bad => Bad
      case Got(minKey, rest) =>
        match DecodeField(rest)
        case Bad => Bad
        case Got(maxKey, rest') => Got(SSTMeta(FromLE(buf[..8]), 0, minKey, maxKey), rest')
  }

  function Add<T>(s: seq<T>, p: Part<seq<T>>): Part<seq<T>> {
    if p.Got? then Got(s + p.value, p.rest) else Bad
  }

  function DecodeSsts(buf: seq<byte>, n: nat): Part<seq<SSTMeta>> {
    if n == 0 then Got([], buf)
    else
      match DecodeSst(buf)
      case Bad => Bad
      case Got(m, rest) => Add([m], DecodeSsts(rest, n - 1))
  }

  function DecodeLevel(buf: seq<byte>): Part<seq<SSTMeta>> {
    if |buf| < 4 then Bad else DecodeSsts(buf[4..], FromLE(buf[..4]))
  }

  function DecodeLevels(buf: seq<byte>, n: nat): Part<Levels>
    decreases n
  {
    if n == 0 then Got([], buf)
    else
      match DecodeLevel(buf)
      case Bad => Bad
      case Got(l, rest) => Add([l], DecodeLevels(rest, n - 1))
  }

  function DecodeManifest(data: seq<byte>): Part<Levels> {
    if |data| < 12 || data[..4] != MAGIC || FromLE(data[4..8]) != VERSION then Bad
    else DecodeLevels(data[12..], FromLE(data[8..12]))
  }

  // ---------------------------------------------------------------------
  // Round trip and truncation
  // ---------------------------------------------------------------------

  predicate SstFits(m: SSTMeta) {
    m.id < U64 && |m.minKey| < U32 && |m.maxKey| < U32
  }

  predicate SstsFit(ms: seq<SSTMeta>) {
    |ms| < U32 && forall i | 0 <= i < |ms| :: SstFits(ms[i])
  }

  predicate LevelsFit(ls: Levels) {
    |ls| < U32 && forall i | 0 <= i < |ls| :: SstsFit(ls[i])
  }

  /** Decoding leaves 0 as the level of every table. */
  function NoLevel(m: SSTMeta): SSTMeta {
    m.(level := 0)
  }

  function NoLevels(ms: seq<SSTMeta>): seq<SSTMeta> {
    seq(|ms|, i requires 0 <= i < |ms| => NoLevel(ms[i]))
  }

  function Unlevelled(ls: Levels): Levels {
    seq(|ls|, i requires 0 <= i < |ls| => NoLevels(ls[i]))
  }

  lemma FieldRoundTrip(b: seq<byte>, rest: seq<byte>)
    requires |b| < U32
    ensures DecodeField(EncodeField(b) + rest) == Got(b, rest)
  {
    var buf := EncodeField(b) + rest;
    assert buf[..4] == LE(|b|, 4) && buf[4..4 + |b|] == b && buf[4 + |b|..] == rest;
    LERound(|b|, 4);
  }

  lemma FieldTorn(b: seq<byte>, k: nat)
    requires |b| < U32 && k < |EncodeField(b)|
    ensures DecodeField(EncodeField(b)[..k]) == Bad
  {
    if k >= 4 {
      assert EncodeField(b)[..k][..4] == LE(|b|, 4);
      LERound(|b|, 4);
    }
  }

  lemma SstRoundTrip(m: SSTMeta, rest: seq<byte>)
    requires SstFits(m)
    ensures DecodeSst(EncodeSst(m) + rest) == Got(NoLevel(m), rest)
  {
    var id, a, b := LE(m.id, 8), EncodeField(m.minKey), EncodeField(m.maxKey);
    var buf := EncodeSst(m) + rest;
    assert buf == id + (a + (b + rest));
    assert buf[..8] == id && buf[8..] == a + (b + rest);
    Pow256Values();
    LERoundTrip(m.id, 8);
    FieldRoundTrip(m.minKey, b + rest);
    FieldRoundTrip(m.maxKey, rest);
  }

  lemma SstTorn(m: SSTMeta, k: nat)
    requires SstFits(m) && k < |EncodeSst(m)|
    ensures DecodeSst(EncodeSst(m)[..k]) == Bad
  {
    var id, a, b := LE(m.id, 8), EncodeField(m.minKey), EncodeField(m.maxKey);
    if k >= 8 {
      Regroup(id, a, b);
      CutInTail(id, a + b, k);
      var cut := (a + b)[..k - 8];
      assert (id + cut)[8..] == cut;
      if k < 8 + |a| {
        CutInFirst(a, b, k - 8);
        FieldTorn(m.minKey, k - 8);
      } else {
        CutInTail(a, b, k - 8);
        FieldRoundTrip(m.minKey, b[..k - 8 - |a|]);
        FieldTorn(m.maxKey, k - 8 - |a|);
      }
    }
  }

  /** Decoding one table more. */
  lemma FirstSst(ms: seq<SSTMeta>, tail: seq<byte>)
    requires ms != [] && SstFits(ms[0])
    ensures DecodeSsts(EncodeSst(ms[0]) + tail, |ms|) == Add([NoLevel(ms[0])], DecodeSsts(tail, |ms| - 1))
  {
    SstRoundTrip(ms[0], tail);
  }

  lemma NoLevelsFirst(ms: seq<SSTMeta>)
    requires ms != []
    ensures [NoLevel(ms[0])] + NoLevels(ms[1..]) == NoLevels(ms)
  {
  }

  lemma {:induction false} SstsRoundTrip(ms: seq<SSTMeta>, rest: seq<byte>)
    requires forall i | 0 <= i < |ms| :: SstFits(ms[i])
    ensures DecodeSsts(EncodeSsts(ms) + rest, |ms|) == Got(NoLevels(ms), rest)
  {
    if ms == [] {
      assert [] + rest == rest && NoLevels(ms) == [];
    } else {
      assert EncodeSsts(ms) == EncodeSst(ms[0]) + EncodeSsts(ms[1..]) && |ms[1..]| == |ms| - 1;
      Regroup(EncodeSst(ms[0]), EncodeSsts(ms[1..]), rest);
      FirstSst(ms, EncodeSsts(ms[1..]) + rest);
      SstsRoundTrip(ms[1..], rest);
      NoLevelsFirst(ms);
    }
  }

  lemma {:induction false} SstsTorn(ms: seq<SSTMeta>, k: nat)
    requires forall i | 0 <= i < |ms| :: SstFits(ms[i])
    requires k < |EncodeSsts(ms)|
    ensures DecodeSsts(EncodeSsts(ms)[..k], |ms|) == Bad
  {
    var first, tail := EncodeSst(ms[0]), EncodeSsts(ms[1..]);
    if k < |first| {
      CutInFirst(first, tail, k);
      SstTorn(ms[0], k);
    } else {
      CutInTail(first, tail, k);
      FirstSst(ms, tail[..k - |first|]);
      SstsTorn(ms[1..], k - |first|);
    }
  }

  lemma CountFirst(n: nat, tail: seq<byte>)
    requires n < U32
    ensures var buf := LE(n, 4) + tail; |buf| >= 4 && FromLE(buf[..4]) == n && buf[4..] == tail
  {
    assert (LE(n, 4) + tail)[..4] == LE(n, 4);
    LERound(n, 4);
  }

  lemma LevelRoundTrip(ms: seq<SSTMeta>, rest: seq<byte>)
    requires SstsFit(ms)
    ensures DecodeLevel(EncodeLevel(ms) + rest) == Got(NoLevels(ms), rest)
  {
    CountFirst(|ms|, EncodeSsts(ms) + rest);
    assert EncodeLevel(ms) + rest == LE(|ms|, 4) + (EncodeSsts(ms) + rest);
    SstsRoundTrip(ms, rest);
  }

  lemma LevelTorn(ms: seq<SSTMeta>, k: nat)
    requires SstsFit(ms) && k < |EncodeLevel(ms)|
    ensures DecodeLevel(EncodeLevel(ms)[..k]) == Bad
  {
    if k >= 4 {
      CountFirst(|ms|, EncodeSsts(ms)[..k - 4]);
      assert EncodeLevel(ms)[..k] == LE(|ms|, 4) + EncodeSsts(ms)[..k - 4];
      SstsTorn(ms, k - 4);
    }
  }

  lemma FirstLevel(ls: Levels, tail: seq<byte>)
    requires ls != [] && SstsFit(ls[0])
    ensures DecodeLevels(EncodeLevel(ls[0]) + tail, |ls|) == Add([NoLevels(ls[0])], DecodeLevels(tail, |ls| - 1))
  {
    LevelRoundTrip(ls[0], tail);
  }

  lemma UnlevelledFirst(ls: Levels)
    requires ls != []
    ensures [NoLevels(ls[0])] + Unlevelled(ls[1..]) == Unlevelled(ls)
  {
  }

  lemma {:induction false} LevelsRoundTrip(ls: Levels, rest: seq<byte>)
    requires forall i | 0 <= i < |ls| :: SstsFit(ls[i])
    ensures DecodeLevels(EncodeLevels(ls) + rest, |ls|) == Got(Unlevelled(ls), rest)
  {
    if ls == [] {
      assert [] + rest == rest && Unlevelled(ls) == [];
    } else {
      assert EncodeLevels(ls) == EncodeLevel(ls[0]) + EncodeLevels(ls[1..]) && |ls[1..]| == |ls| - 1;
      Regroup(EncodeLevel(ls[0]), EncodeLevels(ls[1..]), rest);
      FirstLevel(ls, EncodeLevels(ls[1..]) + rest);
      LevelsRoundTrip(ls[1..], rest);
      UnlevelledFirst(ls);
    }
  }

  lemma {:induction false} LevelsTorn(ls: Levels, k: nat)
    requires forall i | 0 <= i < |ls| :: SstsFit(ls[i])
    requires k < |EncodeLevels(ls)|
    ensures DecodeLevels(EncodeLevels(ls)[..k], |ls|) == Bad
  {
    var first, tail := EncodeLevel(ls[0]), EncodeLevels(ls[1..]);
    if k < |first| {
      CutInFirst(first, tail, k);
      LevelTorn(ls[0], k);
    } else {
      CutInTail(first, tail, k);
      FirstLevel(ls, tail[..k - |first|]);
      LevelsTorn(ls[1..], k - |first|);
    }
  }

  lemma Header(ls: Levels, rest: seq<byte>)
    requires |ls| < U32
    ensures var data := MAGIC + LE(VERSION, 4) + LE(|ls|, 4) + rest;
            && |data| == 12 + |rest| && data[..4] == MAGIC && FromLE(data[4..8]) == VERSION
            && FromLE(data[8..12]) == |ls| && data[12..] == rest
  {
    var data := MAGIC + LE(VERSION, 4) + LE(|ls|, 4) + rest;
    assert data[..4] == MAGIC;
    assert data[4..8] == LE(VERSION, 4) && data[8..12] == LE(|ls|, 4);
    assert data[12..] == rest;
    LERound(|ls|, 4);
    LERound(VERSION, 4);
  }

  /** A saved manifest loads with the same tables at the same positions; bytes after it are ignored. */
  lemma ManifestRoundTrip(ls: Levels, rest: seq<byte>)
    requires LevelsFit(ls)
    ensures DecodeManifest(EncodeManifest(ls) + rest) == Got(Unlevelled(ls), rest)
  {
    Header(ls, EncodeLevels(ls) + rest);
    assert EncodeManifest(ls) + rest == MAGIC + LE(VERSION, 4) + LE(|ls|, 4) + (EncodeLevels(ls) + rest);
    LevelsRoundTrip(ls, rest);
  }

  /** The level that each table's position says. */
  function Positioned(ls: Levels): Levels {
    seq(|ls|, i requires 0 <= i < |ls| => seq(|ls[i]|, j requires 0 <= j < |ls[i]| => ls[i][j].(level := i)))
  }

  /** Nothing is lost when every table sits at its own level: positions restore the levels that the file leaves out. */
  lemma SavedLevelsReload(ls: Levels)
    requires LevelsFit(ls)
    ensures DecodeManifest(EncodeManifest(ls)).Got?
    ensures Positioned(DecodeManifest(EncodeManifest(ls)).value) == ls
            <==> forall i, j | 0 <= i < |ls| && 0 <= j < |ls[i]| :: ls[i][j].level == i
  {
    ManifestRoundTrip(ls, []);
    assert EncodeManifest(ls) + [] == EncodeManifest(ls);
    var p := Positioned(Unlevelled(ls));
    forall i | 0 <= i < |ls|
      ensures |p[i]| == |ls[i]| && forall j | 0 <= j < |ls[i]| :: p[i][j] == ls[i][j].(level := i)
    {
    }
    if forall i, j | 0 <= i < |ls| && 0 <= j < |ls[i]| :: ls[i][j].level == i {
      forall i | 0 <= i < |ls| ensures p[i] == ls[i] { }
    }
    if p == ls {
      forall i, j | 0 <= i < |ls| && 0 <= j < |ls[i]| ensures ls[i][j].level == i { assert p[i][j] == ls[i][j]; }
    }
  }

  /** Every proper prefix of a saved manifest is rejected. */
  lemma TornManifestRejected(ls: Levels, k: nat)
    requires LevelsFit(ls) && k < |EncodeManifest(ls)|
    ensures DecodeManifest(EncodeManifest(ls)[..k]) == Bad
  {
    if k >= 12 {
      var cut := EncodeLevels(ls)[..k - 12];
      Header(ls, cut);
      assert EncodeManifest(ls)[..k] == MAGIC + LE(VERSION, 4) + LE(|ls|, 4) + cut;
      LevelsTorn(ls, k - 12);
    }
  }

  // ---------------------------------------------------------------------
  // Encoding and decoding step by step
  // ---------------------------------------------------------------------

  method Encode(levels: Levels) returns (buf: seq<byte>)
    ensures buf == EncodeManifest(levels)
  {
    buf := MAGIC + LE(VERSION, 4) + LE(|levels|, 4);
    for i := 0 to |levels|
      invariant EncodeManifest(levels) == buf + EncodeLevels(levels[i..])
    {
      ghost var before := buf;
      var level := EncodeOneLevel(levels[i]);
      buf := buf + level;
      EncodeStep(levels, i, before);
    }
  }

  lemma EncodeStep(ls: Levels, i: nat, before: seq<byte>)
    requires i < |ls|
    ensures before + EncodeLevels(ls[i..]) == before + EncodeLevel(ls[i]) + EncodeLevels(ls[i + 1..])
  {
    assert ls[i..][1..] == ls[i + 1..];
  }

  method EncodeOneLevel(level: seq<SSTMeta>) returns (buf: seq<byte>)
    ensures buf == EncodeLevel(level)
  {
    buf := LE(|level|, 4);
    for j := 0 to |level|
      invariant EncodeLevel(level) == buf + EncodeSsts(level[j..])
    {
      buf := buf + EncodeSst(level[j]);
      assert level[j..][1..] == level[j + 1..];
    }
  }

  lemma AddStep<T>(s: seq<T>, x: T, p: Part<seq<T>>)
    ensures Add(s, Add([x], p)) == Add(s + [x], p)
  {
    if p.Got? {
      assert s + ([x] + p.value) == s + [x] + p.value;
    }
  }

  lemma AddNone<T>(p: Part<seq<T>>)
    ensures Add([], p) == p
  {
    if p.Got? {
      assert [] + p.value == p.value;
    }
  }

  method DecodeBytes(data: seq<byte>, pos: nat) returns (r: Option<seq<byte>>, next: nat)
    requires pos <= |data|
    ensures pos <= next <= |data|
    ensures DecodeField(data[pos..]) == if r.Some? then Got(r.value, data[next..]) else Bad
  {
    next := pos;
    if |data| < pos + 4 {
      return None, pos;
    }
    var len := FromLE(data[pos..pos + 4]);
    assert data[pos..][..4] == data[pos..pos + 4];
    if |data| < pos + 4 + len {
      return None, pos;
    }
    next := pos + 4 + len;
    r := Some(data[pos + 4..next]);
    assert data[pos..][4..4 + len] == data[pos + 4..next] && data[pos..][4 + len..] == data[next..];
  }

  method DecodeSstMeta(data: seq<byte>, pos: nat) returns (r: Option<SSTMeta>, next: nat)
    requires pos <= |data|
    ensures pos <= next <= |data|
    ensures DecodeSst(data[pos..]) == if r.Some? then Got(r.value, data[next..]) else Bad
  {
    next := pos;
    if |data| < pos + 8 {
      return None, pos;
    }
    var id := FromLE(data[pos..pos + 8]);
    assert data[pos..][..8] == data[pos..pos + 8] && data[pos..][8..] == data[pos + 8..];
    var minKey, p := DecodeBytes(data, pos + 8);
    if minKey.None? {
      return None, pos;
    }
    var maxKey, q := DecodeBytes(data, p);
    if maxKey.None? {
      return None, pos;
    }
    return Some(SSTMeta(id, 0, minKey.value, maxKey.value)), q;
  }

  /** The `n` tables of one level. */
  method DecodeTables(data: seq<byte>, pos: nat, n: nat) returns (r: Option<seq<SSTMeta>>, next: nat)
    requires pos <= |data|
    ensures pos <= next <= |data|
    ensures DecodeSsts(data[pos..], n) == if r.Some? then Got(r.value, data[next..]) else Bad
  {
    next := pos;
    var ssts: seq<SSTMeta> := [];
    AddNone(DecodeSsts(data[pos..], n));
    for i := 0 to n
      invariant pos <= next <= |data|
      invariant DecodeSsts(data[pos..], n) == Add(ssts, DecodeSsts(data[next..], n - i))
    {
      var sst, p := DecodeSstMeta(data, next);
      if sst.None? {
        return None, pos;
      }
      AddStep(ssts, sst.value, DecodeSsts(data[p..], n - i - 1));
      next := p;
      ssts := ssts + [sst.value];
    }
    assert ssts + [] == ssts;
    r := Some(ssts);
  }

  method DecodeOneLevel(data: seq<byte>, pos: nat) returns (r: Option<seq<SSTMeta>>, next: nat)
    requires pos <= |data|
    ensures pos <= next <= |data|
    ensures DecodeLevel(data[pos..]) == if r.Some? then Got(r.value, data[next..]) else Bad
  {
    if |data| < pos + 4 {
      return None, pos;
    }
    var n := FromLE(data[pos..pos + 4]);
    assert data[pos..][..4] == data[pos..pos + 4] && data[pos..][4..] == data[pos + 4..];
    r, next := DecodeTables(data, pos + 4, n);
  }

  method Decode(data: seq<byte>) returns (r: Option<Levels>)
    ensures r == if DecodeManifest(data).Got? then Some(DecodeManifest(data).value) else None
  {
    if |data| < 12 || data[..4] != MAGIC || FromLE(data[4..8]) != VERSION {
      return None;
    }
    var n, pos := FromLE(data[8..12]), 12;
    var levels: Levels := [];
    AddNone(DecodeLevels(data[pos..], n));
    for i := 0 to n
      invariant pos <= |data|
      invariant DecodeManifest(data) == Add(levels, DecodeLevels(data[pos..], n - i))
    {
      var level, p := DecodeOneLevel(data, pos);
      if level.None? {
        return None;
      }
      AddStep(levels, level.value, DecodeLevels(data[p..], n - i - 1));
      pos := p;
      levels := levels + [level.value];
    }
    assert levels + [] == levels;
    r := Some(levels);
  }

  /** A file without the magic bytes or with another version is rejected, and nothing else is by its header. */
  lemma HeaderChecked(data: seq<byte>)
    ensures |data| < 12 || data[..4] != [75, 86, 68, 66] || FromLE(data[4..8]) != 1 ==> DecodeManifest(data) == Bad
    ensures |data| == 12 && data[..4] == [75, 86, 68, 66] && FromLE(data[4..8]) == 1 && FromLE(data[8..12]) == 0 ==>
              DecodeManifest(data) == Got([], [])
  {
  }

  /** A manifest with one table byte for byte. */
  lemma KnownManifest()
    ensures EncodeManifest([[SSTMeta(3, 0, [107], [108])]]) ==
            [75, 86, 68, 66, 1, 0, 0, 0, 1, 0, 0, 0, 1, 0, 0, 0]
            + [3, 0, 0, 0, 0, 0, 0, 0, 1, 0, 0, 0, 107, 1, 0, 0, 0, 108]
  {
    var m := SSTMeta(3, 0, [107], [108]);
    LittleEndian(1);
    LEFirst(3, 8);
    ZeroLE([0, 0, 0, 0, 0, 0, 0]);
    assert EncodeSst(m) == [3, 0, 0, 0, 0, 0, 0, 0, 1, 0, 0, 0, 107, 1, 0, 0, 0, 108];
    assert EncodeSsts([m]) == EncodeSst(m) + EncodeSsts([]);
    assert EncodeLevels([[m]]) == EncodeLevel([m]) + EncodeLevels([]);
  }
}
