/**
 Range and prefix scans (src/engine.rs:339-342, 430-472, 743-755) against point lookups.
 */
module Scans {
  import opened Bytes
  import opened OrderedMaps
  import opened ValueCodec
  import opened Tables
  import opened Compaction
  import opened Machine

  // ---------------------------------------------------------------------
  // Range scans
  // ---------------------------------------------------------------------

  function OverlayRange(rs: seq<Reader>, lo: Key, hi: Key): map<Key, Value> {
    if rs == [] then map[]
    else OverlayRange(rs[..|rs| - 1], lo, hi) + RangePart(rs[|rs| - 1].data, lo, hi)
  }

  /** All versions in range, oldest table first, newer ones overwriting. */
  function ScanMap(s: State, lo: Key, hi: Key): map<Key, Value> {
    OverlayRange(s.readers, lo, hi) + RangePart(s.active, lo, hi)
  }

  /** The displayed bytes of a stored version. */
  function Shown(v: Value, now: nat): Value {
    match UnpackValue(v, now)
    case Some(x) => x
    case None => []
  }

  function Display(es: seq<Entry>, now: nat): (ds: seq<Entry>)
    ensures |ds| == |es| && forall i | 0 <= i < |es| :: ds[i] == (es[i].0, Shown(es[i].1, now))
  {
    if es == [] then [] else Display(es[..|es| - 1], now) + [(es[|es| - 1].0, Shown(es[|es| - 1].1, now))]
  }

  function Scan(s: State, lo: Key, hi: Key, now: nat): seq<Entry> {
    Display(SortedEntries(LivePart(ScanMap(s, lo, hi), now)), now)
  }

  lemma {:induction false} OverlayRangeLookup(rs: seq<Reader>, lo: Key, hi: Key, k: Key)
    ensures At(OverlayRange(rs, lo, hi), k) == if Within(k, lo, hi) then Lookup(rs, k) else None
  {
    if rs != [] {
      OverlayRangeLookup(rs[..|rs| - 1], lo, hi, k);
    }
  }

  lemma ScanMapIsGet(s: State, lo: Key, hi: Key, k: Key)
    ensures At(ScanMap(s, lo, hi), k) == if Within(k, lo, hi) then Get(s, k) else None
  {
    OverlayRangeLookup(s.readers, lo, hi, k);
  }

  lemma DisplaySorted(es: seq<Entry>, now: nat)
    requires Sorted(es)
    ensures Sorted(Display(es, now))
  {
  }

  /** A scan is the strictly sorted list of exactly what `get` shows in the range. */
  lemma ScanAgreesWithGet(s: State, lo: Key, hi: Key, now: nat, k: Key, v: Value)
    ensures Sorted(Scan(s, lo, hi, now))
    ensures (k, v) in Scan(s, lo, hi, now) <==> Within(k, lo, hi) && Show(Get(s, k), now) == Some(v)
  {
    var m := LivePart(ScanMap(s, lo, hi), now);
    var es := SortedEntries(m);
    DisplaySorted(es, now);
    ScanMapIsGet(s, lo, hi, k);
    if (k, v) in Display(es, now) {
      var i :| 0 <= i < |es| && Display(es, now)[i] == (k, v);
      assert es[i] in es;
    }
    if k in m && UnpackValue(m[k], now) == Some(v) {
      assert k in KeysOf(es);
      var i :| 0 <= i < |es| && es[i].0 == k;
      assert es[i] in es;
      assert Display(es, now)[i] == (k, v);
    }
  }

  lemma SameMembers(a: seq<Entry>, b: seq<Entry>)
    requires Sorted(a) && Sorted(b) && forall e :: e in a <==> e in b
    ensures a == b
  {
    ToMapLists(a);
    ToMapLists(b);
    assert KeysOf(a) == KeysOf(b);
    ListsToMap(b, ToMap(a));
    SortedUnique(a, b);
  }

  /** Engines that show the same for every key scan the same, for every range. */
  lemma ScansFollowGets(s: State, u: State, lo: Key, hi: Key, now: nat)
    requires forall k :: Show(Get(s, k), now) == Show(Get(u, k), now)
    ensures Scan(s, lo, hi, now) == Scan(u, lo, hi, now)
  {
    forall e: Entry ensures e in Scan(s, lo, hi, now) <==> e in Scan(u, lo, hi, now) {
      ScanAgreesWithGet(s, lo, hi, now, e.0, e.1);
      ScanAgreesWithGet(u, lo, hi, now, e.0, e.1);
    }
    ScanAgreesWithGet(s, lo, hi, now, [], []);
    ScanAgreesWithGet(u, lo, hi, now, [], []);
    SameMembers(Scan(s, lo, hi, now), Scan(u, lo, hi, now));
  }

  /** A safe compaction step leaves every scan as it was, at the compaction clock and later. */
  lemma CompactKeepsScans(s: State, src: nat, now: nat, id: nat, lo: Key, hi: Key, later: nat)
    requires WF(s.readers) && AtLevel(s.readers, src) != [] && ShallowEmpty(s.readers, src)
    requires SafeStep(s.readers, src, now) && now <= later
    ensures Scan(s.(readers := Compact(s.readers, src, now, id)), lo, hi, later) == Scan(s, lo, hi, later)
  {
    var u := s.(readers := Compact(s.readers, src, now, id));
    CompactPreservesIff(s.readers, src, now, id);
    forall k ensures Show(Get(s, k), later) == Show(Get(u, k), later) {
      assert Show(Lookup(Compact(s.readers, src, now, id), k), later) == Show(Lookup(s.readers, k), later);
    }
    ScansFollowGets(s, u, lo, hi, later);
  }

  // ---------------------------------------------------------------------
  // Prefix scans
  // ---------------------------------------------------------------------

  predicate IsPrefix(p: Key, k: Key) {
    |p| <= |k| && k[..|p|] == p
  }

  /** The last position holding a byte below 0xFF, or -1. */
  function LastLow(p: Key): (i: int)
    ensures -1 <= i < |p|
    ensures i >= 0 ==> p[i] < 255
    ensures forall j | i < j < |p| :: p[j] == 255
  {
    if p == [] then -1
    else if p[|p| - 1] < 255 then |p| - 1
    else LastLow(p[..|p| - 1])
  }

  /** The upper bound of a prefix scan: bump the last byte below 0xFF and keep what follows it. */
  function NextKey(p: Key): Key {
    var i := LastLow(p);
    if i >= 0 then p[i := p[i] + 1] else p + [0]
  }

  lemma {:induction false} LtAt(a: Key, b: Key, i: nat)
    requires i < |a| && i < |b| && a[..i] == b[..i] && a[i] < b[i]
    ensures Lt(a, b)
  {
    if i > 0 {
      assert a[0] == a[..i][0] == b[..i][0] == b[0];
      assert a[1..][..i - 1] == a[..i][1..] && b[1..][..i - 1] == b[..i][1..];
      LtAt(a[1..], b[1..], i - 1);
    }
  }

  lemma {:induction false} PrefixLe(p: Key, k: Key)
    requires IsPrefix(p, k)
    ensures Le(p, k)
    ensures p != k ==> Lt(p, k)
    decreases |p|
  {
    if p != [] {
      assert p[0] == k[..|p|][0] == k[0];
      assert k[1..][..|p| - 1] == k[..|p|][1..] == p[1..];
      PrefixLe(p[1..], k[1..]);
      assert p == [p[0]] + p[1..] && k == [k[0]] + k[1..];
    } else if k != [] {
      assert Lt(p, k);
    }
  }

  /** Every key with the prefix lies in the scanned range when some byte can be bumped. */
  lemma PrefixCovered(p: Key, k: Key)
    requires LastLow(p) >= 0 && IsPrefix(p, k)
    ensures Within(k, p, NextKey(p))
  {
    var i := LastLow(p);
    PrefixLe(p, k);
    assert k[..i] == k[..|p|][..i] == p[..i] == NextKey(p)[..i];
    assert k[i] == k[..|p|][i] == p[i];
    LtAt(k, NextKey(p), i);
  }

  /** Between `q ++ [b]` and `q ++ [b + 1]` there are only extensions of the former. */
  lemma {:induction false} BetweenBumps(q: Key, b: byte, k: Key)
    requires b < 255 && Within(k, q + [b], q + [b + 1])
    ensures IsPrefix(q + [b], k)
    decreases |q|
  {
    var lo, hi := q + [b], q + [b + 1];
    if k == lo {
    } else if q == [] {
      assert lo[0] == b && hi[0] == b + 1;
      assert hi[1..] == [];
      assert !Lt(k[1..], []);
      assert k[0] == b;
    } else {
      assert lo[0] == hi[0] == q[0];
      assert lo[1..] == q[1..] + [b] && hi[1..] == q[1..] + [b + 1];
      assert k[0] == q[0];
      BetweenBumps(q[1..], b, k[1..]);
      assert k == [k[0]] + k[1..];
      assert k[..|lo|] == [k[0]] + k[1..][..|lo| - 1];
      assert lo == [q[0]] + lo[1..];
    }
  }

  lemma LastByteLow(p: Key, k: Key)
    requires p != [] && p[|p| - 1] < 255
    ensures Within(k, p, NextKey(p)) <==> IsPrefix(p, k)
  {
    var q, b := p[..|p| - 1], p[|p| - 1];
    assert p == q + [b];
    assert NextKey(p) == q + [b + 1];
    if Within(k, p, NextKey(p)) {
      BetweenBumps(q, b, k);
    }
    if IsPrefix(p, k) {
      PrefixCovered(p, k);
    }
  }

  /** A key in the scanned range without the prefix, when a 0xFF byte follows the bumped one. */
  lemma Intruder(p: Key) returns (k: Key)
    requires LastLow(p) >= 0 && p[|p| - 1] == 255
    ensures Within(k, p, NextKey(p)) && !IsPrefix(p, k)
  {
    var i := LastLow(p);
    k := p[..i] + [p[i] + 1];
    LtAt(p, k, i);
    assert IsPrefix(k, NextKey(p));
    PrefixLe(k, NextKey(p));
  }

  /** A key with the prefix outside the scanned range, when no byte can be bumped. */
  lemma Missed(p: Key) returns (k: Key)
    requires LastLow(p) < 0
    ensures !Within(k, p, NextKey(p)) && IsPrefix(p, k)
  {
    k := p + [0];
    LtIrreflexive(k);
  }

  /** The scanned range is exactly the prefix's keys iff the prefix is non-empty and its last byte is below 0xFF. */
  lemma PrefixRangeIff(p: Key)
    ensures (forall k :: Within(k, p, NextKey(p)) <==> IsPrefix(p, k)) <==> p != [] && p[|p| - 1] < 255
  {
    if p != [] && p[|p| - 1] < 255 {
      forall k ensures Within(k, p, NextKey(p)) <==> IsPrefix(p, k) {
        LastByteLow(p, k);
      }
    } else if LastLow(p) >= 0 {
      var k := Intruder(p);
    } else {
      var k := Missed(p);
    }
  }

  /** It misses no key of the prefix iff some byte of the prefix is below 0xFF. */
  lemma PrefixCoversIff(p: Key)
    ensures (forall k :: IsPrefix(p, k) ==> Within(k, p, NextKey(p))) <==> exists i :: 0 <= i < |p| && p[i] < 255
  {
    if i :| 0 <= i < |p| && p[i] < 255 {
      forall k | IsPrefix(p, k) ensures Within(k, p, NextKey(p)) {
        PrefixCovered(p, k);
      }
    } else {
      var k := Missed(p);
    }
  }

  /** The bound differs from the prefix in its last byte below 0xFF alone; without one it is a zero byte longer. */
  lemma NextKeyBytes(p: Key)
    ensures (forall i | 0 <= i < |p| :: p[i] == 255) ==> NextKey(p) == p + [0]
    ensures forall i | 0 <= i < |p| && p[i] < 255 && (forall j | i < j < |p| :: p[j] == 255) ::
              && |NextKey(p)| == |p| && NextKey(p)[i] == p[i] + 1
              && forall j | 0 <= j < |p| && j != i :: NextKey(p)[j] == p[j]
  {
  }

  /** Nothing lies between a key and the key with a zero byte behind it. */
  lemma {:induction false} NothingBetween(p: Key, k: Key)
    requires Within(k, p, p + [0])
    ensures k == p
    decreases |p|
  {
    var hi := p + [0];
    if p == [] {
      assert hi[0] == 0 && hi[1..] == [];
      assert k != [] ==> !Lt(k[1..], []);
    } else {
      assert hi[0] == p[0] && hi[1..] == p[1..] + [0];
      assert k[0] == p[0];
      NothingBetween(p[1..], k[1..]);
      assert k == [k[0]] + k[1..] && p == [p[0]] + p[1..];
    }
  }

  function PrefixScan(s: State, p: Key, now: nat): seq<Entry> {
    Scan(s, p, NextKey(p), now)
  }

  /** An engine holding one visible key. */
  lemma OneVisible(k: Key, now: nat) returns (s: State, v: Value)
    ensures Show(Get(s, k), now) == Some(v)
  {
    v := [7];
    s := EMPTY.(active := map[k := EncodeWithSeq(v, 1)]);
    InnerRoundTrip(v, 1, now);
  }

  /** The scan is right about `(k, v)`: it returns the pair iff the key has the prefix and shows `v`. */
  ghost predicate RightAbout(s: State, p: Key, now: nat, k: Key, v: Value) {
    (k, v) in PrefixScan(s, p, now) <==> IsPrefix(p, k) && Show(Get(s, k), now) == Some(v)
  }

  lemma RightAboutIff(s: State, p: Key, now: nat, k: Key, v: Value)
    requires Show(Get(s, k), now) == Some(v)
    ensures RightAbout(s, p, now, k, v) <==> (Within(k, p, NextKey(p)) <==> IsPrefix(p, k))
  {
    ScanAgreesWithGet(s, p, NextKey(p), now, k, v);
  }

  lemma LowByteRight(s: State, p: Key, now: nat, k: Key, v: Value)
    requires p != [] && p[|p| - 1] < 255
    ensures RightAbout(s, p, now, k, v)
  {
    ScanAgreesWithGet(s, p, NextKey(p), now, k, v);
    LastByteLow(p, k);
  }

  /**
   A prefix scan returns exactly the visible keys with the prefix, on every engine state, iff the
   prefix is non-empty and its last byte is below 0xFF.
   */
  lemma PrefixScanIff(p: Key, now: nat)
    ensures (forall s, k, v :: RightAbout(s, p, now, k, v)) <==> p != [] && p[|p| - 1] < 255
  {
    if p != [] && p[|p| - 1] < 255 {
      forall s, k, v ensures RightAbout(s, p, now, k, v) {
        LowByteRight(s, p, now, k, v);
      }
    } else {
      var k: Key;
      if LastLow(p) >= 0 { k := Intruder(p); } else { k := Missed(p); }
      var s, v := OneVisible(k, now);
      RightAboutIff(s, p, now, k, v);
    }
  }

  /** For a prefix without a byte below 0xFF, the empty one included, the scan returns at most the prefix itself. */
  lemma NoLowByteScan(s: State, p: Key, now: nat, k: Key, v: Value)
    requires forall i | 0 <= i < |p| :: p[i] == 255
    ensures (k, v) in PrefixScan(s, p, now) <==> k == p && Show(Get(s, k), now) == Some(v)
  {
    NextKeyBytes(p);
    ScanAgreesWithGet(s, p, NextKey(p), now, k, v);
    if Within(k, p, p + [0]) {
      NothingBetween(p, k);
    }
    PrefixLe(p, p + [0]);
  }
}
