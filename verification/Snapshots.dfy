/**
 Snapshots (src/engine.rs:272-301): every stored version is numbered by the write that made it,
 versions of a key are ordered by number, and `get_at` returns the newest stored version below
 the snapshot.
 */
module Snapshots {
  import opened Bytes
  import opened OrderedMaps
  import opened ValueCodec
  import opened Tables
  import opened Compaction
  import opened Cascade
  import opened Sizes
  import opened Machine

  function SeqOf(v: Value): nat {
    DecodeWithSeq(v).1
  }

  /** The version that write number `q` stores. */
  function VersionOf(evs: seq<Event>, q: nat): Value
    requires 1 <= q <= |evs|
  {
    EncodeWithSeq(InnerOf(evs[q - 1].op, evs[q - 1].now), q)
  }

  lemma VersionSeq(evs: seq<Event>, q: nat)
    requires 1 <= q <= |evs| && q < U64
    ensures SeqOf(VersionOf(evs, q)) == q
  {
    SeqRoundTrip(InnerOf(evs[q - 1].op, evs[q - 1].now), q);
  }

  // ---------------------------------------------------------------------
  // Versions that are stored
  // ---------------------------------------------------------------------

  ghost predicate StoredIn(rs: seq<Reader>, k: Key, v: Value) {
    exists r :: r in rs && k in r.data && r.data[k] == v
  }

  ghost predicate Stored(s: State, k: Key, v: Value) {
    (k in s.active && s.active[k] == v) || StoredIn(s.readers, k, v)
  }

  /** A stored version of a merged key's map is a version that some table held. */
  lemma MergedStored(rs: seq<Reader>, src: nat, k: Key)
    requires WF(rs) && AtLevel(rs, src) != [] && ShallowEmpty(rs, src) && k in Merged(rs, src)
    ensures StoredIn(rs, k, Merged(rs, src)[k])
  {
    var p := MergedNewest(rs, src, k);
    assert rs[p] in rs;
  }

  /** Compaction invents no version. */
  lemma CompactStored(rs: seq<Reader>, src: nat, now: nat, id: nat, k: Key, v: Value)
    requires WF(rs) && AtLevel(rs, src) != [] && ShallowEmpty(rs, src)
    requires StoredIn(Compact(rs, src, now, id), k, v)
    ensures StoredIn(rs, k, v)
  {
    var r :| r in Compact(rs, src, now, id) && k in r.data && r.data[k] == v;
    if r in Survivors(rs, src) {
      PickMember(rs, Surviving(src, Lo(rs, src), Hi(rs, src)), r);
    } else {
      MergedStored(rs, src, k);
    }
  }

  lemma CascadeStored(rs: seq<Reader>, id: nat, level: nat, now: nat, o: Options, k: Key, v: Value)
    requires o.l0Threshold >= 1 && CascadeInv(rs, o, level) && WF(rs) && forall r <- rs :: r.meta.id < id
    requires StoredIn(Cascaded(rs, id, level, now, o).0, k, v)
    ensures StoredIn(rs, k, v)
  {
    var keeps := xs => StoredIn(xs, k, v) ==> StoredIn(rs, k, v);
    forall xs, l: nat, i: nat | WF(xs) && AtLevel(xs, l) != [] && ShallowEmpty(xs, l) && keeps(xs)
      ensures keeps(Compact(xs, l, now, i))
    {
      if StoredIn(Compact(xs, l, now, i), k, v) {
        CompactStored(xs, l, now, i, k, v);
      }
    }
    CascadeInduction(rs, id, level, now, o, keeps);
  }

  /** A flush with its compactions stores only what was stored before. */
  lemma FlushedStored(s: State, now: nat, o: Options, k: Key, v: Value)
    requires Inv(s, o) && s.active != map[] && Stored(Flushed(s, now, o), k, v)
    ensures Stored(s, k, v)
  {
    FlushedReadersInv(s, o);
    CascadeStored(FlushedReaders(s), s.nextId + 1, 0, now, o, k, v);
    TopStored(s, NewTable(s.active, s.nextId, 0), k, v);
  }

  lemma TopStored(s: State, t: Reader, k: Key, v: Value)
    requires t.data == s.active && StoredIn(s.readers + [t], k, v)
    ensures Stored(s, k, v)
  {
    var r :| r in s.readers + [t] && k in r.data && r.data[k] == v;
  }

  /** A write stores one new version. */
  lemma AppliedStored(s: State, e: Event, k: Key, v: Value)
    requires Stored(Applied(s, e), k, v)
    ensures Stored(s, k, v) || (k == e.op.key && v == EncodeWithSeq(InnerOf(e.op, e.now), s.nextSeq))
  {
  }

  // ---------------------------------------------------------------------
  // The order of versions, for any numbering of values
  // ---------------------------------------------------------------------

  type Numbering = Value -> nat

  /** `a`'s versions are older than `b`'s. */
  ghost predicate OlderThan(a: map<Key, Value>, b: map<Key, Value>, num: Numbering) {
    forall k :: k in a && k in b ==> num(a[k]) < num(b[k])
  }

  ghost predicate Chronological(rs: seq<Reader>, num: Numbering) {
    forall i, j {:trigger OlderThan(rs[i].data, rs[j].data, num)} | 0 <= i < j < |rs| ::
        OlderThan(rs[i].data, rs[j].data, num)
  }

  /** Along the readers and into the active list the numbers of a key increase. */
  ghost predicate Ordered(s: State, num: Numbering) {
    Chronological(s.readers, num) && forall r <- s.readers :: OlderThan(r.data, s.active, num)
  }

  lemma ChronologicalAppend(rs: seq<Reader>, t: Reader, num: Numbering)
    requires Chronological(rs, num) && forall r <- rs :: OlderThan(r.data, t.data, num)
    ensures Chronological(rs + [t], num)
  {
  }

  lemma {:induction false} ChronologicalPick(rs: seq<Reader>, c: Choice, num: Numbering)
    requires Chronological(rs, num)
    ensures Chronological(Pick(rs, c), num)
  {
    if rs != [] {
      var init, r := rs[..|rs| - 1], rs[|rs| - 1];
      assert rs == init + [r];
      ChronologicalPick(init, c, num);
      PickLast(init, r, c);
      PickMembers(init, c);
      if Takes(c, r.meta) {
        forall x <- Pick(init, c) ensures OlderThan(x.data, r.data, num) {
          var i :| 0 <= i < |init| && init[i] == x;
          assert OlderThan(rs[i].data, rs[|rs| - 1].data, num);
        }
        ChronologicalAppend(Pick(init, c), r, num);
      }
    }
  }

  lemma MergedNewest(rs: seq<Reader>, src: nat, k: Key) returns (p: int)
    requires WF(rs) && AtLevel(rs, src) != [] && ShallowEmpty(rs, src) && k in Merged(rs, src)
    ensures Newest(rs, k, p) && InMerge(rs, src, p) && Merged(rs, src)[k] == rs[p].data[k]
  {
    MergedLookup(rs, src, k);
    MergedHolder(rs, src, k);
    LookupNewest(rs, k);
    var q :| InMerge(rs, src, q) && k in rs[q].data;
    p :| Newest(rs, k, p) && Lookup(rs, k) == Some(rs[p].data[k]);
    NewestIsMerged(rs, src, k, q, p);
  }

  /** A surviving version of a merged key is older than the merged one. */
  lemma SurvivorOlder(rs: seq<Reader>, src: nat, i: int, k: Key, num: Numbering)
    requires WF(rs) && AtLevel(rs, src) != [] && ShallowEmpty(rs, src) && Chronological(rs, num)
    requires 0 <= i < |rs| && !InMerge(rs, src, i) && k in rs[i].data && k in Merged(rs, src)
    ensures num(rs[i].data[k]) < num(Merged(rs, src)[k])
  {
    var p := MergedNewest(rs, src, k);
    assert i < p;
    assert OlderThan(rs[i].data, rs[p].data, num);
  }

  lemma OutputChronological(rs: seq<Reader>, src: nat, now: nat, x: Reader, num: Numbering)
    requires WF(rs) && AtLevel(rs, src) != [] && ShallowEmpty(rs, src) && Chronological(rs, num)
    requires x in Survivors(rs, src)
    ensures OlderThan(x.data, LivePart(Merged(rs, src), now), num)
  {
    var kept := LivePart(Merged(rs, src), now);
    PickMember(rs, Surviving(src, Lo(rs, src), Hi(rs, src)), x);
    var i :| 0 <= i < |rs| && rs[i] == x;
    forall k | k in x.data && k in kept ensures num(x.data[k]) < num(kept[k]) {
      SurvivorOlder(rs, src, i, k, num);
    }
  }

  /** Compaction keeps the order of versions, whatever numbers them. */
  lemma CompactChronological(rs: seq<Reader>, src: nat, now: nat, id: nat, num: Numbering)
    requires WF(rs) && AtLevel(rs, src) != [] && ShallowEmpty(rs, src) && Chronological(rs, num)
    ensures Chronological(Compact(rs, src, now, id), num)
  {
    ChronologicalPick(rs, Surviving(src, Lo(rs, src), Hi(rs, src)), num);
    var kept := LivePart(Merged(rs, src), now);
    if kept == map[] {
      assert Compact(rs, src, now, id) == Survivors(rs, src);
    } else {
      forall x <- Survivors(rs, src) ensures OlderThan(x.data, kept, num) {
        OutputChronological(rs, src, now, x, num);
      }
      ChronologicalAppend(Survivors(rs, src), NewTable(kept, id, src + 1), num);
    }
  }

  lemma CascadeChronological(rs: seq<Reader>, id: nat, level: nat, now: nat, o: Options, num: Numbering)
    requires o.l0Threshold >= 1 && CascadeInv(rs, o, level) && Chronological(rs, num)
    requires WF(rs) && forall r <- rs :: r.meta.id < id
    ensures Chronological(Cascaded(rs, id, level, now, o).0, num)
  {
    var keeps := xs => Chronological(xs, num);
    forall xs, l: nat, i: nat | WF(xs) && AtLevel(xs, l) != [] && ShallowEmpty(xs, l) && keeps(xs)
      ensures keeps(Compact(xs, l, now, i))
    {
      CompactChronological(xs, l, now, i, num);
    }
    CascadeInduction(rs, id, level, now, o, keeps);
  }

  lemma FlushedOrdered(s: State, now: nat, o: Options, num: Numbering)
    requires Inv(s, o) && Ordered(s, num) && s.active != map[]
    ensures Ordered(Flushed(s, now, o), num)
  {
    FlushedReadersInv(s, o);
    ChronologicalAppend(s.readers, NewTable(s.active, s.nextId, 0), num);
    CascadeChronological(FlushedReaders(s), s.nextId + 1, 0, now, o, num);
  }

  /** A write keeps the order if its version is numbered above the stored ones of its key. */
  lemma AppliedOrdered(s: State, e: Event, num: Numbering)
    requires Ordered(s, num)
    requires forall r <- s.readers | e.op.key in r.data ::
               num(r.data[e.op.key]) < num(EncodeWithSeq(InnerOf(e.op, e.now), s.nextSeq))
    ensures Ordered(Applied(s, e), num)
  {
    forall r <- s.readers ensures OlderThan(r.data, Applied(s, e).active, num) {
      assert OlderThan(r.data, s.active, num);
    }
  }

  // ---------------------------------------------------------------------
  // Numbered runs
  // ---------------------------------------------------------------------

  /** `v` is what the write it names stored under `k`. */
  ghost predicate Genuine(evs: seq<Event>, k: Key, v: Value) {
    1 <= SeqOf(v) <= |evs| && evs[SeqOf(v) - 1].op.key == k && v == VersionOf(evs, SeqOf(v))
  }

  ghost predicate AllGenuine(s: State, evs: seq<Event>) {
    forall k, v | Stored(s, k, v) :: Genuine(evs, k, v)
  }

  ghost predicate Numbered(s: State, evs: seq<Event>) {
    AllGenuine(s, evs) && Ordered(s, SeqOf)
  }

  lemma VersionKept(evs: seq<Event>, e: Event, q: nat)
    requires 1 <= q <= |evs|
    ensures VersionOf(evs + [e], q) == VersionOf(evs, q)
  {
  }

  lemma GenuineLater(evs: seq<Event>, e: Event, k: Key, v: Value)
    requires Genuine(evs, k, v)
    ensures Genuine(evs + [e], k, v)
  {
    VersionKept(evs, e, SeqOf(v));
  }

  lemma GenuineNew(evs: seq<Event>, e: Event)
    requires |evs| + 1 < U64
    ensures Genuine(evs + [e], e.op.key, EncodeWithSeq(InnerOf(e.op, e.now), |evs| + 1))
    ensures SeqOf(EncodeWithSeq(InnerOf(e.op, e.now), |evs| + 1)) == |evs| + 1
  {
    assert (evs + [e])[|evs|] == e;
    VersionSeq(evs + [e], |evs| + 1);
  }

  lemma AppliedGenuine(s: State, evs: seq<Event>, e: Event)
    requires AllGenuine(s, evs) && s.nextSeq == |evs| + 1 && |evs| + 1 < U64
    ensures AllGenuine(Applied(s, e), evs + [e])
  {
    forall k, v | Stored(Applied(s, e), k, v) ensures Genuine(evs + [e], k, v) {
      AppliedStored(s, e, k, v);
      if Stored(s, k, v) {
        GenuineLater(evs, e, k, v);
      } else {
        GenuineNew(evs, e);
      }
    }
  }

  lemma AppliedNumbered(s: State, evs: seq<Event>, e: Event)
    requires Numbered(s, evs) && s.nextSeq == |evs| + 1 && |evs| + 1 < U64
    ensures Numbered(Applied(s, e), evs + [e])
  {
    AppliedGenuine(s, evs, e);
    GenuineNew(evs, e);
    forall r <- s.readers | e.op.key in r.data ensures SeqOf(r.data[e.op.key]) <= |evs| {
      assert StoredIn(s.readers, e.op.key, r.data[e.op.key]);
      assert Genuine(evs, e.op.key, r.data[e.op.key]);
    }
    AppliedOrdered(s, e, SeqOf);
  }

  lemma FlushNumbered(s: State, evs: seq<Event>, now: nat, o: Options)
    requires Inv(s, o) && Numbered(s, evs) && s.active != map[]
    ensures Numbered(Flushed(s, now, o), evs)
  {
    FlushedOrdered(s, now, o, SeqOf);
    forall k, v | Stored(Flushed(s, now, o), k, v) ensures Genuine(evs, k, v) {
      FlushedStored(s, now, o, k, v);
    }
  }

  lemma WriteNumbered(s: State, evs: seq<Event>, e: Event, o: Options)
    requires Inv(s, o) && Numbered(s, evs) && s.nextSeq == |evs| + 1 && |evs| + 1 < U64
    ensures Numbered(Write(s, e, o), evs + [e])
  {
    AppliedInv(s, e, o);
    AppliedNumbered(s, evs, e);
    assert e.op.key in Applied(s, e).active;
    if Overflows(s, e, o) {
      FlushNumbered(Applied(s, e), evs + [e], e.now, o);
    }
  }

  /**
   In every reachable state each stored version is what the write it names stored, and along the
   reader list and into the memtable a key's sequence numbers strictly increase.
   */
  lemma {:induction false} RunNumbered(evs: seq<Event>, o: Options)
    requires o.l0Threshold >= 1 && |evs| < U64
    ensures Numbered(Run(evs, o), evs)
  {
    if evs != [] {
      var init, e := evs[..|evs| - 1], evs[|evs| - 1];
      assert evs == init + [e];
      RunNumbered(init, o);
      RunInv(init, o);
      WriteNumbered(Run(init, o), init, e, o);
    }
  }

  // ---------------------------------------------------------------------
  // Reading at a snapshot
  // ---------------------------------------------------------------------

  function LookupAt(rs: seq<Reader>, k: Key, snap: nat, num: Numbering): Option<Value> {
    if rs == [] then None
    else
      var r := rs[|rs| - 1];
      if k in r.data && num(r.data[k]) < snap then Some(r.data[k])
      else LookupAt(rs[..|rs| - 1], k, snap, num)
  }

  /** The stored version of the highest number below `snap`. */
  function FindAt(s: State, k: Key, snap: nat, num: Numbering): Option<Value> {
    if k in s.active && num(s.active[k]) < snap then Some(s.active[k])
    else LookupAt(s.readers, k, snap, num)
  }

  /** The stored version that `get_at` shows. */
  function GetAt(s: State, k: Key, snap: nat): Option<Value> {
    FindAt(s, k, snap, SeqOf)
  }

  lemma {:induction false} LookupAtStored(rs: seq<Reader>, k: Key, snap: nat, num: Numbering)
    ensures var v := LookupAt(rs, k, snap, num); v.Some? ==> StoredIn(rs, k, v.value) && num(v.value) < snap
  {
    if rs != [] {
      var init, r := rs[..|rs| - 1], rs[|rs| - 1];
      LookupAtStored(init, k, snap, num);
      assert r in rs && forall x <- init :: x in rs;
    }
  }

  lemma {:induction false} LookupAtNewest(rs: seq<Reader>, k: Key, snap: nat, i: nat, num: Numbering)
    requires Chronological(rs, num) && i < |rs| && k in rs[i].data && num(rs[i].data[k]) < snap
    ensures var v := LookupAt(rs, k, snap, num); v.Some? && num(rs[i].data[k]) <= num(v.value)
  {
    var init, r := rs[..|rs| - 1], rs[|rs| - 1];
    if i < |init| {
      assert OlderThan(rs[i].data, r.data, num);
      LookupAtNewest(init, k, snap, i, num);
    }
  }

  /** What a snapshot read finds is stored and numbered below the snapshot. */
  lemma FoundStored(s: State, k: Key, snap: nat, num: Numbering)
    ensures var v := FindAt(s, k, snap, num); v.Some? ==> Stored(s, k, v.value) && num(v.value) < snap
  {
    LookupAtStored(s.readers, k, snap, num);
  }

  /** No stored version below the snapshot is newer than the one found. */
  lemma FoundNewest(s: State, k: Key, snap: nat, w: Value, num: Numbering)
    requires Ordered(s, num) && Stored(s, k, w) && num(w) < snap
    ensures var v := FindAt(s, k, snap, num); v.Some? && num(w) <= num(v.value)
  {
    if StoredIn(s.readers, k, w) {
      var x :| x in s.readers && k in x.data && x.data[k] == w;
      var i :| 0 <= i < |s.readers| && s.readers[i] == x;
      assert OlderThan(x.data, s.active, num);
      LookupAtNewest(s.readers, k, snap, i, num);
    }
  }

  /** The only stored version from its number on, up to the snapshot, is found. */
  lemma FindsOnly(s: State, k: Key, snap: nat, v: Value, num: Numbering)
    requires Ordered(s, num) && Stored(s, k, v) && num(v) < snap
    requires forall w | Stored(s, k, w) && num(v) <= num(w) < snap :: w == v
    ensures FindAt(s, k, snap, num) == Some(v)
  {
    FoundStored(s, k, snap, num);
    FoundNewest(s, k, snap, v, num);
  }

  /** Two snapshots with no stored version between them find the same. */
  lemma FindsSame(s: State, k: Key, snap: nat, earlier: nat, num: Numbering)
    requires Ordered(s, num) && earlier <= snap
    requires forall w | Stored(s, k, w) && num(w) < snap :: num(w) < earlier
    requires forall v, w | Stored(s, k, v) && Stored(s, k, w) && num(v) == num(w) :: v == w
    ensures FindAt(s, k, snap, num) == FindAt(s, k, earlier, num)
  {
    var v, w := FindAt(s, k, snap, num), FindAt(s, k, earlier, num);
    FoundStored(s, k, snap, num);
    FoundStored(s, k, earlier, num);
    if v.Some? {
      FoundNewest(s, k, earlier, v.value, num);
    }
    if w.Some? {
      FoundNewest(s, k, snap, w.value, num);
    }
  }

  /** Write number `q` is the last one to `k` among the first `n`. */
  ghost predicate LastWrite(evs: seq<Event>, k: Key, n: nat, q: nat) {
    1 <= q <= n <= |evs| && evs[q - 1].op.key == k && forall i | q <= i < n :: evs[i].op.key != k
  }

  /** No write to the key lies between the last one and the snapshot. */
  lemma NoLaterWrite(evs: seq<Event>, n: nat, q: nat, k: Key, p: nat)
    requires LastWrite(evs, k, n, q) && 1 <= p <= n && evs[p - 1].op.key == k
    ensures p <= q
  {
    var i := p - 1;
    assert !(q <= i < n);
  }

  /** A stored version numbered up to the snapshot is numbered at most as the last write. */
  lemma LastOrOlder(s: State, evs: seq<Event>, n: nat, q: nat, k: Key, w: Value)
    requires AllGenuine(s, evs) && LastWrite(evs, k, n, q) && Stored(s, k, w) && SeqOf(w) < n + 1
    ensures SeqOf(w) <= q
  {
    assert Genuine(evs, k, w);
    NoLaterWrite(evs, n, q, k, SeqOf(w));
  }

  /** The number determines the stored version. */
  lemma StoredOnce(s: State, evs: seq<Event>, k: Key, v: Value, w: Value)
    requires AllGenuine(s, evs) && Stored(s, k, v) && Stored(s, k, w) && SeqOf(v) == SeqOf(w)
    ensures v == w
  {
    SameNumber(evs, k, v, w);
  }

  lemma SameNumber(evs: seq<Event>, k: Key, v: Value, w: Value)
    requires Genuine(evs, k, v) && Genuine(evs, k, w) && SeqOf(v) == SeqOf(w)
    ensures v == w
  {
  }

  /** While the version of the last write is stored, it is the only one from its number on. */
  lemma CurrentOnly(s: State, evs: seq<Event>, n: nat, q: nat, k: Key, v: Value)
    requires AllGenuine(s, evs) && LastWrite(evs, k, n, q) && Stored(s, k, v) && SeqOf(v) == q
    ensures forall w | Stored(s, k, w) && q <= SeqOf(w) < n + 1 :: w == v
  {
    forall w | Stored(s, k, w) && q <= SeqOf(w) < n + 1 ensures w == v {
      LastOrOlder(s, evs, n, q, k, w);
      StoredOnce(s, evs, k, v, w);
    }
  }

  /** Once it is lost, no stored version lies between it and the snapshot. */
  lemma NoneBetween(s: State, evs: seq<Event>, n: nat, q: nat, k: Key)
    requires AllGenuine(s, evs) && LastWrite(evs, k, n, q) && forall w | Stored(s, k, w) :: SeqOf(w) != q
    ensures forall w | Stored(s, k, w) && SeqOf(w) < n + 1 :: SeqOf(w) < q
  {
    forall w | Stored(s, k, w) && SeqOf(w) < n + 1 ensures SeqOf(w) < q {
      LastOrOlder(s, evs, n, q, k, w);
    }
  }

  lemma NumbersDiffer(s: State, evs: seq<Event>, k: Key)
    requires AllGenuine(s, evs)
    ensures forall v, w | Stored(s, k, v) && Stored(s, k, w) && SeqOf(v) == SeqOf(w) :: v == w
  {
    forall v, w | Stored(s, k, v) && Stored(s, k, w) && SeqOf(v) == SeqOf(w) ensures v == w {
      StoredOnce(s, evs, k, v, w);
    }
  }

  /** The version of a write is stored if and only if some version of that number is. */
  lemma VersionStored(s: State, evs: seq<Event>, k: Key, q: nat, w: Value)
    requires AllGenuine(s, evs) && Stored(s, k, w) && SeqOf(w) == q
    ensures 1 <= q <= |evs| && w == VersionOf(evs, q)
  {
    assert Genuine(evs, k, w);
  }

  lemma FindsCurrent(s: State, evs: seq<Event>, n: nat, q: nat, k: Key, v: Value)
    requires Numbered(s, evs) && LastWrite(evs, k, n, q) && Stored(s, k, v) && SeqOf(v) == q
    ensures FindAt(s, k, n + 1, SeqOf) == Some(v)
  {
    CurrentOnly(s, evs, n, q, k, v);
    FindsOnly(s, k, n + 1, v, SeqOf);
  }

  lemma FallsBack(s: State, evs: seq<Event>, n: nat, q: nat, k: Key)
    requires Numbered(s, evs) && LastWrite(evs, k, n, q) && forall w | Stored(s, k, w) :: SeqOf(w) != q
    ensures FindAt(s, k, n + 1, SeqOf) == FindAt(s, k, q, SeqOf)
  {
    NoneBetween(s, evs, n, q, k);
    NumbersDiffer(s, evs, k);
    FindsSame(s, k, n + 1, q, SeqOf);
  }

  lemma NotStored(s: State, evs: seq<Event>, k: Key, q: nat, v: Value)
    requires AllGenuine(s, evs) && 1 <= q <= |evs| && v == VersionOf(evs, q) && !Stored(s, k, v)
    ensures forall w | Stored(s, k, w) :: SeqOf(w) != q
  {
    forall w | Stored(s, k, w) ensures SeqOf(w) != q {
      if SeqOf(w) == q { VersionStored(s, evs, k, q, w); }
    }
  }

  lemma FindsVersion(s: State, evs: seq<Event>, n: nat, q: nat, k: Key, v: Value)
    requires Numbered(s, evs) && LastWrite(evs, k, n, q) && SeqOf(v) == q
    requires !Stored(s, k, v) ==> forall w | Stored(s, k, w) :: SeqOf(w) != q
    ensures GetAt(s, k, n + 1) == if Stored(s, k, v) then Some(v) else GetAt(s, k, q)
  {
    if Stored(s, k, v) {
      FindsCurrent(s, evs, n, q, k, v);
    } else {
      FallsBack(s, evs, n, q, k);
    }
  }

  /**
   A snapshot taken after `n` writes finds the version current at that time while it is stored, and
   else the newest older one that still is: an overwritten memtable entry or a compacted one is lost.
   */
  lemma SnapshotFinds(evs: seq<Event>, n: nat, q: nat, k: Key, o: Options)
    requires o.l0Threshold >= 1 && |evs| < U64 && LastWrite(evs, k, n, q)
    ensures var s, v := Run(evs, o), VersionOf(evs, q);
            GetAt(s, k, n + 1) == if Stored(s, k, v) then Some(v) else GetAt(s, k, q)
  {
    RunNumbered(evs, o);
    VersionSeq(evs, q);
    if !Stored(Run(evs, o), k, VersionOf(evs, q)) {
      NotStored(Run(evs, o), evs, k, q, VersionOf(evs, q));
    }
    FindsVersion(Run(evs, o), evs, n, q, k, VersionOf(evs, q));
  }

  /** The specification's value of a key is that of its last write. */
  lemma {:induction false} SpecLastWrite(evs: seq<Event>, k: Key, q: nat)
    requires LastWrite(evs, k, |evs|, q)
    ensures At(SpecRun(evs), k) == Some(InnerOf(evs[q - 1].op, evs[q - 1].now))
  {
    var init := evs[..|evs| - 1];
    if q < |evs| {
      assert LastWrite(init, k, |init|, q);
      SpecLastWrite(init, k, q);
    }
  }

  /** What the specification shows for a key is what the version of its last write shows. */
  lemma SpecShowsVersion(evs: seq<Event>, n: nat, q: nat, k: Key, t: nat)
    requires LastWrite(evs, k, n, q)
    ensures SpecGet(SpecRun(evs[..n]), k, t) == Show(Some(VersionOf(evs, q)), t)
  {
    assert LastWrite(evs[..n], k, |evs[..n]|, q);
    SpecLastWrite(evs[..n], k, q);
    InnerRoundTrip(InnerOf(evs[q - 1].op, evs[q - 1].now), q, t);
  }

  /** `w` is the newest stored version of `k` numbered below `snap`. */
  ghost predicate NewestBelow(s: State, k: Key, snap: nat, w: Value, num: Numbering) {
    && Stored(s, k, w) && num(w) < snap
    && forall x | Stored(s, k, x) && num(x) < snap :: num(x) <= num(w)
  }

  ghost predicate NoneBelow(s: State, k: Key, snap: nat, num: Numbering) {
    forall x | Stored(s, k, x) :: snap <= num(x)
  }

  /** A read finds exactly the newest stored version below its snapshot, and nothing exactly when there is none. */
  lemma FindsNewestBelow(s: State, k: Key, snap: nat, num: Numbering)
    requires Ordered(s, num)
    requires forall v, w | Stored(s, k, v) && Stored(s, k, w) && num(v) == num(w) :: v == w
    ensures forall w :: NewestBelow(s, k, snap, w, num) <==> FindAt(s, k, snap, num) == Some(w)
    ensures NoneBelow(s, k, snap, num) <==> FindAt(s, k, snap, num) == None
  {
    FoundStored(s, k, snap, num);
    forall w | Stored(s, k, w) && num(w) < snap
      ensures var v := FindAt(s, k, snap, num); v.Some? && num(w) <= num(v.value)
    {
      FoundNewest(s, k, snap, w, num);
    }
  }

  /** What the stored versions below `snap` make a read show. */
  ghost predicate ShownBelow(s: State, k: Key, snap: nat, shown: Option<Value>, t: nat, num: Numbering) {
    || (exists w :: NewestBelow(s, k, snap, w, num) && Show(Some(w), t) == shown)
    || (NoneBelow(s, k, snap, num) && shown == None)
  }

  lemma ShowsBelow(s: State, k: Key, snap: nat, shown: Option<Value>, t: nat, num: Numbering)
    requires Ordered(s, num)
    requires forall v, w | Stored(s, k, v) && Stored(s, k, w) && num(v) == num(w) :: v == w
    ensures Show(FindAt(s, k, snap, num), t) == shown <==> ShownBelow(s, k, snap, shown, t, num)
  {
    FindsNewestBelow(s, k, snap, num);
    var got := FindAt(s, k, snap, num);
    if got.Some? {
      assert NewestBelow(s, k, snap, got.value, num);
    }
  }

  /**
   What a snapshot read shows is what the key showed when the snapshot was taken if and only if the version current
   then is still stored, or the newest older version that still is shows the same, or there is no older one and the
   key was not visible.
   */
  lemma SnapshotShowsIff(evs: seq<Event>, n: nat, q: nat, k: Key, o: Options, t: nat)
    requires o.l0Threshold >= 1 && |evs| < U64 && LastWrite(evs, k, n, q)
    ensures var s, v := Run(evs, o), VersionOf(evs, q);
            Show(GetAt(s, k, n + 1), t) == SpecGet(SpecRun(evs[..n]), k, t) <==>
            Stored(s, k, v) || ShownBelow(s, k, q, Show(Some(v), t), t, SeqOf)
  {
    RunNumbered(evs, o);
    SnapshotFinds(evs, n, q, k, o);
    SpecShowsVersion(evs, n, q, k, t);
    NumbersDiffer(Run(evs, o), evs, k);
    ShowsBelow(Run(evs, o), k, q, Show(Some(VersionOf(evs, q)), t), t, SeqOf);
  }

  /** A key first written after the snapshot is absent from it, as it was then. */
  lemma SnapshotHidesLater(evs: seq<Event>, n: nat, k: Key, o: Options)
    requires o.l0Threshold >= 1 && n <= |evs| < U64
    requires forall i | 0 <= i < n :: evs[i].op.key != k
    ensures GetAt(Run(evs, o), k, n + 1) == None
    ensures k !in SpecRun(evs[..n])
  {
    RunNumbered(evs, o);
    SpecUntouched(evs[..n], 0, k);
    var got := GetAt(Run(evs, o), k, n + 1);
    FoundStored(Run(evs, o), k, n + 1, SeqOf);
    NotYetWritten(Run(evs, o), evs, n, k, got);
  }

  lemma NotYetWritten(s: State, evs: seq<Event>, n: nat, k: Key, got: Option<Value>)
    requires AllGenuine(s, evs) && n <= |evs| && forall i | 0 <= i < n :: evs[i].op.key != k
    requires got.Some? ==> Stored(s, k, got.value) && SeqOf(got.value) < n + 1
    ensures got == None
  {
  }

  lemma {:induction false} LookupAtAll(rs: seq<Reader>, k: Key, snap: nat, num: Numbering)
    requires forall r <- rs :: k in r.data ==> num(r.data[k]) < snap
    ensures LookupAt(rs, k, snap, num) == Lookup(rs, k)
  {
    if rs != [] {
      LookupAtAll(rs[..|rs| - 1], k, snap, num);
    }
  }

  /** When every stored version of the key is below the snapshot, the read is that of `get`. */
  lemma FindsLatest(s: State, k: Key, snap: nat, num: Numbering)
    requires forall v | Stored(s, k, v) :: num(v) < snap
    ensures FindAt(s, k, snap, num) == Get(s, k)
  {
    forall r <- s.readers | k in r.data ensures num(r.data[k]) < snap {
      assert Stored(s, k, r.data[k]);
    }
    assert k in s.active ==> Stored(s, k, s.active[k]);
    LookupAtAll(s.readers, k, snap, num);
  }

  /** A stored version of a key not written since is numbered below the snapshot. */
  lemma StoredBelow(s: State, evs: seq<Event>, n: nat, k: Key, v: Value)
    requires AllGenuine(s, evs) && Stored(s, k, v) && n <= |evs|
    requires forall i | n <= i < |evs| :: evs[i].op.key != k
    ensures SeqOf(v) < n + 1
  {
    assert Genuine(evs, k, v);
    var i := SeqOf(v) - 1;
    assert !(n <= i < |evs|);
  }

  /** A key not written since the snapshot is read as by `get`, through any flushes and compactions. */
  lemma SnapshotIsGet(evs: seq<Event>, n: nat, k: Key, o: Options)
    requires o.l0Threshold >= 1 && n <= |evs| < U64
    requires forall i | n <= i < |evs| :: evs[i].op.key != k
    ensures GetAt(Run(evs, o), k, n + 1) == Get(Run(evs, o), k)
  {
    var s := Run(evs, o);
    RunNumbered(evs, o);
    forall v | Stored(s, k, v) ensures SeqOf(v) < n + 1 {
      StoredBelow(s, evs, n, k, v);
    }
    FindsLatest(s, k, n + 1, SeqOf);
  }

  lemma {:induction false} SpecUntouched(evs: seq<Event>, n: nat, k: Key)
    requires n <= |evs| && forall i | n <= i < |evs| :: evs[i].op.key != k
    ensures At(SpecRun(evs), k) == At(SpecRun(evs[..n]), k)
  {
    if n == |evs| {
      assert evs[..n] == evs;
    } else {
      var init := evs[..|evs| - 1];
      SpecUntouched(init, n, k);
      assert init[..n] == evs[..n];
    }
  }

  /**
   Snapshot stability: whatever is written, flushed and compacted after `n` writes, a snapshot
   taken then shows every key not written since as the map of last writes had it.
   */
  lemma SnapshotStable(evs: seq<Event>, n: nat, k: Key, o: Options, t: nat)
    requires o.l0Threshold >= 1 && n <= |evs| < U64 && Timely(evs) && SafeRun(evs, o)
    requires forall i | n <= i < |evs| :: evs[i].op.key != k
    requires Clock(evs) <= t
    ensures Show(GetAt(Run(evs, o), k, Run(evs[..n], o).nextSeq), t) == SpecGet(SpecRun(evs[..n]), k, t)
  {
    RunInv(evs[..n], o);
    SnapshotIsGet(evs, n, k, o);
    RunRefines(evs, o);
    SpecUntouched(evs, n, k);
    assert At(SpecRun(evs), k) == At(SpecRun(evs[..n]), k);
  }

  /** Overwriting a key in the memtable takes its value away from an earlier snapshot. */
  lemma SnapshotLosesOverwritten(k: Key, a: Value, b: Value, o: Options)
    requires o.l0Threshold >= 1 && !Aliased(a)
    requires o.memtableSize >= LIST_SIZE + NodeCost(k, EncodeWithSeq(a, 1), 0)
    ensures var evs := [Event(Put(k, a), 0, 0), Event(Put(k, b), 0, 0)];
            GetAt(Run(evs, o), k, 2) == None && SpecGet(SpecRun(evs[..1]), k, 0) == Some(a)
  {
    var e1, e2 := Event(Put(k, a), 0, 0), Event(Put(k, b), 0, 0);
    var evs := [e1, e2];
    assert evs[..1] == [e1] && [e1][..0] == [];
    var s1 := Applied(EMPTY, e1);
    assert Run([e1], o) == s1;
    assert s1.active == map[k := EncodeWithSeq(a, 1)];
    var s2 := Applied(s1, e2);
    assert Run(evs, o) == s2;
    assert s2.active[k] == EncodeWithSeq(b, 2);
    SeqRoundTrip(b, 2);
    PlainValueIff(a, 0);
    assert SpecRun([e1]) == map[k := a];
  }
}
