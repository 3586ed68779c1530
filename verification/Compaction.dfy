/**
 Leveled compaction (src/engine.rs:555-658) as a function on the reader list, and what
 it does to the answer for every key.
 */
module Compaction {
  import opened Bytes
  import opened OrderedMaps
  import opened ValueCodec
  import opened Tables

  // ---------------------------------------------------------------------
  // The invariant of the reader list
  // ---------------------------------------------------------------------

  /** The recorded key range bounds the entries. */
  ghost predicate Bounded(r: Reader) {
    r.data != map[] && forall k <- r.data :: Le(r.meta.minKey, k) && Le(k, r.meta.maxKey)
  }

  predicate Disjoint(a: SSTMeta, b: SSTMeta) {
    Lt(a.maxKey, b.minKey) || Lt(b.maxKey, a.minKey)
  }

  /** `a` may stand before (be older than) `b` in the list. */
  ghost predicate Compatible(a: Reader, b: Reader) {
    && a.meta.id != b.meta.id
    && (forall k :: k in a.data && k in b.data ==> a.meta.level >= b.meta.level)
    && (a.meta.level == b.meta.level >= 1 ==> Disjoint(a.meta, b.meta))
  }

  /**
   Tables have unique ids and sound ranges; a key's versions stand deepest level first;
   within each level below the first, ranges are disjoint.
   */
  ghost predicate WF(rs: seq<Reader>) {
    && (forall r <- rs :: Bounded(r))
    && (forall i, j | 0 <= i < j < |rs| :: Compatible(rs[i], rs[j]))
  }

  lemma WFAppend(rs: seq<Reader>, r: Reader)
    requires WF(rs) && Bounded(r) && forall x <- rs :: Compatible(x, r)
    ensures WF(rs + [r])
  {
  }

  lemma {:induction false} WFPick(rs: seq<Reader>, c: Choice)
    requires WF(rs)
    ensures WF(Pick(rs, c))
  {
    if rs != [] {
      var init, r := rs[..|rs| - 1], rs[|rs| - 1];
      assert rs == init + [r];
      WFPick(init, c);
      PickLast(init, r, c);
      PickMembers(init, c);
      if Takes(c, r.meta) {
        forall x <- Pick(init, c) ensures Compatible(x, r) {
          var i :| 0 <= i < |init| && init[i] == x;
          assert Compatible(rs[i], rs[|rs| - 1]);
        }
        WFAppend(Pick(init, c), r);
      }
    }
  }

  lemma BoundedRange(r: Reader, k: Key)
    requires Bounded(r) && k in r.data
    ensures Le(r.meta.minKey, k) && Le(k, r.meta.maxKey) && Le(r.meta.minKey, r.meta.maxKey)
  {
    LtFacts(r.meta.minKey, k, r.meta.maxKey);
  }

  /** Two tables of one level >= 1 that hold the same key are the same table. */
  lemma SameLevelSameTable(rs: seq<Reader>, i: int, j: int, k: Key)
    requires WF(rs) && 0 <= i < |rs| && 0 <= j < |rs|
    requires k in rs[i].data && k in rs[j].data
    requires rs[i].meta.level == rs[j].meta.level >= 1
    ensures i == j
  {
    var a, b := rs[i], rs[j];
    BoundedRange(a, k);
    BoundedRange(b, k);
    if i != j {
      assert Compatible(rs[if i < j then i else j], rs[if i < j then j else i]);
      LtFacts(a.meta.maxKey, b.meta.minKey, k);
      LtFacts(b.meta.maxKey, a.meta.minKey, k);
      LtFacts(k, a.meta.maxKey, b.meta.minKey);
      LtFacts(k, b.meta.maxKey, a.meta.minKey);
      LtIrreflexive(k);
    }
  }

  // ---------------------------------------------------------------------
  // One compaction step
  // ---------------------------------------------------------------------

  function MinKeys(rs: seq<Reader>): set<Key> {
    set r <- rs :: r.meta.minKey
  }

  function MaxKeys(rs: seq<Reader>): set<Key> {
    set r <- rs :: r.meta.maxKey
  }

  lemma KeysNonempty(rs: seq<Reader>)
    requires rs != []
    ensures MinKeys(rs) != {} && MaxKeys(rs) != {}
  {
    assert rs[0].meta.minKey in MinKeys(rs) && rs[0].meta.maxKey in MaxKeys(rs);
  }

  /** The hull of the source level's key ranges. */
  function Lo(rs: seq<Reader>, src: nat): Key
    requires AtLevel(rs, src) != []
  {
    KeysNonempty(AtLevel(rs, src));
    MinKey(MinKeys(AtLevel(rs, src)))
  }

  function Hi(rs: seq<Reader>, src: nat): Key
    requires AtLevel(rs, src) != []
  {
    KeysNonempty(AtLevel(rs, src));
    MaxKey(MaxKeys(AtLevel(rs, src)))
  }

  function Chosen(rs: seq<Reader>, src: nat): seq<Reader>
    requires AtLevel(rs, src) != []
  {
    Pick(rs, Range(src + 1, Lo(rs, src), Hi(rs, src)))
  }

  function Survivors(rs: seq<Reader>, src: nat): seq<Reader>
    requires AtLevel(rs, src) != []
  {
    Pick(rs, Surviving(src, Lo(rs, src), Hi(rs, src)))
  }

  function Deeper(rs: seq<Reader>, src: nat): seq<Reader> {
    Pick(rs, Below(src + 1))
  }

  function Merged(rs: seq<Reader>, src: nat): map<Key, Value>
    requires AtLevel(rs, src) != []
  {
    Overlay(Chosen(rs, src) + AtLevel(rs, src))
  }

  /** Entries that compaction writes out again: tombstones and expired values are dropped. */
  function LivePart(m: map<Key, Value>, now: nat): map<Key, Value> {
    map k | k in m && Live(m[k], now) :: m[k]
  }

  function NewTable(data: map<Key, Value>, id: nat, level: nat): Reader
    requires data != map[]
  {
    assert data.Keys != {};
    Reader(SSTMeta(id, level, MinKey(data.Keys), MaxKey(data.Keys)), data)
  }

  /** The table of a single version. */
  function OneKey(k: Key, v: Value, id: nat, level: nat): Reader {
    Reader(SSTMeta(id, level, k, k), map[k := v])
  }

  lemma SingletonMinMax(k: Key)
    ensures MinKey({k}) == k && MaxKey({k}) == k
  {
  }

  lemma NewOneKey(k: Key, v: Value, id: nat, level: nat)
    ensures map[k := v] != map[] && NewTable(map[k := v], id, level) == OneKey(k, v, id, level)
  {
    assert k in map[k := v];
    assert map[k := v].Keys == {k};
    SingletonMinMax(k);
  }

  function Output(rs: seq<Reader>, src: nat, now: nat, id: nat): seq<Reader>
    requires AtLevel(rs, src) != []
  {
    var kept := LivePart(Merged(rs, src), now);
    if kept == map[] then [] else [NewTable(kept, id, src + 1)]
  }

  function Compact(rs: seq<Reader>, src: nat, now: nat, id: nat): seq<Reader>
    requires AtLevel(rs, src) != []
  {
    Survivors(rs, src) + Output(rs, src, now, id)
  }

  /** No table above the source level. */
  ghost predicate ShallowEmpty(rs: seq<Reader>, src: nat) {
    forall r <- rs :: r.meta.level >= src
  }

  // ---------------------------------------------------------------------
  // The answer for one key
  // ---------------------------------------------------------------------

  ghost predicate Holds(rs: seq<Reader>, k: Key) {
    exists r :: r in rs && k in r.data
  }

  lemma HoldsLookup(rs: seq<Reader>, k: Key)
    ensures Holds(rs, k) <==> Lookup(rs, k).Some?
  {
    LookupNewest(rs, k);
    if Lookup(rs, k).Some? {
      var p :| Newest(rs, k, p) && Lookup(rs, k) == Some(rs[p].data[k]);
      assert rs[p] in rs;
    }
  }

  lemma HullCovers(rs: seq<Reader>, src: nat, r: Reader)
    requires r in rs && r.meta.level == src
    requires AtLevel(rs, src) != []
    ensures Le(Lo(rs, src), r.meta.minKey) && Le(r.meta.maxKey, Hi(rs, src))
  {
    PickMember(rs, Level(src), r);
    var at := AtLevel(rs, src);
    KeysNonempty(at);
    assert r in at;
    assert r.meta.minKey in MinKeys(at) && r.meta.maxKey in MaxKeys(at);
  }

  /** A table one level down that shares a key with the source level is selected. */
  lemma SharedKeySelected(rs: seq<Reader>, src: nat, s: Reader, d: Reader, k: Key)
    requires WF(rs) && AtLevel(rs, src) != []
    requires s in rs && s.meta.level == src && k in s.data
    requires d in rs && d.meta.level == src + 1 && k in d.data
    ensures Overlaps(d.meta, Lo(rs, src), Hi(rs, src))
  {
    HullCovers(rs, src, s);
    BoundedRange(s, k);
    BoundedRange(d, k);
    LtFacts(Lo(rs, src), s.meta.minKey, k);
    LtFacts(Lo(rs, src), k, d.meta.maxKey);
    LtFacts(k, s.meta.maxKey, Hi(rs, src));
    LtFacts(d.meta.minKey, k, Hi(rs, src));
  }

  ghost predicate InMerge(rs: seq<Reader>, src: nat, i: int)
    requires AtLevel(rs, src) != []
  {
    0 <= i < |rs| && Takes(Merging(src, Lo(rs, src), Hi(rs, src)), rs[i].meta)
  }

  lemma MergedHolder(rs: seq<Reader>, src: nat, k: Key)
    requires AtLevel(rs, src) != []
    ensures k in Merged(rs, src) <==> exists i :: InMerge(rs, src, i) && k in rs[i].data
  {
    var both := Chosen(rs, src) + AtLevel(rs, src);
    OverlayIsLookup(both, k);
    HoldsLookup(both, k);
    PickMembers(rs, Level(src));
    PickMembers(rs, Range(src + 1, Lo(rs, src), Hi(rs, src)));
    if k in Merged(rs, src) {
      var r :| r in both && k in r.data;
      var i :| 0 <= i < |rs| && rs[i] == r;
      assert InMerge(rs, src, i);
    }
    if i :| InMerge(rs, src, i) && k in rs[i].data {
      assert rs[i] in both;
    }
  }

  /** The newest version of a merged key is itself merged. */
  lemma NewestIsMerged(rs: seq<Reader>, src: nat, k: Key, q: int, p: int)
    requires WF(rs) && AtLevel(rs, src) != [] && ShallowEmpty(rs, src)
    requires InMerge(rs, src, q) && k in rs[q].data && Newest(rs, k, p)
    ensures InMerge(rs, src, p)
    ensures rs[q].meta.level == src ==> rs[p].meta.level == src
  {
    if q != p {
      assert Compatible(rs[q], rs[p]);
      assert rs[p] in rs;
      if rs[p].meta.level == src + 1 {
        SameLevelSameTable(rs, q, p, k);
      }
    }
  }

  lemma MergedLookup(rs: seq<Reader>, src: nat, k: Key)
    requires WF(rs) && AtLevel(rs, src) != [] && ShallowEmpty(rs, src)
    requires k in Merged(rs, src)
    ensures Lookup(rs, k) == Some(Merged(rs, src)[k])
  {
    var srcs, dsts := AtLevel(rs, src), Chosen(rs, src);
    OverlayIsLookup(dsts + srcs, k);
    LookupAppend(dsts, srcs, k);
    MergedHolder(rs, src, k);
    var q :| InMerge(rs, src, q) && k in rs[q].data;
    assert rs[q] in rs;
    LookupNewest(rs, k);
    var p :| Newest(rs, k, p) && Lookup(rs, k) == Some(rs[p].data[k]);
    NewestIsMerged(rs, src, k, q, p);
    if rs[p].meta.level == src {
      LookupPick(rs, Level(src), k, p);
    } else {
      LookupPick(rs, Range(src + 1, Lo(rs, src), Hi(rs, src)), k, p);
      PickMembers(rs, Level(src));
      forall r <- srcs ensures k !in r.data {
        if k in r.data {
          var i :| 0 <= i < |rs| && rs[i] == r;
          NewestIsMerged(rs, src, k, i, p);
        }
      }
      LookupNone(srcs, k);
    }
  }

  lemma UnmergedLookup(rs: seq<Reader>, src: nat, k: Key)
    requires AtLevel(rs, src) != [] && k !in Merged(rs, src)
    ensures Lookup(Survivors(rs, src), k) == Lookup(rs, k)
  {
    MergedHolder(rs, src, k);
    LookupNewest(rs, k);
    if Lookup(rs, k).Some? {
      var p :| Newest(rs, k, p) && Lookup(rs, k) == Some(rs[p].data[k]);
      assert !InMerge(rs, src, p);
      LookupPick(rs, Surviving(src, Lo(rs, src), Hi(rs, src)), k, p);
    } else {
      PickMembers(rs, Surviving(src, Lo(rs, src), Hi(rs, src)));
      LookupNone(Survivors(rs, src), k);
    }
  }

  /** Two selections that agree on the tables holding a key give the same answer. */
  lemma {:induction false} LookupPickSame(rs: seq<Reader>, c: Choice, d: Choice, k: Key)
    requires forall r <- rs :: k in r.data ==> Takes(c, r.meta) == Takes(d, r.meta)
    ensures Lookup(Pick(rs, c), k) == Lookup(Pick(rs, d), k)
  {
    if rs != [] {
      var init, r := rs[..|rs| - 1], rs[|rs| - 1];
      assert rs == init + [r];
      LookupPickSame(init, c, d, k);
      PickLast(init, r, c);
      PickLast(init, r, d);
      LookupLast(Pick(init, c), r, k);
      LookupLast(Pick(init, d), r, k);
    }
  }

  /** A surviving table that holds a merged key lies below the destination level. */
  lemma SurvivorIsDeeper(rs: seq<Reader>, src: nat, k: Key, i: int)
    requires WF(rs) && AtLevel(rs, src) != [] && ShallowEmpty(rs, src)
    requires k in Merged(rs, src) && 0 <= i < |rs| && k in rs[i].data
    ensures InMerge(rs, src, i) <==> rs[i].meta.level <= src + 1
  {
    assert rs[i] in rs;
    MergedHolder(rs, src, k);
    var q :| InMerge(rs, src, q) && k in rs[q].data;
    if rs[i].meta.level == src + 1 {
      if rs[q].meta.level == src {
        SharedKeySelected(rs, src, rs[q], rs[i], k);
      } else {
        SameLevelSameTable(rs, q, i, k);
      }
    }
  }

  lemma SurvivingMerged(rs: seq<Reader>, src: nat, k: Key)
    requires WF(rs) && AtLevel(rs, src) != [] && ShallowEmpty(rs, src)
    requires k in Merged(rs, src)
    ensures Lookup(Survivors(rs, src), k) == Lookup(Deeper(rs, src), k)
  {
    forall r <- rs | k in r.data
      ensures Takes(Surviving(src, Lo(rs, src), Hi(rs, src)), r.meta) == Takes(Below(src + 1), r.meta)
    {
      var i :| 0 <= i < |rs| && rs[i] == r;
      SurvivorIsDeeper(rs, src, k, i);
    }
    LookupPickSame(rs, Surviving(src, Lo(rs, src), Hi(rs, src)), Below(src + 1), k);
  }

  /**
   The answer after a compaction step, for every key: a live merged version stays, a dropped
   one uncovers whatever lies deeper, and every other key is untouched.
   */
  lemma CompactLookup(rs: seq<Reader>, src: nat, now: nat, id: nat, k: Key)
    requires WF(rs) && AtLevel(rs, src) != [] && ShallowEmpty(rs, src)
    ensures k in Merged(rs, src) ==> Lookup(rs, k) == Some(Merged(rs, src)[k])
    ensures Lookup(Compact(rs, src, now, id), k) ==
            if k !in Merged(rs, src) || Live(Merged(rs, src)[k], now) then Lookup(rs, k)
            else Lookup(Deeper(rs, src), k)
  {
    var kept := LivePart(Merged(rs, src), now);
    if kept == map[] {
      assert Compact(rs, src, now, id) == Survivors(rs, src);
      if k in Merged(rs, src) { assert k !in kept; }
    } else {
      LookupLast(Survivors(rs, src), NewTable(kept, id, src + 1), k);
    }
    if k in Merged(rs, src) {
      MergedLookup(rs, src, k);
      SurvivingMerged(rs, src, k);
    } else {
      UnmergedLookup(rs, src, k);
    }
  }

  // ---------------------------------------------------------------------
  // When the step is invisible
  // ---------------------------------------------------------------------

  /** A tombstone or expired version about to be dropped hides a live deeper version of `k`. */
  ghost predicate Uncovers(rs: seq<Reader>, src: nat, now: nat, k: Key)
    requires AtLevel(rs, src) != []
  {
    && k in Merged(rs, src)
    && !Live(Merged(rs, src)[k], now)
    && Show(Lookup(Deeper(rs, src), k), now).Some?
  }

  ghost predicate SafeStep(rs: seq<Reader>, src: nat, now: nat)
    requires AtLevel(rs, src) != []
  {
    forall k :: !Uncovers(rs, src, now, k)
  }

  /** Compaction shows every key as before, at this and every later clock, unless it uncovers it. */
  lemma CompactShow(rs: seq<Reader>, src: nat, now: nat, id: nat, k: Key, later: nat)
    requires WF(rs) && AtLevel(rs, src) != [] && ShallowEmpty(rs, src)
    requires now <= later
    ensures !Uncovers(rs, src, now, k) ==>
            Show(Lookup(Compact(rs, src, now, id), k), later) == Show(Lookup(rs, k), later)
    ensures Uncovers(rs, src, now, k) ==>
            Show(Lookup(rs, k), now) == None && Show(Lookup(Compact(rs, src, now, id), k), now).Some?
  {
    CompactLookup(rs, src, now, id, k);
    ShowMonotone(Lookup(Deeper(rs, src), k), now, later);
    ShowMonotone(Lookup(rs, k), now, later);
  }

  /** Exactly the safe steps preserve what every `get` shows. */
  lemma CompactPreservesIff(rs: seq<Reader>, src: nat, now: nat, id: nat)
    requires WF(rs) && AtLevel(rs, src) != [] && ShallowEmpty(rs, src)
    ensures SafeStep(rs, src, now) <==>
            forall k, later | now <= later ::
              Show(Lookup(Compact(rs, src, now, id), k), later) == Show(Lookup(rs, k), later)
  {
    if SafeStep(rs, src, now) {
      forall k, later | now <= later
        ensures Show(Lookup(Compact(rs, src, now, id), k), later) == Show(Lookup(rs, k), later)
      {
        CompactShow(rs, src, now, id, k, later);
      }
    } else {
      var k :| Uncovers(rs, src, now, k);
      CompactShow(rs, src, now, id, k, now);
    }
  }

  /** Sufficient, and checkable from the manifest alone: nothing deeper overlaps the merged range. */
  ghost predicate NoDeeperOverlap(rs: seq<Reader>, src: nat)
    requires AtLevel(rs, src) != []
  {
    forall i, j | InMerge(rs, src, i) && 0 <= j < |rs| && rs[j].meta.level > src + 1 ::
      Disjoint(rs[i].meta, rs[j].meta)
  }

  lemma DisjointKeys(a: Reader, b: Reader, k: Key)
    requires Bounded(a) && Bounded(b) && Disjoint(a.meta, b.meta)
    ensures !(k in a.data && k in b.data)
  {
    if k in a.data && k in b.data {
      BoundedRange(a, k);
      BoundedRange(b, k);
      LtFacts(a.meta.maxKey, b.meta.minKey, k);
      LtFacts(b.meta.maxKey, a.meta.minKey, k);
      LtFacts(k, a.meta.maxKey, b.meta.minKey);
      LtFacts(k, b.meta.maxKey, a.meta.minKey);
      LtIrreflexive(k);
    }
  }

  lemma NoDeeperOverlapIsSafe(rs: seq<Reader>, src: nat, now: nat)
    requires WF(rs) && AtLevel(rs, src) != [] && NoDeeperOverlap(rs, src)
    ensures SafeStep(rs, src, now)
  {
    forall k ensures !Uncovers(rs, src, now, k) {
      if k in Merged(rs, src) {
        MergedHolder(rs, src, k);
        var i :| InMerge(rs, src, i) && k in rs[i].data;
        assert rs[i] in rs;
        PickMembers(rs, Below(src + 1));
        forall r <- Deeper(rs, src) ensures k !in r.data {
          var j :| 0 <= j < |rs| && rs[j] == r;
          assert rs[j] in rs;
          DisjointKeys(rs[i], rs[j], k);
        }
        LookupNone(Deeper(rs, src), k);
      }
    }
  }

  // ---------------------------------------------------------------------
  // The invariant is kept
  // ---------------------------------------------------------------------

  lemma NewTableBounded(data: map<Key, Value>, id: nat, level: nat)
    requires data != map[]
    ensures Bounded(NewTable(data, id, level))
  {
    assert data.Keys != {};
  }

  /** An unselected destination table `u` lies on one side of everything that is merged. */
  lemma UnselectedApart(rs: seq<Reader>, src: nat, u: int, i: int)
    requires WF(rs) && AtLevel(rs, src) != []
    requires 0 <= u < |rs| && rs[u].meta.level == src + 1 && !InMerge(rs, src, u)
    requires InMerge(rs, src, i)
    ensures Lt(rs[u].meta.maxKey, Lo(rs, src)) ==> Lt(rs[u].meta.maxKey, rs[i].meta.minKey)
    ensures Lt(Hi(rs, src), rs[u].meta.minKey) ==> Lt(rs[i].meta.maxKey, rs[u].meta.minKey)
    ensures Lt(rs[u].meta.maxKey, Lo(rs, src)) || Lt(Hi(rs, src), rs[u].meta.minKey)
  {
    var lo, hi, a, b := Lo(rs, src), Hi(rs, src), rs[u].meta, rs[i].meta;
    LtFacts(lo, a.maxKey, lo);
    LtFacts(a.minKey, hi, hi);
    assert rs[i] in rs && rs[u] in rs;
    if b.level == src {
      HullCovers(rs, src, rs[i]);
      LtFacts(a.maxKey, lo, b.minKey);
      LtFacts(b.maxKey, hi, a.minKey);
    } else {
      assert Compatible(rs[if u < i then u else i], rs[if u < i then i else u]);
      var k :| k in rs[u].data;
      BoundedRange(rs[u], k);
      LtFacts(lo, b.maxKey, a.minKey);
      LtFacts(lo, a.minKey, a.maxKey);
      LtFacts(a.maxKey, b.minKey, hi);
      LtFacts(a.minKey, a.maxKey, hi);
      LtFacts(a.maxKey, lo, a.maxKey);
      LtFacts(hi, a.minKey, hi);
    }
  }

  lemma OutputDisjoint(rs: seq<Reader>, src: nat, now: nat, id: nat, u: int)
    requires WF(rs) && AtLevel(rs, src) != []
    requires 0 <= u < |rs| && rs[u].meta.level == src + 1 && !InMerge(rs, src, u)
    requires LivePart(Merged(rs, src), now) != map[]
    ensures Disjoint(rs[u].meta, NewTable(LivePart(Merged(rs, src), now), id, src + 1).meta)
  {
    var kept := LivePart(Merged(rs, src), now);
    assert kept.Keys != {};
    var least, greatest := MinKey(kept.Keys), MaxKey(kept.Keys);
    MergedHolder(rs, src, least);
    MergedHolder(rs, src, greatest);
    var i :| InMerge(rs, src, i) && least in rs[i].data;
    var j :| InMerge(rs, src, j) && greatest in rs[j].data;
    assert rs[i] in rs && rs[j] in rs;
    UnselectedApart(rs, src, u, i);
    UnselectedApart(rs, src, u, j);
    BoundedRange(rs[i], least);
    BoundedRange(rs[j], greatest);
    LtFacts(rs[u].meta.maxKey, rs[i].meta.minKey, least);
    LtFacts(greatest, rs[j].meta.maxKey, rs[u].meta.minKey);
  }

  /** Range soundness, level disjointness and recency order survive a compaction step. */
  lemma CompactWF(rs: seq<Reader>, src: nat, now: nat, id: nat)
    requires WF(rs) && AtLevel(rs, src) != [] && ShallowEmpty(rs, src)
    requires forall r <- rs :: r.meta.id < id
    ensures WF(Compact(rs, src, now, id))
    ensures forall r <- Compact(rs, src, now, id) :: r.meta.id <= id && r.meta.level > src
  {
    var c := Surviving(src, Lo(rs, src), Hi(rs, src));
    WFPick(rs, c);
    PickMembers(rs, c);
    var kept := LivePart(Merged(rs, src), now);
    if kept == map[] {
      assert Compact(rs, src, now, id) == Survivors(rs, src);
    } else {
      var new_ := NewTable(kept, id, src + 1);
      NewTableBounded(kept, id, src + 1);
      forall x <- Survivors(rs, src) ensures Compatible(x, new_) {
        var u :| 0 <= u < |rs| && rs[u] == x;
        if x.meta.level == src + 1 {
          OutputDisjoint(rs, src, now, id, u);
        }
      }
      WFAppend(Survivors(rs, src), new_);
    }
  }

  // ---------------------------------------------------------------------
  // What is merged, from the ranges of the tables alone
  // ---------------------------------------------------------------------

  lemma HullTight(rs: seq<Reader>, src: nat)
    requires AtLevel(rs, src) != []
    ensures exists a :: a in rs && a.meta.level == src && a.meta.minKey == Lo(rs, src)
    ensures exists b :: b in rs && b.meta.level == src && b.meta.maxKey == Hi(rs, src)
  {
    var at := AtLevel(rs, src);
    PickMembers(rs, Level(src));
    KeysNonempty(at);
    var a :| a in at && a.meta.minKey == Lo(rs, src);
    var b :| b in at && b.meta.maxKey == Hi(rs, src);
  }

  /**
   A table of the destination level is merged if and only if it ends no earlier than some source table begins and
   begins no later than some source table ends.
   */
  lemma SelectedIff(rs: seq<Reader>, src: nat, d: Reader)
    requires AtLevel(rs, src) != [] && d in rs && d.meta.level == src + 1
    ensures d in Chosen(rs, src) <==>
            && (exists a :: a in rs && a.meta.level == src && Le(a.meta.minKey, d.meta.maxKey))
            && (exists b :: b in rs && b.meta.level == src && Le(d.meta.minKey, b.meta.maxKey))
  {
    PickMembers(rs, Range(src + 1, Lo(rs, src), Hi(rs, src)));
    HullTight(rs, src);
    forall a | a in rs && a.meta.level == src
      ensures Le(Lo(rs, src), a.meta.minKey) && Le(a.meta.maxKey, Hi(rs, src))
      ensures Le(a.meta.minKey, d.meta.maxKey) ==> Le(Lo(rs, src), d.meta.maxKey)
      ensures Le(d.meta.minKey, a.meta.maxKey) ==> Le(d.meta.minKey, Hi(rs, src))
    {
      HullCovers(rs, src, a);
      LtFacts(Lo(rs, src), a.meta.minKey, d.meta.maxKey);
      LtFacts(d.meta.minKey, a.meta.maxKey, Hi(rs, src));
    }
  }

  /** The range of a table is that of its keys, no wider. */
  lemma TightRange(data: map<Key, Value>, id: nat, level: nat)
    requires data != map[]
    ensures var m := NewTable(data, id, level).meta;
            && m.id == id && m.level == level && m.minKey in data && m.maxKey in data
            && forall k <- data :: Le(m.minKey, k) && Le(k, m.maxKey)
  {
    assert data.Keys != {};
  }
}
