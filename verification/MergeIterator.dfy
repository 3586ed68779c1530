/**
 The k-way merge (src/compaction/merge_iterator.rs): a heap with one entry per source, popped by
 key and, on ties, by source index.
 */
module Merging {
  import opened Bytes
  import opened OrderedMaps
  import opened Tables

  // ---------------------------------------------------------------------
  // The merge as a function
  // ---------------------------------------------------------------------

  type Sources = seq<seq<Entry>>

  /** Among the first `n` sources, the one whose next key is least; the lower index on ties. */
  function Best(rem: Sources, n: nat): (b: Option<nat>)
    requires n <= |rem|
    ensures b.Some? ==> b.value < n && rem[b.value] != []
    ensures b.None? ==> forall j | 0 <= j < n :: rem[j] == []
  {
    if n == 0 then None
    else
      var b := Best(rem, n - 1);
      if rem[n - 1] == [] then b
      else if b.None? || Lt(rem[n - 1][0].0, rem[b.value][0].0) then Some(n - 1)
      else b
  }

  /** Key order, then source order. */
  predicate Before(k: Key, i: nat, l: Key, j: nat) {
    Lt(k, l) || (k == l && i < j)
  }

  lemma {:induction false} BestIsLeast(rem: Sources, n: nat, j: nat)
    requires n <= |rem| && j < n && rem[j] != []
    ensures Best(rem, n).Some?
    ensures var i := Best(rem, n).value; i == j || Before(rem[i][0].0, i, rem[j][0].0, j)
  {
    var b, c := Best(rem, n - 1), Best(rem, n);
    if j < n - 1 {
      BestIsLeast(rem, n - 1, j);
      if c != b {
        LtFacts(rem[n - 1][0].0, rem[b.value][0].0, rem[j][0].0);
      }
    } else if b.Some? {
      LtFacts(rem[n - 1][0].0, rem[b.value][0].0, rem[n - 1][0].0);
    }
  }

  function Total(rem: Sources): nat {
    if rem == [] then 0 else |rem[0]| + Total(rem[1..])
  }

  lemma {:induction false} TotalDrops(rem: Sources, i: nat)
    requires i < |rem| && rem[i] != []
    ensures Total(rem[i := rem[i][1..]]) == Total(rem) - 1
  {
    var rem' := rem[i := rem[i][1..]];
    if i == 0 {
      assert rem'[1..] == rem[1..];
    } else {
      TotalDrops(rem[1..], i - 1);
      assert rem'[1..] == rem[1..][i - 1 := rem[1..][i - 1][1..]];
    }
  }

  function Rest(rem: Sources, i: nat): Sources
    requires i < |rem| && rem[i] != []
  {
    rem[i := rem[i][1..]]
  }

  /** An output entry and the source it came from. */
  datatype Tagged = Tagged(entry: Entry, source: nat)

  function MergeAll(rem: Sources): seq<Tagged>
    decreases Total(rem)
  {
    var b := Best(rem, |rem|);
    if b.None? then []
    else
      TotalDrops(rem, b.value);
      [Tagged(rem[b.value][0], b.value)] + MergeAll(Rest(rem, b.value))
  }

  // ---------------------------------------------------------------------
  // What the merge outputs
  // ---------------------------------------------------------------------

  /** The part of the output that came from source `i`. */
  function From(out: seq<Tagged>, i: nat): seq<Entry> {
    if out == [] then []
    else if out[0].source == i then [out[0].entry] + From(out[1..], i)
    else From(out[1..], i)
  }

  /** Every source comes out complete and in its own order: nothing is lost, doubled or reordered. */
  lemma {:induction false} MergeIsShuffle(rem: Sources, i: nat)
    requires i < |rem|
    ensures From(MergeAll(rem), i) == rem[i]
    decreases Total(rem)
  {
    var b := Best(rem, |rem|);
    if b.Some? {
      TotalDrops(rem, b.value);
      MergeIsShuffle(Rest(rem, b.value), i);
      var out := MergeAll(rem);
      assert out[1..] == MergeAll(Rest(rem, b.value));
      if b.value == i {
        assert rem[i] == [rem[i][0]] + rem[i][1..];
      }
    }
  }

  lemma {:induction false} NothingLeft(rem: Sources)
    requires forall j | 0 <= j < |rem| :: rem[j] == []
    ensures Total(rem) == 0
  {
    if rem != [] {
      NothingLeft(rem[1..]);
    }
  }

  /** As many entries come out as went in, and each names one of the sources. */
  lemma {:induction false} MergeCount(rem: Sources)
    ensures |MergeAll(rem)| == Total(rem) && forall t <- MergeAll(rem) :: t.source < |rem|
    decreases Total(rem)
  {
    var b := Best(rem, |rem|);
    if b.None? {
      NothingLeft(rem);
    } else {
      TotalDrops(rem, b.value);
      MergeCount(Rest(rem, b.value));
    }
  }

  /** The output is a permutation of the sources' entries that keeps each source in its order. */
  lemma MergeIsPermutation(rem: Sources)
    ensures |MergeAll(rem)| == Total(rem) && forall t <- MergeAll(rem) :: t.source < |rem|
    ensures forall i | 0 <= i < |rem| :: From(MergeAll(rem), i) == rem[i]
  {
    MergeCount(rem);
    forall i | 0 <= i < |rem| ensures From(MergeAll(rem), i) == rem[i] { MergeIsShuffle(rem, i); }
  }

  predicate SourceSorted(s: seq<Entry>) {
    forall i, j | 0 <= i < j < |s| :: Le(s[i].0, s[j].0)
  }

  ghost predicate AllSorted(rem: Sources) {
    forall i | 0 <= i < |rem| :: SourceSorted(rem[i])
  }

  /** `t` may come before `u`: smaller key, or same key and no later source. */
  predicate InOrder(t: Tagged, u: Tagged) {
    Lt(t.entry.0, u.entry.0) || (t.entry.0 == u.entry.0 && t.source <= u.source)
  }

  /** Everything still to come is no earlier than the entry chosen now. */
  lemma {:induction false} LaterInOrder(rem: Sources, t: Tagged)
    requires AllSorted(rem)
    requires forall j | 0 <= j < |rem| && rem[j] != [] :: InOrder(t, Tagged(rem[j][0], j))
    ensures forall u <- MergeAll(rem) :: InOrder(t, u)
    decreases Total(rem)
  {
    var b := Best(rem, |rem|);
    if b.Some? {
      var i, rem' := b.value, Rest(rem, b.value);
      TotalDrops(rem, i);
      assert SourceSorted(rem[i]);
      assert rem'[i] == rem[i][1..];
      assert SourceSorted(rem'[i]);
      assert AllSorted(rem');
      if rem'[i] != [] {
        assert rem'[i][0] == rem[i][1];
        assert InOrder(t, Tagged(rem[i][0], i));
        LtFacts(t.entry.0, rem[i][0].0, rem[i][1].0);
      }
      LaterInOrder(rem', t);
    }
  }

  /** The output is sorted by key and, within a key, by source. */
  lemma {:induction false} MergeIsSorted(rem: Sources)
    requires AllSorted(rem)
    ensures forall a, b | 0 <= a < b < |MergeAll(rem)| :: InOrder(MergeAll(rem)[a], MergeAll(rem)[b])
    decreases Total(rem)
  {
    var best := Best(rem, |rem|);
    if best.Some? {
      var i, rem', out := best.value, Rest(rem, best.value), MergeAll(rem);
      TotalDrops(rem, i);
      assert SourceSorted(rem[i]);
      assert AllSorted(rem');
      MergeIsSorted(rem');
      NextInOrder(rem, i);
      LaterInOrder(rem', out[0]);
      assert out[1..] == MergeAll(rem');
      forall a, b | 0 <= a < b < |out| ensures InOrder(out[a], out[b]) {
        assert out[b] == MergeAll(rem')[b - 1] && out[b] in MergeAll(rem');
        if a > 0 { assert out[a] == MergeAll(rem')[a - 1]; }
      }
    }
  }

  lemma NextInOrder(rem: Sources, i: nat)
    requires AllSorted(rem) && Best(rem, |rem|) == Some(i)
    ensures forall j | 0 <= j < |rem| && Rest(rem, i)[j] != [] ::
            InOrder(Tagged(rem[i][0], i), Tagged(Rest(rem, i)[j][0], j))
  {
    assert SourceSorted(rem[i]);
    forall j | 0 <= j < |rem| && Rest(rem, i)[j] != []
      ensures InOrder(Tagged(rem[i][0], i), Tagged(Rest(rem, i)[j][0], j))
    {
      if j == i {
        assert Rest(rem, i)[i][0] == rem[i][1];
      } else {
        BestIsLeast(rem, |rem|, j);
      }
    }
  }

  // ---------------------------------------------------------------------
  // Keeping the first occurrence of each key
  // ---------------------------------------------------------------------

  function FirstOf(out: seq<Tagged>, k: Key): Option<Value> {
    if out == [] then None
    else if out[0].entry.0 == k then Some(out[0].entry.1)
    else FirstOf(out[1..], k)
  }

  /** The overwrite overlay with the newest source at index 0. */
  function OverlaySources(rem: Sources): map<Key, Value> {
    if rem == [] then map[] else OverlaySources(rem[1..]) + ToMap(rem[0])
  }

  lemma HeadIsLeast(es: seq<Entry>)
    requires Sorted(es) && es != []
    ensures es[0].0 !in KeysOf(es[1..]) && IsLeast(es[0].0, KeysOf(es[1..]) + {es[0].0})
  {
    LtIrreflexive(es[0].0);
  }

  lemma HeadTail(es: seq<Entry>)
    requires Sorted(es) && es != []
    ensures ToMap(es) == ToMap(es[1..])[es[0].0 := es[0].1]
    ensures es[0].0 !in ToMap(es[1..])
  {
    var k, tail := es[0].0, es[1..];
    var m := ToMap(tail)[k := es[0].1];
    HeadIsLeast(es);
    ToMapKeys(tail);
    ToMapLists(tail);
    AddThenRemove(ToMap(tail), k, es[0].1);
    ListsCons(k, m, tail);
    assert es == [(k, m[k])] + tail;
    ListsToMap(es, m);
  }

  /** Taking the head off source `i` only affects the head's key. */
  lemma {:induction false} OverlayRest(rem: Sources, i: nat, k: Key)
    requires i < |rem| && rem[i] != [] && Sorted(rem[i]) && k != rem[i][0].0
    ensures At(OverlaySources(Rest(rem, i)), k) == At(OverlaySources(rem), k)
  {
    if i == 0 {
      HeadTail(rem[0]);
      assert Rest(rem, 0)[1..] == rem[1..];
    } else {
      OverlayRest(rem[1..], i - 1, k);
      assert Rest(rem, i)[1..] == Rest(rem[1..], i - 1);
    }
  }

  /** A head that no earlier source reaches is the newest version of its key. */
  lemma {:induction false} OverlayHead(rem: Sources, i: nat)
    requires i < |rem| && rem[i] != [] && Sorted(rem[i])
    requires forall j | 0 <= j < i :: rem[i][0].0 !in ToMap(rem[j])
    ensures At(OverlaySources(rem), rem[i][0].0) == Some(rem[i][0].1)
  {
    if i == 0 {
      ToMapLookup(rem[0], 0);
    } else {
      OverlayHead(rem[1..], i - 1);
    }
  }

  lemma EarlierMissKey(rem: Sources, i: nat, j: nat)
    requires Best(rem, |rem|) == Some(i) && j < i && Sorted(rem[j])
    ensures rem[i][0].0 !in ToMap(rem[j])
  {
    var k, es := rem[i][0].0, rem[j];
    ToMapKeys(es);
    if es != [] {
      BestIsLeast(rem, |rem|, j);
      forall x | 0 <= x < |es| ensures es[x].0 != k {
        LtFacts(k, es[0].0, es[x].0);
        LtIrreflexive(k);
      }
    }
  }

  /** Keeping the first occurrence of each key gives the overwrite overlay, newest source first. */
  lemma {:induction false} FirstWinsIsOverlay(rem: Sources, k: Key)
    requires forall i | 0 <= i < |rem| :: Sorted(rem[i])
    ensures FirstOf(MergeAll(rem), k) == At(OverlaySources(rem), k)
    decreases Total(rem)
  {
    var b := Best(rem, |rem|);
    if b.None? {
      EmptyOverlay(rem, k);
    } else {
      var i := b.value;
      TotalDrops(rem, i);
      if rem[i][0].0 == k {
        forall j | 0 <= j < i ensures k !in ToMap(rem[j]) { EarlierMissKey(rem, i, j); }
        OverlayHead(rem, i);
      } else {
        OverlayRest(rem, i, k);
        FirstWinsIsOverlay(Rest(rem, i), k);
        assert MergeAll(rem)[1..] == MergeAll(Rest(rem, i));
      }
    }
  }

  lemma {:induction false} EmptyOverlay(rem: Sources, k: Key)
    requires forall j | 0 <= j < |rem| :: rem[j] == []
    ensures At(OverlaySources(rem), k) == None
  {
    if rem != [] {
      EmptyOverlay(rem[1..], k);
    }
  }

  /** The sorted entries of tables listed oldest first, newest source first. */
  function SourcesOf(rs: seq<Reader>): Sources {
    if rs == [] then [] else [SortedEntries(rs[|rs| - 1].data)] + SourcesOf(rs[..|rs| - 1])
  }

  lemma {:induction false} SourcesOverlay(rs: seq<Reader>)
    ensures OverlaySources(SourcesOf(rs)) == Overlay(rs)
    ensures forall i | 0 <= i < |SourcesOf(rs)| :: Sorted(SourcesOf(rs)[i])
  {
    if rs != [] {
      var init := rs[..|rs| - 1];
      SourcesOverlay(init);
      ToMapSortedEntries(rs[|rs| - 1].data);
      assert SourcesOf(rs)[1..] == SourcesOf(init);
    }
  }

  /** Merging tables and keeping the first occurrence answers like a lookup in the reader list. */
  lemma MergeIsLookup(rs: seq<Reader>, k: Key)
    ensures FirstOf(MergeAll(SourcesOf(rs)), k) == Lookup(rs, k)
  {
    SourcesOverlay(rs);
    FirstWinsIsOverlay(SourcesOf(rs), k);
    OverlayIsLookup(rs, k);
  }

  // ---------------------------------------------------------------------
  // The iterator
  // ---------------------------------------------------------------------

  datatype HeapEntry = HeapEntry(key: Key, value: Value, source: nat)

  /** The heap holds the next entry of every source that has one; `rem` is what each has still to deliver. */
  ghost predicate Heads(heap: seq<HeapEntry>, sources: Sources, rem: Sources) {
    && Filled(heap, sources, rem)
    && OnePerSource(heap)
    && (forall i | 0 <= i < |rem| :: rem[i] == [] || InHeap(heap, i))
  }

  ghost predicate InHeap(heap: seq<HeapEntry>, i: nat) {
    exists h :: h in heap && h.source == i
  }

  predicate NotAfter(e: HeapEntry, h: HeapEntry) {
    e == h || Before(e.key, e.source, h.key, h.source)
  }

  /** The least heap entry comes from the best source. */
  lemma LeastIsBest(heap: seq<HeapEntry>, sources: Sources, rem: Sources, e: HeapEntry)
    requires Heads(heap, sources, rem) && e in heap && forall h <- heap :: NotAfter(e, h)
    ensures Best(rem, |rem|) == Some(e.source) && rem[e.source] == [(e.key, e.value)] + sources[e.source]
  {
    BestIsLeast(rem, |rem|, e.source);
    var i := Best(rem, |rem|).value;
    if i != e.source {
      assert InHeap(heap, i);
      var h :| h in heap && h.source == i;
      assert rem[i][0].0 == h.key && rem[e.source][0].0 == e.key;
      assert NotAfter(e, h);
      LtFacts(e.key, h.key, e.key);
      LtIrreflexive(e.key);
    }
  }

  /** Which entry is least. */
  method LeastIndex(heap: seq<HeapEntry>) returns (a: nat)
    requires heap != [] && OnePerSource(heap)
    ensures a < |heap| && forall h <- heap :: NotAfter(heap[a], h)
  {
    a := 0;
    for i := 1 to |heap|
      invariant a < i
      invariant forall j | 0 <= j < i :: NotAfter(heap[a], heap[j])
    {
      if Before(heap[i].key, heap[i].source, heap[a].key, heap[a].source) {
        forall j | 0 <= j < i ensures NotAfter(heap[i], heap[j]) {
          LtFacts(heap[i].key, heap[a].key, heap[j].key);
        }
        a := i;
      } else {
        LtFacts(heap[i].key, heap[a].key, heap[i].key);
      }
    }
  }

  function Popped(heap: seq<HeapEntry>, a: nat): seq<HeapEntry>
    requires a < |heap|
  {
    heap[..a] + heap[a + 1..]
  }

  ghost predicate OnePerSource(heap: seq<HeapEntry>) {
    forall a, b | 0 <= a < b < |heap| :: heap[a].source != heap[b].source
  }

  lemma PoppedOnePerSource(heap: seq<HeapEntry>, a: nat)
    requires a < |heap| && OnePerSource(heap)
    ensures OnePerSource(Popped(heap, a))
  {
    var popped := Popped(heap, a);
    forall x, y | 0 <= x < y < |popped| ensures popped[x].source != popped[y].source {
      assert popped[x] == heap[if x < a then x else x + 1] && popped[y] == heap[if y < a then y else y + 1];
    }
  }

  lemma PoppedMembers(heap: seq<HeapEntry>, a: nat)
    requires a < |heap| && OnePerSource(heap)
    ensures OnePerSource(Popped(heap, a))
    ensures forall h :: h in Popped(heap, a) <==> h in heap && h.source != heap[a].source
  {
    var popped := Popped(heap, a);
    PoppedOnePerSource(heap, a);
    forall h | h in popped ensures h in heap && h.source != heap[a].source {
      var x :| 0 <= x < |popped| && popped[x] == h;
      assert h == heap[if x < a then x else x + 1];
    }
    forall h | h in heap && h.source != heap[a].source ensures h in popped {
      var x :| 0 <= x < |heap| && heap[x] == h;
      assert h == popped[if x < a then x else x - 1];
    }
  }

  lemma PushMembers(heap: seq<HeapEntry>, e: HeapEntry)
    requires OnePerSource(heap) && forall h <- heap :: h.source != e.source
    ensures OnePerSource(heap + [e])
    ensures forall h :: h in heap + [e] <==> h in heap || h == e
  {
  }

  ghost predicate Filled(heap: seq<HeapEntry>, sources: Sources, rem: Sources) {
    && |sources| == |rem|
    && forall h <- heap :: h.source < |rem| && rem[h.source] == [(h.key, h.value)] + sources[h.source]
  }

  /** Popping entry `a` and refilling from its source. */
  lemma HeadsNext(heap: seq<HeapEntry>, sources: Sources, rem: Sources, a: nat, heap': seq<HeapEntry>,
                  sources': Sources)
    requires Heads(heap, sources, rem) && a < |heap|
    requires var i := heap[a].source;
             if sources[i] == [] then heap' == Popped(heap, a) && sources' == sources
             else heap' == Popped(heap, a) + [HeapEntry(sources[i][0].0, sources[i][0].1, i)] &&
                  sources' == sources[i := sources[i][1..]]
    ensures rem[heap[a].source] != [] && Heads(heap', sources', Rest(rem, heap[a].source))
  {
    var i, rem' := heap[a].source, Rest(rem, heap[a].source);
    assert heap[a] in heap;
    assert rem'[i] == sources[i];
    PoppedMembers(heap, a);
    if sources[i] != [] {
      var e := HeapEntry(sources[i][0].0, sources[i][0].1, i);
      PushMembers(Popped(heap, a), e);
      assert sources[i] == [(e.key, e.value)] + sources[i][1..];
    }
    assert forall h <- heap' :: h in heap || h.source == i;
    forall j | 0 <= j < |rem'| && rem'[j] != [] ensures InHeap(heap', j) {
      if j != i {
        assert InHeap(heap, j);
        var h :| h in heap && h.source == j;
        assert h in heap';
      }
    }
  }

  class MergeIterator {
    var heap: seq<HeapEntry>
    var sources: Sources
    ghost var rem: Sources        // what each source has still to deliver

    ghost predicate Valid()
      reads this
    {
      Heads(heap, sources, rem)
    }

    constructor (all: Sources)
      ensures Valid() && rem == all
    {
      heap, sources, rem := [], all, all;
      new;
      for i := 0 to |all|
        invariant |sources| == |all| && rem == all
        invariant forall h <- heap :: h.source < i && rem[h.source] == [(h.key, h.value)] + sources[h.source]
        invariant forall a, b | 0 <= a < b < |heap| :: heap[a].source != heap[b].source
        invariant forall j | 0 <= j < i :: rem[j] == [] || InHeap(heap, j)
        invariant forall j | i <= j < |all| :: sources[j] == all[j]
      {
        ghost var before := heap;
        Seed(i);
        SeededHeads(before, heap, i);
      }
    }

    /** Move the next entry of source `i`, if there is one, to the heap. */
    method Seed(i: nat)
      requires i < |sources|
      modifies this`heap, this`sources
      ensures old(sources)[i] == [] ==> heap == old(heap) && sources == old(sources)
      ensures old(sources)[i] != [] ==>
                var e := old(sources)[i][0];
                heap == old(heap) + [HeapEntry(e.0, e.1, i)] && sources == old(sources)[i := old(sources)[i][1..]]
    {
      if sources[i] != [] {
        var (key, value) := sources[i][0];
        heap := heap + [HeapEntry(key, value, i)];
        sources := sources[i := sources[i][1..]];
      }
    }

    method Next() returns (r: Option<Entry>)
      requires Valid()
      modifies this
      ensures Valid()
      ensures Best(old(rem), |old(rem)|).None? ==> r == None && rem == old(rem)
      ensures Best(old(rem), |old(rem)|).Some? ==>
                var i := Best(old(rem), |old(rem)|).value; r == Some(old(rem)[i][0]) && rem == Rest(old(rem), i)
    {
      if heap == [] {
        assert forall i | 0 <= i < |rem| :: !InHeap(heap, i);
        return None;
      }
      var a := LeastIndex(heap);
      var e := heap[a];
      LeastIsBest(heap, sources, rem, e);
      heap := Popped(heap, a);
      Seed(e.source);
      HeadsNext(old(heap), old(sources), rem, a, heap, sources);
      rem := Rest(rem, e.source);
      r := Some((e.key, e.value));
    }

    /** Draining the iterator yields the whole merge. */
    method Collect() returns (out: seq<Entry>)
      requires Valid()
      modifies this
      ensures out == Entries(MergeAll(old(rem)))
    {
      out := [];
      while true
        invariant Valid()
        invariant Entries(MergeAll(old(rem))) == out + Entries(MergeAll(rem))
        decreases Total(rem)
      {
        ghost var before := rem;
        var e := Next();
        if e.None? {
          assert MergeAll(before) == [];
          break;
        }
        MergeStep(before);
        out := out + [e.value];
      }
    }
  }

  function Entries(out: seq<Tagged>): seq<Entry> {
    if out == [] then [] else [out[0].entry] + Entries(out[1..])
  }

  lemma MergeStep(rem: Sources)
    requires Best(rem, |rem|).Some?
    ensures var i := Best(rem, |rem|).value;
            Entries(MergeAll(rem)) == [rem[i][0]] + Entries(MergeAll(Rest(rem, i))) && Total(Rest(rem, i)) < Total(rem)
  {
    var i := Best(rem, |rem|).value;
    TotalDrops(rem, i);
    assert MergeAll(rem)[1..] == MergeAll(Rest(rem, i));
  }

  lemma SeededHeads(before: seq<HeapEntry>, heap: seq<HeapEntry>, i: nat)
    requires heap == before || (|heap| == |before| + 1 && heap[..|before|] == before && heap[|before|].source == i)
    ensures forall j: nat :: InHeap(before, j) ==> InHeap(heap, j)
    ensures heap != before ==> InHeap(heap, i)
  {
    forall j: nat | InHeap(before, j) ensures InHeap(heap, j) {
      var h :| h in before && h.source == j;
      assert heap == before || h in heap[..|before|];
      assert h in heap;
    }
    if heap != before {
      assert heap[|before|] in heap;
    }
  }
}
