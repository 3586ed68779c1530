/** Ordered views of a map: the behaviour of a `BTreeMap` that the engine relies on. */
module OrderedMaps {
  import opened Bytes

  type Entry = (Key, Value)

  ghost predicate IsLeast(k: Key, s: set<Key>) {
    k in s && forall x <- s :: Le(k, x)
  }

  ghost predicate IsGreatest(k: Key, s: set<Key>) {
    k in s && forall x <- s :: Le(x, k)
  }

  lemma {:induction false} LeastExists(s: set<Key>) returns (k: Key)
    requires s != {}
    ensures IsLeast(k, s)
    decreases |s|
  {
    var x :| x in s;
    if s == {x} {
      k := x;
    } else {
      var rest := s - {x};
      var y := LeastExists(rest);
      k := if Lt(x, y) then x else y;
      forall z <- s ensures Le(k, z) {
        LtFacts(x, y, z);
      }
    }
  }

  lemma {:induction false} GreatestExists(s: set<Key>) returns (k: Key)
    requires s != {}
    ensures IsGreatest(k, s)
    decreases |s|
  {
    var x :| x in s;
    if s == {x} {
      k := x;
    } else {
      var rest := s - {x};
      var y := GreatestExists(rest);
      k := if Lt(y, x) then x else y;
      forall z <- s ensures Le(z, k) {
        LtFacts(z, y, x);
        LtFacts(y, x, x);
      }
    }
  }

  lemma LeastUnique(s: set<Key>, a: Key, b: Key)
    requires IsLeast(a, s) && IsLeast(b, s)
    ensures a == b
  {
    LtFacts(a, b, a);
  }

  lemma GreatestUnique(s: set<Key>, a: Key, b: Key)
    requires IsGreatest(a, s) && IsGreatest(b, s)
    ensures a == b
  {
    LtFacts(a, b, a);
  }

  /** The first key of a map, `keys().next()`. */
  function MinKey(s: set<Key>): (k: Key)
    requires s != {}
    ensures IsLeast(k, s)
  {
    assert exists w :: IsLeast(w, s) by { var w := LeastExists(s); }
    assert forall a, b | a in s && b in s && (forall x <- s :: Le(a, x)) && (forall x <- s :: Le(b, x)) :: a == b by {
      forall a, b | a in s && b in s && (forall x <- s :: Le(a, x)) && (forall x <- s :: Le(b, x)) ensures a == b {
        LeastUnique(s, a, b);
      }
    }
    var k :| k in s && forall x <- s :: Le(k, x);
    k
  }

  /** The last key of a map, `keys().last()`. */
  function MaxKey(s: set<Key>): (k: Key)
    requires s != {}
    ensures IsGreatest(k, s)
  {
    assert exists w :: IsGreatest(w, s) by { var w := GreatestExists(s); }
    assert forall a, b | a in s && b in s && (forall x <- s :: Le(x, a)) && (forall x <- s :: Le(x, b)) :: a == b by {
      forall a, b | a in s && b in s && (forall x <- s :: Le(x, a)) && (forall x <- s :: Le(x, b)) ensures a == b {
        GreatestUnique(s, a, b);
      }
    }
    var k :| k in s && forall x <- s :: Le(x, k);
    k
  }

  /** `lo <= k < hi` */
  predicate Within(k: Key, lo: Key, hi: Key) {
    Le(lo, k) && Lt(k, hi)
  }

  function RangePart(m: map<Key, Value>, lo: Key, hi: Key): map<Key, Value> {
    map k | k in m && Within(k, lo, hi) :: m[k]
  }

  // ---------------------------------------------------------------------
  // Sorted entry lists
  // ---------------------------------------------------------------------

  predicate Sorted(es: seq<Entry>) {
    forall i, j | 0 <= i < j < |es| :: Lt(es[i].0, es[j].0)
  }

  function KeysOf(es: seq<Entry>): set<Key> {
    set e <- es :: e.0
  }

  /** Inserting the entries in list order into an empty `BTreeMap`. */
  function ToMap(es: seq<Entry>): map<Key, Value> {
    if es == [] then map[] else ToMap(es[..|es| - 1])[es[|es| - 1].0 := es[|es| - 1].1]
  }

  /** `es` lists the entries of `m` in key order. */
  ghost predicate Lists(es: seq<Entry>, m: map<Key, Value>) {
    Sorted(es) && KeysOf(es) == m.Keys && (forall e <- es :: e.0 in m && e.1 == m[e.0])
  }

  lemma ListsCons(k: Key, m: map<Key, Value>, tail: seq<Entry>)
    requires k in m && IsLeast(k, m.Keys) && Lists(tail, m - {k})
    ensures Lists([(k, m[k])] + tail, m)
  {
    var es := [(k, m[k])] + tail;
    forall i, j | 0 <= i < j < |es| ensures Lt(es[i].0, es[j].0) {
      assert es[j] == tail[j - 1] && es[j] in tail;
      if i == 0 {
        assert Le(k, es[j].0);
      } else {
        assert es[i] == tail[i - 1];
      }
    }
    forall x ensures x in m <==> x in KeysOf(es) {
      if x == k { assert es[0] in es; }
      if x in m && x != k {
        assert x in (m - {k});
        var e :| e in tail && e.0 == x;
        assert e in es;
      }
    }
  }

  /** The entries of a map in key order, `into_iter()`. */
  function SortedEntries(m: map<Key, Value>): (es: seq<Entry>)
    ensures Lists(es, m)
    decreases |m|
  {
    if m == map[] then []
    else
      var k := MinKey(m.Keys);
      assert m.Keys == (m - {k}).Keys + {k};
      var tail := SortedEntries(m - {k});
      ListsCons(k, m, tail);
      [(k, m[k])] + tail
  }

  lemma {:induction false} ToMapLookup(es: seq<Entry>, i: nat)
    requires Sorted(es) && i < |es|
    ensures es[i].0 in ToMap(es) && ToMap(es)[es[i].0] == es[i].1
  {
    LtOrder();
    if i < |es| - 1 {
      ToMapLookup(es[..|es| - 1], i);
      assert Lt(es[i].0, es[|es| - 1].0);
    }
  }

  lemma {:induction false} ToMapKeys(es: seq<Entry>)
    ensures ToMap(es).Keys == KeysOf(es)
  {
    if es != [] {
      var init := es[..|es| - 1];
      ToMapKeys(init);
      assert es == init + [es[|es| - 1]];
    }
  }

  lemma ListsToMap(es: seq<Entry>, m: map<Key, Value>)
    requires Lists(es, m)
    ensures ToMap(es) == m
  {
    ToMapKeys(es);
    forall k <- m ensures ToMap(es)[k] == m[k] {
      assert k in KeysOf(es);
      var i :| 0 <= i < |es| && es[i].0 == k;
      ToMapLookup(es, i);
      assert es[i] in es;
    }
  }

  /** Sorting a map and inserting the entries back gives the map. */
  lemma ToMapSortedEntries(m: map<Key, Value>)
    ensures ToMap(SortedEntries(m)) == m
  {
    ListsToMap(SortedEntries(m), m);
  }

  lemma ToMapLists(es: seq<Entry>)
    requires Sorted(es)
    ensures Lists(es, ToMap(es))
  {
    ToMapKeys(es);
    forall e <- es ensures e.0 in ToMap(es) && e.1 == ToMap(es)[e.0] {
      var i :| 0 <= i < |es| && es[i] == e;
      ToMapLookup(es, i);
    }
  }

  /** A sorted list is determined by the map it denotes. */
  lemma {:induction false} SortedUnique(a: seq<Entry>, b: seq<Entry>)
    requires Sorted(a) && Sorted(b) && ToMap(a) == ToMap(b)
    ensures a == b
  {
    ToMapKeys(a);
    ToMapKeys(b);
    NoKeys(a);
    NoKeys(b);
    if a == [] || b == [] {
    } else {
      var la, lb := a[|a| - 1], b[|b| - 1];
      LastIsGreatest(a);
      LastIsGreatest(b);
      GreatestUnique(KeysOf(a), la.0, lb.0);
      ToMapLookup(a, |a| - 1);
      ToMapLookup(b, |b| - 1);
      var a', b' := a[..|a| - 1], b[..|b| - 1];
      InitMap(a);
      InitMap(b);
      SortedUnique(a', b');
      assert a == a' + [la] && b == b' + [lb];
    }
  }

  lemma NoKeys(es: seq<Entry>)
    ensures KeysOf(es) == {} <==> es == []
  {
    if es != [] {
      assert es[0].0 in KeysOf(es);
    }
  }

  lemma LastIsGreatest(a: seq<Entry>)
    requires Sorted(a) && a != []
    ensures IsGreatest(a[|a| - 1].0, KeysOf(a))
  {
    assert a[|a| - 1] in a;
    forall x <- KeysOf(a) ensures Le(x, a[|a| - 1].0) {
      var i :| 0 <= i < |a| && a[i].0 == x;
    }
  }

  lemma LastNotInInit(a: seq<Entry>)
    requires Sorted(a) && a != []
    ensures a[|a| - 1].0 !in KeysOf(a[..|a| - 1])
  {
    LtIrreflexive(a[|a| - 1].0);
  }

  lemma InitMap(a: seq<Entry>)
    requires Sorted(a) && a != []
    ensures ToMap(a[..|a| - 1]) == ToMap(a) - {a[|a| - 1].0}
  {
    ToMapKeys(a[..|a| - 1]);
    LastNotInInit(a);
    AddThenRemove(ToMap(a[..|a| - 1]), a[|a| - 1].0, a[|a| - 1].1);
  }

  lemma AddThenRemove(m: map<Key, Value>, k: Key, v: Value)
    requires k !in m
    ensures m[k := v] - {k} == m
  {
  }
}
