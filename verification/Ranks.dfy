/** Positions of keys in a sorted entry list. */
module Ranks {
  import opened Bytes
  import opened OrderedMaps
  import opened Towers

  /** How many entries lie below `k`. */
  function Rank(es: seq<Entry>, k: Key): (r: nat)
    ensures r <= |es|
  {
    if es == [] || !Lt(es[0].0, k) then 0 else 1 + Rank(es[1..], k)
  }

  lemma {:induction false} RankSplits(es: seq<Entry>, k: Key)
    requires Sorted(es)
    ensures forall j | 0 <= j < |es| :: Lt(es[j].0, k) <==> j < Rank(es, k)
  {
    if es != [] {
      if Lt(es[0].0, k) {
        RankSplits(es[1..], k);
        assert forall j | 1 <= j < |es| :: es[j] == es[1..][j - 1];
      } else {
        forall j | 0 < j < |es| ensures !Lt(es[j].0, k) {
          LtFacts(es[0].0, es[j].0, k);
          assert Lt(es[0].0, es[j].0);
        }
      }
    }
  }

  /** The only entry that can hold `k` is the one at its rank. */
  lemma RankFinds(es: seq<Entry>, k: Key)
    requires Sorted(es)
    ensures k in ToMap(es) <==> Rank(es, k) < |es| && es[Rank(es, k)].0 == k
    ensures k in ToMap(es) ==> ToMap(es)[k] == es[Rank(es, k)].1
  {
    var r := Rank(es, k);
    ToMapKeys(es);
    if k in ToMap(es) {
      var j :| 0 <= j < |es| && es[j].0 == k;
      RankOfMember(es, j);
      ToMapLookup(es, j);
    }
    if r < |es| && es[r].0 == k {
      ToMapLookup(es, r);
    }
  }

  lemma RankOfMember(es: seq<Entry>, j: nat)
    requires Sorted(es) && j < |es|
    ensures Rank(es, es[j].0) == j
  {
    var r := Rank(es, es[j].0);
    RankSplits(es, es[j].0);
    LtIrreflexive(es[j].0);
    assert Lt(es[j].0, es[j].0) <==> j < r;
    assert r < |es| ==> !Lt(es[r].0, es[j].0);
  }

  /** The entries with `lo <= key < hi`. */
  function RangeOf(es: seq<Entry>, lo: Key, hi: Key): seq<Entry> {
    var a, b := Rank(es, lo), Rank(es, hi);
    if a <= b then es[a..b] else []
  }

  lemma RangeOfMembers(es: seq<Entry>, lo: Key, hi: Key, e: Entry)
    requires Sorted(es)
    ensures Sorted(RangeOf(es, lo, hi))
    ensures e in RangeOf(es, lo, hi) <==> e in es && Le(lo, e.0) && Lt(e.0, hi)
  {
    var a, b := Rank(es, lo), Rank(es, hi);
    if a <= b {
      SortedSlice(es, a, b);
    }
    if e in es {
      var j :| 0 <= j < |es| && es[j] == e;
      AgainstRank(es, lo, j);
      AgainstRank(es, hi, j);
      if a <= b { InSlice(es, a, b, j); }
    }
  }

  lemma SortedSlice(es: seq<Entry>, a: nat, b: nat)
    requires Sorted(es) && a <= b <= |es|
    ensures Sorted(es[a..b])
  {
  }

  /** An entry lies below the rank of a key exactly when its key is smaller. */
  lemma AgainstRank(es: seq<Entry>, k: Key, j: nat)
    requires Sorted(es) && j < |es|
    ensures Lt(es[j].0, k) <==> j < Rank(es, k)
    ensures Le(k, es[j].0) <==> j >= Rank(es, k)
  {
    RankSplits(es, k);
    LtFacts(es[j].0, k, es[j].0);
    LtIrreflexive(k);
  }

  lemma InSlice(es: seq<Entry>, a: nat, b: nat, j: nat)
    requires Sorted(es) && a <= b <= |es| && j < |es|
    ensures es[j] in es[a..b] <==> a <= j < b
  {
    if a <= j < b {
      assert es[a..b][j - a] == es[j];
    }
    if es[j] in es[a..b] {
      var i :| a <= i < b && es[i] == es[j];
      LtIrreflexive(es[j].0);
    }
  }

  /** As maps: the entries of the range, and nothing else. */
  lemma RangeOfMap(es: seq<Entry>, lo: Key, hi: Key)
    requires Sorted(es)
    ensures Lists(RangeOf(es, lo, hi), RangePart(ToMap(es), lo, hi))
    ensures ToMap(RangeOf(es, lo, hi)) == RangePart(ToMap(es), lo, hi)
  {
    var rs, m := RangeOf(es, lo, hi), RangePart(ToMap(es), lo, hi);
    ToMapLists(es);
    forall e ensures Sorted(rs) && (e in rs <==> e in es && Within(e.0, lo, hi)) {
      RangeOfMembers(es, lo, hi, e);
    }
    RangeKeys(es, rs, lo, hi);
    ListsToMap(rs, m);
  }

  lemma RangeKeys(es: seq<Entry>, rs: seq<Entry>, lo: Key, hi: Key)
    requires Lists(es, ToMap(es))
    requires forall e :: e in rs <==> e in es && Within(e.0, lo, hi)
    ensures KeysOf(rs) == RangePart(ToMap(es), lo, hi).Keys
  {
    forall k ensures k in KeysOf(rs) <==> k in RangePart(ToMap(es), lo, hi) {
      if k in KeysOf(es) && Within(k, lo, hi) {
        var e :| e in es && e.0 == k;
        assert e in rs;
      }
    }
  }

  // ---------------------------------------------------------------------
  // Updating and inserting
  // ---------------------------------------------------------------------

  lemma SortedInserted(es: seq<Entry>, e: Entry)
    requires Sorted(es) && e.0 !in ToMap(es)
    ensures Sorted(Inserted(es, Rank(es, e.0), e))
  {
    var r := Rank(es, e.0);
    var es' := Inserted(es, r, e);
    RankSplits(es, e.0);
    RankFinds(es, e.0);
    forall i, j | 0 <= i < j < |es'| ensures Lt(es'[i].0, es'[j].0) {
      if i == r {
        LtFacts(e.0, es[j - 1].0, e.0);
        if r < j - 1 {
          LtFacts(e.0, es[r].0, es[j - 1].0);
          assert Lt(es[r].0, es[j - 1].0);
        }
      }
    }
  }

  lemma KeysInserted(es: seq<Entry>, r: nat, e: Entry)
    requires r <= |es|
    ensures KeysOf(Inserted(es, r, e)) == KeysOf(es) + {e.0}
  {
    var es' := Inserted(es, r, e);
    assert es'[r] == e;
    forall k | k in KeysOf(es) ensures k in KeysOf(es') {
      var j :| 0 <= j < |es| && es[j].0 == k;
      assert es'[if j < r then j else j + 1] == es[j];
    }
    forall k | k in KeysOf(es') && k != e.0 ensures k in KeysOf(es) {
      var j :| 0 <= j < |es'| && es'[j].0 == k;
      assert es[if j < r then j else j - 1].0 == k;
    }
  }

  /** Inserting a new key at its rank adds it to the map. */
  lemma MapInserted(es: seq<Entry>, e: Entry)
    requires Sorted(es) && e.0 !in ToMap(es)
    ensures ToMap(Inserted(es, Rank(es, e.0), e)) == ToMap(es)[e.0 := e.1]
  {
    var r := Rank(es, e.0);
    var es', m := Inserted(es, r, e), ToMap(es)[e.0 := e.1];
    SortedInserted(es, e);
    KeysInserted(es, r, e);
    ToMapLists(es);
    forall x <- es' ensures x.0 in m && x.1 == m[x.0] {
      var j :| 0 <= j < |es'| && es'[j] == x;
      if j != r {
        assert es[if j < r then j else j - 1] in es;
      }
    }
    ListsToMap(es', m);
  }

  /** Overwriting the value at the key's rank updates the map. */
  lemma MapUpdated(es: seq<Entry>, k: Key, v: Value)
    requires Sorted(es) && k in ToMap(es)
    ensures Rank(es, k) < |es|
    ensures Sorted(es[Rank(es, k) := (k, v)])
    ensures ToMap(es[Rank(es, k) := (k, v)]) == ToMap(es)[k := v]
  {
    RankFinds(es, k);
    var r := Rank(es, k);
    var es', m := es[r := (k, v)], ToMap(es)[k := v];
    ToMapLists(es);
    KeysUpdated(es, r, v);
    SortedUpdated(es, r, v);
    forall x <- es' ensures x.0 in m && x.1 == m[x.0] {
      var j :| 0 <= j < |es'| && es'[j] == x;
      if j != r {
        OtherKey(es, r, j);
      }
    }
    ListsToMap(es', m);
  }

  lemma SortedUpdated(es: seq<Entry>, r: nat, v: Value)
    requires Sorted(es) && r < |es|
    ensures Sorted(es[r := (es[r].0, v)])
  {
  }

  lemma OtherKey(es: seq<Entry>, r: nat, j: nat)
    requires Sorted(es) && r < |es| && j < |es| && j != r
    ensures es[j].0 != es[r].0 && es[j] in es
  {
    LtIrreflexive(es[r].0);
  }

  lemma KeysUpdated(es: seq<Entry>, r: nat, v: Value)
    requires r < |es|
    ensures KeysOf(es[r := (es[r].0, v)]) == KeysOf(es)
  {
    var es' := es[r := (es[r].0, v)];
    forall x ensures x in KeysOf(es') <==> x in KeysOf(es) {
      if x in KeysOf(es) {
        var j :| 0 <= j < |es| && es[j].0 == x;
        assert es'[j] in es';
      }
      if x in KeysOf(es') {
        var j :| 0 <= j < |es'| && es'[j].0 == x;
        assert es[j] in es;
      }
    }
  }
}
