/**
 SSTables as the engine sees them: a recency-ordered list of readers (src/engine.rs:93),
 each with its key range and its level, looked up from the newest end.
 */
module Tables {
  import opened Bytes
  import opened OrderedMaps

  datatype SSTMeta = SSTMeta(id: nat, level: nat, minKey: Key, maxKey: Key)

  datatype Reader = Reader(meta: SSTMeta, data: map<Key, Value>)

  // ---------------------------------------------------------------------
  // Reading a list of tables
  // ---------------------------------------------------------------------

  /** Newest first: the last table holding the key answers. */
  function Lookup(rs: seq<Reader>, k: Key): Option<Value> {
    if rs == [] then None
    else if k in rs[|rs| - 1].data then Some(rs[|rs| - 1].data[k])
    else Lookup(rs[..|rs| - 1], k)
  }

  /** Oldest first, newer tables overwriting: the map that `scan` and compaction build. */
  function Overlay(rs: seq<Reader>): map<Key, Value> {
    if rs == [] then map[] else Overlay(rs[..|rs| - 1]) + rs[|rs| - 1].data
  }

  function At(m: map<Key, Value>, k: Key): Option<Value> {
    if k in m then Some(m[k]) else None
  }

  /** Stopping at the newest hit and overwriting oldest-first agree. */
  lemma {:induction false} OverlayIsLookup(rs: seq<Reader>, k: Key)
    ensures At(Overlay(rs), k) == Lookup(rs, k)
  {
    if rs != [] {
      OverlayIsLookup(rs[..|rs| - 1], k);
    }
  }

  lemma {:induction false} LookupAppend(a: seq<Reader>, b: seq<Reader>, k: Key)
    ensures Lookup(a + b, k) == if Lookup(b, k).Some? then Lookup(b, k) else Lookup(a, k)
  {
    if b == [] {
      assert a + b == a;
    } else {
      var b' := b[..|b| - 1];
      assert (a + b)[..|a + b| - 1] == a + b';
      LookupAppend(a, b', k);
    }
  }

  /** `p` is the newest table holding `k`. */
  ghost predicate Newest(rs: seq<Reader>, k: Key, p: int) {
    0 <= p < |rs| && k in rs[p].data && forall q | p < q < |rs| :: k !in rs[q].data
  }

  lemma {:induction false} LookupNewest(rs: seq<Reader>, k: Key)
    ensures Lookup(rs, k).None? ==> forall r <- rs :: k !in r.data
    ensures Lookup(rs, k).Some? ==> exists p :: Newest(rs, k, p) && Lookup(rs, k) == Some(rs[p].data[k])
  {
    if rs != [] {
      if k in rs[|rs| - 1].data {
        assert Newest(rs, k, |rs| - 1);
      } else {
        LookupNewest(rs[..|rs| - 1], k);
        if Lookup(rs, k).Some? {
          var p :| Newest(rs[..|rs| - 1], k, p) && Lookup(rs, k) == Some(rs[p].data[k]);
          assert Newest(rs, k, p);
        }
      }
    }
  }

  // ---------------------------------------------------------------------
  // Selecting tables
  // ---------------------------------------------------------------------

  /** Which readers a compaction step keeps, merges or looks below. */
  datatype Choice =
    | Level(l: nat)
    | Below(l: nat)
    | Merging(src: nat, lo: Key, hi: Key)
    | Range(dst: nat, lo: Key, hi: Key)
    | Surviving(src: nat, lo: Key, hi: Key)

  predicate Overlaps(m: SSTMeta, lo: Key, hi: Key) {
    Le(lo, m.maxKey) && Le(m.minKey, hi)
  }

  predicate Takes(c: Choice, m: SSTMeta) {
    match c
    case Level(l) => m.level == l
    case Below(l) => m.level > l
    case Range(dst, lo, hi) => m.level == dst && Overlaps(m, lo, hi)
    case Merging(src, lo, hi) => m.level == src || (m.level == src + 1 && Overlaps(m, lo, hi))
    case Surviving(src, lo, hi) => !(m.level == src || (m.level == src + 1 && Overlaps(m, lo, hi)))
  }

  function Pick(rs: seq<Reader>, c: Choice): (ps: seq<Reader>) {
    if rs == [] then []
    else if Takes(c, rs[|rs| - 1].meta) then Pick(rs[..|rs| - 1], c) + [rs[|rs| - 1]]
    else Pick(rs[..|rs| - 1], c)
  }

  function AtLevel(rs: seq<Reader>, l: nat): seq<Reader> {
    Pick(rs, Level(l))
  }

  lemma {:induction false} PickMember(rs: seq<Reader>, c: Choice, r: Reader)
    ensures r in Pick(rs, c) <==> r in rs && Takes(c, r.meta)
  {
    if rs != [] {
      PickMember(rs[..|rs| - 1], c, r);
      assert rs == rs[..|rs| - 1] + [rs[|rs| - 1]];
    }
  }

  lemma PickMembers(rs: seq<Reader>, c: Choice)
    ensures forall r :: r in Pick(rs, c) <==> r in rs && Takes(c, r.meta)
  {
    forall r ensures r in Pick(rs, c) <==> r in rs && Takes(c, r.meta) { PickMember(rs, c, r); }
  }

  lemma {:induction false} PickAppend(a: seq<Reader>, b: seq<Reader>, c: Choice)
    ensures Pick(a + b, c) == Pick(a, c) + Pick(b, c)
  {
    if b == [] {
      assert a + b == a;
    } else {
      assert (a + b)[..|a + b| - 1] == a + b[..|b| - 1];
      PickAppend(a, b[..|b| - 1], c);
    }
  }

  lemma PickOne(r: Reader, c: Choice)
    ensures Pick([r], c) == if Takes(c, r.meta) then [r] else []
  {
    assert [r][..0] == [];
  }

  /** If the newest holder of the key is picked, the answer is unchanged. */
  lemma {:induction false} LookupPick(rs: seq<Reader>, c: Choice, k: Key, p: int)
    requires Newest(rs, k, p) && Takes(c, rs[p].meta)
    ensures Lookup(Pick(rs, c), k) == Lookup(rs, k)
  {
    var init, r := rs[..|rs| - 1], rs[|rs| - 1];
    if p < |init| {
      LookupPick(init, c, k, p);
    }
    PickLast(init, r, c);
    assert rs == init + [r];
    LookupLast(init, r, k);
    LookupLast(Pick(init, c), r, k);
  }

  lemma PickLast(a: seq<Reader>, r: Reader, c: Choice)
    ensures Pick(a + [r], c) == if Takes(c, r.meta) then Pick(a, c) + [r] else Pick(a, c)
  {
    assert (a + [r])[..|a|] == a;
  }

  lemma LookupLast(a: seq<Reader>, r: Reader, k: Key)
    ensures Lookup(a + [r], k) == if k in r.data then Some(r.data[k]) else Lookup(a, k)
  {
    assert (a + [r])[..|a|] == a;
  }

  lemma LookupNone(rs: seq<Reader>, k: Key)
    requires forall r <- rs :: k !in r.data
    ensures Lookup(rs, k) == None
  {
    LookupNewest(rs, k);
  }
}
