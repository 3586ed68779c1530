/** Finding, filtering and removing tables by id, as the engine's loops do, against selection by level. */
module Removal {
  import opened Bytes
  import opened OrderedMaps
  import opened Tables
  import opened Compaction
  import opened Cascade
  import opened Machine
  import opened Recovery

  ghost predicate UniqueIds(rs: seq<Reader>, bound: nat) {
    && (forall i, j | 0 <= i < j < |rs| :: rs[i].meta.id != rs[j].meta.id)
    && (forall r <- rs :: r.meta.id < bound)
  }

  /** The manifest lists exactly the readers, level by level, in order. */
  ghost predicate Listed(levels: seq<seq<SSTMeta>>, rs: seq<Reader>) {
    && (forall r <- rs :: r.meta.level < |levels|)
    && (forall l | 0 <= l < |levels| :: levels[l] == Metas(AtLevel(rs, l)))
  }

  /** Every reader's file is in the directory. */
  ghost predicate Filed(files: map<nat, map<Key, Value>>, rs: seq<Reader>) {
    forall r <- rs :: r.meta.id in files && files[r.meta.id] == r.data
  }

  // ---------------------------------------------------------------------
  // Lists of metadata
  // ---------------------------------------------------------------------

  /** `ssts_at_level` */
  function MetasAt(levels: seq<seq<SSTMeta>>, l: nat): seq<SSTMeta> {
    if l < |levels| then levels[l] else []
  }

  lemma MetasAtListed(levels: seq<seq<SSTMeta>>, rs: seq<Reader>, l: nat)
    requires Listed(levels, rs)
    ensures MetasAt(levels, l) == Metas(AtLevel(rs, l))
  {
    if l >= |levels| {
      EmptyLevel(rs, l);
    }
  }

  function Overlapping(ms: seq<SSTMeta>, lo: Key, hi: Key): seq<SSTMeta> {
    if ms == [] then []
    else
      var rest, m := Overlapping(ms[..|ms| - 1], lo, hi), ms[|ms| - 1];
      if Overlaps(m, lo, hi) then rest + [m] else rest
  }

  lemma OverlappingLast(ms: seq<SSTMeta>, m: SSTMeta, lo: Key, hi: Key)
    ensures Overlapping(ms + [m], lo, hi) ==
            if Overlaps(m, lo, hi) then Overlapping(ms, lo, hi) + [m] else Overlapping(ms, lo, hi)
  {
    assert (ms + [m])[..|ms|] == ms;
  }

  lemma MetasLast(rs: seq<Reader>, r: Reader)
    ensures Metas(rs + [r]) == Metas(rs) + [r.meta]
  {
    assert (rs + [r])[..|rs|] == rs;
  }

  /** The overlapping entries of a level's listing are the listing of the overlapping tables. */
  lemma {:induction false} OverlappingListed(rs: seq<Reader>, dst: nat, lo: Key, hi: Key)
    ensures Overlapping(Metas(AtLevel(rs, dst)), lo, hi) == Metas(Pick(rs, Range(dst, lo, hi)))
  {
    if rs != [] {
      var init, r := rs[..|rs| - 1], rs[|rs| - 1];
      assert rs == init + [r];
      OverlappingListed(init, dst, lo, hi);
      PickLast(init, r, Level(dst));
      PickLast(init, r, Range(dst, lo, hi));
      MetasLast(AtLevel(init, dst), r);
      OverlappingLast(Metas(AtLevel(init, dst)), r.meta, lo, hi);
      MetasLast(Pick(init, Range(dst, lo, hi)), r);
    }
  }

  // ---------------------------------------------------------------------
  // Removing by id
  // ---------------------------------------------------------------------

  /** `readers.retain(|(m, _)| m.id != id)`, for all ids of a set. */
  function Without(rs: seq<Reader>, ids: set<nat>): seq<Reader> {
    if rs == [] then []
    else
      var rest, r := Without(rs[..|rs| - 1], ids), rs[|rs| - 1];
      if r.meta.id in ids then rest else rest + [r]
  }

  /** `level.retain(|m| m.id != id)` */
  function WithoutMeta(ms: seq<SSTMeta>, id: nat): seq<SSTMeta> {
    if ms == [] then []
    else
      var rest, m := WithoutMeta(ms[..|ms| - 1], id), ms[|ms| - 1];
      if m.id == id then rest else rest + [m]
  }

  lemma WithoutLast(rs: seq<Reader>, r: Reader, ids: set<nat>)
    ensures Without(rs + [r], ids) == if r.meta.id in ids then Without(rs, ids) else Without(rs, ids) + [r]
  {
    assert (rs + [r])[..|rs|] == rs;
  }

  lemma {:induction false} WithoutNone(rs: seq<Reader>)
    ensures Without(rs, {}) == rs
  {
    if rs != [] {
      WithoutNone(rs[..|rs| - 1]);
      assert rs == rs[..|rs| - 1] + [rs[|rs| - 1]];
    }
  }

  lemma {:induction false} WithoutMore(rs: seq<Reader>, ids: set<nat>, id: nat)
    ensures Without(Without(rs, ids), {id}) == Without(rs, ids + {id})
  {
    if rs != [] {
      var init, r := rs[..|rs| - 1], rs[|rs| - 1];
      assert rs == init + [r];
      WithoutMore(init, ids, id);
      WithoutLast(init, r, ids);
      WithoutLast(init, r, ids + {id});
      WithoutLast(Without(init, ids), r, {id});
    }
  }

  lemma {:induction false} WithoutMember(rs: seq<Reader>, ids: set<nat>, x: Reader)
    ensures x in Without(rs, ids) <==> x in rs && x.meta.id !in ids
  {
    if rs != [] {
      WithoutMember(rs[..|rs| - 1], ids, x);
      assert rs == rs[..|rs| - 1] + [rs[|rs| - 1]];
    }
  }

  lemma {:induction false} WithoutUnique(rs: seq<Reader>, ids: set<nat>, bound: nat)
    requires UniqueIds(rs, bound)
    ensures UniqueIds(Without(rs, ids), bound)
  {
    if rs != [] {
      var init, r := rs[..|rs| - 1], rs[|rs| - 1];
      assert rs == init + [r];
      WithoutUnique(init, ids, bound);
      forall x <- Without(init, ids) ensures x.meta.id != r.meta.id {
        WithoutMember(init, ids, x);
      }
    }
  }

  /** Removing by id is selecting by level when the ids are those of the tables not selected. */
  lemma {:induction false} WithoutIsPick(rs: seq<Reader>, ids: set<nat>, c: Choice)
    requires forall r <- rs :: Takes(c, r.meta) <==> r.meta.id !in ids
    ensures Without(rs, ids) == Pick(rs, c)
  {
    if rs != [] {
      var init, r := rs[..|rs| - 1], rs[|rs| - 1];
      assert rs == init + [r];
      WithoutIsPick(init, ids, c);
      PickLast(init, r, c);
      WithoutLast(init, r, ids);
    }
  }

  /** The listing of a level without one id. */
  lemma {:induction false} WithoutListed(rs: seq<Reader>, id: nat, l: nat)
    ensures Metas(AtLevel(Without(rs, {id}), l)) == WithoutMeta(Metas(AtLevel(rs, l)), id)
  {
    if rs != [] {
      var init, r := rs[..|rs| - 1], rs[|rs| - 1];
      assert rs == init + [r];
      WithoutListed(init, id, l);
      WithoutLast(init, r, {id});
      PickLast(init, r, Level(l));
      PickLast(Without(init, {id}), r, Level(l));
      MetasLast(AtLevel(init, l), r);
      MetasLast(AtLevel(Without(init, {id}), l), r);
      WithoutMetaLast(Metas(AtLevel(init, l)), r.meta, id);
    }
  }

  /** Manifest, files and readers still agree once an id is gone from all three. */
  lemma Uninstalled(levels: seq<seq<SSTMeta>>, rs: seq<Reader>, files: map<nat, map<Key, Value>>, bound: nat, id: nat,
                    levels': seq<seq<SSTMeta>>, rs': seq<Reader>)
    requires Listed(levels, rs) && Filed(files, rs) && UniqueIds(rs, bound)
    requires rs' == Without(rs, {id}) && |levels'| == |levels|
    requires forall l | 0 <= l < |levels| :: levels'[l] == WithoutMeta(levels[l], id)
    ensures Listed(levels', rs') && Filed(files - {id}, rs') && UniqueIds(rs', bound)
  {
    WithoutUnique(rs, {id}, bound);
    forall r ensures r in rs' <==> r in rs && r.meta.id != id { WithoutMember(rs, {id}, r); }
    forall l | 0 <= l < |levels'| ensures levels'[l] == Metas(AtLevel(rs', l)) {
      WithoutListed(rs, id, l);
    }
  }

  lemma WithoutMetaLast(ms: seq<SSTMeta>, m: SSTMeta, id: nat)
    ensures WithoutMeta(ms + [m], id) == if m.id == id then WithoutMeta(ms, id) else WithoutMeta(ms, id) + [m]
  {
    assert (ms + [m])[..|ms|] == ms;
  }

  lemma {:induction false} WithoutMetaAbsent(ms: seq<SSTMeta>, id: nat)
    ensures (forall m <- ms :: m.id != id) <==> |WithoutMeta(ms, id)| == |ms|
    ensures (forall m <- ms :: m.id != id) ==> WithoutMeta(ms, id) == ms
    ensures |WithoutMeta(ms, id)| <= |ms|
  {
    if ms != [] {
      WithoutMetaAbsent(ms[..|ms| - 1], id);
      assert ms == ms[..|ms| - 1] + [ms[|ms| - 1]];
    }
  }

  /** No id is listed in two levels. */
  lemma ListedOnce(levels: seq<seq<SSTMeta>>, rs: seq<Reader>, bound: nat, a: nat, b: nat, m: SSTMeta, n: SSTMeta)
    requires Listed(levels, rs) && UniqueIds(rs, bound)
    requires a < |levels| && b < |levels| && m in levels[a] && n in levels[b] && m.id == n.id
    ensures a == b && m == n
  {
    ListedReader(levels, rs, a, m);
    ListedReader(levels, rs, b, n);
  }

  lemma ListedReader(levels: seq<seq<SSTMeta>>, rs: seq<Reader>, a: nat, m: SSTMeta)
    requires Listed(levels, rs) && a < |levels| && m in levels[a]
    ensures m.level == a && exists i :: 0 <= i < |rs| && rs[i].meta == m
  {
    var at := AtLevel(rs, a);
    var k :| 0 <= k < |Metas(at)| && Metas(at)[k] == m;
    assert at[k] in at;
    PickMember(rs, Level(a), at[k]);
    var i :| 0 <= i < |rs| && rs[i] == at[k];
  }

  // ---------------------------------------------------------------------
  // Adding
  // ---------------------------------------------------------------------

  lemma ListedAppend(levels: seq<seq<SSTMeta>>, rs: seq<Reader>, r: Reader, levels': seq<seq<SSTMeta>>)
    requires Listed(levels, rs)
    requires |levels'| == if r.meta.level < |levels| then |levels| else r.meta.level + 1
    requires forall l | 0 <= l < |levels'| ::
               levels'[l] == MetasAt(levels, l) + if l == r.meta.level then [r.meta] else []
    ensures Listed(levels', rs + [r])
  {
    forall l | 0 <= l < |levels'| ensures levels'[l] == Metas(AtLevel(rs + [r], l)) {
      MetasAtListed(levels, rs, l);
      PickLast(rs, r, Level(l));
      MetasLast(AtLevel(rs, l), r);
    }
  }

  lemma UniqueIdsAppend(rs: seq<Reader>, r: Reader, bound: nat)
    requires UniqueIds(rs, bound) && r.meta.id < bound && forall x <- rs :: x.meta.id < r.meta.id
    ensures UniqueIds(rs + [r], bound)
  {
  }

  lemma IdReader(rs: seq<Reader>, bound: nat, a: Reader, b: Reader)
    requires UniqueIds(rs, bound) && a in rs && b in rs && a.meta.id == b.meta.id
    ensures a == b
  {
    var i :| 0 <= i < |rs| && rs[i] == a;
    var j :| 0 <= j < |rs| && rs[j] == b;
  }

  // ---------------------------------------------------------------------
  // A compaction step by ids
  // ---------------------------------------------------------------------

  function Ids(rs: seq<Reader>): set<nat> {
    set r <- rs :: r.meta.id
  }

  /** The tables that a compaction of `src` merges, older level first. */
  function Inputs(rs: seq<Reader>, src: nat): seq<Reader>
    requires AtLevel(rs, src) != []
  {
    Chosen(rs, src) + AtLevel(rs, src)
  }

  lemma InputMembers(rs: seq<Reader>, src: nat, r: Reader)
    requires AtLevel(rs, src) != []
    ensures r in Inputs(rs, src) <==> r in rs && !Takes(Surviving(src, Lo(rs, src), Hi(rs, src)), r.meta)
  {
    PickMember(rs, Level(src), r);
    PickMember(rs, Range(src + 1, Lo(rs, src), Hi(rs, src)), r);
  }

  /** Removing the inputs by id, after the output has been added, leaves survivors and output. */
  lemma RemoveInputs(rs: seq<Reader>, src: nat, bound: nat, out: seq<Reader>)
    requires AtLevel(rs, src) != [] && UniqueIds(rs, bound)
    requires |out| <= 1 && forall r <- out :: r.meta.id >= bound
    ensures Without(rs + out, Ids(Inputs(rs, src))) == Survivors(rs, src) + out
  {
    var ids := Ids(Inputs(rs, src));
    forall r <- rs ensures Takes(Surviving(src, Lo(rs, src), Hi(rs, src)), r.meta) <==> r.meta.id !in ids {
      InputMembers(rs, src, r);
      if r.meta.id in ids {
        var x :| x in Inputs(rs, src) && x.meta.id == r.meta.id;
        InputMembers(rs, src, x);
        IdReader(rs, bound, x, r);
      }
    }
    WithoutIsPick(rs, ids, Surviving(src, Lo(rs, src), Hi(rs, src)));
    if out == [] {
      assert rs + out == rs;
    } else {
      assert out == [out[0]] && out[0] in out;
      InputIdsBelow(rs, src, bound);
      WithoutLast(rs, out[0], ids);
    }
  }

  lemma InputIdsBelow(rs: seq<Reader>, src: nat, bound: nat)
    requires AtLevel(rs, src) != [] && UniqueIds(rs, bound)
    ensures forall id <- Ids(Inputs(rs, src)) :: id < bound
  {
    forall r <- Inputs(rs, src) ensures r.meta.id < bound {
      InputMembers(rs, src, r);
    }
  }

  // ---------------------------------------------------------------------
  // The rebuilt list
  // ---------------------------------------------------------------------

  lemma {:induction false} AtLevelUnique(rs: seq<Reader>, l: nat, bound: nat)
    requires UniqueIds(rs, bound)
    ensures UniqueIds(AtLevel(rs, l), bound)
  {
    if rs != [] {
      var init, r := rs[..|rs| - 1], rs[|rs| - 1];
      assert rs == init + [r];
      AtLevelUnique(init, l, bound);
      PickLast(init, r, Level(l));
      PickMembers(init, Level(l));
    }
  }

  lemma {:induction false} ByLevelUnique(rs: seq<Reader>, n: nat, bound: nat)
    requires UniqueIds(rs, bound)
    ensures UniqueIds(ByLevel(rs, n), bound)
  {
    if n > 0 {
      ByLevelUnique(rs, n - 1, bound);
      AtLevelUnique(rs, n - 1, bound);
      ByLevelMembers(rs, n - 1);
      PickMembers(rs, Level(n - 1));
      var a, b := ByLevel(rs, n - 1), AtLevel(rs, n - 1);
      forall x <- a, y <- b ensures x.meta.id != y.meta.id {
        if x.meta.id == y.meta.id { IdReader(rs, bound, x, y); }
      }
      UniqueConcat(a, b, bound);
    }
  }

  lemma UniqueConcat(a: seq<Reader>, b: seq<Reader>, bound: nat)
    requires UniqueIds(a, bound) && UniqueIds(b, bound) && forall x <- a, y <- b :: x.meta.id != y.meta.id
    ensures UniqueIds(a + b, bound)
  {
    var ab := a + b;
    forall i, j | 0 <= i < j < |ab| ensures ab[i].meta.id != ab[j].meta.id {
      if i < |a| <= j { assert ab[i] in a && ab[j] in b; }
    }
  }

  /** What an open leaves in memory is coupled with what it read. */
  lemma OpenCoupled(d: Disk, s: State, rs: seq<Reader>)
    requires Stores(d, s) && UniqueIds(s.readers, s.nextId) && rs == ByLevel(s.readers, |d.levels|)
    ensures Listed(d.levels, rs) && Filed(d.files, rs) && UniqueIds(rs, NextIdOf(rs))
  {
    var n := |d.levels|;
    ByLevelMembers(s.readers, n);
    ByLevelUnique(s.readers, n, s.nextId);
    NextIdAbove(rs);
    forall l | 0 <= l < n ensures d.levels[l] == Metas(AtLevel(rs, l)) {
      ByLevelCounts(s.readers, n, l);
    }
  }
}
