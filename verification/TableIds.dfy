/**
 Table ids over a session (src/engine.rs:518-519, 622-623): an id is never given to two tables, so blocks that a
 cache still holds from a removed table cannot be taken for those of a newer one.
 */
module TableIds {
  import opened Bytes
  import opened Tables
  import opened Compaction
  import opened Cascade
  import opened Machine
  import opened Caches
  import opened TableFormat
  import TableReaders

  /** Tables that are new carry ids handed out in between. */
  ghost predicate Extends(rs: seq<Reader>, id: nat, later: seq<Reader>, next: nat) {
    id <= next && forall r <- later :: r in rs || id <= r.meta.id < next
  }

  lemma ExtendsOn(a: seq<Reader>, i: nat, b: seq<Reader>, j: nat, c: seq<Reader>, k: nat)
    requires Extends(a, i, b, j) && Extends(b, j, c, k)
    ensures Extends(a, i, c, k)
  {
  }

  lemma CompactExtends(rs: seq<Reader>, src: nat, now: nat, id: nat)
    requires AtLevel(rs, src) != []
    ensures Extends(rs, id, Compact(rs, src, now, id), StepId(rs, src, now, id))
  {
    PickMembers(rs, Surviving(src, Lo(rs, src), Hi(rs, src)));
  }

  lemma {:induction false} CascadeExtends(rs: seq<Reader>, id: nat, level: nat, now: nat, o: Options)
    requires o.l0Threshold >= 1
    ensures Extends(rs, id, Cascaded(rs, id, level, now, o).0, Cascaded(rs, id, level, now, o).1)
    decreases LastLevel(o) - level
  {
    if level >= LastLevel(o) {
    } else if !Full(rs, o, level) {
      CascadeExtends(rs, id, level + 1, now, o);
    } else {
      FullNonempty(rs, o, level);
      var next, id' := Compact(rs, level, now, id), StepId(rs, level, now, id);
      CompactExtends(rs, level, now, id);
      CascadeExtends(next, id', level + 1, now, o);
      var end := Cascaded(next, id', level + 1, now, o);
      ExtendsOn(rs, id, next, id', end.0, end.1);
    }
  }

  lemma FlushExtends(s: State, now: nat, o: Options)
    requires s.active != map[] && o.l0Threshold >= 1
    ensures Extends(s.readers, s.nextId, Flushed(s, now, o).readers, Flushed(s, now, o).nextId)
  {
    var rs := FlushedReaders(s);
    assert Extends(s.readers, s.nextId, rs, s.nextId + 1);
    CascadeExtends(rs, s.nextId + 1, 0, now, o);
    var end := Cascaded(rs, s.nextId + 1, 0, now, o);
    ExtendsOn(s.readers, s.nextId, rs, s.nextId + 1, end.0, end.1);
  }

  lemma WriteExtends(s: State, e: Event, o: Options)
    requires o.l0Threshold >= 1
    ensures Extends(s.readers, s.nextId, Write(s, e, o).readers, Write(s, e, o).nextId)
  {
    assert e.op.key in Applied(s, e).active;
    if Overflows(s, e, o) {
      FlushExtends(Applied(s, e), e.now, o);
    }
  }

  lemma {:induction false} RunExtends(evs: seq<Event>, n: nat, o: Options)
    requires o.l0Threshold >= 1 && n <= |evs|
    ensures var s, t := Run(evs[..n], o), Run(evs, o); Extends(s.readers, s.nextId, t.readers, t.nextId)
  {
    if n == |evs| {
      assert evs[..n] == evs;
    } else {
      var init := evs[..|evs| - 1];
      RunExtends(init, n, o);
      assert init[..n] == evs[..n];
      RunStepExtends(evs[..n], init, evs, o);
    }
  }

  lemma RunStepExtends(first: seq<Event>, init: seq<Event>, evs: seq<Event>, o: Options)
    requires o.l0Threshold >= 1 && evs != [] && init == evs[..|evs| - 1]
    requires var s, t := Run(first, o), Run(init, o); Extends(s.readers, s.nextId, t.readers, t.nextId)
    ensures var s, t := Run(first, o), Run(evs, o); Extends(s.readers, s.nextId, t.readers, t.nextId)
  {
    var s, t, e := Run(first, o), Run(init, o), evs[|evs| - 1];
    WriteExtends(t, e, o);
    ExtendsOn(s.readers, s.nextId, t.readers, t.nextId, Write(t, e, o).readers, Write(t, e, o).nextId);
  }

  lemma IdsDiffer(rs: seq<Reader>)
    requires WF(rs)
    ensures forall i, j | 0 <= i < j < |rs| :: rs[i].meta.id != rs[j].meta.id
  {
    forall i, j | 0 <= i < j < |rs| ensures rs[i].meta.id != rs[j].meta.id {
      assert Compatible(rs[i], rs[j]);
    }
  }

  lemma IdsApart(rs: seq<Reader>, a: Reader, b: Reader)
    requires WF(rs) && a in rs && b in rs && a.meta.id == b.meta.id
    ensures a == b
  {
    IdsDiffer(rs);
    var i :| 0 <= i < |rs| && rs[i] == a;
    var j :| 0 <= j < |rs| && rs[j] == b;
  }

  /** In one session, two tables with the same id are the same table, however much lies between them. */
  lemma SameIdSameTable(evs: seq<Event>, n: nat, o: Options, a: Reader, b: Reader)
    requires o.l0Threshold >= 1 && n <= |evs|
    requires a in Run(evs[..n], o).readers && b in Run(evs, o).readers && a.meta.id == b.meta.id
    ensures a == b
  {
    RunInv(evs[..n], o);
    RunExtends(evs, n, o);
    IdsApart(Run(evs[..n], o).readers, a, b);
  }

  /** Every cached block is of a table numbered below `bound`. */
  ghost predicate CachedBelow(m: Slots, bound: nat) {
    forall k <- m :: k.sstId < bound
  }

  /** Reading through the cache never stores blocks of tables that do not exist yet. */
  lemma LoadsStayBelow(m: Slots, n: Slots, r: Reader, t: Table, s: State, o: Options)
    requires Inv(s, o) && r in s.readers && CachedBelow(m, s.nextId)
    requires TableReaders.OnlyLoads(m, n, r.meta.id, t)
    ensures CachedBelow(n, s.nextId)
  {
  }

  /**
   A table made by a write finds no block under its id in the cache, so the cache is coherent for it from the
   start.
   */
  lemma NewTableCoherent(s: State, e: Event, o: Options, m: Slots, r: Reader, t: Table)
    requires Inv(s, o) && CachedBelow(m, s.nextId)
    requires r in Write(s, e, o).readers && r !in s.readers
    ensures TableReaders.Coherent(m, r.meta.id, t) && CachedBelow(m, Write(s, e, o).nextId)
  {
    WriteExtends(s, e, o);
  }
}
