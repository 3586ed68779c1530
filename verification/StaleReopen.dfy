/**
 Reopening rebuilds the reader list shallow level first (src/engine.rs:149-164), so that older,
 deeper versions end up at the newest end: a database that shows an overwritten value again
 after a restart.
 */
module StaleReopen {
  import opened Bytes
  import opened OrderedMaps
  import opened ValueCodec
  import opened Tables
  import opened Compaction
  import opened Cascade
  import opened WalRecord
  import opened Sizes
  import opened Machine
  import opened Recovery
  import opened Sessions
  import opened Histories

  /** Every write is flushed, and two level-0 tables are compacted into level 1. */
  predicate Pairwise(o: Options) {
    o.memtableSize == 0 && o.l0Threshold == 2 && o.maxLevels == 2
  }

  function Enc(v: Value, seqNo: nat): Value {
    EncodeWithSeq(v, seqNo)
  }

  lemma PairThreshold(o: Options)
    requires Pairwise(o)
    ensures Threshold(o, 0) == 2 && LastLevel(o) == 1
  {
    assert Pow10(0) == 1;
  }

  /** A write of `k` to an engine with an empty active list. */
  lemma WriteKey(s: State, k: Key, v: Value, o: Options)
    requires Pairwise(o) && s.active == map[]
    ensures var e := Event(Put(k, v), 0, 0);
            Applied(s, e).active == map[k := Enc(v, s.nextSeq)] &&
            FlushedReaders(Applied(s, e)) == s.readers + [OneKey(k, Enc(v, s.nextSeq), s.nextId, 0)] &&
            Overflows(s, e, o)
  {
    NewOneKey(k, Enc(v, s.nextSeq), s.nextId, 0);
  }

  lemma QuietCascade(rs: seq<Reader>, id: nat, o: Options)
    requires Pairwise(o) && |AtLevel(rs, 0)| < 2
    ensures Cascaded(rs, id, 0, 0, o) == (rs, id)
  {
    PairThreshold(o);
    assert Cascaded(rs, id, 1, 0, o) == (rs, id);
  }

  /** Fewer than two tables in level 0: the flush ends the write. */
  lemma WriteQuietly(s: State, k: Key, v: Value, o: Options)
    requires Pairwise(o) && s.active == map[] && AtLevel(s.readers, 0) == []
    ensures var s' := Write(s, Event(Put(k, v), 0, 0), o);
            s'.active == map[] && s'.wal == [] && s'.nextSeq == s.nextSeq + 1 && s'.nextId == s.nextId + 1 &&
            s'.readers == s.readers + [OneKey(k, Enc(v, s.nextSeq), s.nextId, 0)]
  {
    WriteKey(s, k, v, o);
    PickLast(s.readers, OneKey(k, Enc(v, s.nextSeq), s.nextId, 0), Level(0));
    QuietCascade(s.readers + [OneKey(k, Enc(v, s.nextSeq), s.nextId, 0)], s.nextId + 1, o);
  }

  /** Two tables with the same single key merge into one holding the newer version. */
  lemma CompactPair(k: Key, a: Value, b: Value, i: nat, j: nat, id: nat)
    requires Live(b, 0)
    ensures var rs := [OneKey(k, a, i, 0), OneKey(k, b, j, 0)];
            && AtLevel(rs, 0) == rs && Compact(rs, 0, 0, id) == [OneKey(k, b, id, 1)]
            && StepId(rs, 0, 0, id) == id + 1
  {
    var x, y := OneKey(k, a, i, 0), OneKey(k, b, j, 0);
    var rs := [x, y];
    PairLevel(x, y);
    PairHull(rs, k);
    PairPicks(x, y, k);
    var m := map[k := b];
    assert Merged(rs, 0) == m by {
      assert [] + rs == rs;
      PairOverlay(x, y, k);
    }
    assert LivePart(m, 0) == m;
    assert k in m;
    NewOneKey(k, b, id, 1);
  }

  lemma PairLevel(x: Reader, y: Reader)
    requires x.meta.level == y.meta.level == 0
    ensures AtLevel([x, y], 0) == [x, y]
  {
    PickOne(x, Level(0));
    PickLast([x], y, Level(0));
    assert [x] + [y] == [x, y];
  }

  lemma PairHull(rs: seq<Reader>, k: Key)
    requires |rs| == 2 && AtLevel(rs, 0) == rs
    requires forall r <- rs :: r.meta.minKey == r.meta.maxKey == k
    ensures Lo(rs, 0) == k && Hi(rs, 0) == k
  {
    assert rs[0] in rs;
    assert MinKeys(rs) == {k} && MaxKeys(rs) == {k};
  }

  lemma PairPicks(x: Reader, y: Reader, k: Key)
    requires x.meta.level == y.meta.level == 0
    ensures Pick([x, y], Range(1, k, k)) == [] && Pick([x, y], Surviving(0, k, k)) == []
  {
    PickOne(x, Range(1, k, k));
    PickOne(x, Surviving(0, k, k));
    assert [x] + [y] == [x, y];
    PickLast([x], y, Range(1, k, k));
    PickLast([x], y, Surviving(0, k, k));
  }

  lemma PairOverlay(x: Reader, y: Reader, k: Key)
    requires x.data.Keys == y.data.Keys == {k}
    ensures Overlay([x, y]) == y.data
  {
    assert [x, y][..1] == [x] && [x][..0] == [];
    assert Overlay([x]) == map[] + x.data == x.data;
  }

  /** The second write of a pair leaves one table, in level 1. */
  lemma WritePair(s: State, k: Key, a: Value, b: Value, i: nat, o: Options)
    requires Pairwise(o) && s.active == map[] && s.readers == [OneKey(k, a, i, 0)] && !Aliased(b)
    ensures var s' := Write(s, Event(Put(k, b), 0, 0), o);
            s'.active == map[] && s'.nextSeq == s.nextSeq + 1 && s'.nextId == s.nextId + 2 &&
            s'.readers == [OneKey(k, Enc(b, s.nextSeq), s.nextId + 1, 1)]
  {
    var v := Enc(b, s.nextSeq);
    WriteKey(s, k, b, o);
    InnerRoundTrip(b, s.nextSeq, 0);
    PlainValueIff(b, 0);
    PairCascade(k, a, v, i, s.nextId, s.nextId + 1, o);
    assert [OneKey(k, a, i, 0)] + [OneKey(k, v, s.nextId, 0)] == [OneKey(k, a, i, 0), OneKey(k, v, s.nextId, 0)];
  }

  /** The cascade over a pair of level-0 tables is their one compaction. */
  lemma PairCascade(k: Key, a: Value, b: Value, i: nat, j: nat, id: nat, o: Options)
    requires Pairwise(o) && Live(b, 0)
    ensures Cascaded([OneKey(k, a, i, 0), OneKey(k, b, j, 0)], id, 0, 0, o) == ([OneKey(k, b, id, 1)], id + 1)
  {
    CompactPair(k, a, b, i, j, id);
    PairThreshold(o);
  }

  /** One version in level 1 and a newer one in level 0: reopening shows the old one. */
  lemma ReopenTwoLevels(s: State, k: Key, b: Value, c: Value, i: nat, j: nat, size: nat)
    requires s.readers == [OneKey(k, b, i, 1), OneKey(k, c, j, 0)] && s.wal == [] && i != j
    ensures Get(Open(DiskOf(s), size), k) == Some(b)
  {
    var x, y := OneKey(k, b, i, 1), OneKey(k, c, j, 0);
    var rs := [x, y];
    assert rs == [x] + [y];
    assert Height([x]) == 2 by { assert [x][..0] == []; }
    assert rs[..1] == [x];
    assert Height(rs) == 2;
    PickOne(x, Level(1));
    PickLast([x], y, Level(1));
    assert AtLevel(rs, 1) == [x];
    assert k in x.data && k in y.data;
    assert Compatible(x, y);
    DiskOfStores(s);
    LevelsOfAt(rs, 2);
    OpenStored(DiskOf(s), s, size);
    assert LevelLookup(rs, 1, k) == Some(b);
    DeepestAnswers(rs, k, 1, 2);
  }

  /** Three writes of one key and a restart: the second value is back, the third is lost to readers. */
  lemma OverwrittenValueReturns(k: Key, a: Value, b: Value, c: Value, o: Options) returns (xs: seq<Step>)
    requires Pairwise(o) && !Aliased(b) && !Aliased(c) && b != c
    ensures xs == Session([Event(Put(k, a), 0, 0), Event(Put(k, b), 0, 0), Event(Put(k, c), 0, 0)])
                  + [Restart(LIST_SIZE)]
    ensures SpecGet(SpecAfter(xs, o), k, 0) == Some(c)
    ensures Show(Get(After(xs, o).s, k), 0) == Some(b)
  {
    var e1, e2, e3 := Event(Put(k, a), 0, 0), Event(Put(k, b), 0, 0), Event(Put(k, c), 0, 0);
    var s := Write(Write(Write(EMPTY, e1, o), e2, o), e3, o);
    xs := Session([e1, e2, e3]) + [Restart(LIST_SIZE)];
    RestartedSession(e1, e2, e3, s, xs, LIST_SIZE, o);
    var p, q, i, j := ThreeWrites(k, a, b, c, o);
    LastOfThree(e1, e2, e3);
    PlainValueIff(c, 0);
    PlainValueIff(b, 0);
    InnerRoundTrip(b, p, 0);
    ReopenTwoLevels(s, k, Enc(b, p), Enc(c, q), i, j, LIST_SIZE);
  }

  /** The third write leaves the second value in level 1 and its own in level 0. */
  lemma ThreeWrites(k: Key, a: Value, b: Value, c: Value, o: Options) returns (p: nat, q: nat, i: nat, j: nat)
    requires Pairwise(o) && !Aliased(b)
    ensures var s := Write(Write(Write(EMPTY, Event(Put(k, a), 0, 0), o), Event(Put(k, b), 0, 0), o),
                           Event(Put(k, c), 0, 0), o);
            s.readers == [OneKey(k, Enc(b, p), i, 1), OneKey(k, Enc(c, q), j, 0)] && s.wal == [] && i != j
  {
    var s1 := Write(EMPTY, Event(Put(k, a), 0, 0), o);
    WriteQuietly(EMPTY, k, a, o);
    assert s1.readers == [OneKey(k, Enc(a, 1), 1, 0)];
    p := s1.nextSeq;
    q, i, j := TwoMoreWrites(s1, k, Enc(a, 1), b, c, 1, o);
  }

  lemma TwoMoreWrites(s: State, k: Key, a: Value, b: Value, c: Value, h: nat, o: Options)
      returns (q: nat, i: nat, j: nat)
    requires Pairwise(o) && !Aliased(b) && s.active == map[] && s.readers == [OneKey(k, a, h, 0)]
    ensures var s' := Write(Write(s, Event(Put(k, b), 0, 0), o), Event(Put(k, c), 0, 0), o);
            s'.readers == [OneKey(k, Enc(b, s.nextSeq), i, 1), OneKey(k, Enc(c, q), j, 0)] && s'.wal == [] && i != j
  {
    var s1 := Write(s, Event(Put(k, b), 0, 0), o);
    WritePair(s, k, a, b, h, o);
    WriteAbove(s1, k, Enc(b, s.nextSeq), c, s.nextId + 1, o);
    q, i, j := s1.nextSeq, s.nextId + 1, s1.nextId;
  }

  lemma WriteAbove(s: State, k: Key, b: Value, c: Value, i: nat, o: Options)
    requires Pairwise(o) && s.active == map[] && s.readers == [OneKey(k, b, i, 1)]
    ensures var s' := Write(s, Event(Put(k, c), 0, 0), o);
            s'.readers == [OneKey(k, b, i, 1), OneKey(k, Enc(c, s.nextSeq), s.nextId, 0)] && s'.wal == []
  {
    EmptyLevel(s.readers, 0);
    WriteQuietly(s, k, c, o);
  }

  lemma ThreeRuns(x: Event, y: Event, z: Event, o: Options)
    requires o.l0Threshold >= 1
    ensures Run([x, y, z], o) == Write(Write(Write(EMPTY, x, o), y, o), z, o)
  {
    assert [] + [x] == [x] && [x] + [y] == [x, y] && [x, y] + [z] == [x, y, z];
    RunLast([], x, [x], o);
    RunLast([x], y, [x, y], o);
    RunLast([x, y], z, [x, y, z], o);
  }

  lemma RestartLast(xs: seq<Step>, size: nat, all: seq<Step>, o: Options)
    requires o.l0Threshold >= 1 && all == xs + [Restart(size)]
    ensures After(all, o) == Take(After(xs, o), Restart(size), o) && Writes(all, o) == Writes(xs, o)
  {
    assert all[..|all| - 1] == xs;
  }

  lemma RestartWhole(s: State, size: nat, o: Options)
    requires o.l0Threshold >= 1
    ensures Take(Db(s, [], 0), Restart(size), o).s == Open(DiskOf(s), size)
  {
    assert [] + s.wal == s.wal && s.wal[..|s.wal|] == s.wal && DiskOf(s).(wal := s.wal) == DiskOf(s);
  }

  lemma RestartedSession(x: Event, y: Event, z: Event, s: State, xs: seq<Step>, size: nat, o: Options)
    requires o.l0Threshold >= 1 && xs == Session([x, y, z]) + [Restart(size)]
    requires s == Write(Write(Write(EMPTY, x, o), y, o), z, o)
    ensures After(xs, o).s == Open(DiskOf(s), size)
    ensures Writes(xs, o) == [x, y, z]
  {
    SessionRuns([x, y, z], o);
    RestartLast(Session([x, y, z]), size, xs, o);
    ThreeRuns(x, y, z, o);
    RestartWhole(s, size, o);
  }

  lemma LastOfThree(x: Event, y: Event, z: Event)
    ensures z.op.key in SpecRun([x, y, z]) && SpecRun([x, y, z])[z.op.key] == InnerOf(z.op, z.now)
  {
    assert [x, y, z][..2] == [x, y];
  }
}
