/**
 The engine as a state machine over its writes (src/engine.rs:190-226, 307-336, 507-572) and
 its refinement of a plain map of last writes.
 */
module Machine {
  import opened Bytes
  import opened OrderedMaps
  import opened ValueCodec
  import opened Tables
  import opened Compaction
  import opened Cascade
  import opened Sizes
  import opened WalRecord

  // ---------------------------------------------------------------------
  // State
  // ---------------------------------------------------------------------

  /** The engine between two operations; the immutable slot of the memtable is then empty. */
  datatype State = State(
    active: map<Key, Value>,
    size: nat,
    wal: seq<Record>,
    readers: seq<Reader>,
    nextSeq: nat,
    nextId: nat)

  datatype Op =
    | Put(key: Key, value: Value)
    | Delete(key: Key)
    | PutTtl(key: Key, value: Value, ttl: nat)

  /** One call: what is written, the clock it reads, and the tower height the skip list draws. */
  datatype Event = Event(op: Op, now: nat, tower: nat)

  const EMPTY := State(map[], LIST_SIZE, [], [], 1, 1)

  // ---------------------------------------------------------------------
  // Steps
  // ---------------------------------------------------------------------

  function InnerOf(op: Op, now: nat): Value {
    match op
    case Put(_, value) => value
    case Delete(_) => TOMBSTONE
    case PutTtl(_, value, ttl) => TtlInner(now + ttl, value)
  }

  function RecordOf(op: Op, now: nat, seqNo: nat): Record {
    Record(if op.Delete? then OpDelete else OpPut, op.key, EncodeWithSeq(InnerOf(op, now), seqNo))
  }

  /** The write reaches the log and the active list; nothing is flushed yet. */
  function Applied(s: State, e: Event): State {
    var rec := RecordOf(e.op, e.now, s.nextSeq);
    s.(active := s.active[rec.key := rec.value],
       size := if rec.key in s.active then s.size else s.size + NodeCost(rec.key, rec.value, e.tower),
       wal := s.wal + [rec],
       nextSeq := s.nextSeq + 1)
  }

  function FlushedReaders(s: State): seq<Reader>
    requires s.active != map[]
  {
    s.readers + [NewTable(s.active, s.nextId, 0)]
  }

  /** Freeze, write the SSTable, save the manifest, truncate the log, cascade. */
  function Flushed(s: State, now: nat, o: Options): State
    requires s.active != map[] && o.l0Threshold >= 1
  {
    var (rs, id) := Cascaded(FlushedReaders(s), s.nextId + 1, 0, now, o);
    s.(active := map[], size := LIST_SIZE, wal := [], readers := rs, nextId := id)
  }

  predicate Overflows(s: State, e: Event, o: Options) {
    Applied(s, e).size > o.memtableSize
  }

  function Write(s: State, e: Event, o: Options): State
    requires o.l0Threshold >= 1
  {
    var s1 := Applied(s, e);
    assert e.op.key in s1.active;
    if Overflows(s, e, o) then Flushed(s1, e.now, o) else s1
  }

  function Get(s: State, k: Key): Option<Value> {
    if k in s.active then Some(s.active[k]) else Lookup(s.readers, k)
  }

  // ---------------------------------------------------------------------
  // Invariant
  // ---------------------------------------------------------------------

  ghost predicate Inv(s: State, o: Options) {
    && o.l0Threshold >= 1
    && WF(s.readers)
    && (forall r <- s.readers :: r.meta.id < s.nextId)
    && Depth(s.readers, LastLevel(o))
    && Settled(s.readers, o, 1)
    && s.size >= LIST_SIZE
    && (s.size == LIST_SIZE <==> s.active == map[])
  }

  lemma InitInv(o: Options)
    requires o.l0Threshold >= 1
    ensures Inv(EMPTY, o)
  {
    forall l: nat ensures !Full([], o, l) {
      ThresholdPositive(o, l);
    }
  }

  lemma AppliedInv(s: State, e: Event, o: Options)
    requires Inv(s, o)
    ensures Inv(Applied(s, e), o)
  {
  }

  /** The flushed list is ready for the cascade. */
  lemma FlushedReadersInv(s: State, o: Options)
    requires Inv(s, o) && s.active != map[]
    ensures WF(FlushedReaders(s)) && CascadeInv(FlushedReaders(s), o, 0)
    ensures Depth(FlushedReaders(s), LastLevel(o))
    ensures forall r <- FlushedReaders(s) :: r.meta.id < s.nextId + 1
  {
    var r := NewTable(s.active, s.nextId, 0);
    NewTableBounded(s.active, s.nextId, 0);
    WFAppend(s.readers, r);
    forall l: nat | 1 <= l < LastLevel(o) ensures !Full(FlushedReaders(s), o, l) {
      PickLast(s.readers, r, Level(l));
      assert !Full(s.readers, o, l);
    }
  }

  lemma FlushedInv(s: State, now: nat, o: Options)
    requires Inv(s, o) && s.active != map[]
    ensures Inv(Flushed(s, now, o), o)
    ensures Settled(Flushed(s, now, o).readers, o, 0)
  {
    FlushedReadersInv(s, o);
    CascadeKeeps(FlushedReaders(s), s.nextId + 1, 0, now, o);
  }

  /** Every write keeps the invariant; ids and sequence numbers only grow. */
  lemma WriteInv(s: State, e: Event, o: Options)
    requires Inv(s, o)
    ensures Inv(Write(s, e, o), o)
    ensures Write(s, e, o).nextSeq == s.nextSeq + 1
  {
    AppliedInv(s, e, o);
    if Overflows(s, e, o) {
      FlushedInv(Applied(s, e), e.now, o);
    }
  }

  // ---------------------------------------------------------------------
  // The specification: a plain map from keys to their last inner value
  // ---------------------------------------------------------------------

  type Spec = map<Key, Value>

  function SpecWrite(m: Spec, e: Event): Spec {
    m[e.op.key := InnerOf(e.op, e.now)]
  }

  function SpecGet(m: Spec, k: Key, now: nat): Option<Value> {
    if k in m then UnpackInner(m[k], now) else None
  }

  /** At `clock` and ever after, the engine shows what the specification shows. */
  ghost predicate Refines(s: State, m: Spec, clock: nat) {
    forall k, t | clock <= t :: Show(Get(s, k), t) == SpecGet(m, k, t)
  }

  lemma AppliedRefines(s: State, m: Spec, clock: nat, e: Event)
    requires Refines(s, m, clock) && clock <= e.now
    ensures Refines(Applied(s, e), SpecWrite(m, e), e.now)
  {
    forall k, t | e.now <= t ensures Show(Get(Applied(s, e), k), t) == SpecGet(SpecWrite(m, e), k, t) {
      if k == e.op.key {
        InnerRoundTrip(InnerOf(e.op, e.now), s.nextSeq, t);
      } else {
        assert Get(Applied(s, e), k) == Get(s, k);
      }
    }
  }

  ghost predicate SafeFlush(s: State, now: nat, o: Options)
    requires s.active != map[] && o.l0Threshold >= 1
  {
    SafeCascade(FlushedReaders(s), s.nextId + 1, 0, now, o)
  }

  /** The table made of the active list answers as the active list did. */
  lemma FlushedLookup(s: State, k: Key)
    requires s.active != map[]
    ensures Lookup(FlushedReaders(s), k) == Get(s, k)
  {
    LookupLast(s.readers, NewTable(s.active, s.nextId, 0), k);
  }

  lemma FlushedShows(s: State, now: nat, o: Options, k: Key, t: nat)
    requires Inv(s, o) && s.active != map[] && SafeFlush(s, now, o) && now <= t
    ensures Show(Get(Flushed(s, now, o), k), t) == Show(Get(s, k), t)
  {
    FlushedReadersInv(s, o);
    FlushedLookup(s, k);
    SafeCascadeShows(FlushedReaders(s), s.nextId + 1, 0, now, o, k, t);
  }

  ghost predicate SafeWrite(s: State, e: Event, o: Options)
    requires o.l0Threshold >= 1
  {
    assert e.op.key in Applied(s, e).active;
    Overflows(s, e, o) ==> SafeFlush(Applied(s, e), e.now, o)
  }

  /** One write refines one update of the map, whatever flush and compactions it triggers. */
  lemma WriteRefines(s: State, m: Spec, clock: nat, e: Event, o: Options)
    requires Inv(s, o) && Refines(s, m, clock) && clock <= e.now && SafeWrite(s, e, o)
    ensures Refines(Write(s, e, o), SpecWrite(m, e), e.now)
  {
    AppliedInv(s, e, o);
    AppliedRefines(s, m, clock, e);
    var s1 := Applied(s, e);
    assert e.op.key in s1.active;
    if Overflows(s, e, o) {
      forall k, t | e.now <= t ensures Show(Get(Write(s, e, o), k), t) == SpecGet(SpecWrite(m, e), k, t) {
        FlushedShows(s1, e.now, o, k, t);
      }
    }
  }

  /** An unsafe write departs from the map at once. */
  lemma UnsafeWriteDeparts(s: State, m: Spec, clock: nat, e: Event, o: Options)
    requires Inv(s, o) && Refines(s, m, clock) && clock <= e.now && !SafeWrite(s, e, o)
    ensures !Refines(Write(s, e, o), SpecWrite(m, e), e.now)
  {
    AppliedInv(s, e, o);
    AppliedRefines(s, m, clock, e);
    var s1 := Applied(s, e);
    assert e.op.key in s1.active;
    FlushedReadersInv(s1, o);
    var k := UnsafeCascadeUncovers(FlushedReaders(s1), s1.nextId + 1, 0, e.now, o);
    FlushedLookup(s1, k);
    assert Show(Get(s1, k), e.now) == SpecGet(SpecWrite(m, e), k, e.now);
  }

  // ---------------------------------------------------------------------
  // Runs of one session, from an empty database
  // ---------------------------------------------------------------------

  /** The clock never runs backwards. */
  predicate Timely(evs: seq<Event>) {
    forall i, j | 0 <= i < j < |evs| :: evs[i].now <= evs[j].now
  }

  function Clock(evs: seq<Event>): nat {
    if evs == [] then 0 else evs[|evs| - 1].now
  }

  function Run(evs: seq<Event>, o: Options): State
    requires o.l0Threshold >= 1
  {
    if evs == [] then EMPTY else Write(Run(evs[..|evs| - 1], o), evs[|evs| - 1], o)
  }

  function SpecRun(evs: seq<Event>): Spec {
    if evs == [] then map[] else SpecWrite(SpecRun(evs[..|evs| - 1]), evs[|evs| - 1])
  }

  ghost predicate SafeRun(evs: seq<Event>, o: Options)
    requires o.l0Threshold >= 1
  {
    forall n | 0 <= n < |evs| :: SafeWrite(Run(evs[..n], o), evs[n], o)
  }

  lemma {:induction false} RunInv(evs: seq<Event>, o: Options)
    requires o.l0Threshold >= 1
    ensures Inv(Run(evs, o), o)
    ensures Run(evs, o).nextSeq == |evs| + 1
  {
    if evs == [] {
      InitInv(o);
    } else {
      RunInv(evs[..|evs| - 1], o);
      WriteInv(Run(evs[..|evs| - 1], o), evs[|evs| - 1], o);
    }
  }

  lemma SafeRunPrefix(evs: seq<Event>, o: Options)
    requires o.l0Threshold >= 1 && evs != [] && SafeRun(evs, o)
    ensures SafeRun(evs[..|evs| - 1], o)
    ensures SafeWrite(Run(evs[..|evs| - 1], o), evs[|evs| - 1], o)
  {
    var init := evs[..|evs| - 1];
    forall n | 0 <= n < |init| ensures SafeWrite(Run(init[..n], o), init[n], o) {
      assert init[..n] == evs[..n];
    }
  }

  /** Latest-write refinement over every safe run. */
  lemma {:induction false} RunRefines(evs: seq<Event>, o: Options)
    requires o.l0Threshold >= 1 && Timely(evs) && SafeRun(evs, o)
    ensures Refines(Run(evs, o), SpecRun(evs), Clock(evs))
  {
    if evs != [] {
      var init := evs[..|evs| - 1];
      SafeRunPrefix(evs, o);
      RunRefines(init, o);
      RunInv(init, o);
      assert Clock(init) <= Clock(evs);
      WriteRefines(Run(init, o), SpecRun(init), Clock(init), evs[|evs| - 1], o);
    }
  }

  /** Every state on the way agrees with the map of last writes. */
  ghost predicate RefinesThroughout(evs: seq<Event>, o: Options)
    requires o.l0Threshold >= 1
  {
    forall n | 0 <= n <= |evs| :: Refines(Run(evs[..n], o), SpecRun(evs[..n]), Clock(evs[..n]))
  }

  /** A run agrees with the map of last writes throughout exactly when all its compactions are safe. */
  lemma RunRefinesIff(evs: seq<Event>, o: Options)
    requires o.l0Threshold >= 1 && Timely(evs)
    ensures RefinesThroughout(evs, o) <==> SafeRun(evs, o)
  {
    if SafeRun(evs, o) {
      forall n | 0 <= n <= |evs| ensures Refines(Run(evs[..n], o), SpecRun(evs[..n]), Clock(evs[..n])) {
        assert SafeRun(evs[..n], o) by {
          forall i | 0 <= i < n ensures SafeWrite(Run(evs[..n][..i], o), evs[..n][i], o) {
            assert evs[..n][..i] == evs[..i];
          }
        }
        RunRefines(evs[..n], o);
      }
    }
    if RefinesThroughout(evs, o) {
      forall n | 0 <= n < |evs| ensures SafeWrite(Run(evs[..n], o), evs[n], o) {
        assert evs[..n + 1][..n] == evs[..n];
        RunInv(evs[..n], o);
        assert Refines(Run(evs[..n + 1], o), SpecRun(evs[..n + 1]), Clock(evs[..n + 1]));
        if !SafeWrite(Run(evs[..n], o), evs[n], o) {
          UnsafeWriteDeparts(Run(evs[..n], o), SpecRun(evs[..n]), Clock(evs[..n]), evs[n], o);
        }
      }
    }
  }

  /** No compaction of the run merges a table whose range meets that of a table below its destination. */
  ghost predicate ClearRun(evs: seq<Event>, o: Options)
    requires o.l0Threshold >= 1
  {
    forall n | 0 <= n < |evs| :: ClearWrite(Run(evs[..n], o), evs[n], o)
  }

  ghost predicate ClearWrite(s: State, e: Event, o: Options)
    requires o.l0Threshold >= 1
  {
    var s1 := Applied(s, e);
    assert e.op.key in s1.active;
    Overflows(s, e, o) ==> ClearCascade(FlushedReaders(s1), s1.nextId + 1, 0, e.now, o)
  }

  lemma ClearWriteSafe(s: State, e: Event, o: Options)
    requires Inv(s, o) && ClearWrite(s, e, o)
    ensures SafeWrite(s, e, o)
  {
    var s1 := Applied(s, e);
    assert e.op.key in s1.active;
    AppliedInv(s, e, o);
    if Overflows(s, e, o) {
      FlushedReadersInv(s1, o);
      ClearCascadeSafe(FlushedReaders(s1), s1.nextId + 1, 0, e.now, o);
    }
  }

  /** With any number of levels, a run whose compactions meet no deeper range agrees with the map throughout. */
  lemma ClearRunRefines(evs: seq<Event>, o: Options)
    requires o.l0Threshold >= 1 && Timely(evs) && ClearRun(evs, o)
    ensures RefinesThroughout(evs, o)
  {
    forall n | 0 <= n < |evs| ensures SafeWrite(Run(evs[..n], o), evs[n], o) {
      RunInv(evs[..n], o);
      ClearWriteSafe(Run(evs[..n], o), evs[n], o);
    }
    RunRefinesIff(evs, o);
  }

  /** With `max_levels <= 2` every run refines the map of last writes. */
  lemma TwoLevelRunRefines(evs: seq<Event>, o: Options)
    requires o.l0Threshold >= 1 && o.maxLevels <= 2 && Timely(evs)
    ensures RefinesThroughout(evs, o)
  {
    TwoLevelRunSafe(evs, o);
    RunRefinesIff(evs, o);
  }

  lemma TwoLevelRunSafe(evs: seq<Event>, o: Options)
    requires o.l0Threshold >= 1 && o.maxLevels <= 2
    ensures SafeRun(evs, o)
  {
    forall n | 0 <= n < |evs| ensures SafeWrite(Run(evs[..n], o), evs[n], o) {
      RunInv(evs[..n], o);
      TwoLevelWriteSafe(Run(evs[..n], o), evs[n], o);
    }
  }

  lemma TwoLevelWriteSafe(s: State, e: Event, o: Options)
    requires Inv(s, o) && o.maxLevels <= 2
    ensures SafeWrite(s, e, o)
  {
    AppliedInv(s, e, o);
    assert e.op.key in Applied(s, e).active;
    FlushedReadersInv(Applied(s, e), o);
    TwoLevelsSafe(FlushedReaders(Applied(s, e)), s.nextId + 1, 0, e.now, o);
  }

  // ---------------------------------------------------------------------
  // Level sizes
  // ---------------------------------------------------------------------

  lemma WriteSettled(s: State, e: Event, o: Options)
    requires Inv(s, o) && Settled(s.readers, o, 0)
    ensures Settled(Write(s, e, o).readers, o, 0)
  {
    AppliedInv(s, e, o);
    assert e.op.key in Applied(s, e).active;
    if Overflows(s, e, o) {
      FlushedInv(Applied(s, e), e.now, o);
    }
  }

  lemma {:induction false} RunSettled(evs: seq<Event>, o: Options)
    requires o.l0Threshold >= 1
    ensures Settled(Run(evs, o).readers, o, 0)
  {
    if evs == [] {
      forall l: nat ensures !Full([], o, l) {
        ThresholdPositive(o, l);
      }
    } else {
      RunSettled(evs[..|evs| - 1], o);
      RunInv(evs[..|evs| - 1], o);
      WriteSettled(Run(evs[..|evs| - 1], o), evs[|evs| - 1], o);
    }
  }

  /**
   In every reachable state of a session each level but the last has fewer than `l0_compaction_threshold * 10^level`
   tables, and no table lies deeper than the last level.
   */
  lemma RunLevels(evs: seq<Event>, o: Options)
    requires o.l0Threshold >= 1
    ensures forall l: nat | l + 1 < o.maxLevels :: |AtLevel(Run(evs, o).readers, l)| < o.l0Threshold * Pow10(l)
    ensures forall r <- Run(evs, o).readers :: r.meta.level == 0 || r.meta.level < o.maxLevels
  {
    RunSettled(evs, o);
    RunInv(evs, o);
    forall l: nat | l + 1 < o.maxLevels ensures |AtLevel(Run(evs, o).readers, l)| < o.l0Threshold * Pow10(l) {
      assert !Full(Run(evs, o).readers, o, l);
    }
  }

  // ---------------------------------------------------------------------
  // The memtable's accounting
  // ---------------------------------------------------------------------

  /** The user's bytes in a write of a key: one byte for a tombstone, nine more for a TTL. */
  function UserBytes(op: Op): nat {
    |op.key| + match op case Put(_, v) => |v| case Delete(_) => 1 case PutTtl(_, v, _) => 9 + |v|
  }

  function AllBytes(evs: seq<Event>): nat {
    if evs == [] then 0 else AllBytes(evs[..|evs| - 1]) + UserBytes(evs[|evs| - 1].op)
  }

  ghost predicate Unflushed(evs: seq<Event>, o: Options)
    requires o.l0Threshold >= 1
  {
    forall n | 0 <= n < |evs| :: !Overflows(Run(evs[..n], o), evs[n], o)
  }

  /** A fresh key is counted with its bytes, its number, its node and its tower. */
  lemma FreshGrows(s: State, e: Event)
    requires e.op.key !in s.active
    ensures Applied(s, e).size == s.size + UserBytes(e.op) + 8 + 8 * (e.tower + 1) + 72 + 2 * 24 && EMPTY.size == 24
  {
  }

  lemma {:induction false} NotWritten(evs: seq<Event>, k: Key, o: Options)
    requires o.l0Threshold >= 1 && forall i | 0 <= i < |evs| :: evs[i].op.key != k
    ensures k !in Run(evs, o).active
  {
    if evs != [] {
      NotWritten(evs[..|evs| - 1], k, o);
    }
  }

  lemma UnflushedInit(evs: seq<Event>, o: Options)
    requires o.l0Threshold >= 1 && evs != [] && Unflushed(evs, o)
    ensures var init := evs[..|evs| - 1];
            Unflushed(init, o) && !Overflows(Run(init, o), evs[|evs| - 1], o)
  {
    var init := evs[..|evs| - 1];
    forall n | 0 <= n < |init| ensures !Overflows(Run(init[..n], o), init[n], o) {
      assert init[..n] == evs[..n];
    }
  }

  /** An unflushed memtable of distinct keys has counted all of the user's bytes, so they are within its limit. */
  lemma {:induction false} UnflushedBytes(evs: seq<Event>, o: Options)
    requires o.l0Threshold >= 1 && Unflushed(evs, o)
    requires forall i, j | 0 <= i < j < |evs| :: evs[i].op.key != evs[j].op.key
    ensures AllBytes(evs) + LIST_SIZE <= Run(evs, o).size
    ensures evs != [] ==> AllBytes(evs) <= o.memtableSize
  {
    if evs != [] {
      var init, e := evs[..|evs| - 1], evs[|evs| - 1];
      UnflushedInit(evs, o);
      NotWritten(init, e.op.key, o);
      UnflushedBytes(init, o);
      FreshGrows(Run(init, o), e);
    }
  }

  /** Overwriting is not counted: a value of any size can replace a small one without a flush. */
  lemma OverwritesUncounted(k: Key, a: Value, b: Value, o: Options)
    requires o.l0Threshold >= 1 && o.memtableSize >= LIST_SIZE + NodeCost(k, EncodeWithSeq(a, 1), 0)
    ensures var evs := [Event(Put(k, a), 0, 0), Event(Put(k, b), 0, 0)];
            Run(evs, o).active == map[k := EncodeWithSeq(b, 2)] && Run(evs, o).size == Run(evs[..1], o).size
  {
    var e1, e2 := Event(Put(k, a), 0, 0), Event(Put(k, b), 0, 0);
    assert [e1, e2][..1] == [e1] && [e1][..0] == [];
    assert Run([e1], o) == Applied(EMPTY, e1);
  }
}
