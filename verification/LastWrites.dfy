/**
 What users see, in terms of their own values and clocks: the last write of a key decides what `get` returns
 (src/engine.rs:190-226, 307-336, 409-425, 672-724), whatever was flushed, compacted or replayed in between.
 */
module LastWrites {
  import opened Bytes
  import opened OrderedMaps
  import opened ValueCodec
  import opened Tables
  import opened Cascade
  import opened WalRecord
  import opened Machine
  import opened Histories
  import Snapshots

  /** What a put, a delete and a put with a TTL stand for, at clock `t`. */
  lemma InnerShows(op: Op, now: nat, t: nat)
    ensures match op
            case Put(_, v) =>
              && (UnpackInner(InnerOf(op, now), t) == Some(v) <==> !(v == [0] || (|v| >= 9 && v[0] == 1)))
              && (v == [0] ==> UnpackInner(InnerOf(op, now), t) == None)
              && (|v| >= 9 && v[0] == 1 ==>
                    UnpackInner(InnerOf(op, now), t) == if t < FromLE(v[1..9]) then Some(v[9..]) else None)
            case Delete(_) => UnpackInner(InnerOf(op, now), t) == None
            case PutTtl(_, v, ttl) =>
              now + ttl < 0x1_0000_0000_0000_0000 ==>
                UnpackInner(InnerOf(op, now), t) == if t < now + ttl then Some(v) else None
  {
    match op
    case Put(_, v) =>
      PlainValueIff(v, t);
      AliasedValue(v, t);
    case Delete(_) => AliasedValue([0], t);
    case PutTtl(_, v, ttl) =>
      if now + ttl < U64 {
        TtlRoundTrip(now + ttl, v, t);
      }
  }

  /** Refining the map of last writes is showing the last write of each key. */
  lemma RefinedShows(s: State, evs: seq<Event>, clock: nat, n: nat, t: nat)
    requires Refines(s, SpecRun(evs), clock) && clock <= t
    requires n < |evs| && forall i | n < i < |evs| :: evs[i].op.key != evs[n].op.key
    ensures Show(Get(s, evs[n].op.key), t) == UnpackInner(InnerOf(evs[n].op, evs[n].now), t)
  {
    var k := evs[n].op.key;
    assert Snapshots.LastWrite(evs, k, |evs|, n + 1);
    Snapshots.SpecLastWrite(evs, k, n + 1);
    assert Show(Get(s, k), t) == SpecGet(SpecRun(evs), k, t);
  }

  /**
   After a safe session, now and at every later clock: a put shows its value unless the value is a single zero byte or
   nine or more bytes led by a one, a delete shows nothing, a put with a TTL shows its value for that long.
   */
  lemma RunShows(evs: seq<Event>, o: Options, n: nat, t: nat)
    requires o.l0Threshold >= 1 && Timely(evs) && SafeRun(evs, o) && Clock(evs) <= t
    requires n < |evs| && forall i | n < i < |evs| :: evs[i].op.key != evs[n].op.key
    ensures var shown := Show(Get(Run(evs, o), evs[n].op.key), t);
            match evs[n].op
            case Put(_, v) =>
              && (shown == Some(v) <==> !(v == [0] || (|v| >= 9 && v[0] == 1)))
              && (v == [0] ==> shown == None)
              && (|v| >= 9 && v[0] == 1 ==> shown == if t < FromLE(v[1..9]) then Some(v[9..]) else None)
            case Delete(_) => shown == None
            case PutTtl(_, v, ttl) =>
              evs[n].now + ttl < 0x1_0000_0000_0000_0000 ==>
                shown == if t < evs[n].now + ttl then Some(v) else None
  {
    RunRefines(evs, o);
    RefinedShows(Run(evs, o), evs, Clock(evs), n, t);
    InnerShows(evs[n].op, evs[n].now, t);
  }

  /** The same over any number of sessions, crashes and reopens, for the writes that survive them. */
  lemma HistoryShows(xs: seq<Step>, o: Options, evs: seq<Event>, n: nat, t: nat)
    requires o.l0Threshold >= 1 && SafeHistory(xs, o) && ClockAfter(xs) <= t && evs == Writes(xs, o)
    requires n < |evs| && forall i | n < i < |evs| :: evs[i].op.key != evs[n].op.key
    ensures var shown := Show(Get(After(xs, o).s, evs[n].op.key), t);
            match evs[n].op
            case Put(_, v) =>
              && (shown == Some(v) <==> !(v == [0] || (|v| >= 9 && v[0] == 1)))
              && (v == [0] ==> shown == None)
              && (|v| >= 9 && v[0] == 1 ==> shown == if t < FromLE(v[1..9]) then Some(v[9..]) else None)
            case Delete(_) => shown == None
            case PutTtl(_, v, ttl) =>
              evs[n].now + ttl < 0x1_0000_0000_0000_0000 ==>
                shown == if t < evs[n].now + ttl then Some(v) else None
  {
    HistoryRefines(xs, o);
    RefinedShows(After(xs, o).s, evs, ClockAfter(xs), n, t);
    InnerShows(evs[n].op, evs[n].now, t);
  }

  /** A key that was never written shows nothing. */
  lemma UnwrittenHidden(evs: seq<Event>, o: Options, k: Key, t: nat)
    requires o.l0Threshold >= 1 && Timely(evs) && SafeRun(evs, o) && Clock(evs) <= t
    requires forall i | 0 <= i < |evs| :: evs[i].op.key != k
    ensures Show(Get(Run(evs, o), k), t) == None
  {
    RunRefines(evs, o);
    Snapshots.SpecUntouched(evs, 0, k);
    assert Show(Get(Run(evs, o), k), t) == SpecGet(SpecRun(evs), k, t);
  }

  /** A read right after a put. */
  lemma ReadYourWrite(k: Key, v: Value, now: nat, tower: nat, o: Options)
    requires o.l0Threshold >= 1 && o.maxLevels <= 2
    ensures Show(Get(Run([Event(Put(k, v), now, tower)], o), k), now) == Some(v) <==>
            !(v == [0] || (|v| >= 9 && v[0] == 1))
  {
    var evs := [Event(Put(k, v), now, tower)];
    TwoLevelRunSafe(evs, o);
    RunShows(evs, o, 0, now);
  }

  /** What is logged for each operation: its kind, its key, and its number in front of the value that is stored. */
  lemma Logged(k: Key, v: Value, ttl: nat, now: nat, q: nat)
    ensures RecordOf(Put(k, v), now, q) == Record(OpPut, k, LE(q, 8) + v)
    ensures RecordOf(Delete(k), now, q) == Record(OpDelete, k, LE(q, 8) + [0])
    ensures RecordOf(PutTtl(k, v, ttl), now, q) == Record(OpPut, k, LE(q, 8) + ([1] + LE(now + ttl, 8) + v))
  {
  }
}
