/**
 The memtable (src/memtable/memtable.rs): an active skip list and, while a flush is due, a frozen
 one.
 */
module MemTables {
  import opened Bytes
  import opened OrderedMaps
  import opened Ranks
  import opened Sizes
  import opened SkipLists

  const MAX_LEVEL: nat := 16

  /** Inserting listed entries one by one into a `BTreeMap`. */
  method InsertAll(into: map<Key, Value>, es: seq<Entry>) returns (m: map<Key, Value>)
    ensures m == into + ToMap(es)
  {
    m := into;
    for i := 0 to |es|
      invariant m == into + ToMap(es[..i])
    {
      assert es[..i + 1][..i] == es[..i];
      m := m[es[i].0 := es[i].1];
    }
    assert es[..|es|] == es;
  }

  /** Inserting what a scan of the list yields. */
  method InsertRange(into: map<Key, Value>, list: SkipList, start: Key, end: Key) returns (m: map<Key, Value>)
    requires list.Valid()
    ensures m == into + RangePart(list.Map(), start, end)
  {
    var es := list.CollectScan(start, end);
    RangeOfMap(list.entries, start, end);
    m := InsertAll(into, es);
  }

  /** The memtable's versions in a range. */
  function InRange(frozen: Option<map<Key, Value>>, active: map<Key, Value>, lo: Key, hi: Key): map<Key, Value> {
    (if frozen.Some? then map[] + RangePart(frozen.value, lo, hi) else map[]) + RangePart(active, lo, hi)
  }

  class MemTable {
    var active: SkipList
    var immutable: SkipList?
    const maxSize: nat

    /** The nodes of a list, if there is one. */
    static ghost function Nodes(list: SkipList?): seq<Node>
      reads list
    {
      if list == null then [] else list.spine
    }

    ghost predicate Valid()
      reads this, active, active.spine, immutable, Nodes(immutable)
    {
      && active.Valid() && active.maxLevel == MAX_LEVEL
      && (immutable != null ==>
            && immutable.Valid() && immutable.entries != [] && immutable != active
            && forall n <- active.spine :: n !in immutable.spine)
    }

    /** The contents of the active list. */
    ghost function Active(): map<Key, Value>
      reads this, active
    {
      active.Map()
    }

    /** The contents of the frozen list, if there is one. */
    ghost function Frozen(): Option<map<Key, Value>>
      reads this, active, immutable
    {
      if immutable == null then None else Some(immutable.Map())
    }

    constructor (maxSize: nat)
      ensures Valid() && fresh(active) && fresh(active.spine) && this.maxSize == maxSize
      ensures Active() == map[] && Frozen() == None && active.size == LIST_SIZE
    {
      this.maxSize := maxSize;
      active := new SkipList(MAX_LEVEL);
      immutable := null;
    }

    /** Write without freezing, as log replay does. */
    method PutNoFreeze(key: Key, value: Value) returns (tower: nat)
      requires Valid()
      modifies active, active.spine
      ensures Valid() && tower < MAX_LEVEL
      ensures Active() == old(Active())[key := value] && Frozen() == old(Frozen())
      ensures active.size == old(active.size) + if key in old(Active()) then 0 else NodeCost(key, value, tower)
      ensures forall n <- active.spine :: n in old(active.spine) || fresh(n)
    {
      ghost var frozen, touched := Nodes(immutable), active.spine;
      assert forall n <- frozen :: n !in touched;
      assert forall p | 0 <= p < |frozen| :: frozen[p] in frozen;
      tower := active.Insert(key, value);
      assert forall p | 0 <= p < |frozen| :: unchanged(frozen[p]);
    }

    /** Freeze the active list, unless it is empty or another one is still waiting. */
    method Freeze() returns (done: bool)
      requires Valid()
      modifies this
      ensures Valid()
      ensures done <==> old(Frozen()).None? && old(Active()) != map[]
      ensures done ==> Frozen() == Some(old(Active())) && Active() == map[] && active.size == LIST_SIZE
      ensures !done ==> immutable == old(immutable) && active == old(active)
      ensures done ==> fresh(active) && forall n <- active.spine :: fresh(n)
    {
      NonemptyMap(active.entries);
      if immutable != null {
        return false;
      }
      var oldActive := active;
      active := new SkipList(MAX_LEVEL);
      if oldActive.size <= LIST_SIZE {
        active := oldActive;
        return false;
      }
      immutable := oldActive;
      done := true;
    }

    /** Write, and freeze the list when it has grown beyond the limit. */
    method Put(key: Key, value: Value) returns (tower: nat)
      requires Valid()
      modifies this, active, active.spine
      ensures Valid() && tower < MAX_LEVEL
      ensures var a := old(Active())[key := value];
              var n := old(active.size) + if key in old(Active()) then 0 else NodeCost(key, value, tower);
              if n > maxSize && old(Frozen()).None?
              then Frozen() == Some(a) && Active() == map[] && active.size == LIST_SIZE
              else Frozen() == old(Frozen()) && Active() == a && active.size == n
      ensures active == old(active) || fresh(active)
      ensures forall n <- active.spine :: n in old(active.spine) || fresh(n)
    {
      tower := PutNoFreeze(key, value);
      assert key in Active();
      if active.size > maxSize {
        var done := Freeze();
      }
    }

    /** The active list is searched first, then the frozen one. */
    method Get(key: Key) returns (r: Option<Value>)
      requires Valid()
      ensures r == if key in Active() then Some(Active()[key])
                   else if Frozen().Some? && key in Frozen().value then Some(Frozen().value[key]) else None
    {
      r := active.Get(key);
      if r.None? && immutable != null {
        r := immutable.Get(key);
      }
    }

    /** Both lists in the range, the active one winning. */
    method Scan(start: Key, end: Key) returns (es: seq<Entry>)
      requires Valid()
      ensures es == SortedEntries(InRange(Frozen(), Active(), start, end))
    {
      var m := ScanMap(start, end);
      es := SortedEntries(m);
    }

    method ScanMap(start: Key, end: Key) returns (m: map<Key, Value>)
      requires Valid()
      ensures m == InRange(Frozen(), Active(), start, end)
    {
      m := map[];
      if immutable != null {
        m := InsertRange(m, immutable, start, end);
      }
      m := InsertRange(m, active, start, end);
    }

    /** Hand the frozen list over to the flush. */
    method TakeImmutable() returns (list: SkipList?)
      requires Valid()
      modifies this
      ensures Valid() && immutable == null && list == old(immutable) && active == old(active)
      ensures Active() == old(Active())
    {
      list := immutable;
      immutable := null;
    }
  }

  lemma NonemptyMap(es: seq<Entry>)
    ensures ToMap(es) == map[] <==> es == []
  {
    if es != [] {
      assert es[|es| - 1].0 in ToMap(es);
    }
  }
}
