/**
 The skip list (src/memtable/skiplist.rs): towers of `next` pointers on the heap, a top-down
 search along the lanes, and an in-place splice.
 */
module SkipLists {
  import opened Bytes
  import opened OrderedMaps
  import opened Towers
  import opened Ranks
  import opened Sizes

  class Node {
    const key: Key
    var value: Value
    var next: seq<Node?>

    constructor (key: Key, value: Value, level: nat)
      ensures this.key == key && this.value == value
      ensures next == seq(level + 1, _ => null)
    {
      this.key := key;
      this.value := value;
      next := seq(level + 1, _ => null);
    }
  }

  // ---------------------------------------------------------------------
  // Lanes as data
  // ---------------------------------------------------------------------

  ghost function NodeAt(spine: seq<Node>, q: nat): Node? {
    if q < |spine| then spine[q] else null
  }

  /** Where pointer `i` of the node at `p` must lead: the next tower that reaches lane `i`. */
  ghost function LinkAt(spine: seq<Node>, hs: seq<nat>, p: nat, i: nat): Node?
    requires p < |hs|
  {
    NodeAt(spine, NextIdx(hs, p, i))
  }

  /** Every pointer leads to the next tower that reaches its lane. */
  ghost predicate Linked(spine: seq<Node>, hs: seq<nat>, nexts: seq<seq<Node?>>) {
    && |spine| == |hs| == |nexts|
    && (forall p | 0 <= p < |spine| :: |nexts[p]| == hs[p])
    && (forall p, i | 0 <= p < |spine| && 0 <= i < hs[p] :: nexts[p][i] == LinkAt(spine, hs, p, i))
  }

  /** No node occurs twice: no lane shares or loops. */
  ghost predicate Distinct(spine: seq<Node>) {
    forall p, q | 0 <= p < q < |spine| :: spine[p] != spine[q]
  }

  ghost predicate Tall(hs: seq<nat>, maxLevel: nat) {
    |hs| >= 1 && hs[0] == maxLevel && forall p | 0 <= p < |hs| :: 1 <= hs[p] <= maxLevel
  }

  /** In lane `i`, position `u` is where the search for the key of rank `r` leaves the lane. */
  ghost predicate OnPath(hs: seq<nat>, r: nat, u: nat, i: nat) {
    u < |hs| && i < hs[u] && u <= r < NextIdx(hs, u, i)
  }

  lemma PathUnique(hs: seq<nat>, r: nat, u: nat, v: nat, i: nat)
    requires OnPath(hs, r, u, i) && OnPath(hs, r, v, i)
    ensures u == v
  {
  }

  /** `after` is the pointer table once `node` has been linked behind `us` in the first `n` lanes. */
  ghost predicate IsSpliced(before: seq<seq<Node?>>, after: seq<seq<Node?>>, us: seq<nat>, node: Node, n: nat)
    requires n <= |us|
  {
    && |after| == |before|
    && (forall p | 0 <= p < |before| :: |after[p]| == |before[p]|)
    && (forall p, i | 0 <= p < |before| && 0 <= i < |before[p]| ::
          after[p][i] == if i < n && us[i] == p then node else before[p][i])
  }

  lemma SplicedAt(before: seq<seq<Node?>>, after: seq<seq<Node?>>, us: seq<nat>, node: Node, n: nat, p: nat, i: nat)
    requires n <= |us| && p < |before| && i < |before[p]| && IsSpliced(before, after, us, node, n)
    ensures |after| == |before| && |after[p]| == |before[p]|
    ensures after[p][i] == if i < n && us[i] == p then node else before[p][i]
  {
  }

  lemma SplicedStep(before: seq<seq<Node?>>, after: seq<seq<Node?>>, us: seq<nat>, node: Node, n: nat)
    requires n < |us| && us[n] < |before| && n < |before[us[n]]|
    requires IsSpliced(before, after, us, node, n)
    ensures IsSpliced(before, after[us[n] := after[us[n]][n := node]], us, node, n + 1)
  {
  }

  /** The pointers of the new node: what its predecessors pointed to. */
  ghost predicate IsInherited(next: seq<Node?>, before: seq<seq<Node?>>, us: seq<nat>, n: nat) {
    && n <= |next| && n <= |us|
    && forall j | 0 <= j < n :: us[j] < |before| && j < |before[us[j]]| && next[j] == before[us[j]][j]
  }

  lemma NodeAtInserted(spine: seq<Node>, pos: nat, node: Node, q: nat)
    requires pos <= |spine|
    ensures q < pos ==> NodeAt(Inserted<Node>(spine, pos, node), q) == NodeAt(spine, q)
    ensures q >= pos ==> NodeAt(Inserted<Node>(spine, pos, node), q + 1) == NodeAt(spine, q)
    ensures NodeAt(Inserted<Node>(spine, pos, node), pos) == node
  {
  }

  /** Where lane pointers of the old nodes lead after a tower of height `h` came in at rank `r`. */
  lemma OldLink(spine: seq<Node>, hs: seq<nat>, r: nat, node: Node, h: nat, u: nat, p: nat, i: nat)
    requires |spine| == |hs| && r < |hs| && p < |hs| && i < hs[p]
    requires i < h ==> OnPath(hs, r, u, i)
    ensures NodeAt(Inserted<Node>(spine, r + 1, node),
                   NextIdx(Inserted<nat>(hs, r + 1, h), if p <= r then p else p + 1, i)) ==
            if i < h && u == p then node else NodeAt(spine, NextIdx(hs, p, i))
  {
    NextInserted(hs, r + 1, h, p, i);
    NodeAtInserted(spine, r + 1, node, NextIdx(hs, p, i));
    if i < h && OnPath(hs, r, p, i) {
      PathUnique(hs, r, p, u, i);
    }
  }

  /** The new tower leads where its predecessors led. */
  lemma NewLink(spine: seq<Node>, hs: seq<nat>, r: nat, node: Node, h: nat, u: nat, i: nat)
    requires |spine| == |hs| && r < |hs| && i < h && OnPath(hs, r, u, i)
    ensures NodeAt(Inserted<Node>(spine, r + 1, node), NextIdx(Inserted<nat>(hs, r + 1, h), r + 1, i)) ==
            NodeAt(spine, NextIdx(hs, u, i))
  {
    NextOfInserted(hs, r + 1, h, u, i);
    NodeAtInserted(spine, r + 1, node, NextIdx(hs, u, i));
  }

  ghost predicate Path(hs: seq<nat>, r: nat, us: seq<nat>, h: nat) {
    h <= |us| && forall j | 0 <= j < h :: OnPath(hs, r, us[j], j)
  }

  lemma PathPrefix(hs: seq<nat>, r: nat, us: seq<nat>, n: nat, m: nat)
    requires Path(hs, r, us, n) && m <= n
    ensures Path(hs, r, us, m)
  {
  }

  lemma PathPointers(spine: seq<Node>, hs: seq<nat>, nexts: seq<seq<Node?>>, r: nat, us: seq<nat>, h: nat)
    requires Linked(spine, hs, nexts) && Path(hs, r, us, h)
    ensures forall j | 0 <= j < h :: us[j] < |spine| && j < |nexts[us[j]]|
  {
    forall j | 0 <= j < h ensures us[j] < |spine| && j < |nexts[us[j]]| {
      assert OnPath(hs, r, us[j], j);
      assert |nexts[us[j]]| == hs[us[j]];
    }
  }

  /** An old node's pointers after the splice. */
  lemma OldLinked(spine: seq<Node>, hs: seq<nat>, nexts: seq<seq<Node?>>, after: seq<seq<Node?>>, r: nat, node: Node,
                  h: nat, us: seq<nat>, p: nat, i: nat)
    requires Linked(spine, hs, nexts) && r < |hs| && Path(hs, r, us, h) && IsSpliced(nexts, after, us, node, h)
    requires p < |spine| && i < hs[p]
    ensures after[p][i] ==
            NodeAt(Inserted<Node>(spine, r + 1, node),
                   NextIdx(Inserted<nat>(hs, r + 1, h), if p <= r then p else p + 1, i))
  {
    var u := if i < h then us[i] else 0;
    assert i < h ==> OnPath(hs, r, u, i);
    OldLink(spine, hs, r, node, h, u, p, i);
    assert |nexts[p]| == hs[p];
    assert nexts[p][i] == LinkAt(spine, hs, p, i);
    SplicedAt(nexts, after, us, node, h, p, i);
  }

  /** The new node's pointers after the splice. */
  lemma NewLinked(spine: seq<Node>, hs: seq<nat>, nexts: seq<seq<Node?>>, next: seq<Node?>, r: nat, node: Node, h: nat,
                  us: seq<nat>, i: nat)
    requires Linked(spine, hs, nexts) && r < |hs| && Path(hs, r, us, h) && IsInherited(next, nexts, us, h)
    requires i < h
    ensures next[i] == NodeAt(Inserted<Node>(spine, r + 1, node), NextIdx(Inserted<nat>(hs, r + 1, h), r + 1, i))
  {
    assert OnPath(hs, r, us[i], i);
    NewLink(spine, hs, r, node, h, us[i], i);
    assert nexts[us[i]][i] == LinkAt(spine, hs, us[i], i);
  }

  /** Splicing a tower at rank `r` keeps every lane linked. */
  lemma LinkedInserted(spine: seq<Node>, hs: seq<nat>, nexts: seq<seq<Node?>>, after: seq<seq<Node?>>, next: seq<Node?>,
                       r: nat, node: Node, h: nat, us: seq<nat>)
    requires Linked(spine, hs, nexts) && r < |hs| && Path(hs, r, us, h)
    requires IsSpliced(nexts, after, us, node, h) && IsInherited(next, nexts, us, h) && |next| == h
    ensures Linked(Inserted<Node>(spine, r + 1, node), Inserted<nat>(hs, r + 1, h),
                   Inserted<seq<Node?>>(after, r + 1, next))
  {
    TablesInserted(hs, nexts, after, next, r + 1, h);
    var spine', hs' := Inserted<Node>(spine, r + 1, node), Inserted<nat>(hs, r + 1, h);
    var nexts' := Inserted<seq<Node?>>(after, r + 1, next);
    forall p, i | 0 <= p < |spine'| && 0 <= i < hs'[p] ensures nexts'[p][i] == LinkAt(spine', hs', p, i) {
      if p == r + 1 {
        NewLinked(spine, hs, nexts, next, r, node, h, us, i);
      } else {
        OldLinked(spine, hs, nexts, after, r, node, h, us, if p <= r then p else p - 1, i);
      }
    }
  }

  /** Every pointer table is as long as its tower is high. */
  lemma TablesInserted(hs: seq<nat>, nexts: seq<seq<Node?>>, after: seq<seq<Node?>>, next: seq<Node?>, pos: nat, h: nat)
    requires |hs| == |nexts| == |after| && pos <= |hs| && |next| == h
    requires forall p | 0 <= p < |hs| :: |nexts[p]| == hs[p] && |after[p]| == |nexts[p]|
    ensures var hs', nexts' := Inserted<nat>(hs, pos, h), Inserted<seq<Node?>>(after, pos, next);
            forall p | 0 <= p < |hs'| :: |nexts'[p]| == hs'[p]
  {
  }

  lemma DistinctInserted(spine: seq<Node>, pos: nat, node: Node)
    requires Distinct(spine) && pos <= |spine| && node !in spine
    ensures Distinct(Inserted<Node>(spine, pos, node))
  {
    var s := Inserted<Node>(spine, pos, node);
    forall p, q | 0 <= p < q < |s| ensures s[p] != s[q] {
      if p == pos { assert s[q] == spine[q - 1]; }
      if q == pos { assert s[p] == spine[p]; }
    }
  }

  lemma TallInserted(hs: seq<nat>, maxLevel: nat, pos: nat, h: nat)
    requires Tall(hs, maxLevel) && 1 <= pos <= |hs| && 1 <= h <= maxLevel
    ensures Tall(Inserted<nat>(hs, pos, h), maxLevel)
  {
  }

  /** The spine's nodes carry the keys of the entries. */
  ghost predicate Keyed(spine: seq<Node>, entries: seq<Entry>) {
    |spine| == |entries| + 1 && forall p | 1 <= p < |spine| :: spine[p].key == entries[p - 1].0
  }

  lemma KeyedInserted(spine: seq<Node>, entries: seq<Entry>, r: nat, node: Node, value: Value)
    requires Keyed(spine, entries) && r <= |entries|
    ensures Keyed(Inserted<Node>(spine, r + 1, node), Inserted<Entry>(entries, r, (node.key, value)))
  {
    var spine', entries' := Inserted<Node>(spine, r + 1, node), Inserted<Entry>(entries, r, (node.key, value));
    forall p | 1 <= p < |spine'| ensures spine'[p].key == entries'[p - 1].0 {
      if p > r + 1 { assert spine[p - 1].key == entries[p - 2].0; }
    }
  }

  /** The list as data: towers, lanes and sorted entries that fit together. */
  ghost predicate Shape(maxLevel: nat, entries: seq<Entry>, spine: seq<Node>, hs: seq<nat>, nexts: seq<seq<Node?>>) {
    Tall(hs, maxLevel) && Distinct(spine) && Linked(spine, hs, nexts) && Sorted(entries) && Keyed(spine, entries)
  }

  lemma ShapeInserted(maxLevel: nat, entries: seq<Entry>, spine: seq<Node>, hs: seq<nat>, nexts: seq<seq<Node?>>,
                      node: Node, value: Value, us: seq<nat>, h: nat, after: seq<seq<Node?>>, next: seq<Node?>,
                      entries': seq<Entry>, spine': seq<Node>, hs': seq<nat>, nexts': seq<seq<Node?>>)
    requires Shape(maxLevel, entries, spine, hs, nexts) && node !in spine && node.key !in ToMap(entries)
    requires 1 <= h <= maxLevel && Path(hs, Rank(entries, node.key), us, h)
    requires IsSpliced(nexts, after, us, node, h) && IsInherited(next, nexts, us, h) && |next| == h
    requires entries' == Inserted<Entry>(entries, Rank(entries, node.key), (node.key, value))
    requires spine' == Inserted<Node>(spine, Rank(entries, node.key) + 1, node)
    requires hs' == Inserted<nat>(hs, Rank(entries, node.key) + 1, h)
    requires nexts' == Inserted<seq<Node?>>(after, Rank(entries, node.key) + 1, next)
    ensures Shape(maxLevel, entries', spine', hs', nexts')
  {
    var r := Rank(entries, node.key);
    TallInserted(hs, maxLevel, r + 1, h);
    DistinctInserted(spine, r + 1, node);
    LinkedInserted(spine, hs, nexts, after, next, r, node, h, us);
    SortedInserted(entries, (node.key, value));
    KeyedInserted(spine, entries, r, node, value);
  }

  // ---------------------------------------------------------------------
  // The list
  // ---------------------------------------------------------------------

  class SkipList {
    const head: Node
    const maxLevel: nat
    var size: nat

    ghost var entries: seq<Entry>        // the data, in key order
    ghost var spine: seq<Node>           // the bottom lane: the head, then one node per entry
    ghost var hs: seq<nat>               // tower heights along the spine
    ghost var nexts: seq<seq<Node?>>     // pointer tables along the spine

    ghost predicate Valid()
      reads this, spine
    {
      && Shape(maxLevel, entries, spine, hs, nexts)
      && spine[0] == head
      && Tied()
      && size >= LIST_SIZE && (size == LIST_SIZE <==> entries == [])
    }

    /** The map that the list stands for. */
    ghost function Map(): map<Key, Value>
      reads this
    {
      ToMap(entries)
    }

    constructor (maxLevel: nat)
      requires maxLevel > 0
      ensures Valid() && fresh(spine) && this.maxLevel == maxLevel
      ensures entries == [] && size == LIST_SIZE
    {
      var h := new Node([], [], maxLevel - 1);
      head := h;
      this.maxLevel := maxLevel;
      size := LIST_SIZE;
      entries := [];
      spine := [h];
      hs := [maxLevel];
      nexts := [h.next];
    }

    /** The number of levels above the first for a new tower: any, as far as correctness goes. */
    method RandomLevel() returns (level: nat)
      requires maxLevel > 0
      ensures level < maxLevel
    {
      level :| 0 <= level < maxLevel;
    }

    /** Walk along lane `i` while the next key is smaller. */
    method Advance(from: Node, ghost p: nat, i: nat, key: Key) returns (current: Node, ghost q: nat)
      requires Valid() && p < |spine| && spine[p] == from && i < hs[p] && p <= Rank(entries, key)
      ensures q < |spine| && spine[q] == current && OnPath(hs, Rank(entries, key), q, i)
    {
      current, q := from, p;
      RankSplits(entries, key);
      while current.next[i] != null && Lt(current.next[i].key, key)
        invariant q < |spine| && spine[q] == current && i < hs[q] && q <= Rank(entries, key)
        decreases |spine| - q
      {
        assert spine[q].next == nexts[q];
        q := NextIdx(hs, q, i);
        current := current.next[i];
      }
      assert spine[q].next == nexts[q];
    }

    /** Overwrite in place the value of the entry at rank `r`. */
    method Overwrite(node: Node, ghost r: nat, value: Value)
      requires Valid() && r < |entries| && node == spine[r + 1]
      modifies this`entries, node`value
      ensures Valid()
      ensures entries == old(entries)[r := (old(entries)[r].0, value)]
      ensures Map() == old(Map())[old(entries)[r].0 := value]
    {
      ToMapLookup(entries, r);
      RankOfMember(entries, r);
      MapUpdated(entries, entries[r].0, value);
      node.value := value;
      entries := entries[r := (entries[r].0, value)];
      assert forall p | 1 <= p < |spine| && p != r + 1 :: spine[p] != node;
    }

    /** The nodes behind which a new tower with this key belongs, lane by lane. */
    method FindPath(key: Key) returns (update: seq<Node>, current: Node, ghost us: seq<nat>)
      requires Valid()
      ensures |update| == |us| == maxLevel
      ensures Path(hs, Rank(entries, key), us, maxLevel)
      ensures forall j | 0 <= j < maxLevel :: update[j] == spine[us[j]]
      ensures current == spine[Rank(entries, key)]
    {
      update := seq(maxLevel, _ => head);
      us := seq(maxLevel, _ => 0);
      current := head;
      var i := maxLevel;
      ghost var r := Rank(entries, key);
      ghost var p: nat := 0;
      while i > 0
        invariant 0 <= i <= maxLevel && |update| == |us| == maxLevel
        invariant p < |spine| && spine[p] == current && i <= hs[p] && p <= r
        invariant forall j | i <= j < maxLevel :: OnPath(hs, r, us[j], j) && update[j] == spine[us[j]]
        invariant i == 0 ==> us[0] == p
      {
        i := i - 1;
        current, p := Advance(current, p, i, key);
        update, us := update[i := current], us[i := p];
      }
      assert OnPath(hs, r, p, 0);
      AtBottom(r, p);
    }

    /** At the bottom lane the search stops right before the key's rank. */
    lemma AtBottom(r: nat, p: nat)
      requires Valid() && OnPath(hs, r, p, 0)
      ensures p == r
    {
    }

    /** The pointer tables and values on the heap are as described. */
    ghost predicate Tied()
      reads this, spine
    {
      && |spine| == |nexts| == |entries| + 1
      && (forall p | 0 <= p < |spine| :: spine[p].next == nexts[p])
      && (forall p | 1 <= p < |spine| :: spine[p].value == entries[p - 1].1)
    }

    /** Link `node` into the lanes up to its own height, behind the nodes of `update`. */
    method Splice(node: Node, update: seq<Node>, ghost us: seq<nat>, level: nat)
      requires Tied() && Distinct(spine) && node !in spine && |node.next| == level + 1
      requires level < |update| == |us|
      requires forall j | 0 <= j <= level :: us[j] < |spine| && j < |nexts[us[j]]| && update[j] == spine[us[j]]
      modifies this`nexts, spine, node
      ensures Tied() && node.value == old(node.value)
      ensures IsSpliced(old(nexts), nexts, us, node, level + 1)
      ensures IsInherited(node.next, old(nexts), us, level + 1) && |node.next| == level + 1
    {
      var i := 0;
      ghost var before := nexts;
      while i <= level
        invariant 0 <= i <= level + 1
        invariant Tied() && node.value == old(node.value)
        invariant IsSpliced(before, nexts, us, node, i)
        invariant IsInherited(node.next, before, us, i) && |node.next| == level + 1
      {
        SplicedStep(before, nexts, us, node, i);
        LinkLane(node, update[i], us[i], i);
        i := i + 1;
      }
    }

    /** One lane: the new node takes over its predecessor's successor. */
    method LinkLane(node: Node, pred: Node, ghost u: nat, i: nat)
      requires Tied() && Distinct(spine) && node !in spine
      requires u < |spine| && pred == spine[u] && i < |nexts[u]| && i < |node.next|
      modifies this`nexts, spine, node
      ensures Tied() && node.value == old(node.value)
      ensures nexts == old(nexts)[u := old(nexts)[u][i := node]]
      ensures node.next == old(node.next)[i := old(nexts)[u][i]]
    {
      node.next := node.next[i := pred.next[i]];
      pred.next := pred.next[i := node];
      nexts := nexts[u := nexts[u][i := node]];
      assert forall p | 0 <= p < |spine| && p != u :: spine[p] != pred;
    }

    /** Enter the node into the lanes; `after` and `next` are the pointers of the old nodes and of the new one. */
    method Attach(node: Node, update: seq<Node>, ghost us: seq<nat>, ghost r: nat, level: nat)
      returns (ghost after: seq<seq<Node?>>, ghost next: seq<Node?>)
      requires Tied() && Distinct(spine) && node !in spine && |node.next| == level + 1 && r < |spine| == |hs|
      requires level < |update| == |us|
      requires forall j | 0 <= j <= level :: us[j] < |spine| && j < |nexts[us[j]]| && update[j] == spine[us[j]]
      modifies this`nexts, this`spine, this`hs, this`entries, spine, node
      ensures Tied() && node.value == old(node.value)
      ensures IsSpliced(old(nexts), after, us, node, level + 1)
      ensures IsInherited(next, old(nexts), us, level + 1) && |next| == level + 1
      ensures entries == Inserted<Entry>(old(entries), r, (node.key, node.value))
      ensures spine == Inserted<Node>(old(spine), r + 1, node)
      ensures hs == Inserted<nat>(old(hs), r + 1, level + 1)
      ensures nexts == Inserted<seq<Node?>>(after, r + 1, next)
    {
      Splice(node, update, us, level);
      after, next := nexts, node.next;
      entries := Inserted<Entry>(entries, r, (node.key, node.value));
      spine := Inserted<Node>(spine, r + 1, node);
      hs := Inserted<nat>(hs, r + 1, level + 1);
      nexts := Inserted<seq<Node?>>(nexts, r + 1, node.next);
    }

    /** Everything but the size: a node with a new key enters the list. */
    method Enter(node: Node, update: seq<Node>, ghost us: seq<nat>, level: nat)
      requires Valid() && node !in spine && |node.next| == level + 1 && node.key !in Map()
      requires level < maxLevel == |update| == |us|
      requires Path(hs, Rank(entries, node.key), us, maxLevel)
      requires forall j | 0 <= j < maxLevel :: update[j] == spine[us[j]]
      modifies this`nexts, this`spine, this`hs, this`entries, spine, node
      ensures Shape(maxLevel, entries, spine, hs, nexts) && spine[0] == head && Tied() && node.value == old(node.value)
      ensures entries == Inserted<Entry>(old(entries), Rank(old(entries), node.key), (node.key, node.value))
      ensures spine == Inserted<Node>(old(spine), Rank(old(entries), node.key) + 1, node)
    {
      ghost var r := Rank(entries, node.key);
      ghost var e, s, h, n := entries, spine, hs, nexts;
      PathPointers(s, h, n, r, us, maxLevel);
      PathPrefix(h, r, us, maxLevel, level + 1);
      ghost var after, next := Attach(node, update, us, r, level);
      ShapeInserted(maxLevel, e, s, h, n, node, node.value, us, level + 1, after, next, entries, spine, hs, nexts);
    }

    /** Insert a key that is not in the list yet. */
    method InsertNew(node: Node, update: seq<Node>, ghost us: seq<nat>, level: nat)
      requires Valid() && node !in spine && |node.next| == level + 1 && node.key !in Map()
      requires level < maxLevel == |update| == |us|
      requires Path(hs, Rank(entries, node.key), us, maxLevel)
      requires forall j | 0 <= j < maxLevel :: update[j] == spine[us[j]]
      modifies this, spine, node
      ensures Valid() && spine == Inserted<Node>(old(spine), Rank(old(entries), node.key) + 1, node)
      ensures size == old(size) + NodeCost(node.key, old(node.value), level)
      ensures Map() == old(Map())[node.key := old(node.value)]
    {
      MapInserted(entries, (node.key, node.value));
      Enter(node, update, us, level);
      size := size + (|node.key| + |node.value| + (level + 1) * POINTER_SIZE + NODE_SIZE + 2 * VEC_SIZE);
    }

    /** Insert or update; `tower` is the level that was drawn. */
    method Insert(key: Key, value: Value) returns (tower: nat)
      requires Valid()
      modifies this, spine
      ensures Valid() && tower < maxLevel
      ensures Map() == old(Map())[key := value]
      ensures size == old(size) + if key in old(Map()) then 0 else NodeCost(key, value, tower)
      ensures forall n <- spine :: n in old(spine) || fresh(n)
    {
      tower := RandomLevel();
      var node := new Node(key, value, tower);
      var existing, update, us := Locate(key);
      if existing != null {
        Overwrite(existing, Rank(entries, key), value);
      } else {
        InsertNew(node, update, us, tower);
      }
    }

    /** The node that holds the key, if any, and the path to where it belongs. */
    method Locate(key: Key) returns (existing: Node?, update: seq<Node>, ghost us: seq<nat>)
      requires Valid()
      ensures existing == null <==> key !in Map()
      ensures var r := Rank(entries, key);
              existing != null ==> r < |entries| && entries[r].0 == key && existing == spine[r + 1]
      ensures |update| == |us| == maxLevel && Path(hs, Rank(entries, key), us, maxLevel)
      ensures forall j | 0 <= j < maxLevel :: update[j] == spine[us[j]]
    {
      var current;
      update, current, us := FindPath(key);
      BottomLink(Rank(entries, key));
      RankFinds(entries, key);
      existing := current.next[0];
      if existing != null && existing.key != key {
        existing := null;
      }
    }

    /** The last node whose key is smaller than `key`, found top-down. */
    method Seek(key: Key) returns (current: Node)
      requires Valid()
      ensures current == spine[Rank(entries, key)]
      ensures current.next != [] && current.next[0] == NodeAt(spine, Rank(entries, key) + 1)
    {
      current := head;
      var i := maxLevel;
      ghost var p: nat := 0;
      while i > 0
        invariant 0 <= i <= maxLevel
        invariant p < |spine| && spine[p] == current && i <= hs[p] && p <= Rank(entries, key)
        invariant i == 0 ==> OnPath(hs, Rank(entries, key), p, 0)
      {
        i := i - 1;
        current, p := Advance(current, p, i, key);
      }
      AtBottom(Rank(entries, key), p);
      BottomLink(p);
    }

    /** In the bottom lane every node points to its neighbour. */
    lemma BottomLink(p: nat)
      requires Valid() && p < |spine|
      ensures spine[p].next != [] && spine[p].next[0] == NodeAt(spine, p + 1)
    {
      assert spine[p].next == nexts[p];
      assert nexts[p][0] == LinkAt(spine, hs, p, 0);
    }

    method Get(key: Key) returns (r: Option<Value>)
      requires Valid()
      ensures r == if key in Map() then Some(Map()[key]) else None
    {
      var current := Seek(key);
      var candidate := current.next[0];
      RankFinds(entries, key);
      if candidate != null && candidate.key == key {
        r := Some(candidate.value);
      } else {
        r := None;
      }
    }

    method Scan(start: Key, end: Key) returns (it: ScanIterator)
      requires Valid()
      ensures fresh(it) && it.On(this) && it.pos == Rank(entries, start) + 1 && it.end == end
    {
      var current := Seek(start);
      it := new ScanIterator(current.next[0], end, Rank(entries, start) + 1);
    }

    /** All pairs that a scan yields. */
    method CollectScan(start: Key, end: Key) returns (es: seq<Entry>)
      requires Valid()
      ensures es == RangeOf(entries, start, end)
    {
      var it := Scan(start, end);
      ghost var a := Rank(entries, start);
      es := [];
      ScanStart(entries, start, end, a);
      while true
        invariant it.On(this) && it.end == end && fresh(it)
        invariant Scanned(entries, end, a, it.pos - 1, es)
        decreases |spine| - it.pos
      {
        ghost var p: nat := it.pos - 1;
        ScanStep(entries, start, end, a, p, es);
        var e := it.Next(this);
        if e.None? {
          break;
        }
        es := es + [e.value];
      }
    }

    method Iter() returns (it: FullIterator)
      requires Valid()
      ensures fresh(it) && it.On(this) && it.pos == 1
    {
      BottomLink(0);
      it := new FullIterator(head.next[0], 1);
    }

    /** All pairs of the list, as a flush collects them. */
    method CollectAll() returns (es: seq<Entry>)
      requires Valid()
      ensures es == entries
    {
      var it := Iter();
      es := [];
      while true
        invariant it.On(this) && fresh(it)
        invariant it.pos - 1 <= |entries| && es == entries[..it.pos - 1]
        decreases |spine| - it.pos
      {
        var e := it.Next(this);
        if e.None? {
          break;
        }
        es := es + [e.value];
      }
    }

    /** Dropping the list frees the head and then walks the bottom lane: every node once, none left out. */
    method Drop() returns (ghost freed: seq<Node>)
      requires Valid()
      ensures freed == spine && Distinct(freed)
    {
      BottomLink(0);
      var current := head.next[0];
      freed := [head];
      while current != null
        invariant 1 <= |freed| <= |spine| && freed == spine[..|freed|] && current == NodeAt(spine, |freed|)
        decreases |spine| - |freed|
      {
        BottomLink(|freed|);
        freed := freed + [current];
        current := current.next[0];
      }
    }
  }

  /** The entries from rank `a` up to position `p` have been scanned, all below the bound. */
  ghost predicate Scanned(entries: seq<Entry>, end: Key, a: nat, p: int, es: seq<Entry>) {
    && a <= p <= |entries| && es == entries[a..p]
    && (p <= Rank(entries, end) || p == a)
  }

  lemma ScanStart(entries: seq<Entry>, start: Key, end: Key, a: nat)
    requires a == Rank(entries, start)
    ensures Scanned(entries, end, a, a, [])
  {
  }

  /** The scan goes on with the next entry, or ends with the whole range. */
  lemma ScanStep(entries: seq<Entry>, start: Key, end: Key, a: nat, p: nat, es: seq<Entry>)
    requires Sorted(entries) && a == Rank(entries, start) && Scanned(entries, end, a, p, es)
    ensures if p < |entries| && Lt(entries[p].0, end) then Scanned(entries, end, a, p + 1, es + [entries[p]])
            else es == RangeOf(entries, start, end)
  {
    BelowRank(entries, end, p);
    if p < |entries| {
      assert entries[a..p] + [entries[p]] == entries[a..p + 1];
    }
  }

  lemma BelowRank(es: seq<Entry>, end: Key, p: nat)
    requires Sorted(es) && p <= |es|
    ensures p < |es| && Lt(es[p].0, end) <==> p < Rank(es, end)
  {
    RankSplits(es, end);
  }

  /** Yields the pairs up to an exclusive bound. */
  class ScanIterator {
    var current: Node?
    const end: Key
    ghost var pos: nat

    ghost predicate On(list: SkipList)
      reads this, list, list.spine
    {
      list.Valid() && 1 <= pos && current == NodeAt(list.spine, pos) && pos <= |list.spine|
    }

    constructor (current: Node?, end: Key, ghost pos: nat)
      ensures this.current == current && this.end == end && this.pos == pos
    {
      this.current := current;
      this.end := end;
      this.pos := pos;
    }

    method Next(ghost list: SkipList) returns (r: Option<Entry>)
      requires On(list)
      modifies this
      ensures On(list)
      ensures r == if old(pos) <= |list.entries| && Lt(list.entries[old(pos) - 1].0, end)
                   then Some(list.entries[old(pos) - 1]) else None
      ensures pos == old(pos) + if r.Some? then 1 else 0
    {
      if current == null {
        return None;
      }
      if !Lt(current.key, end) {
        return None;
      }
      r := Some((current.key, current.value));
      list.BottomLink(pos);
      current := current.next[0];
      pos := pos + 1;
    }
  }

  /** Yields all pairs. */
  class FullIterator {
    var current: Node?
    ghost var pos: nat

    ghost predicate On(list: SkipList)
      reads this, list, list.spine
    {
      list.Valid() && 1 <= pos && current == NodeAt(list.spine, pos) && pos <= |list.spine|
    }

    constructor (current: Node?, ghost pos: nat)
      ensures this.current == current && this.pos == pos
    {
      this.current := current;
      this.pos := pos;
    }

    method Next(ghost list: SkipList) returns (r: Option<Entry>)
      requires On(list)
      modifies this
      ensures On(list)
      ensures r == if old(pos) <= |list.entries| then Some(list.entries[old(pos) - 1]) else None
      ensures pos == old(pos) + if r.Some? then 1 else 0
    {
      if current == null {
        return None;
      }
      r := Some((current.key, current.value));
      list.BottomLink(pos);
      current := current.next[0];
      pos := pos + 1;
    }
  }
}
