/** The LRU block cache (src/cache/block_cache.rs). */
module Caches {
  import opened Bytes
  import opened Blocks

  datatype CacheKey = CacheKey(sstId: nat, blockIdx: nat)

  datatype Slot = Slot(block: BlockData, size: nat)

  type Slots = map<CacheKey, Slot>

  // ---------------------------------------------------------------------
  // Orders
  // ---------------------------------------------------------------------

  ghost predicate NoDup(s: seq<CacheKey>) {
    forall i, j | 0 <= i < j < |s| :: s[i] != s[j]
  }

  /** `order.retain(|k| k != key)` */
  function Drop(s: seq<CacheKey>, key: CacheKey): seq<CacheKey> {
    if s == [] then []
    else if s[|s| - 1] == key then Drop(s[..|s| - 1], key)
    else Drop(s[..|s| - 1], key) + [s[|s| - 1]]
  }

  lemma {:induction false} DropMember(s: seq<CacheKey>, key: CacheKey, k: CacheKey)
    ensures k in Drop(s, key) <==> k in s && k != key
  {
    if s != [] {
      DropMember(s[..|s| - 1], key, k);
      assert s == s[..|s| - 1] + [s[|s| - 1]];
    }
  }

  lemma {:induction false} DropNoDup(s: seq<CacheKey>, key: CacheKey)
    requires NoDup(s)
    ensures NoDup(Drop(s, key))
  {
    if s != [] {
      var init, last := s[..|s| - 1], s[|s| - 1];
      DropNoDup(init, key);
      DropMember(init, key, last);
    }
  }

  /** Moving a key to the front keeps the order duplicate-free. */
  lemma FrontNoDup(s: seq<CacheKey>, key: CacheKey)
    requires NoDup(s)
    ensures NoDup([key] + Drop(s, key))
  {
    DropNoDup(s, key);
    DropMember(s, key, key);
  }

  lemma {:induction false} DropPrefix(s: seq<CacheKey>, t: seq<CacheKey>, key: CacheKey)
    requires s <= t
    ensures Drop(s, key) <= Drop(t, key)
    decreases |t|
  {
    if |s| < |t| {
      DropPrefix(s, t[..|t| - 1], key);
    } else {
      assert s == t;
    }
  }

  // ---------------------------------------------------------------------
  // Sizes
  // ---------------------------------------------------------------------

  function SizeOf(m: Slots, k: CacheKey): nat {
    if k in m then m[k].size else 0
  }

  function Sum(s: seq<CacheKey>, m: Slots): nat {
    if s == [] then 0 else Sum(s[..|s| - 1], m) + SizeOf(m, s[|s| - 1])
  }

  lemma {:induction false} SumDrop(s: seq<CacheKey>, m: Slots, key: CacheKey)
    requires NoDup(s)
    ensures Sum(s, m) == Sum(Drop(s, key), m) + if key in s then SizeOf(m, key) else 0
  {
    if s != [] {
      var init, last := s[..|s| - 1], s[|s| - 1];
      SumDrop(init, m, key);
      assert s == init + [last];
      if last != key {
        var d := Drop(init, key);
        assert (d + [last])[..|d|] == d;
      }
    }
  }

  lemma {:induction false} SumFront(key: CacheKey, s: seq<CacheKey>, m: Slots)
    ensures Sum([key] + s, m) == SizeOf(m, key) + Sum(s, m)
  {
    if s == [] {
      assert [key] + s == [key] && [key][..0] == [];
    } else {
      assert ([key] + s)[..|s|] == [key] + s[..|s| - 1];
      SumFront(key, s[..|s| - 1], m);
    }
  }

  /** The sum depends only on the slots of the listed keys. */
  lemma {:induction false} SumSame(s: seq<CacheKey>, m: Slots, n: Slots)
    requires forall k <- s :: SizeOf(m, k) == SizeOf(n, k)
    ensures Sum(s, m) == Sum(s, n)
  {
    if s != [] {
      assert s[|s| - 1] in s;
      assert forall k <- s[..|s| - 1] :: k in s;
      SumSame(s[..|s| - 1], m, n);
    }
  }

  /** The order that eviction from the back leaves. */
  function Evict(s: seq<CacheKey>, m: Slots, size: nat, capacity: nat): (r: seq<CacheKey>)
    ensures r <= s
    ensures r == [] || Sum(r, m) + size <= capacity
  {
    if s == [] || Sum(s, m) + size <= capacity then s else Evict(s[..|s| - 1], m, size, capacity)
  }

  /** Eviction removes no more than needed: no longer prefix of the order would have fitted. */
  lemma {:induction false} EvictIsLongest(s: seq<CacheKey>, m: Slots, size: nat, capacity: nat, n: nat)
    requires |Evict(s, m, size, capacity)| < n <= |s|
    ensures Sum(s[..n], m) + size > capacity
    decreases |s|
  {
    if n == |s| {
      assert s[..n] == s;
    } else {
      EvictIsLongest(s[..|s| - 1], m, size, capacity, n);
      assert s[..|s| - 1][..n] == s[..n];
    }
  }

  /** The slots of the listed keys. */
  function Restrict(m: Slots, s: seq<CacheKey>): Slots {
    map k | k in m && k in s :: m[k]
  }

  lemma RestrictInit(m: Slots, s: seq<CacheKey>)
    requires s != [] && NoDup(s) && forall k <- s :: k in m
    ensures Restrict(m, s) - {s[|s| - 1]} == Restrict(m, s[..|s| - 1])
    ensures s[|s| - 1] in Restrict(m, s) && Restrict(m, s)[s[|s| - 1]].size == SizeOf(m, s[|s| - 1])
    ensures forall k <- s[..|s| - 1] :: k in m
  {
    var init, last := s[..|s| - 1], s[|s| - 1];
    assert s == init + [last];
    assert last !in init;
  }

  lemma NoDupInit(s: seq<CacheKey>)
    requires NoDup(s) && s != []
    ensures NoDup(s[..|s| - 1])
  {
  }

  // ---------------------------------------------------------------------
  // The cache
  // ---------------------------------------------------------------------

  /** Order, slots, sizes and recency fit together. */
  ghost predicate Consistent(slots: Slots, order: seq<CacheKey>, capacity: nat, size: nat, recent: seq<CacheKey>) {
    && NoDup(order) && (forall k :: k in order <==> k in slots)
    && size == Sum(order, slots)
    && (size <= capacity || |order| == 1)
    && (forall k <- slots :: slots[k].size == slots[k].block.size)
    && NoDup(recent) && order <= recent
  }

  /** The cache as a value. */
  datatype Lru = Lru(slots: Slots, order: seq<CacheKey>, size: nat, recent: seq<CacheKey>)

  ghost predicate Orderly(c: Lru, capacity: nat) {
    Consistent(c.slots, c.order, capacity, c.size, c.recent)
  }

  /** A lookup moves a cached key to the front. */
  function Used(c: Lru, key: CacheKey): Lru {
    if key in c.slots then c.(order := [key] + Drop(c.order, key), recent := [key] + Drop(c.recent, key)) else c
  }

  /** What stays when a block is stored: the old version is dropped, then keys are evicted from the back. */
  function Kept(c: Lru, key: CacheKey, size: nat, capacity: nat): seq<CacheKey> {
    Evict(Drop(c.order, key), c.slots - {key}, size, capacity)
  }

  function Stored(c: Lru, key: CacheKey, block: BlockData, capacity: nat): Lru {
    var kept, others := Kept(c, key, block.size, capacity), c.slots - {key};
    Lru(Restrict(others, kept)[key := Slot(block, block.size)], [key] + kept, Sum(kept, others) + block.size,
        [key] + Drop(c.recent, key))
  }

  class BlockCache {
    var slots: Slots
    var order: seq<CacheKey>             // most recently used first
    const capacity: nat
    var currentSize: nat
    ghost var recent: seq<CacheKey>      // every key ever used, most recently used first

    ghost function St(): Lru
      reads this
    {
      Lru(slots, order, currentSize, recent)
    }

    ghost predicate Valid()
      reads this
    {
      Orderly(St(), capacity)
    }

    constructor (capacity: nat)
      ensures Valid() && St() == EMPTY_LRU && this.capacity == capacity
    {
      slots, order, currentSize := map[], [], 0;
      this.capacity := capacity;
      recent := [];
    }

    /** Look up a block; a hit moves it to the front. */
    method Get(key: CacheKey) returns (r: Option<BlockData>)
      requires Valid()
      modifies this
      ensures Valid() && St() == Used(old(St()), key)
      ensures r == if key in slots then Some(slots[key].block) else None
    {
      if key !in slots {
        return None;
      }
      Touched(order, recent, slots, key);
      order := [key] + Drop(order, key);
      recent := [key] + Drop(recent, key);
      r := Some(slots[key].block);
    }

    /** Evict from the back until `size` more bytes fit or nothing is left. */
    method MakeRoom(size: nat)
      requires NoDup(order) && (forall k :: k in order <==> k in slots) && currentSize == Sum(order, slots)
      modifies this`slots, this`order, this`currentSize
      ensures order == Evict(old(order), old(slots), size, capacity)
      ensures slots == Restrict(old(slots), order) && currentSize == Sum(order, old(slots))
    {
      ghost var m := slots;
      assert slots == Restrict(m, order);
      while currentSize + size > capacity && order != []
        invariant NoDup(order) && (forall k <- order :: k in m)
        invariant currentSize == Sum(order, m) && slots == Restrict(m, order)
        invariant Evict(order, m, size, capacity) == Evict(old(order), m, size, capacity)
        decreases |order|
      {
        RestrictInit(m, order);
        NoDupInit(order);
        var evicted := order[|order| - 1];
        order := order[..|order| - 1];
        currentSize := currentSize - slots[evicted].size;
        slots := slots - {evicted};
      }
    }

    /** Insert a block, evicting from the back as far as needed. */
    method Put(key: CacheKey, block: BlockData)
      requires Valid()
      modifies this
      ensures Valid() && St() == Stored(old(St()), key, block, capacity)
    {
      ghost var c := St();
      StoredSound(c, key, block, capacity);
      Remove(key);
      MakeRoom(block.size);
      StoredState(c, key, block, capacity, order, slots, currentSize);
      currentSize := currentSize + block.size;
      slots := slots[key := Slot(block, block.size)];
      order := [key] + order;
      recent := [key] + Drop(recent, key);
    }

    /** Drop an old version of the block. */
    method Remove(key: CacheKey)
      requires NoDup(order) && (forall k :: k in order <==> k in slots) && currentSize == Sum(order, slots)
      modifies this`slots, this`order, this`currentSize
      ensures order == Drop(old(order), key) && slots == old(slots) - {key}
      ensures NoDup(order) && (forall k :: k in order <==> k in slots) && currentSize == Sum(order, slots)
    {
      Removed(order, slots, currentSize, key, Drop(order, key), slots - {key});
      if key in slots {
        currentSize := currentSize - slots[key].size;
        slots := slots - {key};
        order := Drop(order, key);
      } else {
        Absent(order, slots, key);
      }
    }
  }

  lemma Absent(o: seq<CacheKey>, m: Slots, key: CacheKey)
    requires key !in o && key !in m
    ensures Drop(o, key) == o && m - {key} == m
  {
    DropAbsent(o, key);
  }

  lemma RemovedSum(o: seq<CacheKey>, m: Slots, key: CacheKey)
    requires NoDup(o) && (key in m ==> key in o)
    ensures Sum(o, m) - SizeOf(m, key) == Sum(Drop(o, key), m - {key})
  {
    SumDrop(o, m, key);
    DropMember(o, key, key);
    SumWithout(Drop(o, key), m, key);
  }

  lemma {:induction false} SumWithout(s: seq<CacheKey>, m: Slots, key: CacheKey)
    requires key !in s
    ensures Sum(s, m) == Sum(s, m - {key})
  {
    if s != [] {
      SumWithout(s[..|s| - 1], m, key);
    }
  }

  lemma RemovedKeys(o: seq<CacheKey>, m: Slots, key: CacheKey)
    requires forall k :: k in o <==> k in m
    ensures forall k :: k in Drop(o, key) <==> k in m - {key}
  {
    forall k ensures k in Drop(o, key) <==> k in m - {key} { DropMember(o, key, k); }
  }

  /** What is left after an old version of a block is dropped. */
  lemma Removed(o: seq<CacheKey>, m: Slots, size: nat, key: CacheKey, order: seq<CacheKey>, slots: Slots)
    requires NoDup(o) && (forall k :: k in o <==> k in m) && size == Sum(o, m)
    requires order == Drop(o, key) && slots == m - {key}
    ensures NoDup(order) && (forall k :: k in order <==> k in slots)
    ensures size - SizeOf(m, key) == Sum(order, slots)
  {
    DropNoDup(o, key);
    RemovedSum(o, m, key);
    RemovedKeys(o, m, key);
  }

  lemma {:induction false} DropAbsent(s: seq<CacheKey>, key: CacheKey)
    requires key !in s
    ensures Drop(s, key) == s
  {
    if s != [] {
      DropAbsent(s[..|s| - 1], key);
      assert s == s[..|s| - 1] + [s[|s| - 1]];
    }
  }

  /** Moving a key to the front of both orders. */
  lemma Touched(order: seq<CacheKey>, recent: seq<CacheKey>, m: Slots, key: CacheKey)
    requires NoDup(order) && NoDup(recent) && order <= recent && key in order
    ensures NoDup([key] + Drop(order, key)) && NoDup([key] + Drop(recent, key))
    ensures [key] + Drop(order, key) <= [key] + Drop(recent, key)
    ensures forall k :: k in [key] + Drop(order, key) <==> k in order
    ensures Sum([key] + Drop(order, key), m) == Sum(order, m)
    ensures |[key] + Drop(order, key)| == |order|
  {
    FrontNoDup(order, key);
    FrontNoDup(recent, key);
    DropPrefix(order, recent, key);
    forall k ensures k in Drop(order, key) <==> k in order && k != key { DropMember(order, key, k); }
    SumDrop(order, m, key);
    SumFront(key, Drop(order, key), m);
    DropLength(order, key);
  }

  lemma {:induction false} DropLength(s: seq<CacheKey>, key: CacheKey)
    requires NoDup(s)
    ensures |Drop(s, key)| == if key in s then |s| - 1 else |s|
  {
    if s != [] {
      var init, last := s[..|s| - 1], s[|s| - 1];
      assert s == init + [last];
      DropLength(init, key);
    }
  }

  /** Putting a fresh key in front of what eviction left. */
  lemma Added(order: seq<CacheKey>, kept: seq<CacheKey>, recent: seq<CacheKey>, m: Slots, n: Slots, key: CacheKey,
              slot: Slot)
    requires order <= kept && NoDup(kept) && kept <= Drop(recent, key) && NoDup(recent) && key !in kept
    requires (forall k <- kept :: k in m) && n == Restrict(m, order)[key := slot]
    ensures NoDup([key] + order) && NoDup([key] + Drop(recent, key)) && [key] + order <= [key] + Drop(recent, key)
    ensures Sum([key] + order, n) == slot.size + Sum(order, m)
    ensures forall k :: k in [key] + order <==> k in n
  {
    FrontNoDup(recent, key);
    assert forall k <- order :: k in kept;
    SumFront(key, order, n);
    SumSame(order, m, n);
  }

  /** What dropping the old version leaves. */
  lemma Dropped(m: Slots, o: seq<CacheKey>, recent: seq<CacheKey>, key: CacheKey, rest: seq<CacheKey>)
    requires NoDup(o) && (forall k :: k in o <==> k in m) && o <= recent && rest == Drop(o, key)
    ensures NoDup(rest) && rest <= Drop(recent, key) && key !in rest && forall k <- rest :: k in m - {key}
  {
    DropPrefix(o, recent, key);
    DropNoDup(o, key);
    forall k ensures k in rest <==> k in o && k != key { DropMember(o, key, k); }
  }

  lemma StoredSound(c: Lru, key: CacheKey, block: BlockData, capacity: nat)
    requires Orderly(c, capacity)
    ensures Orderly(Stored(c, key, block, capacity), capacity)
  {
    var others, kept := c.slots - {key}, Kept(c, key, block.size, capacity);
    var slots := Restrict(others, kept)[key := Slot(block, block.size)];
    StoredOrder(c, key, block, capacity, others, kept, slots);
    StoredSizes(c.slots, key, block, kept, slots);
  }

  lemma StoredOrder(c: Lru, key: CacheKey, block: BlockData, capacity: nat, others: Slots, kept: seq<CacheKey>,
                    slots: Slots)
    requires Orderly(c, capacity) && others == c.slots - {key} && kept == Kept(c, key, block.size, capacity)
    requires slots == Restrict(others, kept)[key := Slot(block, block.size)]
    ensures NoDup([key] + kept) && NoDup([key] + Drop(c.recent, key)) && [key] + kept <= [key] + Drop(c.recent, key)
    ensures Sum([key] + kept, slots) == Sum(kept, others) + block.size
    ensures forall k :: k in [key] + kept <==> k in slots
    ensures Sum(kept, others) + block.size <= capacity || |[key] + kept| == 1
  {
    var rest := Drop(c.order, key);
    Dropped(c.slots, c.order, c.recent, key, rest);
    Added(kept, rest, c.recent, others, slots, key, Slot(block, block.size));
    assert kept == [] ==> |[key] + kept| == 1;
  }

  /** The cache after a store, from what the steps before it left. */
  lemma StoredState(c: Lru, key: CacheKey, block: BlockData, capacity: nat, order: seq<CacheKey>, slots: Slots,
                    size: nat)
    requires order == Evict(Drop(c.order, key), c.slots - {key}, block.size, capacity)
    requires slots == Restrict(c.slots - {key}, order) && size == Sum(order, c.slots - {key})
    ensures Stored(c, key, block, capacity) ==
            Lru(slots[key := Slot(block, block.size)], [key] + order, size + block.size, [key] + Drop(c.recent, key))
  {
  }

  lemma StoredSizes(m: Slots, key: CacheKey, block: BlockData, kept: seq<CacheKey>, slots: Slots)
    requires forall k <- m :: m[k].size == m[k].block.size
    requires slots == Restrict(m - {key}, kept)[key := Slot(block, block.size)]
    ensures forall k <- slots :: slots[k].size == slots[k].block.size
  {
  }

  lemma UsedSound(c: Lru, key: CacheKey, capacity: nat)
    requires Orderly(c, capacity)
    ensures Orderly(Used(c, key), capacity)
  {
    if key in c.slots {
      Touched(c.order, c.recent, c.slots, key);
    }
  }

  // ---------------------------------------------------------------------
  // Traces
  // ---------------------------------------------------------------------

  datatype CacheOp = Look(key: CacheKey) | Store(key: CacheKey, block: BlockData)

  const EMPTY_LRU := Lru(map[], [], 0, [])

  function Perform(c: Lru, op: CacheOp, capacity: nat): Lru {
    match op
    case Look(key) => Used(c, key)
    case Store(key, block) => Stored(c, key, block, capacity)
  }

  function Trace(ops: seq<CacheOp>, capacity: nat): Lru {
    if ops == [] then EMPTY_LRU else Perform(Trace(ops[..|ops| - 1], capacity), ops[|ops| - 1], capacity)
  }

  /** The block stored last under a key. */
  function LastStored(ops: seq<CacheOp>, key: CacheKey): Option<BlockData> {
    if ops == [] then None
    else
      var op := ops[|ops| - 1];
      if op.Store? && op.key == key then Some(op.block) else LastStored(ops[..|ops| - 1], key)
  }

  /** The invariant over every trace of lookups and stores. */
  lemma {:induction false} TraceSound(ops: seq<CacheOp>, capacity: nat)
    ensures Orderly(Trace(ops, capacity), capacity)
  {
    if ops != [] {
      var c := Trace(ops[..|ops| - 1], capacity);
      TraceSound(ops[..|ops| - 1], capacity);
      match ops[|ops| - 1]
      case Look(key) => UsedSound(c, key, capacity);
      case Store(key, block) => StoredSound(c, key, block, capacity);
    }
  }

  /** A hit is the block stored last under its key, never an older version. */
  lemma {:induction false} HitIsLastStored(ops: seq<CacheOp>, capacity: nat, key: CacheKey)
    requires key in Trace(ops, capacity).slots
    ensures LastStored(ops, key) == Some(Trace(ops, capacity).slots[key].block)
  {
    var init, op := ops[..|ops| - 1], ops[|ops| - 1];
    if op.Look? || op.key != key {
      HitIsLastStored(init, capacity, key);
    }
  }

  // ---------------------------------------------------------------------
  // Least recently used
  // ---------------------------------------------------------------------

  /** The position of the last operation on a key, -1 if there is none. */
  function LastUse(ops: seq<CacheOp>, key: CacheKey): (i: int)
    ensures -1 <= i < |ops|
    ensures i >= 0 ==> ops[i].key == key
    ensures forall j | i < j < |ops| :: ops[j].key != key
  {
    if ops == [] then -1
    else if ops[|ops| - 1].key == key then |ops| - 1
    else LastUse(ops[..|ops| - 1], key)
  }

  /** From front to back the ranks fall. */
  ghost predicate Falling(s: seq<CacheKey>, rank: CacheKey -> int) {
    forall i, j | 0 <= i < j < |s| :: rank(s[i]) > rank(s[j])
  }

  lemma {:induction false} DropFalling(s: seq<CacheKey>, key: CacheKey, rank: CacheKey -> int)
    requires Falling(s, rank)
    ensures Falling(Drop(s, key), rank)
  {
    if s != [] {
      var init, last := s[..|s| - 1], s[|s| - 1];
      DropFalling(init, key, rank);
      if last != key {
        forall i | 0 <= i < |Drop(init, key)| ensures rank(Drop(init, key)[i]) > rank(last) {
          DropMember(init, key, Drop(init, key)[i]);
          var j :| 0 <= j < |init| && init[j] == Drop(init, key)[i];
        }
      }
    }
  }

  lemma FrontFalling(key: CacheKey, s: seq<CacheKey>, rank: CacheKey -> int)
    requires Falling(s, rank) && forall k <- s :: rank(k) < rank(key)
    ensures Falling([key] + s, rank)
  {
    forall i, j | 0 <= i < j < |[key] + s| ensures rank(([key] + s)[i]) > rank(([key] + s)[j]) {
      assert s[j - 1] in s;
    }
  }

  /** An operation on a key leaves the ranks of the others and raises its own above them. */
  lemma Reranked(ops: seq<CacheOp>, op: CacheOp, s: seq<CacheKey>)
    requires Falling(s, k => LastUse(ops, k)) && op.key !in s
    ensures Falling(s, k => LastUse(ops + [op], k))
    ensures Falling([op.key] + s, k => LastUse(ops + [op], k))
  {
    assert (ops + [op])[..|ops|] == ops;
    var rank := k => LastUse(ops + [op], k);
    forall i | 0 <= i < |s| ensures rank(s[i]) == LastUse(ops, s[i]) && rank(s[i]) < rank(op.key) {
      assert s[i] in s;
    }
    forall i, j | 0 <= i < j < |s| ensures rank(s[i]) > rank(s[j]) {
      assert (k => LastUse(ops, k))(s[i]) > (k => LastUse(ops, k))(s[j]);
    }
    FrontFalling(op.key, s, rank);
  }

  lemma PrefixFalling(s: seq<CacheKey>, t: seq<CacheKey>, rank: CacheKey -> int)
    requires Falling(t, rank) && s <= t
    ensures Falling(s, rank)
  {
    forall i, j | 0 <= i < j < |s| ensures rank(s[i]) > rank(s[j]) {
      assert s[i] == t[i] && s[j] == t[j];
    }
  }

  /** The keys behind the one that is moved or put to the front. */
  lemma OthersFalling(c: Lru, ops: seq<CacheOp>, op: CacheOp, rest: seq<CacheKey>)
    requires Falling(c.order, k => LastUse(ops, k)) && rest <= Drop(c.order, op.key)
    ensures Falling([op.key] + rest, k => LastUse(ops + [op], k))
  {
    DropFalling(c.order, op.key, k => LastUse(ops, k));
    PrefixFalling(rest, Drop(c.order, op.key), k => LastUse(ops, k));
    forall k <- rest ensures k != op.key { DropMember(c.order, op.key, k); }
    Reranked(ops, op, rest);
  }

  lemma PerformFalling(c: Lru, ops: seq<CacheOp>, op: CacheOp, capacity: nat)
    requires Orderly(c, capacity) && Falling(c.order, k => LastUse(ops, k))
    ensures Falling(Perform(c, op, capacity).order, k => LastUse(ops + [op], k))
  {
    match op
    case Look(key) =>
      if key in c.slots {
        OthersFalling(c, ops, op, Drop(c.order, key));
      } else {
        Reranked(ops, op, c.order);
      }
    case Store(key, block) => OthersFalling(c, ops, op, Kept(c, key, block.size, capacity));
  }

  lemma {:induction false} TraceFalling(ops: seq<CacheOp>, capacity: nat)
    ensures Falling(Trace(ops, capacity).order, k => LastUse(ops, k))
  {
    if ops != [] {
      var init := ops[..|ops| - 1];
      TraceFalling(init, capacity);
      TraceSound(init, capacity);
      assert init + [ops[|ops| - 1]] == ops;
      PerformFalling(Trace(init, capacity), init, ops[|ops| - 1], capacity);
    }
  }

  /** After any operations, of two cached keys the one in front was named by the later operation. */
  lemma RecentFirst(ops: seq<CacheOp>, capacity: nat, i: nat, j: nat)
    requires i < j < |Trace(ops, capacity).order|
    ensures LastUse(ops, Trace(ops, capacity).order[i]) > LastUse(ops, Trace(ops, capacity).order[j])
  {
    TraceFalling(ops, capacity);
    var rank := k => LastUse(ops, k);
    assert rank(Trace(ops, capacity).order[i]) > rank(Trace(ops, capacity).order[j]);
  }

  /** A key that a store evicts was last used before every key that stays. */
  lemma EvictedIsOldest(ops: seq<CacheOp>, capacity: nat, key: CacheKey, block: BlockData, gone: CacheKey,
                        stays: CacheKey)
    requires var before, after := Trace(ops, capacity), Trace(ops + [Store(key, block)], capacity);
             && gone in before.slots && gone !in after.slots
             && stays in before.slots && stays in after.slots
    ensures LastUse(ops + [Store(key, block)], gone) < LastUse(ops + [Store(key, block)], stays)
  {
    assert (ops + [Store(key, block)])[..|ops|] == ops;
    TraceSound(ops, capacity);
    if stays != key {
      TraceFalling(ops, capacity);
      GoneBehind(Trace(ops, capacity), key, block, capacity, gone, stays, k => LastUse(ops, k));
    }
  }

  lemma GoneBehind(c: Lru, key: CacheKey, block: BlockData, capacity: nat, gone: CacheKey, stays: CacheKey,
                   rank: CacheKey -> int)
    requires Orderly(c, capacity) && Falling(c.order, rank) && stays != key
    requires gone in c.slots && gone !in Stored(c, key, block, capacity).slots
    requires stays in c.slots && stays in Stored(c, key, block, capacity).slots
    ensures rank(gone) < rank(stays)
  {
    var rest, kept := Drop(c.order, key), Kept(c, key, block.size, capacity);
    DropFalling(c.order, key, rank);
    DropMember(c.order, key, gone);
    DropMember(c.order, key, stays);
    var i :| 0 <= i < |rest| && rest[i] == gone;
    var j :| 0 <= j < |kept| && kept[j] == stays;
    BehindPrefix(kept, rest, i);
    assert rest[j] == stays;
  }

  lemma BehindPrefix(kept: seq<CacheKey>, rest: seq<CacheKey>, i: nat)
    requires kept <= rest && i < |rest| && rest[i] !in kept
    ensures i >= |kept|
  {
  }

  /** The key in front survives a store that fits beside it. */
  lemma FrontStays(c: Lru, key: CacheKey, other: CacheKey, block: BlockData, capacity: nat)
    requires Orderly(c, capacity) && c.order != [] && c.order[0] == key && other != key
    requires SizeOf(c.slots, key) + block.size <= capacity
    ensures key in Stored(c, other, block, capacity).slots
  {
    var rest, others := Drop(c.order, other), c.slots - {other};
    FirstStays(c.order, other);
    OneSum(rest[..1], others, key);
    if |Evict(rest, others, block.size, capacity)| < 1 {
      EvictIsLongest(rest, others, block.size, capacity, 1);
    }
    assert Kept(c, other, block.size, capacity)[0] == key;
  }

  lemma OneSum(s: seq<CacheKey>, m: Slots, key: CacheKey)
    requires s == [key]
    ensures Sum(s, m) == SizeOf(m, key)
  {
    assert s[..0] == [];
  }

  /** Looking a key up and storing another one that fits beside it leaves the key cached. */
  lemma LookedUpStays(ops: seq<CacheOp>, capacity: nat, key: CacheKey, other: CacheKey, block: BlockData)
    requires key in Trace(ops, capacity).slots && other != key
    requires Trace(ops, capacity).slots[key].size + block.size <= capacity
    ensures key in Trace(ops + [Look(key)] + [Store(other, block)], capacity).slots
  {
    TraceSound(ops + [Look(key)], capacity);
    TraceLast(ops, Look(key), capacity);
    TraceLast(ops + [Look(key)], Store(other, block), capacity);
    FrontStays(Trace(ops + [Look(key)], capacity), key, other, block, capacity);
  }

  lemma TraceLast(ops: seq<CacheOp>, op: CacheOp, capacity: nat)
    ensures Trace(ops + [op], capacity) == Perform(Trace(ops, capacity), op, capacity)
  {
    assert (ops + [op])[..|ops|] == ops;
  }

  lemma {:induction false} FirstStays(s: seq<CacheKey>, key: CacheKey)
    requires s != [] && s[0] != key
    ensures Drop(s, key) != [] && Drop(s, key)[0] == s[0]
  {
    if |s| > 1 {
      FirstStays(s[..|s| - 1], key);
    }
  }

  /** A stored block is cached, in front, whatever its size; a lookup caches nothing and evicts nothing. */
  lemma StoredIsCached(c: Lru, key: CacheKey, block: BlockData, capacity: nat)
    ensures var d := Stored(c, key, block, capacity);
            key in d.slots && d.slots[key] == Slot(block, block.size) && d.order != [] && d.order[0] == key
    ensures Used(c, key).slots == c.slots && Used(c, key).size == c.size
  {
  }

  /** The first key that eviction took would not have fitted. */
  lemma NextTooBig(rest: seq<CacheKey>, m: Slots, size: nat, capacity: nat, kept: seq<CacheKey>)
    requires kept == Evict(rest, m, size, capacity) && |kept| < |rest|
    ensures Sum(kept, m) + SizeOf(m, rest[|kept|]) + size > capacity
  {
    var more := rest[..|kept| + 1];
    EvictIsLongest(rest, m, size, capacity, |more|);
    assert more[..|more| - 1] == kept && more[|more| - 1] == rest[|kept|];
  }

  /** A store evicts only for room: one more of the other keys, the next in order, would not have fitted. */
  lemma EvictsForRoom(c: Lru, key: CacheKey, block: BlockData, capacity: nat, d: Lru, rest: seq<CacheKey>)
    requires d == Stored(c, key, block, capacity) && rest == Drop(c.order, key)
    ensures d.order != [] && d.order[1..] <= rest
    ensures |d.order| <= |rest| ==> d.size + SizeOf(c.slots, rest[|d.order| - 1]) > capacity
  {
    var kept := Kept(c, key, block.size, capacity);
    assert d.order[1..] == kept;
    if |kept| < |rest| {
      NextTooBig(rest, c.slots - {key}, block.size, capacity, kept);
      DropMember(c.order, key, rest[|kept|]);
    }
  }
}
