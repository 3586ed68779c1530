/** Byte sizes that the memtable's accounting uses, on a 64-bit target. */
module Sizes {
  import opened Bytes

  const LIST_SIZE: nat := 24
  const NODE_SIZE: nat := 72
  const VEC_SIZE: nat := 24
  const POINTER_SIZE: nat := 8

  /** What inserting a fresh key adds to the estimated size (src/memtable/skiplist.rs:130-136). */
  function NodeCost(key: Key, value: Value, tower: nat): nat {
    |key| + |value| + (tower + 1) * POINTER_SIZE + NODE_SIZE + 2 * VEC_SIZE
  }
}
