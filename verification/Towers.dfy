/**
 The geometry of a skip list as pure data: tower heights in key order (position 0 is the head),
 and for every lane the next tower that reaches it.
 */
module Towers {

  /** The first position after `p` whose tower reaches lane `i`; `|hs|` if there is none. */
  function NextIdx(hs: seq<nat>, p: nat, i: nat): (q: nat)
    requires p < |hs|
    ensures p < q <= |hs|
    ensures q < |hs| ==> hs[q] > i
    ensures forall r | p < r < q :: hs[r] <= i
    decreases |hs| - p
  {
    if p + 1 == |hs| then |hs|
    else if hs[p + 1] > i then p + 1
    else NextIdx(hs, p + 1, i)
  }

  lemma NextUnique(hs: seq<nat>, p: nat, i: nat, q: nat)
    requires p < q <= |hs| && (q < |hs| ==> hs[q] > i) && forall r | p < r < q :: hs[r] <= i
    ensures NextIdx(hs, p, i) == q
  {
  }

  function Inserted<T>(s: seq<T>, pos: nat, x: T): (r: seq<T>)
    requires pos <= |s|
    ensures |r| == |s| + 1
    ensures forall j | 0 <= j < |r| :: r[j] == if j < pos then s[j] else if j == pos then x else s[j - 1]
  {
    seq(|s| + 1, j requires 0 <= j <= |s| => if j < pos then s[j] else if j == pos then x else s[j - 1])
  }

  /** How inserting a tower of height `h` moves everyone's successors. */
  lemma NextInserted(hs: seq<nat>, pos: nat, h: nat, p: nat, i: nat)
    requires 1 <= pos <= |hs| && p < |hs|
    ensures var q, hs' := NextIdx(hs, p, i), Inserted(hs, pos, h);
            NextIdx(hs', if p < pos then p else p + 1, i) ==
            if q < pos then q else if p < pos && i < h then pos else q + 1
  {
    var q, hs' := NextIdx(hs, p, i), Inserted(hs, pos, h);
    var p' := if p < pos then p else p + 1;
    var q' := if q < pos then q else if p < pos && i < h then pos else q + 1;
    forall r | p' < r < q' ensures hs'[r] <= i {
      if r > pos { assert hs'[r] == hs[r - 1]; }
    }
    NextUnique(hs', p', i, q');
  }

  /** The new tower inherits the successor that its predecessor in the lane had. */
  lemma NextOfInserted(hs: seq<nat>, pos: nat, h: nat, u: nat, i: nat)
    requires 1 <= pos <= |hs| && u < pos <= NextIdx(hs, u, i)
    ensures NextIdx(Inserted(hs, pos, h), pos, i) == NextIdx(hs, u, i) + 1
  {
    var q, hs' := NextIdx(hs, u, i), Inserted(hs, pos, h);
    forall r | pos < r < q + 1 ensures hs'[r] <= i {
      assert hs'[r] == hs[r - 1];
    }
    NextUnique(hs', pos, i, q + 1);
  }

  /** The positions that a walk along lane `i` visits after `p`. */
  function Lane(hs: seq<nat>, i: nat, p: nat): seq<nat>
    requires p < |hs|
    decreases |hs| - p
  {
    var q := NextIdx(hs, p, i);
    if q == |hs| then [] else [q] + Lane(hs, i, q)
  }

  /** A lane visits, in increasing order, exactly the towers that reach it: lane i+1 is a sublist of lane i. */
  lemma {:induction false} LaneVisits(hs: seq<nat>, i: nat, p: nat)
    requires p < |hs|
    ensures forall q :: q in Lane(hs, i, p) <==> p < q < |hs| && hs[q] > i
    ensures forall a, b | 0 <= a < b < |Lane(hs, i, p)| :: Lane(hs, i, p)[a] < Lane(hs, i, p)[b]
    decreases |hs| - p
  {
    var n := NextIdx(hs, p, i);
    if n < |hs| {
      LaneVisits(hs, i, n);
      var rest := Lane(hs, i, n);
      assert Lane(hs, i, p) == [n] + rest;
      forall b | 0 <= b < |rest| ensures n < rest[b] {
        assert rest[b] in rest;
      }
    }
  }

  // ---------------------------------------------------------------------
  // The levels that are drawn
  // ---------------------------------------------------------------------

  /** One step of the generator (xorshift64). */
  function NextState(v: bv64): bv64 {
    var a := v ^ (v << 13);
    var b := a ^ (a >> 7);
    b ^ (b << 17)
  }

  /** The position of the lowest one bit from `i` on; 64 if there is none. */
  function TrailingZeros(v: bv64, i: nat): nat
    requires i <= 64
    decreases 64 - i
  {
    if i == 64 || (v >> i) & 1 == 1 then i else TrailingZeros(v, i + 1)
  }

  /** The level that `random_level` makes of its state. */
  function LevelOf(state: bv64, maxLevel: nat): (level: nat)
    requires maxLevel > 0
    ensures level < maxLevel
  {
    var zeros := TrailingZeros(NextState(state) | 1, 0);
    if zeros < maxLevel - 1 then zeros else maxLevel - 1
  }

  /** The lowest bit is set before zeros are counted, so that every tower is flat, whatever the state. */
  lemma FlatTowers(state: bv64, maxLevel: nat)
    requires maxLevel > 0
    ensures LevelOf(state, maxLevel) == 0
  {
    LowestBit(NextState(state));
  }

  lemma LowestBit(v: bv64)
    ensures ((v | 1) >> 0) & 1 == 1
  {
  }
}
