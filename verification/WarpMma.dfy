// The matrix multiply-accumulate of a whole warp: every accumulator of every lane takes in products of register
// elements of all lanes. A word is here a vector of one word per lane.
module WarpMma {
  import opened Options
  import opened SsaValues
  import opened GuardedLoads

  const LANES := 32

  // a scalar is the same in every lane
  function LaneOf(v: Word, l: nat): Word {
    if v.Warp? then (if l < |v.lanes| then v.lanes[l] else Poison) else v
  }

  // one element of a multiplicand register of a lane
  datatype Element = Element(lane: nat, reg: nat, at: nat)

  // pairs: the products a lane's accumulator sums, of an element of the four registers of a and one of the two of b;
  // unpack: an element of a register
  datatype Tile = Tile(pairs: (nat, nat) -> seq<(Element, Element)>, unpack: (int, nat) -> int)

  // elements lie in the registers there are, and a zero register holds zeros
  ghost predicate ProperTile(t: Tile) {
    && (forall l, i, k :: 0 <= k < |t.pairs(l, i)| ==> InTile(t.pairs(l, i)[k]))
    && (forall e :: t.unpack(0, e) == 0)
  }

  predicate InTile(p: (Element, Element)) {
    p.0.lane < LANES && p.0.reg < 4 && p.1.lane < LANES && p.1.reg < 2
  }

  // the element e of the registers from `first` on
  function ElementOf(t: Tile, ops: seq<Word>, first: nat, e: Element): Option<int> {
    if first + e.reg < |ops| && LaneOf(ops[first + e.reg], e.lane).Num?
    then Some(t.unpack(LaneOf(ops[first + e.reg], e.lane).n, e.at)) else None
  }

  // the sum of products, if no register involved is poison
  function Products(t: Tile, ops: seq<Word>, pairs: seq<(Element, Element)>): Option<int> {
    if pairs == [] then Some(0)
    else
      var a, b, rest := ElementOf(t, ops, 0, pairs[0].0), ElementOf(t, ops, 4, pairs[0].1),
        Products(t, ops, pairs[1..]);
      if a.Some? && b.Some? && rest.Some? then Some(a.value * b.value + rest.value) else None
  }

  // it is the sum over the pairs of the product of the two elements
  lemma {:induction false} ProductsAre(t: Tile, ops: seq<Word>, p: seq<(Element, Element)>, q: seq<(Element, Element)>)
    ensures |p| == 1 ==>
      var a, b := ElementOf(t, ops, 0, p[0].0), ElementOf(t, ops, 4, p[0].1);
      Products(t, ops, p) == if a.Some? && b.Some? then Some(a.value * b.value) else None
    ensures Products(t, ops, p).Some? && Products(t, ops, q).Some? ==>
      Products(t, ops, p + q) == Some(Products(t, ops, p).value + Products(t, ops, q).value)
    ensures Products(t, ops, p + q).Some? ==> Products(t, ops, p).Some? && Products(t, ops, q).Some?
  {
    hide ElementOf;
    if p == [] {
      assert p + q == q;
    } else {
      assert (p + q)[1..] == p[1..] + q;
      ProductsAre(t, ops, p[1..], q);
      if |p| == 1 { assert Products(t, ops, p[1..]) == Some(0); }
    }
  }

  function Plus(acc: Word, d: Option<int>): Word {
    if acc.Num? && d.Some? then Num(acc.n + d.value) else Poison
  }

  predicate AddsNothing(t: Tile, i: nat, ops: seq<Word>) {
    forall l :: 0 <= l < LANES ==> Products(t, ops, t.pairs(l, i)) == Some(0)
  }

  // accumulator i of all lanes, from the registers a (four), b (two) and c (four) of all lanes
  function MmaOf(t: Tile, i: nat, ops: seq<Word>): Word {
    if i >= 4 || |ops| != 10 then Poison
    else if AddsNothing(t, i, ops) then ops[6 + i]
    else Warp(seq(LANES, l requires 0 <= l < LANES => Plus(LaneOf(ops[6 + i], l), Products(t, ops, t.pairs(l, i)))))
  }

  // lane by lane it is the accumulator plus its products
  lemma MmaLane(t: Tile, i: nat, ops: seq<Word>, l: nat)
    requires i < 4 && |ops| == 10 && l < LANES && !LaneOf(ops[6 + i], l).Warp?
    ensures LaneOf(MmaOf(t, i, ops), l) == Plus(LaneOf(ops[6 + i], l), Products(t, ops, t.pairs(l, i)))
    ensures var acc, d := LaneOf(ops[6 + i], l), Products(t, ops, t.pairs(l, i));
      acc.Num? && d.Some? ==> LaneOf(MmaOf(t, i, ops), l) == Num(acc.n + d.value)
  {
    hide Products;
    if AddsNothing(t, i, ops) { assert Products(t, ops, t.pairs(l, i)) == Some(0); }
  }

  // what the lanes compute on their own
  datatype LaneOps = LaneOps(op: (nat, seq<Word>) -> Word, traps: (nat, seq<Word>) -> bool, load: Word -> Word,
      loadByte: (Word, nat) -> Word)

  function Lanewise(f: Word -> Word, v: Word): Word {
    Warp(seq(LANES, l requires 0 <= l < LANES => f(LaneOf(v, l))))
  }

  function LaneArgs(vs: seq<Word>, l: nat): seq<Word> {
    seq(|vs|, k requires 0 <= k < |vs| => LaneOf(vs[k], l))
  }

  function OpLanes(f: (nat, seq<Word>) -> Word, n: nat, vs: seq<Word>): Word {
    Warp(seq(LANES, l requires 0 <= l < LANES => f(n, LaneArgs(vs, l))))
  }

  function ByteLanes(f: (Word, nat) -> Word, v: Word, at: nat): Word {
    Warp(seq(LANES, l requires 0 <= l < LANES => f(LaneOf(v, l), at)))
  }

  // an operation traps when it does in some lane
  predicate LaneTraps(f: (nat, seq<Word>) -> bool, n: nat, vs: seq<Word>) {
    exists l :: 0 <= l < LANES && f(n, LaneArgs(vs, l))
  }

  // the warp as a machine over vectors of words
  function WarpWorld(o: LaneOps, t: Tile): World {
    World((n: nat, vs: seq<Word>) => OpLanes(o.op, n, vs), (n: nat, vs: seq<Word>) => LaneTraps(o.traps, n, vs),
      (i: nat, ops: seq<Word>) => MmaOf(t, i, ops),
          (v: Word) => Lanewise(o.load, v), (v: Word, at: nat) => ByteLanes(o.loadByte, v, at))
  }

  // on zero multiplicand registers an mma returns its accumulators
  ghost predicate ZeroKeeps(w: World) {
    forall i: nat, acc: seq<Word> :: i < 4 && |acc| == 4 ==> w.mma(i, ZEROS + acc) == acc[i]
  }

  const ZEROS: seq<Word> := [Num(0), Num(0), Num(0), Num(0), Num(0), Num(0)]

  lemma {:induction false} ZeroProducts(t: Tile, acc: seq<Word>, pairs: seq<(Element, Element)>)
    requires (forall e :: t.unpack(0, e) == 0) && |acc| == 4 && forall k :: 0 <= k < |pairs| ==> InTile(pairs[k])
    ensures Products(t, ZEROS + acc, pairs) == Some(0)
  {
    if pairs != [] { ZeroProducts(t, acc, pairs[1..]); }
  }

  // under a warp-uniform guard every lane's registers are zeroed, so every lane of every accumulator is kept, whatever
  // the layout of the tile
  lemma WarpZeroKeeps(o: LaneOps, t: Tile)
    requires ProperTile(t)
    ensures ZeroKeeps(WarpWorld(o, t))
  {
    hide Products;
    forall i: nat, acc: seq<Word> | i < 4 && |acc| == 4 ensures MmaOf(t, i, ZEROS + acc) == acc[i] {
      forall l | 0 <= l < LANES ensures Products(t, ZEROS + acc, t.pairs(l, i)) == Some(0) {
        ZeroProducts(t, acc, t.pairs(l, i));
      }
    }
  }
}
