// A tensor sum: accumulators carried through matrix multiply-accumulates. In every lane it is a sum, so it has the
// rights of a sum.
module TensorSums {
  import opened Options
  import opened SsaValues
  import opened WarpMma
  import R = Recurrence
  import E = RecurrenceExpr

  // the six multiplicand registers of each iteration
  type Fragments = nat -> seq<Word>

  ghost predicate SixEach(frags: Fragments) {
    forall k :: |frags(k)| == 6
  }

  // the four accumulators after the multiply-accumulates of a list of iterations
  function MmaRun(t: Tile, frags: Fragments, acc: seq<Word>, order: seq<nat>): (r: seq<Word>)
    requires |acc| == 4
    ensures |r| == 4
  {
    if order == [] then acc
    else
      var a, n := MmaRun(t, frags, acc, order[..|order| - 1]), |order| - 1;
      seq(4, i requires 0 <= i < 4 => MmaOf(t, i, frags(order[n]) + a))
  }

  function Add(a: Option<int>, b: Option<int>): Option<int> {
    if a.Some? && b.Some? then Some(a.value + b.value) else None
  }

  // the products a list of iterations adds to accumulator i of lane l
  function SumOf(t: Tile, frags: Fragments, order: seq<nat>, i: nat, l: nat): Option<int> {
    if order == [] then Some(0)
    else
      var n := |order| - 1;
      Add(SumOf(t, frags, order[..n], i, l), Products(t, frags(order[n]), t.pairs(l, i)))
  }

  lemma {:induction false} ProductsRead(t: Tile, regs: seq<Word>, acc: seq<Word>, pairs: seq<(Element, Element)>)
    requires |regs| == 6 && forall k :: 0 <= k < |pairs| ==> InTile(pairs[k])
    ensures Products(t, regs + acc, pairs) == Products(t, regs, pairs)
  {
    if pairs != [] { ProductsRead(t, regs, acc, pairs[1..]); }
  }

  // a lane of a run is its start plus the sum of its products
  lemma {:induction false} RunIsSum(t: Tile, frags: Fragments, acc: seq<Word>, order: seq<nat>, i: nat, l: nat)
    requires ProperTile(t) && SixEach(frags) && |acc| == 4 && i < 4 && l < LANES && LaneOf(acc[i], l).Num?
    ensures LaneOf(MmaRun(t, frags, acc, order)[i], l) == Plus(LaneOf(acc[i], l), SumOf(t, frags, order, i, l))
  {
    hide Products, LaneOf, MmaOf, ProperTile;
    if order != [] {
      var n := |order| - 1;
      var a := MmaRun(t, frags, acc, order[..n]);
      RunIsSum(t, frags, acc, order[..n], i, l);
      ProperPairs(t, l, i);
      ProductsRead(t, frags(order[n]), a, t.pairs(l, i));
      MmaLane(t, i, frags(order[n]) + a, l);
    }
  }

  lemma ProperPairs(t: Tile, l: nat, i: nat)
    requires ProperTile(t)
    ensures forall k :: 0 <= k < |t.pairs(l, i)| ==> InTile(t.pairs(l, i)[k])
  {
  }

  lemma {:induction false} SumSplits(t: Tile, frags: Fragments, a: seq<nat>, b: seq<nat>, i: nat, l: nat)
    ensures SumOf(t, frags, a + b, i, l) == Add(SumOf(t, frags, a, i, l), SumOf(t, frags, b, i, l))
    decreases |b|
  {
    hide Products;
    if b == [] {
      assert a + b == a;
    } else {
      var n := |b| - 1;
      assert (a + b)[..|a + b| - 1] == a + b[..n];
      SumSplits(t, frags, a, b[..n], i, l);
    }
  }

  lemma {:induction false} SumPermutes(t: Tile, frags: Fragments, p: seq<nat>, q: seq<nat>, i: nat, l: nat)
    requires multiset(p) == multiset(q)
    ensures SumOf(t, frags, p, i, l) == SumOf(t, frags, q, i, l)
    decreases |p|
  {
    hide Products;
    if p == [] {
      assert |multiset(q)| == 0;
    } else {
      var n := |p| - 1;
      var k := R.FindLast(p, q);
      SumPermutes(t, frags, p[..n], q[..k] + q[k + 1..], i, l);
      SumSplits(t, frags, q[..k], q[k + 1..], i, l);
      SumSplits(t, frags, q[..k] + [q[k]], q[k + 1..], i, l);
      assert (q[..k] + [q[k]])[..k] == q[..k];
    }
  }

  // split or reordered, every lane sums the same
  lemma TensorSumGranted(t: Tile, frags: Fragments, acc: seq<Word>, a: seq<nat>, b: seq<nat>, q: seq<nat>, i: nat,
      l: nat)
    requires ProperTile(t) && SixEach(frags) && |acc| == 4 && i < 4 && l < LANES && LaneOf(acc[i], l).Num?
    ensures E.PermissionsOf(E.TensorSum) == E.Permissions(true, true, false, true)
    ensures LaneOf(MmaRun(t, frags, acc, a + b)[i], l)
      == Plus(LaneOf(acc[i], l), Add(SumOf(t, frags, a, i, l), SumOf(t, frags, b, i, l)))
    ensures multiset(a + b) == multiset(q) ==>
      LaneOf(MmaRun(t, frags, acc, a + b)[i], l) == LaneOf(MmaRun(t, frags, acc, q)[i], l)
  {
    RunIsSum(t, frags, acc, a + b, i, l);
    RunIsSum(t, frags, acc, q, i, l);
    SumSplits(t, frags, a, b, i, l);
    if multiset(a + b) == multiset(q) { SumPermutes(t, frags, a + b, q, i, l); }
  }

  // an iteration run twice adds its product twice, so it may be duplicated only where it adds nothing
  lemma RepeatsExactly(t: Tile, frags: Fragments, acc: seq<Word>, p: seq<nat>, k: nat, i: nat, l: nat)
    requires ProperTile(t) && SixEach(frags) && |acc| == 4 && i < 4 && l < LANES && LaneOf(acc[i], l).Num?
    requires SumOf(t, frags, p + [k], i, l).Some?
    ensures LaneOf(MmaRun(t, frags, acc, p + [k, k])[i], l) == LaneOf(MmaRun(t, frags, acc, p + [k])[i], l)
      <==> Products(t, frags(k), t.pairs(l, i)) == Some(0)
  {
    hide Products, ProperTile, LaneOf, MmaRun;
    RunIsSum(t, frags, acc, p + [k, k], i, l);
    RunIsSum(t, frags, acc, p + [k], i, l);
    assert (p + [k])[..|p|] == p && (p + [k, k])[..|p| + 1] == p + [k];
  }
}
