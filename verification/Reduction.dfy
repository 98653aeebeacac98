// Folding a commutative monoid: strided parts, warps, and the xor butterfly over any power of two of lanes.
module Reduction {
  import opened Powers

  // combine: what the kernel computes; spec: the algebra it stands for, on good values. They differ at most on two
  // units.
  datatype Algebra<!V> = Algebra(combine: (V, V) -> V, spec: (V, V) -> V, unit: V, good: V -> bool)

  ghost predicate Lawful<V(!new)>(m: Algebra<V>) {
    && m.good(m.unit)
    && (forall a, b :: m.good(a) && m.good(b) ==> m.good(m.spec(a, b)) && m.spec(a, b) == m.spec(b, a))
    && (forall a, b, c :: m.good(a) && m.good(b) && m.good(c) ==> m.spec(m.spec(a, b), c) == m.spec(a, m.spec(b, c)))
    && (forall a :: m.good(a) ==> m.spec(m.unit, a) == a)
  }

  // combine is spec on every two values but the unit with itself, and only units combine to the unit
  ghost predicate AlmostTotal<V(!new)>(m: Algebra<V>) {
    && (forall a, b :: m.good(a) && m.good(b) && (a != m.unit || b != m.unit) ==>
      m.combine(a, b) == m.spec(a, b) != m.unit)
  }

  ghost predicate Total<V(!new)>(m: Algebra<V>) {
    forall a, b :: m.good(a) && m.good(b) ==> m.combine(a, b) == m.spec(a, b)
  }

  ghost predicate AllGood<V(!new)>(m: Algebra<V>, v: seq<V>) {
    forall i :: 0 <= i < |v| ==> m.good(v[i])
  }

  lemma Laws<V(!new)>(m: Algebra<V>, a: V, b: V, c: V)
    requires Lawful(m) && m.good(a) && m.good(b) && m.good(c)
    ensures m.good(m.spec(a, b)) && m.spec(a, b) == m.spec(b, a)
    ensures m.spec(m.spec(a, b), c) == m.spec(a, m.spec(b, c))
    ensures m.spec(m.unit, a) == a == m.spec(a, m.unit)
  {
    assert m.spec(m.unit, a) == m.spec(a, m.unit);
  }

  // a whole sequence
  ghost function Fold<V(!new)>(m: Algebra<V>, v: seq<V>): V {
    if v == [] then m.unit else m.spec(Fold(m, v[..|v| - 1]), v[|v| - 1])
  }

  lemma {:induction false} FoldGood<V(!new)>(m: Algebra<V>, v: seq<V>)
    requires Lawful(m) && AllGood(m, v)
    ensures m.good(Fold(m, v))
  {
    if v != [] { FoldGood(m, v[..|v| - 1]); }
  }

  lemma {:induction false} FoldConcat<V(!new)>(m: Algebra<V>, a: seq<V>, b: seq<V>)
    requires Lawful(m) && AllGood(m, a) && AllGood(m, b)
    ensures Fold(m, a + b) == m.spec(Fold(m, a), Fold(m, b))
    decreases |b|
  {
    FoldGood(m, a);
    if b == [] {
      assert a + b == a;
      Laws(m, Fold(m, a), m.unit, m.unit);
    } else {
      var n := |b| - 1;
      assert (a + b)[..|a + b| - 1] == a + b[..n];
      FoldConcat(m, a, b[..n]);
      FoldGood(m, b[..n]);
      Laws(m, Fold(m, a), Fold(m, b[..n]), b[n]);
    }
  }

  // folding one more value into one entry
  lemma FoldUpdate<V(!new)>(m: Algebra<V>, v: seq<V>, i: nat, x: V)
    requires Lawful(m) && AllGood(m, v) && i < |v| && m.good(x)
    ensures Fold(m, v[i := m.spec(v[i], x)]) == m.spec(Fold(m, v), x)
  {
    hide Lawful;
    var a, b := v[..i], v[i + 1..];
    var y := m.spec(v[i], x);
    assert v == a + [v[i]] + b && v[i := y] == a + [y] + b;
    Laws(m, v[i], x, x);
    Three(m, a, v[i], b);
    Three(m, a, y, b);
    FoldGood(m, a);
    FoldGood(m, b);
    var fa, fb := Fold(m, a), Fold(m, b);
    Laws(m, fa, v[i], x);
    Laws(m, m.spec(fa, v[i]), x, fb);
    Laws(m, x, fb, fb);
    Laws(m, m.spec(fa, v[i]), fb, x);
  }

  lemma Three<V(!new)>(m: Algebra<V>, a: seq<V>, x: V, b: seq<V>)
    requires Lawful(m) && AllGood(m, a) && m.good(x) && AllGood(m, b)
    ensures Fold(m, a + [x] + b) == m.spec(m.spec(Fold(m, a), x), Fold(m, b))
  {
    FoldConcat(m, a + [x], b);
    FoldConcat(m, a, [x]);
    assert [x][..0] == [];
    FoldGood(m, a);
    Laws(m, x, x, x);
  }

  // ---- the strided partition

  // the first `bound` values, each folded into the entry of its index modulo the number of parts
  ghost function Strided<V(!new)>(m: Algebra<V>, x: seq<V>, parts: nat, bound: nat): (s: seq<V>)
    requires parts > 0 && bound <= |x|
    ensures |s| == parts
  {
    if bound == 0 then seq(parts, t => m.unit)
    else
      var s := Strided(m, x, parts, bound - 1);
      var t := (bound - 1) % parts;
      s[t := m.spec(s[t], x[bound - 1])]
  }

  lemma {:induction false} FoldUnits<V(!new)>(m: Algebra<V>, n: nat)
    requires Lawful(m)
    ensures Fold(m, seq(n, t => m.unit)) == m.unit
  {
    if n > 0 {
      assert seq(n, t => m.unit)[..n - 1] == seq(n - 1, t => m.unit);
      FoldUnits(m, n - 1);
      Laws(m, m.unit, m.unit, m.unit);
    }
  }

  lemma UnitsGood<V(!new)>(m: Algebra<V>, n: nat)
    requires Lawful(m)
    ensures AllGood(m, seq(n, t => m.unit))
  {
  }

  // the parts together are the values one after the other
  lemma {:induction false} StridedCovers<V(!new)>(m: Algebra<V>, x: seq<V>, parts: nat, bound: nat)
    requires Lawful(m) && AllGood(m, x) && parts > 0 && bound <= |x|
    ensures Fold(m, Strided(m, x, parts, bound)) == Fold(m, x[..bound]) && AllGood(m, Strided(m, x, parts, bound))
  {
    hide Lawful;
    if bound == 0 {
      assert x[..0] == [];
      UnitsGood(m, parts);
      FoldUnits(m, parts);
    } else {
      StridedCovers(m, x, parts, bound - 1);
      var s, t := Strided(m, x, parts, bound - 1), (bound - 1) % parts;
      FoldUpdate(m, s, t, x[bound - 1]);
      Laws(m, s[t], x[bound - 1], x[bound - 1]);
      assert x[..bound][..bound - 1] == x[..bound - 1];
    }
  }

  // an entry changes only at its own indices
  lemma {:induction false} StridedKeeps<V(!new)>(m: Algebra<V>, x: seq<V>, parts: nat, t: nat, low: nat, high: nat)
    requires t < parts && low <= high <= |x| && forall k :: low <= k < high ==> k % parts != t
    ensures Strided(m, x, parts, high)[t] == Strided(m, x, parts, low)[t]
    decreases high
  {
    if low < high { StridedKeeps(m, x, parts, t, low, high - 1); }
  }

  // ---- warps

  // the folds of the first n blocks of `width` values
  ghost function Blocks<V(!new)>(m: Algebra<V>, v: seq<V>, width: nat, n: nat): (s: seq<V>)
    requires width * n <= |v|
    ensures |s| == n
  {
    if n == 0 then [] else
      BlockInside(width, n);
      Blocks(m, v, width, n - 1) + [Fold(m, v[width * (n - 1)..width * n])]
  }

  lemma BlockInside(width: nat, n: nat)
    requires n > 0
    ensures 0 <= width * (n - 1) <= width * n == width * (n - 1) + width
  {
  }

  // folding each block and then the blocks is folding everything
  lemma {:induction false} BlocksCover<V(!new)>(m: Algebra<V>, v: seq<V>, width: nat, n: nat)
    requires Lawful(m) && AllGood(m, v) && width * n <= |v|
    ensures Fold(m, Blocks(m, v, width, n)) == Fold(m, v[..width * n]) && AllGood(m, Blocks(m, v, width, n))
  {
    hide Lawful;
    if n == 0 {
      assert v[..width * n] == [];
    } else {
      BlockInside(width, n);
      var p, q := width * (n - 1), width * n;
      BlocksCover(m, v, width, n - 1);
      FoldGood(m, v[p..q]);
      FoldConcat(m, v[..p], v[p..q]);
      assert v[..q] == v[..p] + v[p..q];
      var b := Blocks(m, v, width, n - 1);
      assert (b + [Fold(m, v[p..q])])[..|b|] == b;
    }
  }

  lemma {:induction false} BlockAt<V(!new)>(m: Algebra<V>, v: seq<V>, width: nat, n: nat, w: nat)
    requires width * n <= |v| && w < n
    ensures 0 <= width * w <= width * (w + 1) <= width * n
    ensures Blocks(m, v, width, n)[w] == Fold(m, v[width * w..width * (w + 1)])
  {
    BlockInside(width, n);
    if w < n - 1 { BlockAt(m, v, width, n - 1, w); }
  }

  // ---- the butterfly

  // lane xor off, for off a power of two: the bit of that weight flipped
  function Flip(lane: nat, off: nat): nat
    requires off > 0
  {
    if (lane / off) % 2 == 0 then lane + off else if lane >= off then lane - off else 0
  }

  // the values at r, r + step, r + 2 * step, ...
  ghost function Class<V(!new)>(m: Algebra<V>, v: seq<V>, r: nat, step: nat): V
    requires step > 0
    decreases |v| - r
  {
    if r >= |v| then m.unit else m.spec(v[r], Class(m, v, r + step, step))
  }

  lemma {:induction false} ClassGood<V(!new)>(m: Algebra<V>, v: seq<V>, r: nat, step: nat)
    requires Lawful(m) && AllGood(m, v) && step > 0
    ensures m.good(Class(m, v, r, step))
    decreases |v| - r
  {
    if r < |v| { ClassGood(m, v, r + step, step); }
  }

  lemma {:induction false} ClassAll<V(!new)>(m: Algebra<V>, v: seq<V>, r: nat)
    requires Lawful(m) && AllGood(m, v) && r <= |v|
    ensures Class(m, v, r, 1) == Fold(m, v[r..])
    decreases |v| - r
  {
    hide Lawful;
    if r < |v| {
      ClassAll(m, v, r + 1);
      assert v[r..] == [v[r]] + v[r + 1..];
      FoldConcat(m, [v[r]], v[r + 1..]);
      assert [v[r]][..0] == [];
      Laws(m, v[r], v[r], v[r]);
    }
  }

  lemma ClassOne<V(!new)>(m: Algebra<V>, v: seq<V>, r: nat, step: nat)
    requires Lawful(m) && AllGood(m, v) && r < |v| <= step
    ensures Class(m, v, r, step) == v[r]
  {
    hide Lawful;
    Laws(m, v[r], v[r], v[r]);
  }

  // the classes r and r + off modulo 2 * off together are the class r modulo off
  lemma {:induction false} ClassHalves<V(!new)>(m: Algebra<V>, v: seq<V>, r: nat, off: nat)
    requires Lawful(m) && AllGood(m, v) && off > 0
    ensures Class(m, v, r, off) == m.spec(Class(m, v, r, 2 * off), Class(m, v, r + off, 2 * off))
    decreases |v| - r
  {
    hide Lawful;
    if r >= |v| {
      UnitTwice(m);
    } else {
      ClassHalves(m, v, r + off, off);
      var a, b := Class(m, v, r + off, 2 * off), Class(m, v, r + 2 * off, 2 * off);
      ClassGood(m, v, r + off, 2 * off);
      ClassGood(m, v, r + 2 * off, 2 * off);
      Laws(m, a, b, a);
      Laws(m, v[r], b, a);
    }
  }

  lemma UnitTwice<V(!new)>(m: Algebra<V>)
    requires Lawful(m)
    ensures m.spec(m.unit, m.unit) == m.unit
  {
  }

  // flipping a bit moves a lane to the other half of its class modulo 2 * off, and stays inside the warp
  lemma FlipHalves(lane: nat, off: nat, blocks: nat)
    requires off > 0 && lane < 2 * off * blocks
    ensures var other := Flip(lane, off);
      && other < 2 * off * blocks
      && lane % off < off
      && ((lane % (2 * off) == lane % off && other % (2 * off) == lane % off + off)
        || (lane % (2 * off) == lane % off + off && other % (2 * off) == lane % off))
  {
    var d := 2 * off;
    Quotient(lane, d);
    var p, q := lane / d, lane % d;
    hide Flip;
    Below(d, p, blocks, q);
    if q < off { FlipLow(lane, off, p, q); } else { FlipHigh(lane, off, p, q - off); }
  }

  lemma Quotient(x: nat, d: nat)
    requires d > 0
    ensures x / d >= 0 && 0 <= x % d < d && x == d * (x / d) + x % d
  {
  }

  lemma FlipLow(lane: nat, off: nat, p: nat, q: nat)
    requires off > 0 && q < off && lane == (2 * off) * p + q
    ensures Flip(lane, off) == lane + off && lane % off == q && lane % (2 * off) == q
      && (lane + off) % (2 * off) == q + off
  {
    Twice(off, p);
    DivMod(lane, off, 2 * p, q);
    DivMod(lane, 2 * off, p, q);
    DivMod(lane + off, 2 * off, p, q + off);
    Even(p);
  }

  lemma FlipHigh(lane: nat, off: nat, p: nat, q: nat)
    requires off > 0 && q < off && lane == (2 * off) * p + off + q
    ensures lane >= off && Flip(lane, off) == lane - off
    ensures lane % off == q && lane % (2 * off) == q + off && (lane - off) % (2 * off) == q
  {
    Twice(off, p);
    DivMod(lane, off, 2 * p + 1, q);
    DivMod(lane, 2 * off, p, q + off);
    DivMod(lane - off, 2 * off, p, q);
    Even(p);
    assert (2 * off) * p >= 0;
  }

  lemma Even(p: nat)
    ensures (2 * p) % 2 == 0 && (2 * p + 1) % 2 == 1
  {
  }

  lemma Twice(off: nat, p: nat)
    ensures (2 * off) * p == off * (2 * p) && (2 * off) * p + off == off * (2 * p + 1)
  {
  }

  lemma Multiple(d: nat, k: int)
    requires d > 0
    ensures (k >= 1 ==> d * k >= d) && (k <= -1 ==> d * k <= 0 - d)
  {
  }

  lemma DivMod(x: nat, d: nat, q: nat, r: nat)
    requires d > 0 && r < d && x == d * q + r
    ensures x / d == q && x % d == r
  {
    var k := x / d - q;
    assert x == d * (x / d) + x % d;
    assert d * k == d * (x / d) - d * q;
    Multiple(d, k);
  }

  lemma Below(d: nat, p: nat, blocks: nat, r: nat)
    requires r < d && d * p + r < d * blocks
    ensures d * p + d <= d * blocks
  {
    var k: int := blocks - p;
    assert d * k == d * blocks - d * p;
    Multiple(d, k);
  }

  // what the lanes of a warp hold once the bits of weight `step` and above were exchanged
  ghost predicate Exchanged<V(!new)>(m: Algebra<V>, warp: seq<V>, acc: seq<V>, step: nat) {
    step > 0 && |acc| == |warp| && forall i :: 0 <= i < |warp| ==> acc[i] == Class(m, warp, i % step, step)
  }

  // one round of the butterfly
  ghost function Round<V(!new)>(m: Algebra<V>, acc: seq<V>, off: nat): (s: seq<V>)
    requires off > 0 && forall i :: 0 <= i < |acc| ==> Flip(i, off) < |acc|
    ensures |s| == |acc|
  {
    seq(|acc|, i requires 0 <= i < |acc| => m.combine(acc[i], acc[Flip(i, off)]))
  }

  lemma RoundInside(lanes: nat, off: nat, blocks: nat)
    requires off > 0 && lanes == 2 * off * blocks
    ensures forall i :: 0 <= i < lanes ==> Flip(i, off) < lanes
  {
    forall i | 0 <= i < lanes ensures Flip(i, off) < lanes {
      FlipHalves(i, off, blocks);
    }
  }

  // combine agrees with the algebra wherever this warp uses it: the lower half of the lanes hold something
  ghost predicate Agrees<V(!new)>(m: Algebra<V>, warp: seq<V>) {
    Total(m) || (AlmostTotal(m) && forall i :: 0 <= i && 2 * i < |warp| ==> warp[i] != m.unit)
  }

  lemma ClassNotUnit<V(!new)>(m: Algebra<V>, v: seq<V>, r: nat, step: nat)
    requires Lawful(m) && AllGood(m, v) && AlmostTotal(m) && step > 0 && r < |v| && v[r] != m.unit
    ensures Class(m, v, r, step) != m.unit
  {
    ClassGood(m, v, r + step, step);
  }

  lemma ExchangeRound<V(!new)>(m: Algebra<V>, warp: seq<V>, acc: seq<V>, off: nat, blocks: nat)
    requires Lawful(m) && AllGood(m, warp) && Agrees(m, warp) && off > 0 && |warp| == 2 * off * blocks
      && Exchanged(m, warp, acc, 2 * off)
    ensures forall i :: 0 <= i < |acc| ==> Flip(i, off) < |acc|
    ensures Exchanged(m, warp, Round(m, acc, off), off)
  {
    hide Lawful, Agrees, Flip, Class, Round;
    RoundInside(|warp|, off, blocks);
    forall i | 0 <= i < |warp| ensures Round(m, acc, off)[i] == Class(m, warp, i % off, off) {
      LaneRound(m, warp, acc, off, blocks, i);
    }
  }

  lemma LaneRound<V(!new)>(m: Algebra<V>, warp: seq<V>, acc: seq<V>, off: nat, blocks: nat, i: nat)
    requires Lawful(m) && AllGood(m, warp) && Agrees(m, warp) && off > 0 && |warp| == 2 * off * blocks
      && Exchanged(m, warp, acc, 2 * off)
    requires i < |warp| && forall k :: 0 <= k < |acc| ==> Flip(k, off) < |acc|
    ensures Round(m, acc, off)[i] == Class(m, warp, i % off, off)
  {
    hide Flip, Round, Class, Lawful, AllGood, Agrees;
    var other := Flip(i, off);
    FlipHalves(i, off, blocks);
    LaneHolds(m, warp, acc, 2 * off, i);
    LaneHolds(m, warp, acc, 2 * off, other);
    hide Exchanged;
    RemainderHalf(i, off, blocks, |warp|);
    TwoClasses(m, warp, i % off, off, acc[i], acc[other]);
    RoundAt(m, acc, off, i);
  }

  lemma LaneHolds<V(!new)>(m: Algebra<V>, warp: seq<V>, acc: seq<V>, step: nat, i: nat)
    requires Exchanged(m, warp, acc, step) && i < |warp|
    ensures |acc| == |warp| && acc[i] == Class(m, warp, i % step, step)
  {
  }

  lemma TwoClasses<V(!new)>(m: Algebra<V>, warp: seq<V>, r: nat, off: nat, x: V, y: V)
    requires Lawful(m) && AllGood(m, warp) && Agrees(m, warp) && off > 0 && 2 * r < |warp|
    requires (x == Class(m, warp, r, 2 * off) && y == Class(m, warp, r + off, 2 * off))
          || (y == Class(m, warp, r, 2 * off) && x == Class(m, warp, r + off, 2 * off))
    ensures m.combine(x, y) == Class(m, warp, r, off)
  {
    hide *;
    var a, b := Class(m, warp, r, 2 * off), Class(m, warp, r + off, 2 * off);
    ClassHalves(m, warp, r, off);
    ClassGood(m, warp, r, 2 * off);
    ClassGood(m, warp, r + off, 2 * off);
    Laws(m, a, b, a);
    CombineClasses(m, warp, r, r + off, 2 * off);
  }

  // the class a lane combines is named by a lane of the lower half
  lemma RemainderHalf(i: nat, off: nat, blocks: nat, lanes: nat)
    requires off > 0 && lanes == 2 * off * blocks && i < lanes
    ensures 2 * (i % off) < lanes
  {
    assert blocks >= 1;
    assert 2 * off * blocks >= 2 * off by { AtLeastOnce(2 * off, blocks); }
  }

  lemma AtLeastOnce(a: nat, n: nat)
    requires n >= 1
    ensures a * n >= a
  {
  }

  lemma RoundAt<V(!new)>(m: Algebra<V>, acc: seq<V>, off: nat, i: nat)
    requires off > 0 && (forall k :: 0 <= k < |acc| ==> Flip(k, off) < |acc|) && i < |acc|
    ensures Round(m, acc, off)[i] == m.combine(acc[i], acc[Flip(i, off)])
  {
  }

  lemma CombineClasses<V(!new)>(m: Algebra<V>, warp: seq<V>, r: nat, q: nat, step: nat)
    requires Lawful(m) && AllGood(m, warp) && Agrees(m, warp) && step > 0 && 2 * r < |warp|
    ensures var a, b := Class(m, warp, r, step), Class(m, warp, q, step);
      m.combine(a, b) == m.spec(a, b) && m.combine(b, a) == m.spec(b, a)
  {
    ClassGood(m, warp, r, step);
    ClassGood(m, warp, q, step);
    if !Total(m) { ClassNotUnit(m, warp, r, step); }
  }

  // all rounds of the butterfly over 2^e lanes, from the highest bit down
  ghost function Butterfly<V(!new)>(m: Algebra<V>, acc: seq<V>, e: nat, blocks: nat): (s: seq<V>)
    requires |acc| == Pow2(e) * blocks
    ensures |s| == |acc|
    decreases e
  {
    if e == 0 then acc
    else
      RoundInside(|acc|, Pow2(e - 1), blocks);
      Twice(Pow2(e - 1), blocks);
      Butterfly(m, Round(m, acc, Pow2(e - 1)), e - 1, 2 * blocks)
  }

  lemma {:induction false} ButterflyExchanges<V(!new)>(m: Algebra<V>, warp: seq<V>, acc: seq<V>, e: nat, blocks: nat)
    requires Lawful(m) && AllGood(m, warp) && Agrees(m, warp)
    requires |warp| == Pow2(e) * blocks && Exchanged(m, warp, acc, Pow2(e))
    ensures Exchanged(m, warp, Butterfly(m, acc, e, blocks), 1)
    decreases e
  {
    if e > 0 {
      hide Lawful, Agrees, Exchanged, Round;
      ExchangeRound(m, warp, acc, Pow2(e - 1), blocks);
      Twice(Pow2(e - 1), blocks);
      ButterflyExchanges(m, warp, Round(m, acc, Pow2(e - 1)), e - 1, 2 * blocks);
    }
  }

  // every lane ends with the fold of the whole warp, for any power of two of lanes
  lemma ButterflyFolds<V(!new)>(m: Algebra<V>, warp: seq<V>, e: nat, i: nat)
    requires Lawful(m) && AllGood(m, warp) && Agrees(m, warp) && |warp| == Pow2(e) && i < |warp|
    ensures Butterfly(m, warp, e, 1)[i] == Fold(m, warp)
  {
    forall k | 0 <= k < |warp| ensures warp[k] == Class(m, warp, k % Pow2(e), Pow2(e)) {
      DivMod(k, Pow2(e), 0, k);
      ClassOne(m, warp, k, Pow2(e));
    }
    ButterflyExchanges(m, warp, warp, e, 1);
    ClassAll(m, warp, 0);
    assert warp[0..] == warp && i % 1 == 0;
  }
}
