// Fitting sampled addresses as affine maps of the physical point, and splitting a sample set into affine families.
module AffineFit {
  import opened Options
  import opened LinearAlgebra
  import opened Polynomials
  import opened MonomialOrder
  import opened Hermite

  datatype Sample = Sample(x: seq<int>, val: Poly)

  ghost predicate Points(S: seq<Sample>, n: nat) {
    forall i :: 0 <= i < |S| ==> |S[i].x| == n
  }

  // ---- affine maps; a null stride is the zero polynomial

  ghost function Move(stride: seq<Poly>, x: seq<int>): int -> Poly {
    a => if 0 <= a < |x| && a < |stride| then Scale(x[a], stride[a]) else map[]
  }

  // base + sum_a stride_a * x_a
  ghost function AffineAt(base: Poly, stride: seq<Poly>, x: seq<int>): Poly {
    Add(base, PolySum(|x|, Move(stride, x)))
  }

  ghost predicate Reproduces(S: seq<Sample>, base: Poly, stride: seq<Poly>) {
    forall i :: 0 <= i < |S| ==> S[i].val == AffineAt(base, stride, S[i].x)
  }

  ghost predicate IsAffine(S: seq<Sample>, n: nat) {
    exists base, stride :: |stride| == n && Reproduces(S, base, stride)
  }

  ghost predicate Varies(S: seq<Sample>, a: nat) {
    exists i, j :: 0 <= i < |S| && 0 <= j < |S| && a < |S[i].x| && a < |S[j].x| && S[i].x[a] != S[j].x[a]
  }

  predicate OneAxis(x: seq<int>, y: seq<int>, a: nat)
    requires |x| == |y|
  {
    a < |x| && x[a] != y[a] && forall b :: 0 <= b < |x| && b != a ==> x[b] == y[b]
  }

  ghost predicate AxisPair(S: seq<Sample>, i: int, j: int, a: nat) {
    0 <= i < |S| && 0 <= j < |S| && |S[i].x| == |S[j].x| && OneAxis(S[i].x, S[j].x, a)
  }

  // every axis along which the samples vary has a pair of samples that differ on it alone
  ghost predicate WellSampled(S: seq<Sample>, n: nat) {
    forall a :: 0 <= a < n && Varies(S, a) ==> exists i, j :: AxisPair(S, i, j, a)
  }

  // ---- coefficients of affine maps

  ghost function Slope(stride: seq<Poly>, x: seq<int>, w: Mono, k: int): int {
    if 0 <= k < |x| && k < |stride| then x[k] * Coef(stride[k], w) else 0
  }

  lemma AffineCoef(base: Poly, stride: seq<Poly>, x: seq<int>, w: Mono)
    ensures Coef(AffineAt(base, stride, x), w) == Coef(base, w) + Sum(|x|, k => Slope(stride, x, w, k))
  {
    PolySumCoef(|x|, Move(stride, x), w);
    SumExt(|x|, k => Coef(Move(stride, x)(k), w), k => Slope(stride, x, w, k));
  }

  lemma SlopesDiffer(stride: seq<Poly>, x: seq<int>, y: seq<int>, a: nat, w: Mono)
    requires |x| == |y| == |stride| && OneAxis(x, y, a)
    ensures Sum(|y|, k => Slope(stride, y, w, k)) - Sum(|x|, k => Slope(stride, x, w, k))
      == (y[a] - x[a]) * Coef(stride[a], w)
  {
    var f, g := k => Slope(stride, x, w, k), k => Slope(stride, y, w, k);
    var h := k => g(k) - f(k);
    SumLinear(|x|, g, -1, f, h);
    SumSingle(|x|, a, h);
    assert (y[a] - x[a]) * Coef(stride[a], w) == y[a] * Coef(stride[a], w) - x[a] * Coef(stride[a], w);
  }

  // two points that differ on one axis alone see only that axis' stride
  lemma AxisDifference(base: Poly, stride: seq<Poly>, x: seq<int>, y: seq<int>, a: nat)
    requires |x| == |y| == |stride| && OneAxis(x, y, a)
    ensures Subtract(AffineAt(base, stride, y), AffineAt(base, stride, x)) == Scale(y[a] - x[a], stride[a])
  {
    var d := Subtract(AffineAt(base, stride, y), AffineAt(base, stride, x));
    forall w: Mono ensures Coef(d, w) == Coef(Scale(y[a] - x[a], stride[a]), w) {
      AffineCoef(base, stride, x, w);
      AffineCoef(base, stride, y, w);
      SlopesDiffer(stride, x, y, a, w);
    }
    PolyEq(d, Scale(y[a] - x[a], stride[a]));
  }

  lemma ScaleCancel(k: int, p: Poly, q: Poly)
    requires k != 0 && Scale(k, p) == Scale(k, q)
    ensures p == q
  {
    forall w: Mono ensures Coef(p, w) == Coef(q, w) {
      assert k * Coef(p, w) == k * Coef(q, w);
      CancelFactor(k, Coef(p, w), Coef(q, w));
    }
    PolyEq(p, q);
  }

  lemma CancelFactor(k: int, a: int, b: int)
    requires k != 0 && k * a == k * b
    ensures a == b
  {
    assert k * (a - b) == 0;
  }

  // strides that agree wherever the coordinate moves give the same displacement
  lemma SameDisplacement(t: seq<Poly>, t': seq<Poly>, x: seq<int>, y: seq<int>, w: Mono)
    requires |t| == |t'| == |x| == |y|
    requires forall a :: 0 <= a < |x| && x[a] != y[a] ==> t[a] == t'[a]
    ensures Sum(|x|, k => Slope(t, x, w, k)) - Sum(|y|, k => Slope(t, y, w, k))
         == Sum(|x|, k => Slope(t', x, w, k)) - Sum(|y|, k => Slope(t', y, w, k))
  {
    var n := |x|;
    var fx, fy, gx, gy := k => Slope(t, x, w, k), k => Slope(t, y, w, k), k => Slope(t', x, w, k),
      k => Slope(t', y, w, k);
    var d, e := k => fx(k) - fy(k), k => gx(k) - gy(k);
    forall k | 0 <= k < n ensures d(k) == e(k) {
      if x[k] == y[k] { assert fx(k) == fy(k) && gx(k) == gy(k); }
    }
    SumLinear(n, fx, -1, fy, d);
    SumLinear(n, gx, -1, gy, e);
    SumExt(n, d, e);
  }

  // maps that agree on the varying axes and at one sample agree at every sample
  lemma AgreeEverywhere(S: seq<Sample>, n: nat, o: nat, base: Poly, stride: seq<Poly>, base': Poly, stride': seq<Poly>)
    requires Points(S, n) && o < |S| && |stride| == |stride'| == n
    requires Reproduces(S, base', stride')
    requires S[o].val == AffineAt(base, stride, S[o].x)
    requires forall a :: 0 <= a < n && Varies(S, a) ==> stride[a] == stride'[a]
    ensures Reproduces(S, base, stride)
  {
    forall i | 0 <= i < |S| ensures S[i].val == AffineAt(base, stride, S[i].x) {
      var x, y := S[i].x, S[o].x;
      forall a | 0 <= a < n && x[a] != y[a] ensures stride[a] == stride'[a] { assert Varies(S, a); }
      forall w: Mono ensures Coef(S[i].val, w) == Coef(AffineAt(base, stride, x), w) {
        SameDisplacement(stride, stride', x, y, w);
        AffineCoef(base, stride, x, w);
        AffineCoef(base, stride, y, w);
        AffineCoef(base', stride', x, w);
        AffineCoef(base', stride', y, w);
        assert S[o].val == AffineAt(base', stride', y) && S[i].val == AffineAt(base', stride', x);
      }
      PolyEq(S[i].val, AffineAt(base, stride, x));
    }
  }

  // ---- exact division of a polynomial by an integer

  method DivideExactly(p: Poly, k: int) returns (exact: bool, q: Poly)
    requires k != 0
    ensures exact <==> exists r: Poly :: Scale(k, r) == p
    ensures exact ==> Scale(k, q) == p
  {
    q := map[];
    var todo := p.Keys;
    while todo != {}
      invariant todo <= p.Keys
      invariant forall w: Mono :: k * Coef(q, w) == if w in todo then 0 else Coef(p, w)
    {
      var m :| m in todo;
      var c := TruncDiv(p[m], k);
      if p[m] - c * k != 0 {
        forall r: Poly ensures Scale(k, r) != p { NotMultiple(p[m], k, Coef(r, m)); }
        return false, map[];
      }
      assert c != 0;
      q := q[m := c];
      todo := todo - {m};
    }
    PolyEq(Scale(k, q), p);
    exact := true;
  }

  lemma NotMultiple(c: int, k: int, z: int)
    requires k != 0 && c - TruncDiv(c, k) * k != 0
    ensures k * z != c
  {
    if k * z == c {
      TruncRemainder(c, k);
      var e := z - TruncDiv(c, k);
      assert c - TruncDiv(c, k) * k == k * e;
      SmallMultiple(k, e);
    }
  }

  lemma SmallMultiple(k: int, e: int)
    requires k != 0 && Abs(k * e) < Abs(k)
    ensures k * e == 0
  {
    if e != 0 { AtLeast(Abs(k), Abs(e)); AbsProduct(k, e); }
  }

  lemma AtLeast(k: nat, e: nat)
    requires e >= 1
    ensures k * e >= k
  {
  }

  lemma AbsProduct(k: int, e: int)
    ensures Abs(k * e) == Abs(k) * Abs(e)
  {
  }

  // ---- the fit

  // the pair (i, j) differs on axis a alone and gives it the stride t
  ghost predicate Gives(S: seq<Sample>, i: int, j: int, a: nat, t: Poly) {
    AxisPair(S, i, j, a) && Scale(S[j].x[a] - S[i].x[a], t) == Subtract(S[j].val, S[i].val)
  }

  ghost predicate StrideFound(S: seq<Sample>, a: nat, have: bool, t: Poly) {
    if have then exists i, j :: Gives(S, i, j, a, t)
    else forall i, j, r: Poly :: !Gives(S, i, j, a, r)
  }

  // the first pair of samples that differ on axis a alone by an exact multiple of the coordinate difference
  method FindStride(S: seq<Sample>, n: nat, a: nat) returns (have: bool, t: Poly)
    requires Points(S, n) && a < n
    ensures StrideFound(S, a, have, t)
  {
    have, t := false, map[];
    for i := 0 to |S|
      invariant forall i', j, r: Poly :: 0 <= i' < i ==> !Gives(S, i', j, a, r)
    {
      for j := 0 to |S|
        invariant forall j', r: Poly :: 0 <= j' < j ==> !Gives(S, i, j', a, r)
      {
        if i != j && OneAxis(S[i].x, S[j].x, a) {
          var exact, q := DivideExactly(Subtract(S[j].val, S[i].val), S[j].x[a] - S[i].x[a]);
          if exact {
            assert Gives(S, i, j, a, q);
            return true, q;
          }
        }
      }
    }
  }

  // base + sum of the moving axes, as the verification loop accumulates it
  method Predict(base: Poly, stride: seq<Poly>, x: seq<int>) returns (pred: Poly)
    requires |stride| == |x|
    ensures pred == AffineAt(base, stride, x)
  {
    hide PolySum, Add, Scale, Move;
    pred := base;
    ghost var f := Move(stride, x);
    PolySumNext(base, 0, f);
    for a := 0 to |x|
      invariant pred == Add(base, PolySum(a, f))
    {
      PolySumNext(base, a, f);
      MoveOf(stride, x, a);
      AddZero(pred);
      if stride[a] != map[] && x[a] != 0 { pred := Add(pred, Scale(x[a], stride[a])); }
    }
  }

  // an axis that does not move adds nothing
  lemma MoveOf(stride: seq<Poly>, x: seq<int>, a: nat)
    requires a < |x| == |stride|
    ensures Move(stride, x)(a) == Scale(x[a], stride[a])
    ensures stride[a] == map[] || x[a] == 0 ==> Scale(x[a], stride[a]) == map[]
  {
    if stride[a] == map[] || x[a] == 0 { PolyEq(Scale(x[a], stride[a]), map[]); }
  }

  // the value left at x = 0 under the given strides
  ghost function Residual(stride: seq<Poly>, s: Sample): Poly {
    Subtract(s.val, PolySum(|s.x|, Move(stride, s.x)))
  }

  lemma ResidualAffine(stride: seq<Poly>, s: Sample)
    ensures s.val == AffineAt(Residual(stride, s), stride, s.x)
  {
    PolyEq(s.val, AffineAt(Residual(stride, s), stride, s.x));
  }

  method FindOrigin(s: Sample, stride: seq<Poly>) returns (base: Poly)
    requires |stride| == |s.x|
    ensures base == Residual(stride, s)
  {
    hide Subtract, Add, Scale, Move;
    base := s.val;
    ghost var f := Move(stride, s.x);
    SubtractNothing(base);
    for a := 0 to |s.x|
      invariant base == Subtract(s.val, PolySum(a, f))
    {
      SubtractMore(s.val, PolySum(a, f), f(a));
      SubtractNothing(base);
      MoveOf(stride, s.x, a);
      if stride[a] != map[] && s.x[a] != 0 { base := Subtract(base, Scale(s.x[a], stride[a])); }
    }
  }

  lemma SubtractNothing(p: Poly)
    ensures Subtract(p, map[]) == p
  {
    PolyEq(Subtract(p, map[]), p);
  }

  lemma SubtractMore(v: Poly, p: Poly, q: Poly)
    ensures Subtract(Subtract(v, p), q) == Subtract(v, Add(p, q))
  {
    hide Subtract, Add;
    PolyEq(Subtract(Subtract(v, p), q), Subtract(v, Add(p, q)));
  }

  // an isolating pair of an affine sample set gives the axis its stride
  lemma PairGivesStride(S: seq<Sample>, base: Poly, stride: seq<Poly>, i: nat, j: nat, a: nat)
    requires AxisPair(S, i, j, a) && |stride| == |S[i].x| && Reproduces(S, base, stride)
    ensures Gives(S, i, j, a, stride[a])
  {
    AxisDifference(base, stride, S[i].x, S[j].x, a);
  }

  lemma GivesOne(S: seq<Sample>, i: nat, j: nat, a: nat, t: Poly, t': Poly)
    requires Gives(S, i, j, a, t) && Gives(S, i, j, a, t')
    ensures t == t'
  {
    ScaleCancel(S[j].x[a] - S[i].x[a], t, t');
  }

  // no usable pair on a varying axis: the samples are not affine, or no pair isolates the axis
  lemma UnderSampled(S: seq<Sample>, n: nat, a: nat)
    requires Points(S, n) && a < n && StrideFound(S, a, false, map[]) && Varies(S, a)
    ensures !(IsAffine(S, n) && WellSampled(S, n))
  {
    if IsAffine(S, n) && WellSampled(S, n) {
      var base, stride :| |stride| == n && Reproduces(S, base, stride);
      var i, j :| AxisPair(S, i, j, a);
      hide *;
      PairGivesStride(S, base, stride, i, j, a);
    }
  }

  ghost predicate StridesFound(S: seq<Sample>, n: nat, have: seq<bool>, stride: seq<Poly>) {
    && |have| == |stride| == n
    && (forall b :: 0 <= b < n && have[b] ==> StrideFound(S, b, true, stride[b]))
    && (forall b :: 0 <= b < n && !have[b] ==> !Varies(S, b))
  }

  lemma FoundIsSampled(S: seq<Sample>, n: nat, have: seq<bool>, stride: seq<Poly>)
    requires Points(S, n) && StridesFound(S, n, have, stride)
    ensures WellSampled(S, n)
  {
    forall a | 0 <= a < n && Varies(S, a) ensures exists i, j :: AxisPair(S, i, j, a) {
      assert StrideFound(S, a, true, stride[a]);
      var i, j :| Gives(S, i, j, a, stride[a]);
    }
  }

  // any affine reproduction has the strides the pairs gave
  lemma StridesAgree(S: seq<Sample>, n: nat, have: seq<bool>, stride: seq<Poly>, base': Poly, stride': seq<Poly>)
    requires Points(S, n) && StridesFound(S, n, have, stride) && |stride'| == n
    requires Reproduces(S, base', stride')
    ensures forall a :: 0 <= a < n && Varies(S, a) ==> stride[a] == stride'[a]
  {
    forall a | 0 <= a < n && Varies(S, a) ensures stride[a] == stride'[a] {
      assert StrideFound(S, a, true, stride[a]);
      var i, j :| Gives(S, i, j, a, stride[a]);
      hide *;
      PairGivesStride(S, base', stride', i, j, a);
      GivesOne(S, i, j, a, stride[a], stride'[a]);
    }
  }

  // a prediction that misses a sample shows that no affine map exists
  lemma Refuted(S: seq<Sample>, n: nat, have: seq<bool>, stride: seq<Poly>, o: nat, base: Poly, i: nat)
    requires Points(S, n) && StridesFound(S, n, have, stride) && o < |S| && i < |S|
    requires S[o].val == AffineAt(base, stride, S[o].x) && S[i].val != AffineAt(base, stride, S[i].x)
    ensures !IsAffine(S, n)
  {
    if IsAffine(S, n) {
      var b', t' :| |t'| == n && Reproduces(S, b', t');
      StridesAgree(S, n, have, stride, b', t');
      AgreeEverywhere(S, n, o, base, stride, b', t');
    }
  }

  // one stride per axis: from a pair when one isolates it, null when the axis does not vary
  method FindStrides(S: seq<Sample>, n: nat, o: nat) returns (ok: bool, ghost have: seq<bool>, stride: seq<Poly>)
    requires Points(S, n) && o < |S|
    ensures ok ==> |stride| == n
    ensures ok ==> StridesFound(S, n, have, stride)
    ensures !ok ==> !(IsAffine(S, n) && WellSampled(S, n))
  {
    ok, stride, have := true, [], [];
    for a := 0 to n
      invariant StridesFound(S, a, have, stride)
    {
      var h, t := FindStride(S, n, a);
      if !h {
        if exists i :: 0 <= i < |S| && S[i].x[a] != S[o].x[a] {
          UnderSampled(S, n, a);
          return false, have, stride;
        }
        t := map[];
      }
      stride, have := stride + [t], have + [h];
    }
  }

  // the final loop of the fit: every sample is re-evaluated against the map
  method CheckSamples(S: seq<Sample>, n: nat, base: Poly, stride: seq<Poly>) returns (ok: bool, bad: nat)
    requires Points(S, n) && |stride| == n
    ensures ok <==> Reproduces(S, base, stride)
    ensures !ok ==> bad < |S| && S[bad].val != AffineAt(base, stride, S[bad].x)
  {
    hide AffineAt;
    bad := 0;
    while bad < |S|
      invariant bad <= |S|
      invariant forall k :: 0 <= k < bad ==> S[k].val == AffineAt(base, stride, S[k].x)
    {
      var pred := Predict(base, stride, S[bad].x);
      if pred != S[bad].val { return false, bad; }
      bad := bad + 1;
    }
    ok := true;
  }

  // The fit reproduces every sample, and succeeds exactly when the samples are affine and well sampled.
  method Fit(S: seq<Sample>, n: nat) returns (ok: bool, base: Poly, stride: seq<Poly>)
    requires Points(S, n)
    ensures ok ==> |stride| == n && Reproduces(S, base, stride)
    ensures ok <==> S != [] && IsAffine(S, n) && WellSampled(S, n)
  {
    hide Reproduces, StridesFound, WellSampled, AffineAt;
    ok, base, stride := false, map[], [];
    if S == [] { return; }
    var o := 0;
    for i := 1 to |S|
      invariant o < |S|
    {
      if LexLess(S[i].x, S[o].x) { o := i; }
    }
    var found; ghost var have;
    found, have, stride := FindStrides(S, n, o);
    if !found { return; }
    FoundIsSampled(S, n, have, stride);
    base := FindOrigin(S[o], stride);
    ResidualAffine(stride, S[o]);
    var bad;
    ok, bad := CheckSamples(S, n, base, stride);
    if !ok { Refuted(S, n, have, stride, o, base, bad); }
  }

  // ---- families

  predicate UnitStep(x: seq<int>, y: seq<int>, a: nat)
    requires |x| == |y|
  {
    a < |x| && y[a] - x[a] == 1 && forall b :: 0 <= b < |x| && b != a ==> x[b] == y[b]
  }

  ghost function VoteOf(S: seq<Sample>, a: nat, d: Poly, i: nat, j: nat): nat {
    if i < |S| && j < |S| && |S[i].x| == |S[j].x| && UnitStep(S[i].x, S[j].x, a) && Subtract(S[j].val, S[i].val) == d
    then 1 else 0
  }

  // ordered pairs one step apart on axis a alone whose values differ by d: rows before i, and row i before j
  ghost function VotesTo(S: seq<Sample>, a: nat, d: Poly, i: nat, j: nat): nat
    decreases i, j
  {
    if j > 0 then VotesTo(S, a, d, i, j - 1) + VoteOf(S, a, d, i, j - 1)
    else if i > 0 then VotesTo(S, a, d, i - 1, |S|)
    else 0
  }

  ghost function Votes(S: seq<Sample>, a: nat, d: Poly): nat { VotesTo(S, a, d, |S|, 0) }

  function Tally(votes: map<Poly, nat>, d: Poly): nat { if d in votes then votes[d] else 0 }

  method CountVotes(S: seq<Sample>, n: nat, a: nat) returns (votes: map<Poly, nat>)
    requires Points(S, n) && a < n
    ensures forall d: Poly :: Tally(votes, d) == Votes(S, a, d)
    ensures forall d :: d in votes ==> votes[d] > 0
  {
    votes := map[];
    for i := 0 to |S|
      invariant forall d: Poly :: Tally(votes, d) == VotesTo(S, a, d, i, 0)
      invariant forall d :: d in votes ==> votes[d] > 0
    {
      for j := 0 to |S|
        invariant forall d: Poly :: Tally(votes, d) == VotesTo(S, a, d, i, j)
        invariant forall d :: d in votes ==> votes[d] > 0
      {
        if i != j && UnitStep(S[i].x, S[j].x, a) {
          var d := Subtract(S[j].val, S[i].val);
          votes := votes[d := Tally(votes, d) + 1];
        }
      }
    }
  }

  // the most voted difference, the smallest id winning ties; null without votes
  ghost predicate Elected(S: seq<Sample>, a: nat, id: Poly -> nat, best: Option<Poly>) {
    match best
    case None => forall d: Poly :: Votes(S, a, d) == 0
    case Some(t) =>
      && Votes(S, a, t) > 0
      && forall d: Poly :: Votes(S, a, d) < Votes(S, a, t) || (Votes(S, a, d) == Votes(S, a, t) && id(t) <= id(d))
  }

  method Elect(S: seq<Sample>, n: nat, a: nat, id: Poly -> nat) returns (best: Option<Poly>)
    requires Points(S, n) && a < n
    ensures Elected(S, a, id, best)
  {
    var votes := CountVotes(S, n, a);
    best := None;
    var bestN := 0;
    var todo := votes.Keys;
    while todo != {}
      invariant todo <= votes.Keys
      invariant best.None? ==> todo == votes.Keys && bestN == 0
      invariant best.Some? ==> best.value in votes && bestN == votes[best.value]
      invariant best.Some? ==> forall d :: d in votes && d !in todo ==>
        votes[d] < bestN || (votes[d] == bestN && id(best.value) <= id(d))
    {
      var d :| d in todo;
      if votes[d] > bestN || (votes[d] == bestN && best.Some? && id(d) < id(best.value)) {
        best, bestN := Some(d), votes[d];
      }
      todo := todo - {d};
    }
    if best.Some? {
      forall d: Poly ensures Votes(S, a, d) < bestN || (Votes(S, a, d) == bestN && id(best.value) <= id(d)) {
        assert Tally(votes, d) == Votes(S, a, d);
      }
      assert Tally(votes, best.value) == Votes(S, a, best.value);
    } else {
      forall d: Poly ensures Votes(S, a, d) == 0 { assert Tally(votes, d) == Votes(S, a, d); }
    }
  }

  // the samples with residual r, in their order
  ghost function Select(S: seq<Sample>, stride: seq<Poly>, r: Poly): seq<Sample> {
    if S == [] then []
    else
      var s := S[|S| - 1];
      Select(S[..|S| - 1], stride, r) + (if Residual(stride, s) == r then [s] else [])
  }

  lemma SelectNone(stride: seq<Poly>, r: Poly)
    ensures Select([], stride, r) == []
  {
  }

  lemma SelectNext(S: seq<Sample>, s: Sample, stride: seq<Poly>, r: Poly)
    ensures Select(S + [s], stride, r) == Select(S, stride, r) + if Residual(stride, s) == r then [s] else []
  {
    assert (S + [s])[..|S|] == S;
  }

  // one family per residual, in order of first appearance
  ghost predicate IsSplit(S: seq<Sample>, stride: seq<Poly>, order: seq<Poly>, fams: seq<seq<Sample>>) {
    && |fams| == |order|
    && (forall k :: 0 <= k < |order| ==> fams[k] == Select(S, stride, order[k]) && fams[k] != [])
    && (forall k, l :: 0 <= k < l < |order| ==> order[k] != order[l])
    && (forall i :: 0 <= i < |S| ==> Residual(stride, S[i]) in order)
  }

  function OrNull(best: Option<Poly>): Poly { if best.Some? then best.value else map[] }

  ghost predicate ElectedStride(S: seq<Sample>, a: nat, id: Poly -> nat, t: Poly) {
    exists best :: Elected(S, a, id, best) && t == OrNull(best)
  }

  ghost predicate Elections(S: seq<Sample>, id: Poly -> nat, stride: seq<Poly>) {
    forall a :: 0 <= a < |stride| ==> ElectedStride(S, a, id, stride[a])
  }

  method SplitFamilies(S: seq<Sample>, n: nat, id: Poly -> nat)
    returns (fams: seq<seq<Sample>>, ghost stride: seq<Poly>, ghost order: seq<Poly>)
    requires Points(S, n)
    ensures |S| <= 1 || (IsAffine(S, n) && WellSampled(S, n)) ==> fams == [S]
    ensures |S| > 1 && !(IsAffine(S, n) && WellSampled(S, n)) ==>
      |stride| == n && Elections(S, id, stride) && IsSplit(S, stride, order, fams)
  {
    stride, order := [], [];
    if |S| <= 1 { return [S], [], []; }
    var ok, base, t := Fit(S, n);
    if ok { return [S], [], []; }
    var st: seq<Poly> := [];
    for a := 0 to n
      invariant |st| == a && Elections(S, id, st)
    {
      var best := Elect(S, n, a, id);
      assert ElectedStride(S, a, id, OrNull(best));
      st := st + [OrNull(best)];
    }
    fams, order := GroupByResidual(S, n, st);
    stride := st;
  }

  // the samples grouped by what the elected strides leave of them, in order of first appearance
  ghost predicate Grouped(S: seq<Sample>, st: seq<Poly>, groups: map<Poly, seq<Sample>>, order: seq<Poly>) {
    && (forall r :: r in groups <==> r in order)
    && (forall r :: r in groups ==> groups[r] == Select(S, st, r) && groups[r] != [])
    && (forall r: Poly :: r !in groups ==> Select(S, st, r) == [])
    && (forall k, l :: 0 <= k < l < |order| ==> order[k] != order[l])
    && (forall k :: 0 <= k < |S| ==> Residual(st, S[k]) in order)
  }

  lemma GroupNext(S: seq<Sample>, s: Sample, st: seq<Poly>, groups: map<Poly, seq<Sample>>, order: seq<Poly>)
    requires Grouped(S, st, groups, order)
    ensures var r := Residual(st, s);
      if r in groups then Grouped(S + [s], st, groups[r := groups[r] + [s]], order)
        else Grouped(S + [s], st, groups[r := [s]], order + [r])
  {
    hide Residual, Select;
    forall q: Poly ensures Select(S + [s], st, q) == Select(S, st, q) + if Residual(st, s) == q then [s] else [] {
      SelectNext(S, s, st, q);
    }
  }

  lemma NothingGrouped(st: seq<Poly>)
    ensures Grouped([], st, map[], [])
  {
    forall r: Poly ensures Select([], st, r) == [] { SelectNone(st, r); }
  }

  lemma GroupsSplit(S: seq<Sample>, st: seq<Poly>, groups: map<Poly, seq<Sample>>, order: seq<Poly>,
      fams: seq<seq<Sample>>)
    requires Grouped(S, st, groups, order) && |fams| == |order|
    requires forall l :: 0 <= l < |order| ==> order[l] in groups && fams[l] == groups[order[l]]
    ensures IsSplit(S, st, order, fams)
  {
    hide Residual, Select;
  }

  lemma OrderGrouped(S: seq<Sample>, st: seq<Poly>, groups: map<Poly, seq<Sample>>, order: seq<Poly>)
    requires Grouped(S, st, groups, order)
    ensures forall k :: 0 <= k < |order| ==> order[k] in groups
  {
    hide Residual, Select;
  }

  method GroupByResidual(S: seq<Sample>, n: nat, st: seq<Poly>) returns (fams: seq<seq<Sample>>, order: seq<Poly>)
    requires Points(S, n) && |st| == n
    ensures IsSplit(S, st, order, fams)
  {
    hide Residual, Select, Grouped, IsSplit;
    var groups: map<Poly, seq<Sample>> := map[];
    order := [];
    NothingGrouped(st);
    for i := 0 to |S|
      invariant Grouped(S[..i], st, groups, order)
    {
      assert S[..i + 1] == S[..i] + [S[i]];
      GroupNext(S[..i], S[i], st, groups, order);
      var r := FindOrigin(S[i], st);
      if r !in groups {
        order := order + [r];
        groups := groups[r := [S[i]]];
      } else {
        groups := groups[r := groups[r] + [S[i]]];
      }
    }
    assert S[..|S|] == S;
    OrderGrouped(S, st, groups, order);
    fams := [];
    for k := 0 to |order|
      invariant |fams| == k
      invariant forall l :: 0 <= l < k ==> fams[l] == groups[order[l]]
    {
      fams := fams + [groups[order[k]]];
    }
    GroupsSplit(S, st, groups, order, fams);
  }

  ghost function Pool(fams: seq<seq<Sample>>): multiset<Sample> {
    if fams == [] then multiset{} else Pool(fams[..|fams| - 1]) + multiset(fams[|fams| - 1])
  }

  lemma {:induction false} PoolOne(S: seq<Sample>, s: Sample, stride: seq<Poly>, order: seq<Poly>,
      fams: seq<seq<Sample>>, more: seq<seq<Sample>>)
    requires |fams| == |order| == |more|
    requires forall k, l :: 0 <= k < l < |order| ==> order[k] != order[l]
    requires forall k :: 0 <= k < |order| ==>
      fams[k] == Select(S, stride, order[k]) && more[k] == Select(S + [s], stride, order[k])
    ensures Pool(more) == Pool(fams) + if Residual(stride, s) in order then multiset{s} else multiset{}
  {
    hide Residual, Select;
    if order != [] {
      var m := |order| - 1;
      assert order == order[..m] + [order[m]];
      PoolOne(S, s, stride, order[..m], fams[..m], more[..m]);
      SelectNext(S, s, stride, order[m]);
    }
  }

  lemma {:induction false} PoolEmpty(fams: seq<seq<Sample>>)
    requires forall k :: 0 <= k < |fams| ==> fams[k] == []
    ensures Pool(fams) == multiset{}
  {
    if fams != [] { PoolEmpty(fams[..|fams| - 1]); }
  }

  lemma NothingSelected(stride: seq<Poly>, order: seq<Poly>, fams: seq<seq<Sample>>)
    requires |fams| == |order| && forall k :: 0 <= k < |order| ==> fams[k] == Select([], stride, order[k])
    ensures forall k :: 0 <= k < |fams| ==> fams[k] == []
  {
    forall k | 0 <= k < |fams| ensures fams[k] == [] { SelectNone(stride, order[k]); }
  }

  lemma {:induction false} PoolAll(S: seq<Sample>, stride: seq<Poly>, order: seq<Poly>, fams: seq<seq<Sample>>)
    requires |fams| == |order| && forall k :: 0 <= k < |order| ==> fams[k] == Select(S, stride, order[k])
    requires forall k, l :: 0 <= k < l < |order| ==> order[k] != order[l]
    requires forall i :: 0 <= i < |S| ==> Residual(stride, S[i]) in order
    ensures Pool(fams) == multiset(S)
  {
    hide *;
    if S == [] {
      NothingSelected(stride, order, fams);
      PoolEmpty(fams);
    } else {
      var m := |S| - 1;
      var init, s := S[..m], S[m];
      assert S == init + [s];
      var less := seq(|order|, k requires 0 <= k < |order| => Select(init, stride, order[k]));
      PoolAll(init, stride, order, less);
      PoolOne(init, s, stride, order, less, fams);
    }
  }

  // the families partition the samples, and each is affine in its points with the elected strides
  lemma FamiliesPartition(S: seq<Sample>, n: nat, stride: seq<Poly>, order: seq<Poly>, fams: seq<seq<Sample>>)
    requires Points(S, n) && |stride| == n && IsSplit(S, stride, order, fams)
    ensures Pool(fams) == multiset(S)
    ensures forall k :: 0 <= k < |fams| ==>
      Points(fams[k], n) && Reproduces(fams[k], order[k], stride) && IsAffine(fams[k], n)
  {
    PoolAll(S, stride, order, fams);
    forall k | 0 <= k < |fams|
      ensures Points(fams[k], n) && Reproduces(fams[k], order[k], stride) && IsAffine(fams[k], n)
    {
      SelectAffine(S, n, stride, order[k]);
    }
  }

  lemma {:induction false} SelectAffine(S: seq<Sample>, n: nat, stride: seq<Poly>, r: Poly)
    requires Points(S, n) && |stride| == n
    ensures Points(Select(S, stride, r), n) && Reproduces(Select(S, stride, r), r, stride)
  {
    if S != [] {
      SelectAffine(S[..|S| - 1], n, stride, r);
      ResidualAffine(stride, S[|S| - 1]);
    }
  }
}
