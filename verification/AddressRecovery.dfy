// Address recovery of one access: its samples are split off the derived quantities and fitted, and once the coordinates
// and the tensor's dimensions are known, the round trip of every one of them succeeds.
module AddressRecovery {
  import opened Options
  import opened LinearAlgebra
  import opened Polynomials
  import opened AffineFit
  import opened TileIR
  import opened RoundTrip
  import C = Coordinates

  // ---- splitting off the derived quantities

  ghost function DerivedCount(m: Mono, datom: seq<nat>): nat {
    if datom == [] then 0 else DerivedCount(m, datom[..|datom| - 1]) + m[datom[|datom| - 1]]
  }

  // at most one derived factor per term
  ghost predicate Splittable(p: Poly, datom: seq<nat>) {
    forall m :: m in p ==> DerivedCount(m, datom) <= 1
  }

  // the derived atom of a monomial, |datom| when there is none
  method WhichDerived(m: Mono, datom: seq<nat>) returns (ok: bool, which: nat)
    ensures ok <==> DerivedCount(m, datom) <= 1
    ensures ok ==> which <= |datom| && if which < |datom| then datom[which] in m else DerivedCount(m, datom) == 0
  {
    which := |datom|;
    ghost var count := 0;
    for q := 0 to |datom|
      invariant count == DerivedCount(m, datom[..q]) <= 1
      invariant which == |datom| ==> count == 0
      invariant which < |datom| ==> count == 1 && which < q && datom[which] in m
      invariant which <= |datom|
    {
      assert datom[..q + 1][..q] == datom[..q];
      if m[datom[q]] > 0 {
        count := count + m[datom[q]];
        if which < |datom| || m[datom[q]] > 1 {
          MoreDerived(m, datom, q + 1);
          return false, 0;
        }
        which := q;
      }
    }
    assert datom[..|datom|] == datom;
    ok := true;
  }

  lemma {:induction false} MoreDerived(m: Mono, datom: seq<nat>, q: nat)
    requires q <= |datom|
    ensures DerivedCount(m, datom[..q]) <= DerivedCount(m, datom)
    decreases |datom|
  {
    if q < |datom| {
      MoreDerived(m, datom[..|datom| - 1], q);
      assert datom[..|datom| - 1][..q] == datom[..q];
    } else {
      assert datom[..q] == datom;
    }
  }

  lemma DerivedBump(dstride: seq<Poly>, datom: seq<nat>, q: nat, v: Mono, c: int, w: Mono, more: seq<Poly>)
    requires |datom| == |dstride| && q < |dstride| && more == dstride[q := Add(dstride[q], Single(v, c))]
    ensures Coef(DerivedSum(more, datom), w)
      == Coef(DerivedSum(dstride, datom), w) + if w == v + multiset{datom[q]} then c else 0
  {
    var n := |dstride|;
    DerivedCoef(dstride, datom, w);
    DerivedCoef(more, datom, w);
    forall k | 0 <= k < n
      ensures DerivedTerm(more, datom, w, k) - DerivedTerm(dstride, datom, w, k)
        == if k == q && w == v + multiset{datom[q]} then c else 0
    {
      TermBump(dstride, datom, q, v, c, w, more, k);
    }
    hide *;
    var a, b := k => DerivedTerm(dstride, datom, w, k), k => DerivedTerm(more, datom, w, k);
    var d := k => b(k) - a(k);
    SumLinear(n, b, -1, a, d);
    SumSingle(n, q, d);
  }

  lemma TermBump(dstride: seq<Poly>, datom: seq<nat>, q: nat, v: Mono, c: int, w: Mono, more: seq<Poly>, k: nat)
    requires |datom| == |dstride| && q < |dstride| && k < |dstride|
      && more == dstride[q := Add(dstride[q], Single(v, c))]
    ensures DerivedTerm(more, datom, w, k) - DerivedTerm(dstride, datom, w, k)
        == if k == q && w == v + multiset{datom[q]} then c else 0
  {
    AtomBack(w, datom[q]);
  }

  lemma AtomBack(m: Mono, d: nat)
    ensures d in m ==> multiset{d} <= m && m - multiset{d} + multiset{d} == m
  {
  }

  ghost function DerivedTerm(dstride: seq<Poly>, datom: seq<nat>, w: Mono, k: int): int {
    if 0 <= k < |dstride| && k < |datom| && multiset{datom[k]} <= w then Coef(dstride[k], w - multiset{datom[k]}) else 0
  }

  lemma DerivedCoef(dstride: seq<Poly>, datom: seq<nat>, w: Mono)
    requires |datom| == |dstride|
    ensures Coef(DerivedSum(dstride, datom), w) == Sum(|dstride|, k => DerivedTerm(dstride, datom, w, k))
  {
    var f := DerivedTerms(dstride, datom);
    PolySumCoef(|dstride|, f, w);
    SumExt(|dstride|, k => Coef(f(k), w), k => DerivedTerm(dstride, datom, w, k));
  }

  // ---- the split is unique

  ghost predicate DistinctAtoms(datom: seq<nat>) {
    forall i, j :: 0 <= i < j < |datom| ==> datom[i] != datom[j]
  }

  // no term of p has a derived factor
  ghost predicate Underived(p: Poly, datom: seq<nat>) {
    forall m: Mono :: DerivedCount(m, datom) != 0 ==> Coef(p, m) == 0
  }

  ghost predicate AllUnderived(ps: seq<Poly>, datom: seq<nat>) {
    forall q :: 0 <= q < |ps| ==> Underived(ps[q], datom)
  }

  // p = rest + sum_q coef_q * d_q with no derived factor in the parts
  ghost predicate IsSplitOf(p: Poly, datom: seq<nat>, rest: Poly, coef: seq<Poly>) {
    |coef| == |datom| && Underived(rest, datom) && AllUnderived(coef, datom) && p == Add(rest, DerivedSum(coef, datom))
  }

  lemma {:induction false} CountZero(m: Mono, datom: seq<nat>, k: nat)
    requires k < |datom|
    ensures datom[k] in m ==> DerivedCount(m, datom) > 0
    decreases |datom|
  {
    if k < |datom| - 1 { CountZero(m, datom[..|datom| - 1], k); }
  }

  // one more derived factor
  lemma {:induction false} CountMore(v: Mono, datom: seq<nat>, d: nat)
    ensures DerivedCount(v + multiset{d}, datom) >= DerivedCount(v, datom)
    ensures d in datom ==> DerivedCount(v + multiset{d}, datom) > DerivedCount(v, datom)
    ensures d !in datom ==> DerivedCount(v + multiset{d}, datom) == DerivedCount(v, datom)
    ensures DistinctAtoms(datom) ==> DerivedCount(v + multiset{d}, datom) <= DerivedCount(v, datom) + 1
  {
    if datom != [] {
      var n := |datom| - 1;
      CountMore(v, datom[..n], d);
      assert datom == datom[..n] + [datom[n]];
      if DistinctAtoms(datom) && datom[n] == d { assert d !in datom[..n]; }
    }
  }

  // a term with one derived factor has the coefficient of that factor's part
  lemma DerivedAt(coef: seq<Poly>, datom: seq<nat>, k: nat, v: Mono)
    requires |coef| == |datom| && k < |datom| && DistinctAtoms(datom) && DerivedCount(v, datom) == 0
    ensures Coef(DerivedSum(coef, datom), v + multiset{datom[k]}) == Coef(coef[k], v)
  {
    hide *;
    var w := v + multiset{datom[k]};
    var t := q => DerivedTerm(coef, datom, w, q);
    DerivedCoef(coef, datom, w);
    forall q | 0 <= q < |coef| ensures t(q) == if q == k then Coef(coef[k], v) else 0 { TermAt(coef, datom, k, v, q); }
    SumSingle(|coef|, k, t);
  }

  lemma TermAt(coef: seq<Poly>, datom: seq<nat>, k: nat, v: Mono, q: nat)
    requires |coef| == |datom| && k < |datom| && q < |datom| && DistinctAtoms(datom) && DerivedCount(v, datom) == 0
    ensures DerivedTerm(coef, datom, v + multiset{datom[k]}, q) == if q == k then Coef(coef[k], v) else 0
  {
    CountZero(v, datom, q);
    assert v + multiset{datom[k]} - multiset{datom[k]} == v;
  }

  lemma DerivedNowhere(coef: seq<Poly>, datom: seq<nat>, w: Mono)
    requires |coef| == |datom| && DerivedCount(w, datom) == 0
    ensures Coef(DerivedSum(coef, datom), w) == 0
  {
    var t := q => DerivedTerm(coef, datom, w, q);
    DerivedCoef(coef, datom, w);
    forall q | 0 <= q < |coef| ensures t(q) == 0 { CountZero(w, datom, q); }
    hide DerivedTerm, DerivedSum;
    SumZero(|coef|, t);
  }

  lemma RestUnique(p: Poly, datom: seq<nat>, rest: Poly, coef: seq<Poly>, w: Mono)
    requires IsSplitOf(p, datom, rest, coef)
    ensures Coef(rest, w) == if DerivedCount(w, datom) == 0 then Coef(p, w) else 0
  {
    hide DerivedSum;
    if DerivedCount(w, datom) == 0 { DerivedNowhere(coef, datom, w); }
  }

  lemma CoefUnique(p: Poly, datom: seq<nat>, rest: Poly, coef: seq<Poly>, k: nat, v: Mono)
    requires DistinctAtoms(datom) && IsSplitOf(p, datom, rest, coef) && k < |datom|
    ensures Coef(coef[k], v) == if DerivedCount(v, datom) == 0 then Coef(p, v + multiset{datom[k]}) else 0
  {
    hide DerivedSum;
    if DerivedCount(v, datom) == 0 {
      DerivedAt(coef, datom, k, v);
      CountMore(v, datom, datom[k]);
    }
  }

  lemma SplitUnique(p: Poly, datom: seq<nat>, rest: Poly, coef: seq<Poly>, rest': Poly, coef': seq<Poly>)
    requires DistinctAtoms(datom) && IsSplitOf(p, datom, rest, coef) && IsSplitOf(p, datom, rest', coef')
    ensures rest == rest' && coef == coef'
  {
    forall w: Mono ensures Coef(rest, w) == Coef(rest', w) {
      RestUnique(p, datom, rest, coef, w);
      RestUnique(p, datom, rest', coef', w);
    }
    PolyEq(rest, rest');
    forall k | 0 <= k < |datom| ensures coef[k] == coef'[k] {
      forall v: Mono ensures Coef(coef[k], v) == Coef(coef'[k], v) {
        CoefUnique(p, datom, rest, coef, k, v);
        CoefUnique(p, datom, rest', coef', k, v);
      }
      PolyEq(coef[k], coef'[k]);
    }
  }

  // a sum of parts has at most one derived factor per term
  lemma SplitIsSplittable(p: Poly, datom: seq<nat>, rest: Poly, coef: seq<Poly>)
    requires DistinctAtoms(datom) && IsSplitOf(p, datom, rest, coef)
    ensures Splittable(p, datom)
  {
    forall m | m in p ensures DerivedCount(m, datom) <= 1 { DerivedTwice(coef, datom, m); }
  }

  lemma DerivedTwice(coef: seq<Poly>, datom: seq<nat>, w: Mono)
    requires |coef| == |datom| && DistinctAtoms(datom) && AllUnderived(coef, datom)
    ensures DerivedCount(w, datom) > 1 ==> Coef(DerivedSum(coef, datom), w) == 0
  {
    hide *;
    if DerivedCount(w, datom) > 1 {
      var t := q => DerivedTerm(coef, datom, w, q);
      DerivedCoef(coef, datom, w);
      forall q | 0 <= q < |coef| ensures t(q) == 0 { TermTwice(coef, datom, w, q); }
      SumZero(|coef|, t);
    }
  }

  lemma TermTwice(coef: seq<Poly>, datom: seq<nat>, w: Mono, q: nat)
    requires |coef| == |datom| && q < |datom| && DistinctAtoms(datom) && AllUnderived(coef, datom)
      && DerivedCount(w, datom) > 1
    ensures DerivedTerm(coef, datom, w, q) == 0
  {
    if multiset{datom[q]} <= w {
      AtomBack(w, datom[q]);
      CountMore(w - multiset{datom[q]}, datom, datom[q]);
      assert Underived(coef[q], datom);
    }
  }

  // the terms already split off
  ghost predicate SplitSoFar(p: Poly, datom: seq<nat>, todo: set<Mono>, rest: Poly, coef: seq<Poly>) {
    && |coef| == |datom| && todo <= p.Keys && Underived(rest, datom) && AllUnderived(coef, datom)
    && (forall m :: m in p && m !in todo ==> DerivedCount(m, datom) <= 1)
    && forall w: Mono :: Balanced(p, datom, todo, rest, coef, w)
  }

  ghost predicate Balanced(p: Poly, datom: seq<nat>, todo: set<Mono>, rest: Poly, coef: seq<Poly>, w: Mono)
    requires |coef| == |datom|
  {
    Coef(rest, w) + Coef(DerivedSum(coef, datom), w) == if w in todo then 0 else Coef(p, w)
  }

  lemma StepToDerived(p: Poly, datom: seq<nat>, todo: set<Mono>, rest: Poly, coef: seq<Poly>, m: Mono, q: nat,
      more: seq<Poly>)
    requires SplitSoFar(p, datom, todo, rest, coef) && m in todo && DerivedCount(m, datom) <= 1
    requires q < |datom| && datom[q] in m && more == coef[q := Add(coef[q], Single(m - multiset{datom[q]}, p[m]))]
    ensures SplitSoFar(p, datom, todo - {m}, rest, more)
  {
    PartUnderived(datom, m, q, coef[q], p[m]);
    forall w: Mono ensures Balanced(p, datom, todo - {m}, rest, more, w) {
      assert Balanced(p, datom, todo, rest, coef, w);
      BalanceDerived(p, datom, todo, rest, coef, m, q, more, w);
    }
  }

  lemma PartUnderived(datom: seq<nat>, m: Mono, q: nat, part: Poly, c: int)
    requires q < |datom| && datom[q] in m && DerivedCount(m, datom) <= 1 && Underived(part, datom)
    ensures Underived(Add(part, Single(m - multiset{datom[q]}, c)), datom)
  {
    var v := m - multiset{datom[q]};
    AtomBack(m, datom[q]);
    CountMore(v, datom, datom[q]);
  }

  lemma BalanceDerived(p: Poly, datom: seq<nat>, todo: set<Mono>, rest: Poly, coef: seq<Poly>, m: Mono, q: nat,
      more: seq<Poly>, w: Mono)
    requires |coef| == |datom| && m in todo && m in p && Balanced(p, datom, todo, rest, coef, w)
    requires q < |datom| && datom[q] in m && more == coef[q := Add(coef[q], Single(m - multiset{datom[q]}, p[m]))]
    ensures Balanced(p, datom, todo - {m}, rest, more, w)
  {
    var v := m - multiset{datom[q]};
    AtomBack(m, datom[q]);
    hide DerivedSum, Add, Single;
    DerivedBump(coef, datom, q, v, p[m], w, more);
  }

  lemma StepToRest(p: Poly, datom: seq<nat>, todo: set<Mono>, rest: Poly, coef: seq<Poly>, m: Mono)
    requires SplitSoFar(p, datom, todo, rest, coef) && m in todo && DerivedCount(m, datom) == 0
    ensures SplitSoFar(p, datom, todo - {m}, Add(rest, Single(m, p[m])), coef)
  {
    hide DerivedSum;
    forall w: Mono ensures Balanced(p, datom, todo - {m}, Add(rest, Single(m, p[m])), coef, w) {
      assert Balanced(p, datom, todo, rest, coef, w);
    }
  }

  lemma SplitEnds(p: Poly, datom: seq<nat>, rest: Poly, coef: seq<Poly>)
    requires |coef| == |datom|
    ensures rest == map[] && (forall q :: 0 <= q < |coef| ==> coef[q] == map[]) ==>
      SplitSoFar(p, datom, p.Keys, rest, coef)
    ensures SplitSoFar(p, datom, {}, rest, coef) ==> IsSplitOf(p, datom, rest, coef) && Splittable(p, datom)
  {
    if rest == map[] && (forall q :: 0 <= q < |coef| ==> coef[q] == map[]) { NothingDerived(coef, datom); }
    if SplitSoFar(p, datom, {}, rest, coef) {
      forall w: Mono ensures Coef(p, w) == Coef(Add(rest, DerivedSum(coef, datom)), w) {
        assert Balanced(p, datom, {}, rest, coef, w);
      }
      PolyEq(p, Add(rest, DerivedSum(coef, datom)));
    }
  }

  // p = rest + sum_q coef_q * d_q, or a product of derived quantities stops the split
  method SplitDerived(p: Poly, datom: seq<nat>) returns (ok: bool, rest: Poly, coef: seq<Poly>)
    ensures ok <==> Splittable(p, datom)
    ensures ok ==> IsSplitOf(p, datom, rest, coef)
  {
    rest, coef := map[], seq(|datom|, q => map[]);
    var todo := p.Keys;
    SplitEnds(p, datom, rest, coef);
    hide SplitSoFar;
    while todo != {}
      invariant todo <= p.Keys && |coef| == |datom| && SplitSoFar(p, datom, todo, rest, coef)
    {
      var m :| m in todo;
      var fits, q := WhichDerived(m, datom);
      if !fits { return false, map[], []; }
      if q < |datom| {
        var more := coef[q := Add(coef[q], Single(m - multiset{datom[q]}, p[m]))];
        StepToDerived(p, datom, todo, rest, coef, m, q, more);
        coef := more;
      } else {
        StepToRest(p, datom, todo, rest, coef, m);
        rest := Add(rest, Single(m, p[m]));
      }
      todo := todo - {m};
    }
    SplitEnds(p, datom, rest, coef);
    ok := true;
  }

  lemma NothingDerived(coef: seq<Poly>, datom: seq<nat>)
    requires |coef| == |datom| && forall q :: 0 <= q < |coef| ==> coef[q] == map[]
    ensures DerivedSum(coef, datom) == map[]
  {
    forall w: Mono ensures Coef(DerivedSum(coef, datom), w) == 0 {
      DerivedCoef(coef, datom, w);
      SumZero(|coef|, k => DerivedTerm(coef, datom, w, k));
    }
    PolyEq(DerivedSum(coef, datom), map[]);
  }

  // ---- fitting a family

  // every sample splits, all with the same derived coefficients
  ghost predicate Separated(S: seq<Sample>, rests: seq<Poly>, dstride: seq<Poly>, datom: seq<nat>) {
    |rests| == |S| && |dstride| == |datom| && forall i :: 0 <= i < |S| ==> IsSplitOf(S[i].val, datom, rests[i], dstride)
  }

  // what the samples leave once the derived quantities are split off
  ghost predicate Leaves(S: seq<Sample>, rests: seq<Poly>, T: seq<Sample>) {
    |T| == |S| == |rests| && forall i :: 0 <= i < |S| ==> T[i] == Sample(S[i].x, rests[i])
  }

  // the families a fit succeeds on: well sampled, one set of derived coefficients, and the rest affine
  ghost predicate Fittable(S: seq<Sample>, n: nat, datom: seq<nat>) {
    S != [] && WellSampled(S, n) && exists rests, dstride, T ::
      Separated(S, rests, dstride, datom) && Leaves(S, rests, T) && IsAffine(T, n)
  }

  // the derived coefficients must agree across the samples
  method SeparateAll(S: seq<Sample>, datom: seq<nat>) returns (ok: bool, rests: seq<Poly>, dstride: seq<Poly>)
    requires DistinctAtoms(datom)
    ensures if ok then S != [] ==> Separated(S, rests, dstride, datom) else forall r, d :: !Separated(S, r, d, datom)
    ensures ok ==> |rests| == |S| && |dstride| == |datom|
  {
    hide IsSplitOf, Splittable;
    ok, rests, dstride := true, [], seq(|datom|, q => map[]);
    for i := 0 to |S|
      invariant |rests| == i && |dstride| == |datom|
      invariant forall k :: 0 <= k < i ==> IsSplitOf(S[k].val, datom, rests[k], dstride)
    {
      var fits, r, c := SplitDerived(S[i].val, datom);
      if !fits {
        NotSeparated(S, datom, i);
        return false, [], [];
      }
      if i == 0 { dstride := c; }
      else if dstride != c {
        Disagree(S, datom, i, rests[0], dstride, r, c);
        return false, [], [];
      }
      CoefLength(S[i].val, datom, r, c);
      rests := rests + [r];
    }
  }

  lemma CoefLength(p: Poly, datom: seq<nat>, rest: Poly, coef: seq<Poly>)
    requires IsSplitOf(p, datom, rest, coef)
    ensures |coef| == |datom|
  {
  }

  lemma NotSeparated(S: seq<Sample>, datom: seq<nat>, i: nat)
    requires DistinctAtoms(datom) && i < |S| && !Splittable(S[i].val, datom)
    ensures forall r, d :: !Separated(S, r, d, datom)
  {
    hide Splittable, IsSplitOf;
    forall r, d ensures !Separated(S, r, d, datom) {
      if |r| == |S| && IsSplitOf(S[i].val, datom, r[i], d) { SplitIsSplittable(S[i].val, datom, r[i], d); }
    }
  }

  lemma Disagree(S: seq<Sample>, datom: seq<nat>, i: nat, rest: Poly, coef: seq<Poly>, rest': Poly, coef': seq<Poly>)
    requires DistinctAtoms(datom) && 0 < i < |S| && coef != coef'
    requires IsSplitOf(S[0].val, datom, rest, coef) && IsSplitOf(S[i].val, datom, rest', coef')
    ensures forall r, d :: !Separated(S, r, d, datom)
  {
    hide IsSplitOf, DistinctAtoms;
    forall r, d ensures !Separated(S, r, d, datom) {
      if |r| == |S| && IsSplitOf(S[0].val, datom, r[0], d) && IsSplitOf(S[i].val, datom, r[i], d) {
        SplitUnique(S[0].val, datom, rest, coef, r[0], d);
        SplitUnique(S[i].val, datom, rest', coef', r[i], d);
      }
    }
  }

  lemma SampledAlike(S: seq<Sample>, T: seq<Sample>, rests: seq<Poly>, n: nat)
    requires Leaves(S, rests, T) && Points(S, n)
    ensures Points(T, n) && (WellSampled(S, n) <==> WellSampled(T, n))
  {
    forall a | 0 <= a < n ensures Varies(S, a) <==> Varies(T, a) {
      VariesAlike(S, T, rests, a);
      VariesAlike(T, S, seq(|S|, i requires 0 <= i < |S| => S[i].val), a);
    }
    forall i, j, a ensures AxisPair(S, i, j, a) <==> AxisPair(T, i, j, a) {}
    hide Varies, AxisPair;
  }

  lemma VariesAlike(S: seq<Sample>, T: seq<Sample>, rests: seq<Poly>, a: nat)
    requires Leaves(S, rests, T)
    ensures Varies(S, a) ==> Varies(T, a)
  {
    if Varies(S, a) {
      var i, j :| 0 <= i < |S| && 0 <= j < |S| && a < |S[i].x| && a < |S[j].x| && S[i].x[a] != S[j].x[a];
      assert T[i].x[a] != T[j].x[a];
    }
  }

  lemma OnlySplit(S: seq<Sample>, n: nat, datom: seq<nat>, rests: seq<Poly>, dstride: seq<Poly>, T: seq<Sample>)
    requires DistinctAtoms(datom) && S != [] && Separated(S, rests, dstride, datom) && Leaves(S, rests, T)
    ensures Fittable(S, n, datom) <==> WellSampled(S, n) && IsAffine(T, n)
  {
    hide IsSplitOf, DistinctAtoms, IsAffine, WellSampled;
    if Fittable(S, n, datom) {
      var r, d, U :| Separated(S, r, d, datom) && Leaves(S, r, U) && IsAffine(U, n);
      forall i | 0 <= i < |S| ensures r[i] == rests[i] {
        SplitUnique(S[i].val, datom, rests[i], dstride, r[i], d);
      }
      assert U == T;
    }
  }

  // the fit of a family holds at every point, and is found exactly when there is one
  method FitExtended(S: seq<Sample>, n: nat, datom: seq<nat>)
    returns (ok: bool, base: Poly, stride: seq<Poly>, dstride: seq<Poly>)
    requires Points(S, n) && DistinctAtoms(datom)
    ensures ok <==> Fittable(S, n, datom)
    ensures ok ==> |stride| == n && |dstride| == |datom|
    ensures ok ==> forall i :: 0 <= i < |S| ==> FitsPoint(base, stride, dstride, datom, Point(S[i].x, S[i].val))
  {
    hide IsSplitOf, DistinctAtoms, IsAffine, WellSampled, AffineAt, DerivedSum, Fittable;
    base, stride := map[], [];
    var rests;
    ok, rests, dstride := SeparateAll(S, datom);
    if !ok {
      Unfit(S, n, datom);
      return;
    }
    var T := seq(|S|, i requires 0 <= i < |S| && i < |rests| => Sample(S[i].x, rests[i]));
    SampledAlike(S, T, rests, n);
    ok, base, stride := Fit(T, n);
    if S == [] {
      NothingFits(n, datom);
      return;
    }
    OnlySplit(S, n, datom, rests, dstride, T);
    if ok {
      forall i | 0 <= i < |S| ensures FitsPoint(base, stride, dstride, datom, Point(S[i].x, S[i].val)) {
        assert T[i].val == AffineAt(base, stride, T[i].x);
        SplitSum(S[i].val, datom, rests[i], dstride);
      }
    }
  }

  lemma SplitSum(p: Poly, datom: seq<nat>, rest: Poly, coef: seq<Poly>)
    requires IsSplitOf(p, datom, rest, coef)
    ensures |coef| == |datom| && p == Add(rest, DerivedSum(coef, datom))
  {
  }

  lemma Unfit(S: seq<Sample>, n: nat, datom: seq<nat>)
    requires forall r, d :: !Separated(S, r, d, datom)
    ensures !Fittable(S, n, datom)
  {
    hide Separated;
  }

  lemma NothingFits(n: nat, datom: seq<nat>)
    ensures !Fittable([], n, datom)
  {
  }

  // ---- one family of samples

  // the samples of one access, or of a predicate or derived operand, that one affine map is to fit
  datatype Family = Family(role: C.Role, bytes: nat, samples: seq<Sample>)

  datatype Fitted = Fitted(base: Poly, stride: seq<Poly>, dstride: seq<Poly>)

  ghost predicate FitHolds(f: Family, n: nat, datom: seq<nat>, t: Fitted) {
    && |t.stride| == n && |t.dstride| == |datom|
    && forall i :: 0 <= i < |f.samples| ==>
      FitsPoint(t.base, t.stride, t.dstride, datom, Point(f.samples[i].x, f.samples[i].val))
  }

  ghost predicate FitOk(f: Family, n: nat, datom: seq<nat>, t: Option<Fitted>) {
    (t.Some? <==> Fittable(f.samples, n, datom)) && (t.Some? ==> FitHolds(f, n, datom, t.value))
  }

  method FitAll(fams: seq<Family>, n: nat, datom: seq<nat>) returns (fits: seq<Option<Fitted>>)
    requires DistinctAtoms(datom) && forall s :: 0 <= s < |fams| ==> Points(fams[s].samples, n)
    ensures |fits| == |fams| && forall s :: 0 <= s < |fams| ==> FitOk(fams[s], n, datom, fits[s])
  {
    hide *;
    fits := [];
    for s := 0 to |fams|
      invariant |fits| == s
      invariant forall t :: 0 <= t < s ==> FitOk(fams[t], n, datom, fits[t])
    {
      var t := FitFamily(fams[s], n, datom);
      fits := fits + [t];
    }
  }

  method FitFamily(f: Family, n: nat, datom: seq<nat>) returns (t: Option<Fitted>)
    requires Points(f.samples, n) && DistinctAtoms(datom)
    ensures FitOk(f, n, datom, t)
  {
    hide FitsPoint, Fittable;
    var ok, b, st, d := FitExtended(f.samples, n, datom);
    t := if ok then Some(Fitted(b, st, d)) else None;
  }

  function SiteOf(f: Family, t: Option<Fitted>): C.Site {
    if t.Some? then C.Site(f.role, true, t.value.stride + t.value.dstride) else C.Site(f.role, false, [])
  }

  // the check on every sample of one access: verified and mismatched counts
  method CheckSamples(f: Family, t: Fitted, n: nat, datom: seq<nat>, V: seq<seq<int>>, coord: seq<Poly>, atom: nat,
      dims: seq<Dim>, ix: seq<IndexMap>, leftover: Poly) returns (verified: nat, mismatches: int)
    requires Points(f.samples, n) && FitHolds(f, n, datom, t)
    requires IsMat(V, n + |datom|, |coord|) && forall a, j :: n <= a < n + |datom| && 0 <= j < |coord| ==> V[a][j] == 0
    requires forall a :: 0 <= a < n ==> t.stride[a] == C.ViaCoords(V[a], coord)
    requires DimsOrdered(dims) && Indexes(Access(t.base, coord, f.bytes), atom, dims, ix) && leftover == map[]
    ensures verified == |f.samples| && mismatches == 0
  {
    verified, mismatches := 0, 0;
    for i := 0 to |f.samples|
      invariant verified == i && mismatches == 0
    {
      var same := CheckOne(f, t, n, datom, V, coord, atom, dims, ix, leftover, f.samples[i]);
      if same { verified := verified + 1; } else { mismatches := mismatches + 1; }
    }
  }

  method CheckOne(f: Family, t: Fitted, n: nat, datom: seq<nat>, V: seq<seq<int>>, coord: seq<Poly>, atom: nat,
      dims: seq<Dim>, ix: seq<IndexMap>, leftover: Poly, smp: Sample) returns (same: bool)
    requires Points(f.samples, n) && FitHolds(f, n, datom, t) && smp in f.samples
    requires IsMat(V, n + |datom|, |coord|) && forall a, j :: n <= a < n + |datom| && 0 <= j < |coord| ==> V[a][j] == 0
    requires forall a :: 0 <= a < n ==> t.stride[a] == C.ViaCoords(V[a], coord)
    requires DimsOrdered(dims) && Indexes(Access(t.base, coord, f.bytes), atom, dims, ix) && leftover == map[]
    ensures same
  {
    ghost var pt := Point(smp.x, smp.val);
    assert FitsPoint(t.base, t.stride, t.dstride, datom, pt);
    assert |smp.x| == n;
    hide FitHolds, Points, FitsPoint, Indexes, DimsOrdered, C.ViaCoords, AddressOf, CoordAt;
    var c; ghost var cv;
    c, cv := CoordValues(V, smp.x, |coord|);
    IndexLengths(Access(t.base, coord, f.bytes), atom, dims, ix);
    var addr := Address(t.base, atom, dims, ix, leftover, c, cv, t.dstride, datom);
    AddressExact(Access(t.base, coord, f.bytes), atom, dims, ix, V, t.stride, t.dstride, datom, pt, cv);
    SubtractZero(smp.val, addr);
    same := Subtract(smp.val, addr) == map[];
  }

  lemma IndexLengths(a: Access, atom: nat, dims: seq<Dim>, ix: seq<IndexMap>)
    requires Indexes(a, atom, dims, ix)
    ensures |ix| == |dims| && forall k :: 0 <= k < |ix| ==> |ix[k].coef| == |a.coord|
  {
  }

  // c_j at one point, for every coordinate
  method CoordValues(V: seq<seq<int>>, x: seq<int>, d: nat) returns (c: seq<Poly>, ghost cv: seq<int>)
    requires |x| <= |V| && IsMat(V, |V|, d) && forall a, j :: |x| <= a < |V| && 0 <= j < d ==> V[a][j] == 0
    ensures |c| == |cv| == d && forall j :: 0 <= j < d ==> cv[j] == CoordAt(V, x, j) && c[j] == Const(cv[j])
  {
    hide CoordAt;
    c, cv := [], [];
    for j := 0 to d
      invariant |c| == |cv| == j
      invariant forall k :: 0 <= k < j ==> cv[k] == CoordAt(V, x, k) && c[k] == Const(cv[k])
    {
      var v := CoordValue(V, x, j);
      c, cv := c + [v], cv + [CoordAt(V, x, j)];
    }
  }

  // what one fitted access needs for its check
  ghost predicate Ready(f: Family, t: Fitted, n: nat, datom: seq<nat>, V: seq<seq<int>>, coord: seq<Poly>) {
    && Points(f.samples, n) && FitHolds(f, n, datom, t)
    && IsMat(V, n + |datom|, |coord|) && (forall a, j :: n <= a < n + |datom| && 0 <= j < |coord| ==> V[a][j] == 0)
    && forall a :: 0 <= a < n ==> t.stride[a] == C.ViaCoords(V[a], coord)
  }

  lemma DiscoveredReady(fams: seq<Family>, fits: seq<Option<Fitted>>, n: nat, datom: seq<nat>, sites: seq<C.Site>,
      d: nat, V: seq<seq<int>>, coord: seq<seq<Poly>>, s: nat)
    requires |fits| == |fams| == |sites| && s < |fams| && fits[s].Some? && FitOk(fams[s], n, datom, fits[s])
    requires Points(fams[s].samples, n) && sites[s] == SiteOf(fams[s], fits[s])
    requires C.Discovered(sites, n, n + |datom|, d, V, coord)
    ensures s < |coord| && Ready(fams[s], fits[s].value, n, datom, V, coord[s])
  {
    hide FitsPoint, C.ViaCoords;
    var t := fits[s].value;
    assert sites[s].fitted && C.Through(sites[s], n, V, coord[s]);
    forall a | 0 <= a < n ensures t.stride[a] == C.ViaCoords(V[a], coord[s]) {
      assert C.StrideOf(sites[s], a) == t.stride[a];
    }
  }

  method CheckAccess(ghost acc: seq<Access>, atom: nat, ghost elem: nat, ghost log: seq<Entry>, dims: seq<Dim>,
      ghost i: nat, f: Family, t: Fitted, n: nat, datom: seq<nat>, V: seq<seq<int>>, coord: seq<Poly>)
    returns (verified: nat, mismatches: int, skipped: int, leftover: Poly)
    requires AreDims(acc, atom, elem, log, dims) && i < |acc| && acc[i] == Access(t.base, coord, f.bytes)
    requires Ready(f, t, n, datom, V, coord)
    ensures verified == |f.samples| && mismatches == 0 && skipped == 0 && leftover == map[]
  {
    DimsFacts(acc, atom, elem, log, dims);
    hide AreDims, DimsOrdered, Indexes, FitHolds, Points;
    var ix;
    ix, leftover, skipped := IndexAccess(acc, atom, elem, log, dims, i, Access(t.base, coord, f.bytes));
    verified, mismatches := CheckSamples(f, t, n, datom, V, coord, atom, dims, ix, leftover);
  }
}
