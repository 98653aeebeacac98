// The executor's address polynomials: monomials with non-zero integer coefficients. A monomial is the multiset of its
// atom ids (the compiler keeps the same multiset as a sorted list). Two polynomials are one interned node exactly
// when their coefficients agree, so `==` below is the comparison the compiler makes on nodes.
module Polynomials {
  import opened LinearAlgebra

  type Mono = multiset<nat>

  ghost predicate Sorted(s: seq<nat>) {
    forall i, j :: 0 <= i < j < |s| ==> s[i] <= s[j]
  }

  lemma Peel(s: seq<nat>, n: nat)
    requires n < |s|
    ensures multiset(s[..n + 1]) == multiset(s[..n]) + multiset{s[n]}
    ensures multiset(s[n..]) == multiset{s[n]} + multiset(s[n + 1..])
  {
    assert s[..n + 1] == s[..n] + [s[n]] && s[n..] == [s[n]] + s[n + 1..];
  }

  // the sorted list is determined by the multiset
  lemma {:induction false} SortedUnique(a: seq<nat>, b: seq<nat>)
    requires Sorted(a) && Sorted(b) && multiset(a) == multiset(b)
    ensures a == b
  {
    assert |multiset(a)| == |a| && |multiset(b)| == |b|;
    if |a| > 0 {
      SmallestFirst(a, b);
      TailCount(a);
      TailCount(b);
      SortedUnique(a[1..], b[1..]);
    }
  }

  lemma SmallestFirst(a: seq<nat>, b: seq<nat>)
    requires Sorted(a) && Sorted(b) && multiset(a) == multiset(b) && |a| > 0 && |b| > 0
    ensures a[0] == b[0]
  {
    assert a[0] in multiset(b) && b[0] in multiset(a);
  }

  lemma TailCount(a: seq<nat>)
    requires |a| > 0
    ensures multiset(a[1..]) == multiset(a) - multiset{a[0]}
  {
    assert a == [a[0]] + a[1..];
  }

  // the greedy pass over m has matched i atoms of d within the first n of m
  ghost predicate Matched(d: seq<nat>, m: seq<nat>, i: nat, n: nat) {
    i <= |d| && n <= |m| && multiset(d[..i]) <= multiset(m[..n])
  }

  ghost predicate Remaining(d: seq<nat>, m: seq<nat>, i: nat, n: nat) {
    i <= |d| && n <= |m| && multiset(d[i..]) <= multiset(m[n..])
  }

  // an atom of m smaller than the next atom of d is not an atom of the rest of d
  lemma Skip(d: seq<nat>, m: seq<nat>, i: nat, n: nat)
    requires Sorted(d) && Sorted(m)
    requires i <= |d| && n < |m| && (i == |d| || d[i] != m[n])
    ensures Matched(d, m, i, n) ==> Matched(d, m, i, n + 1)
    ensures Remaining(d, m, i, n) ==> Remaining(d, m, i, n + 1)
  {
    Peel(m, n);
    if i < |d| && Remaining(d, m, i, n) {
      assert d[i] in multiset(d[i..]);
      assert d[i] in multiset(m[n..]);
      assert d[i] in m[n..];
      assert m[n] <= d[i];
      assert m[n] !in d[i..];
    }
  }

  lemma Take(d: seq<nat>, m: seq<nat>, i: nat, n: nat)
    requires i < |d| && n < |m| && d[i] == m[n]
    ensures Matched(d, m, i, n) ==> Matched(d, m, i + 1, n + 1)
    ensures Remaining(d, m, i, n) ==> Remaining(d, m, i + 1, n + 1)
  {
    Peel(d, i);
    Peel(m, n);
    assert multiset(d[i + 1..]) == multiset(d[i..]) - multiset{d[i]};
    assert multiset(m[n + 1..]) == multiset(m[n..]) - multiset{m[n]};
  }

  lemma PassEnds(d: seq<nat>, m: seq<nat>, i: nat)
    requires i <= |d|
    ensures Remaining(d, m, 0, 0) <==> multiset(d) <= multiset(m)
    ensures Matched(d, m, 0, 0)
    ensures i == |d| && Matched(d, m, i, |m|) ==> multiset(d) <= multiset(m)
    ensures Remaining(d, m, i, |m|) ==> i == |d|
  {
    assert d[0..] == d && m[0..] == m && m[..|m|] == m && d[..|d|] == d;
    if i < |d| { assert d[i] in multiset(d[i..]); }
  }

  // `divides`: multiset inclusion of sorted lists by one greedy pass
  method DividesTest(d: seq<nat>, m: seq<nat>) returns (b: bool)
    requires Sorted(d) && Sorted(m)
    ensures b <==> multiset(d) <= multiset(m)
  {
    hide Matched, Remaining, Sorted;
    var i := 0;
    PassEnds(d, m, 0);
    for n := 0 to |m|
      invariant i <= |d| && Matched(d, m, i, n)
      invariant multiset(d) <= multiset(m) ==> Remaining(d, m, i, n)
    {
      if i < |d| && d[i] == m[n] {
        Take(d, m, i, n);
        i := i + 1;
      } else {
        Skip(d, m, i, n);
      }
    }
    PassEnds(d, m, i);
    b := i == |d|;
  }

  // what the pass leaves over of the first n atoms of m
  ghost predicate LeftOver(q: seq<nat>, d: seq<nat>, m: seq<nat>, i: nat, n: nat) {
    && i <= |d| && n <= |m|
    && multiset(q) + multiset(d[..i]) == multiset(m[..n])
    && Sorted(q) && (n < |m| ==> forall k :: 0 <= k < |q| ==> q[k] <= m[n])
  }

  lemma LeftOverStep(q: seq<nat>, d: seq<nat>, m: seq<nat>, i: nat, n: nat)
    requires Sorted(m) && n < |m| && LeftOver(q, d, m, i, n)
    ensures LeftOver(q + [m[n]], d, m, i, n + 1)
    ensures i < |d| && d[i] == m[n] ==> LeftOver(q, d, m, i + 1, n + 1)
  {
    Peel(m, n);
    if i < |d| { Peel(d, i); }
  }

  // `quotient`: the atoms left over by the same greedy pass are the cofactor, still sorted
  method Quotient(m: seq<nat>, d: seq<nat>) returns (q: seq<nat>)
    requires Sorted(d) && Sorted(m) && multiset(d) <= multiset(m)
    ensures Sorted(q) && multiset(q) == multiset(m) - multiset(d)
  {
    var i := 0;
    q := [];
    PassEnds(d, m, 0);
    assert LeftOver(q, d, m, 0, 0);
    for n := 0 to |m|
      invariant i <= |d| && Remaining(d, m, i, n) && LeftOver(q, d, m, i, n)
    {
      hide Remaining, LeftOver, Sorted;
      LeftOverStep(q, d, m, i, n);
      if i < |d| && d[i] == m[n] {
        Take(d, m, i, n);
        i := i + 1;
      } else {
        Skip(d, m, i, n);
        q := q + [m[n]];
      }
    }
    PassEnds(d, m, i);
    assert m[..|m|] == m && d[..i] == d;
  }

  // ---- polynomials

  predicate Canonical(p: map<Mono, int>) {
    forall m :: m in p ==> p[m] != 0
  }

  type Poly = p: map<Mono, int> | Canonical(p) witness map[]

  function Coef(p: map<Mono, int>, w: Mono): int { if w in p then p[w] else 0 }

  lemma PolyEq(p: Poly, q: Poly)
    requires forall w: Mono :: Coef(p, w) == Coef(q, w)
    ensures p == q
  {
    forall w: Mono | w in p ensures w in q && q[w] == p[w] { assert Coef(p, w) == Coef(q, w); }
    forall w: Mono | w in q ensures w in p { assert Coef(p, w) == Coef(q, w); }
  }

  function Single(m: Mono, c: int): (r: Poly)
    ensures forall w: Mono :: Coef(r, w) == if w == m then c else 0
  {
    if c == 0 then map[] else map[m := c]
  }

  function Const(c: int): Poly { Single(multiset{}, c) }

  function Add(p: Poly, q: Poly): (r: Poly)
    ensures forall w: Mono :: Coef(r, w) == Coef(p, w) + Coef(q, w)
  {
    map w | w in p.Keys + q.Keys && Coef(p, w) + Coef(q, w) != 0 :: Coef(p, w) + Coef(q, w)
  }

  function Scale(c: int, p: Poly): (r: Poly)
    ensures forall w: Mono :: Coef(r, w) == c * Coef(p, w)
  {
    map w | w in p && c * p[w] != 0 :: c * p[w]
  }

  function Subtract(p: Poly, q: Poly): (r: Poly)
    ensures forall w: Mono :: Coef(r, w) == Coef(p, w) - Coef(q, w)
  {
    map w | w in p.Keys + q.Keys && Coef(p, w) - Coef(q, w) != 0 :: Coef(p, w) - Coef(q, w)
  }

  lemma SubtractZero(p: Poly, q: Poly)
    ensures Subtract(p, q) == map[] <==> p == q
  {
    if Subtract(p, q) == map[] {
      forall w: Mono ensures Coef(p, w) == Coef(q, w) { assert Coef(Subtract(p, q), w) == 0; }
      PolyEq(p, q);
    }
  }

  lemma AddAssoc(p: Poly, q: Poly, r: Poly)
    ensures Add(Add(p, q), r) == Add(p, Add(q, r))
  {
    PolyEq(Add(Add(p, q), r), Add(p, Add(q, r)));
  }

  lemma AddZero(p: Poly)
    ensures Add(p, map[]) == p && Add(map[], p) == p
  {
    PolyEq(Add(p, map[]), p);
    PolyEq(Add(map[], p), p);
  }

  // the product with one term c*m
  function MulTerm(m: Mono, c: int, p: Poly): (r: Poly)
    ensures forall w: Mono :: Coef(r, w) == if m <= w then c * Coef(p, w - m) else 0
  {
    var keys := set v | v in p :: v + m;
    assert forall w: Mono :: m <= w && w - m in p ==> w in keys by {
      forall w: Mono | m <= w && w - m in p ensures w in keys { assert w == w - m + m; }
    }
    map w | w in keys && m <= w && c * Coef(p, w - m) != 0 :: c * Coef(p, w - m)
  }

  // ---- sums of polynomials

  ghost function PolySum(n: nat, f: int -> Poly): Poly {
    if n == 0 then map[] else Add(PolySum(n - 1, f), f(n - 1))
  }

  lemma PolySumNext(start: Poly, k: nat, f: int -> Poly)
    ensures Add(start, PolySum(0, f)) == start
    ensures Add(Add(start, PolySum(k, f)), f(k)) == Add(start, PolySum(k + 1, f))
  {
    AddZero(start);
    AddAssoc(start, PolySum(k, f), f(k));
  }

  lemma {:induction false} PolySumCoef(n: nat, f: int -> Poly, w: Mono)
    ensures Coef(PolySum(n, f), w) == Sum(n, k => Coef(f(k), w))
  {
    if n > 0 {
      hide Add, Coef;
      PolySumCoef(n - 1, f, w);
      var g := k => Coef(f(k), w);
      assert Coef(PolySum(n, f), w) == Coef(PolySum(n - 1, f), w) + Coef(f(n - 1), w);
      assert Sum(n, g) == Sum(n - 1, g) + g(n - 1);
    }
  }
}
