// The number of coordinates discovered is the rank of the strides: whatever other coordinates reproduce the strides of
// all fitted sites, there are no fewer of them.
module CoordinateRank {
  import opened LinearAlgebra
  import opened Polynomials
  import opened Hermite
  import opened Coordinates

  // ---- a system with fewer equations than unknowns has a solution

  // indices without p
  function Skip(p: nat, i: int): int {
    if i < p then i else i + 1
  }

  ghost function Skipped(p: nat, f: int -> int): int -> int {
    i => f(Skip(p, i))
  }

  lemma {:induction false} SumWithout(n: nat, p: nat, f: int -> int)
    requires p < n
    ensures Sum(n, f) == Sum(n - 1, Skipped(p, f)) + f(p)
    decreases n
  {
    var g := Skipped(p, f);
    if p == n - 1 {
      SumExt(n - 1, f, g);
    } else {
      SumWithout(n - 1, p, f);
      assert Sum(n - 1, g) == Sum(n - 2, g) + g(n - 2);
    }
  }

  ghost predicate Kills(x: Vec, A: Mat, d: nat, e: nat) {
    |x| == d && forall j :: 0 <= j < e ==> Dot(x, A, j) == 0
  }

  ghost predicate NonZero(x: Vec) {
    exists i :: 0 <= i < |x| && x[i] != 0
  }

  // the rows but p, freed of column e by row p
  ghost function Eliminated(A: Mat, d: nat, e: nat, p: nat): Mat
    requires IsMat(A, d + 1, e + 1) && p <= d
  {
    seq(d, i requires 0 <= i < d => seq(e, j requires 0 <= j < e => Freed(A[Skip(p, i)], A[p], e, j)))
  }

  ghost function Freed(row: Vec, pivot: Vec, e: nat, j: nat): int
    requires |row| == |pivot| == e + 1 && j <= e
  {
    pivot[e] * row[j] - row[e] * pivot[j]
  }

  // a solution for all rows from one for the freed rows
  ghost function Extended(A: Mat, d: nat, e: nat, p: nat, y: Vec): Vec
    requires IsMat(A, d + 1, e + 1) && p <= d && |y| == d
  {
    seq(d + 1, k requires 0 <= k <= d =>
      if k < p then A[p][e] * y[k] else if k > p then A[p][e] * y[k - 1] else -Dot(y, Others(A, d, p), e))
  }

  ghost function Others(A: Mat, d: nat, p: nat): Mat
    requires |A| == d + 1 && p <= d
  {
    seq(d, i requires 0 <= i < d => A[Skip(p, i)])
  }

  lemma ExtendedTerm(A: Mat, d: nat, e: nat, p: nat, y: Vec, j: nat, i: nat)
    requires IsMat(A, d + 1, e + 1) && p <= d && |y| == d && j <= e && i < d
    ensures Term(Extended(A, d, e, p, y), A, j, Skip(p, i)) == A[p][e] * Term(y, Others(A, d, p), j, i)
  {
    hide Dot;
    OneTerm(A[p][e], y[i], A[Skip(p, i)][j]);
  }

  lemma OneTerm(a: int, y: int, b: int)
    ensures a * y * b == a * (y * b)
  {
  }

  lemma ExtendedLast(A: Mat, d: nat, e: nat, p: nat, y: Vec, j: nat)
    requires IsMat(A, d + 1, e + 1) && p <= d && |y| == d && j <= e
    ensures Term(Extended(A, d, e, p, y), A, j, p) == -Dot(y, Others(A, d, p), e) * A[p][j]
  {
    hide Dot;
  }

  lemma NegProduct(s: int, b: int)
    ensures -s * b == -(s * b)
  {
  }

  lemma ExtendedDot(A: Mat, d: nat, e: nat, p: nat, y: Vec, j: nat)
    requires IsMat(A, d + 1, e + 1) && p <= d && |y| == d && j <= e
    ensures Dot(Extended(A, d, e, p, y), A, j)
      == A[p][e] * Dot(y, Others(A, d, p), j) - Dot(y, Others(A, d, p), e) * A[p][j]
  {
    var x, B := Extended(A, d, e, p, y), Others(A, d, p);
    var f, g, zero := k => Term(x, A, j, k), k => Term(y, B, j, k), (k: int) => 0;
    assert Dot(x, A, j) == Sum(d + 1, f) && Dot(y, B, j) == Sum(d, g);
    forall i | 0 <= i < d ensures Skipped(p, f)(i) == zero(i) + A[p][e] * g(i) { ExtendedTerm(A, d, e, p, y, j, i); }
    hide Extended, Others, Term, Dot, Sum;
    SumWithout(d + 1, p, f);
    SumZero(d, zero);
    SumLinear(d, zero, A[p][e], g, Skipped(p, f));
    ExtendedLast(A, d, e, p, y, j);
    NegProduct(Dot(y, B, e), A[p][j]);
  }

  lemma FreedTerm(A: Mat, d: nat, e: nat, p: nat, y: Vec, j: nat, k: nat)
    requires IsMat(A, d + 1, e + 1) && p <= d && |y| == d && j < e && k < d
    ensures Term(y, Eliminated(A, d, e, p), j, k)
      == A[p][e] * Term(y, Others(A, d, p), j, k) + -A[p][j] * Term(y, Others(A, d, p), e, k)
  {
    SplitTerm(y[k], A[p][e], A[Skip(p, k)][j], A[Skip(p, k)][e], A[p][j]);
  }

  lemma SplitTerm(y: int, a: int, r: int, s: int, b: int)
    ensures y * (a * r - s * b) == a * (y * r) + -b * (y * s)
  {
    calc {
      y * (a * r - s * b);
      y * (a * r) - y * (s * b);
      a * (y * r) + -b * (y * s);
    }
  }

  lemma FreedDot(A: Mat, d: nat, e: nat, p: nat, y: Vec, j: nat)
    requires IsMat(A, d + 1, e + 1) && p <= d && |y| == d && j < e
    ensures Dot(y, Eliminated(A, d, e, p), j)
      == A[p][e] * Dot(y, Others(A, d, p), j) - Dot(y, Others(A, d, p), e) * A[p][j]
  {
    var B, C := Others(A, d, p), Eliminated(A, d, e, p);
    var f, g, h, zero := k => Term(y, C, j, k), k => Term(y, B, j, k), k => Term(y, B, e, k), (k: int) => 0;
    var mid := k => A[p][e] * g(k);
    assert Dot(y, C, j) == Sum(d, f) && Dot(y, B, j) == Sum(d, g) && Dot(y, B, e) == Sum(d, h);
    forall k | 0 <= k < d ensures f(k) == mid(k) + -A[p][j] * h(k) { FreedTerm(A, d, e, p, y, j, k); }
    hide Eliminated, Others, Term, Dot, Sum;
    SumZero(d, zero);
    SumLinear(d, zero, A[p][e], g, mid);
    SumLinear(d, mid, -A[p][j], h, f);
    NegProduct(A[p][j], Dot(y, B, e));
  }

  lemma {:induction false} NullVector(A: Mat, d: nat, e: nat) returns (x: Vec)
    requires IsMat(A, d, e) && e < d
    ensures Kills(x, A, d, e) && NonZero(x)
    decreases e
  {
    if e == 0 {
      x := Unit(d, 0);
      assert x[0] == 1;
    } else if p :| 0 <= p < d && A[p][e - 1] != 0 {
      var y := NullVector(Eliminated(A, d - 1, e - 1, p), d - 1, e - 1);
      x := Extended(A, d - 1, e - 1, p, y);
      forall j | 0 <= j < e ensures Dot(x, A, j) == 0 { SolvesAlso(A, d - 1, e - 1, p, y, j); }
      ExtendedNonZero(A, d - 1, e - 1, p, y);
    } else {
      var B := seq(d, i requires 0 <= i < d && i < |A| && e <= |A[i]| + 1 && |A[i]| == e => A[i][..e - 1]);
      x := NullVector(B, d, e - 1);
      forall j | 0 <= j < e ensures Dot(x, A, j) == 0 { LastColumn(A, B, d, e, x, j); }
    }
  }

  // a last column of zeros adds no equation
  lemma LastColumn(A: Mat, B: Mat, d: nat, e: nat, x: Vec, j: nat)
    requires j < e && IsMat(A, d, e) && IsMat(B, d, e - 1) && Kills(x, B, d, e - 1)
    requires forall i :: 0 <= i < d ==> A[i][e - 1] == 0 && B[i] == A[i][..e - 1]
    ensures Dot(x, A, j) == 0
  {
    var f := k => Term(x, A, j, k);
    assert Dot(x, A, j) == Sum(d, f);
    if j < e - 1 {
      var g := k => Term(x, B, j, k);
      assert Dot(x, B, j) == Sum(d, g);
      SumExt(d, f, g);
    } else {
      SumZero(d, f);
    }
  }

  lemma SolvesAlso(A: Mat, d: nat, e: nat, p: nat, y: Vec, j: nat)
    requires IsMat(A, d + 1, e + 1) && p <= d && Kills(y, Eliminated(A, d, e, p), d, e) && j <= e
    ensures Dot(Extended(A, d, e, p, y), A, j) == 0
  {
    hide Dot, Eliminated, Extended, Others;
    ExtendedDot(A, d, e, p, y, j);
    if j < e { FreedDot(A, d, e, p, y, j); } else { Cancelled(A[p][e], Dot(y, Others(A, d, p), j)); }
  }

  lemma Cancelled(a: int, s: int)
    ensures a * s - s * a == 0
  {
  }

  lemma ExtendedNonZero(A: Mat, d: nat, e: nat, p: nat, y: Vec)
    requires IsMat(A, d + 1, e + 1) && p <= d && |y| == d && NonZero(y) && A[p][e] != 0
    ensures NonZero(Extended(A, d, e, p, y))
  {
    var x := Extended(A, d, e, p, y);
    var i :| 0 <= i < d && y[i] != 0;
    NonZeroProduct(A[p][e], y[i]);
    if i < p { assert x[i] != 0; } else { assert x[i + 1] != 0; }
  }

  lemma NonZeroProduct(a: int, b: int)
    requires a != 0 && b != 0
    ensures a * b != 0
  {
  }

  // ---- the rows of a normal form without zero rows are independent

  lemma {:induction false} Independent(R: Mat, d: nat, m: nat, piv: seq<nat>, x: Vec, i: nat)
    requires IsHnf(R, d, m, piv) && |piv| == d && Kills(x, R, d, m) && i < d
    ensures x[i] == 0
    decreases i
  {
    forall k | 0 <= k < i ensures x[k] == 0 { Independent(R, d, m, piv, x, k); }
    var c := piv[i];
    forall k | 0 <= k < d && k != i ensures Term(x, R, c, k) == 0 {
      if k > i { assert piv[i] < piv[k] && R[k][c] == 0; }
    }
    SumSingle(d, i, k => Term(x, R, c, k));
    assert Dot(x, R, c) == 0;
    if x[i] != 0 { NonZeroProduct(x[i], R[i][c]); }
  }

  // ---- no fewer coordinates

  // coordinate strides `other` with W give every fitted site's physical strides, with e coordinates
  ghost predicate Reproduces(sites: seq<Site>, n: nat, W: Mat, other: seq<seq<Poly>>, e: nat) {
    && IsMat(W, n, e) && |other| == |sites|
    && forall s :: 0 <= s < |sites| && sites[s].fitted ==> |other[s]| == e && Through(sites[s], n, W, other[s])
  }

  // then the stride matrix is the product of W and the matrix of `other`
  lemma StridesFactor(sites: seq<Site>, cols: seq<Column>, n: nat, ax: nat, W: Mat, other: seq<seq<Poly>>, e: nat)
    requires AllColumns(sites, ax, cols) && Reproduces(sites, n, W, other, e)
    ensures Mul(W, CoordMatrix(cols, other, e), |cols|) == StrideMatrix(sites, cols, n)
  {
    var G := CoordMatrix(cols, other, e);
    forall a, c | 0 <= a < n && 0 <= c < |cols| ensures Mul(W, G, |cols|)[a][c] == StrideMatrix(sites, cols, n)[a][c] {
      assert cols[c] in cols;
      var s, w := cols[c].site, cols[c].mono;
      assert Through(sites[s], n, W, other[s]);
      ViaCoordsCoef(W[a], other[s], w);
      SumExt(e, k => Term(W[a], G, c, k), k => ViaTerm(W[a], other[s], w, k));
    }
    MatEq(Mul(W, G, |cols|), StrideMatrix(sites, cols, n), n, |cols|);
  }

  lemma DotOfMul(A: Mat, G: Mat, d: nat, e: nat, m: nat, x: Vec)
    requires IsMat(A, d, e) && IsMat(G, e, m) && Kills(x, A, d, e)
    ensures Kills(x, Mul(A, G, m), d, m)
  {
    forall j | 0 <= j < m ensures Dot(x, Mul(A, G, m), j) == 0 {
      DotAssoc(x, A, G, d, e, m, j);
      SumZero(e, k => Term(VecMul(x, A, e), G, j, k));
    }
  }

  // rows of the product by the first rows of an inverse
  lemma FirstRows(U: Mat, W: Mat, V: Mat, R: Mat, n: nat, d: nat, m: nat)
    requires Inverses(U, W, n) && d <= n && IsMat(R, d, m) && IsMat(V, n, d)
    requires forall a :: 0 <= a < n ==> V[a] == W[a][..d]
    ensures Mul(U[..d], Mul(V, R, m), m) == R
  {
    var A := U[..d];
    MulAssoc(A, V, R, d, n, d, m);
    forall i, j | 0 <= i < d && 0 <= j < d ensures Mul(A, V, d)[i][j] == Id(d)[i][j] {
      SumExt(n, k => Term(U[i], V, j, k), k => Term(U[i], W, j, k));
      assert Mul(U, W, n)[i][j] == Id(n)[i][j];
    }
    MatEq(Mul(A, V, d), Id(d), d, d);
    IdMul(R, d, m);
  }

  // no other coordinates that reproduce the strides are fewer than those discovered
  lemma FewestCoordinates(sites: seq<Site>, n: nat, ax: nat, d: nat, V: Mat, coord: seq<seq<Poly>>, W: Mat,
      other: seq<seq<Poly>>, e: nat)
    requires Discovered(sites, n, ax, d, V, coord) && InNormalForm(sites, n, ax, d, V, coord)
    requires Reproduces(sites, n, W, other, e)
    ensures d <= e
  {
    if e < d {
      var cols, piv :| AllColumns(sites, ax, cols) && InColumnOrder(sites, cols) && |piv| == d
        && IsHnf(CoordMatrix(cols, coord, d), d, |cols|, piv);
      var full, U := Completion(V, n, d);
      RankHolds(sites, cols, n, ax, d, V, coord, U, full, W, other, e, piv);
      assert false;
    }
  }

  lemma Completion(V: Mat, n: nat, d: nat) returns (W: Mat, U: Mat)
    requires Completes(V, n, d)
    ensures Inverses(U, W, n) && d <= n <= |V| && forall a :: 0 <= a < n ==> V[a] == W[a][..d]
  {
    hide Mul;
    W :| Unimodular(W, n) && IsMat(W, n, n) && d <= n <= |V| && forall a :: 0 <= a < n ==> V[a] == W[a][..d];
    U :| Inverses(W, U, n);
  }

  lemma RankHolds(sites: seq<Site>, cols: seq<Column>, n: nat, ax: nat, d: nat, V: Mat, coord: seq<seq<Poly>>, U: Mat,
      full: Mat, W: Mat, other: seq<seq<Poly>>, e: nat, piv: seq<nat>)
    requires Discovered(sites, n, ax, d, V, coord) && AllColumns(sites, ax, cols) && |piv| == d
    requires IsHnf(CoordMatrix(cols, coord, d), d, |cols|, piv)
    requires Inverses(U, full, n) && d <= n && forall a :: 0 <= a < n ==> V[a] == full[a][..d]
    requires Reproduces(sites, n, W, other, e)
    ensures d <= e
  {
    hide Through, StrideMatrix, CoordMatrix, Mul, AllColumns, Dot, IsHnf;
    var m, R, G, S := |cols|, CoordMatrix(cols, coord, d), CoordMatrix(cols, other, e), StrideMatrix(sites, cols, n);
    var own := V[..n];
    OwnReproduces(sites, n, ax, d, V, coord);
    StridesFactor(sites, cols, n, ax, own, coord, d);
    StridesFactor(sites, cols, n, ax, W, other, e);
    MatrixShape(cols, coord, d);
    MatrixShape(cols, other, e);
    FirstRows(U, full, own, R, n, d, m);
    var A := Mul(U[..d], W, e);
    MulAssoc(U[..d], W, G, d, n, e, m);
    assert Mul(A, G, m) == R;
    if e < d {
      MulShape(U[..d], W, d, n, e);
      var x := NullVector(A, d, e);
      DotOfMul(A, G, d, e, m, x);
      var i :| 0 <= i < |x| && x[i] != 0;
      Independent(R, d, m, piv, x, i);
    }
  }

  lemma MatrixShape(cols: seq<Column>, coord: seq<seq<Poly>>, d: nat)
    ensures IsMat(CoordMatrix(cols, coord, d), d, |cols|)
  {
  }

  lemma MulShape(A: Mat, B: Mat, r: nat, n: nat, c: nat)
    requires IsMat(A, r, n)
    ensures IsMat(Mul(A, B, c), r, c)
  {
  }

  lemma OwnReproduces(sites: seq<Site>, n: nat, ax: nat, d: nat, V: Mat, coord: seq<seq<Poly>>)
    requires Discovered(sites, n, ax, d, V, coord)
    ensures Reproduces(sites, n, V[..n], coord, d)
  {
    hide ViaCoords;
    forall s | 0 <= s < |sites| && sites[s].fitted ensures |coord[s]| == d && Through(sites[s], n, V[..n], coord[s]) {
      assert Through(sites[s], n, V, coord[s]);
    }
  }
}
