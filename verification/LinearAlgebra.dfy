// Finite sums and integer matrices. Matrices are sequences of rows; `Mul` is the textbook product, and the
// elementary row operations of the Hermite normal form are left multiplications by invertible matrices.
module LinearAlgebra {
  type Vec = seq<int>
  type Mat = seq<seq<int>>

  // ---- finite sums

  ghost function Sum(n: nat, f: int -> int): int {
    if n == 0 then 0 else Sum(n - 1, f) + f(n - 1)
  }

  lemma {:induction false} SumExt(n: nat, f: int -> int, g: int -> int)
    requires forall k :: 0 <= k < n ==> f(k) == g(k)
    ensures Sum(n, f) == Sum(n, g)
  {
    if n > 0 { SumExt(n - 1, f, g); }
  }

  lemma {:induction false} SumZero(n: nat, f: int -> int)
    requires forall k :: 0 <= k < n ==> f(k) == 0
    ensures Sum(n, f) == 0
  {
    if n > 0 { SumZero(n - 1, f); }
  }

  // a sum with one non-zero term
  lemma {:induction false} SumSingle(n: nat, i: nat, f: int -> int)
    requires i < n
    requires forall k :: 0 <= k < n && k != i ==> f(k) == 0
    ensures Sum(n, f) == f(i)
  {
    if i == n - 1 { SumZero(n - 1, f); } else { SumSingle(n - 1, i, f); }
  }

  // h == f + q*g pointwise
  lemma {:induction false} SumLinear(n: nat, f: int -> int, q: int, g: int -> int, h: int -> int)
    requires forall k :: 0 <= k < n ==> h(k) == f(k) + q * g(k)
    ensures Sum(n, h) == Sum(n, f) + q * Sum(n, g)
  {
    if n > 0 {
      SumLinear(n - 1, f, q, g, h);
      assert q * (Sum(n - 1, g) + g(n - 1)) == q * Sum(n - 1, g) + q * g(n - 1);
    }
  }

  // the order of a double sum does not matter
  lemma {:induction false} SumSwap(n: nat, m: nat, f: (int, int) -> int)
    ensures Sum(n, k => Sum(m, l => f(k, l))) == Sum(m, l => Sum(n, k => f(k, l)))
  {
    if n == 0 {
      SumZero(m, l => Sum(n, k => f(k, l)));
    } else {
      SumSwap(n - 1, m, f);
      var outer := k => Sum(m, l => f(k, l));
      var head := l => Sum(n - 1, k => f(k, l));
      var last := l => f(n - 1, l);
      SumExt(m, l => f(n - 1, l), last);
      SumLinear(m, head, 1, last, l => Sum(n, k => f(k, l)));
      assert outer(n - 1) == Sum(m, l => f(n - 1, l));
    }
  }

  // ---- matrices

  ghost predicate IsMat(M: Mat, r: nat, c: nat) {
    |M| == r && forall i :: 0 <= i < r ==> |M[i]| == c
  }

  ghost function Term(a: Vec, M: Mat, j: nat, k: int): int {
    if 0 <= k < |a| && k < |M| && j < |M[k]| then a[k] * M[k][j] else 0
  }

  // entry j of the row vector a*M
  ghost function Dot(a: Vec, M: Mat, j: nat): int {
    Sum(|a|, k => Term(a, M, j, k))
  }

  ghost function VecMul(a: Vec, M: Mat, c: nat): Vec {
    seq(c, j requires 0 <= j < c => Dot(a, M, j))
  }

  ghost function Mul(A: Mat, B: Mat, c: nat): Mat {
    seq(|A|, i requires 0 <= i < |A| => VecMul(A[i], B, c))
  }

  ghost function Unit(n: nat, i: int): Vec {
    seq(n, j requires 0 <= j < n => if i == j then 1 else 0)
  }

  ghost function Id(n: nat): Mat {
    seq(n, i requires 0 <= i < n => Unit(n, i))
  }

  lemma MatEq(A: Mat, B: Mat, r: nat, c: nat)
    requires IsMat(A, r, c) && IsMat(B, r, c)
    requires forall i, j :: 0 <= i < r && 0 <= j < c ==> A[i][j] == B[i][j]
    ensures A == B
  {
    forall i | 0 <= i < r ensures A[i] == B[i] {}
  }

  lemma DotUnit(n: nat, i: nat, M: Mat, c: nat, j: nat)
    requires IsMat(M, n, c) && i < n && j < c
    ensures Dot(Unit(n, i), M, j) == M[i][j]
  {
    SumSingle(n, i, k => Term(Unit(n, i), M, j, k));
  }

  lemma IdMul(M: Mat, r: nat, c: nat)
    requires IsMat(M, r, c)
    ensures Mul(Id(r), M, c) == M
  {
    forall i, j | 0 <= i < r && 0 <= j < c ensures Mul(Id(r), M, c)[i][j] == M[i][j] {
      DotUnit(r, i, M, c, j);
    }
    MatEq(Mul(Id(r), M, c), M, r, c);
  }

  lemma MulId(M: Mat, r: nat, c: nat)
    requires IsMat(M, r, c)
    ensures Mul(M, Id(c), c) == M
  {
    forall i, j | 0 <= i < r && 0 <= j < c ensures Mul(M, Id(c), c)[i][j] == M[i][j] {
      SumSingle(c, j, k => Term(M[i], Id(c), j, k));
    }
    MatEq(Mul(M, Id(c), c), M, r, c);
  }

  // entry by entry, (a*B)*C = a*(B*C)
  lemma DotAssoc(a: Vec, B: Mat, C: Mat, n: nat, m: nat, c: nat, j: nat)
    requires |a| == n && IsMat(B, n, m) && IsMat(C, m, c) && j < c
    ensures Dot(VecMul(a, B, m), C, j) == Dot(a, Mul(B, C, c), j)
  {
    var f := (k: int, l: int) => if 0 <= k < n && 0 <= l < m then a[k] * B[k][l] * C[l][j] else 0;
    var ab, bc := VecMul(a, B, m), Mul(B, C, c);
    forall l | 0 <= l < m ensures Term(ab, C, j, l) == Sum(n, k => f(k, l)) {
      var g := k => Term(a, B, l, k);
      assert ab[l] == Dot(a, B, l) == Sum(n, g);
      forall k | 0 <= k < n ensures f(k, l) == 0 + C[l][j] * g(k) {
        assert a[k] * B[k][l] * C[l][j] == C[l][j] * (a[k] * B[k][l]);
      }
      var zero := (k: int) => 0;
      SumZero(n, zero);
      SumLinear(n, zero, C[l][j], g, k => f(k, l));
    }
    forall k | 0 <= k < n ensures Term(a, bc, j, k) == Sum(m, l => f(k, l)) {
      var g := l => Term(B[k], C, j, l);
      assert bc[k][j] == Sum(m, g);
      forall l | 0 <= l < m ensures f(k, l) == 0 + a[k] * g(l) {
        assert a[k] * B[k][l] * C[l][j] == a[k] * (B[k][l] * C[l][j]);
      }
      var zero := (l: int) => 0;
      SumZero(m, zero);
      SumLinear(m, zero, a[k], g, l => f(k, l));
    }
    SumExt(m, l => Term(ab, C, j, l), l => Sum(n, k => f(k, l)));
    SumExt(n, k => Term(a, bc, j, k), k => Sum(m, l => f(k, l)));
    SumSwap(n, m, f);
  }

  lemma MulAssoc(A: Mat, B: Mat, C: Mat, r: nat, n: nat, m: nat, c: nat)
    requires IsMat(A, r, n) && IsMat(B, n, m) && IsMat(C, m, c)
    ensures Mul(Mul(A, B, m), C, c) == Mul(A, Mul(B, C, c), c)
  {
    forall i, j | 0 <= i < r && 0 <= j < c
      ensures Mul(Mul(A, B, m), C, c)[i][j] == Mul(A, Mul(B, C, c), c)[i][j]
    {
      DotAssoc(A[i], B, C, n, m, c, j);
    }
    MatEq(Mul(Mul(A, B, m), C, c), Mul(A, Mul(B, C, c), c), r, c);
  }

  // ---- elementary row operations

  datatype RowOp = Sub(dst: nat, src: nat, q: int) | Swap(a: nat, b: nat) | Neg(row: nat)

  ghost predicate OpFits(op: RowOp, r: nat) {
    match op
    case Sub(dst, src, _) => dst < r && src < r && dst != src
    case Swap(a, b) => a < r && b < r
    case Neg(a) => a < r
  }

  ghost function SubVec(x: Vec, q: int, y: Vec): Vec {
    seq(|x|, j requires 0 <= j < |x| => x[j] - q * (if j < |y| then y[j] else 0))
  }

  ghost function NegVec(x: Vec): Vec {
    seq(|x|, j requires 0 <= j < |x| => -x[j])
  }

  ghost function Apply(op: RowOp, M: Mat): Mat
    requires OpFits(op, |M|)
  {
    match op
    case Sub(dst, src, q) => M[dst := SubVec(M[dst], q, M[src])]
    case Swap(a, b) => M[a := M[b]][b := M[a]]
    case Neg(a) => M[a := NegVec(M[a])]
  }

  ghost function Undo(op: RowOp): RowOp {
    match op
    case Sub(dst, src, q) => Sub(dst, src, -q)
    case Swap(a, b) => op
    case Neg(a) => op
  }

  lemma ApplyShape(op: RowOp, M: Mat, r: nat, c: nat)
    requires IsMat(M, r, c) && OpFits(op, r)
    ensures IsMat(Apply(op, M), r, c) && OpFits(Undo(op), r)
  {
  }

  lemma UndoApply(op: RowOp, M: Mat, r: nat, c: nat)
    requires IsMat(M, r, c) && OpFits(op, r)
    ensures IsMat(Apply(op, M), r, c) && OpFits(Undo(op), r)
    ensures Apply(Undo(op), Apply(op, M)) == M
    ensures Undo(Undo(op)) == op
  {
    MatEq(Apply(Undo(op), Apply(op, M)), M, r, c);
  }

  lemma SubTimes(x: int, q: int, y: int, m: int)
    ensures (x - q * y) * m == x * m + -q * (y * m)
  {
    calc { (x - q * y) * m; x * m - q * y * m; x * m + -q * (y * m); }
  }

  lemma TermSub(x: Vec, q: int, y: Vec, M: Mat, j: nat, k: nat)
    requires k < |x| == |y| == |M| && j < |M[k]|
    ensures Term(SubVec(x, q, y), M, j, k) == Term(x, M, j, k) + -q * Term(y, M, j, k)
  {
    SubTimes(x[k], q, y[k], M[k][j]);
  }

  lemma DotSub(x: Vec, q: int, y: Vec, M: Mat, r: nat, c: nat, j: nat)
    requires IsMat(M, r, c) && |x| == |y| == r && j < c
    ensures Dot(SubVec(x, q, y), M, j) == Dot(x, M, j) + -q * Dot(y, M, j)
  {
    forall k | 0 <= k < r ensures Term(SubVec(x, q, y), M, j, k) == Term(x, M, j, k) + -q * Term(y, M, j, k) {
      TermSub(x, q, y, M, j, k);
    }
    SumLinear(r, k => Term(x, M, j, k), -q, k => Term(y, M, j, k), k => Term(SubVec(x, q, y), M, j, k));
  }

  lemma DotNeg(r: nat, a: nat, M: Mat, c: nat, j: nat)
    requires IsMat(M, r, c) && a < r && j < c
    ensures Dot(NegVec(Unit(r, a)), M, j) == -M[a][j]
  {
    SumSingle(r, a, k => Term(NegVec(Unit(r, a)), M, j, k));
  }

  // an elementary operation is the product by the elementary matrix
  lemma ApplyIsMul(op: RowOp, M: Mat, r: nat, c: nat)
    requires IsMat(M, r, c) && OpFits(op, r)
    ensures IsMat(Apply(op, Id(r)), r, r)
    ensures Mul(Apply(op, Id(r)), M, c) == Apply(op, M)
  {
    ApplyShape(op, M, r, c);
    ApplyShape(op, Id(r), r, r);
    var E := Apply(op, Id(r));
    forall i, j | 0 <= i < r && 0 <= j < c ensures Dot(E[i], M, j) == Apply(op, M)[i][j] {
      ApplyRow(op, M, r, c, i, j);
    }
    MatEq(Mul(E, M, c), Apply(op, M), r, c);
  }

  lemma ApplyRow(op: RowOp, M: Mat, r: nat, c: nat, i: nat, j: nat)
    requires IsMat(M, r, c) && OpFits(op, r) && i < r && j < c
    ensures IsMat(Apply(op, M), r, c) && IsMat(Apply(op, Id(r)), r, r)
    ensures Dot(Apply(op, Id(r))[i], M, j) == Apply(op, M)[i][j]
  {
    match op
    case Sub(dst, src, q) => ApplySub(dst, src, q, M, r, c, i, j);
    case Swap(a, b) => ApplySwap(a, b, M, r, c, i, j);
    case Neg(a) =>
      DotUnit(r, i, M, c, j);
      if i == a { DotNeg(r, a, M, c, j); }
  }

  lemma ApplySub(dst: nat, src: nat, q: int, M: Mat, r: nat, c: nat, i: nat, j: nat)
    requires IsMat(M, r, c) && OpFits(Sub(dst, src, q), r) && i < r && j < c
    ensures Dot(Apply(Sub(dst, src, q), Id(r))[i], M, j) == Apply(Sub(dst, src, q), M)[i][j]
  {
    hide Dot;
    DotUnit(r, i, M, c, j);
    if i == dst {
      DotSub(Unit(r, dst), q, Unit(r, src), M, r, c, j);
      DotUnit(r, src, M, c, j);
    }
  }

  lemma ApplySwap(a: nat, b: nat, M: Mat, r: nat, c: nat, i: nat, j: nat)
    requires IsMat(M, r, c) && a < r && b < r && i < r && j < c
    ensures Dot(Apply(Swap(a, b), Id(r))[i], M, j) == Apply(Swap(a, b), M)[i][j]
  {
    hide Dot;
    DotUnit(r, i, M, c, j);
    DotUnit(r, a, M, c, j);
    DotUnit(r, b, M, c, j);
  }

  // ---- unimodular matrices

  // V is a two-sided integer inverse of the n x n matrix U
  ghost predicate Inverses(U: Mat, V: Mat, n: nat) {
    IsMat(U, n, n) && IsMat(V, n, n) && Mul(U, V, n) == Id(n) && Mul(V, U, n) == Id(n)
  }

  ghost predicate Unimodular(U: Mat, n: nat) {
    exists V :: Inverses(U, V, n)
  }

  lemma IdInverses(n: nat)
    ensures Inverses(Id(n), Id(n), n)
  {
    IdMul(Id(n), n, n);
  }

  // applying an operation to both M and U keeps U*M0 == M and keeps U invertible
  lemma StepTracks(op: RowOp, M0: Mat, M: Mat, U: Mat, V: Mat, r: nat, c: nat) returns (V': Mat)
    requires IsMat(M0, r, c) && IsMat(M, r, c) && OpFits(op, r)
    requires Inverses(U, V, r) && Mul(U, M0, c) == M
    ensures IsMat(Apply(op, M), r, c)
    ensures IsMat(Apply(op, U), r, r) && Inverses(Apply(op, U), V', r)
    ensures Mul(Apply(op, U), M0, c) == Apply(op, M)
  {
    var I := Id(r);
    var E, F := Apply(op, I), Apply(Undo(op), I);
    UndoApply(op, I, r, r);
    UndoApply(Undo(op), I, r, r);
    ApplyIsMul(op, U, r, r);
    ApplyIsMul(op, M, r, c);
    ApplyIsMul(op, F, r, r);
    ApplyIsMul(Undo(op), E, r, r);
    assert Mul(E, F, r) == I && Mul(F, E, r) == I;
    V' := Mul(V, F, r);
    MulAssoc(E, U, M0, r, r, r, c);
    // (E U)(V F) = E ((U V) F) = E F
    MulAssoc(E, U, V', r, r, r, r);
    MulAssoc(U, V, F, r, r, r, r);
    IdMul(F, r, r);
    // (V F)(E U) = V ((F E) U) = V U
    var EU := Mul(E, U, r);
    MulAssoc(V, F, EU, r, r, r, r);
    MulAssoc(F, E, U, r, r, r, r);
    IdMul(U, r, r);
  }
}
