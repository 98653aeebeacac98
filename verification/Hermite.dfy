// The hand-written row-style Hermite normal form of the coordinate discovery: in-place row operations on the
// stride matrix M and on the accumulated transform U, and the inverse computed by running it on U.
module Hermite {
  import opened LinearAlgebra

  // ---- C++ integer division (truncates toward zero)

  function TruncDiv(a: int, b: int): int
    requires b != 0
  {
    var q := (if a < 0 then -a else a) / (if b < 0 then -b else b);
    if (a < 0) == (b < 0) then q else -q
  }

  function Abs(a: int): nat { if a < 0 then -a else a }

  lemma TruncRemainder(a: int, b: int)
    requires b != 0
    ensures Abs(a - TruncDiv(a, b) * b) < Abs(b)
    ensures b > 0 && a >= 0 ==> a - TruncDiv(a, b) * b >= 0
    ensures b > 0 && a < 0 ==> a - TruncDiv(a, b) * b <= 0
  {
    var x, y := Abs(a), Abs(b);
    var q := x / y;
    assert x == q * y + x % y;
    assert TruncDiv(a, b) * b == if a < 0 then -(q * y) else q * y by {
      var y': int := y;
      if b < 0 { assert q * (-y') == -(q * y') && (-q) * (-y') == q * y'; } else { assert (-q) * y' == -(q * y'); }
    }
  }

  // ---- Hermite form

  ghost predicate Echelon(M: Mat, r: nat, c: nat, piv: seq<nat>) {
    && IsMat(M, r, c) && |piv| <= r
    && (forall i :: 0 <= i < |piv| ==> piv[i] < c && M[i][piv[i]] > 0)
    && (forall i, j :: 0 <= i < |piv| && 0 <= j < piv[i] ==> M[i][j] == 0)
    && (forall i, k :: 0 <= i < k < |piv| ==> piv[i] < piv[k])
    && (forall i, k :: 0 <= i < k < |piv| ==> 0 <= M[i][piv[k]] < M[k][piv[k]])
  }

  // rows from `from` on are zero in the columns before `col`
  ghost predicate ZeroFrom(M: Mat, r: nat, from: nat, col: nat) {
    |M| == r && forall i, j :: from <= i < r && 0 <= j < col ==> j < |M[i]| && M[i][j] == 0
  }

  // positive, strictly moving pivots; entries above a pivot reduced to [0, pivot); zero rows exactly from |piv| on
  ghost predicate IsHnf(M: Mat, r: nat, c: nat, piv: seq<nat>) {
    Echelon(M, r, c, piv) && ZeroFrom(M, r, |piv|, c)
  }

  // M is the transform of M0 by U, and V is U's integer inverse
  ghost predicate Tracks(M: Mat, U: Mat, V: Mat, M0: Mat, r: nat, c: nat) {
    IsMat(M0, r, c) && IsMat(M, r, c) && Inverses(U, V, r) && Mul(U, M0, c) == M
  }

  // the state of the elimination: finished columns below `col`, finished rows below `p`
  ghost predicate Progress(M: Mat, r: nat, c: nat, p: nat, col: nat, piv: seq<nat>) {
    && |piv| == p <= r && col <= c
    && Echelon(M, r, c, piv) && ZeroFrom(M, r, p, col)
    && forall i :: 0 <= i < p ==> piv[i] < col
  }

  // what happens from column `col` on does not disturb the columns already finished
  lemma LeftKept(M: Mat, M': Mat, r: nat, c: nat, from: nat, col: nat, piv: seq<nat>)
    requires Echelon(M, r, c, piv) && ZeroFrom(M, r, from, col) && IsMat(M', r, c) && col <= c
    requires forall i :: 0 <= i < |piv| ==> piv[i] < col
    requires forall i, j :: 0 <= i < r && 0 <= j < col ==> M'[i][j] == M[i][j]
    ensures Echelon(M', r, c, piv) && ZeroFrom(M', r, from, col)
  {
  }

  // a row operation with sources among the rows from p on keeps the finished columns
  lemma OpKeepsLeft(op: RowOp, M: Mat, r: nat, c: nat, p: nat, col: nat, piv: seq<nat>)
    requires Progress(M, r, c, p, col, piv) && OpFits(op, r)
    requires match op case Sub(_, src, _) => p <= src case Swap(a, b) => p <= a && p <= b case Neg(a) => p <= a
    ensures Progress(Apply(op, M), r, c, p, col, piv)
  {
    ApplyShape(op, M, r, c);
    forall i, j | 0 <= i < r && 0 <= j < col ensures Apply(op, M)[i][j] == M[i][j] {
      match op
      case Sub(dst, src, q) => assert q * M[src][j] == 0;
      case Swap(a, b) =>
      case Neg(a) =>
    }
    LeftKept(M, Apply(op, M), r, c, p, col, piv);
  }

  // ---- the three row operations, in place on M and U together

  method SubRow(M: array<Vec>, U: array<Vec>, dst: nat, src: nat, q: int, ghost M0: Mat, ghost V: Mat, ghost c: nat)
    returns (ghost V': Mat)
    requires M != U && M.Length == U.Length && dst < M.Length && src < M.Length && dst != src
    requires Tracks(M[..], U[..], V, M0, M.Length, c)
    modifies M, U
    ensures M[..] == Apply(Sub(dst, src, q), old(M[..])) && U[..] == Apply(Sub(dst, src, q), old(U[..]))
    ensures Tracks(M[..], U[..], V', M0, M.Length, c)
  {
    ghost var op := Sub(dst, src, q);
    V' := StepTracks(op, M0, M[..], U[..], V, M.Length, c);
    if q == 0 {
      MatEq(M[..], Apply(op, M[..]), M.Length, c);
      MatEq(U[..], Apply(op, U[..]), M.Length, M.Length);
      return;
    }
    ghost var m0, u0 := M[..], U[..];
    SubFrom(M, dst, src, q);
    SubFrom(U, dst, src, q);
    assert U[..] == Apply(op, u0);
  }

  method SubFrom(A: array<Vec>, dst: nat, src: nat, q: int)
    requires dst < A.Length && src < A.Length && dst != src && |A[dst]| == |A[src]|
    modifies A
    ensures A[..] == Apply(Sub(dst, src, q), old(A[..]))
  {
    ghost var was := A[..];
    for j := 0 to |A[dst]|
      invariant |A[dst]| == |was[dst]|
      invariant A[..] == was[dst := A[dst]]
      invariant forall k :: 0 <= k < j ==> A[dst][k] == was[dst][k] - q * was[src][k]
      invariant forall k :: j <= k < |was[dst]| ==> A[dst][k] == was[dst][k]
    {
      A[dst] := A[dst][j := A[dst][j] - q * A[src][j]];
    }
    assert A[dst] == SubVec(was[dst], q, was[src]);
  }

  method SwapRows(M: array<Vec>, U: array<Vec>, a: nat, b: nat, ghost M0: Mat, ghost V: Mat, ghost c: nat)
    returns (ghost V': Mat)
    requires M != U && M.Length == U.Length && a < M.Length && b < M.Length
    requires Tracks(M[..], U[..], V, M0, M.Length, c)
    modifies M, U
    ensures M[..] == Apply(Swap(a, b), old(M[..])) && U[..] == Apply(Swap(a, b), old(U[..]))
    ensures Tracks(M[..], U[..], V', M0, M.Length, c)
  {
    V' := StepTracks(Swap(a, b), M0, M[..], U[..], V, M.Length, c);
    if a != b {
      M[a], M[b] := M[b], M[a];
      U[a], U[b] := U[b], U[a];
    }
  }

  method NegRow(M: array<Vec>, U: array<Vec>, a: nat, ghost M0: Mat, ghost V: Mat, ghost c: nat)
    returns (ghost V': Mat)
    requires M != U && M.Length == U.Length && a < M.Length
    requires Tracks(M[..], U[..], V, M0, M.Length, c)
    modifies M, U
    ensures M[..] == Apply(Neg(a), old(M[..])) && U[..] == Apply(Neg(a), old(U[..]))
    ensures Tracks(M[..], U[..], V', M0, M.Length, c)
  {
    V' := StepTracks(Neg(a), M0, M[..], U[..], V, M.Length, c);
    NegAll(M, a);
    NegAll(U, a);
  }

  method NegAll(A: array<Vec>, a: nat)
    requires a < A.Length
    modifies A
    ensures A[..] == Apply(Neg(a), old(A[..]))
  {
    ghost var was := A[..];
    for j := 0 to |A[a]|
      invariant |A[a]| == |was[a]|
      invariant A[..] == was[a := A[a]]
      invariant forall k :: 0 <= k < j ==> A[a][k] == -was[a][k]
      invariant forall k :: j <= k < |was[a]| ==> A[a][k] == was[a][k]
    {
      A[a] := A[a][j := -A[a][j]];
    }
    assert A[a] == NegVec(was[a]);
  }

  // ---- one column

  // the first row from p on with the smallest non-zero absolute value in the column; r when there is none
  method PickPivot(M: array<Vec>, p: nat, col: nat) returns (best: nat)
    requires p <= M.Length && forall i :: 0 <= i < M.Length ==> col < |M[i]|
    ensures p <= best <= M.Length
    ensures best == M.Length <==> forall i :: p <= i < M.Length ==> M[i][col] == 0
    ensures best < M.Length ==> M[best][col] != 0
    ensures best < M.Length ==> forall i :: p <= i < M.Length && M[i][col] != 0 ==>
      Abs(M[best][col]) < Abs(M[i][col]) || (Abs(M[best][col]) == Abs(M[i][col]) && best <= i)
  {
    best := M.Length;
    var bestAbs := 0;
    for i := p to M.Length
      invariant best == M.Length || p <= best < i
      invariant best == M.Length <==> forall k :: p <= k < i ==> M[k][col] == 0
      invariant best < M.Length ==> M[best][col] != 0 && bestAbs == Abs(M[best][col])
      invariant best < M.Length ==> forall k :: p <= k < i && M[k][col] != 0 ==>
        bestAbs < Abs(M[k][col]) || (bestAbs == Abs(M[k][col]) && best <= k)
    {
      if M[i][col] != 0 {
        var ab := if M[i][col] < 0 then -M[i][col] else M[i][col];
        if best == M.Length || ab < bestAbs {
          best := i;
          bestAbs := ab;
        }
      }
    }
  }

  // the Euclidean sweep: every row below p gets the remainder by the pivot row; returns whether one stays non-zero
  method SweepBelow(M: array<Vec>, U: array<Vec>, p: nat, col: nat, ghost M0: Mat, ghost V: Mat, ghost c: nat,
                    ghost piv: seq<nat>) returns (others: bool, ghost V': Mat)
    requires M != U && M.Length == U.Length && p < M.Length && col < c
    requires forall i :: 0 <= i < M.Length ==> |M[i]| == c
    requires Tracks(M[..], U[..], V, M0, M.Length, c) && Progress(M[..], M.Length, c, p, col, piv)
    requires M[p][col] != 0
    modifies M, U
    ensures forall i :: 0 <= i < M.Length ==> |M[i]| == c
    ensures Tracks(M[..], U[..], V', M0, M.Length, c) && Progress(M[..], M.Length, c, p, col, piv)
    ensures M[p] == old(M[p])
    ensures forall i :: p < i < M.Length ==> Abs(M[i][col]) < Abs(M[p][col])
    ensures others <==> exists i :: p < i < M.Length && M[i][col] != 0
  {
    hide Tracks, Progress, TruncDiv;
    others := false;
    V' := V;
    for i := p + 1 to M.Length
      invariant forall k :: 0 <= k < M.Length ==> |M[k]| == c
      invariant Tracks(M[..], U[..], V', M0, M.Length, c)
      invariant Progress(M[..], M.Length, c, p, col, piv)
      invariant M[p] == old(M[p])
      invariant forall k :: p < k < i ==> Abs(M[k][col]) < Abs(M[p][col])
      invariant others <==> exists k :: p < k < i && M[k][col] != 0
    {
      if M[i][col] != 0 {
        TruncRemainder(M[i][col], M[p][col]);
        V' := ReduceRow(M, U, i, p, col, TruncDiv(M[i][col], M[p][col]), M0, V', c, piv);
        if M[i][col] != 0 { others := true; }
      }
    }
  }

  // one row operation of the elimination, and the entry it leaves in the column
  method ReduceRow(M: array<Vec>, U: array<Vec>, i: nat, p: nat, col: nat, q: int, ghost M0: Mat, ghost V: Mat,
                   ghost c: nat, ghost piv: seq<nat>) returns (ghost V': Mat)
    requires M != U && M.Length == U.Length && i < M.Length && p < M.Length && i != p && col < c
    requires forall i :: 0 <= i < M.Length ==> |M[i]| == c
    requires Tracks(M[..], U[..], V, M0, M.Length, c) && Progress(M[..], M.Length, c, p, col, piv)
    modifies M, U
    ensures forall i :: 0 <= i < M.Length ==> |M[i]| == c
    ensures Tracks(M[..], U[..], V', M0, M.Length, c) && Progress(M[..], M.Length, c, p, col, piv)
    ensures forall k :: 0 <= k < M.Length && k != i ==> M[k] == old(M[k])
    ensures M[i][col] == old(M[i][col]) - q * old(M[p][col])
  {
    hide Tracks, Progress, TruncDiv;
    ghost var was := M[..];
    OpKeepsLeft(Sub(i, p, q), was, M.Length, c, p, col, piv);
    V' := SubRow(M, U, i, p, q, M0, V, c);
    assert forall k :: 0 <= k < M.Length ==> M[k] == M[..][k] && was[k] == old(M[k]);
  }

  // the inner `for (;;)`: ends because the smallest non-zero absolute value in the column strictly falls
  method ClearColumn(M: array<Vec>, U: array<Vec>, p: nat, col: nat, ghost M0: Mat, ghost V: Mat, ghost c: nat,
                     ghost piv: seq<nat>) returns (ghost V': Mat)
    requires M != U && M.Length == U.Length && p < M.Length && col < c
    requires forall i :: 0 <= i < M.Length ==> |M[i]| == c
    requires Tracks(M[..], U[..], V, M0, M.Length, c) && Progress(M[..], M.Length, c, p, col, piv)
    modifies M, U
    ensures forall i :: 0 <= i < M.Length ==> |M[i]| == c
    ensures Tracks(M[..], U[..], V', M0, M.Length, c) && Progress(M[..], M.Length, c, p, col, piv)
    ensures forall i :: p < i < M.Length ==> M[i][col] == 0
  {
    hide Tracks, Progress, TruncDiv;
    V' := V;
    ghost var fuel := 0;
    if i :| p <= i < M.Length && M[i][col] != 0 { fuel := Abs(M[i][col]) + 1; }
    while true
      invariant forall k :: 0 <= k < M.Length ==> |M[k]| == c
      invariant Tracks(M[..], U[..], V', M0, M.Length, c)
      invariant Progress(M[..], M.Length, c, p, col, piv)
      invariant fuel >= 0
      invariant (exists i :: p <= i < M.Length && M[i][col] != 0) ==>
        exists i :: p <= i < M.Length && M[i][col] != 0 && Abs(M[i][col]) < fuel
      decreases fuel
    {
      var best := PickPivot(M, p, col);
      if best == M.Length { break; }
      ghost var was := M[..];
      OpKeepsLeft(Swap(p, best), was, M.Length, c, p, col, piv);
      V' := SwapRows(M, U, p, best, M0, V', c);
      assert M[p] == M[..][p] == was[best];
      assert Abs(was[best][col]) < fuel;
      var others;
      others, V' := SweepBelow(M, U, p, col, M0, V', c, piv);
      fuel := Abs(M[p][col]);
      if !others { break; }
    }
  }

  // reduces the entries above the new pivot to [0, pivot) by floor division
  method ReduceAbove(M: array<Vec>, U: array<Vec>, p: nat, col: nat, ghost M0: Mat, ghost V: Mat, ghost c: nat,
                     ghost piv: seq<nat>) returns (ghost V': Mat)
    requires M != U && M.Length == U.Length && p < M.Length && col < c
    requires forall i :: 0 <= i < M.Length ==> |M[i]| == c
    requires Tracks(M[..], U[..], V, M0, M.Length, c) && Progress(M[..], M.Length, c, p, col, piv)
    requires forall i :: p < i < M.Length ==> M[i][col] == 0
    requires M[p][col] > 0
    modifies M, U
    ensures forall i :: 0 <= i < M.Length ==> |M[i]| == c
    ensures Tracks(M[..], U[..], V', M0, M.Length, c)
    ensures Progress(M[..], M.Length, c, p + 1, col + 1, piv + [col])
  {
    hide Tracks, Progress, TruncDiv;
    V' := V;
    for i := 0 to p
      invariant forall k :: 0 <= k < M.Length ==> |M[k]| == c
      invariant Tracks(M[..], U[..], V', M0, M.Length, c)
      invariant Progress(M[..], M.Length, c, p, col, piv)
      invariant forall k :: p <= k < M.Length ==> M[k] == old(M[k])
      invariant forall k :: 0 <= k < i ==> 0 <= M[k][col] < M[p][col]
    {
      var q := TruncDiv(M[i][col], M[p][col]);
      TruncRemainder(M[i][col], M[p][col]);
      assert (q - 1) * M[p][col] == q * M[p][col] - M[p][col];
      if M[i][col] - q * M[p][col] < 0 { q := q - 1; }
      V' := ReduceRow(M, U, i, p, col, q, M0, V', c, piv);
    }
    NewPivot(M[..], M.Length, c, p, col, piv);
  }

  method MakePositive(M: array<Vec>, U: array<Vec>, p: nat, col: nat, ghost M0: Mat, ghost V: Mat, ghost c: nat,
                      ghost piv: seq<nat>) returns (ghost V': Mat)
    requires M != U && M.Length == U.Length && p < M.Length && col < c
    requires forall i :: 0 <= i < M.Length ==> |M[i]| == c
    requires Tracks(M[..], U[..], V, M0, M.Length, c) && Progress(M[..], M.Length, c, p, col, piv)
    modifies M, U
    ensures forall i :: 0 <= i < M.Length ==> |M[i]| == c
    ensures Tracks(M[..], U[..], V', M0, M.Length, c) && Progress(M[..], M.Length, c, p, col, piv)
    ensures M[p][col] == -old(M[p][col])
    ensures forall i :: 0 <= i < M.Length && i != p ==> M[i] == old(M[i])
  {
    hide Tracks, Progress, TruncDiv;
    ghost var was := M[..];
    OpKeepsLeft(Neg(p), was, M.Length, c, p, col, piv);
    V' := NegRow(M, U, p, M0, V, c);
    assert forall k :: 0 <= k < M.Length ==> M[k] == M[..][k] && was[k] == old(M[k]);
  }

  lemma NewPivot(M: Mat, r: nat, c: nat, p: nat, col: nat, piv: seq<nat>)
    requires Progress(M, r, c, p, col, piv) && p < r && col < c && M[p][col] > 0
    requires forall i :: p < i < r ==> M[i][col] == 0
    requires forall i :: 0 <= i < p ==> 0 <= M[i][col] < M[p][col]
    ensures Progress(M, r, c, p + 1, col + 1, piv + [col])
  {
  }

  // ---- the normal form

  // one iteration of the column loop: a new pivot, or a column without one
  method EliminateColumn(M: array<Vec>, U: array<Vec>, p: nat, col: nat, ghost M0: Mat, ghost V: Mat, ghost c: nat,
                         ghost piv: seq<nat>) returns (found: bool, ghost V': Mat, ghost piv': seq<nat>)
    requires M != U && M.Length == U.Length && p < M.Length && col < c
    requires forall i :: 0 <= i < M.Length ==> |M[i]| == c
    requires Tracks(M[..], U[..], V, M0, M.Length, c) && Progress(M[..], M.Length, c, p, col, piv)
    modifies M, U
    ensures forall i :: 0 <= i < M.Length ==> |M[i]| == c
    ensures Tracks(M[..], U[..], V', M0, M.Length, c)
    ensures piv' == if found then piv + [col] else piv
    ensures Progress(M[..], M.Length, c, if found then p + 1 else p, col + 1, piv')
  {
    hide Tracks, Progress;
    V' := ClearColumn(M, U, p, col, M0, V, c, piv);
    found := M[p][col] != 0;
    piv' := if found then piv + [col] else piv;
    if found {
      if M[p][col] < 0 {
        V' := MakePositive(M, U, p, col, M0, V', c, piv);
      }
      V' := ReduceAbove(M, U, p, col, M0, V', c, piv);
    } else {
      EmptyColumn(M[..], M.Length, c, p, col, piv);
    }
  }

  method SetIdentity(M: array<Vec>, U: array<Vec>) returns (ghost V: Mat)
    requires M != U && M.Length == U.Length
    requires forall i :: 0 <= i < M.Length ==> |M[i]| == |M[0]|
    modifies U
    ensures var c := if M.Length == 0 then 0 else |M[0]|;
      U[..] == Id(M.Length) && Tracks(M[..], U[..], V, M[..], M.Length, c)
  {
    var r := M.Length;
    for i := 0 to r
      invariant forall k :: 0 <= k < i ==> U[k] == Unit(r, k)
    {
      U[i] := seq(r, j => if i == j then 1 else 0);
    }
    V := Id(r);
    assert U[..] == V;
    IdInverses(r);
    IdMul(M[..], r, if r == 0 then 0 else |M[0]|);
  }

  lemma Started(M: Mat, r: nat, c: nat)
    requires IsMat(M, r, c)
    ensures Progress(M, r, c, 0, 0, [])
  {
  }

  lemma EmptyColumn(M: Mat, r: nat, c: nat, p: nat, col: nat, piv: seq<nat>)
    requires Progress(M, r, c, p, col, piv) && col < c
    requires forall i :: p <= i < r ==> M[i][col] == 0
    ensures Progress(M, r, c, p, col + 1, piv)
  {
  }

  lemma Finished(M: Mat, r: nat, c: nat, p: nat, col: nat, piv: seq<nat>)
    requires Progress(M, r, c, p, col, piv) && (col == c || p == r)
    ensures IsHnf(M, r, c, piv) && |piv| == p
  {
  }

  method Hnf(M: array<Vec>, U: array<Vec>) returns (rank: nat, ghost V: Mat, ghost piv: seq<nat>)
    requires M != U && M.Length == U.Length
    requires forall i :: 0 <= i < M.Length ==> |M[i]| == |M[0]|
    modifies M, U
    ensures var c := if M.Length == 0 then 0 else |old(M[..])[0]|;
      && Tracks(M[..], U[..], V, old(M[..]), M.Length, c)
      && IsHnf(M[..], M.Length, c, piv) && rank == |piv|
  {
    hide *;
    var r := M.Length;
    var c := if r == 0 then 0 else |M[0]|;
    ghost var M0 := M[..];
    V := SetIdentity(M, U);
    Started(M0, r, c);
    piv := [];
    var p := 0;
    var col := 0;
    while col < c && p < r
      invariant col <= c && p <= r
      invariant forall i :: 0 <= i < r ==> |M[i]| == c
      invariant Tracks(M[..], U[..], V, M0, r, c)
      invariant Progress(M[..], r, c, p, col, piv)
    {
      var found;
      found, V, piv := EliminateColumn(M, U, p, col, M0, V, c, piv);
      if found { p := p + 1; }
      col := col + 1;
    }
    Finished(M[..], r, c, p, col, piv);
    rank := p;
  }

  // ---- the inverse of a unimodular matrix

  // the first j pivots sit on the diagonal and are 1, and G is upper triangular there
  ghost predicate DiagonalTo(G: Mat, H: Mat, n: nat, piv: seq<nat>, j: nat) {
    && IsMat(G, n, n) && IsHnf(H, n, n, piv) && j <= |piv|
    && (forall k :: 0 <= k < j ==> piv[k] == k && H[k][k] == 1)
    && (forall i, k :: 0 <= k < j && k < i < n ==> G[i][k] == 0)
  }

  lemma BelowPivotZero(H: Mat, n: nat, piv: seq<nat>, j: nat, k: nat)
    requires IsHnf(H, n, n, piv) && j < n && k < n
    requires k >= |piv| || piv[k] > j
    ensures H[k][j] == 0
  {
  }

  lemma DotColumn(G: Mat, H: Mat, n: nat, piv: seq<nat>, j: nat, i: nat)
    requires DiagonalTo(G, H, n, piv, j) && j <= i < n
    ensures |piv| > j && piv[j] == j ==> Dot(G[i], H, j) == G[i][j] * H[j][j]
    ensures |piv| == j || piv[j] > j ==> Dot(G[i], H, j) == 0
  {
    var f := k => Term(G[i], H, j, k);
    if |piv| > j && piv[j] == j {
      forall k | 0 <= k < n && k != j ensures f(k) == 0 {
        if k > j { BelowPivotZero(H, n, piv, j, k); }
      }
      SumSingle(n, j, f);
    } else if |piv| == j || piv[j] > j {
      forall k | 0 <= k < n ensures f(k) == 0 {
        if k >= j {
          assert k < |piv| ==> piv[k] > j;
          BelowPivotZero(H, n, piv, j, k);
        }
      }
      SumZero(n, f);
    }
  }

  lemma NextPivotAtLeast(piv: seq<nat>, j: nat)
    requires forall i, k :: 0 <= i < k < |piv| ==> piv[i] < piv[k]
    requires j < |piv| && forall k :: 0 <= k < j ==> piv[k] == k
    ensures piv[j] >= j
  {
    if j > 0 { assert piv[j - 1] < piv[j]; }
  }

  lemma ProductSign(g: int, h: int)
    requires h > 0
    ensures g >= 1 ==> g * h >= h
    ensures g <= 0 ==> g * h <= 0
  {
  }

  lemma UnitProduct(g: int, h: int)
    requires h > 0 && g * h == 1
    ensures h == 1
  {
    ProductSign(g, h);
  }

  lemma DiagonalStep(G: Mat, H: Mat, n: nat, piv: seq<nat>, j: nat)
    requires DiagonalTo(G, H, n, piv, j) && j < n && Mul(G, H, n) == Id(n)
    ensures DiagonalTo(G, H, n, piv, j + 1)
  {
    assert Mul(G, H, n)[j][j] == Id(n)[j][j] == 1;
    DotColumn(G, H, n, piv, j, j);
    if j < |piv| { NextPivotAtLeast(piv, j); }
    assert |piv| > j && piv[j] == j;
    UnitProduct(G[j][j], H[j][j]);
    forall i | j < i < n ensures G[i][j] == 0 {
      DotColumn(G, H, n, piv, j, i);
      assert Mul(G, H, n)[i][j] == Id(n)[i][j] == 0;
    }
  }

  lemma {:induction false} DiagonalAll(G: Mat, H: Mat, n: nat, piv: seq<nat>, j: nat)
    requires IsMat(G, n, n) && IsHnf(H, n, n, piv) && Mul(G, H, n) == Id(n) && j <= n
    ensures DiagonalTo(G, H, n, piv, j)
  {
    if j > 0 {
      DiagonalAll(G, H, n, piv, j - 1);
      DiagonalStep(G, H, n, piv, j - 1);
    }
  }

  // a square matrix in Hermite form with an integer left inverse is the identity
  lemma HnfOfInvertible(G: Mat, H: Mat, n: nat, piv: seq<nat>)
    requires IsMat(G, n, n) && IsHnf(H, n, n, piv) && Mul(G, H, n) == Id(n)
    ensures H == Id(n)
  {
    DiagonalAll(G, H, n, piv, n);
    forall i, j | 0 <= i < n && 0 <= j < n ensures H[i][j] == Id(n)[i][j] {
      if i < j { assert 0 <= H[i][piv[j]] < H[j][piv[j]]; } else if j < i { BelowPivotZero(H, n, piv, j, i); }
    }
    MatEq(H, Id(n), n, n);
  }

  // W*U = I and W has a left inverse, so that left inverse is U itself
  lemma LeftInverseIsInverse(W: Mat, V: Mat, U: Mat, n: nat)
    requires Inverses(W, V, n) && IsMat(U, n, n) && Mul(W, U, n) == Id(n)
    ensures V == U && Inverses(U, W, n)
  {
    MulAssoc(V, W, U, n, n, n, n);
    MulId(V, n, n);
    IdMul(U, n, n);
  }

  // `inverse(U)` is the transform that brings U to Hermite form: the two-sided inverse exactly when U has one
  method Inverse(U: Mat) returns (W: Mat)
    requires IsMat(U, |U|, |U|)
    ensures IsMat(W, |U|, |U|) && Unimodular(W, |U|)
    ensures Inverses(U, W, |U|) <==> Unimodular(U, |U|)
  {
    var n := |U|;
    var M := new Vec[n](i requires 0 <= i < n => U[i]);
    var T := new Vec[n](i => []);
    assert M[..] == U;
    ghost var was := M[..];
    var rank; ghost var V, piv;
    rank, V, piv := Hnf(M, T);
    W := T[..];
    InverseIff(U, M[..], W, V, n, piv);
  }

  lemma InverseIff(U: Mat, H: Mat, W: Mat, V: Mat, n: nat, piv: seq<nat>)
    requires Tracks(H, W, V, U, n, n) && IsHnf(H, n, n, piv)
    ensures Inverses(U, W, n) <==> Unimodular(U, n)
    ensures Unimodular(W, n)
  {
    if Unimodular(U, n) {
      var X :| Inverses(U, X, n);
      // (X V) H = X (V (W U)) = X U = I
      var G := Mul(X, V, n);
      MulAssoc(X, V, H, n, n, n, n);
      MulAssoc(V, W, U, n, n, n, n);
      IdMul(U, n, n);
      HnfOfInvertible(G, H, n, piv);
      LeftInverseIsInverse(W, V, U, n);
    }
  }
}
