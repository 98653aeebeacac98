// Coordinate discovery after the fits: the stride matrix of every fitted site, its Hermite normal form, the logical
// coordinates with their strides, and the check that the basis change reproduces every physical stride.
module Coordinates {
  import opened LinearAlgebra
  import opened Polynomials
  import opened MonomialOrder
  import opened Hermite

  datatype Role = Store | Control | Load        // Control: a predicate literal or an operand of a derived quantity

  // an access site; `stride` has one entry per axis (physical, then derived), a null stride being the zero polynomial
  datatype Site = Site(role: Role, fitted: bool, stride: seq<Poly>)

  datatype Column = Column(site: nat, mono: Mono)

  function StrideOf(s: Site, a: nat): Poly { if a < |s.stride| then s.stride[a] else map[] }

  // ---- the columns: one per (fitted site, monomial of one of its strides)

  function Pass(role: Role): nat { match role case Store => 0 case Control => 1 case Load => 2 }

  // stores first, then predicate literals and derived operands, then loads
  ghost predicate Before(sites: seq<Site>, s: nat, t: nat)
    requires s < |sites| && t < |sites|
  {
    var p, q := Pass(sites[s].role), Pass(sites[t].role);
    p < q || (p == q && s < t)
  }

  ghost predicate InOrder(sites: seq<Site>, order: seq<nat>) {
    && (forall i :: 0 <= i < |order| ==> order[i] < |sites|)
    && forall i, j :: 0 <= i < j < |order| ==> Before(sites, order[i], order[j])
  }

  method SiteOrder(sites: seq<Site>) returns (order: seq<nat>)
    ensures InOrder(sites, order)
    ensures forall s: nat :: s in order <==> s < |sites| && sites[s].fitted
  {
    order := [];
    for pass := 0 to 3
      invariant InOrder(sites, order)
      invariant forall s: nat :: s in order <==> s < |sites| && sites[s].fitted && Pass(sites[s].role) < pass
    {
      for s := 0 to |sites|
        invariant InOrder(sites, order)
        invariant forall t: nat :: t in order <==> (t < |sites| && sites[t].fitted
          && (Pass(sites[t].role) < pass || (Pass(sites[t].role) == pass && t < s)))
      {
        if Pass(sites[s].role) == pass && sites[s].fitted { order := order + [s]; }
      }
    }
  }

  ghost predicate Distinct<T>(s: seq<T>) { forall i, j :: 0 <= i < j < |s| ==> s[i] != s[j] }

  // w is a monomial of a stride of s along one of the first n axes
  ghost predicate Moves(s: Site, n: nat, w: Mono) {
    exists a :: 0 <= a < n && w in StrideOf(s, a)
  }

  ghost predicate AllColumns(sites: seq<Site>, n: nat, cols: seq<Column>) {
    && Distinct(cols)
    && forall c: Column :: c in cols <==> c.site < |sites| && sites[c.site].fitted && Moves(sites[c.site], n, c.mono)
  }

  // c comes before d: by site, then by the first axis the monomial moves along, then by the order of monomials
  ghost predicate ColumnBefore(sites: seq<Site>, c: Column, d: Column) {
    if c.site != d.site then c.site < |sites| && d.site < |sites| && Before(sites, c.site, d.site)
    else c.site < |sites| && MonoBefore(sites[c.site], c.mono, d.mono)
  }

  ghost predicate MonoBefore(s: Site, v: Mono, w: Mono) {
    || (exists a :: Moves(s, a, v) && !Moves(s, a, w))
    || ((forall a :: Moves(s, a, v) <==> Moves(s, a, w)) && MonoLess(v, w))
  }

  ghost predicate InColumnOrder(sites: seq<Site>, cols: seq<Column>) {
    forall i, j :: 0 <= i < j < |cols| ==> ColumnBefore(sites, cols[i], cols[j])
  }

  // the columns of the sites order[..k] and, of site s, those along the first a axes
  ghost predicate ColumnsSoFar(sites: seq<Site>, n: nat, order: seq<nat>, k: nat, s: nat, a: nat, cols: seq<Column>) {
    && k <= |order| && Distinct(cols) && InColumnOrder(sites, cols)
    && forall c: Column :: c in cols <==>
      (c.site in order[..k] && c.site < |sites| && Moves(sites[c.site], n, c.mono))
        || (c.site == s && s < |sites| && Moves(sites[s], a, c.mono))
  }

  method Columns(sites: seq<Site>, n: nat) returns (cols: seq<Column>)
    ensures AllColumns(sites, n, cols) && InColumnOrder(sites, cols)
  {
    var order := SiteOrder(sites);
    cols := [];
    for k := 0 to |order|
      invariant ColumnsSoFar(sites, n, order, k, 0, 0, cols)
    {
      var s := order[k];
      assert order[..k + 1] == order[..k] + [s];
      for a := 0 to n
        invariant ColumnsSoFar(sites, n, order, k, s, a, cols)
      {
        ghost var before := cols;
        cols := AddColumns(cols, s, StrideOf(sites[s], a));
        AxisAdded(sites, n, order, k, s, a, before, cols);
      }
    }
    assert order[..|order|] == order;
  }

  // what one axis adds: the new monomials of p, in order
  ghost predicate Added(cols: seq<Column>, s: nat, p: Poly, more: seq<Column>) {
    && |cols| <= |more| && more[..|cols|] == cols && Distinct(more)
    && (forall c: Column :: c in more <==> c in cols || (c.site == s && c.mono in p))
    && (forall i :: |cols| <= i < |more| ==> more[i].site == s && more[i].mono in p && more[i] !in cols)
    && forall i, j :: |cols| <= i < j < |more| ==> MonoLess(more[i].mono, more[j].mono)
  }

  method AddColumns(cols: seq<Column>, s: nat, p: Poly) returns (more: seq<Column>)
    requires Distinct(cols)
    ensures Added(cols, s, p, more)
  {
    MonoOrder();
    hide MonoLess;
    more := cols;
    var keys := SortKeys(p.Keys, MonoLess);
    for k := 0 to |keys|
      invariant |cols| <= |more| && more[..|cols|] == cols && Distinct(more)
      invariant forall c: Column :: c in more <==> c in cols || (c.site == s && c.mono in keys[..k])
      invariant forall i :: |cols| <= i < |more| ==> more[i].site == s && more[i].mono in keys[..k] && more[i] !in cols
      invariant forall i, j :: |cols| <= i < j < |more| ==> MonoLess(more[i].mono, more[j].mono)
    {
      assert keys[..k + 1] == keys[..k] + [keys[k]];
      if Column(s, keys[k]) !in more { more := more + [Column(s, keys[k])]; }
    }
    assert keys[..|keys|] == keys;
  }

  lemma AxisAdded(sites: seq<Site>, n: nat, order: seq<nat>, k: nat, s: nat, a: nat, cols: seq<Column>,
      more: seq<Column>)
    requires k < |order| && s == order[k] && InOrder(sites, order) && a < n
    requires ColumnsSoFar(sites, n, order, k, s, a, cols) && Added(cols, s, StrideOf(sites[s], a), more)
    ensures ColumnsSoFar(sites, n, order, k, s, a + 1, more)
  {
    hide MonoLess;
    var p := StrideOf(sites[s], a);
    forall w: Mono ensures Moves(sites[s], a + 1, w) <==> Moves(sites[s], a, w) || w in p { MovesMore(sites[s], a, w); }
    forall i, j | 0 <= i < j < |more| ensures ColumnBefore(sites, more[i], more[j]) {
      if j < |cols| {
        assert more[i] == cols[i] && more[j] == cols[j];
      } else {
        assert more[j] !in cols && !Moves(sites[s], a, more[j].mono);
        if i < |cols| {
          assert more[i] == cols[i] && cols[i] in cols;
          OldBefore(sites, n, order, k, s, a, cols[i], more[j]);
        } else {
          assert more[i] !in cols && !Moves(sites[s], a, more[i].mono);
          NewTogether(sites[s], a, more[i].mono, more[j].mono);
        }
      }
    }
  }

  lemma MovesMore(s: Site, a: nat, w: Mono)
    ensures Moves(s, a + 1, w) <==> Moves(s, a, w) || w in StrideOf(s, a)
  {
  }

  lemma OldBefore(sites: seq<Site>, n: nat, order: seq<nat>, k: nat, s: nat, a: nat, c: Column, d: Column)
    requires k < |order| && s == order[k] && InOrder(sites, order) && d.site == s && !Moves(sites[s], a, d.mono)
    requires (c.site in order[..k] && c.site < |sites|) || (c.site == s && Moves(sites[s], a, c.mono))
    ensures ColumnBefore(sites, c, d)
  {
    if c.site in order[..k] {
      var i :| 0 <= i < k && order[i] == c.site;
      assert Before(sites, order[i], order[k]);
    }
  }

  // monomials that first move along the same axis
  lemma NewTogether(s: Site, a: nat, v: Mono, w: Mono)
    requires v in StrideOf(s, a) && w in StrideOf(s, a) && !Moves(s, a, v) && !Moves(s, a, w) && MonoLess(v, w)
    ensures MonoBefore(s, v, w)
  {
    forall b: nat ensures Moves(s, b, v) <==> Moves(s, b, w) {
      if b > a {
        assert Moves(s, b, v) && Moves(s, b, w);
      } else {
        MovesGrows(s, b, a, v);
        MovesGrows(s, b, a, w);
      }
    }
  }

  lemma MovesGrows(s: Site, b: nat, a: nat, w: Mono)
    requires b <= a
    ensures Moves(s, b, w) ==> Moves(s, a, w)
  {
  }

  // ---- the stride matrix of the physical axes

  ghost function StrideMatrix(sites: seq<Site>, cols: seq<Column>, n: nat): Mat {
    seq(n, a requires 0 <= a < n =>
      seq(|cols|, c requires 0 <= c < |cols| =>
        if cols[c].site < |sites| then Coef(StrideOf(sites[cols[c].site], a), cols[c].mono) else 0))
  }

  method FillMatrix(sites: seq<Site>, cols: seq<Column>, n: nat) returns (M: array<Vec>)
    ensures fresh(M) && M[..] == StrideMatrix(sites, cols, n)
  {
    M := new Vec[n](a => []);
    for a := 0 to n
      invariant forall b :: 0 <= b < a ==> M[b] == StrideMatrix(sites, cols, n)[b]
    {
      var row: Vec := [];
      for c := 0 to |cols|
        invariant |row| == c
        invariant forall e :: 0 <= e < c ==> row[e] == StrideMatrix(sites, cols, n)[a][e]
      {
        row := row + [if cols[c].site < |sites| then Coef(StrideOf(sites[cols[c].site], a), cols[c].mono) else 0];
      }
      assert row == StrideMatrix(sites, cols, n)[a];
      M[a] := row;
    }
  }

  // an axis along which no fitted access moves
  ghost predicate Replicated(sites: seq<Site>, a: nat) {
    forall s :: 0 <= s < |sites| && sites[s].fitted ==> StrideOf(sites[s], a) == map[]
  }

  // every monomial of a stride has a column, where the matrix holds its coefficient
  lemma ColumnOf(sites: seq<Site>, cols: seq<Column>, n: nat, ax: nat, s: nat, a: nat, w: Mono) returns (c: nat)
    requires n <= ax && AllColumns(sites, ax, cols) && s < |sites| && sites[s].fitted && a < n
      && w in StrideOf(sites[s], a)
    ensures c < |cols| && cols[c] == Column(s, w)
    ensures StrideMatrix(sites, cols, n)[a][c] != 0
  {
    assert Moves(sites[s], ax, w);
    assert Column(s, w) in cols;
    c :| 0 <= c < |cols| && cols[c] == Column(s, w);
  }

  lemma ZeroRow(sites: seq<Site>, cols: seq<Column>, n: nat, ax: nat, a: nat)
    requires n <= ax && AllColumns(sites, ax, cols) && a < n
    ensures Replicated(sites, a) <==> forall c :: 0 <= c < |cols| ==> StrideMatrix(sites, cols, n)[a][c] == 0
  {
    if forall c :: 0 <= c < |cols| ==> StrideMatrix(sites, cols, n)[a][c] == 0 {
      forall s | 0 <= s < |sites| && sites[s].fitted ensures StrideOf(sites[s], a) == map[] {
        if w :| w in StrideOf(sites[s], a) { var c := ColumnOf(sites, cols, n, ax, s, a, w); }
      }
    } else {
      var c :| 0 <= c < |cols| && StrideMatrix(sites, cols, n)[a][c] != 0;
      assert cols[c] in cols;
    }
  }

  // ---- the strides of the logical coordinates

  // row j of H, restricted to the columns of site s
  ghost predicate IsCoordStride(cols: seq<Column>, H: Mat, s: nat, j: nat, p: Poly)
    requires j < |H| && |H[j]| == |cols|
  {
    && (forall c :: 0 <= c < |cols| && cols[c].site == s ==> Coef(p, cols[c].mono) == H[j][c])
    && (forall w: Mono :: Column(s, w) !in cols ==> Coef(p, w) == 0)
  }

  method CoordStride(cols: seq<Column>, H: Mat, s: nat, j: nat) returns (p: Poly)
    requires Distinct(cols) && j < |H| && |H[j]| == |cols|
    ensures IsCoordStride(cols, H, s, j, p)
  {
    p := map[];
    for c := 0 to |cols|
      invariant forall e :: 0 <= e < c && cols[e].site == s ==> Coef(p, cols[e].mono) == H[j][e]
      invariant forall w: Mono :: Column(s, w) !in cols[..c] ==> Coef(p, w) == 0
    {
      assert cols[..c + 1] == cols[..c] + [cols[c]];
      if cols[c].site == s && H[j][c] != 0 { p := p[cols[c].mono := H[j][c]]; }
    }
    assert cols[..|cols|] == cols;
  }

  // stride_a as the basis change gives it
  ghost function ViaCoords(row: Vec, coord: seq<Poly>): Poly {
    PolySum(|coord|, Via(row, coord))
  }

  ghost function Via(row: Vec, coord: seq<Poly>): int -> Poly {
    j => if 0 <= j < |coord| && j < |row| then Scale(row[j], coord[j]) else map[]
  }

  ghost function ViaTerm(row: Vec, coord: seq<Poly>, w: Mono, j: int): int {
    if 0 <= j < |coord| && j < |row| then row[j] * Coef(coord[j], w) else 0
  }

  ghost predicate CoordStrides(cols: seq<Column>, H: Mat, s: nat, coord: seq<Poly>) {
    |coord| <= |H| && forall j :: 0 <= j < |coord| ==> |H[j]| == |cols| && IsCoordStride(cols, H, s, j, coord[j])
  }

  lemma ViaCoordsCoef(row: Vec, coord: seq<Poly>, w: Mono)
    requires |coord| <= |row|
    ensures Coef(ViaCoords(row, coord), w) == Sum(|coord|, j => ViaTerm(row, coord, w, j))
  {
    PolySumCoef(|coord|, Via(row, coord), w);
    SumExt(|coord|, k => Coef(Via(row, coord)(k), w), j => ViaTerm(row, coord, w, j));
  }

  // dropping zero rows does not change a row of V*H
  lemma {:induction false} SumPrefix(d: nat, n: nat, f: int -> int)
    requires d <= n && forall k :: d <= k < n ==> f(k) == 0
    ensures Sum(n, f) == Sum(d, f)
  {
    if d < n { SumPrefix(d, n - 1, f); }
  }

  lemma TruncatedDot(row: Vec, H: Mat, n: nat, m: nat, d: nat, c: nat)
    requires IsMat(H, n, m) && |row| == n && d <= n && c < m && ZeroFrom(H, n, d, m)
    ensures Dot(row, H, c) == Sum(d, k => Term(row, H, c, k))
  {
    SumPrefix(d, n, k => Term(row, H, c, k));
  }

  // The basis change reproduces every stride: stride_a = sum_j V[a][j] * coordStride_j.
  lemma BasisReproduces(sites: seq<Site>, cols: seq<Column>, n: nat, ax: nat, H: Mat, V: Mat, d: nat, s: nat,
      coord: seq<Poly>, a: nat)
    requires n <= ax && AllColumns(sites, ax, cols) && s < |sites| && sites[s].fitted && a < n
    requires IsMat(H, n, |cols|) && IsMat(V, n, n) && d <= n && ZeroFrom(H, n, d, |cols|)
    requires Mul(V, H, |cols|) == StrideMatrix(sites, cols, n)
    requires |coord| == d && CoordStrides(cols, H, s, coord)
    ensures StrideOf(sites[s], a) == ViaCoords(V[a], coord)
  {
    var t := StrideOf(sites[s], a);
    forall w: Mono ensures Coef(t, w) == Coef(ViaCoords(V[a], coord), w) {
      ViaCoordsCoef(V[a], coord, w);
      var g := j => ViaTerm(V[a], coord, w, j);
      if Column(s, w) in cols {
        var c :| 0 <= c < |cols| && cols[c] == Column(s, w);
        TruncatedDot(V[a], H, n, |cols|, d, c);
        SumExt(d, g, k => Term(V[a], H, c, k));
        assert Mul(V, H, |cols|)[a][c] == StrideMatrix(sites, cols, n)[a][c];
      } else {
        if w in t { var c := ColumnOf(sites, cols, n, ax, s, a, w); }
        SumZero(d, g);
      }
    }
    PolyEq(t, ViaCoords(V[a], coord));
  }

  // viaCoords as the check accumulates it
  method Accumulate(row: Vec, coord: seq<Poly>) returns (via: Poly)
    requires |coord| <= |row|
    ensures via == ViaCoords(row, coord)
  {
    via := map[];
    ghost var f := Via(row, coord);
    for j := 0 to |coord|
      invariant forall w: Mono :: Coef(via, w) == Coef(PolySum(j, f), w)
    {
      if coord[j] != map[] && row[j] != 0 { via := Add(via, Scale(row[j], coord[j])); }
    }
    PolyEq(via, ViaCoords(row, coord));
  }

  // ---- discovery

  // what the discovery hands on: per fitted site the coordinate strides, and V (one row per axis, the derived ones
  // zero) with coordinate j = sum_a V[a][j]*x_a
  ghost predicate Discovered(sites: seq<Site>, n: nat, ax: nat, d: nat, V: Mat, coord: seq<seq<Poly>>) {
    && |coord| == |sites| && n <= ax && IsMat(V, ax, d)
    && (forall a, j :: n <= a < ax && 0 <= j < d ==> V[a][j] == 0)
    && forall s :: 0 <= s < |sites| && sites[s].fitted ==> |coord[s]| == d && Through(sites[s], n, V, coord[s])
  }

  // every physical stride of the site is its combination of the coordinate strides
  ghost predicate Through(s: Site, n: nat, V: Mat, coord: seq<Poly>) {
    n <= |V| && forall a :: 0 <= a < n ==> StrideOf(s, a) == ViaCoords(V[a], coord)
  }

  // only the first |coord| entries of a row matter
  lemma RowPrefix(row: Vec, d: nat, coord: seq<Poly>)
    requires d == |coord| <= |row|
    ensures ViaCoords(row[..d], coord) == ViaCoords(row, coord)
  {
    forall w: Mono ensures Coef(ViaCoords(row[..d], coord), w) == Coef(ViaCoords(row, coord), w) {
      ViaCoordsCoef(row[..d], coord, w);
      ViaCoordsCoef(row, coord, w);
      SumExt(d, j => ViaTerm(row[..d], coord, w, j), j => ViaTerm(row, coord, w, j));
    }
    PolyEq(ViaCoords(row[..d], coord), ViaCoords(row, coord));
  }

  // H = U*S with U invertible: the rows of V = U^-1 combine H back into S
  lemma FactorBack(S: Mat, H: Mat, U: Mat, V: Mat, n: nat, m: nat)
    requires IsMat(S, n, m) && Mul(U, S, m) == H && Inverses(U, V, n)
    ensures Mul(V, H, m) == S
  {
    MulAssoc(V, U, S, n, n, n, m);
    IdMul(S, n, m);
  }

  // the transform of the stride matrix, its rank, and the first rank columns of the inverse transform
  ghost predicate IsBasis(sites: seq<Site>, cols: seq<Column>, n: nat, d: nat, H: Mat, V: Mat) {
    && IsMat(H, n, |cols|) && IsMat(V, n, n) && Unimodular(V, n)
    && Mul(V, H, |cols|) == StrideMatrix(sites, cols, n)
    && d <= n && exists piv :: IsHnf(H, n, |cols|, piv) && |piv| == d
  }

  method Basis(sites: seq<Site>, cols: seq<Column>, n: nat) returns (d: nat, H: Mat, V: Mat)
    requires |cols| > 0 && n > 0
    ensures IsBasis(sites, cols, n, d, H, V)
  {
    var M := FillMatrix(sites, cols, n);
    var U := new Vec[n](i => []);
    ghost var S := M[..];
    assert IsMat(S, n, |cols|);
    ghost var W, piv;
    d, W, piv := Hnf(M, U);
    H := M[..];
    ghost var u := U[..];
    assert Tracks(H, u, W, S, n, |cols|) && IsHnf(H, n, |cols|, piv);
    V := Inverse(U[..]);
    assert Inverses(u, W, n);
    assert Unimodular(u, n);
    FactorBack(S, H, u, V, n, |cols|);
  }

  lemma NoColumns(sites: seq<Site>, cols: seq<Column>, n: nat, ax: nat, s: nat, a: nat)
    requires n <= ax && AllColumns(sites, ax, cols) && |cols| == 0 && s < |sites| && sites[s].fitted && a < n
    ensures StrideOf(sites[s], a) == map[]
  {
    if w :| w in StrideOf(sites[s], a) { var c := ColumnOf(sites, cols, n, ax, s, a, w); }
  }

  // the inputs of the per-site work: a basis when there is anything to reduce, rank 0 otherwise
  ghost predicate Reduced(sites: seq<Site>, cols: seq<Column>, n: nat, ax: nat, d: nat, H: Mat, V: Mat, DV: Mat) {
    && n <= ax && AllColumns(sites, ax, cols) && IsMat(DV, ax, d) && IsMat(H, n, |cols|) && d <= n && IsMat(V, n, n)
    && (forall a :: 0 <= a < n ==> DV[a] == V[a][..d])
    && (if |cols| > 0 && n > 0 then IsBasis(sites, cols, n, d, H, V) else d == 0)
  }

  lemma ReproducesAll(sites: seq<Site>, cols: seq<Column>, n: nat, ax: nat, d: nat, H: Mat, V: Mat, DV: Mat, s: nat,
      coord: seq<Poly>, a: nat)
    requires Reduced(sites, cols, n, ax, d, H, V, DV) && s < |sites| && sites[s].fitted && a < n
    requires |coord| == d && CoordStrides(cols, H, s, coord)
    ensures StrideOf(sites[s], a) == ViaCoords(DV[a], coord)
  {
    if |cols| > 0 {
      var piv :| IsHnf(H, n, |cols|, piv) && |piv| == d;
      BasisReproduces(sites, cols, n, ax, H, V, d, s, coord, a);
      RowPrefix(V[a], d, coord);
    } else {
      NoColumns(sites, cols, n, ax, s, a);
    }
  }

  // the coordinates of one site, and the check against its physical strides
  method SiteCoordinates(sites: seq<Site>, cols: seq<Column>, n: nat, ghost ax: nat, H: Mat, ghost V: Mat, DV: Mat,
      d: nat, s: nat)
    returns (coord: seq<Poly>, ok: bool)
    requires Reduced(sites, cols, n, ax, d, H, V, DV) && s < |sites| && sites[s].fitted
    ensures |coord| == d && CoordStrides(cols, H, s, coord)
    ensures Through(sites[s], n, DV, coord)
    ensures ok
  {
    coord, ok := [], true;
    for j := 0 to d
      invariant |coord| == j && CoordStrides(cols, H, s, coord)
    {
      var p := CoordStride(cols, H, s, j);
      coord := coord + [p];
    }
    assert n <= |DV| && forall a :: 0 <= a < n ==> |DV[a]| == d;
    forall a | 0 <= a < n ensures StrideOf(sites[s], a) == ViaCoords(DV[a], coord) {
      ReproducesAll(sites, cols, n, ax, d, H, V, DV, s, coord, a);
    }
    assert Through(sites[s], n, DV, coord);
    hide *;
    for a := 0 to n
      invariant ok
    {
      var via := Accumulate(DV[a], coord);
      if via != StrideOf(sites[s], a) { return coord, false; }
    }
  }

  // the coordinate strides of all fitted sites, one row per coordinate, one column per (site, monomial)
  ghost function CoordMatrix(cols: seq<Column>, coord: seq<seq<Poly>>, d: nat): Mat {
    seq(d, j requires 0 <= j < d => seq(|cols|, c requires 0 <= c < |cols| => CoordEntry(cols[c], coord, j)))
  }

  ghost function CoordEntry(c: Column, coord: seq<seq<Poly>>, j: nat): int {
    if c.site < |coord| && j < |coord[c.site]| then Coef(coord[c.site][j], c.mono) else 0
  }

  // the columns of V are the first d of an invertible integer matrix
  ghost predicate Completes(V: Mat, n: nat, d: nat) {
    exists W :: Unimodular(W, n) && IsMat(W, n, n) && d <= n <= |V| && forall a :: 0 <= a < n ==> V[a] == W[a][..d]
  }

  // The coordinates are the rows of the Hermite normal form of the strides: over the columns in their order, the
  // coordinate strides have positive, strictly moving pivots, one per coordinate, with reduced entries above them.
  ghost predicate InNormalForm(sites: seq<Site>, n: nat, ax: nat, d: nat, V: Mat, coord: seq<seq<Poly>>) {
    Completes(V, n, d) && exists cols, piv ::
      AllColumns(sites, ax, cols) && InColumnOrder(sites, cols)
      && |piv| == d && IsHnf(CoordMatrix(cols, coord, d), d, |cols|, piv)
  }

  // `broken` counts the sites given up with "basis change does not reproduce the stride": none
  method Discover(sites: seq<Site>, n: nat, ax: nat)
    returns (d: nat, V: Mat, coord: seq<seq<Poly>>, isOutput: seq<bool>, replication: seq<nat>, broken: int)
    requires n <= ax
    ensures d <= n && Discovered(sites, n, ax, d, V, coord) && InNormalForm(sites, n, ax, d, V, coord)
    ensures broken == 0
    ensures forall a: nat :: a in replication <==> a < n && Replicated(sites, a)
    ensures |isOutput| == d && forall j :: 0 <= j < d ==> (isOutput[j] <==> MovesStore(sites, coord, |sites|, j))
  {
    hide *;
    var cols := Columns(sites, ax);
    replication := ReplicatedAxes(sites, cols, n, ax);
    d := 0;
    var W: Mat := seq(n, a => seq(n, j => 0));
    var H: Mat := seq(n, a => seq(|cols|, c => 0));
    if |cols| > 0 && n > 0 {
      d, H, W := Basis(sites, cols, n);
      BasisShape(sites, cols, n, d, H, W);
    }
    V := seq(ax, a requires 0 <= a < ax =>
      if a < n && a < |W| && d <= |W[a]| then W[a][..d] else seq(d, j => 0));
    IsReduced(sites, cols, n, ax, d, H, W, V);
    coord, broken := AllCoordinates(sites, cols, n, ax, H, W, V, d);
    DiscoveredSites(sites, n, ax, d, V, coord);
    FormsBasis(sites, cols, n, ax, d, H, W, V, coord);
    isOutput := Outputs(sites, coord, d);
  }

  lemma BasisShape(sites: seq<Site>, cols: seq<Column>, n: nat, d: nat, H: Mat, W: Mat)
    requires IsBasis(sites, cols, n, d, H, W)
    ensures d <= n && IsMat(H, n, |cols|) && IsMat(W, n, n)
    ensures |W| == n && (forall a :: 0 <= a < n ==> |W[a]| == n)
    ensures |H| == n && forall a :: 0 <= a < n ==> |H[a]| == |cols|
  {
    hide Mul, StrideMatrix;
  }

  lemma IsReduced(sites: seq<Site>, cols: seq<Column>, n: nat, ax: nat, d: nat, H: Mat, W: Mat, V: Mat)
    requires n <= ax && AllColumns(sites, ax, cols) && d <= n && |V| == ax
    requires |H| == n && (forall a :: 0 <= a < n ==> |H[a]| == |cols|)
    requires |W| == n && (forall a :: 0 <= a < n ==> |W[a]| == n)
    requires if |cols| > 0 && n > 0 then IsBasis(sites, cols, n, d, H, W) else d == 0
    requires forall a :: 0 <= a < ax ==> V[a] == if a < n && d <= |W[a]| then W[a][..d] else seq(d, j => 0)
    ensures Reduced(sites, cols, n, ax, d, H, W, V)
    ensures forall a, j :: n <= a < ax && 0 <= j < d ==> V[a][j] == 0
  {
    hide AllColumns, IsBasis;
  }

  lemma DiscoveredSites(sites: seq<Site>, n: nat, ax: nat, d: nat, V: Mat, coord: seq<seq<Poly>>)
    requires Discovered(sites, n, ax, d, V, coord)
    ensures |coord| == |sites| && forall s :: 0 <= s < |sites| && sites[s].fitted ==> |coord[s]| == d
  {
    hide Through;
  }

  lemma FormsBasis(sites: seq<Site>, cols: seq<Column>, n: nat, ax: nat, d: nat, H: Mat, W: Mat, V: Mat,
      coord: seq<seq<Poly>>)
    requires Reduced(sites, cols, n, ax, d, H, W, V) && InColumnOrder(sites, cols) && |coord| == |sites|
    requires forall s :: 0 <= s < |sites| && sites[s].fitted ==> |coord[s]| == d && CoordStrides(cols, H, s, coord[s])
    ensures InNormalForm(sites, n, ax, d, V, coord)
  {
    hide *;
    if |cols| > 0 && n > 0 {
      FormsRows(sites, cols, n, ax, d, H, W, V, coord);
    } else {
      FormsNothing(sites, cols, n, ax, d, H, W, V, coord);
    }
  }

  lemma FormsRows(sites: seq<Site>, cols: seq<Column>, n: nat, ax: nat, d: nat, H: Mat, W: Mat, V: Mat,
      coord: seq<seq<Poly>>)
    requires Reduced(sites, cols, n, ax, d, H, W, V) && InColumnOrder(sites, cols) && |coord| == |sites|
    requires forall s :: 0 <= s < |sites| && sites[s].fitted ==> |coord[s]| == d && CoordStrides(cols, H, s, coord[s])
    requires |cols| > 0 && n > 0
    ensures InNormalForm(sites, n, ax, d, V, coord)
  {
    hide AllColumns, InColumnOrder, StrideMatrix, Mul, CoordEntry, CoordStrides;
    var R := CoordMatrix(cols, coord, d);
    var piv :| IsHnf(H, n, |cols|, piv) && |piv| == d;
    forall j, c | 0 <= j < d && 0 <= c < |cols| ensures R[j][c] == H[j][c] {
      RowIs(sites, cols, ax, d, H, coord, j, c);
    }
    FirstRowsNormal(H, R, n, d, |cols|, piv);
    hide IsHnf;
  }

  lemma FirstRowsNormal(H: Mat, R: Mat, n: nat, d: nat, m: nat, piv: seq<nat>)
    requires IsHnf(H, n, m, piv) && |piv| == d && IsMat(R, d, m)
    requires forall j, c :: 0 <= j < d && 0 <= c < m ==> R[j][c] == H[j][c]
    ensures IsHnf(R, d, m, piv)
  {
  }

  lemma FormsNothing(sites: seq<Site>, cols: seq<Column>, n: nat, ax: nat, d: nat, H: Mat, W: Mat, V: Mat,
      coord: seq<seq<Poly>>)
    requires Reduced(sites, cols, n, ax, d, H, W, V) && InColumnOrder(sites, cols)
    requires |cols| == 0 || n == 0
    ensures InNormalForm(sites, n, ax, d, V, coord)
  {
    hide AllColumns, InColumnOrder, StrideMatrix, Mul;
    IdInverses(n);
    assert Unimodular(Id(n), n);
    assert forall a :: 0 <= a < n ==> V[a] == Id(n)[a][..0];
    assert IsHnf(CoordMatrix(cols, coord, d), 0, |cols|, []);
  }

  lemma RowIs(sites: seq<Site>, cols: seq<Column>, ax: nat, d: nat, H: Mat, coord: seq<seq<Poly>>, j: nat, c: nat)
    requires AllColumns(sites, ax, cols) && |coord| == |sites| && j < d && c < |cols| && d <= |H| && |H[j]| == |cols|
    requires forall s :: 0 <= s < |sites| && sites[s].fitted ==> |coord[s]| == d && CoordStrides(cols, H, s, coord[s])
    ensures CoordEntry(cols[c], coord, j) == H[j][c]
  {
    assert cols[c] in cols;
    var s := cols[c].site;
    assert CoordStrides(cols, H, s, coord[s]);
    assert IsCoordStride(cols, H, s, j, coord[s][j]);
  }

  method AllCoordinates(sites: seq<Site>, cols: seq<Column>, n: nat, ghost ax: nat, H: Mat, ghost W: Mat, V: Mat,
      d: nat)
    returns (coord: seq<seq<Poly>>, broken: int)
    requires Reduced(sites, cols, n, ax, d, H, W, V)
    requires forall a, j :: n <= a < ax && 0 <= j < d ==> V[a][j] == 0
    ensures Discovered(sites, n, ax, d, V, coord) && broken == 0
    ensures forall s :: 0 <= s < |sites| && sites[s].fitted ==> |coord[s]| == d && CoordStrides(cols, H, s, coord[s])
  {
    hide *;
    coord, broken := [], 0;
    for s := 0 to |sites|
      invariant |coord| == s && broken == 0
      invariant forall t :: 0 <= t < s && sites[t].fitted ==> |coord[t]| == d && CoordStrides(cols, H, t, coord[t])
      invariant forall t :: 0 <= t < s && sites[t].fitted ==> |coord[t]| == d && Through(sites[t], n, V, coord[t])
    {
      var cs: seq<Poly>, ok := [], true;
      if sites[s].fitted { cs, ok := SiteCoordinates(sites, cols, n, ax, H, W, V, d, s); }
      coord := coord + [cs];
      broken := broken + (if ok then 0 else 1);
    }
    DiscoveredAll(sites, cols, n, ax, H, W, V, d, coord);
  }

  lemma DiscoveredAll(sites: seq<Site>, cols: seq<Column>, n: nat, ax: nat, H: Mat, W: Mat, V: Mat, d: nat,
      coord: seq<seq<Poly>>)
    requires Reduced(sites, cols, n, ax, d, H, W, V) && |coord| == |sites|
    requires forall a, j :: n <= a < ax && 0 <= j < d ==> V[a][j] == 0
    requires forall s :: 0 <= s < |sites| && sites[s].fitted ==> |coord[s]| == d && Through(sites[s], n, V, coord[s])
    ensures Discovered(sites, n, ax, d, V, coord)
  {
    hide Through, AllColumns, IsBasis;
  }

  method Outputs(sites: seq<Site>, coord: seq<seq<Poly>>, d: nat) returns (out: seq<bool>)
    requires |coord| == |sites| && forall s :: 0 <= s < |sites| && sites[s].fitted ==> |coord[s]| == d
    ensures |out| == d && forall j :: 0 <= j < d ==> (out[j] <==> MovesStore(sites, coord, |sites|, j))
  {
    out := [];
    for j := 0 to d
      invariant |out| == j && forall k :: 0 <= k < j ==> (out[k] <==> MovesStore(sites, coord, |sites|, k))
    {
      var o := exists s :: 0 <= s < |sites| && sites[s].fitted && sites[s].role == Store && coord[s][j] != map[];
      out := out + [o];
    }
  }

  // coordinate j moves a store address among the first k sites
  ghost predicate MovesStore(sites: seq<Site>, coord: seq<seq<Poly>>, k: nat, j: nat) {
    exists s :: 0 <= s < k && s < |coord| && s < |sites| && sites[s].fitted && sites[s].role == Store
      && j < |coord[s]| && coord[s][j] != map[]
  }

  method ReplicatedAxes(sites: seq<Site>, cols: seq<Column>, n: nat, ghost ax: nat) returns (rep: seq<nat>)
    requires n <= ax && AllColumns(sites, ax, cols)
    ensures forall a: nat :: a in rep <==> a < n && Replicated(sites, a)
  {
    hide AllColumns, Replicated;
    var M := FillMatrix(sites, cols, n);
    var rows := M[..];
    rep := [];
    for a := 0 to n
      invariant forall b: nat :: b in rep <==> b < a && Replicated(sites, b)
    {
      ZeroRow(sites, cols, n, ax, a);
      var row := rows[a];
      if forall c :: 0 <= c < |row| ==> row[c] == 0 { rep := rep + [a]; }
    }
  }
}
