// The index maps of the tile IR and the proof that the run-time round trip of every sampled address cannot fail.
module RoundTrip {
  import opened LinearAlgebra
  import opened Polynomials
  import opened Hermite
  import opened AffineFit
  import opened TileIR
  import C = Coordinates

  // index along one dimension: offset + sum_j coef[j] * c_j, in index units
  datatype IndexMap = IndexMap(offset: Poly, coef: seq<int>)

  lemma ExactQuotient(c: int, u: int)
    requires u > 0 && DividesInt(u, c)
    ensures TruncDiv(c, u) * u == c
  {
    var z :| c == u * z;
    if c - TruncDiv(c, u) * u != 0 { NotMultiple(c, u, z); }
  }

  ghost function BasePart(p: Poly, atom: nat, w: Mono): int { if w == multiset{atom} then 0 else Coef(p, w) }

  // what dimension k's offset must carry at v, in bytes
  ghost function OffsetBytes(p: Poly, atom: nat, keys: set<Mono>, m: Mono, v: Mono): int {
    if IsKey(keys, m + v, m) then BasePart(p, atom, m + v) else 0
  }

  // the byte step dimension k's index map takes per unit of coordinate j
  ghost function Step(ix: seq<IndexMap>, dims: seq<Dim>, k: nat, j: nat): int
    requires k < |ix| && k < |dims| && j < |ix[k].coef|
  {
    ix[k].coef[j] * dims[k].unit
  }

  // some dimension takes the monomial
  ghost predicate Placed(dims: seq<Dim>, m: Mono) {
    exists k :: 0 <= k < |dims| && IsKey(Monos(dims), m, dims[k].mono)
  }

  ghost predicate Indexes(a: Access, atom: nat, dims: seq<Dim>, ix: seq<IndexMap>) {
    && |ix| == |dims|
    && (forall k :: 0 <= k < |dims| ==> |ix[k].coef| == |a.coord|)
    && (forall k, j :: 0 <= k < |dims| && 0 <= j < |a.coord| ==> Step(ix, dims, k, j) == Coef(a.coord[j], dims[k].mono))
    && (forall k, v: Mono :: 0 <= k < |dims| ==>
        Coef(ix[k].offset, v) * dims[k].unit == OffsetBytes(a.base, atom, Monos(dims), dims[k].mono, v))
    && (forall m :: m in a.base && m != multiset{atom} ==> Placed(dims, m))
    && (forall j, m :: 0 <= j < |a.coord| && m in a.coord[j] ==> m in Monos(dims))
  }

  lemma DistinctDims(dims: seq<Dim>, i: nat, j: nat)
    requires DimsOrdered(dims) && i < |dims| && j < |dims| && dims[i].mono == dims[j].mono
    ensures i == j
  {
    DimOrder();
    hide DimLess;
  }

  lemma StrideLogged(acc: seq<Access>, atom: nat, keys: set<Mono>, log: seq<Entry>, s: nat, j: nat, m: Mono)
    requires ExactLog(acc, atom, keys, log) && s < |acc| && j < |acc[s].coord| && m in acc[s].coord[j]
    ensures Entry(m, acc[s].coord[j][m]) in log
  {
    assert FromStride(acc, |acc|, 0, Entry(m, acc[s].coord[j][m]));
  }

  lemma BaseLogged(acc: seq<Access>, atom: nat, keys: set<Mono>, log: seq<Entry>, s: nat, m: Mono, k: Mono)
    requires ExactLog(acc, atom, keys, log) && s < |acc| && m in acc[s].base && m != multiset{atom} && IsKey(keys, m, k)
    ensures Entry(k, acc[s].base[m]) in log
  {
    assert FromBase(acc, atom, keys, |acc|, Entry(k, acc[s].base[m]));
  }

  // a stride term lands in the dimension of its own monomial, whose unit divides it
  lemma StrideTerm(acc: seq<Access>, atom: nat, elem: nat, log: seq<Entry>, dims: seq<Dim>, s: nat, j: nat, m: Mono,
      k: nat)
    requires AreDims(acc, atom, elem, log, dims) && s < |acc| && j < |acc[s].coord| && m in acc[s].coord[j]
    requires k < |dims| && IsKey(Monos(dims), m, dims[k].mono)
    ensures dims[k].mono == m && dims[k].unit > 0
    ensures TruncDiv(acc[s].coord[j][m], dims[k].unit) * dims[k].unit == acc[s].coord[j][m]
  {
    hide ExactLog, DimsOrdered, IsUnit, IsKey, Monos;
    var c := acc[s].coord[j][m];
    StrideLogged(acc, atom, Monos(dims), log, s, j, m);
    KeyOfKey(Monos(dims), m);
    KeyUnique(Monos(dims), m, m, dims[k].mono);
    UnitDivides(log, elem, dims[k], c);
    ExactQuotient(c, dims[k].unit);
  }

  // a base term is a multiple of the unit of the dimension it folds into
  lemma BaseTermFits(acc: seq<Access>, atom: nat, elem: nat, log: seq<Entry>, dims: seq<Dim>, s: nat, m: Mono, k: nat)
    requires AreDims(acc, atom, elem, log, dims) && s < |acc| && m in acc[s].base && m != multiset{atom}
    requires k < |dims| && IsKey(Monos(dims), m, dims[k].mono)
    ensures dims[k].mono <= m && dims[k].unit > 0
    ensures TruncDiv(acc[s].base[m], dims[k].unit) * dims[k].unit == acc[s].base[m]
  {
    var c := acc[s].base[m];
    BaseLogged(acc, atom, Monos(dims), log, s, m, dims[k].mono);
    KeyInKeys(Monos(dims), m, dims[k].mono);
    hide ExactLog, DimsOrdered, IsUnit, IsKey, Monos;
    UnitDivides(log, elem, dims[k], c);
    ExactQuotient(c, dims[k].unit);
  }

  // ---- building the index maps

  ghost predicate CoefsDone(a: Access, dims: seq<Dim>, ix: seq<IndexMap>, n: nat) {
    && |ix| == |dims|
    && (forall k :: 0 <= k < |dims| ==> |ix[k].coef| == |a.coord|)
    && forall k, j :: 0 <= k < |dims| && 0 <= j < |a.coord| ==>
      Step(ix, dims, k, j) == if j < n then Coef(a.coord[j], dims[k].mono) else 0
  }

  // the coefficients of coordinate j, term by term; a term that fits no dimension would be skipped
  method StrideCoefs(ghost acc: seq<Access>, ghost atom: nat, ghost elem: nat, ghost log: seq<Entry>, dims: seq<Dim>,
                     ghost s: nat, a: Access, ix0: seq<IndexMap>, j: nat) returns (ix: seq<IndexMap>, skipped: int)
    requires AreDims(acc, atom, elem, log, dims) && s < |acc| && a == acc[s] && j < |a.coord|
    requires CoefsDone(a, dims, ix0, j)
    ensures CoefsDone(a, dims, ix, j + 1) && skipped == 0
    ensures forall k :: 0 <= k < |dims| ==> ix[k].offset == ix0[k].offset
  {
    hide AreDims, IsKey;
    ix, skipped := ix0, 0;
    var p := a.coord[j];
    var todo := p.Keys;
    DimsFacts(acc, atom, elem, log, dims);
    while todo != {}
      invariant todo <= p.Keys && |ix| == |dims| && skipped == 0
      invariant forall k :: 0 <= k < |dims| ==> ix[k].offset == ix0[k].offset && |ix[k].coef| == |a.coord|
      invariant forall k, i :: 0 <= k < |dims| && 0 <= i < |a.coord| && i != j ==> ix[k].coef[i] == ix0[k].coef[i]
      invariant forall k :: 0 <= k < |dims| ==>
        Step(ix, dims, k, j) == if dims[k].mono in todo then 0 else Coef(p, dims[k].mono)
    {
      var m :| m in todo;
      var k := DimOf(dims, m);
      StrideTerm(acc, atom, elem, log, dims, s, j, m, k);
      var u := dims[k].unit;
      if p[m] - TruncDiv(p[m], u) * u != 0 || dims[k].mono != m {
        skipped := skipped + 1;
      } else {
        forall i | 0 <= i < |dims| && dims[i].mono == m ensures i == k { DistinctDims(dims, i, k); }
        Accumulates(ix[k].coef[j], TruncDiv(p[m], u), u, p[m]);
        ix := ix[k := IndexMap(ix[k].offset, ix[k].coef[j := ix[k].coef[j] + TruncDiv(p[m], u)])];
      }
      todo := todo - {m};
    }
    CoefsJoin(a, dims, ix0, ix, j);
  }

  lemma CoefsJoin(a: Access, dims: seq<Dim>, ix0: seq<IndexMap>, ix: seq<IndexMap>, j: nat)
    requires j < |a.coord| && CoefsDone(a, dims, ix0, j) && |ix| == |dims|
    requires forall k :: 0 <= k < |dims| ==> |ix[k].coef| == |a.coord|
    requires forall k, i :: 0 <= k < |dims| && 0 <= i < |a.coord| && i != j ==> ix[k].coef[i] == ix0[k].coef[i]
    requires forall k :: 0 <= k < |dims| ==> Step(ix, dims, k, j) == Coef(a.coord[j], dims[k].mono)
    ensures CoefsDone(a, dims, ix, j + 1)
  {
    forall k, i | 0 <= k < |dims| && 0 <= i < |a.coord|
      ensures Step(ix, dims, k, i) == if i < j + 1 then Coef(a.coord[i], dims[k].mono) else 0
    {
      if i != j { assert Step(ix0, dims, k, i) == if i < j then Coef(a.coord[i], dims[k].mono) else 0; }
    }
  }

  lemma Accumulates(c: int, q: int, u: int, t: int)
    requires q * u == t
    ensures (c + q) * u == c * u + t
  {
  }

  ghost predicate OffsetAt(a: Access, atom: nat, dims: seq<Dim>, ix: seq<IndexMap>, todo: set<Mono>, i: nat, v: Mono)
    requires i < |dims| && i < |ix|
  {
    Coef(ix[i].offset, v) * dims[i].unit
      == if dims[i].mono + v in todo then 0 else OffsetBytes(a.base, atom, Monos(dims), dims[i].mono, v)
  }

  ghost predicate OffsetsDone(a: Access, atom: nat, dims: seq<Dim>, ix: seq<IndexMap>, todo: set<Mono>) {
    && |ix| == |dims|
    && forall k: nat, v: Mono :: k < |dims| ==> OffsetAt(a, atom, dims, ix, todo, k, v)
  }

  method BaseOffsets(ghost acc: seq<Access>, atom: nat, ghost elem: nat, ghost log: seq<Entry>, dims: seq<Dim>,
                     ghost s: nat, a: Access, ix0: seq<IndexMap>) returns (ix: seq<IndexMap>, leftover: Poly)
    requires AreDims(acc, atom, elem, log, dims) && s < |acc| && a == acc[s]
    requires |ix0| == |dims| && forall k :: 0 <= k < |dims| ==> ix0[k].offset == map[]
    ensures OffsetsDone(a, atom, dims, ix, {}) && leftover == map[]
    ensures forall k :: 0 <= k < |dims| ==> ix[k].coef == ix0[k].coef
    ensures forall m :: m in a.base && m != multiset{atom} ==> Placed(dims, m)
  {
    DimsFacts(acc, atom, elem, log, dims);
    hide AreDims;
    ix, leftover := ix0, map[];
    var p := a.base;
    var todo := p.Keys;
    assert OffsetsDone(a, atom, dims, ix, todo);
    hide IsKey, OffsetsDone;
    while todo != {}
      invariant todo <= p.Keys && |ix| == |dims| && leftover == map[]
      invariant OffsetsDone(a, atom, dims, ix, todo)
      invariant forall m :: m in p && m !in todo && m != multiset{atom} ==> Placed(dims, m)
      invariant forall k :: 0 <= k < |dims| ==> ix[k].coef == ix0[k].coef
    {
      var m :| m in todo;
      ghost var was := ix;
      if m == multiset{atom} {
        TensorAtom(a, atom, dims, ix, todo);
      } else {
        var k := DimOf(dims, m);
        assert Placed(dims, m);
        BaseTermFits(acc, atom, elem, log, dims, s, m, k);
        var u := dims[k].unit;
        if p[m] - TruncDiv(p[m], u) * u != 0 {
          leftover := Add(leftover, Single(m, Coef(p, m)));
        } else {
          ix := ix[k := IndexMap(Add(ix[k].offset, Single(m - dims[k].mono, TruncDiv(p[m], u))), ix[k].coef)];
          OffsetStep(a, atom, dims, was, ix, todo, m, k, TruncDiv(p[m], u));
        }
      }
      todo := todo - {m};
    }
  }

  lemma TensorAtom(a: Access, atom: nat, dims: seq<Dim>, ix: seq<IndexMap>, todo: set<Mono>)
    requires OffsetsDone(a, atom, dims, ix, todo)
    ensures OffsetsDone(a, atom, dims, ix, todo - {multiset{atom}})
  {
    hide IsKey, Monos;
    forall k: nat, v: Mono | k < |dims| ensures OffsetAt(a, atom, dims, ix, todo - {multiset{atom}}, k, v) {
      assert OffsetAt(a, atom, dims, ix, todo, k, v);
    }
  }

  // one base term m = dims[k].mono * v0 adds its quotient to the offset of its own dimension and no other
  lemma OffsetStep(a: Access, atom: nat, dims: seq<Dim>, was: seq<IndexMap>, ix: seq<IndexMap>, todo: set<Mono>,
      m: Mono, k: nat, q: int)
    requires DimsOrdered(dims) && OffsetsDone(a, atom, dims, was, todo)
    requires m in todo && m in a.base && m != multiset{atom} && k < |dims| && IsKey(Monos(dims), m, dims[k].mono)
    requires dims[k].mono <= m && q * dims[k].unit == a.base[m]
    requires ix == was[k := IndexMap(Add(was[k].offset, Single(m - dims[k].mono, q)), was[k].coef)]
    ensures OffsetsDone(a, atom, dims, ix, todo - {m})
  {
    hide OffsetAt, IsKey, Monos, DimsOrdered;
    forall i: nat, v: Mono | i < |dims| ensures OffsetAt(a, atom, dims, ix, todo - {m}, i, v) {
      assert OffsetAt(a, atom, dims, was, todo, i, v);
      OffsetPair(a, atom, dims, was, ix, todo, m, k, q, i, v);
    }
  }

  lemma OffsetPair(a: Access, atom: nat, dims: seq<Dim>, was: seq<IndexMap>, ix: seq<IndexMap>, todo: set<Mono>,
      m: Mono, k: nat, q: int, i: nat, v: Mono)
    requires DimsOrdered(dims) && |was| == |dims| && i < |dims| && OffsetAt(a, atom, dims, was, todo, i, v)
    requires m in todo && m in a.base && m != multiset{atom} && k < |dims| && IsKey(Monos(dims), m, dims[k].mono)
    requires dims[k].mono <= m && q * dims[k].unit == a.base[m]
    requires ix == was[k := IndexMap(Add(was[k].offset, Single(m - dims[k].mono, q)), was[k].coef)]
    ensures OffsetAt(a, atom, dims, ix, todo - {m}, i, v)
  {
    hide OffsetBytes, IsKey, Monos, DimsOrdered;
    OffsetCase(a, atom, dims, m, k, i, v);
    if i == k {
      assert v == m - dims[k].mono <==> dims[k].mono + v == m;
      Accumulates(Coef(was[k].offset, v), q, dims[k].unit, a.base[m]);
    }
  }

  lemma OffsetCase(a: Access, atom: nat, dims: seq<Dim>, m: Mono, k: nat, i: nat, v: Mono)
    requires DimsOrdered(dims) && m in a.base && m != multiset{atom}
    requires k < |dims| && i < |dims| && IsKey(Monos(dims), m, dims[k].mono)
    ensures dims[i].mono + v == m ==>
      OffsetBytes(a.base, atom, Monos(dims), dims[i].mono, v) == if i == k then a.base[m] else 0
  {
    if dims[i].mono + v == m && i != k && IsKey(Monos(dims), m, dims[i].mono) {
      KeyUnique(Monos(dims), m, dims[i].mono, dims[k].mono);
      DistinctDims(dims, i, k);
    }
  }

  method IndexAccess(ghost acc: seq<Access>, atom: nat, ghost elem: nat, ghost log: seq<Entry>, dims: seq<Dim>,
                     ghost s: nat, a: Access) returns (ix: seq<IndexMap>, leftover: Poly, skipped: int)
    requires AreDims(acc, atom, elem, log, dims) && s < |acc| && a == acc[s]
    ensures Indexes(a, atom, dims, ix) && leftover == map[] && skipped == 0
  {
    ix := seq(|dims|, k => IndexMap(map[], seq(|a.coord|, j => 0)));
    skipped := 0;
    assert CoefsDone(a, dims, ix, 0);
    hide *;
    for j := 0 to |a.coord|
      invariant |ix| == |dims| && CoefsDone(a, dims, ix, j) && skipped == 0
      invariant forall k :: 0 <= k < |dims| ==> ix[k].offset == map[]
    {
      var sk;
      ix, sk := StrideCoefs(acc, atom, elem, log, dims, s, a, ix, j);
      CoefsLength(a, dims, ix, j + 1);
      skipped := skipped + sk;
    }
    ghost var was := ix;
    ix, leftover := BaseOffsets(acc, atom, elem, log, dims, s, a, ix);
    StridesPlaced(acc, atom, elem, log, dims, s);
    IndexesReady(a, atom, dims, was, ix);
  }

  lemma StridesPlaced(acc: seq<Access>, atom: nat, elem: nat, log: seq<Entry>, dims: seq<Dim>, s: nat)
    requires AreDims(acc, atom, elem, log, dims) && s < |acc|
    ensures forall j, m :: 0 <= j < |acc[s].coord| && m in acc[s].coord[j] ==> m in Monos(dims)
  {
    forall j, m | 0 <= j < |acc[s].coord| && m in acc[s].coord[j] ensures m in Monos(dims) {
      StrideLogged(acc, atom, Monos(dims), log, s, j, m);
    }
  }

  lemma CoefsLength(a: Access, dims: seq<Dim>, ix: seq<IndexMap>, n: nat)
    requires CoefsDone(a, dims, ix, n)
    ensures |ix| == |dims|
  {
  }

  lemma IndexesReady(a: Access, atom: nat, dims: seq<Dim>, was: seq<IndexMap>, ix: seq<IndexMap>)
    requires CoefsDone(a, dims, was, |a.coord|) && OffsetsDone(a, atom, dims, ix, {})
    requires forall k :: 0 <= k < |dims| ==> ix[k].coef == was[k].coef
    requires forall m :: m in a.base && m != multiset{atom} ==> Placed(dims, m)
    requires forall j, m :: 0 <= j < |a.coord| && m in a.coord[j] ==> m in Monos(dims)
    ensures Indexes(a, atom, dims, ix)
  {
    hide OffsetBytes;
    forall k, j | 0 <= k < |dims| && 0 <= j < |a.coord| ensures Step(ix, dims, k, j) == Coef(a.coord[j], dims[k].mono) {
      assert Step(was, dims, k, j) == Coef(a.coord[j], dims[k].mono);
    }
    forall k, v: Mono | 0 <= k < |dims|
      ensures Coef(ix[k].offset, v) * dims[k].unit == OffsetBytes(a.base, atom, Monos(dims), dims[k].mono, v)
    {
      assert OffsetAt(a, atom, dims, ix, {}, k, v);
    }
  }

  // ---- the re-derived address

  // a point of the physical space and the sampled address there, with the derived quantities it still carries
  datatype Point = Point(x: seq<int>, val: Poly)

  // the derived quantities are placeholders: one atom each
  ghost function DerivedSum(dstride: seq<Poly>, datom: seq<nat>): Poly
    requires |datom| == |dstride|
  {
    PolySum(|dstride|, DerivedTerms(dstride, datom))
  }

  ghost function DerivedTerms(dstride: seq<Poly>, datom: seq<nat>): int -> Poly {
    q => if 0 <= q < |dstride| && q < |datom| then MulTerm(multiset{datom[q]}, 1, dstride[q]) else map[]
  }

  // the fit of one site: val = base + sum_a stride_a*x_a + sum_q dstride_q*d_q at every point
  ghost predicate FitsPoint(base: Poly, stride: seq<Poly>, dstride: seq<Poly>, datom: seq<nat>, pt: Point)
    requires |datom| == |dstride|
  {
    |pt.x| == |stride| && pt.val == Add(AffineAt(base, stride, pt.x), DerivedSum(dstride, datom))
  }

  ghost function ColTerm(V: Mat, x: seq<int>, j: nat, a: int): int {
    if 0 <= a < |x| && a < |V| && j < |V[a]| then V[a][j] * x[a] else 0
  }

  // coordinate j at the point x
  ghost function CoordAt(V: Mat, x: seq<int>, j: nat): int { Sum(|x|, a => ColTerm(V, x, j, a)) }

  method CoordValue(V: Mat, x: seq<int>, j: nat) returns (c: Poly)
    requires |V| >= |x| && forall a :: 0 <= a < |V| ==> j < |V[a]|
    requires forall a :: |x| <= a < |V| ==> V[a][j] == 0
    ensures c == Const(CoordAt(V, x, j))
  {
    c := map[];
    ghost var f := a => ColTerm(V, x, j, a);
    for a := 0 to |V|
      invariant forall w: Mono :: Coef(c, w) == if w == multiset{} then Sum(if a < |x| then a else |x|, f) else 0
    {
      if V[a][j] != 0 {
        c := Add(c, Scale(V[a][j], Const(x[a])));
      }
    }
    PolyEq(c, Const(CoordAt(V, x, j)));
  }

  ghost function IndexTerm(coef: seq<int>, c: seq<int>, j: int): int {
    if 0 <= j < |coef| && j < |c| then coef[j] * c[j] else 0
  }

  ghost function IndexSum(coef: seq<int>, cv: seq<int>): int { Sum(|cv|, j => IndexTerm(coef, cv, j)) }

  // the index along one dimension at given coordinate values
  method IndexValue(im: IndexMap, c: seq<Poly>, ghost cv: seq<int>) returns (idx: Poly)
    requires |c| == |cv| == |im.coef| && forall j :: 0 <= j < |c| ==> c[j] == Const(cv[j])
    ensures idx == Add(im.offset, Const(IndexSum(im.coef, cv)))
  {
    idx := im.offset;
    ghost var f := j => IndexTerm(im.coef, cv, j);
    for j := 0 to |c|
      invariant forall w: Mono :: Coef(idx, w) == Coef(im.offset, w) + if w == multiset{} then Sum(j, f) else 0
    {
      if im.coef[j] != 0 { idx := Add(idx, Scale(im.coef[j], c[j])); }
    }
    PolyEq(idx, Add(im.offset, Const(IndexSum(im.coef, cv))));
  }

  // dimension k's contribution to the address
  ghost function DimPart(dims: seq<Dim>, ix: seq<IndexMap>, cv: seq<int>, k: int): Poly {
    if 0 <= k < |dims| && k < |ix| then
      MulTerm(dims[k].mono, dims[k].unit, Add(ix[k].offset, Const(IndexSum(ix[k].coef, cv))))
    else map[]
  }

  ghost function DimSum(dims: seq<Dim>, ix: seq<IndexMap>, cv: seq<int>): Poly {
    PolySum(|dims|, DimParts(dims, ix, cv))
  }

  ghost function DimParts(dims: seq<Dim>, ix: seq<IndexMap>, cv: seq<int>): int -> Poly {
    k => DimPart(dims, ix, cv, k)
  }

  ghost function TensorPart(base: Poly, atom: nat): Poly { Single(multiset{atom}, Coef(base, multiset{atom})) }

  ghost function AddressOf(base: Poly, atom: nat, dims: seq<Dim>, ix: seq<IndexMap>, cv: seq<int>, dstride: seq<Poly>,
      datom: seq<nat>): Poly
    requires |datom| == |dstride|
  {
    Add(Add(TensorPart(base, atom), DimSum(dims, ix, cv)), DerivedSum(dstride, datom))
  }

  method Address(base: Poly, atom: nat, dims: seq<Dim>, ix: seq<IndexMap>, leftover: Poly, c: seq<Poly>,
      ghost cv: seq<int>, dstride: seq<Poly>, datom: seq<nat>) returns (addr: Poly)
    requires |datom| == |dstride| && |ix| == |dims| && |c| == |cv| && leftover == map[]
    requires forall k :: 0 <= k < |ix| ==> |ix[k].coef| == |c|
    requires forall j :: 0 <= j < |c| ==> c[j] == Const(cv[j])
    ensures addr == AddressOf(base, atom, dims, ix, cv, dstride, datom)
  {
    addr := Const(0);
    if multiset{atom} in base { addr := Add(addr, Single(multiset{atom}, base[multiset{atom}])); }
    PolyEq(addr, TensorPart(base, atom));
    hide *;
    addr := AddDims(addr, dims, ix, c, cv);
    if leftover != map[] { addr := Add(addr, leftover); }
    addr := AddDerived(addr, dstride, datom);
    AddressAssembled(base, atom, dims, ix, cv, dstride, datom, addr);
  }

  lemma AddressAssembled(base: Poly, atom: nat, dims: seq<Dim>, ix: seq<IndexMap>, cv: seq<int>, dstride: seq<Poly>,
      datom: seq<nat>, addr: Poly)
    requires |datom| == |dstride|
    requires addr == Add(Add(TensorPart(base, atom), DimSum(dims, ix, cv)), DerivedSum(dstride, datom))
    ensures addr == AddressOf(base, atom, dims, ix, cv, dstride, datom)
  {
  }

  lemma DimPartIs(dims: seq<Dim>, ix: seq<IndexMap>, cv: seq<int>, k: nat)
    requires k < |dims| == |ix|
    ensures DimParts(dims, ix, cv)(k) == DimPart(dims, ix, cv, k)
      == MulTerm(dims[k].mono, dims[k].unit, Add(ix[k].offset, Const(IndexSum(ix[k].coef, cv))))
  {
  }

  method AddDims(start: Poly, dims: seq<Dim>, ix: seq<IndexMap>, c: seq<Poly>, ghost cv: seq<int>) returns (addr: Poly)
    requires |ix| == |dims| && |c| == |cv|
    requires forall k :: 0 <= k < |ix| ==> |ix[k].coef| == |c|
    requires forall j :: 0 <= j < |c| ==> c[j] == Const(cv[j])
    ensures addr == Add(start, DimSum(dims, ix, cv))
  {
    addr := start;
    ghost var f := DimParts(dims, ix, cv);
    PolySumNext(start, 0, f);
    hide *;
    for k := 0 to |dims|
      invariant addr == Add(start, PolySum(k, f))
    {
      var idx := IndexValue(ix[k], c, cv);
      DimPartIs(dims, ix, cv, k);
      PolySumNext(start, k, f);
      addr := Add(addr, MulTerm(dims[k].mono, dims[k].unit, idx));
    }
    DimSumIs(dims, ix, cv);
  }

  lemma DimSumIs(dims: seq<Dim>, ix: seq<IndexMap>, cv: seq<int>)
    ensures DimSum(dims, ix, cv) == PolySum(|dims|, DimParts(dims, ix, cv))
  {
  }

  method AddDerived(start: Poly, dstride: seq<Poly>, datom: seq<nat>) returns (addr: Poly)
    requires |datom| == |dstride|
    ensures addr == Add(start, DerivedSum(dstride, datom))
  {
    addr := start;
    ghost var g := DerivedTerms(dstride, datom);
    PolySumNext(start, 0, g);
    hide *;
    for q := 0 to |dstride|
      invariant addr == Add(start, PolySum(q, g))
    {
      DerivedTermIs(dstride, datom, q);
      PolySumNext(start, q, g);
      AddZero(addr);
      if dstride[q] != map[] { addr := Add(addr, MulTerm(multiset{datom[q]}, 1, dstride[q])); }
    }
    DerivedSumIs(dstride, datom);
  }

  lemma DerivedTermIs(dstride: seq<Poly>, datom: seq<nat>, q: nat)
    requires q < |dstride| == |datom|
    ensures DerivedTerms(dstride, datom)(q) == MulTerm(multiset{datom[q]}, 1, dstride[q])
    ensures dstride[q] == map[] ==> DerivedTerms(dstride, datom)(q) == map[]
  {
  }

  lemma DerivedSumIs(dstride: seq<Poly>, datom: seq<nat>)
    requires |datom| == |dstride|
    ensures DerivedSum(dstride, datom) == PolySum(|dstride|, DerivedTerms(dstride, datom))
  {
  }

  // ---- the two sums agree coefficient by coefficient

  ghost function Displacement(stride: seq<Poly>, x: seq<int>, w: Mono): int { Sum(|x|, a => Slope(stride, x, w, a)) }

  // sum_a x_a * stride_a = sum_j c_j * coordStride_j
  lemma StridesViaCoords(V: Mat, coord: seq<Poly>, stride: seq<Poly>, x: seq<int>, cv: seq<int>, w: Mono)
    requires |x| == |stride| <= |V| && |cv| == |coord| && forall a :: 0 <= a < |V| ==> |V[a]| >= |coord|
    requires forall a :: 0 <= a < |x| ==> stride[a] == C.ViaCoords(V[a], coord)
    requires forall j :: 0 <= j < |cv| ==> cv[j] == CoordAt(V, x, j)
    ensures Displacement(stride, x, w) == StrideSum(coord, cv, w)
  {
    assert Displacement(stride, x, w) == Sum(|x|, a => Slope(stride, x, w, a));
    assert StrideSum(coord, cv, w) == Sum(|coord|, j => CoordTerm(coord, cv, w, j));
    hide *;
    var n, d, f := |x|, |coord|, (a: int, j: int) => Cross(V, coord, x, w, a, j);
    forall a | 0 <= a < n ensures Slope(stride, x, w, a) == Sum(d, j => f(a, j)) {
      RowOfCross(V, coord, stride, x, w, a);
      SumExt(d, j => Cross(V, coord, x, w, a, j), j => f(a, j));
    }
    forall j | 0 <= j < d ensures CoordTerm(coord, cv, w, j) == Sum(n, a => f(a, j)) {
      ColumnOfCross(V, coord, x, cv, w, j);
      SumExt(n, a => Cross(V, coord, x, w, a, j), a => f(a, j));
    }
    SumExt(n, a => Slope(stride, x, w, a), a => Sum(d, j => f(a, j)));
    SumExt(d, j => CoordTerm(coord, cv, w, j), j => Sum(n, a => f(a, j)));
    SumSwap(n, d, f);
  }

  lemma RowOfCross(V: Mat, coord: seq<Poly>, stride: seq<Poly>, x: seq<int>, w: Mono, a: nat)
    requires a < |x| == |stride| <= |V| && |V[a]| >= |coord| && stride[a] == C.ViaCoords(V[a], coord)
    ensures Slope(stride, x, w, a) == Sum(|coord|, j => Cross(V, coord, x, w, a, j))
  {
    var d, zero := |coord|, (k: int) => 0;
    C.ViaCoordsCoef(V[a], coord, w);
    SumZero(d, zero);
    SumLinear(d, zero, x[a], j => C.ViaTerm(V[a], coord, w, j), j => Cross(V, coord, x, w, a, j));
  }

  lemma ColumnOfCross(V: Mat, coord: seq<Poly>, x: seq<int>, cv: seq<int>, w: Mono, j: nat)
    requires |x| <= |V| && j < |coord| == |cv| && forall a :: 0 <= a < |V| ==> |V[a]| >= |coord|
    requires cv[j] == CoordAt(V, x, j)
    ensures CoordTerm(coord, cv, w, j) == Sum(|x|, a => Cross(V, coord, x, w, a, j))
  {
    var n, u, zero := |x|, Coef(coord[j], w), (k: int) => 0;
    forall a | 0 <= a < n
      ensures Cross(V, coord, x, w, a, j) == 0 + u * ColTerm(V, x, j, a) { Rearrange(x[a], V[a][j], u); }
    SumZero(n, zero);
    SumLinear(n, zero, u, a => ColTerm(V, x, j, a), a => Cross(V, coord, x, w, a, j));
  }

  lemma Rearrange(x: int, v: int, u: int)
    ensures x * (v * u) == u * (v * x)
  {
  }

  ghost function CoordTerm(coord: seq<Poly>, cv: seq<int>, w: Mono, j: int): int {
    if 0 <= j < |coord| && j < |cv| then Coef(coord[j], w) * cv[j] else 0
  }

  ghost function Cross(V: Mat, coord: seq<Poly>, x: seq<int>, w: Mono, a: int, j: int): int {
    if 0 <= a < |x| && a < |V| && 0 <= j < |coord| && j < |V[a]| then x[a] * (V[a][j] * Coef(coord[j], w)) else 0
  }

  ghost function StrideSum(coord: seq<Poly>, cv: seq<int>,
      w: Mono): int { Sum(|coord|, j => CoordTerm(coord, cv, w, j)) }

  lemma UnitTimesIndex(a: Access, atom: nat, dims: seq<Dim>, ix: seq<IndexMap>, cv: seq<int>, k: nat)
    requires Indexes(a, atom, dims, ix) && k < |dims| && |cv| == |a.coord|
    ensures dims[k].unit * IndexSum(ix[k].coef, cv) == StrideSum(a.coord, cv, dims[k].mono)
  {
    var d, u, zero := |cv|, dims[k].unit, (j: int) => 0;
    forall j | 0 <= j < d ensures CoordTerm(a.coord, cv, dims[k].mono, j) == 0 + u * IndexTerm(ix[k].coef, cv, j) {
      assert Step(ix, dims, k, j) == Coef(a.coord[j], dims[k].mono);
      Reassociate(ix[k].coef[j], u, cv[j]);
    }
    SumZero(d, zero);
    SumLinear(d, zero, u, j => IndexTerm(ix[k].coef, cv, j), j => CoordTerm(a.coord, cv, dims[k].mono, j));
  }

  lemma Reassociate(c: int, u: int, v: int)
    ensures c * u * v == u * (c * v)
  {
  }

  // dimension k carries the base terms whose key it is, and the strides of its own monomial
  lemma DimPartCoef(a: Access, atom: nat, dims: seq<Dim>, ix: seq<IndexMap>, cv: seq<int>, k: nat, w: Mono)
    requires Indexes(a, atom, dims, ix) && k < |dims| && |cv| == |a.coord|
    ensures Coef(DimPart(dims, ix, cv, k), w)
      == (if dims[k].mono <= w && IsKey(Monos(dims), w, dims[k].mono) then BasePart(a.base, atom, w) else 0)
       + (if w == dims[k].mono then StrideSum(a.coord, cv, w) else 0)
  {
    var m, u, i := dims[k].mono, dims[k].unit, IndexSum(ix[k].coef, cv);
    DimPartIs(dims, ix, cv, k);
    UnitTimesIndex(a, atom, dims, ix, cv, k);
    if m <= w {
      var v := w - m;
      assert m + v == w;
      assert w == m <==> v == multiset{};
      assert Coef(ix[k].offset, v) * u == OffsetBytes(a.base, atom, Monos(dims), m, v);
      hide IsKey, Indexes, DimPart, StrideSum, IndexSum, Monos, Add, MulTerm;
      Distribute(u, Coef(ix[k].offset, v), if v == multiset{} then i else 0);
    }
  }

  lemma Distribute(u: int, p: int, q: int)
    ensures u * (p + q) == p * u + u * q && u * 0 == 0
  {
  }

  lemma DimSumCoef(dims: seq<Dim>, ix: seq<IndexMap>, cv: seq<int>, w: Mono, t: int -> int)
    requires forall k :: 0 <= k < |dims| ==> t(k) == Coef(DimPart(dims, ix, cv, k), w)
    ensures Coef(DimSum(dims, ix, cv), w) == Sum(|dims|, t)
  {
    var f := DimParts(dims, ix, cv);
    PolySumCoef(|dims|, f, w);
    SumExt(|dims|, k => Coef(f(k), w), t);
  }

  ghost function BaseShare(a: Access, atom: nat, dims: seq<Dim>, w: Mono): int -> int {
    k => if 0 <= k < |dims| && dims[k].mono <= w && IsKey(Monos(dims), w, dims[k].mono) then BasePart(a.base, atom, w)
      else 0
  }

  ghost function StrideShare(a: Access, dims: seq<Dim>, cv: seq<int>, w: Mono): int -> int {
    k => if 0 <= k < |dims| && w == dims[k].mono then StrideSum(a.coord, cv, w) else 0
  }

  ghost function PartCoef(dims: seq<Dim>, ix: seq<IndexMap>, cv: seq<int>, w: Mono): int -> int {
    k => Coef(DimPart(dims, ix, cv, k), w)
  }

  lemma PartShares(a: Access, atom: nat, dims: seq<Dim>, ix: seq<IndexMap>, cv: seq<int>, w: Mono, k: nat)
    requires Indexes(a, atom, dims, ix) && |cv| == |a.coord| && k < |dims|
    ensures PartCoef(dims, ix, cv, w)(k) == BaseShare(a, atom, dims, w)(k) + 1 * StrideShare(a, dims, cv, w)(k)
  {
    hide Indexes, IsKey, DimPart, BasePart, StrideSum, Monos;
    DimPartCoef(a, atom, dims, ix, cv, k, w);
  }

  lemma DimPartsTotal(a: Access, atom: nat, dims: seq<Dim>, ix: seq<IndexMap>, cv: seq<int>, w: Mono)
    requires Indexes(a, atom, dims, ix) && DimsOrdered(dims) && |cv| == |a.coord|
    ensures Coef(DimSum(dims, ix, cv), w) == BasePart(a.base, atom, w) + StrideSum(a.coord, cv, w)
  {
    var n := |dims|;
    var b, s, t := BaseShare(a, atom, dims, w), StrideShare(a, dims, cv, w), PartCoef(dims, ix, cv, w);
    DimSumCoef(dims, ix, cv, w, t) by { hide DimPart; }
    hide *;
    forall k | 0 <= k < n ensures t(k) == b(k) + 1 * s(k) { PartShares(a, atom, dims, ix, cv, w, k); }
    SumLinear(n, b, 1, s, t);
    SharesTotal(a, atom, dims, ix, cv, w);
  }

  lemma SharesTotal(a: Access, atom: nat, dims: seq<Dim>, ix: seq<IndexMap>, cv: seq<int>, w: Mono)
    requires Indexes(a, atom, dims, ix) && DimsOrdered(dims) && |cv| == |a.coord|
    ensures Sum(|dims|, BaseShare(a, atom, dims, w)) == BasePart(a.base, atom, w)
    ensures Sum(|dims|, StrideShare(a, dims, cv, w)) == StrideSum(a.coord, cv, w)
  {
    hide Indexes, DimsOrdered, IsKey, BasePart, StrideSum, Monos, Sum;
    BaseTotal(a, atom, dims, ix, w, BaseShare(a, atom, dims, w));
    StrideTotal(a, atom, dims, ix, cv, w, StrideShare(a, dims, cv, w));
  }

  // exactly one dimension carries a base term
  lemma BaseTotal(a: Access, atom: nat, dims: seq<Dim>, ix: seq<IndexMap>, w: Mono, b: int -> int)
    requires Indexes(a, atom, dims, ix) && DimsOrdered(dims)
    requires forall k :: 0 <= k < |dims| ==>
      b(k) == if dims[k].mono <= w && IsKey(Monos(dims), w, dims[k].mono) then BasePart(a.base, atom, w) else 0
    ensures Sum(|dims|, b) == BasePart(a.base, atom, w)
  {
    if BasePart(a.base, atom, w) == 0 {
      SumZero(|dims|, b);
    } else {
      assert Placed(dims, w);
      var k0 :| 0 <= k0 < |dims| && IsKey(Monos(dims), w, dims[k0].mono);
      KeyFits(dims, w, dims[k0].mono);
      forall k | 0 <= k < |dims| && k != k0 ensures b(k) == 0 {
        if IsKey(Monos(dims), w, dims[k].mono) {
          KeyUnique(Monos(dims), w, dims[k].mono, dims[k0].mono);
          DistinctDims(dims, k, k0);
        }
      }
      SumSingle(|dims|, k0, b);
    }
  }

  lemma KeyFits(dims: seq<Dim>, w: Mono, k: Mono)
    requires IsKey(Monos(dims), w, k)
    ensures k <= w
  {
  }

  // the strides of a monomial are carried by its own dimension
  lemma StrideTotal(a: Access, atom: nat, dims: seq<Dim>, ix: seq<IndexMap>, cv: seq<int>, w: Mono, s: int -> int)
    requires Indexes(a, atom, dims, ix) && DimsOrdered(dims) && |cv| == |a.coord|
    requires forall k :: 0 <= k < |dims| ==> s(k) == if w == dims[k].mono then StrideSum(a.coord, cv, w) else 0
    ensures Sum(|dims|, s) == StrideSum(a.coord, cv, w)
  {
    if k0 :| 0 <= k0 < |dims| && dims[k0].mono == w {
      forall k | 0 <= k < |dims| && k != k0 ensures s(k) == 0 {
        if dims[k].mono == w { DistinctDims(dims, k, k0); }
      }
      SumSingle(|dims|, k0, s);
    } else {
      assert w !in Monos(dims);
      SumZero(|dims|, s);
      SumZero(|a.coord|, j => CoordTerm(a.coord, cv, w, j));
    }
  }

  lemma AddressCoef(base: Poly, atom: nat, dims: seq<Dim>, ix: seq<IndexMap>, cv: seq<int>, dstride: seq<Poly>,
      datom: seq<nat>, w: Mono)
    requires |datom| == |dstride|
    ensures Coef(AddressOf(base, atom, dims, ix, cv, dstride, datom), w)
      == Coef(base, w) - BasePart(base, atom, w) + Coef(DimSum(dims, ix, cv), w) + Coef(DerivedSum(dstride, datom), w)
  {
  }

  lemma ValueCoef(base: Poly, stride: seq<Poly>, dstride: seq<Poly>, datom: seq<nat>, pt: Point, w: Mono)
    requires |datom| == |dstride| && FitsPoint(base, stride, dstride, datom, pt)
    ensures Coef(pt.val, w) == Coef(base, w) + Displacement(stride, pt.x, w) + Coef(DerivedSum(dstride, datom), w)
  {
    AffineCoef(base, stride, pt.x, w);
  }

  // The re-derived address is the sampled address.
  lemma AddressExact(a: Access, atom: nat, dims: seq<Dim>, ix: seq<IndexMap>, V: Mat, stride: seq<Poly>,
                     dstride: seq<Poly>, datom: seq<nat>, pt: Point, cv: seq<int>)
    requires Indexes(a, atom, dims, ix) && DimsOrdered(dims) && |datom| == |dstride|
    requires FitsPoint(a.base, stride, dstride, datom, pt)
    requires |stride| <= |V| && |cv| == |a.coord| && forall b :: 0 <= b < |V| ==> |V[b]| >= |a.coord|
    requires forall b :: 0 <= b < |stride| ==> stride[b] == C.ViaCoords(V[b], a.coord)
    requires forall j :: 0 <= j < |cv| ==> cv[j] == CoordAt(V, pt.x, j)
    ensures AddressOf(a.base, atom, dims, ix, cv, dstride, datom) == pt.val
  {
    var addr := AddressOf(a.base, atom, dims, ix, cv, dstride, datom);
    forall w: Mono ensures Coef(addr, w) == Coef(pt.val, w) {
      ValueCoef(a.base, stride, dstride, datom, pt, w);
      StridesViaCoords(V, a.coord, stride, pt.x, cv, w);
      hide *;
      DimPartsTotal(a, atom, dims, ix, cv, w);
      AddressCoef(a.base, atom, dims, ix, cv, dstride, datom, w);
    }
    PolyEq(addr, pt.val);
  }
}
