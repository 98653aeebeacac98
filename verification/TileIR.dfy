// The semantic tile IR's tensors: dimensions with their units (gcds), the index map of every access, and the
// round-trip check of every sampled address.
module TileIR {
  import opened LinearAlgebra
  import opened Polynomials
  import opened MonomialOrder
  import opened Hermite
  import opened AffineFit
  import C = Coordinates

  // ---- gcd64

  ghost predicate DividesInt(u: int, c: int) { exists z :: c == u * z }

  // g is the non-negative greatest common divisor (0 for two zeros)
  ghost predicate IsGcd(g: int, a: int, b: int) {
    g >= 0 && DividesInt(g, a) && DividesInt(g, b) && forall u :: DividesInt(u, a) && DividesInt(u, b) ==>
      DividesInt(u, g)
  }

  lemma DividesTrans(u: int, g: int, c: int)
    requires DividesInt(u, g) && DividesInt(g, c)
    ensures DividesInt(u, c)
  {
    var y :| g == u * y;
    var z :| c == g * z;
    assert c == u * (y * z);
  }

  lemma DividesCombination(u: int, a: int, b: int, q: int)
    requires DividesInt(u, a) && DividesInt(u, b)
    ensures DividesInt(u, a + q * b)
  {
    var y :| a == u * y;
    var z :| b == u * z;
    calc { a + q * b; u * y + q * (u * z); u * y + u * (q * z); u * (y + q * z); }
  }

  lemma DividesSelf(a: int)
    ensures DividesInt(a, a) && DividesInt(a, 0) && DividesInt(a, -a) && DividesInt(-a, a)
  {
    assert a == a * 1 && 0 == a * 0 && -a == a * -1 && a == -a * -1;
  }

  // a common divisor stays one through a Euclidean step, in both directions
  lemma EuclidStep(u: int, a: int, b: int)
    requires b != 0
    ensures DividesInt(u, a) && DividesInt(u, b) <==> DividesInt(u, b) && DividesInt(u, a % b)
  {
    var q := a / b;
    assert a == q * b + a % b;
    if DividesInt(u, a) && DividesInt(u, b) {
      DividesCombination(u, a, b, -q);
      assert -q * b == -(q * b);
    }
    if DividesInt(u, b) && DividesInt(u, a % b) { DividesCombination(u, a % b, b, q); }
  }

  lemma DividesAbs(u: int, a: int)
    ensures DividesInt(u, a) <==> DividesInt(u, Abs(a))
  {
    DividesSelf(a);
    if DividesInt(u, a) { DividesTrans(u, a, if a < 0 then -a else a); }
    if DividesInt(u, Abs(a)) { DividesTrans(u, Abs(a), a); }
  }

  method Gcd64(a: int, b: int) returns (g: int)
    ensures IsGcd(g, a, b)
  {
    var x: nat, y: nat := Abs(a), Abs(b);
    forall u ensures DividesInt(u, a) && DividesInt(u, b) <==> DividesInt(u, x) && DividesInt(u, y) {
      DividesAbs(u, a);
      DividesAbs(u, b);
    }
    while y != 0
      invariant forall u :: DividesInt(u, a) && DividesInt(u, b) <==> DividesInt(u, x) && DividesInt(u, y)
      decreases y
    {
      forall u ensures DividesInt(u, x) && DividesInt(u, y) <==> DividesInt(u, y) && DividesInt(u, x % y) {
        EuclidStep(u, x, y);
      }
      var t := x % y;
      x, y := y, t;
    }
    g := x;
    DividesSelf(g);
  }

  // ---- the order of dimensions

  // outermost first: higher degree, then atom ids; the contiguous dimension last
  predicate DimLess(a: Mono, b: Mono) {
    if (a == multiset{}) != (b == multiset{}) then b == multiset{}
    else if |a| != |b| then |a| > |b|
    else MonoLess(a, b)
  }

  lemma DimOrder()
    ensures StrictOrder(DimLess)
  {
    MonoOrder();
    hide MonoLess;
    forall a: Mono, b: Mono, c: Mono | DimLess(a, b) && DimLess(b, c) ensures DimLess(a, c) {}
  }

  // ---- the dimension a monomial belongs to

  // the most specific non-contiguous key dividing m, the first in lexicographic order among those; else the contiguous
  // one
  ghost predicate IsKey(keys: set<Mono>, m: Mono, k: Mono) {
    if exists d :: d in keys && d != multiset{} && d <= m then
      && k in keys && k != multiset{} && k <= m
      && forall d :: d in keys && d != multiset{} && d <= m ==> |d| < |k| || (|d| == |k| && (d == k || MonoLess(k, d)))
    else k == multiset{}
  }

  lemma KeyUnique(keys: set<Mono>, m: Mono, k: Mono, k': Mono)
    requires IsKey(keys, m, k) && IsKey(keys, m, k')
    ensures k == k'
  {
    MonoOrder();
    hide MonoLess;
  }

  // a key is its own key: any other divisor of the same degree is equal to it
  lemma KeyOfKey(keys: set<Mono>, m: Mono)
    requires m in keys
    ensures IsKey(keys, m, m)
  {
    forall d: Mono | d in keys && d != multiset{} && d <= m ensures |d| < |m| || d == m {
      assert m == d + (m - d);
    }
  }

  // the choice made while collecting units: iteration in map order, strictly larger degrees replace
  method BestKey(ordered: seq<Mono>, m: Mono) returns (best: Mono)
    requires forall i, j :: 0 <= i < j < |ordered| ==> MonoLess(ordered[i], ordered[j])
    ensures IsKey((set k | k in ordered), m, best)
  {
    hide MonoLess;
    best := multiset{};
    for i := 0 to |ordered|
      invariant best == multiset{} ==> forall j :: 0 <= j < i ==> !(ordered[j] != multiset{} && ordered[j] <= m)
      invariant best != multiset{} ==> best in ordered[..i] && best <= m
      invariant best != multiset{} ==> forall j :: 0 <= j < i && ordered[j] != multiset{} && ordered[j] <= m ==>
        |ordered[j]| < |best| || (|ordered[j]| == |best| && (ordered[j] == best || MonoLess(best, ordered[j])))
    {
      var k := ordered[i];
      if k != multiset{} && k <= m && (best == multiset{} || |k| > |best|) { best := k; }
    }
  }

  datatype Dim = Dim(mono: Mono, unit: int)

  ghost predicate DimsOrdered(dims: seq<Dim>) {
    && (forall i, j :: 0 <= i < j < |dims| ==> DimLess(dims[i].mono, dims[j].mono))
    && exists k :: 0 <= k < |dims| && dims[k].mono == multiset{}
  }

  ghost function Monos(dims: seq<Dim>): set<Mono> { set k | 0 <= k < |dims| :: dims[k].mono }

  // the choice made while building index maps (`dimOf`): the first dimension of the largest degree, else the
  // contiguous one
  method DimOf(dims: seq<Dim>, m: Mono) returns (best: nat)
    requires DimsOrdered(dims)
    ensures best < |dims| && IsKey(Monos(dims), m, dims[best].mono)
  {
    hide MonoLess;
    var found := false;
    best := 0;
    assert |dims| > 0;
    for k := 0 to |dims|
      invariant found ==> best < k && dims[best].mono != multiset{} && dims[best].mono <= m
      invariant !found ==> best == 0
      invariant !found ==> forall j :: 0 <= j < k ==> !(dims[j].mono != multiset{} && dims[j].mono <= m)
      invariant found ==> forall j :: 0 <= j < k && dims[j].mono != multiset{} && dims[j].mono <= m ==>
        |dims[j].mono| < |dims[best].mono|
        || (|dims[j].mono| == |dims[best].mono|
          && (dims[j].mono == dims[best].mono || MonoLess(dims[best].mono, dims[j].mono)))
    {
      if dims[k].mono != multiset{} && dims[k].mono <= m && (!found || |dims[k].mono| > |dims[best].mono|) {
        found, best := true, k;
      }
    }
    if !found {
      for k := 0 to |dims|
        invariant best < |dims|
        invariant (exists j :: 0 <= j < k && dims[j].mono == multiset{}) ==> dims[best].mono == multiset{}
      {
        if dims[k].mono == multiset{} { best := k; }
      }
    }
  }

  // ---- units: the gcd of every coefficient along a dimension

  // an access of one tensor: its base polynomial, the strides of the logical coordinates and the access width
  datatype Access = Access(base: Poly, coord: seq<Poly>, bytes: nat)

  datatype Entry = Entry(key: Mono, coef: int)

  // gcd of the coefficients logged for a key, in order
  ghost predicate IsGcdOf(g: int, log: seq<Entry>, k: Mono) {
    && g >= 0
    && (forall e :: e in log && e.key == k ==> DividesInt(g, e.coef))
    && (forall u :: (forall e :: e in log && e.key == k ==> DividesInt(u, e.coef)) ==> DividesInt(u, g))
  }

  ghost predicate Tallied(g: map<Mono, int>, log: seq<Entry>) {
    && multiset{} in g
    && (forall e :: e in log ==> e.key in g)
    && forall k :: k in g ==> IsGcdOf(g[k], log, k)
  }

  method Fold(g: map<Mono, int>, ghost log: seq<Entry>, k: Mono, c: int)
      returns (g': map<Mono, int>, ghost log': seq<Entry>)
    requires Tallied(g, log)
    ensures Tallied(g', log') && log' == log + [Entry(k, c)] && g'.Keys == g.Keys + {k}
  {
    var was := if k in g then g[k] else 0;
    var d := Gcd64(was, c);
    g' := g[k := d];
    log' := log + [Entry(k, c)];
    forall j | j in g' ensures IsGcdOf(g'[j], log', j) { FoldKeeps(g, log, k, c, was, d, j); }
  }

  lemma FoldKeeps(g: map<Mono, int>, log: seq<Entry>, k: Mono, c: int, was: int, d: int, j: Mono)
    requires Tallied(g, log) && was == (if k in g then g[k] else 0) && IsGcd(d, was, c) && (j in g || j == k)
    ensures IsGcdOf(if j == k then d else g[j], log + [Entry(k, c)], j)
  {
    var log' := log + [Entry(k, c)];
    assert forall e :: e in log' <==> e in log || e == Entry(k, c);
    if j == k {
      forall e | e in log' && e.key == k ensures DividesInt(d, e.coef) {
        if e in log { DividesTrans(d, was, e.coef); }
      }
      forall u | forall e :: e in log' && e.key == k ==> DividesInt(u, e.coef) ensures DividesInt(u, d) {
        assert Entry(k, c) in log' && DividesInt(u, c);
        if k in g { assert IsGcdOf(g[k], log, k); } else { assert 0 == u * 0; }
        assert DividesInt(u, was);
      }
    } else {
      assert IsGcdOf(g[j], log, j);
    }
  }

  // the coefficient comes from a coordinate stride of one of the first n accesses, its first j coordinates counted
  ghost predicate FromStride(acc: seq<Access>, n: nat, j: nat, e: Entry) {
    exists s, i :: 0 <= s < |acc| && 0 <= i < |acc[s].coord| && (s < n || (s == n && i < j))
      && e.key in acc[s].coord[i] && acc[s].coord[i][e.key] == e.coef
  }

  ghost predicate FromBase(acc: seq<Access>, atom: nat, keys: set<Mono>, n: nat, e: Entry) {
    exists s, m :: 0 <= s < n && s < |acc| && m in acc[s].base && m != multiset{atom}
      && IsKey(keys, m, e.key) && acc[s].base[m] == e.coef
  }

  ghost predicate FromWidth(acc: seq<Access>, n: nat, e: Entry) {
    e.key == multiset{} && exists s :: 0 <= s < n && s < |acc| && e.coef == acc[s].bytes
  }

  // the log holds exactly the coefficients along each dimension
  ghost predicate ExactLog(acc: seq<Access>, atom: nat, keys: set<Mono>, log: seq<Entry>) {
    forall e: Entry :: e in log <==>
      FromStride(acc, |acc|, 0, e) || FromBase(acc, atom, keys, |acc|, e) || FromWidth(acc, |acc|, e)
  }

  ghost predicate TermOf(p: Poly, e: Entry) { e.key in p && p[e.key] == e.coef }

  method FoldTerms(g: map<Mono, int>, ghost log: seq<Entry>, p: Poly)
      returns (g': map<Mono, int>, ghost log': seq<Entry>)
    requires Tallied(g, log)
    ensures Tallied(g', log') && g'.Keys == g.Keys + p.Keys
    ensures forall e: Entry :: e in log' <==> e in log || TermOf(p, e)
  {
    hide Tallied;
    g', log' := g, log;
    var todo := p.Keys;
    while todo != {}
      invariant todo <= p.Keys && Tallied(g', log') && g'.Keys == g.Keys + (p.Keys - todo)
      invariant forall e: Entry :: e in log' <==> e in log || (TermOf(p, e) && e.key !in todo)
    {
      var m :| m in todo;
      g', log' := Fold(g', log', m, p[m]);
      todo := todo - {m};
    }
  }

  lemma NoStride(acc: seq<Access>)
    ensures forall e: Entry :: !FromStride(acc, 0, 0, e)
  {
  }

  lemma NextStride(acc: seq<Access>, s: nat, j: nat, e: Entry)
    requires s < |acc|
    ensures j < |acc[s].coord| ==>
      (FromStride(acc, s, j + 1, e) <==> FromStride(acc, s, j, e) || TermOf(acc[s].coord[j], e))
    ensures FromStride(acc, s + 1, 0, e) <==> FromStride(acc, s, |acc[s].coord|, e)
  {
  }

  method StrideUnits(acc: seq<Access>) returns (g: map<Mono, int>, ghost log: seq<Entry>)
    ensures Tallied(g, log)
    ensures forall e: Entry :: e in log <==> FromStride(acc, |acc|, 0, e)
    ensures forall k :: k in g <==> k == multiset{} || exists c :: Entry(k, c) in log
  {
    g, log := map[multiset{} := 0], [];
    forall u ensures DividesInt(u, 0) { assert 0 == u * 0; }
    assert Tallied(g, log);
    hide Tallied, FromStride, TermOf;
    NoStride(acc);
    for s := 0 to |acc|
      invariant Tallied(g, log)
      invariant forall e: Entry :: e in log <==> FromStride(acc, s, 0, e)
      invariant forall k :: k in g <==> k == multiset{} || exists c :: Entry(k, c) in log
    {
      for j := 0 to |acc[s].coord|
        invariant Tallied(g, log)
        invariant forall e: Entry :: e in log <==> FromStride(acc, s, j, e)
        invariant forall k :: k in g <==> k == multiset{} || exists c :: Entry(k, c) in log
      {
        ghost var was, keys := log, g.Keys;
        g, log := FoldTerms(g, log, acc[s].coord[j]);
        forall e: Entry ensures e in log <==> FromStride(acc, s, j + 1, e) { NextStride(acc, s, j, e); }
        KeysLogged(keys, was, g.Keys, log, acc[s].coord[j]);
      }
      forall e: Entry ensures e in log <==> FromStride(acc, s + 1, 0, e) { NextStride(acc, s, 0, e); }
    }
  }

  lemma KeysLogged(keys: set<Mono>, log: seq<Entry>, keys': set<Mono>, log': seq<Entry>, p: Poly)
    requires forall k :: k in keys <==> k == multiset{} || exists c :: Entry(k, c) in log
    requires keys' == keys + p.Keys && forall e: Entry :: e in log' <==> e in log || TermOf(p, e)
    ensures forall k :: k in keys' <==> k == multiset{} || exists c :: Entry(k, c) in log'
  {
    forall k: Mono ensures k in keys' <==> k == multiset{} || exists c :: Entry(k, c) in log' {
      if k in p { assert TermOf(p, Entry(k, p[k])); }
      if k in keys && k != multiset{} {
        var c :| Entry(k, c) in log;
        assert Entry(k, c) in log';
      }
      if c :| Entry(k, c) in log' { assert Entry(k, c) in log || TermOf(p, Entry(k, c)); }
    }
  }

  // a base term with the dimension it folds into
  ghost predicate BaseTerm(p: Poly, atom: nat, keys: set<Mono>, e: Entry) {
    exists m :: InBase(p, atom, keys, m, e)
  }

  ghost predicate InBase(p: Poly, atom: nat, keys: set<Mono>, m: Mono, e: Entry) {
    m in p && m != multiset{atom} && IsKey(keys, m, e.key) && p[m] == e.coef
  }

  method FoldBase(g: map<Mono, int>, ghost log: seq<Entry>, p: Poly, atom: nat, ordered: seq<Mono>)
    returns (g': map<Mono, int>, ghost log': seq<Entry>)
    requires Tallied(g, log) && multiset{} in g
    requires forall i, j :: 0 <= i < j < |ordered| ==> MonoLess(ordered[i], ordered[j])
    requires (set k | k in ordered) == g.Keys
    ensures Tallied(g', log') && g'.Keys == g.Keys
    ensures forall e: Entry :: e in log' <==> e in log || BaseTerm(p, atom, g.Keys, e)
  {
    hide Tallied, IsKey, MonoLess;
    g', log' := g, log;
    var todo := p.Keys;
    while todo != {}
      invariant todo <= p.Keys && Tallied(g', log') && g'.Keys == g.Keys
      invariant forall e: Entry :: e in log' <==> e in log || exists m :: m !in todo && InBase(p, atom, g.Keys, m, e)
    {
      var m :| m in todo;
      if m != multiset{atom} {
        var k := BestKey(ordered, m);
        KeyInKeys(g.Keys, m, k);
        ghost var before := log';
        g', log' := Fold(g', log', k, p[m]);
        LogStep(g.Keys, p, atom, log, before, log', todo, m, k);
      }
      todo := todo - {m};
    }
  }

  method FoldSite(g: map<Mono, int>, ghost log: seq<Entry>, a: Access, atom: nat, ordered: seq<Mono>)
    returns (g': map<Mono, int>, ghost log': seq<Entry>)
    requires Tallied(g, log) && multiset{} in g
    requires forall i, j :: 0 <= i < j < |ordered| ==> MonoLess(ordered[i], ordered[j])
    requires (set k | k in ordered) == g.Keys
    ensures Tallied(g', log') && g'.Keys == g.Keys
    ensures forall e: Entry ::
      e in log' <==> e in log || BaseTerm(a.base, atom, g.Keys, e) || e == Entry(multiset{}, a.bytes)
  {
    hide *;
    g', log' := FoldBase(g, log, a.base, atom, ordered);
    g', log' := Fold(g', log', multiset{}, a.bytes);
  }

  // base terms fold into the most specific dimension dividing them; the access width into the contiguous one
  method BaseUnits(acc: seq<Access>, atom: nat, g0: map<Mono, int>, ghost log0: seq<Entry>)
    returns (g: map<Mono, int>, ghost log: seq<Entry>)
    requires Tallied(g0, log0) && multiset{} in g0
    ensures Tallied(g, log) && g.Keys == g0.Keys
    ensures forall e: Entry ::
      e in log <==> e in log0 || FromBase(acc, atom, g0.Keys, |acc|, e) || FromWidth(acc, |acc|, e)
  {
    hide *;
    NoBase(acc, atom, g0.Keys);
    g, log := g0, log0;
    MonoOrder();
    var ordered := SortKeys(g0.Keys, MonoLess);
    ghost var keys := g0.Keys;
    assert (set k | k in ordered) == keys;
    for s := 0 to |acc|
      invariant Tallied(g, log) && g.Keys == keys
      invariant forall e: Entry :: e in log <==> e in log0 || FromBase(acc, atom, keys, s, e) || FromWidth(acc, s, e)
    {
      g, log := FoldSite(g, log, acc[s], atom, ordered);
      forall e: Entry
        ensures e in log <==> e in log0 || FromBase(acc, atom, keys, s + 1, e) || FromWidth(acc, s + 1, e)
      {
        NextBase(acc, atom, keys, s, e);
      }
    }
  }

  lemma NoBase(acc: seq<Access>, atom: nat, keys: set<Mono>)
    ensures forall e: Entry :: !FromWidth(acc, 0, e) && !FromBase(acc, atom, keys, 0, e)
  {
  }

  lemma NextBase(acc: seq<Access>, atom: nat, keys: set<Mono>, s: nat, e: Entry)
    requires s < |acc|
    ensures FromBase(acc, atom, keys, s + 1, e)
      <==> FromBase(acc, atom, keys, s, e) || BaseTerm(acc[s].base, atom, keys, e)
    ensures FromWidth(acc, s + 1, e) <==> FromWidth(acc, s, e) || e == Entry(multiset{}, acc[s].bytes)
  {
    if BaseTerm(acc[s].base, atom, keys, e) {
      var m :| InBase(acc[s].base, atom, keys, m, e);
    }
    if FromBase(acc, atom, keys, s + 1, e) && !FromBase(acc, atom, keys, s, e) {
      var t, m :| 0 <= t < s + 1 && t < |acc| && m in acc[t].base && m != multiset{atom}
        && IsKey(keys, m, e.key) && acc[t].base[m] == e.coef;
      assert InBase(acc[s].base, atom, keys, m, e);
    }
  }

  lemma KeyInKeys(keys: set<Mono>, m: Mono, k: Mono)
    requires multiset{} in keys && IsKey(keys, m, k)
    ensures k in keys && k <= m
  {
  }

  lemma LogStep(keys: set<Mono>, p: Poly, atom: nat, log: seq<Entry>, before: seq<Entry>, after: seq<Entry>,
      todo: set<Mono>, m: Mono, k: Mono)
    requires m in todo && m in p && m != multiset{atom} && IsKey(keys, m, k) && after == before + [Entry(k, p[m])]
    requires forall e: Entry :: e in before <==> e in log || exists n :: n !in todo && InBase(p, atom, keys, n, e)
    ensures forall e: Entry :: e in after <==> e in log || exists n :: n !in todo - {m} && InBase(p, atom, keys, n, e)
  {
    forall e: Entry ensures InBase(p, atom, keys, m, e) <==> e == Entry(k, p[m]) { InBaseIff(keys, p, atom, m, k, e); }
    hide InBase, IsKey;
    forall e: Entry ensures e in after <==> e in log || exists n :: n !in todo - {m} && InBase(p, atom, keys, n, e) {
      if e == Entry(k, p[m]) { assert InBase(p, atom, keys, m, e); }
      if n :| n !in todo && InBase(p, atom, keys, n, e) { assert n !in todo - {m}; }
    }
  }

  lemma InBaseIff(keys: set<Mono>, p: Poly, atom: nat, m: Mono, k: Mono, e: Entry)
    requires m in p && m != multiset{atom} && IsKey(keys, m, k)
    ensures InBase(p, atom, keys, m, e) <==> e == Entry(k, p[m])
  {
    if InBase(p, atom, keys, m, e) { KeyUnique(keys, m, k, e.key); }
  }

  // ---- dimensions

  // the contiguous unit is the element size when that divides everything constant; a zero unit becomes 1
  ghost predicate IsUnit(log: seq<Entry>, elem: nat, d: Dim) {
    exists g :: IsGcdOf(g, log, d.mono) &&
      var c := if d.mono == multiset{} && elem != 0 && g % elem == 0 then elem else g;
      d.unit == if c == 0 then 1 else c
  }

  ghost predicate AreDims(acc: seq<Access>, atom: nat, elem: nat, log: seq<Entry>, dims: seq<Dim>) {
    && DimsOrdered(dims) && ExactLog(acc, atom, Monos(dims), log)
    && (forall k :: 0 <= k < |dims| ==> IsUnit(log, elem, dims[k]))
    && (forall e :: e in log ==> e.key in Monos(dims))
    && forall k :: 0 <= k < |dims| && dims[k].mono != multiset{} ==> exists c :: Entry(dims[k].mono, c) in log
  }

  // outermost first: degrees never rise, monomials of one degree come in lexicographic order, and the contiguous
  // dimension is the last
  ghost predicate OutermostFirst(dims: seq<Dim>) {
    && dims != [] && dims[|dims| - 1].mono == multiset{}
    && forall i, j :: 0 <= i < j < |dims| ==>
      |dims[i].mono| > |dims[j].mono| || (|dims[i].mono| == |dims[j].mono| && MonoLess(dims[i].mono, dims[j].mono))
  }

  lemma Falling(dims: seq<Dim>)
    requires DimsOrdered(dims)
    ensures OutermostFirst(dims)
  {
    hide MonoLess;
    var k :| 0 <= k < |dims| && dims[k].mono == multiset{};
    if k < |dims| - 1 { assert DimLess(dims[k].mono, dims[|dims| - 1].mono); }
    forall i, j | 0 <= i < j < |dims| ensures
        |dims[i].mono| > |dims[j].mono| || (|dims[i].mono| == |dims[j].mono| && MonoLess(dims[i].mono, dims[j].mono))
    {
      assert DimLess(dims[i].mono, dims[j].mono);
    }
  }

  method Dimensions(acc: seq<Access>, atom: nat, elem: nat)
      returns (dims: seq<Dim>, elemOut: int, ghost log: seq<Entry>)
    ensures AreDims(acc, atom, elem, log, dims) && OutermostFirst(dims)
    ensures if elem != 0 then elemOut == elem else IsGcdOf(elemOut, log, multiset{})
  {
    var g; ghost var log0;
    g, log0 := StrideUnits(acc);
    assert multiset{} in g;
    g, log := BaseUnits(acc, atom, g, log0);
    assert IsGcdOf(g[multiset{}], log, multiset{});
    assert forall e :: e in log ==> e.key in g.Keys;
    hide *;
    DimOrder();
    var order := SortKeys(g.Keys, DimLess);
    var contig := g[multiset{}];
    if elem != 0 && contig % elem == 0 { contig := elem; }
    elemOut := if elem != 0 then elem else contig;
    dims := MakeDims(order, g, elem, contig, log);
    DimsReady(acc, atom, elem, log0, log, g.Keys, order, dims);
    DimsFacts(acc, atom, elem, log, dims);
    Falling(dims);
  }

  lemma DimsFacts(acc: seq<Access>, atom: nat, elem: nat, log: seq<Entry>, dims: seq<Dim>)
    requires AreDims(acc, atom, elem, log, dims)
    ensures DimsOrdered(dims)
  {
  }

  lemma DimsReady(acc: seq<Access>, atom: nat, elem: nat, log0: seq<Entry>, log: seq<Entry>, keys: set<Mono>,
      order: seq<Mono>, dims: seq<Dim>)
    requires forall e: Entry :: e in log0 <==> FromStride(acc, |acc|, 0, e)
    requires forall k :: k in keys <==> k == multiset{} || exists c :: Entry(k, c) in log0
    requires forall e: Entry ::
      e in log <==> e in log0 || FromBase(acc, atom, keys, |acc|, e) || FromWidth(acc, |acc|, e)
    requires forall i, j :: 0 <= i < j < |order| ==> DimLess(order[i], order[j])
    requires forall e :: e in log ==> e.key in keys
    requires forall m :: m in order <==> m in keys
    requires |dims| == |order| && forall i :: 0 <= i < |dims| ==> dims[i].mono == order[i] && IsUnit(log, elem, dims[i])
    ensures AreDims(acc, atom, elem, log, dims)
  {
    hide FromStride, FromBase, FromWidth, DimLess, IsUnit;
    forall m | m in keys ensures exists i :: 0 <= i < |dims| && dims[i].mono == m {
      var i :| 0 <= i < |order| && order[i] == m;
      assert dims[i].mono == m;
    }
    assert Monos(dims) == keys;
    assert multiset{} in keys;
    forall k | 0 <= k < |dims| && dims[k].mono != multiset{} ensures exists c :: Entry(dims[k].mono, c) in log {
      assert dims[k].mono in order;
      var c :| Entry(dims[k].mono, c) in log0;
      assert Entry(dims[k].mono, c) in log;
    }
  }

  method MakeDims(order: seq<Mono>, g: map<Mono, int>, elem: nat, contig: int, ghost log: seq<Entry>)
      returns (dims: seq<Dim>)
    requires Tallied(g, log) && forall i :: 0 <= i < |order| ==> order[i] in g
    requires contig == if elem != 0 && g[multiset{}] % elem == 0 then elem else g[multiset{}]
    ensures |dims| == |order| && forall i :: 0 <= i < |dims| ==> dims[i].mono == order[i] && IsUnit(log, elem, dims[i])
  {
    hide IsGcdOf;
    dims := [];
    for k := 0 to |order|
      invariant |dims| == k
      invariant forall i :: 0 <= i < k ==> dims[i].mono == order[i] && IsUnit(log, elem, dims[i])
    {
      var u := if order[k] == multiset{} then contig else g[order[k]];
      if u == 0 { u := 1; }
      assert IsGcdOf(g[order[k]], log, order[k]);
      dims := dims + [Dim(order[k], u)];
    }
  }

  // a unit divides every coefficient logged for its dimension
  lemma UnitDivides(log: seq<Entry>, elem: nat, d: Dim, c: int)
    requires IsUnit(log, elem, d) && Entry(d.mono, c) in log
    ensures d.unit > 0 && DividesInt(d.unit, c)
  {
    var g :| IsGcdOf(g, log, d.mono) &&
      var c := if d.mono == multiset{} && elem != 0 && g % elem == 0 then elem else g;
      d.unit == if c == 0 then 1 else c;
    assert DividesInt(g, c);
    if d.mono == multiset{} && elem != 0 && g % elem == 0 {
      assert g == elem * (g / elem);
      DividesTrans(elem, g, c);
    } else if g == 0 {
      var z :| c == g * z;
      assert c == 1 * c;
    }
  }
}
