// Address recovery of a whole program: the samples of every access, predicate and derived operand are split into
// families and fitted, all fitted sites together give the coordinates, the accesses are grouped by the tensor their
// base names, and in each tensor every sample of every fitted access is re-derived.
module ProgramRecovery {
  import opened Options
  import opened Polynomials
  import opened AffineFit
  import opened TileIR
  import opened AddressRecovery
  import C = Coordinates

  // the samples of one piece of one access, of one predicate literal, or of one operand of a derived quantity
  datatype Pending = Pending(role: C.Role, bytes: nat, samples: seq<Sample>)

  // ---- from samples to families

  // the families of one sample list: one when there is nothing to split, otherwise grouped by what the elected strides
  // leave
  ghost predicate SplitInto(S: seq<Sample>, n: nat, id: Poly -> nat, parts: seq<seq<Sample>>) {
    && (|S| <= 1 || (IsAffine(S, n) && WellSampled(S, n)) ==> parts == [S])
    && (|S| > 1 && !(IsAffine(S, n) && WellSampled(S, n)) ==>
      exists stride, order :: |stride| == n && Elections(S, id, stride) && IsSplit(S, stride, order, parts))
  }

  lemma SplitPools(S: seq<Sample>, n: nat, id: Poly -> nat, parts: seq<seq<Sample>>)
    requires Points(S, n) && SplitInto(S, n, id, parts)
    ensures Pool(parts) == multiset(S)
    ensures forall k :: 0 <= k < |parts| ==> Points(parts[k], n)
  {
    hide Points, IsAffine, WellSampled, Elections, IsSplit;
    if parts == [S] {
      assert parts[..0] == [];
      assert Pool(parts) == Pool(parts[..0]) + multiset(S);
    } else {
      var stride, order :| |stride| == n && Elections(S, id, stride) && IsSplit(S, stride, order, parts);
      FamiliesPartition(S, n, stride, order, parts);
    }
  }

  ghost function FamiliesOf(p: Pending, parts: seq<seq<Sample>>): seq<Family> {
    seq(|parts|, k requires 0 <= k < |parts| => Family(p.role, p.bytes, parts[k]))
  }

  // the families of the sample lists, in order
  ghost predicate AllSplit(pending: seq<Pending>, n: nat, id: Poly -> nat, fams: seq<Family>)
    decreases |pending|
  {
    if pending == [] then fams == []
    else
      var p := pending[|pending| - 1];
      exists before, parts :: AllSplit(pending[..|pending| - 1], n, id, before) && SplitInto(p.samples, n, id, parts)
        && fams == before + FamiliesOf(p, parts)
  }

  method SplitOne(p: Pending, n: nat, id: Poly -> nat) returns (fams: seq<Family>, ghost parts: seq<seq<Sample>>)
    requires Points(p.samples, n)
    ensures SplitInto(p.samples, n, id, parts) && fams == FamiliesOf(p, parts)
    ensures forall s :: 0 <= s < |fams| ==> Points(fams[s].samples, n)
  {
    hide *;
    var fs; ghost var stride, order;
    fs, stride, order := SplitFamilies(p.samples, n, id);
    parts := fs;
    SplitMade(p.samples, n, id, stride, order, parts);
    fams := [];
    for k := 0 to |fs|
      invariant |fams| == k
      invariant forall i :: 0 <= i < k ==> fams[i] == Family(p.role, p.bytes, fs[i])
    {
      fams := fams + [Family(p.role, p.bytes, fs[k])];
    }
    FamiliesAt(p, parts, fams);
  }

  lemma SplitMade(S: seq<Sample>, n: nat, id: Poly -> nat, stride: seq<Poly>, order: seq<Poly>, parts: seq<seq<Sample>>)
    requires Points(S, n) && (|S| <= 1 || (IsAffine(S, n) && WellSampled(S, n)) ==> parts == [S])
    requires |S| > 1 && !(IsAffine(S, n) && WellSampled(S, n)) ==>
      |stride| == n && Elections(S, id, stride) && IsSplit(S, stride, order, parts)
    ensures SplitInto(S, n, id, parts)
    ensures forall k :: 0 <= k < |parts| ==> Points(parts[k], n)
  {
    hide Points, IsAffine, WellSampled, Elections, IsSplit;
    SplitPools(S, n, id, parts);
  }

  lemma FamiliesAt(p: Pending, parts: seq<seq<Sample>>, fams: seq<Family>)
    requires |fams| == |parts| && forall i :: 0 <= i < |parts| ==> fams[i] == Family(p.role, p.bytes, parts[i])
    ensures fams == FamiliesOf(p, parts)
  {
  }

  lemma SplitNext(pending: seq<Pending>, k: nat, n: nat, id: Poly -> nat, fams: seq<Family>, parts: seq<seq<Sample>>)
    requires k < |pending| && AllSplit(pending[..k], n, id, fams) && SplitInto(pending[k].samples, n, id, parts)
    ensures AllSplit(pending[..k + 1], n, id, fams + FamiliesOf(pending[k], parts))
  {
    hide SplitInto, FamiliesOf;
    assert pending[..k + 1][..k] == pending[..k];
  }

  method SplitAll(pending: seq<Pending>, n: nat, id: Poly -> nat) returns (fams: seq<Family>)
    requires forall k :: 0 <= k < |pending| ==> Points(pending[k].samples, n)
    ensures AllSplit(pending, n, id, fams)
    ensures forall s :: 0 <= s < |fams| ==> Points(fams[s].samples, n)
  {
    fams := [];
    assert AllSplit(pending[..0], n, id, []);
    hide *;
    for k := 0 to |pending|
      invariant AllSplit(pending[..k], n, id, fams)
      invariant forall s :: 0 <= s < |fams| ==> Points(fams[s].samples, n)
    {
      var more; ghost var parts;
      more, parts := SplitOne(pending[k], n, id);
      SplitNext(pending, k, n, id, fams, parts);
      fams := fams + more;
    }
    assert pending[..|pending|] == pending;
  }

  // ---- tensors

  // the base of an access names the tensor: the first pointer among its terms of degree one. The coefficient is not
  // looked at, and a second pointer does not change the name
  ghost predicate Names(p: Poly, pointers: set<nat>, a: nat) {
    a in pointers && multiset{a} in p && forall b :: b in pointers && multiset{b} in p ==> a <= b
  }

  ghost predicate Unnamed(p: Poly, pointers: set<nat>) {
    forall b :: b in pointers ==> multiset{b} !in p
  }

  method BaseOf(p: Poly, pointers: set<nat>) returns (t: Option<nat>)
    ensures if t.Some? then Names(p, pointers, t.value) else Unnamed(p, pointers)
  {
    t := None;
    var todo := pointers;
    while todo != {}
      invariant todo <= pointers
      invariant t.Some? ==> t.value in pointers && multiset{t.value} in p
      invariant forall b :: b in pointers - todo && multiset{b} in p ==> t.Some? && t.value <= b
      decreases todo
    {
      var a :| a in todo;
      if multiset{a} in p && (t.None? || a < t.value) { t := Some(a); }
      todo := todo - {a};
    }
  }

  datatype Tensor = Tensor(atom: nat, sites: seq<nat>)

  // s is a fitted access whose base names a tensor
  ghost predicate Mapped(fams: seq<Family>, fits: seq<Option<Fitted>>, pointers: set<nat>, s: nat) {
    s < |fams| && s < |fits| && !fams[s].role.Control? && fits[s].Some? && !Unnamed(fits[s].value.base, pointers)
  }

  ghost predicate Belongs(fams: seq<Family>, fits: seq<Option<Fitted>>, pointers: set<nat>, s: nat, a: nat) {
    Mapped(fams, fits, pointers, s) && Names(fits[s].value.base, pointers, a)
  }

  ghost predicate AllBelong(fams: seq<Family>, fits: seq<Option<Fitted>>, pointers: set<nat>, upto: nat,
      tensors: seq<Tensor>)
  {
    forall t, i :: 0 <= t < |tensors| && 0 <= i < |tensors[t].sites| ==>
      tensors[t].sites[i] < upto && Belongs(fams, fits, pointers, tensors[t].sites[i], tensors[t].atom)
  }

  ghost predicate Found(tensors: seq<Tensor>, s: nat) {
    exists t :: 0 <= t < |tensors| && s in tensors[t].sites
  }

  ghost predicate AllFound(fams: seq<Family>, fits: seq<Option<Fitted>>, pointers: set<nat>, upto: nat,
      tensors: seq<Tensor>)
  {
    forall s: nat :: s < upto && Mapped(fams, fits, pointers, s) ==> Found(tensors, s)
  }

  ghost predicate InSiteOrder(tensors: seq<Tensor>) {
    forall t, i, j :: 0 <= t < |tensors| && 0 <= i < j < |tensors[t].sites| ==>
      tensors[t].sites[i] < tensors[t].sites[j]
  }

  ghost predicate OnePerAtom(tensors: seq<Tensor>) {
    forall t, u :: 0 <= t < u < |tensors| ==> tensors[t].atom != tensors[u].atom
  }

  // the first `upto` families, grouped by tensor: each tensor once, with its accesses in order
  ghost predicate GroupedByTensor(fams: seq<Family>, fits: seq<Option<Fitted>>, pointers: set<nat>, upto: nat,
      tensors: seq<Tensor>)
  {
    && AllBelong(fams, fits, pointers, upto, tensors) && AllFound(fams, fits, pointers, upto, tensors)
    && InSiteOrder(tensors) && OnePerAtom(tensors)
  }

  ghost predicate Indexed(tensors: seq<Tensor>, ix: map<nat, nat>) {
    && (forall a :: a in ix ==> ix[a] < |tensors| && tensors[ix[a]].atom == a)
    && forall t :: 0 <= t < |tensors| ==> tensors[t].atom in ix && ix[tensors[t].atom] == t
  }

  // the samples of the mapped families among the first k
  ghost function MappedSamples(fams: seq<Family>, fits: seq<Option<Fitted>>, pointers: set<nat>, k: nat): nat
    requires k <= |fams|
  {
    if k == 0 then 0
    else MappedSamples(fams, fits, pointers, k - 1) + if Mapped(fams, fits, pointers, k - 1) then |fams[k - 1].samples|
      else 0
  }

  // the fitted accesses among the first k whose base names no tensor
  ghost function UnmappedSites(fams: seq<Family>, fits: seq<Option<Fitted>>, pointers: set<nat>, k: nat): nat
    requires k <= |fams| == |fits|
  {
    if k == 0 then 0
    else
      UnmappedSites(fams, fits, pointers, k - 1)
        + if !fams[k - 1].role.Control? && fits[k - 1].Some? && Unnamed(fits[k - 1].value.base, pointers) then 1 else 0
  }

  ghost function SiteSamples(fams: seq<Family>, sites: seq<nat>): nat {
    if sites == [] then 0
    else
      var s := sites[|sites| - 1];
      SiteSamples(fams, sites[..|sites| - 1]) + if s < |fams| then |fams[s].samples| else 0
  }

  ghost function TensorSamples(fams: seq<Family>, tensors: seq<Tensor>): nat {
    if tensors == [] then 0
      else TensorSamples(fams, tensors[..|tensors| - 1]) + SiteSamples(fams, tensors[|tensors| - 1].sites)
  }

  lemma SiteSamplesNext(fams: seq<Family>, sites: seq<nat>, s: nat)
    ensures SiteSamples(fams, sites + [s]) == SiteSamples(fams, sites) + if s < |fams| then |fams[s].samples| else 0
  {
    assert (sites + [s])[..|sites|] == sites;
  }

  lemma {:induction false} TensorSamplesUpdate(fams: seq<Family>, tensors: seq<Tensor>, t: nat, s: nat)
    requires t < |tensors|
    ensures TensorSamples(fams, tensors[t := Tensor(tensors[t].atom, tensors[t].sites + [s])])
      == TensorSamples(fams, tensors) + if s < |fams| then |fams[s].samples| else 0
    decreases |tensors|
  {
    var n, more := |tensors| - 1, tensors[t := Tensor(tensors[t].atom, tensors[t].sites + [s])];
    if t == n {
      assert more[..n] == tensors[..n];
      SiteSamplesNext(fams, tensors[t].sites, s);
    } else {
      assert more[..n] == tensors[..n][t := Tensor(tensors[t].atom, tensors[t].sites + [s])];
      TensorSamplesUpdate(fams, tensors[..n], t, s);
    }
  }

  lemma TensorSamplesNew(fams: seq<Family>, tensors: seq<Tensor>, a: nat, s: nat)
    ensures TensorSamples(fams, tensors + [Tensor(a, [s])]) == TensorSamples(fams, tensors) + if s < |fams|
      then |fams[s].samples| else 0
  {
    assert (tensors + [Tensor(a, [s])])[..|tensors|] == tensors;
    assert [] + [s] == [s];
    SiteSamplesNext(fams, [], s);
  }

  // an access joins the tensor it names
  function Joined(tensors: seq<Tensor>, ix: map<nat, nat>, a: nat, s: nat): seq<Tensor>
    requires a in ix ==> ix[a] < |tensors|
  {
    if a in ix then tensors[ix[a] := Tensor(tensors[ix[a]].atom, tensors[ix[a]].sites + [s])]
      else tensors + [Tensor(a, [s])]
  }

  lemma GroupTensorNext(fams: seq<Family>, fits: seq<Option<Fitted>>, pointers: set<nat>, s: nat, tensors: seq<Tensor>,
      ix: map<nat, nat>, a: nat)
    requires GroupedByTensor(fams, fits, pointers, s, tensors) && Indexed(tensors, ix)
      && Belongs(fams, fits, pointers, s, a)
    ensures GroupedByTensor(fams, fits, pointers, s + 1, Joined(tensors, ix, a, s))
    ensures Indexed(Joined(tensors, ix, a, s), if a in ix then ix else ix[a := |tensors|])
    ensures s < |fams| ==>
      TensorSamples(fams, Joined(tensors, ix, a, s)) == TensorSamples(fams, tensors) + |fams[s].samples|
  {
    if a in ix { TensorSamplesUpdate(fams, tensors, ix[a], s); } else { TensorSamplesNew(fams, tensors, a, s); }
    JoinedBelong(fams, fits, pointers, s, tensors, ix, a);
    JoinedFound(fams, fits, pointers, s, tensors, ix, a);
    JoinedOrder(fams, fits, pointers, s, tensors, ix, a);
    JoinedIndexed(s, tensors, ix, a);
    hide AllBelong, AllFound, InSiteOrder, OnePerAtom, Indexed, Belongs, TensorSamples;
  }

  lemma JoinedBelong(fams: seq<Family>, fits: seq<Option<Fitted>>, pointers: set<nat>, s: nat, tensors: seq<Tensor>,
      ix: map<nat, nat>, a: nat)
    requires AllBelong(fams, fits, pointers, s, tensors) && Indexed(tensors, ix) && Belongs(fams, fits, pointers, s, a)
    ensures AllBelong(fams, fits, pointers, s + 1, Joined(tensors, ix, a, s))
  {
    hide Belongs;
  }

  lemma JoinedFound(fams: seq<Family>, fits: seq<Option<Fitted>>, pointers: set<nat>, s: nat, tensors: seq<Tensor>,
      ix: map<nat, nat>, a: nat)
    requires AllFound(fams, fits, pointers, s, tensors) && Indexed(tensors, ix)
    ensures AllFound(fams, fits, pointers, s + 1, Joined(tensors, ix, a, s))
  {
    hide Mapped;
    var more := Joined(tensors, ix, a, s);
    var k := if a in ix then ix[a] else |tensors|;
    assert more[k].sites[|more[k].sites| - 1] == s;
    assert Found(more, s);
    forall q: nat | Found(tensors, q) ensures Found(more, q) {
      var t :| 0 <= t < |tensors| && q in tensors[t].sites;
      assert q in more[t].sites;
    }
  }

  lemma JoinedOrder(fams: seq<Family>, fits: seq<Option<Fitted>>, pointers: set<nat>, s: nat, tensors: seq<Tensor>,
      ix: map<nat, nat>, a: nat)
    requires AllBelong(fams, fits, pointers, s, tensors) && Indexed(tensors, ix) && InSiteOrder(tensors)
    ensures InSiteOrder(Joined(tensors, ix, a, s))
  {
    hide Belongs;
  }

  lemma JoinedIndexed(s: nat, tensors: seq<Tensor>, ix: map<nat, nat>, a: nat)
    requires Indexed(tensors, ix) && OnePerAtom(tensors)
    ensures OnePerAtom(Joined(tensors, ix, a, s))
      && Indexed(Joined(tensors, ix, a, s), if a in ix then ix else ix[a := |tensors|])
  {
  }

  lemma GroupSkip(fams: seq<Family>, fits: seq<Option<Fitted>>, pointers: set<nat>, s: nat, tensors: seq<Tensor>)
    requires GroupedByTensor(fams, fits, pointers, s, tensors) && !Mapped(fams, fits, pointers, s)
    ensures GroupedByTensor(fams, fits, pointers, s + 1, tensors)
  {
    hide Belongs, Mapped;
  }

  method GroupByTensor(fams: seq<Family>, fits: seq<Option<Fitted>>, pointers: set<nat>)
      returns (tensors: seq<Tensor>, unmapped: nat)
    requires |fits| == |fams|
    ensures GroupedByTensor(fams, fits, pointers, |fams|, tensors)
    ensures TensorSamples(fams, tensors) == MappedSamples(fams, fits, pointers, |fams|)
    ensures unmapped == UnmappedSites(fams, fits, pointers, |fams|)
  {
    hide *;
    tensors, unmapped := [], 0;
    var ix: map<nat, nat> := map[];
    GroupNothing(fams, fits, pointers);
    for s := 0 to |fams|
      invariant GroupedByTensor(fams, fits, pointers, s, tensors) && Indexed(tensors, ix)
      invariant TensorSamples(fams, tensors) == MappedSamples(fams, fits, pointers, s)
      invariant unmapped == UnmappedSites(fams, fits, pointers, s)
    {
      CountNext(fams, fits, pointers, s);
      if fams[s].role.Control? || fits[s].None? {
        GroupSkip(fams, fits, pointers, s, tensors);
        continue;
      }
      var t := BaseOf(fits[s].value.base, pointers);
      if t.None? {
        unmapped := unmapped + 1;
        GroupSkip(fams, fits, pointers, s, tensors);
        continue;
      }
      var a := t.value;
      NamedIsMapped(fams, fits, pointers, s, a);
      IndexedBound(tensors, ix, a);
      GroupTensorNext(fams, fits, pointers, s, tensors, ix, a);
      tensors, ix := Joined(tensors, ix, a, s), if a in ix then ix else ix[a := |tensors|];
    }
  }

  lemma GroupNothing(fams: seq<Family>, fits: seq<Option<Fitted>>, pointers: set<nat>)
    requires |fits| == |fams|
    ensures GroupedByTensor(fams, fits, pointers, 0, []) && Indexed([], map[])
    ensures TensorSamples(fams, []) == MappedSamples(fams, fits, pointers, 0) == UnmappedSites(fams, fits, pointers, 0)
      == 0
  {
  }

  lemma CountNext(fams: seq<Family>, fits: seq<Option<Fitted>>, pointers: set<nat>, s: nat)
    requires s < |fams| == |fits|
    ensures (fams[s].role.Control? || fits[s].None? || Unnamed(fits[s].value.base, pointers)) ==>
      !Mapped(fams, fits, pointers, s)
    ensures MappedSamples(fams, fits, pointers, s + 1)
      == MappedSamples(fams, fits, pointers, s) + if Mapped(fams, fits, pointers, s) then |fams[s].samples| else 0
    ensures UnmappedSites(fams, fits, pointers, s + 1) == UnmappedSites(fams, fits, pointers, s)
      + if !fams[s].role.Control? && fits[s].Some? && Unnamed(fits[s].value.base, pointers) then 1 else 0
  {
    hide Unnamed;
  }

  lemma IndexedBound(tensors: seq<Tensor>, ix: map<nat, nat>, a: nat)
    requires Indexed(tensors, ix)
    ensures a in ix ==> ix[a] < |tensors|
  {
  }

  lemma NamedIsMapped(fams: seq<Family>, fits: seq<Option<Fitted>>, pointers: set<nat>, s: nat, a: nat)
    requires s < |fams| == |fits| && !fams[s].role.Control? && fits[s].Some? && Names(fits[s].value.base, pointers, a)
    ensures Belongs(fams, fits, pointers, s, a) && Mapped(fams, fits, pointers, s)
      && !Unnamed(fits[s].value.base, pointers)
  {
  }

  // ---- the check of one tensor, and of all

  function AccessOf(f: Family, t: Fitted, coord: seq<Poly>): Access {
    Access(t.base, coord, f.bytes)
  }

  // what the fits and the discovery establish
  ghost predicate Prepared(fams: seq<Family>, fits: seq<Option<Fitted>>, n: nat, datom: seq<nat>, V: seq<seq<int>>,
      coord: seq<seq<Poly>>)
  {
    |fits| == |fams| == |coord|
    && forall s :: 0 <= s < |fams| && fits[s].Some? ==> Ready(fams[s], fits[s].value, n, datom, V, coord[s])
  }

  lemma AllPrepared(fams: seq<Family>, fits: seq<Option<Fitted>>, n: nat, datom: seq<nat>, sites: seq<C.Site>, d: nat,
                    V: seq<seq<int>>, coord: seq<seq<Poly>>)
    requires |fits| == |fams| == |sites| == |coord| && C.Discovered(sites, n, n + |datom|, d, V, coord)
    requires forall s :: 0 <= s < |fams| ==> Points(fams[s].samples, n) && FitOk(fams[s], n, datom, fits[s])
    requires forall s :: 0 <= s < |fams| ==> sites[s] == SiteOf(fams[s], fits[s])
    ensures Prepared(fams, fits, n, datom, V, coord)
  {
    hide Points, FitOk, SiteOf, Ready, C.Discovered;
    forall s | 0 <= s < |fams| && fits[s].Some? ensures Ready(fams[s], fits[s].value, n, datom, V, coord[s]) {
      DiscoveredReady(fams, fits, n, datom, sites, d, V, coord, s);
    }
  }

  method CheckTensor(fams: seq<Family>, fits: seq<Option<Fitted>>, n: nat, datom: seq<nat>, V: seq<seq<int>>,
      coord: seq<seq<Poly>>, T: Tensor, elem: nat) returns (verified: nat, mismatches: int, skipped: int,
      leftovers: int)
    requires Prepared(fams, fits, n, datom, V, coord)
    requires forall i :: 0 <= i < |T.sites| ==> T.sites[i] < |fams| && fits[T.sites[i]].Some?
    ensures verified == SiteSamples(fams, T.sites) && mismatches == 0 && skipped == 0 && leftovers == 0
  {
    hide Ready, AreDims, SiteSamples;
    var acc := seq(|T.sites|, i requires 0 <= i < |T.sites| && |fits| == |fams| == |coord| && T.sites[i] < |fams|
      && fits[T.sites[i]].Some? =>
      AccessOf(fams[T.sites[i]], fits[T.sites[i]].value, coord[T.sites[i]]));
    var dims, e; ghost var log;
    dims, e, log := Dimensions(acc, T.atom, elem);
    verified, mismatches, skipped, leftovers := 0, 0, 0, 0;
    assert T.sites[..0] == [] && SiteSamples(fams, []) == 0 by { NoSites(fams); }
    for i := 0 to |T.sites|
      invariant verified == SiteSamples(fams, T.sites[..i]) && mismatches == 0 && skipped == 0 && leftovers == 0
    {
      var s := T.sites[i];
      var v, m, sk, left;
      v, m, sk, left := CheckAccess(acc, T.atom, elem, log, dims, i, fams[s], fits[s].value, n, datom, V, coord[s]);
      assert T.sites[..i + 1] == T.sites[..i] + [s];
      SiteSamplesNext(fams, T.sites[..i], s);
      verified, mismatches, skipped := verified + v, mismatches + m, skipped + sk;
      if left != map[] { leftovers := leftovers + 1; }
    }
    assert T.sites[..|T.sites|] == T.sites;
  }

  lemma NoSites(fams: seq<Family>)
    ensures SiteSamples(fams, []) == 0 && TensorSamples(fams, []) == 0
  {
  }

  lemma TensorSamplesNext(fams: seq<Family>, tensors: seq<Tensor>, t: nat)
    requires t < |tensors|
    ensures TensorSamples(fams, tensors[..t + 1]) == TensorSamples(fams, tensors[..t])
      + SiteSamples(fams, tensors[t].sites)
  {
    assert tensors[..t + 1][..t] == tensors[..t];
  }

  method CheckAll(fams: seq<Family>, fits: seq<Option<Fitted>>, n: nat, datom: seq<nat>, V: seq<seq<int>>,
      coord: seq<seq<Poly>>, tensors: seq<Tensor>, elem: nat -> nat) returns (verified: nat, mismatches: int,
      skipped: int, leftovers: int)
    requires Prepared(fams, fits, n, datom, V, coord)
    requires forall t, i :: 0 <= t < |tensors| && 0 <= i < |tensors[t].sites| ==>
      tensors[t].sites[i] < |fams| && fits[tensors[t].sites[i]].Some?
    ensures verified == TensorSamples(fams, tensors) && mismatches == 0 && skipped == 0 && leftovers == 0
  {
    hide Ready, SiteSamples, TensorSamples;
    verified, mismatches, skipped, leftovers := 0, 0, 0, 0;
    assert tensors[..0] == [] && TensorSamples(fams, []) == 0 by { NoSites(fams); }
    for t := 0 to |tensors|
      invariant verified == TensorSamples(fams, tensors[..t]) && mismatches == 0 && skipped == 0 && leftovers == 0
    {
      var v, m, sk, left := CheckTensor(fams, fits, n, datom, V, coord, tensors[t], elem(tensors[t].atom));
      TensorSamplesNext(fams, tensors, t);
      verified, mismatches, skipped, leftovers := verified + v, mismatches + m, skipped + sk, leftovers + left;
    }
    assert tensors[..|tensors|] == tensors;
  }

  // ---- no sample is lost

  // the samples of the accesses
  ghost function Accessed(pending: seq<Pending>): multiset<Sample> {
    if pending == [] then multiset{}
    else
      var p := pending[|pending| - 1];
      Accessed(pending[..|pending| - 1]) + if p.role.Control? then multiset{} else multiset(p.samples)
  }

  ghost function FamilyPool(fams: seq<Family>): multiset<Sample> {
    if fams == [] then multiset{}
    else
      var f := fams[|fams| - 1];
      FamilyPool(fams[..|fams| - 1]) + if f.role.Control? then multiset{} else multiset(f.samples)
  }

  lemma {:induction false} FamilyPoolConcat(a: seq<Family>, b: seq<Family>)
    ensures FamilyPool(a + b) == FamilyPool(a) + FamilyPool(b)
    decreases |b|
  {
    if b == [] {
      assert a + b == a;
    } else {
      var n := |b| - 1;
      assert (a + b)[..|a + b| - 1] == a + b[..n] && (a + b)[|a + b| - 1] == b[n];
      FamilyPoolConcat(a, b[..n]);
    }
  }

  lemma {:induction false} FamilyPoolOf(p: Pending, parts: seq<seq<Sample>>)
    ensures FamilyPool(FamiliesOf(p, parts)) == if p.role.Control? then multiset{} else Pool(parts)
    decreases |parts|
  {
    if parts != [] {
      var n := |parts| - 1;
      assert FamiliesOf(p, parts)[..n] == FamiliesOf(p, parts[..n]);
      FamilyPoolOf(p, parts[..n]);
    }
  }

  lemma {:induction false} SamplesKept(pending: seq<Pending>, n: nat, id: Poly -> nat, fams: seq<Family>)
    requires AllSplit(pending, n, id, fams) && forall k :: 0 <= k < |pending| ==> Points(pending[k].samples, n)
    ensures FamilyPool(fams) == Accessed(pending)
    decreases |pending|
  {
    if pending != [] {
      var m := |pending| - 1;
      var p := pending[m];
      var before, parts :| AllSplit(pending[..m], n, id, before) && SplitInto(p.samples, n, id, parts)
        && fams == before + FamiliesOf(p, parts);
      hide SplitInto, Points, FamiliesOf;
      SamplesKept(pending[..m], n, id, before);
      SplitPools(p.samples, n, id, parts);
      FamilyPoolOf(p, parts);
      FamilyPoolConcat(before, FamiliesOf(p, parts));
    }
  }

  // an access family is settled when it has no samples or is fitted and names a tensor
  ghost predicate SiteSettled(fams: seq<Family>, fits: seq<Option<Fitted>>, pointers: set<nat>, s: nat) {
    s < |fams| && (fams[s].role.Control? || fams[s].samples == [] || Mapped(fams, fits, pointers, s))
  }

  lemma {:induction false} SamplesMapped(fams: seq<Family>, fits: seq<Option<Fitted>>, pointers: set<nat>, k: nat)
    requires k <= |fams|
    ensures MappedSamples(fams, fits, pointers, k) <= |FamilyPool(fams[..k])|
    ensures MappedSamples(fams, fits, pointers, k) == |FamilyPool(fams[..k])|
      <==> forall s :: 0 <= s < k ==> SiteSettled(fams, fits, pointers, s)
  {
    if k > 0 {
      SamplesMapped(fams, fits, pointers, k - 1);
      assert fams[..k][..k - 1] == fams[..k - 1];
      SettledCount(fams, fits, pointers, k - 1);
      hide SiteSettled, Mapped;
    }
  }

  lemma SettledCount(fams: seq<Family>, fits: seq<Option<Fitted>>, pointers: set<nat>, s: nat)
    requires s < |fams|
    ensures var size := if fams[s].role.Control? then 0 else |fams[s].samples|;
      var mapped := if Mapped(fams, fits, pointers, s) then |fams[s].samples| else 0;
      mapped <= size && (mapped == size <==> SiteSettled(fams, fits, pointers, s))
  {
  }

  // ---- the whole recovery

  ghost predicate AllFitted(fams: seq<Family>, n: nat, datom: seq<nat>, fits: seq<Option<Fitted>>) {
    |fits| == |fams| && forall s :: 0 <= s < |fams| ==> FitOk(fams[s], n, datom, fits[s])
  }

  // Whatever the samples: no fitted site loses its basis change, no stride term is skipped, nothing is left over, and
  // every sample of every access family that can be fitted and whose base names a tensor is re-derived exactly.
  method Recover(pending: seq<Pending>, n: nat, datom: seq<nat>, pointers: set<nat>, elem: nat -> nat, id: Poly -> nat)
    returns (verified: nat, mismatches: int, broken: int, skipped: int, leftovers: int, unmapped: nat,
             ghost fams: seq<Family>, ghost fits: seq<Option<Fitted>>)
    requires DistinctAtoms(datom) && forall k :: 0 <= k < |pending| ==> Points(pending[k].samples, n)
    ensures AllSplit(pending, n, id, fams) && AllFitted(fams, n, datom, fits)
    ensures mismatches == 0 && broken == 0 && skipped == 0 && leftovers == 0
    ensures verified == MappedSamples(fams, fits, pointers, |fams|)
      && unmapped == UnmappedSites(fams, fits, pointers, |fams|)
    ensures verified == |Accessed(pending)| <==> forall s :: 0 <= s < |fams| ==> SiteSettled(fams, fits, pointers, s)
  {
    hide *;
    var fs := SplitAll(pending, n, id);
    var ts := FitAll(fs, n, datom);
    fams, fits := fs, ts;
    assert AllFitted(fams, n, datom, fits) by { FittedIs(fams, n, datom, fits); }
    var sites := seq(|fs|, s requires 0 <= s < |fs| && |ts| == |fs| => SiteOf(fs[s], ts[s]));
    var d, V, coord, out, rep;
    d, V, coord, out, rep, broken := C.Discover(sites, n, n + |datom|);
    var tensors;
    tensors, unmapped := GroupByTensor(fs, ts, pointers);
    DiscoveredLength(sites, n, n + |datom|, d, V, coord);
    AllPrepared(fs, ts, n, datom, sites, d, V, coord);
    GroupedFitted(fs, ts, pointers, tensors);
    SamplesKept(pending, n, id, fs);
    SamplesMapped(fs, ts, pointers, |fs|) by { assert fs[..|fs|] == fs; }
    assert fs[..|fs|] == fs;
    verified, mismatches, skipped, leftovers := CheckAll(fs, ts, n, datom, V, coord, tensors, elem);
  }

  lemma FittedIs(fams: seq<Family>, n: nat, datom: seq<nat>, fits: seq<Option<Fitted>>)
    requires |fits| == |fams| && forall s :: 0 <= s < |fams| ==> FitOk(fams[s], n, datom, fits[s])
    ensures AllFitted(fams, n, datom, fits)
  {
  }

  lemma DiscoveredLength(sites: seq<C.Site>, n: nat, ax: nat, d: nat, V: seq<seq<int>>, coord: seq<seq<Poly>>)
    requires C.Discovered(sites, n, ax, d, V, coord)
    ensures |coord| == |sites|
  {
  }

  lemma GroupedFitted(fams: seq<Family>, fits: seq<Option<Fitted>>, pointers: set<nat>, tensors: seq<Tensor>)
    requires |fits| == |fams| && GroupedByTensor(fams, fits, pointers, |fams|, tensors)
    ensures forall t, i :: 0 <= t < |tensors| && 0 <= i < |tensors[t].sites| ==>
      tensors[t].sites[i] < |fams| && fits[tensors[t].sites[i]].Some?
  {
    hide Names, Unnamed;
  }
}
