// The if-conversion pass on one branch: find the region, order it, move it into the entry block.
module IfConvertPass {
  import opened SsaValues
  import opened PureRegion
  import opened IfConvert

  predicate PureBlock(b: BasicBlock) {
    !b.term.Other? && forall i :: 0 <= i < |b.insts| ==> b.insts[i].speculatable
  }

  ghost function InstCount(g: Graph, blocks: seq<nat>): nat {
    if blocks == [] then 0
    else InstCount(g, blocks[..|blocks| - 1]) + (var b := blocks[|blocks| - 1];
      if b < |g.blocks| then |g.blocks[b].insts| else 0)
  }

  ghost predicate Distinct(s: seq<nat>) {
    forall i, j :: 0 <= i < j < |s| ==> s[i] != s[j]
  }

  // ---- the region of a branch: what it reaches before the exit

  // nothing but the exit is left in one step
  ghost predicate IsClosed(g: Graph, entry: nat, exit: nat, R: set<nat>) {
    && exit !in R && LeadsInto(g, entry, exit, R) && forall b :: b in R ==> LeadsInto(g, b, exit, R)
  }

  ghost predicate LeadsInto(g: Graph, b: nat, exit: nat, R: set<nat>) {
    b < |g.blocks| && forall s :: s in Succs(g.blocks[b].term) ==> s in R || s == exit
  }

  // the least closed set: exactly the blocks reached
  ghost predicate IsReached(g: Graph, entry: nat, exit: nat, R: set<nat>) {
    IsClosed(g, entry, exit, R) && forall Q :: IsClosed(g, entry, exit, Q) ==> R <= Q
  }

  ghost function InstTotal(g: Graph, R: set<nat>, n: nat): nat {
    if n == 0 then 0 else InstTotal(g, R, n - 1) + if n - 1 in R && n - 1 < |g.blocks| then |g.blocks[n - 1].insts|
      else 0
  }

  ghost predicate MayMove(g: Graph, entry: nat, allowed: (nat, nat) -> bool, b: nat) {
    b != entry && b < |g.blocks| && PureBlock(g.blocks[b]) && allowed(entry, b)
  }

  // what the pass asks of the reached blocks before it orders them
  ghost predicate Accepted(g: Graph, entry: nat, allowed: (nat, nat) -> bool, R: set<nat>) {
    && R != {} && |R| <= MAX_BLOCKS && InstTotal(g, R, |g.blocks|) <= MAX_INSTS
    && (forall b :: b in R ==> MayMove(g, entry, allowed, b))
    && (forall b :: b in R ==> EnteredFrom(g, entry, R, b))
  }

  ghost predicate EnteredFrom(g: Graph, entry: nat, R: set<nat>, b: nat) {
    b < |g.preds| && forall p :: p in g.preds[b] ==> p == entry || p in R
  }

  ghost predicate Acyclic(g: Graph, R: set<nat>) {
    forall c: set<nat> :: c != {} && c <= R ==> !Cyclic(g, c)
  }

  // the branches the pass collapses
  ghost predicate Eligible(g: Graph, entry: nat, exit: nat, allowed: (nat, nat) -> bool) {
    exists R :: IsReached(g, entry, exit, R) && Accepted(g, entry, allowed, R) && Acyclic(g, R)
  }

  lemma ReachedUnique(g: Graph, entry: nat, exit: nat, R: set<nat>, Q: set<nat>)
    requires IsReached(g, entry, exit, R) && IsReached(g, entry, exit, Q)
    ensures R == Q
  {
  }

  lemma {:induction false} InstTotalAdds(g: Graph, R: set<nat>, b: nat, n: nat)
    requires b !in R
    ensures InstTotal(g, R + {b}, n) == InstTotal(g, R, n) + if b < n && b < |g.blocks| then |g.blocks[b].insts| else 0
  {
    if n > 0 { InstTotalAdds(g, R, b, n - 1); }
  }

  lemma {:induction false} InstTotalNone(g: Graph, n: nat)
    ensures InstTotal(g, {}, n) == 0
  {
    if n > 0 { InstTotalNone(g, n - 1); }
  }

  // the count along the list of distinct blocks is the total over the set
  lemma {:induction false} CountIsTotal(g: Graph, region: seq<nat>)
    requires Distinct(region) && forall b :: b in region ==> b < |g.blocks|
    ensures InstCount(g, region) == InstTotal(g, SetOf(region), |g.blocks|)
  {
    if region == [] {
      InstTotalNone(g, |g.blocks|);
      assert SetOf(region) == {};
    } else {
      var n := |region| - 1;
      assert region == region[..n] + [region[n]];
      assert SetOf(region) == SetOf(region[..n]) + {region[n]};
      assert region[n] in region && region[n] !in region[..n];
      assert forall b :: b in region[..n] ==> b in region;
      CountIsTotal(g, region[..n]);
      InstTotalAdds(g, SetOf(region[..n]), region[n], |g.blocks|);
    }
  }

  // what a region found by the work list satisfies
  ghost predicate Found(g: Graph, entry: nat, exit: nat, allowed: (nat, nat) -> bool, region: seq<nat>) {
    && IsRegion(g, entry, exit, SetOf(region)) && Distinct(region)
    && 0 < |region| <= MAX_BLOCKS && InstCount(g, region) <= MAX_INSTS
    && (forall b :: b in region ==> b < |g.blocks| && PureBlock(g.blocks[b]) && allowed(entry, b))
    && (forall b :: b in region ==> b < |g.preds| && g.preds[b] != [])
    && (forall b :: b in region ==> FromInside(g, entry, region, b))
  }

  // the region: what the entry reaches before the exit; any block that fails a guard gives it up
  method FindRegion(g: Graph, entry: nat, exit: nat, allowed: (nat, nat) -> bool) returns (ok: bool, region: seq<nat>)
    requires WellFormed(g) && entry < |g.blocks| && exit < |g.blocks| && g.blocks[entry].term.CondBr? && entry != exit
    ensures ok ==>
      && Found(g, entry, exit, allowed, region) && IsReached(g, entry, exit, SetOf(region))
      && Accepted(g, entry, allowed, SetOf(region))
    ensures !ok ==> NoneAccepted(g, entry, exit, allowed)
  {
    region := [];
    var inside: set<nat> := {};
    var work: seq<nat> := [];
    var insts := 0;
    assert Working(g, entry, exit, inside, region, work) && InstCount(g, region) == 0 && Least(g, entry, exit, inside);
    hide WellFormed, Working, InstCount, PureBlock, Succs, Admitted, IsRegion, Distinct, Least, IsReached, Accepted,
        MayMove;
    Edges(g, entry);
    inside, work := Enqueue(g, entry, exit, inside, region, work, entry);
    while work != []
      invariant Working(g, entry, exit, inside, region, work) && Least(g, entry, exit, inside)
      invariant insts == InstCount(g, region) && |region| <= MAX_BLOCKS
      invariant Inside(inside, exit, Succs(g.blocks[entry].term))
      invariant forall b :: b in region ==> Admitted(g, entry, exit, allowed, inside, b)
      decreases MAX_BLOCKS - |region|
    {
      var b := work[|work| - 1];
      Unqueued(g, entry, exit, inside, region, work);
      InstCountSnoc(g, region, b);
      ghost var before, was := region, inside;
      work := work[..|work| - 1];
      region := region + [b];
      if |region| > MAX_BLOCKS || b == entry || !allowed(entry, b) || !PureBlock(g.blocks[b]) {
        Refused(g, entry, exit, allowed, inside, region, work, b);
        return false, [];
      }
      insts := insts + |g.blocks[b].insts|;
      Edges(g, b);
      if entry in Succs(g.blocks[b].term) {
        BackEdge(g, entry, exit, allowed, inside, b);
        return false, [];
      }
      inside, work := Enqueue(g, entry, exit, inside, region, work, b);
      StillAdmitted(g, entry, exit, allowed, was, inside, before);
      AdmitBlock(g, entry, exit, allowed, inside, b);
    }
    RegionComplete(g, entry, exit, allowed, inside, region);
    RegionReached(g, entry, exit, allowed, inside, region);
    if region == [] || insts > MAX_INSTS {
      TooLittle(g, entry, exit, allowed, region);
      return false, [];
    }
    var single := SingleEntry(g, entry, region);
    Judged(g, entry, exit, allowed, region, single);
    return single, region;
  }

  // inside every closed set
  ghost predicate Least(g: Graph, entry: nat, exit: nat, inside: set<nat>) {
    forall Q :: IsClosed(g, entry, exit, Q) ==> inside <= Q
  }

  ghost predicate NoneAccepted(g: Graph, entry: nat, exit: nat, allowed: (nat, nat) -> bool) {
    forall R :: IsReached(g, entry, exit, R) ==> !Accepted(g, entry, allowed, R)
  }

  lemma LeastNext(g: Graph, entry: nat, exit: nat, inside: set<nat>, b: nat, s: nat)
    requires Least(g, entry, exit, inside) && (b == entry || b in inside) && b < |g.blocks|
      && s in Succs(g.blocks[b].term) && s != exit
    ensures Least(g, entry, exit, inside + {s})
  {
    hide Succs;
    forall Q | IsClosed(g, entry, exit, Q) ensures inside + {s} <= Q {
      assert inside <= Q && LeadsInto(g, b, exit, Q);
    }
  }

  lemma Refused(g: Graph, entry: nat, exit: nat, allowed: (nat, nat) -> bool, inside: set<nat>, region: seq<nat>,
      work: seq<nat>, b: nat)
    requires Least(g, entry, exit, inside) && Working(g, entry, exit, inside, region, work) && b in inside
    requires |region| > MAX_BLOCKS || !MayMove(g, entry, allowed, b)
    ensures NoneAccepted(g, entry, exit, allowed)
  {
    hide IsClosed, MayMove;
    forall R | IsReached(g, entry, exit, R) ensures !Accepted(g, entry, allowed, R) {
      assert inside <= R;
      assert Distinct(region) by { DistinctPrefix(region, work); }
      DistinctSize(region);
      assert SetOf(region) <= inside;
      SubsetSize(SetOf(region), R);
    }
  }

  lemma DistinctPrefix(a: seq<nat>, b: seq<nat>)
    requires Distinct(a + b)
    ensures Distinct(a)
  {
    assert forall i :: 0 <= i < |a| ==> a[i] == (a + b)[i];
  }

  // a region that leads back to the entry would contain it
  lemma BackEdge(g: Graph, entry: nat, exit: nat, allowed: (nat, nat) -> bool, inside: set<nat>, b: nat)
    requires Least(g, entry, exit, inside) && b in inside && b < |g.blocks| && entry in Succs(g.blocks[b].term)
      && entry != exit
    ensures NoneAccepted(g, entry, exit, allowed)
  {
    hide Succs;
    forall R | IsReached(g, entry, exit, R) ensures !Accepted(g, entry, allowed, R) {
      assert b in R && LeadsInto(g, b, exit, R);
      assert !MayMove(g, entry, allowed, entry);
    }
  }

  lemma RegionReached(g: Graph, entry: nat, exit: nat, allowed: (nat, nat) -> bool, inside: set<nat>, region: seq<nat>)
    requires Working(g, entry, exit, inside, region, []) && Least(g, entry, exit, inside) && entry < |g.blocks|
    requires Inside(inside, exit, Succs(g.blocks[entry].term))
    requires forall b :: b in region ==> Admitted(g, entry, exit, allowed, inside, b)
    ensures IsReached(g, entry, exit, SetOf(region)) && InstCount(g, region) == InstTotal(g, SetOf(region), |g.blocks|)
    ensures forall b :: b in SetOf(region) ==> MayMove(g, entry, allowed, b)
  {
    hide Succs, PureBlock, InstCount, InstTotal;
    assert region + [] == region;
    assert SetOf(region) == inside;
    CountIsTotal(g, region);
    assert LeadsInto(g, entry, exit, inside);
  }

  lemma TooLittle(g: Graph, entry: nat, exit: nat, allowed: (nat, nat) -> bool, region: seq<nat>)
    requires IsReached(g, entry, exit, SetOf(region)) && InstCount(g, region) == InstTotal(g, SetOf(region), |g.blocks|)
    requires region == [] || InstCount(g, region) > MAX_INSTS
    ensures NoneAccepted(g, entry, exit, allowed)
  {
    hide IsReached, InstCount, InstTotal, MayMove;
    forall R | IsReached(g, entry, exit, R) ensures !Accepted(g, entry, allowed, R) {
      ReachedUnique(g, entry, exit, R, SetOf(region));
    }
  }

  // the last test decides
  lemma Judged(g: Graph, entry: nat, exit: nat, allowed: (nat, nat) -> bool, region: seq<nat>, single: bool)
    requires IsReached(g, entry, exit, SetOf(region)) && InstCount(g, region) == InstTotal(g, SetOf(region), |g.blocks|)
    requires forall b :: b in SetOf(region) ==> MayMove(g, entry, allowed, b)
    requires region != [] && InstCount(g, region) <= MAX_INSTS && |region| <= MAX_BLOCKS && Distinct(region)
    requires single <==> forall b :: b in region ==> FromInside(g, entry, region, b)
    ensures if single then Accepted(g, entry, allowed, SetOf(region)) else NoneAccepted(g, entry, exit, allowed)
  {
    hide IsReached, InstCount, InstTotal, MayMove;
    DistinctSize(region);
    assert region[0] in SetOf(region);
    assert forall b :: b in region ==> (FromInside(g, entry, region, b) <==> EnteredFrom(g, entry, SetOf(region), b));
    if !single {
      forall R | IsReached(g, entry, exit, R) ensures !Accepted(g, entry, allowed, R) {
        ReachedUnique(g, entry, exit, R, SetOf(region));
        var b :| b in region && !FromInside(g, entry, region, b);
        assert b in SetOf(region);
      }
    }
  }

  ghost predicate Inside(inside: set<nat>, exit: nat, succs: seq<nat>) {
    forall s :: s in succs ==> s in inside || s == exit
  }

  // the successors not yet seen go to the end of the work list
  method Enqueue(g: Graph, entry: nat, exit: nat, inside: set<nat>, region: seq<nat>, work: seq<nat>, b: nat)
    returns (inside': set<nat>, work': seq<nat>)
    requires Working(g, entry, exit, inside, region, work) && |g.preds| == |g.blocks| && b < |g.blocks|
    requires Least(g, entry, exit, inside) && (b == entry || b in inside)
    requires forall s :: s in Succs(g.blocks[b].term) ==> s < |g.blocks| && g.preds[s] != []
    ensures Working(g, entry, exit, inside', region, work') && inside <= inside'
      && Inside(inside', exit, Succs(g.blocks[b].term))
    ensures Least(g, entry, exit, inside')
  {
    hide Working, Least, Succs;
    inside', work' := inside, work;
    var succs := Succs(g.blocks[b].term);
    for i := 0 to |succs|
      invariant Working(g, entry, exit, inside', region, work') && inside <= inside' && Least(g, entry, exit, inside')
      invariant forall k :: 0 <= k < i ==> succs[k] in inside' || succs[k] == exit
    {
      assert succs[i] in succs;
      if succs[i] != exit && succs[i] !in inside' {
        Queued(g, entry, exit, inside', region, work', succs[i]);
        LeastNext(g, entry, exit, inside', b, succs[i]);
        inside', work' := inside' + {succs[i]}, work' + [succs[i]];
      }
    }
  }

  // every predecessor of a region block is the entry or in the region
  method SingleEntry(g: Graph, entry: nat, region: seq<nat>) returns (single: bool)
    requires forall b :: b in region ==> b < |g.preds|
    ensures single <==> forall b :: b in region ==> FromInside(g, entry, region, b)
  {
    for i := 0 to |region|
      invariant forall k :: 0 <= k < i ==> FromInside(g, entry, region, region[k])
    {
      var b := region[i];
      assert b in region;
      for j := 0 to |g.preds[b]|
        invariant forall l :: 0 <= l < j ==> g.preds[b][l] == entry || g.preds[b][l] in region
      {
        if g.preds[b][j] != entry && g.preds[b][j] !in region { return false; }
      }
    }
    return true;
  }

  ghost predicate FromInside(g: Graph, entry: nat, region: seq<nat>, b: nat) {
    b < |g.preds| && forall p :: p in g.preds[b] ==> p == entry || p in region
  }

  lemma StillAdmitted(g: Graph, entry: nat, exit: nat, allowed: (nat, nat) -> bool, was: set<nat>, inside: set<nat>,
      region: seq<nat>)
    requires was <= inside && forall b :: b in region ==> Admitted(g, entry, exit, allowed, was, b)
    ensures forall b :: b in region ==> Admitted(g, entry, exit, allowed, inside, b)
  {
  }

  lemma AdmitBlock(g: Graph, entry: nat, exit: nat, allowed: (nat, nat) -> bool, inside: set<nat>, b: nat)
    requires b < |g.blocks| && b != entry && allowed(entry, b) && PureBlock(g.blocks[b])
    requires Inside(inside, exit, Succs(g.blocks[b].term))
    ensures Admitted(g, entry, exit, allowed, inside, b)
  {
  }

  ghost predicate Working(g: Graph, entry: nat, exit: nat, inside: set<nat>, region: seq<nat>, work: seq<nat>) {
    && |g.preds| == |g.blocks| && Distinct(region + work)
    && (forall b :: b in inside <==> b in region + work)
    && (forall b :: b in inside ==> b != exit && b < |g.blocks| && g.preds[b] != [])
  }

  ghost predicate Admitted(g: Graph, entry: nat, exit: nat, allowed: (nat, nat) -> bool, inside: set<nat>, b: nat) {
    && b < |g.blocks| && b != entry && allowed(entry, b) && PureBlock(g.blocks[b])
    && Inside(inside, exit, Succs(g.blocks[b].term))
  }

  lemma RegionComplete(g: Graph, entry: nat, exit: nat, allowed: (nat, nat) -> bool, inside: set<nat>, region: seq<nat>)
    requires Working(g, entry, exit, inside, region, []) && entry < |g.blocks| && exit < |g.blocks|
      && !g.blocks[entry].term.Other?
    requires Inside(inside, exit, Succs(g.blocks[entry].term))
    requires forall b :: b in region ==> Admitted(g, entry, exit, allowed, inside, b)
    ensures IsRegion(g, entry, exit, SetOf(region)) && Distinct(region) && (forall b :: b in inside <==> b in region)
    ensures forall b :: b in region ==>
      b < |g.blocks| == |g.preds| && PureBlock(g.blocks[b]) && allowed(entry, b) && g.preds[b] != []
  {
    assert region + [] == region;
  }

  lemma Edges(g: Graph, b: nat)
    requires WellFormed(g) && b < |g.blocks|
    ensures |g.preds| == |g.blocks|
    ensures forall s :: s in Succs(g.blocks[b].term) ==> s < |g.blocks| && g.preds[s] != []
  {
    forall s | s in Succs(g.blocks[b].term) ensures s < |g.blocks| && g.preds[s] != [] {
      assert b in g.preds[s];
    }
  }

  lemma Queued(g: Graph, entry: nat, exit: nat, inside: set<nat>, region: seq<nat>, work: seq<nat>, s: nat)
    requires Working(g, entry, exit, inside, region, work) && s !in inside && s != exit && s < |g.blocks|
      && g.preds[s] != []
    ensures Working(g, entry, exit, inside + {s}, region, work + [s])
  {
    assert region + (work + [s]) == (region + work) + [s];
    assert s !in region + work;
  }

  lemma Unqueued(g: Graph, entry: nat, exit: nat, inside: set<nat>, region: seq<nat>, work: seq<nat>)
    requires Working(g, entry, exit, inside, region, work) && work != []
    ensures Working(g, entry, exit, inside, region + [work[|work| - 1]], work[..|work| - 1])
    ensures work[|work| - 1] in inside && work[|work| - 1] < |g.blocks|
  {
    var n := |work| - 1;
    var all, all' := region + work, region + [work[n]] + work[..n];
    assert work[n] == all[|region| + n];
    assert forall i :: 0 <= i < |all'| ==>
      all'[i] == all[if i < |region| then i else if i == |region| then |region| + n else i - 1];
    forall b | b in inside ensures b in all' {
      var i :| 0 <= i < |all| && all[i] == b;
      assert all'[if i < |region| then i else if i == |region| + n then |region| else i + 1] == b;
    }
  }

  lemma InstCountSnoc(g: Graph, region: seq<nat>, b: nat)
    requires b < |g.blocks|
    ensures InstCount(g, region + [b]) == InstCount(g, region) + |g.blocks[b].insts|
  {
    assert (region + [b])[..|region|] == region;
  }

  // topological order: a block goes once all its predecessors have gone; when no block can go, some blocks form a cycle
  method Order(g: Graph, entry: nat, region: seq<nat>) returns (ok: bool, topo: seq<nat>)
    requires Distinct(region) && entry !in region
    requires forall b :: b in region ==> b < |g.preds| && g.preds[b] != []
    requires forall b :: b in region ==> FromInside(g, entry, region, b)
    ensures ok ==> Ordered(g, entry, topo) && SetOf(topo) == SetOf(region) && |topo| == |region|
    ensures ok <==> Acyclic(g, SetOf(region))
  {
    hide Going, Ordered, SetOf, Distinct, Cyclic, Acyclic;
    topo := [];
    var done := {entry};
    NothingPlaced(g, entry, region);
    while |topo| < |region|
      invariant Going(g, entry, region, topo, done)
      decreases |region| - |topo|
    {
      var progress := false;
      ghost var before := topo;
      for i := 0 to |region|
        invariant Going(g, entry, region, topo, done)
        invariant if progress then |topo| > |before| else topo == before
        invariant !progress ==> forall k :: 0 <= k < i ==> Waits(g, done, region[k])
      {
        var b := region[i];
        assert b in region;
        if b !in done {
          var ready := true;
          for j := 0 to |g.preds[b]|
            invariant ready <==> forall l :: 0 <= l < j ==> g.preds[b][l] in done
          {
            if g.preds[b][j] !in done { ready := false; }
          }
          if ready {
            Placed(g, entry, region, topo, done, b);
            topo := topo + [b];
            done := done + {b};
            progress := true;
          }
        }
      }
      if !progress {
        Stuck(g, entry, region, topo, done);
        return false, topo;
      }
    }
    AllPlaced(g, entry, region, topo, done);
    EntryApart(entry, region, topo);
    OrderedAcyclic(g, entry, topo);
    ok := true;
  }

  ghost predicate Cyclic(g: Graph, c: set<nat>) {
    forall b :: b in c ==> PredIn(g, c, b)
  }

  ghost predicate PredIn(g: Graph, c: set<nat>, b: nat) {
    b < |g.preds| && exists p :: p in g.preds[b] && p in c
  }

  ghost predicate Going(g: Graph, entry: nat, region: seq<nat>, topo: seq<nat>, done: set<nat>) {
    && Ordered(g, entry, topo) && done == {entry} + SetOf(topo) && SetOf(topo) <= SetOf(region)
    && |topo| <= |region|
  }

  ghost predicate Waits(g: Graph, done: set<nat>, b: nat) {
    b in done || (b < |g.preds| && exists l :: 0 <= l < |g.preds[b]| && g.preds[b][l] !in done)
  }

  lemma NothingPlaced(g: Graph, entry: nat, region: seq<nat>)
    ensures Going(g, entry, region, [], {entry})
  {
  }

  lemma {:induction false} DistinctSize(s: seq<nat>)
    requires Distinct(s)
    ensures |SetOf(s)| == |s|
  {
    if s != [] {
      var n := |s| - 1;
      DistinctSize(s[..n]);
      assert s == s[..n] + [s[n]];
      assert SetOf(s) == SetOf(s[..n]) + {s[n]};
      assert s[n] !in s[..n];
    }
  }

  lemma {:induction false} SubsetSize(a: set<nat>, b: set<nat>)
    requires a <= b
    ensures |a| <= |b| && (|a| == |b| ==> a == b)
  {
    var c := b - a;
    assert b == a + c && a !! c;
    assert |b| == |a| + |c|;
  }

  lemma OrderedNext(g: Graph, entry: nat, topo: seq<nat>, b: nat)
    requires Ordered(g, entry, topo) && b !in topo && b < |g.preds| && g.preds[b] != []
    requires forall l :: 0 <= l < |g.preds[b]| ==> g.preds[b][l] == entry || g.preds[b][l] in topo
    ensures Ordered(g, entry, topo + [b]) && Distinct(topo + [b])
  {
    var topo' := topo + [b];
    forall i, p | 0 <= i < |topo'| && p in g.preds[topo'[i]] ensures p == entry || p in topo'[..i] {
      assert topo'[..i] == topo[..i];
      if i < |topo| {
        assert p in g.preds[topo[i]];
      } else {
        assert topo[..i] == topo;
      }
    }
  }

  lemma Placed(g: Graph, entry: nat, region: seq<nat>, topo: seq<nat>, done: set<nat>, b: nat)
    requires Going(g, entry, region, topo, done) && Distinct(region) && b in region && b !in done && b < |g.preds|
      && g.preds[b] != []
    requires forall l :: 0 <= l < |g.preds[b]| ==> g.preds[b][l] in done
    ensures Going(g, entry, region, topo + [b], done + {b})
  {
    var topo' := topo + [b];
    OrderedNext(g, entry, topo, b);
    assert SetOf(topo') == SetOf(topo) + {b};
    hide Ordered;
    DistinctSize(topo');
    DistinctSize(region);
    SubsetSize(SetOf(topo'), SetOf(region));
  }

  lemma Missing(region: seq<nat>, topo: seq<nat>) returns (b: nat)
    requires Distinct(region) && Distinct(topo) && |topo| < |region|
    ensures b in region && b !in topo
  {
    DistinctSize(topo);
    DistinctSize(region);
    if SetOf(region) <= SetOf(topo) { SubsetSize(SetOf(region), SetOf(topo)); }
    b :| b in SetOf(region) && b !in SetOf(topo);
  }

  lemma Waiting(g: Graph, entry: nat, region: seq<nat>, done: set<nat>, b: nat)
    requires b in region && b !in done && entry in done && FromInside(g, entry, region, b)
    requires forall k :: 0 <= k < |region| ==> Waits(g, done, region[k])
    ensures PredIn(g, SetOf(region) - done, b)
  {
    var k :| 0 <= k < |region| && region[k] == b;
    assert Waits(g, done, region[k]);
    var l :| 0 <= l < |g.preds[b]| && g.preds[b][l] !in done;
    assert g.preds[b][l] in g.preds[b];
  }

  lemma Stuck(g: Graph, entry: nat, region: seq<nat>, topo: seq<nat>, done: set<nat>)
    requires Going(g, entry, region, topo, done) && Distinct(region) && |topo| < |region| && entry !in region
    requires forall k :: 0 <= k < |region| ==> Waits(g, done, region[k])
    requires forall b :: b in region ==> FromInside(g, entry, region, b)
    ensures !Acyclic(g, SetOf(region))
  {
    var c := SetOf(region) - done;
    var first := Missing(region, topo);
    assert first in c;
    hide Ordered, Distinct, Waits, FromInside, PredIn;
    forall b | b in c ensures PredIn(g, c, b) {
      Waiting(g, entry, region, done, b);
    }
    assert Cyclic(g, c);
  }

  // a cycle would need a first block in the order, whose predecessor on the cycle comes before it
  lemma OrderedAcyclic(g: Graph, entry: nat, topo: seq<nat>)
    requires Ordered(g, entry, topo) && entry !in topo
    ensures Acyclic(g, SetOf(topo))
  {
    hide Ordered;
    forall c: set<nat> | c != {} && c <= SetOf(topo) ensures !Cyclic(g, c) {
      var b :| b in c;
      var i :| 0 <= i < |topo| && topo[i] == b;
      NotOnCycle(g, entry, topo, c, |topo|);
    }
  }

  lemma {:induction false} NotOnCycle(g: Graph, entry: nat, topo: seq<nat>, c: set<nat>, n: nat)
    requires Ordered(g, entry, topo) && entry !in topo && c <= SetOf(topo) && n <= |topo|
    ensures Cyclic(g, c) ==> forall i :: 0 <= i < n ==> topo[i] !in c
  {
    hide Ordered, PredIn;
    if n > 0 {
      NotOnCycle(g, entry, topo, c, n - 1);
      FirstHasNoPred(g, entry, topo, c, n - 1);
    }
  }

  lemma FirstHasNoPred(g: Graph, entry: nat, topo: seq<nat>, c: set<nat>, i: nat)
    requires Ordered(g, entry, topo) && entry !in topo && c <= SetOf(topo) && i < |topo|
    ensures (forall k :: 0 <= k < i ==> topo[k] !in c) ==> !PredIn(g, c, topo[i])
  {
    assert entry !in SetOf(topo);
    assert forall p :: p in g.preds[topo[i]] ==> p == entry || p in topo[..i];
  }

  lemma EntryApart(entry: nat, region: seq<nat>, topo: seq<nat>)
    requires SetOf(topo) == SetOf(region) && entry !in region
    ensures entry !in topo
  {
    assert entry !in SetOf(region);
    assert entry !in SetOf(topo);
  }

  lemma AllPlaced(g: Graph, entry: nat, region: seq<nat>, topo: seq<nat>, done: set<nat>)
    requires Going(g, entry, region, topo, done) && Distinct(region) && |topo| >= |region|
    ensures Ordered(g, entry, topo) && SetOf(topo) == SetOf(region) && |topo| == |region|
  {
    DistinctSize(topo);
    DistinctSize(region);
    SubsetSize(SetOf(topo), SetOf(region));
  }

  // the block's predicate: true when control comes from one of its predecessors
  method EmitPred(g: Graph, entry: nat, b: nat) returns (e: Expr)
    requires Emittable(g, b)
    ensures e == OrChain(Conds(g, entry, b, g.preds[b]))
  {
    var ps := g.preds[b];
    e := EdgeCond(g, entry, ps[0], b);
    ghost var conds := Conds(g, entry, b, ps);
    assert conds[..1] == [e];
    for i := 1 to |ps|
      invariant e == OrChain(conds[..i])
    {
      e := Select(e, TRUE, EdgeCond(g, entry, ps[i], b));
      assert conds[..i + 1][..i] == conds[..i];
    }
    assert conds[..|ps|] == conds;
  }

  // the value of a phi: its first entry, then a select per further entry
  method EmitSelectChain(g: Graph, entry: nat, b: nat, phi: Phi, froms: seq<nat>) returns (e: Expr)
    requires froms != [] && forall i :: 0 <= i < |froms| ==> froms[i] < |g.blocks|
    ensures e == PhiExpr(g, entry, b, phi, froms)
  {
    ghost var conds, vals := Conds(g, entry, b, froms), Vals(phi, froms);
    e := V(IncomingFor(phi.incoming, froms[0]));
    assert vals[..1] == [vals[0]];
    for i := 1 to |froms|
      invariant e == SelectChain(conds[..i], vals[..i])
    {
      e := Select(EdgeCond(g, entry, froms[i], b), V(IncomingFor(phi.incoming, froms[i])), e);
      assert conds[..i + 1][..i] == conds[..i] && vals[..i + 1][..i] == vals[..i];
    }
    assert conds[..|froms|] == conds && vals[..|froms|] == vals;
  }

  // a block moved into the entry: its predicate, its phis as selects, its instructions
  method EmitBlock(g: Graph, entry: nat, b: nat) returns (code: seq<Stmt>)
    requires Emittable(g, b)
    ensures code == BlockCode(g, entry, b)
  {
    hide OrChain, PhiExpr;
    var p := EmitPred(g, entry, b);
    var pred := [SetPred(b, p)];
    var phis, insts := g.blocks[b].phis, g.blocks[b].insts;
    var binds: seq<Stmt> := [];
    for i := 0 to |phis|
      invariant binds == Binds(g, entry, b, i)
    {
      assert PhiReady(g, phis[i]);
      var v := EmitSelectChain(g, entry, b, phis[i], Froms(phis[i]));
      binds := binds + [Bind(phis[i].dst, v)];
    }
    var moves: seq<Stmt> := [];
    for i := 0 to |insts|
      invariant |moves| == i && forall k :: 0 <= k < i ==> moves[k] == Do(insts[k])
    {
      moves := moves + [Do(insts[i])];
    }
    assert moves == Moves(insts);
    code := pred + binds + moves;
  }

  // the region blocks that branch to the exit, in order, then the entry if it does
  method FindExitPreds(g: Graph, entry: nat, exit: nat, topo: seq<nat>) returns (xpreds: seq<nat>)
    requires entry < |g.blocks| && forall b :: b in topo ==> b < |g.blocks|
    ensures ExitPreds(g, entry, exit, topo, xpreds)
  {
    xpreds := [];
    for i := 0 to |topo|
      invariant forall p :: p in xpreds ==> p in topo[..i] && p < |g.blocks| && exit in Succs(g.blocks[p].term)
      invariant forall p :: p in topo[..i] && p < |g.blocks| && exit in Succs(g.blocks[p].term) ==> p in xpreds
    {
      var b := topo[i];
      assert b in topo && topo[..i + 1] == topo[..i] + [b];
      if exit in Succs(g.blocks[b].term) { xpreds := xpreds + [b]; }
    }
    assert topo[..|topo|] == topo;
    if exit in Succs(g.blocks[entry].term) { xpreds := xpreds + [entry]; }
  }

  // the entries of the predecessors outside the region stay
  method Others(incoming: seq<(nat, Value)>, xpreds: seq<nat>) returns (kept: seq<(nat, Value)>)
    ensures forall p :: IncomingFor(kept, p) == if p in xpreds then Lit(Poison) else IncomingFor(incoming, p)
  {
    kept := [];
    var i := |incoming|;
    while i > 0
      invariant 0 <= i <= |incoming|
      invariant forall p :: IncomingFor(kept, p) == if p in xpreds then Lit(Poison) else IncomingFor(incoming[i..], p)
    {
      i := i - 1;
      assert incoming[i..][1..] == incoming[i + 1..];
      if incoming[i].0 !in xpreds {
        assert ([incoming[i]] + kept)[1..] == kept;
        kept := [incoming[i]] + kept;
      }
    }
    assert incoming[0..] == incoming;
  }

  // the last block of the order can only go to the exit
  lemma LastExits(g: Graph, avail: seq<set<nat>>, entry: nat, exit: nat, topo: seq<nat>)
    requires Collapsible(g, avail, entry, exit, topo) && topo != []
    ensures var b := topo[|topo| - 1]; b < |g.blocks| && exit in Succs(g.blocks[b].term)
  {
    var n := |topo| - 1;
    var b := topo[n];
    TopoInside(g, avail, entry, exit, topo, n);
    var s := Succs(g.blocks[b].term)[0];
    assert s in Succs(g.blocks[b].term) && b in SetOf(topo);
    EdgeLeads(g, avail, entry, exit, topo, b, s);
    assert entry !in SetOf(topo);
    RankAt(topo, n);
    hide Ordered, Rank, IsRegion;
    if s in topo {
      RankRises(g, entry, topo, b, s);
      RankBound(topo, s);
    }
  }

  lemma FoundCollapsible(g: Graph, avail: seq<set<nat>>, entry: nat, exit: nat, allowed: (nat, nat) -> bool,
      region: seq<nat>, topo: seq<nat>)
    requires Ssa(g, avail) && DominatorTree(g, avail, allowed)
    requires Found(g, entry, exit, allowed, region) && Ordered(g, entry, topo) && SetOf(topo) == SetOf(region)
      && |topo| == |region|
    ensures Collapsible(g, avail, entry, exit, topo)
    ensures forall i :: 0 <= i < |topo| ==> Emittable(g, topo[i])
    ensures forall b :: b in topo ==> b < |g.blocks| && PureBlock(g.blocks[b])
  {
    forall b | b in topo ensures b < |g.blocks| && PureBlock(g.blocks[b]) && Defs(g.blocks[b]) !! avail[entry] {
      assert b in SetOf(topo) && b in region;
    }
    forall i | 0 <= i < |topo| ensures Emittable(g, topo[i]) {
      RegionEmittable(g, avail, entry, exit, topo, i);
    }
  }

  // only speculatable instructions move
  ghost predicate Speculates(code: seq<Stmt>) {
    forall st :: st in code && st.Do? ==> st.inst.speculatable
  }

  lemma BlockSpeculates(g: Graph, entry: nat, b: nat)
    requires Emittable(g, b) && PureBlock(g.blocks[b])
    ensures Speculates(BlockCode(g, entry, b))
  {
    var k := |g.blocks[b].phis|;
    assert forall i :: 0 <= i < k ==> PhiReady(g, g.blocks[b].phis[i]);
    assert forall st :: st in Binds(g, entry, b, k) ==> st.Bind?;
  }

  lemma SsaWellFormed(g: Graph, avail: seq<set<nat>>)
    requires Ssa(g, avail)
    ensures WellFormed(g)
  {
  }

  lemma FoundOrderable(g: Graph, entry: nat, exit: nat, allowed: (nat, nat) -> bool, region: seq<nat>)
    requires Found(g, entry, exit, allowed, region)
    ensures Distinct(region) && entry !in region && 0 < |region| <= MAX_BLOCKS
    ensures forall b :: b in region ==> b < |g.preds| && g.preds[b] != [] && FromInside(g, entry, region, b)
  {
    assert entry !in SetOf(region);
  }

  lemma NothingEmitted(g: Graph, entry: nat, topo: seq<nat>)
    requires forall i :: 0 <= i < |topo| ==> Emittable(g, topo[i])
    ensures StraightLine(g, entry, topo, 0) == [] && Speculates([])
  {
  }

  lemma StraightLineNext(g: Graph, entry: nat, topo: seq<nat>, k: nat, code: seq<Stmt>)
    requires k < |topo| && forall i :: 0 <= i < |topo| ==> Emittable(g, topo[i])
    requires code == StraightLine(g, entry, topo, k) && Speculates(code) && Speculates(BlockCode(g, entry, topo[k]))
    ensures code + BlockCode(g, entry, topo[k]) == StraightLine(g, entry, topo, k + 1)
    ensures Speculates(code + BlockCode(g, entry, topo[k]))
  {
    hide BlockCode, Emittable;
  }

  lemma ExitPredsReady(g: Graph, avail: seq<set<nat>>, entry: nat, exit: nat, topo: seq<nat>, xpreds: seq<nat>)
    requires Collapsible(g, avail, entry, exit, topo) && topo != [] && ExitPreds(g, entry, exit, topo, xpreds)
    ensures xpreds != [] && forall i :: 0 <= i < |xpreds| ==> xpreds[i] < |g.blocks|
  {
    hide Collapsible;
    LastExits(g, avail, entry, exit, topo);
    assert topo[|topo| - 1] in topo;
    forall i | 0 <= i < |xpreds| ensures xpreds[i] < |g.blocks| {
      assert xpreds[i] in xpreds;
    }
  }

  lemma OthersKept(g: Graph, avail: seq<set<nat>>, entry: nat, exit: nat, topo: seq<nat>, xpreds: seq<nat>, i: nat,
      after: ExitPhi)
    requires Collapsible(g, avail, entry, exit, topo) && ExitPreds(g, entry, exit, topo, xpreds)
      && i < |g.blocks[exit].phis|
    requires xpreds != [] && forall j :: 0 <= j < |xpreds| ==> xpreds[j] < |g.blocks|
    requires after.chosen == PhiExpr(g, entry, exit, g.blocks[exit].phis[i], xpreds)
    requires forall p ::
      IncomingFor(after.kept, p) == (if p in xpreds then Lit(Poison)
        else IncomingFor(g.blocks[exit].phis[i].incoming, p))
    ensures KeepsOthers(g.blocks[exit].phis[i], entry, topo, after)
    ensures ExitChosen(g, entry, exit, g.blocks[exit].phis[i], xpreds, after)
  {
    forall p | HasEntry(g.blocks[exit].phis[i], p) ensures (p == entry || p in topo) <==> p in xpreds {
      assert p in g.preds[exit];
      PredInside(g, exit, p);
    }
  }

  lemma NotEligible(g: Graph, entry: nat, exit: nat, allowed: (nat, nat) -> bool, region: seq<nat>)
    requires NoneAccepted(g, entry, exit, allowed)
      || (IsReached(g, entry, exit, SetOf(region)) && !Acyclic(g, SetOf(region)))
    ensures !Eligible(g, entry, exit, allowed)
  {
    hide IsReached, Accepted, Acyclic;
    if R :| IsReached(g, entry, exit, R) && Accepted(g, entry, allowed, R) && Acyclic(g, R) {
      if IsReached(g, entry, exit, SetOf(region)) { ReachedUnique(g, entry, exit, R, SetOf(region)); }
    }
  }

  lemma FoundEligible(g: Graph, entry: nat, exit: nat, allowed: (nat, nat) -> bool, region: seq<nat>)
    requires IsReached(g, entry, exit, SetOf(region)) && Accepted(g, entry, allowed, SetOf(region))
      && Acyclic(g, SetOf(region))
    ensures Eligible(g, entry, exit, allowed)
  {
    hide IsReached, Accepted, Acyclic;
  }

  // the collapse of the region of one conditional branch. `allowed(e, b)` stands for the dominance, dead-block and
  // loop tests. On success the code replaces the branch, and the exit's phis take `chosen` from the entry block
  method Collapse(g: Graph, ghost avail: seq<set<nat>>, entry: nat, exit: nat, allowed: (nat, nat) -> bool)
    returns (ok: bool, topo: seq<nat>, code: seq<Stmt>, phis: seq<ExitPhi>)
    requires Ssa(g, avail) && DominatorTree(g, avail, allowed)
    requires entry < |g.blocks| && exit < |g.blocks| && entry != exit && g.blocks[entry].term.CondBr?
    ensures ok <==> Eligible(g, entry, exit, allowed)
    ensures ok ==> Collapsible(g, avail, entry, exit, topo) && 0 < |topo| <= MAX_BLOCKS && Speculates(code)
    ensures ok ==> |phis| == |g.blocks[exit].phis| && forall i :: 0 <= i < |phis| ==>
      phis[i].dst == g.blocks[exit].phis[i].dst && KeepsOthers(g.blocks[exit].phis[i], entry, topo, phis[i])
    ensures ok ==> forall F: Meaning, env: Env, w: Walk :: IsRun(F, g, entry, exit, env, w) ==>
      Preserves(F, g, avail, exit, topo, env, w, code, phis)
  {
    hide Ssa, DominatorTree, IsRegion, Ordered, Collapsible, Emittable, PureBlock, BlockCode, PhiExpr, IsRun, Preserves,
        StraightLine, Found, ExitPreds, KeepsOthers, Speculates, ExitChosen, Eligible, IsReached, Accepted,
        NoneAccepted, Acyclic;
    code, phis, topo := [], [], [];
    assert WellFormed(g) by { SsaWellFormed(g, avail); }
    var found, region := FindRegion(g, entry, exit, allowed);
    if !found {
      NotEligible(g, entry, exit, allowed, []);
      return false, topo, code, phis;
    }
    FoundOrderable(g, entry, exit, allowed, region);
    var ordered, order := Order(g, entry, region);
    if !ordered {
      NotEligible(g, entry, exit, allowed, region);
      return false, topo, code, phis;
    }
    FoundEligible(g, entry, exit, allowed, region);
    topo := order;
    FoundCollapsible(g, avail, entry, exit, allowed, region, topo);
    NothingEmitted(g, entry, topo);
    for k := 0 to |topo|
      invariant code == StraightLine(g, entry, topo, k) && Speculates(code)
    {
      assert topo[k] in topo;
      var block := EmitBlock(g, entry, topo[k]);
      BlockSpeculates(g, entry, topo[k]);
      StraightLineNext(g, entry, topo, k, code);
      code := code + block;
    }
    var xpreds := FindExitPreds(g, entry, exit, topo);
    ExitPredsReady(g, avail, entry, exit, topo, xpreds);
    for i := 0 to |g.blocks[exit].phis|
      invariant |phis| == i
      invariant forall k :: 0 <= k < i ==> (phis[k].dst == g.blocks[exit].phis[k].dst
        && KeepsOthers(g.blocks[exit].phis[k], entry, topo, phis[k])
        && ExitChosen(g, entry, exit, g.blocks[exit].phis[k], xpreds, phis[k]))
    {
      var phi := g.blocks[exit].phis[i];
      var chosen := EmitSelectChain(g, entry, exit, phi, xpreds);
      var kept := Others(phi.incoming, xpreds);
      OthersKept(g, avail, entry, exit, topo, xpreds, i, ExitPhi(phi.dst, kept, chosen));
      phis := phis + [ExitPhi(phi.dst, kept, chosen)];
    }
    forall F: Meaning, env: Env, w: Walk | IsRun(F, g, entry, exit, env, w)
      ensures Preserves(F, g, avail, exit, topo, env, w, code, phis)
    {
      CollapsePreserves(F, g, avail, entry, exit, topo, env, w, code, xpreds, phis);
    }
    ok := true;
  }

  // entries of predecessors outside the region are untouched, those of the region and the entry are gone
  ghost predicate KeepsOthers(phi: Phi, entry: nat, topo: seq<nat>, after: ExitPhi) {
    forall p :: HasEntry(phi, p) ==>
      IncomingFor(after.kept, p) == if p == entry || p in topo then Lit(Poison) else IncomingFor(phi.incoming, p)
  }
}
