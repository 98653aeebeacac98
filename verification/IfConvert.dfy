// The collapse of a pure region (PureRegion.dfy) keeps the meaning of every run that has no undefined behaviour.
module IfConvert {
  import opened SsaValues
  import opened PureRegion

  // ---- runs follow the topological order

  // position of a block: the entry is 0, the k-th block of the order k + 1
  ghost function Rank(topo: seq<nat>, b: nat): nat {
    if topo == [] then 0 else if topo[|topo| - 1] == b then |topo| else Rank(topo[..|topo| - 1], b)
  }

  lemma {:induction false} RankAt(topo: seq<nat>, k: nat)
    requires k < |topo| && forall i, j :: 0 <= i < j < |topo| ==> topo[i] != topo[j]
    ensures Rank(topo, topo[k]) == k + 1
  {
    if k < |topo| - 1 { RankAt(topo[..|topo| - 1], k); }
  }

  lemma {:induction false} RankOutside(topo: seq<nat>, b: nat)
    requires b !in topo
    ensures Rank(topo, b) == 0
  {
    if topo != [] { RankOutside(topo[..|topo| - 1], b); }
  }

  // an edge inside the region leads to a later block
  lemma RankRises(g: Graph, entry: nat, topo: seq<nat>, p: nat, b: nat)
    requires Ordered(g, entry, topo) && b in topo && p in g.preds[b] && entry !in topo
    ensures Rank(topo, p) < Rank(topo, b)
  {
    var k :| 0 <= k < |topo| && topo[k] == b;
    RankAt(topo, k);
    if p == entry {
      RankOutside(topo, p);
    } else {
      assert p in topo[..k];
      var j :| 0 <= j < k && topo[j] == p;
      RankAt(topo, j);
    }
  }

  // the blocks of a run after the entry lie in the region, in increasing order, each entered from the one before
  lemma {:induction false} PathInside(F: Meaning, g: Graph, avail: seq<set<nat>>, entry: nat, exit: nat, topo: seq<nat>,
      env: Env, w: Walk, i: nat)
    requires Collapsible(g, avail, entry, exit, topo) && IsPrefix(F, g, entry, exit, env, w) && i < |w.path|
    ensures if i == 0 then w.path[i] == entry else w.path[i] in topo && w.path[i - 1] in g.preds[w.path[i]]
    ensures forall j :: 0 <= j < i ==> Rank(topo, w.path[j]) < Rank(topo, w.path[i])
  {
    hide Ssa, Ordered, Enter;
    if i > 0 {
      PathInside(F, g, avail, entry, exit, topo, env, w, i - 1);
      var p, b := w.path[i - 1], w.path[i];
      assert StepsTo(F, g, exit, w, i - 1);
      StepInside(g, avail, entry, exit, topo, p, w.envs[i - 1]);
      RankRises(g, entry, topo, p, b);
    }
  }

  lemma EdgeLeads(g: Graph, avail: seq<set<nat>>, entry: nat, exit: nat, topo: seq<nat>, p: nat, s: nat)
    requires Collapsible(g, avail, entry, exit, topo) && (p == entry || p in topo) && p < |g.blocks|
      && s in Succs(g.blocks[p].term)
    ensures s < |g.blocks| == |g.preds| && p in g.preds[s] && (s == exit || s in topo)
  {
    var region := SetOf(topo);
    assert WellFormed(g) && IsRegion(g, entry, exit, region);
    hide Ssa, Ordered, Succs;
    assert p == entry || p in region;
    assert s in region || s == exit;
  }

  lemma StepInside(g: Graph, avail: seq<set<nat>>, entry: nat, exit: nat, topo: seq<nat>, p: nat, env: Env)
    requires Collapsible(g, avail, entry, exit, topo) && (p == entry || p in topo) && Branches(g.blocks[p].term, env)
    ensures var s := Taken(g.blocks[p].term, env);
      s in Succs(g.blocks[p].term) && (s == exit || s in topo) && s < |g.blocks| && p in g.preds[s]
  {
    EdgeLeads(g, avail, entry, exit, topo, p, Taken(g.blocks[p].term, env));
  }

  lemma PathDistinct(F: Meaning, g: Graph, avail: seq<set<nat>>, entry: nat, exit: nat, topo: seq<nat>, env: Env,
      w: Walk, i: nat, j: nat)
    requires Collapsible(g, avail, entry, exit, topo) && IsPrefix(F, g, entry, exit, env, w)
    requires i < |w.path| && j < |w.path| && w.path[i] == w.path[j]
    ensures i == j
  {
    PathInside(F, g, avail, entry, exit, topo, env, w, i);
    PathInside(F, g, avail, entry, exit, topo, env, w, j);
  }

  ghost predicate Continues(F: Meaning, g: Graph, entry: nat, exit: nat, env: Env, w: Walk, s: nat) {
    && s < |g.blocks| && |w.path| == |w.envs| > 0
    && var e := Enter(F, g.blocks[s], w.path[|w.path| - 1], w.envs[|w.envs| - 1]);
    IsPrefix(F, g, entry, exit, env, Walk(w.path + [s], w.envs + [e]))
  }

  // a run that has not left either branches on poison, leaves now, or can be continued; it visits no block twice
  lemma RunsLeave(F: Meaning, g: Graph, avail: seq<set<nat>>, entry: nat, exit: nat, topo: seq<nat>, env: Env, w: Walk)
    requires Collapsible(g, avail, entry, exit, topo) && IsPrefix(F, g, entry, exit, env, w)
    ensures |w.path| <= |topo| + 1
    ensures var b, e := w.path[|w.path| - 1], w.envs[|w.path| - 1];
      || !Branches(g.blocks[b].term, e)
      || IsRun(F, g, entry, exit, env, w)
      || Continues(F, g, entry, exit, env, w, Taken(g.blocks[b].term, e))
  {
    hide Ssa, Ordered, Enter, Rank;
    var last := |w.path| - 1;
    PathLong(F, g, avail, entry, exit, topo, env, w, last);
    RankBound(topo, w.path[last]);
    PathInside(F, g, avail, entry, exit, topo, env, w, last);
    var b, e := w.path[last], w.envs[last];
    if Branches(g.blocks[b].term, e) && !IsRun(F, g, entry, exit, env, w) {
      StepInside(g, avail, entry, exit, topo, b, e);
      var s := Taken(g.blocks[b].term, e);
      var w' := Walk(w.path + [s], w.envs + [Enter(F, g.blocks[s], b, e)]);
      forall i | 0 <= i < |w'.path| - 1 ensures StepsTo(F, g, exit, w', i) {
        if i < last { assert StepsTo(F, g, exit, w, i); }
      }
    }
  }

  lemma {:induction false} PathLong(F: Meaning, g: Graph, avail: seq<set<nat>>, entry: nat, exit: nat, topo: seq<nat>,
      env: Env, w: Walk, i: nat)
    requires Collapsible(g, avail, entry, exit, topo) && IsPrefix(F, g, entry, exit, env, w) && i < |w.path|
    ensures Rank(topo, w.path[i]) >= i
  {
    hide Collapsible, IsPrefix, Rank;
    if i > 0 {
      PathLong(F, g, avail, entry, exit, topo, env, w, i - 1);
      PathInside(F, g, avail, entry, exit, topo, env, w, i);
    }
  }

  lemma {:induction false} RankBound(topo: seq<nat>, b: nat)
    ensures Rank(topo, b) <= |topo|
  {
    if topo != [] { RankBound(topo[..|topo| - 1], b); }
  }

  // ---- what holds after the blocks `done` were emitted

  ghost predicate AgreeOn(vars: set<nat>, a: Env, b: Env) {
    forall x :: x in vars ==> Val(a, Var(x)) == Val(b, Var(x))
  }

  function Bit(b: bool): Word {
    Num(if b then 1 else 0)
  }

  // each emitted block's predicate tells whether the run visits it, and after a visited block the straight-line
  // code has the run's values
  ghost predicate Follows(avail: seq<set<nat>>, entry: nat, done: set<nat>, w: Walk, s: State) {
    && (forall b :: b in done && b != entry ==> b in s.preds && s.preds[b] == Bit(b in w.path))
    && |w.path| == |w.envs|
    && (forall i :: 0 <= i < |w.path| && w.path[i] in done ==>
          w.path[i] < |avail| && AgreeOn(avail[w.path[i]], s.env, w.envs[i]))
  }

  lemma PredValue(avail: seq<set<nat>>, entry: nat, done: set<nat>, w: Walk, s: State, b: nat)
    requires Follows(avail, entry, done, w, s) && b in done && |w.path| > 0 && w.path[0] == entry
    ensures Eval(s, PredExpr(entry, b)) == Bit(b in w.path)
  {
  }

  // an edge from a block the run does not visit is not taken, whatever the branch condition holds
  lemma EdgeOffPath(g: Graph, avail: seq<set<nat>>, entry: nat, done: set<nat>, w: Walk, s: State, p: nat, b: nat)
    requires Follows(avail, entry, done, w, s) && p in done && |w.path| > 0 && w.path[0] == entry
    requires p < |g.blocks| && p !in w.path
    ensures Eval(s, EdgeCond(g, entry, p, b)) == Num(0)
  {
    PredValue(avail, entry, done, w, s, p);
  }

  lemma SelectOn(s: State, c: Expr, t: Expr, f: Expr)
    requires Eval(s, c) == Num(1)
    ensures Eval(s, Select(c, t, f)) == Eval(s, t)
  {
  }

  // an edge from a visited block is taken exactly when the run takes it
  lemma EdgeOnPath(g: Graph, avail: seq<set<nat>>, entry: nat, done: set<nat>, w: Walk, s: State, i: nat, b: nat)
    requires Follows(avail, entry, done, w, s) && i < |w.path| && w.path[0] == entry && w.path[i] in done
    requires w.path[i] < |g.blocks| == |avail| && BlockSsa(g.blocks[w.path[i]], avail[w.path[i]])
    requires Branches(g.blocks[w.path[i]].term, w.envs[i]) && b in Succs(g.blocks[w.path[i]].term)
    ensures Eval(s, EdgeCond(g, entry, w.path[i], b)) == Bit(Taken(g.blocks[w.path[i]].term, w.envs[i]) == b)
  {
    var p := w.path[i];
    PredValue(avail, entry, done, w, s, p);
    match g.blocks[p].term
    case Br(_) =>
    case CondBr(c, t, f) =>
      assert Uses(c, avail[p]);
      assert Val(s.env, c) == Val(w.envs[i], c);
      assert Eval(s, PredExpr(entry, p)) == Num(1);
      assert b == t || b == f;
      var word := Val(w.envs[i], c);
      assert Eval(s, V(c)) == word;
      assert Eval(s, Not(V(c))) == Bit(word == Num(0));
      SelectOn(s, PredExpr(entry, p), V(c), FALSE);
      SelectOn(s, PredExpr(entry, p), Not(V(c)), FALSE);
  }

  // ---- the chains

  // es[0] or es[1] or ..., each `or` a select
  function OrChain(es: seq<Expr>): Expr
    requires es != []
  {
    if |es| == 1 then es[0] else Select(OrChain(es[..|es| - 1]), TRUE, es[|es| - 1])
  }

  lemma {:induction false} OrChainValue(s: State, es: seq<Expr>, bs: seq<bool>)
    requires es != [] && |bs| == |es| && forall i :: 0 <= i < |es| ==> Eval(s, es[i]) == Bit(bs[i])
    ensures Eval(s, OrChain(es)) == Bit(true in bs)
  {
    if |es| > 1 {
      OrChainValue(s, es[..|es| - 1], bs[..|bs| - 1]);
      assert bs == bs[..|bs| - 1] + [bs[|bs| - 1]];
    }
  }

  // vals[0], then for each later entry: its value if its edge is taken, else what came before
  function SelectChain(conds: seq<Expr>, vals: seq<Value>): Expr
    requires |conds| == |vals| > 0
  {
    var n := |vals| - 1;
    if n == 0 then V(vals[0]) else Select(conds[n], V(vals[n]), SelectChain(conds[..n], vals[..n]))
  }

  // the value of the edge that is taken, whatever the other entries hold
  lemma {:induction false} SelectChainValue(s: State, conds: seq<Expr>, vals: seq<Value>, bs: seq<bool>, word: Word)
    requires |conds| == |vals| == |bs| > 0 && forall i :: 0 <= i < |bs| ==> Eval(s, conds[i]) == Bit(bs[i])
    requires true in bs && forall i :: 0 <= i < |bs| && bs[i] ==> Val(s.env, vals[i]) == word
    ensures Eval(s, SelectChain(conds, vals)) == word
  {
    var n := |vals| - 1;
    if n > 0 && !bs[n] {
      assert bs == bs[..n] + [bs[n]];
      SelectChainValue(s, conds[..n], vals[..n], bs[..n], word);
    }
  }

  // ---- the code of one block

  // a region block has predecessors, and each of its phis an entry for every one of them
  ghost predicate Emittable(g: Graph, b: nat) {
    && b < |g.blocks| == |g.preds| && g.preds[b] != []
    && (forall i :: 0 <= i < |g.preds[b]| ==> g.preds[b][i] < |g.blocks|)
    && (forall i :: 0 <= i < |g.blocks[b].phis| ==> PhiReady(g, g.blocks[b].phis[i]))
  }

  ghost predicate PhiReady(g: Graph, phi: Phi) {
    && phi.incoming != []
    && (forall i :: 0 <= i < |phi.incoming| ==> phi.incoming[i].0 < |g.blocks|)
  }

  function Froms(phi: Phi): (froms: seq<nat>)
    ensures |froms| == |phi.incoming|
  {
    seq(|phi.incoming|, i requires 0 <= i < |phi.incoming| => phi.incoming[i].0)
  }

  function Conds(g: Graph, entry: nat, b: nat, froms: seq<nat>): (conds: seq<Expr>)
    requires forall i :: 0 <= i < |froms| ==> froms[i] < |g.blocks|
    ensures |conds| == |froms|
  {
    seq(|froms|, i requires 0 <= i < |froms| => EdgeCond(g, entry, froms[i], b))
  }

  function Vals(phi: Phi, froms: seq<nat>): (vals: seq<Value>)
    ensures |vals| == |froms|
  {
    seq(|froms|, i requires 0 <= i < |froms| => IncomingFor(phi.incoming, froms[i]))
  }

  function PhiExpr(g: Graph, entry: nat, b: nat, phi: Phi, froms: seq<nat>): Expr
    requires froms != [] && forall i :: 0 <= i < |froms| ==> froms[i] < |g.blocks|
  {
    SelectChain(Conds(g, entry, b, froms), Vals(phi, froms))
  }

  ghost function Binds(g: Graph, entry: nat, b: nat, k: nat): seq<Stmt>
    requires Emittable(g, b) && k <= |g.blocks[b].phis|
  {
    seq(k, i requires 0 <= i < k =>
      assert PhiReady(g, g.blocks[b].phis[i]);
      var phi := g.blocks[b].phis[i]; Bind(phi.dst, PhiExpr(g, entry, b, phi, Froms(phi))))
  }

  ghost function Moves(insts: seq<Inst>): seq<Stmt> {
    seq(|insts|, i requires 0 <= i < |insts| => Do(insts[i]))
  }

  ghost function BlockCode(g: Graph, entry: nat, b: nat): seq<Stmt>
    requires Emittable(g, b)
  {
    [SetPred(b, OrChain(Conds(g, entry, b, g.preds[b])))] + Binds(g, entry, b, |g.blocks[b].phis|)
      + Moves(g.blocks[b].insts)
  }

  lemma RegionEmittable(g: Graph, avail: seq<set<nat>>, entry: nat, exit: nat, topo: seq<nat>, k: nat)
    requires Collapsible(g, avail, entry, exit, topo) && k < |topo|
    ensures Emittable(g, topo[k])
  {
    TopoInside(g, avail, entry, exit, topo, k);
    PhisReady(g, topo[k]);
    forall i | 0 <= i < |g.preds[topo[k]]| ensures g.preds[topo[k]][i] < |g.blocks| {
      PredInside(g, topo[k], g.preds[topo[k]][i]);
    }
  }

  lemma PredInside(g: Graph, b: nat, p: nat)
    requires WellFormed(g) && b < |g.blocks| && p in g.preds[b]
    ensures p < |g.blocks| && b in Succs(g.blocks[p].term)
  {
  }

  lemma PhisReady(g: Graph, b: nat)
    requires WellFormed(g) && b < |g.blocks| && g.preds[b] != []
    ensures forall i :: 0 <= i < |g.blocks[b].phis| ==> PhiReady(g, g.blocks[b].phis[i])
  {
    forall i | 0 <= i < |g.blocks[b].phis| ensures PhiReady(g, g.blocks[b].phis[i]) {
      var phi := g.blocks[b].phis[i];
      assert g.preds[b][0] in g.preds[b] && HasEntry(phi, g.preds[b][0]);
      forall k | 0 <= k < |phi.incoming| ensures phi.incoming[k].0 < |g.blocks| {
        var p := phi.incoming[k].0;
        assert HasEntry(g.blocks[b].phis[i], p);
        assert p in g.preds[b];
        PredInside(g, b, p);
      }
    }
  }

  // ---- which edges a run takes

  ghost function Done(entry: nat, topo: seq<nat>, k: nat): set<nat>
    requires k <= |topo|
  {
    {entry} + set b | b in topo[..k]
  }

  ghost predicate Goes(g: Graph, w: Walk, p: nat, b: nat) {
    exists i :: 0 <= i < |w.path| && i < |w.envs| && w.path[i] == p && p < |g.blocks| &&
      !g.blocks[p].term.Other? && Taken(g.blocks[p].term, w.envs[i]) == b
  }

  ghost predicate Setting(F: Meaning, g: Graph, avail: seq<set<nat>>, entry: nat, exit: nat, topo: seq<nat>, env: Env,
      w: Walk)
  {
    Collapsible(g, avail, entry, exit, topo) && IsRun(F, g, entry, exit, env, w)
  }

  // every block of a run branches, and to the next block or the exit
  lemma RunBranches(F: Meaning, g: Graph, avail: seq<set<nat>>, entry: nat, exit: nat, topo: seq<nat>, env: Env,
      w: Walk, i: nat)
    requires Setting(F, g, avail, entry, exit, topo, env, w) && i < |w.path|
    ensures |w.path| == |w.envs| && w.path[0] == entry && w.path[i] < |g.blocks|
      && Branches(g.blocks[w.path[i]].term, w.envs[i])
    ensures Taken(g.blocks[w.path[i]].term, w.envs[i]) == if i + 1 < |w.path| then w.path[i + 1] else exit
    ensures i + 1 < |w.path| ==> w.path[i + 1] != exit
  {
    hide Ssa, Ordered, Collapsible, Enter;
    if i + 1 < |w.path| { assert StepsTo(F, g, exit, w, i); }
  }

  lemma EdgeValue(F: Meaning, g: Graph, avail: seq<set<nat>>, entry: nat, exit: nat, topo: seq<nat>, env: Env, w: Walk,
                  done: set<nat>, s: State, p: nat, b: nat)
    requires Setting(F, g, avail, entry, exit, topo, env, w) && Follows(avail, entry, done, w, s)
    requires p in done && p < |g.blocks| && b in Succs(g.blocks[p].term)
    ensures Eval(s, EdgeCond(g, entry, p, b)) == Bit(Goes(g, w, p, b))
  {
    RunBranches(F, g, avail, entry, exit, topo, env, w, 0);
    if p in w.path {
      var i :| 0 <= i < |w.path| && w.path[i] == p;
      RunBranches(F, g, avail, entry, exit, topo, env, w, i);
      assert Ssa(g, avail) && BlockSsa(g.blocks[p], avail[p]);
      hide Ssa, IsRegion, Ordered, IsRun, BlockSsa, Eval, EdgeCond, Follows;
      EdgeOnPath(g, avail, entry, done, w, s, i, b);
      forall j | 0 <= j < |w.path| && w.path[j] == p ensures i == j {
        RunIsPrefix(F, g, avail, entry, exit, topo, env, w);
        PathDistinct(F, g, avail, entry, exit, topo, env, w, i, j);
      }
    } else {
      EdgeOffPath(g, avail, entry, done, w, s, p, b);
    }
  }

  lemma RunIsPrefix(F: Meaning, g: Graph, avail: seq<set<nat>>, entry: nat, exit: nat, topo: seq<nat>, env: Env,
      w: Walk)
    requires Setting(F, g, avail, entry, exit, topo, env, w)
    ensures Collapsible(g, avail, entry, exit, topo) && IsPrefix(F, g, entry, exit, env, w)
  {
  }

  // a region block is visited exactly when one of its predecessors goes to it
  lemma VisitedFrom(F: Meaning, g: Graph, avail: seq<set<nat>>, entry: nat, exit: nat, topo: seq<nat>, env: Env,
      w: Walk, b: nat)
    requires Setting(F, g, avail, entry, exit, topo, env, w) && b in topo && b < |g.preds|
    ensures b in w.path <==> exists p :: p in g.preds[b] && Goes(g, w, p, b)
  {
    BlockInside(g, avail, entry, exit, topo, b);
    hide Setting, Goes;
    if b in w.path {
      var j :| 0 <= j < |w.path| && w.path[j] == b;
      var p := CameFrom(F, g, avail, entry, exit, topo, env, w, j);
    }
    if p :| p in g.preds[b] && Goes(g, w, p, b) {
      GoesTo(F, g, avail, entry, exit, topo, env, w, p, b);
    }
  }

  lemma BlockInside(g: Graph, avail: seq<set<nat>>, entry: nat, exit: nat, topo: seq<nat>, b: nat)
    requires Collapsible(g, avail, entry, exit, topo) && b in topo
    ensures b != entry && b != exit
  {
    assert b in SetOf(topo);
  }

  lemma BranchGoes(g: Graph, w: Walk, i: nat)
    requires i < |w.path| && |w.path| == |w.envs| && w.path[i] < |g.blocks|
      && Branches(g.blocks[w.path[i]].term, w.envs[i])
    ensures Goes(g, w, w.path[i], Taken(g.blocks[w.path[i]].term, w.envs[i]))
  {
    hide Taken;
  }

  lemma CameFrom(F: Meaning, g: Graph, avail: seq<set<nat>>, entry: nat, exit: nat, topo: seq<nat>, env: Env, w: Walk,
      j: nat) returns (p: nat)
    requires Setting(F, g, avail, entry, exit, topo, env, w) && j < |w.path| && w.path[j] < |g.preds|
      && w.path[j] != entry
    ensures p in g.preds[w.path[j]] && Goes(g, w, p, w.path[j])
  {
    hide *;
    RunIsPrefix(F, g, avail, entry, exit, topo, env, w);
    PathInside(F, g, avail, entry, exit, topo, env, w, j);
    RunBranches(F, g, avail, entry, exit, topo, env, w, 0);
    RunBranches(F, g, avail, entry, exit, topo, env, w, j - 1);
    p := w.path[j - 1];
    BranchGoes(g, w, j - 1);
  }

  lemma GoesTo(F: Meaning, g: Graph, avail: seq<set<nat>>, entry: nat, exit: nat, topo: seq<nat>, env: Env, w: Walk,
      p: nat, b: nat)
    requires Setting(F, g, avail, entry, exit, topo, env, w) && Goes(g, w, p, b) && b != exit
    ensures b in w.path
  {
    hide Setting;
    var i :| 0 <= i < |w.path| && i < |w.envs| && w.path[i] == p && p < |g.blocks| &&
      !g.blocks[p].term.Other? && Taken(g.blocks[p].term, w.envs[i]) == b;
    RunBranches(F, g, avail, entry, exit, topo, env, w, i);
  }

  // only the block before the j-th goes to it
  lemma ComesFrom(F: Meaning, g: Graph, avail: seq<set<nat>>, entry: nat, exit: nat, topo: seq<nat>, env: Env, w: Walk,
      j: nat, p: nat)
    requires Setting(F, g, avail, entry, exit, topo, env, w) && 0 < j <= |w.path|
    ensures Goes(g, w, p, if j < |w.path| then w.path[j] else exit) <==> p == w.path[j - 1]
  {
    RunIsPrefix(F, g, avail, entry, exit, topo, env, w);
    hide Ssa, Ordered, IsPrefix, IsRun, IsRegion, Collapsible;
    RunBranches(F, g, avail, entry, exit, topo, env, w, j - 1);
    forall i | 0 <= i < |w.path| && w.path[i] < |g.blocks| && !g.blocks[w.path[i]].term.Other? &&
        Taken(g.blocks[w.path[i]].term, w.envs[i]) == (if j < |w.path| then w.path[j] else exit)
      ensures i == j - 1
    {
      RunBranches(F, g, avail, entry, exit, topo, env, w, i);
      if i + 1 < |w.path| {
        RunBranches(F, g, avail, entry, exit, topo, env, w, i);
        if j < |w.path| {
          PathDistinct(F, g, avail, entry, exit, topo, env, w, i + 1, j);
        }
      }
    }
  }

  // ---- one block

  // no block emitted before has a definition of a later block available
  lemma {:induction false} AvailBehind(g: Graph, avail: seq<set<nat>>, entry: nat, exit: nat, topo: seq<nat>, m: nat,
      k: nat)
    requires Collapsible(g, avail, entry, exit, topo) && m < k < |topo|
    ensures topo[m] < |avail| && topo[k] < |g.blocks| && avail[topo[m]] !! Defs(g.blocks[topo[k]])
  {
    var b, c := topo[m], topo[k];
    TopoInside(g, avail, entry, exit, topo, m);
    TopoInside(g, avail, entry, exit, topo, k);
    assert Ordered(g, entry, topo);
    var p := g.preds[b][0];
    assert p in g.preds[b] && EdgeSsa(g, avail, p, b);
    DefsApart(g, avail, b, c);
    if p != entry {
      assert p in topo[..m];
      var i :| 0 <= i < m && topo[i] == p;
      AvailBehind(g, avail, entry, exit, topo, i, k);
    }
  }

  lemma DefsApart(g: Graph, avail: seq<set<nat>>, b: nat, c: nat)
    requires Ssa(g, avail) && b < |g.blocks| && c < |g.blocks| && b != c
    ensures Defs(g.blocks[b]) !! Defs(g.blocks[c])
  {
  }

  lemma TopoInside(g: Graph, avail: seq<set<nat>>, entry: nat, exit: nat, topo: seq<nat>, k: nat)
    requires Collapsible(g, avail, entry, exit, topo) && k < |topo|
    ensures var b := topo[k];
      b < |g.blocks| == |avail| == |g.preds| && b != entry && b != exit && !g.blocks[b].term.Other? && g.preds[b] != []
      && BlockSsa(g.blocks[b], avail[b])
  {
    assert topo[k] in SetOf(topo);
  }

  // environments that differ only in definitions of a block not yet emitted follow the run alike
  lemma FollowsKept(avail: seq<set<nat>>, entry: nat, done: set<nat>, w: Walk, s: State, s': State, defs: set<nat>)
    requires Follows(avail, entry, done, w, s)
    requires forall b :: b in done && b < |avail| ==> avail[b] !! defs
    requires forall x :: x !in defs ==> Val(s'.env, Var(x)) == Val(s.env, Var(x))
    requires forall b :: b in done && b != entry && b in s.preds ==> b in s'.preds && s'.preds[b] == s.preds[b]
    ensures Follows(avail, entry, done, w, s')
  {
  }

  lemma DoneBehind(g: Graph, avail: seq<set<nat>>, entry: nat, exit: nat, topo: seq<nat>, k: nat)
    requires Collapsible(g, avail, entry, exit, topo) && k < |topo| && topo[k] < |g.blocks|
    ensures forall b :: b in Done(entry, topo, k) && b < |avail| ==> avail[b] !! Defs(g.blocks[topo[k]])
  {
    forall b | b in Done(entry, topo, k) && b < |avail| ensures avail[b] !! Defs(g.blocks[topo[k]]) {
      if b == entry {
        assert topo[k] in topo;
      } else {
        var m :| 0 <= m < k && topo[m] == b;
        AvailBehind(g, avail, entry, exit, topo, m, k);
      }
    }
  }

  lemma PredsDone(g: Graph, avail: seq<set<nat>>, entry: nat, exit: nat, topo: seq<nat>, k: nat, p: nat)
    requires Collapsible(g, avail, entry, exit, topo) && k < |topo| && topo[k] < |g.preds| && p in g.preds[topo[k]]
    ensures p in Done(entry, topo, k) && p < |g.blocks| && topo[k] in Succs(g.blocks[p].term)
  {
  }

  // the predicate of the block
  lemma PredComputed(F: Meaning, g: Graph, avail: seq<set<nat>>, entry: nat, exit: nat, topo: seq<nat>, env: Env,
      w: Walk, k: nat, s: State)
    requires Setting(F, g, avail, entry, exit, topo, env, w) && k < |topo|
    requires Follows(avail, entry, Done(entry, topo, k), w, s) && Emittable(g, topo[k])
    ensures Eval(s, OrChain(Conds(g, entry, topo[k], g.preds[topo[k]]))) == Bit(topo[k] in w.path)
  {
    hide Collapsible, IsRun, Follows, Eval, EdgeCond, Goes, OrChain;
    var b := topo[k];
    var ps := g.preds[b];
    var bs := seq(|ps|, i requires 0 <= i < |ps| => Goes(g, w, ps[i], b));
    forall i | 0 <= i < |ps| ensures Eval(s, Conds(g, entry, b, ps)[i]) == Bit(bs[i]) {
      PredsDone(g, avail, entry, exit, topo, k, ps[i]);
      EdgeValue(F, g, avail, entry, exit, topo, env, w, Done(entry, topo, k), s, ps[i], b);
    }
    OrChainValue(s, Conds(g, entry, b, ps), bs);
    VisitedFrom(F, g, avail, entry, exit, topo, env, w, b);
    assert true in bs <==> exists p :: p in ps && Goes(g, w, p, b) by {
      if p :| p in ps && Goes(g, w, p, b) {
        var i :| 0 <= i < |ps| && ps[i] == p;
        assert bs[i];
      }
    }
  }

  // a phi of the j-th visited block, or of the exit: the value of the edge the run took
  lemma PhiComputed(F: Meaning, g: Graph, avail: seq<set<nat>>, entry: nat, exit: nat, topo: seq<nat>, env: Env,
      w: Walk, done: set<nat>, s: State, j: nat, b: nat, phi: Phi, froms: seq<nat>)
    requires Setting(F, g, avail, entry, exit, topo, env, w) && Follows(avail, entry, done, w, s)
    requires 0 < j <= |w.path| && b == (if j < |w.path| then w.path[j] else exit)
    requires forall i :: 0 <= i < |froms| ==>
      froms[i] in done && froms[i] < |g.blocks| && b in Succs(g.blocks[froms[i]].term)
    requires w.path[j - 1] in froms && w.path[j - 1] < |avail| && |w.envs| == |w.path|
    requires Uses(IncomingFor(phi.incoming, w.path[j - 1]), avail[w.path[j - 1]])
    ensures Eval(s, PhiExpr(g, entry, b, phi, froms)) == Val(w.envs[j - 1], IncomingFor(phi.incoming, w.path[j - 1]))
  {
    var p := w.path[j - 1];
    var word := Val(w.envs[j - 1], IncomingFor(phi.incoming, p));
    assert Val(s.env, IncomingFor(phi.incoming, p)) == word;
    hide Setting, Follows, Eval, EdgeCond, Goes, SelectChain, IncomingFor;
    var bs := seq(|froms|, i requires 0 <= i < |froms| => Goes(g, w, froms[i], b));
    forall i | 0 <= i < |froms|
      ensures Eval(s, Conds(g, entry, b, froms)[i]) == Bit(bs[i]) && (bs[i] <==> froms[i] == p)
    {
      EdgeValue(F, g, avail, entry, exit, topo, env, w, done, s, froms[i], b);
      ComesFrom(F, g, avail, entry, exit, topo, env, w, j, froms[i]);
    }
    var i :| 0 <= i < |froms| && froms[i] == p;
    assert bs[i];
    SelectChainValue(s, Conds(g, entry, b, froms), Vals(phi, froms), bs, word);
  }

  // ---- from block to block

  lemma {:induction false} MovesRun(F: Meaning, s: State, insts: seq<Inst>)
    ensures ExecAll(F, s, Moves(insts)) == s.(env := DoInsts(F, s.env, insts))
    decreases |insts|
  {
    if insts != [] {
      assert Moves(insts)[0] == Do(insts[0]) && Moves(insts)[1..] == Moves(insts[1..]);
      MovesRun(F, s.(env := DoInst(F, s.env, insts[0])), insts[1..]);
    }
  }

  lemma {:induction false} InstsChange(F: Meaning, env: Env, insts: seq<Inst>, x: nat)
    requires x !in InstDefs(insts)
    ensures Val(DoInsts(F, env, insts), Var(x)) == Val(env, Var(x))
    decreases |insts|
  {
    if insts != [] {
      DefsCons(insts);
      InstsChange(F, DoInst(F, env, insts[0]), insts[1..], x);
    }
  }

  // instructions whose operands agree leave results that agree
  lemma {:induction false} InstsAgree(F: Meaning, a: Env, b: Env, insts: seq<Inst>, vars: set<nat>)
    requires AgreeOn(vars, a, b)
    requires forall i, v :: 0 <= i < |insts| && v in insts[i].args ==> Uses(v, vars + InstDefs(insts[..i]))
    ensures AgreeOn(vars + InstDefs(insts), DoInsts(F, a, insts), DoInsts(F, b, insts))
    decreases |insts|
  {
    if insts == [] {
      assert InstDefs(insts) == {};
    } else {
      var d := insts[0];
      assert InstDefs(insts[..0]) == {};
      forall k | 0 <= k < |d.args| ensures Val(a, d.args[k]) == Val(b, d.args[k]) {
        assert d.args[k] in insts[0].args;
      }
      assert seq(|d.args|, k requires 0 <= k < |d.args| => Val(a, d.args[k]))
        == seq(|d.args|, k requires 0 <= k < |d.args| => Val(b, d.args[k]));
      assert AgreeOn(vars + {d.dst}, DoInst(F, a, d), DoInst(F, b, d));
      DefsCons(insts);
      forall i, v | 0 <= i < |insts[1..]| && v in insts[1..][i].args
        ensures Uses(v, vars + {d.dst} + InstDefs(insts[1..][..i]))
      {
        assert v in insts[i + 1].args && Uses(v, vars + InstDefs(insts[..i + 1]));
        DefsCons(insts[..i + 1]);
        assert insts[..i + 1][1..] == insts[1..][..i];
      }
      InstsAgree(F, DoInst(F, a, d), DoInst(F, b, d), insts[1..], vars + {d.dst});
      assert vars + InstDefs(insts) == vars + {d.dst} + InstDefs(insts[1..]);
    }
  }

  lemma DefsCons(insts: seq<Inst>)
    requires insts != []
    ensures InstDefs(insts) == {insts[0].dst} + InstDefs(insts[1..])
  {
    forall x ensures x in InstDefs(insts) <==> x == insts[0].dst || x in InstDefs(insts[1..]) {
      if x in InstDefs(insts) {
        var i :| 0 <= i < |insts| && insts[i].dst == x;
        if i > 0 { assert insts[1..][i - 1].dst == x; }
      }
      if x in InstDefs(insts[1..]) {
        var i :| 0 <= i < |insts[1..]| && insts[1..][i].dst == x;
        assert insts[i + 1].dst == x;
      }
    }
  }

  lemma {:induction false} BindsChange(F: Meaning, g: Graph, entry: nat, b: nat, s: State, i: nat)
    requires Emittable(g, b) && i <= |g.blocks[b].phis|
    ensures var s' := ExecAll(F, s, Binds(g, entry, b, i));
      s'.preds == s.preds && forall x :: x !in PhiDefs(g.blocks[b].phis) ==> Val(s'.env, Var(x)) == Val(s.env, Var(x))
  {
    hide PhiExpr;
    if i > 0 {
      BindsChange(F, g, entry, b, s, i - 1);
      BindsLast(F, g, entry, b, s, i);
      assert g.blocks[b].phis[i - 1].dst in PhiDefs(g.blocks[b].phis);
    }
  }

  lemma BindsLast(F: Meaning, g: Graph, entry: nat, b: nat, s: State, i: nat)
    requires Emittable(g, b) && 0 < i <= |g.blocks[b].phis|
    ensures PhiReady(g, g.blocks[b].phis[i - 1])
    ensures var phi, s' := g.blocks[b].phis[i - 1], ExecAll(F, s, Binds(g, entry, b, i - 1));
      ExecAll(F, s, Binds(g, entry, b, i))
        == s'.(env := s'.env[phi.dst := Eval(s', PhiExpr(g, entry, b, phi, Froms(phi)))])
  {
    assert PhiReady(g, g.blocks[b].phis[i - 1]);
    hide PhiExpr, Emittable, Eval;
    var st := Binds(g, entry, b, i)[i - 1];
    assert Binds(g, entry, b, i) == Binds(g, entry, b, i - 1) + [st];
    ExecAppend(F, s, Binds(g, entry, b, i - 1), [st]);
    assert [st][1..] == [];
  }

  // binding the phis of the j-th visited block one after the other is the run's simultaneous assignment
  lemma {:induction false} BindsAgree(F: Meaning, g: Graph, avail: seq<set<nat>>, entry: nat, exit: nat, topo: seq<nat>,
      env: Env, w: Walk, k: nat, s: State, j: nat, i: nat)
    requires Setting(F, g, avail, entry, exit, topo, env, w) && k < |topo| && 0 < j < |w.path| && w.path[j] == topo[k]
    requires Follows(avail, entry, Done(entry, topo, k), w, s) && Emittable(g, topo[k]) && i <= |g.blocks[topo[k]].phis|
    requires Arrives(g, avail, entry, topo, w, k, j)
    ensures AgreeOn(avail[w.path[j - 1]] + PhiDefs(g.blocks[topo[k]].phis[..i]),
      ExecAll(F, s, Binds(g, entry, topo[k], i)).env, PhiEnv(w.envs[j - 1], g.blocks[topo[k]].phis, w.path[j - 1], i))
  {
    hide Setting, Follows, Eval, PhiExpr, Defs, Emittable, EdgeSsa, PhiDefs, Binds, ExecAll, IncomingFor, Done;
    var b, p := topo[k], w.path[j - 1];
    var phis := g.blocks[b].phis;
    if i == 0 {
      NothingBound(F, g, avail, entry, topo, w, k, s, j);
    } else {
      BindsLast(F, g, entry, b, s, i);
      BindsAgree(F, g, avail, entry, exit, topo, env, w, k, s, j, i - 1);
      BoundValue(F, g, avail, entry, exit, topo, env, w, k, s, j, i - 1);
      assert phis[..i] == phis[..i - 1] + [phis[i - 1]];
      PhiDefsSnoc(phis[..i - 1], phis[i - 1]);
    }
  }

  // the value bound to the i-th phi
  lemma BoundValue(F: Meaning, g: Graph, avail: seq<set<nat>>, entry: nat, exit: nat, topo: seq<nat>, env: Env, w: Walk,
                   k: nat, s: State, j: nat, i: nat)
    requires Setting(F, g, avail, entry, exit, topo, env, w) && k < |topo| && 0 < j < |w.path| && w.path[j] == topo[k]
    requires Follows(avail, entry, Done(entry, topo, k), w, s) && Emittable(g, topo[k]) && i < |g.blocks[topo[k]].phis|
    requires Arrives(g, avail, entry, topo, w, k, j) && PhiReady(g, g.blocks[topo[k]].phis[i])
    ensures var phi := g.blocks[topo[k]].phis[i];
      Eval(ExecAll(F, s, Binds(g, entry, topo[k], i)), PhiExpr(g, entry, topo[k], phi, Froms(phi)))
        == Val(w.envs[j - 1], IncomingFor(phi.incoming, w.path[j - 1]))
  {
    hide Setting, Follows, Eval, PhiExpr, Defs, Emittable, EdgeSsa, Binds, ExecAll, Done, Uses;
    var phi := g.blocks[topo[k]].phis[i];
    BindsFollow(F, g, avail, entry, exit, topo, env, w, k, s, i);
    RunIsPrefix(F, g, avail, entry, exit, topo, env, w);
    PhiFromsDone(g, avail, entry, exit, topo, k, phi, w.path[j - 1]);
    PhiComputed(F, g, avail, entry, exit, topo, env, w, Done(entry, topo, k),
      ExecAll(F, s, Binds(g, entry, topo[k], i)), j, topo[k], phi, Froms(phi));
  }

  lemma NothingBound(F: Meaning, g: Graph, avail: seq<set<nat>>, entry: nat, topo: seq<nat>, w: Walk, k: nat, s: State,
      j: nat)
    requires k < |topo| && 0 < j < |w.path| && Emittable(g, topo[k])
    requires Follows(avail, entry, Done(entry, topo, k), w, s) && Arrives(g, avail, entry, topo, w, k, j)
    ensures AgreeOn(avail[w.path[j - 1]] + PhiDefs(g.blocks[topo[k]].phis[..0]),
      ExecAll(F, s, Binds(g, entry, topo[k], 0)).env, w.envs[j - 1])
  {
    assert PhiDefs(g.blocks[topo[k]].phis[..0]) == {};
  }

  lemma BindsFollow(F: Meaning, g: Graph, avail: seq<set<nat>>, entry: nat, exit: nat, topo: seq<nat>, env: Env,
      w: Walk, k: nat, s: State, i: nat)
    requires Setting(F, g, avail, entry, exit, topo, env, w) && k < |topo|
    requires Follows(avail, entry, Done(entry, topo, k), w, s) && Emittable(g, topo[k]) && i <= |g.blocks[topo[k]].phis|
    ensures Follows(avail, entry, Done(entry, topo, k), w, ExecAll(F, s, Binds(g, entry, topo[k], i)))
  {
    hide IsRun, Follows, ExecAll, Binds;
    var b := topo[k];
    BindsChange(F, g, entry, b, s, i);
    DoneBehind(g, avail, entry, exit, topo, k);
    FollowsKept(avail, entry, Done(entry, topo, k), w, s, ExecAll(F, s, Binds(g, entry, b, i)), Defs(g.blocks[b]));
  }

  lemma PhiDefsSnoc(phis: seq<Phi>, phi: Phi)
    ensures PhiDefs(phis + [phi]) == PhiDefs(phis) + {phi.dst}
  {
    assert (phis + [phi])[|phis|] == phi;
    forall x | x in PhiDefs(phis) ensures x in PhiDefs(phis + [phi]) {
      var i :| 0 <= i < |phis| && phis[i].dst == x;
      assert (phis + [phi])[i].dst == x;
    }
  }

  // the edge the run took into the block
  ghost predicate Arrives(g: Graph, avail: seq<set<nat>>, entry: nat, topo: seq<nat>, w: Walk, k: nat, j: nat)
    requires k < |topo| && 0 < j < |w.path|
  {
    var b, p := topo[k], w.path[j - 1];
    && |w.path| == |w.envs| && p in Done(entry, topo, k) && p < |g.blocks| == |avail| && b < |g.blocks| == |g.preds|
    && p in g.preds[b] && EdgeSsa(g, avail, p, b)
  }

  lemma RunArrives(F: Meaning, g: Graph, avail: seq<set<nat>>, entry: nat, exit: nat, topo: seq<nat>, env: Env, w: Walk,
      k: nat, j: nat)
    requires Setting(F, g, avail, entry, exit, topo, env, w) && k < |topo| && j < |w.path| && w.path[j] == topo[k]
    ensures j > 0 && Arrives(g, avail, entry, topo, w, k, j)
  {
    RunIsPrefix(F, g, avail, entry, exit, topo, env, w);
    PathInside(F, g, avail, entry, exit, topo, env, w, j);
    TopoInside(g, avail, entry, exit, topo, k);
    PredsDone(g, avail, entry, exit, topo, k, w.path[j - 1]);
  }

  lemma PhiFromsDone(g: Graph, avail: seq<set<nat>>, entry: nat, exit: nat, topo: seq<nat>, k: nat, phi: Phi, p: nat)
    requires Collapsible(g, avail, entry, exit, topo) && k < |topo| && topo[k] < |g.blocks| == |g.preds| == |avail|
    requires phi in g.blocks[topo[k]].phis && p in g.preds[topo[k]] && p < |g.blocks| && EdgeSsa(g, avail, p, topo[k])
    ensures forall i :: 0 <= i < |Froms(phi)| ==>
      var q := Froms(phi)[i]; q in Done(entry, topo, k) && q < |g.blocks| && topo[k] in Succs(g.blocks[q].term)
    ensures p in Froms(phi) && Uses(IncomingFor(phi.incoming, p), avail[p])
  {
    var b := topo[k];
    var n :| 0 <= n < |g.blocks[b].phis| && g.blocks[b].phis[n] == phi;
    forall i | 0 <= i < |Froms(phi)|
      ensures var q := Froms(phi)[i]; q in Done(entry, topo, k) && q < |g.blocks| && b in Succs(g.blocks[q].term)
    {
      var q := Froms(phi)[i];
      assert HasEntry(g.blocks[b].phis[n], q);
      PredsDone(g, avail, entry, exit, topo, k, q);
    }
    assert HasEntry(g.blocks[b].phis[n], p);
    var i :| 0 <= i < |phi.incoming| && phi.incoming[i].0 == p;
    assert Froms(phi)[i] == p;
  }

  lemma BlockRuns(F: Meaning, g: Graph, entry: nat, b: nat, s: State)
    requires Emittable(g, b)
    ensures var s1 := s.(preds := s.preds[b := Eval(s, OrChain(Conds(g, entry, b, g.preds[b])))]);
      var s2 := ExecAll(F, s1, Binds(g, entry, b, |g.blocks[b].phis|));
      ExecAll(F, s, BlockCode(g, entry, b)) == s2.(env := DoInsts(F, s2.env, g.blocks[b].insts))
  {
    hide Eval, OrChain, Conds, Moves, Binds, DoInsts;
    var st := SetPred(b, OrChain(Conds(g, entry, b, g.preds[b])));
    var binds, moves := Binds(g, entry, b, |g.blocks[b].phis|), Moves(g.blocks[b].insts);
    ExecAppend(F, s, [st] + binds, moves);
    ExecAppend(F, s, [st], binds);
    assert [st][1..] == [];
    MovesRun(F, ExecAll(F, ExecAll(F, s, [st]), binds), g.blocks[b].insts);
  }

  // emitting one more block
  lemma BlockFollows(F: Meaning, g: Graph, avail: seq<set<nat>>, entry: nat, exit: nat, topo: seq<nat>, env: Env,
      w: Walk, k: nat, s: State)
    requires Setting(F, g, avail, entry, exit, topo, env, w) && k < |topo|
    requires Follows(avail, entry, Done(entry, topo, k), w, s) && Emittable(g, topo[k])
    ensures Follows(avail, entry, Done(entry, topo, k + 1), w, ExecAll(F, s, BlockCode(g, entry, topo[k])))
    ensures forall x :: x !in Defs(g.blocks[topo[k]]) ==>
      Val(ExecAll(F, s, BlockCode(g, entry, topo[k])).env, Var(x)) == Val(s.env, Var(x))
  {
    hide IsRun, Ssa, IsRegion, Ordered, DoInsts, Binds, BlockCode, Done, ExecAll, OrChain, EdgeSsa, BlockSsa;
    var b, done := topo[k], Done(entry, topo, k);
    var phis, insts := g.blocks[b].phis, g.blocks[b].insts;
    TopoInside(g, avail, entry, exit, topo, k);
    DoneBehind(g, avail, entry, exit, topo, k);
    PredComputed(F, g, avail, entry, exit, topo, env, w, k, s);
    BlockRuns(F, g, entry, b, s);
    var s1 := s.(preds := s.preds[b := Bit(b in w.path)]);
    var s2 := ExecAll(F, s1, Binds(g, entry, b, |phis|));
    var s3 := s2.(env := DoInsts(F, s2.env, insts));
    BindsChange(F, g, entry, b, s1, |phis|);
    forall x | x !in Defs(g.blocks[b]) ensures Val(s3.env, Var(x)) == Val(s.env, Var(x)) {
      InstsChange(F, s2.env, insts, x);
    }
    DoneNext(g, entry, topo, k);
    NotYet(g, avail, entry, exit, topo, k);
    FollowsKept(avail, entry, done, w, s, s1, Defs(g.blocks[b]));
    FollowsKept(avail, entry, done, w, s, s3, Defs(g.blocks[b]));
    forall j | 0 <= j < |w.path| && w.path[j] == b ensures AgreeOn(avail[b], s3.env, w.envs[j]) {
      RunArrives(F, g, avail, entry, exit, topo, env, w, k, j);
      VisitedAgrees(F, g, avail, entry, exit, topo, env, w, k, s1, j);
    }
  }

  lemma DoneNext(g: Graph, entry: nat, topo: seq<nat>, k: nat)
    requires k < |topo|
    ensures Done(entry, topo, k + 1) == Done(entry, topo, k) + {topo[k]}
  {
    assert topo[..k + 1] == topo[..k] + [topo[k]];
  }

  lemma NotYet(g: Graph, avail: seq<set<nat>>, entry: nat, exit: nat, topo: seq<nat>, k: nat)
    requires Collapsible(g, avail, entry, exit, topo) && k < |topo|
    ensures topo[k] !in Done(entry, topo, k)
  {
    TopoInside(g, avail, entry, exit, topo, k);
  }

  lemma VisitedAgrees(F: Meaning, g: Graph, avail: seq<set<nat>>, entry: nat, exit: nat, topo: seq<nat>, env: Env,
      w: Walk, k: nat, s: State, j: nat)
    requires Setting(F, g, avail, entry, exit, topo, env, w) && k < |topo| && 0 < j < |w.path| && w.path[j] == topo[k]
    requires Follows(avail, entry, Done(entry, topo, k), w, s) && Emittable(g, topo[k])
    requires Arrives(g, avail, entry, topo, w, k, j)
    ensures AgreeOn(avail[topo[k]],
      DoInsts(F, ExecAll(F, s, Binds(g, entry, topo[k], |g.blocks[topo[k]].phis|)).env, g.blocks[topo[k]].insts),
        w.envs[j])
  {
    var b, p := topo[k], w.path[j - 1];
    var phis, insts := g.blocks[b].phis, g.blocks[b].insts;
    BindsAgree(F, g, avail, entry, exit, topo, env, w, k, s, j, |phis|);
    assert phis[..|phis|] == phis;
    TopoInside(g, avail, entry, exit, topo, k);
    assert StepsTo(F, g, exit, w, j - 1);
    assert w.envs[j] == Enter(F, g.blocks[b], p, w.envs[j - 1]);
    var vars := avail[p] + PhiDefs(phis);
    InstUses(g.blocks[b], avail[b], vars);
    InstsAgree(F, ExecAll(F, s, Binds(g, entry, b, |phis|)).env, PhiEnv(w.envs[j - 1], phis, p, |phis|), insts, vars);
  }

  lemma DefsLater(insts: seq<Inst>, i: nat, n: nat)
    requires i <= |insts| && n < |insts|
    ensures n >= i ==> insts[n].dst in InstDefs(insts[i..])
  {
    if n >= i { assert insts[i..][n - i].dst == insts[n].dst; }
  }

  lemma InstUses(b: BasicBlock, out: set<nat>, vars: set<nat>)
    requires BlockSsa(b, out) && out <= vars + InstDefs(b.insts)
    ensures forall i, v :: 0 <= i < |b.insts| && v in b.insts[i].args ==> Uses(v, vars + InstDefs(b.insts[..i]))
  {
    forall i, v | 0 <= i < |b.insts| && v in b.insts[i].args ensures Uses(v, vars + InstDefs(b.insts[..i])) {
      assert Uses(v, out - InstDefs(b.insts[i..]));
      if v.Var? && v.x in InstDefs(b.insts) {
        var n :| 0 <= n < |b.insts| && b.insts[n].dst == v.x;
        DefsLater(b.insts, i, n);
        assert b.insts[..i][n].dst == v.x;
      }
    }
  }

  // ---- the straight-line code of the region

  ghost function StraightLine(g: Graph, entry: nat, topo: seq<nat>, k: nat): seq<Stmt>
    requires k <= |topo| && forall i :: 0 <= i < |topo| ==> Emittable(g, topo[i])
  {
    if k == 0 then [] else StraightLine(g, entry, topo, k - 1) + BlockCode(g, entry, topo[k - 1])
  }

  lemma {:induction false} StraightFollows(F: Meaning, g: Graph, avail: seq<set<nat>>, entry: nat, exit: nat,
      topo: seq<nat>, env: Env, w: Walk, k: nat)
    requires Setting(F, g, avail, entry, exit, topo, env, w) && k <= |topo|
    requires forall i :: 0 <= i < |topo| ==> Emittable(g, topo[i])
    ensures Follows(avail, entry, Done(entry, topo, k), w,
      ExecAll(F, State(env, map[]), StraightLine(g, entry, topo, k)))
  {
    hide *;
    var s0 := State(env, map[]);
    if k == 0 {
      NothingRuns(F, g, entry, topo, s0);
      StartFollows(F, g, avail, entry, exit, topo, env, w);
    } else {
      StraightStep(g, entry, topo, k);
      StraightFollows(F, g, avail, entry, exit, topo, env, w, k - 1);
      var s := ExecAll(F, s0, StraightLine(g, entry, topo, k - 1));
      BlockFollows(F, g, avail, entry, exit, topo, env, w, k - 1, s);
      ExecAppend(F, s0, StraightLine(g, entry, topo, k - 1), BlockCode(g, entry, topo[k - 1]));
    }
  }

  // x is defined by none of the first k blocks
  ghost predicate Outside(g: Graph, topo: seq<nat>, k: nat, x: nat) {
    forall i :: 0 <= i < k && i < |topo| && topo[i] < |g.blocks| ==> x !in Defs(g.blocks[topo[i]])
  }

  lemma {:induction false} StraightKeeps(F: Meaning, g: Graph, avail: seq<set<nat>>, entry: nat, exit: nat,
      topo: seq<nat>, env: Env, w: Walk, k: nat, x: nat)
    requires Setting(F, g, avail, entry, exit, topo, env, w) && k <= |topo| && Outside(g, topo, k, x)
    requires forall i :: 0 <= i < |topo| ==> Emittable(g, topo[i])
    ensures Val(ExecAll(F, State(env, map[]), StraightLine(g, entry, topo, k)).env, Var(x)) == Val(env, Var(x))
  {
    hide *;
    var s0 := State(env, map[]);
    if k == 0 {
      NothingRuns(F, g, entry, topo, s0);
    } else {
      RunIsPrefix(F, g, avail, entry, exit, topo, env, w);
      TopoInside(g, avail, entry, exit, topo, k - 1);
      OutsideLess(g, topo, k, x);
      StraightStep(g, entry, topo, k);
      StraightKeeps(F, g, avail, entry, exit, topo, env, w, k - 1, x);
      StraightFollows(F, g, avail, entry, exit, topo, env, w, k - 1);
      BlockFollows(F, g, avail, entry, exit, topo, env, w, k - 1, ExecAll(F, s0, StraightLine(g, entry, topo, k - 1)));
      ExecAppend(F, s0, StraightLine(g, entry, topo, k - 1), BlockCode(g, entry, topo[k - 1]));
    }
  }

  lemma OutsideLess(g: Graph, topo: seq<nat>, k: nat, x: nat)
    requires 0 < k <= |topo| && Outside(g, topo, k, x)
    ensures Outside(g, topo, k - 1, x) && (topo[k - 1] < |g.blocks| ==> x !in Defs(g.blocks[topo[k - 1]]))
  {
    hide Defs;
  }

  lemma NothingRuns(F: Meaning, g: Graph, entry: nat, topo: seq<nat>, s: State)
    requires forall i :: 0 <= i < |topo| ==> Emittable(g, topo[i])
    ensures ExecAll(F, s, StraightLine(g, entry, topo, 0)) == s
  {
  }

  lemma StraightStep(g: Graph, entry: nat, topo: seq<nat>, k: nat)
    requires 0 < k <= |topo| && forall i :: 0 <= i < |topo| ==> Emittable(g, topo[i])
    ensures StraightLine(g, entry, topo, k) == StraightLine(g, entry, topo, k - 1) + BlockCode(g, entry, topo[k - 1])
  {
    hide Emittable, BlockCode;
  }

  lemma StartFollows(F: Meaning, g: Graph, avail: seq<set<nat>>, entry: nat, exit: nat, topo: seq<nat>, env: Env,
      w: Walk)
    requires Setting(F, g, avail, entry, exit, topo, env, w)
    ensures Follows(avail, entry, Done(entry, topo, 0), w, State(env, map[]))
  {
    RunIsPrefix(F, g, avail, entry, exit, topo, env, w);
    RunBranches(F, g, avail, entry, exit, topo, env, w, 0);
    forall i | 0 <= i < |w.path| && w.path[i] == entry ensures i == 0 {
      PathDistinct(F, g, avail, entry, exit, topo, env, w, i, 0);
    }
  }

  // ---- the exit

  // an exit phi after the collapse: the entries of the other predecessors, and the one from the entry block
  datatype ExitPhi = ExitPhi(dst: nat, kept: seq<(nat, Value)>, chosen: Expr)

  // the code after the collapse leaves every visited block's predicate true and every other's false, every exit phi
  // with the run's value, every variable available at the end of a visited block with its value there (the exit sees
  // those of the last block), and every variable the region does not define as it was
  ghost predicate Preserves(F: Meaning, g: Graph, avail: seq<set<nat>>, exit: nat, topo: seq<nat>, env: Env, w: Walk,
      code: seq<Stmt>, phis: seq<ExitPhi>)
    requires exit < |g.blocks| && |phis| == |g.blocks[exit].phis|
    requires forall b :: b in topo ==> b < |g.blocks|
  {
    var s := ExecAll(F, State(env, map[]), code);
    var last := |w.path| - 1;
    && |w.path| == |w.envs| > 0
    && (forall b :: b in topo ==> b in s.preds && s.preds[b] == Bit(b in w.path))
    && (forall i :: 0 <= i < |phis| ==>
          Eval(s, phis[i].chosen) == Val(w.envs[last], IncomingFor(g.blocks[exit].phis[i].incoming, w.path[last])))
    && (forall i :: 0 <= i <= last ==> w.path[i] < |avail| && AgreeOn(avail[w.path[i]], s.env, w.envs[i]))
    && (forall x :: (forall b :: b in topo ==> x !in Defs(g.blocks[b])) ==> Val(s.env, Var(x)) == Val(env, Var(x)))
  }

  // the region blocks, then the entry, that branch to the exit
  ghost predicate ExitPreds(g: Graph, entry: nat, exit: nat, topo: seq<nat>, xpreds: seq<nat>) {
    && (forall p :: p in xpreds ==> (p == entry || p in topo) && p < |g.blocks| && exit in Succs(g.blocks[p].term))
    && (forall p :: (p == entry || p in topo) && p < |g.blocks| && exit in Succs(g.blocks[p].term) ==> p in xpreds)
  }

  ghost predicate ExitChosen(g: Graph, entry: nat, exit: nat, phi: Phi, xpreds: seq<nat>, after: ExitPhi) {
    xpreds != [] && (forall i :: 0 <= i < |xpreds| ==> xpreds[i] < |g.blocks|) &&
    after.chosen == PhiExpr(g, entry, exit, phi, xpreds)
  }

  lemma ExitComputed(F: Meaning, g: Graph, avail: seq<set<nat>>, entry: nat, exit: nat, topo: seq<nat>, env: Env,
      w: Walk, s: State, xpreds: seq<nat>, i: nat)
    requires Setting(F, g, avail, entry, exit, topo, env, w) && ExitPreds(g, entry, exit, topo, xpreds)
    requires Follows(avail, entry, Done(entry, topo, |topo|), w, s) && i < |g.blocks[exit].phis|
    requires xpreds != [] && (forall j :: 0 <= j < |xpreds| ==> xpreds[j] < |g.blocks|)
    ensures |w.path| == |w.envs| > 0
    ensures Eval(s, PhiExpr(g, entry, exit, g.blocks[exit].phis[i], xpreds)) ==
      Val(w.envs[|w.path| - 1], IncomingFor(g.blocks[exit].phis[i].incoming, w.path[|w.path| - 1]))
  {
    var n := |w.path|;
    var p := w.path[n - 1];
    RunBranches(F, g, avail, entry, exit, topo, env, w, n - 1);
    RunIsPrefix(F, g, avail, entry, exit, topo, env, w);
    PathInside(F, g, avail, entry, exit, topo, env, w, n - 1);
    StepInside(g, avail, entry, exit, topo, p, w.envs[n - 1]);
    assert EdgeSsa(g, avail, p, exit);
    hide Setting, Collapsible, Follows, Eval, PhiExpr;
    assert topo[..|topo|] == topo;
    PhiComputed(F, g, avail, entry, exit, topo, env, w, Done(entry, topo, |topo|), s, n, exit, g.blocks[exit].phis[i],
      xpreds);
  }

  // once every block is done, so is every visited one
  lemma RunArrivesInside(F: Meaning, g: Graph, avail: seq<set<nat>>, entry: nat, exit: nat, topo: seq<nat>, env: Env,
      w: Walk)
    requires Setting(F, g, avail, entry, exit, topo, env, w)
    ensures forall i :: 0 <= i < |w.path| ==> w.path[i] in Done(entry, topo, |topo|)
  {
    RunIsPrefix(F, g, avail, entry, exit, topo, env, w);
    hide Setting, Collapsible, IsPrefix;
    assert topo[..|topo|] == topo;
    forall i | 0 <= i < |w.path| ensures w.path[i] in Done(entry, topo, |topo|) {
      PathInside(F, g, avail, entry, exit, topo, env, w, i);
    }
  }

  lemma CollapsePreserves(F: Meaning, g: Graph, avail: seq<set<nat>>, entry: nat, exit: nat, topo: seq<nat>, env: Env,
      w: Walk, code: seq<Stmt>, xpreds: seq<nat>, phis: seq<ExitPhi>)
    requires Setting(F, g, avail, entry, exit, topo, env, w) && ExitPreds(g, entry, exit, topo, xpreds)
    requires forall i :: 0 <= i < |topo| ==> Emittable(g, topo[i])
    requires code == StraightLine(g, entry, topo, |topo|)
    requires |phis| == |g.blocks[exit].phis|
    requires forall i :: 0 <= i < |phis| ==> ExitChosen(g, entry, exit, g.blocks[exit].phis[i], xpreds, phis[i])
    ensures Preserves(F, g, avail, exit, topo, env, w, code, phis)
  {
    hide Eval, PhiExpr, DoInsts, StraightLine, Ordered, Ssa;
    var s := ExecAll(F, State(env, map[]), code);
    StraightFollows(F, g, avail, entry, exit, topo, env, w, |topo|);
    assert topo[..|topo|] == topo;
    forall i | 0 <= i < |phis|
      ensures Eval(s, phis[i].chosen) == Val(w.envs[|w.path| - 1],
        IncomingFor(g.blocks[exit].phis[i].incoming, w.path[|w.path| - 1]))
    {
      assert ExitChosen(g, entry, exit, g.blocks[exit].phis[i], xpreds, phis[i]);
      ExitComputed(F, g, avail, entry, exit, topo, env, w, s, xpreds, i);
    }
    RunArrivesInside(F, g, avail, entry, exit, topo, env, w);
    forall x | forall b :: b in topo ==> x !in Defs(g.blocks[b]) ensures Val(s.env, Var(x)) == Val(env, Var(x)) {
      StraightKeeps(F, g, avail, entry, exit, topo, env, w, |topo|, x);
    }
  }
}
