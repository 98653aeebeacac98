// If-conversion of a pure single-entry, single-exit, loop-free region: the region's blocks are moved into its entry
// block, every phi becomes a chain of selects over edge predicates, and the branches go. Values may be poison; a
// branch on poison is undefined behaviour, so a run never takes one.
module PureRegion {
  import opened SsaValues

  // ---- the SSA graph

  datatype Phi = Phi(dst: nat, incoming: seq<(nat, Value)>)

  // speculatable: no memory, no side effect, no trap
  datatype Inst = Inst(dst: nat, op: nat, args: seq<Value>, speculatable: bool)

  datatype Term = Br(t: nat) | CondBr(c: Value, t: nat, f: nat) | Other(succs: seq<nat>)

  datatype BasicBlock = BasicBlock(phis: seq<Phi>, insts: seq<Inst>, term: Term)

  // preds: the predecessor lists, in any order; a block branching twice to the same successor may be listed twice
  datatype Graph = Graph(blocks: seq<BasicBlock>, preds: seq<seq<nat>>)

  function Succs(t: Term): seq<nat> {
    match t
    case Br(s) => [s]
    case CondBr(_, s, f) => [s, f]
    case Other(ss) => ss
  }

  // the value of the first entry for a predecessor
  function IncomingFor(incoming: seq<(nat, Value)>, from: nat): Value {
    if incoming == [] then Lit(Poison)
    else if incoming[0].0 == from then incoming[0].1
    else IncomingFor(incoming[1..], from)
  }

  ghost predicate HasEntry(phi: Phi, from: nat) {
    exists i :: 0 <= i < |phi.incoming| && phi.incoming[i].0 == from
  }

  ghost predicate WellFormed(g: Graph) {
    && |g.preds| == |g.blocks|
    && (forall b, p :: 0 <= b < |g.blocks| && p in g.preds[b] ==> p < |g.blocks| && b in Succs(g.blocks[p].term))
    && (forall b, s :: 0 <= b < |g.blocks| && s in Succs(g.blocks[b].term) ==> s < |g.blocks| && b in g.preds[s])
    && (forall b, i, p :: 0 <= b < |g.blocks| && 0 <= i < |g.blocks[b].phis| ==>
          (HasEntry(g.blocks[b].phis[i], p) <==> p in g.preds[b]))
  }

  // ---- static single assignment: `avail[b]` holds the variables whose definition dominates the end of block b

  ghost function PhiDefs(phis: seq<Phi>): set<nat> {
    set i | 0 <= i < |phis| :: phis[i].dst
  }

  ghost function InstDefs(insts: seq<Inst>): set<nat> {
    set i | 0 <= i < |insts| :: insts[i].dst
  }

  ghost function Defs(b: BasicBlock): set<nat> {
    PhiDefs(b.phis) + InstDefs(b.insts)
  }

  ghost predicate Uses(v: Value, vars: set<nat>) {
    v.Var? ==> v.x in vars
  }

  ghost predicate BlockSsa(b: BasicBlock, out: set<nat>) {
    && Defs(b) <= out
    && PhiDefs(b.phis) !! InstDefs(b.insts)
    && (forall i, j :: 0 <= i < j < |b.phis| ==> b.phis[i].dst != b.phis[j].dst)
    && (forall i, j :: 0 <= i < j < |b.insts| ==> b.insts[i].dst != b.insts[j].dst)
    && (forall i, a :: 0 <= i < |b.insts| && a in b.insts[i].args ==> Uses(a, out - InstDefs(b.insts[i..])))
    && (b.term.CondBr? ==> Uses(b.term.c, out))
  }

  ghost predicate EdgeSsa(g: Graph, avail: seq<set<nat>>, p: nat, b: nat)
    requires p < |g.blocks| == |avail| && b < |g.blocks|
  {
    && avail[b] <= avail[p] + Defs(g.blocks[b])
    && (forall i :: 0 <= i < |g.blocks[b].phis| ==> Uses(IncomingFor(g.blocks[b].phis[i].incoming, p), avail[p]))
  }

  ghost predicate Ssa(g: Graph, avail: seq<set<nat>>) {
    && WellFormed(g) && |avail| == |g.blocks|
    && (forall b :: 0 <= b < |g.blocks| ==> BlockSsa(g.blocks[b], avail[b]))
    && (forall b, c :: 0 <= b < c < |g.blocks| ==> Defs(g.blocks[b]) !! Defs(g.blocks[c]))
    && (forall b, p :: 0 <= b < |g.blocks| && p in g.preds[b] ==> p < |g.blocks| && EdgeSsa(g, avail, p, b))
  }

  // the dominator tree: a block strictly dominated by e has no definition that dominates the end of e
  ghost predicate DominatorTree(g: Graph, avail: seq<set<nat>>, dominates: (nat, nat) -> bool)
    requires Ssa(g, avail)
  {
    forall e, b :: 0 <= e < |g.blocks| && 0 <= b < |g.blocks| && e != b && dominates(e, b) ==>
      Defs(g.blocks[b]) !! avail[e]
  }

  // ---- runs of the graph

  function DoInst(F: Meaning, env: Env, i: Inst): Env {
    env[i.dst := F(i.op, seq(|i.args|, k requires 0 <= k < |i.args| => Val(env, i.args[k])))]
  }

  function DoInsts(F: Meaning, env: Env, insts: seq<Inst>): Env
    decreases |insts|
  {
    if insts == [] then env else DoInsts(F, DoInst(F, env, insts[0]), insts[1..])
  }

  // all phis of a block read the environment of the predecessor's end
  function PhiEnv(env: Env, phis: seq<Phi>, from: nat, k: nat): Env
    requires k <= |phis|
  {
    if k == 0 then env
    else PhiEnv(env, phis, from, k - 1)[phis[k - 1].dst := Val(env, IncomingFor(phis[k - 1].incoming, from))]
  }

  function Enter(F: Meaning, b: BasicBlock, from: nat, env: Env): Env {
    DoInsts(F, PhiEnv(env, b.phis, from, |b.phis|), b.insts)
  }

  // branching on poison is undefined behaviour; a condition that is not poison is one bit
  ghost predicate Branches(t: Term, env: Env) {
    t.Br? || (t.CondBr? && (Val(env, t.c) == Num(0) || Val(env, t.c) == Num(1)))
  }

  function Taken(t: Term, env: Env): nat
    requires !t.Other?
  {
    match t
    case Br(s) => s
    case CondBr(c, s, f) => if Val(env, c) != Num(0) then s else f
  }

  // the blocks a run visits from the end of the entry to the exit, with the environment at the end of each
  datatype Walk = Walk(path: seq<nat>, envs: seq<Env>)

  // a run that has not yet left the region
  ghost predicate IsPrefix(F: Meaning, g: Graph, entry: nat, exit: nat, env: Env, w: Walk) {
    && |w.path| == |w.envs| > 0 && w.path[0] == entry && w.envs[0] == env
    && (forall i :: 0 <= i < |w.path| ==> w.path[i] < |g.blocks|)
    && (forall i :: 0 <= i < |w.path| - 1 ==> StepsTo(F, g, exit, w, i))
  }

  ghost predicate StepsTo(F: Meaning, g: Graph, exit: nat, w: Walk, i: nat)
    requires |w.path| == |w.envs| && i + 1 < |w.path| && w.path[i] < |g.blocks| && w.path[i + 1] < |g.blocks|
  {
    && Branches(g.blocks[w.path[i]].term, w.envs[i])
    && Taken(g.blocks[w.path[i]].term, w.envs[i]) == w.path[i + 1] != exit
    && w.envs[i + 1] == Enter(F, g.blocks[w.path[i + 1]], w.path[i], w.envs[i])
  }

  // a run that leaves through the exit
  ghost predicate IsRun(F: Meaning, g: Graph, entry: nat, exit: nat, env: Env, w: Walk) {
    && IsPrefix(F, g, entry, exit, env, w)
    && var last := |w.path| - 1;
    && Branches(g.blocks[w.path[last]].term, w.envs[last])
    && Taken(g.blocks[w.path[last]].term, w.envs[last]) == exit
  }

  // ---- the straight-line code

  // PredOf(b): the predicate computed for block b
  datatype Expr = V(v: Value) | PredOf(b: nat) | Not(e: Expr) | Select(c: Expr, t: Expr, f: Expr)

  datatype Stmt = SetPred(b: nat, e: Expr) | Bind(dst: nat, e: Expr) | Do(inst: Inst)

  datatype State = State(env: Env, preds: map<nat, Word>)

  // a select on poison is poison; the operand it does not choose may be poison
  function Eval(s: State, e: Expr): Word {
    match e
    case V(v) => Val(s.env, v)
    case PredOf(b) => if b in s.preds then s.preds[b] else Poison
    case Not(e1) => (match Eval(s, e1) case Num(n) => Num(if n == 0 then 1 else 0) case _ => Poison)
    case Select(c, t, f) =>
      match Eval(s, c)
      case Num(n) => if n != 0 then Eval(s, t) else Eval(s, f)
      case _ => Poison
  }

  function Exec(F: Meaning, s: State, st: Stmt): State {
    match st
    case SetPred(b, e) => s.(preds := s.preds[b := Eval(s, e)])
    case Bind(x, e) => s.(env := s.env[x := Eval(s, e)])
    case Do(i) => s.(env := DoInst(F, s.env, i))
  }

  function ExecAll(F: Meaning, s: State, code: seq<Stmt>): State
    decreases |code|
  {
    if code == [] then s else ExecAll(F, Exec(F, s, code[0]), code[1..])
  }

  lemma {:induction false} ExecAppend(F: Meaning, s: State, a: seq<Stmt>, b: seq<Stmt>)
    ensures ExecAll(F, s, a + b) == ExecAll(F, ExecAll(F, s, a), b)
    decreases |a|
  {
    if a == [] {
      assert a + b == b;
    } else {
      assert (a + b)[0] == a[0] && (a + b)[1..] == a[1..] + b;
      ExecAppend(F, Exec(F, s, a[0]), a[1..], b);
    }
  }

  const TRUE := V(Lit(Num(1)))
  const FALSE := V(Lit(Num(0)))

  function PredExpr(entry: nat, b: nat): Expr {
    if b == entry then TRUE else PredOf(b)
  }

  // the condition under which control goes from p to s: never an `and`, whose other operand may be poison
  function EdgeCond(g: Graph, entry: nat, p: nat, s: nat): Expr
    requires p < |g.blocks|
  {
    match g.blocks[p].term
    case CondBr(c, t, f) =>
      if t == s && f == s then PredExpr(entry, p)
      else Select(PredExpr(entry, p), if f == s then Not(V(c)) else V(c), FALSE)
    case _ => PredExpr(entry, p)
  }

  // ---- region and order

  const MAX_BLOCKS := 24
  const MAX_INSTS := 160

  function SetOf(s: seq<nat>): set<nat> {
    set b | b in s
  }

  // what the entry reaches before the exit
  ghost predicate IsRegion(g: Graph, entry: nat, exit: nat, region: set<nat>) {
    && entry !in region && exit !in region && entry < |g.blocks| && exit < |g.blocks|
    && !g.blocks[entry].term.Other?
    && (forall s :: s in Succs(g.blocks[entry].term) ==> s in region || s == exit)
    && (forall b :: b in region ==> b < |g.blocks| && !g.blocks[b].term.Other?)
    && (forall b, s :: b in region && s in Succs(g.blocks[b].term) ==> s in region || s == exit)
  }

  ghost predicate Ordered(g: Graph, entry: nat, topo: seq<nat>) {
    && (forall i, j :: 0 <= i < j < |topo| ==> topo[i] != topo[j])
    && (forall i :: 0 <= i < |topo| ==> topo[i] < |g.preds| && g.preds[topo[i]] != [])
    && (forall i, p :: 0 <= i < |topo| && p in g.preds[topo[i]] ==> p == entry || p in topo[..i])
  }

  // the whole situation a collapse starts from
  ghost predicate Collapsible(g: Graph, avail: seq<set<nat>>, entry: nat, exit: nat, topo: seq<nat>) {
    && Ssa(g, avail)
    && IsRegion(g, entry, exit, SetOf(topo))
    && Ordered(g, entry, topo)
    && (forall b :: b in topo ==> Defs(g.blocks[b]) !! avail[entry])
  }
}
