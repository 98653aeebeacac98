// State-machine emission of an irreducible control-flow graph: one `switch` case per reachable block, phi copies on
// every edge. The emitted loop simulates the SSA graph step for step.
module StateMachine {
  // ---- the SSA graph

  datatype Operand = Var(x: nat) | Lit(c: int)

  type Env = map<nat, int>

  function Val(env: Env, v: Operand): int {
    match v
    case Var(x) => if x in env then env[x] else 0
    case Lit(c) => c
  }

  function Vals(env: Env, vs: seq<Operand>): seq<int> {
    seq(|vs|, i requires 0 <= i < |vs| => Val(env, vs[i]))
  }

  // incoming: predecessor block -> value
  datatype Phi = Phi(dst: nat, incoming: map<nat, Operand>)

  datatype Inst = Inst(dst: nat, op: nat, args: seq<Operand>)

  datatype Term = Br(t: nat) | CondBr(c: Operand, t: nat, f: nat) | Ret | Unreachable | OtherTerm

  datatype BasicBlock = BasicBlock(phis: seq<Phi>, insts: seq<Inst>, term: Term)

  // block 0 is the entry
  datatype Graph = Graph(blocks: seq<BasicBlock>)

  function Succs(t: Term): set<nat> {
    match t
    case Br(s) => {s}
    case CondBr(_, s, f) => {s, f}
    case _ => {}
  }

  // every edge leads to a block that has an incoming value for it in every phi; phi names are distinct per block
  ghost predicate WellFormed(g: Graph) {
    && |g.blocks| > 0
    && (forall b :: 0 <= b < |g.blocks| ==> DistinctPhis(g.blocks[b].phis))
    && (forall b :: 0 <= b < |g.blocks| ==> EdgesInside(g, b))
  }

  ghost predicate EdgesInside(g: Graph, b: nat)
    requires b < |g.blocks|
  {
    forall t :: t in Succs(g.blocks[b].term) ==> IsEdge(g, b, t)
  }

  ghost predicate IsEdge(g: Graph, b: nat, t: nat) {
    t < |g.blocks| && HasEdge(g.blocks[t].phis, b)
  }

  ghost predicate DistinctPhis(phis: seq<Phi>) {
    forall i, j :: 0 <= i < j < |phis| ==> phis[i].dst != phis[j].dst
  }

  ghost predicate HasEdge(phis: seq<Phi>, from: nat) {
    forall i :: 0 <= i < |phis| ==> from in phis[i].incoming
  }

  // the meaning of an instruction: opcode, operands and memory give the result and the new memory
  type Mem = map<int, int>
  type Meaning = (nat, seq<int>, Mem) -> (int, Mem)

  datatype State = State(env: Env, mem: Mem)

  function DoInst(F: Meaning, s: State, i: Inst): State {
    var (v, m) := F(i.op, Vals(s.env, i.args), s.mem);
    State(s.env[i.dst := v], m)
  }

  ghost function DoInsts(F: Meaning, s: State, insts: seq<Inst>): State
    decreases |insts|
  {
    if insts == [] then s else DoInsts(F, DoInst(F, s, insts[0]), insts[1..])
  }

  // the simultaneous phi assignment: every source is read in the environment before the edge
  ghost predicate Simultaneous(env: Env, phis: seq<Phi>, from: nat, env': Env)
    requires HasEdge(phis, from)
  {
    && (forall i :: 0 <= i < |phis| ==> phis[i].dst in env' && env'[phis[i].dst] == Val(env, phis[i].incoming[from]))
    && (forall x: nat :: (forall i :: 0 <= i < |phis| ==> phis[i].dst != x) ==> (x in env' <==> x in env))
    && (forall x: nat :: x in env && (forall i :: 0 <= i < |phis| ==> phis[i].dst != x) ==> env'[x] == env[x])
  }

  // the environment after taking the edge, k phis done
  ghost function PhiEnv(env: Env, phis: seq<Phi>, from: nat, k: nat): Env
    requires HasEdge(phis, from) && k <= |phis|
  {
    if k == 0 then env else PhiEnv(env, phis, from, k - 1)[phis[k - 1].dst := Val(env, phis[k - 1].incoming[from])]
  }

  lemma {:induction false} PhiEnvAt(env: Env, phis: seq<Phi>, from: nat, k: nat, x: nat)
    requires HasEdge(phis, from) && DistinctPhis(phis) && k <= |phis|
    ensures forall i :: 0 <= i < k && phis[i].dst == x ==>
      x in PhiEnv(env, phis, from, k) && PhiEnv(env, phis, from, k)[x] == Val(env, phis[i].incoming[from])
    ensures (forall i :: 0 <= i < k ==> phis[i].dst != x) ==>
      (x in PhiEnv(env, phis, from, k) <==> x in env) && (x in env ==> PhiEnv(env, phis, from, k)[x] == env[x])
  {
    if k > 0 { PhiEnvAt(env, phis, from, k - 1, x); }
  }

  // PhiEnv is the one environment the simultaneous assignment allows
  lemma PhiEnvSimultaneous(env: Env, phis: seq<Phi>, from: nat, env': Env)
    requires HasEdge(phis, from) && DistinctPhis(phis)
    ensures Simultaneous(env, phis, from, env') <==> env' == PhiEnv(env, phis, from, |phis|)
  {
    var p := PhiEnv(env, phis, from, |phis|);
    forall x: nat
      ensures (forall i :: 0 <= i < |phis| && phis[i].dst == x ==> x in p && p[x] == Val(env, phis[i].incoming[from]))
      ensures (forall i :: 0 <= i < |phis| ==> phis[i].dst != x) ==>
        (x in p <==> x in env) && (x in env ==> p[x] == env[x])
    {
      PhiEnvAt(env, phis, from, |phis|, x);
    }
    if Simultaneous(env, phis, from, env') {
      forall x: nat ensures (x in env' <==> x in p) && (x in p ==> env'[x] == p[x]) {
        if i :| 0 <= i < |phis| && phis[i].dst == x {}
      }
    }
  }

  datatype Config = At(block: nat, s: State) | Done(s: State)

  // one step of the graph: the block's instructions, then the edge its terminator takes
  ghost function Take(g: Graph, from: nat, to: nat, s: State): Config
    requires IsEdge(g, from, to)
  {
    At(to, State(PhiEnv(s.env, g.blocks[to].phis, from, |g.blocks[to].phis|), s.mem))
  }

  ghost function Leave(g: Graph, b: nat, s: State): (d: Config)
    requires WellFormed(g) && b < |g.blocks|
    ensures d.At? ==> d.block < |g.blocks| && d.block in Succs(g.blocks[b].term)
  {
    assert EdgesInside(g, b);
    match g.blocks[b].term
    case Br(t) => assert t in Succs(g.blocks[b].term); Take(g, b, t, s)
    case CondBr(v, t, f) =>
      assert t in Succs(g.blocks[b].term) && f in Succs(g.blocks[b].term);
      Take(g, b, if Val(s.env, v) != 0 then t else f, s)
    case _ => Done(s)
  }

  ghost function GraphStep(F: Meaning, g: Graph, c: Config): (d: Config)
    requires WellFormed(g) && (c.At? ==> c.block < |g.blocks|)
    ensures d.At? ==> d.block < |g.blocks|
    ensures c.At? && d.At? ==> d.block in Succs(g.blocks[c.block].term)
  {
    match c
    case Done(_) => c
    case At(b, s) => Leave(g, b, DoInsts(F, s, g.blocks[b].insts))
  }

  ghost function GraphRun(F: Meaning, g: Graph, c: Config, n: nat): (d: Config)
    requires WellFormed(g) && (c.At? ==> c.block < |g.blocks|)
    ensures d.At? ==> d.block < |g.blocks|
  {
    if n == 0 then c else GraphStep(F, g, GraphRun(F, g, c, n - 1))
  }

  // ---- the emitted program

  datatype Stmt =
    | Copy(dst: nat, src: Operand)                 // x = v;
    | Temp(i: nat, src: Operand)                   // T __ti = v;
    | FromTemp(dst: nat, i: nat)                 // x = __ti;
    | Scope(body: seq<Stmt>)                     // { ... }
    | Do(inst: Inst)
    | SetBlock(id: nat)                          // __bb = id;
    | IfElse(c: Operand, thn: seq<Stmt>, els: seq<Stmt>)
    | Break
    | Return

  datatype Machine = Machine(s: State, temps: Env, bb: nat)

  datatype Outcome = Falls(m: Machine) | Breaks(m: Machine) | Returns(m: Machine)

  ghost function Exec(F: Meaning, m: Machine, st: Stmt): Outcome
    decreases st, 0
  {
    match st
    case Copy(x, v) => Falls(m.(s := m.s.(env := m.s.env[x := Val(m.s.env, v)])))
    case Temp(i, v) => Falls(m.(temps := m.temps[i := Val(m.s.env, v)]))
    case FromTemp(x, i) => Falls(m.(s := m.s.(env := m.s.env[x := if i in m.temps then m.temps[i] else 0])))
    case Scope(body) =>
      var o := ExecAll(F, m, body);
      if o.Falls? then Falls(o.m.(temps := m.temps)) else o
    case Do(i) => Falls(m.(s := DoInst(F, m.s, i)))
    case SetBlock(b) => Falls(m.(bb := b))
    case IfElse(c, t, e) => if Val(m.s.env, c) != 0 then ExecAll(F, m, t) else ExecAll(F, m, e)
    case Break => Breaks(m)
    case Return => Returns(m)
  }

  ghost function ExecAll(F: Meaning, m: Machine, body: seq<Stmt>): Outcome
    decreases body, 1
  {
    if body == [] then Falls(m)
    else
      var o := Exec(F, m, body[0]);
      if o.Falls? then ExecAll(F, o.m, body[1..]) else o
  }

  lemma {:induction false} ExecAppend(F: Meaning, m: Machine, a: seq<Stmt>, b: seq<Stmt>)
    ensures ExecAll(F, m, a + b) == (var o := ExecAll(F, m, a); if o.Falls? then ExecAll(F, o.m, b) else o)
    decreases |a|
  {
    if a == [] {
      assert a + b == b;
    } else {
      assert (a + b)[0] == a[0] && (a + b)[1..] == a[1..] + b;
      var o := Exec(F, m, a[0]);
      if o.Falls? { ExecAppend(F, o.m, a[1..], b); }
    }
  }

  // a `switch` case: the block's id and its statements
  datatype Case = Case(id: nat, body: seq<Stmt>)

  ghost function FindCase(cases: seq<Case>, id: nat): nat {
    if cases == [] || cases[0].id == id then 0 else 1 + FindCase(cases[1..], id)
  }

  // one turn of the loop: the body of the selected case, or the default, which returns
  ghost function Turn(F: Meaning, cases: seq<Case>, o: Outcome): Outcome {
    if o.Returns? then o
    else
      var k := FindCase(cases, o.m.bb);
      if k < |cases| then ExecAll(F, o.m, cases[k].body) else Returns(o.m)
  }

  ghost function Turns(F: Meaning, cases: seq<Case>, o: Outcome, n: nat): Outcome {
    if n == 0 then o else Turn(F, cases, Turns(F, cases, o, n - 1))
  }

  // ---- emission

  ghost predicate Copies(phis: seq<Phi>, from: nat, body: seq<Stmt>)
    requires HasEdge(phis, from)
  {
    forall F: Meaning, m: Machine ::
      ExecAll(F, m, body) == Falls(m.(s := m.s.(env := PhiEnv(m.s.env, phis, from, |phis|))))
  }

  // the copies of an edge: one assignment after the other, through temporaries exactly when a source is a phi of the
  // target
  method EmitPhiCopies(phis: seq<Phi>, from: nat) returns (body: seq<Stmt>)
    requires HasEdge(phis, from) && DistinctPhis(phis)
    ensures Copies(phis, from, body)
    ensures (exists i, j :: 0 <= i < |phis| && 0 <= j < |phis| && phis[i].incoming[from] == Var(phis[j].dst))
      <==> (|body| > 0 && body[0].Scope?)
  {
    hide ExecAll, Exec, PhiEnv;
    var names: set<nat> := {};
    var copies: seq<(nat, Operand)> := [];
    for i := 0 to |phis|
      invariant |copies| == i && forall k :: 0 <= k < i ==> copies[k] == (phis[k].dst, phis[k].incoming[from])
      invariant names == set k | 0 <= k < i :: phis[k].dst
    {
      names := names + {phis[i].dst};
      copies := copies + [(phis[i].dst, phis[i].incoming[from])];
    }
    body := [];
    if copies == [] {
      NoCopies(phis, from);
      return;
    }
    var needTemps := false;
    for i := 0 to |copies|
      invariant needTemps <==> exists k :: 0 <= k < i && copies[k].1.Var? && copies[k].1.x in names
    {
      if copies[i].1.Var? && copies[i].1.x in names { needTemps := true; }
    }
    if !needTemps {
      for i := 0 to |copies|
        invariant |body| == i && forall k :: 0 <= k < i ==> body[k] == Copy(copies[k].0, copies[k].1)
      {
        body := body + [Copy(copies[i].0, copies[i].1)];
      }
      forall F: Meaning, m: Machine
        ensures ExecAll(F, m, body) == Falls(m.(s := m.s.(env := PhiEnv(m.s.env, phis, from, |phis|))))
      {
        DirectCopies(F, m, phis, from, body, |phis|);
        assert body[..|phis|] == body;
      }
      return;
    }
    var inner: seq<Stmt> := [];
    for i := 0 to |copies|
      invariant |inner| == i && forall k :: 0 <= k < i ==> inner[k] == Temp(k, copies[k].1)
    {
      inner := inner + [Temp(i, copies[i].1)];
    }
    ghost var temps, back := inner, [];
    for i := 0 to |copies|
      invariant inner == temps + back
      invariant |back| == i && forall k :: 0 <= k < i ==> back[k] == FromTemp(copies[k].0, k)
    {
      inner := inner + [FromTemp(copies[i].0, i)];
      back := back + [FromTemp(copies[i].0, i)];
    }
    body := [Scope(inner)];
    forall F: Meaning, m: Machine
      ensures ExecAll(F, m, body) == Falls(m.(s := m.s.(env := PhiEnv(m.s.env, phis, from, |phis|))))
    {
      ThroughTemps(F, m, phis, from, temps, back);
    }
  }

  lemma NoCopies(phis: seq<Phi>, from: nat)
    requires phis == []
    ensures Copies(phis, from, [])
  {
  }

  // without a source among the target's phis the order of the assignments does not show
  lemma {:induction false} DirectCopies(F: Meaning, m: Machine, phis: seq<Phi>, from: nat, body: seq<Stmt>, k: nat)
    requires HasEdge(phis, from) && DistinctPhis(phis) && k <= |phis| == |body|
    requires forall i :: 0 <= i < |phis| ==> body[i] == Copy(phis[i].dst, phis[i].incoming[from])
    requires forall i, j :: 0 <= i < |phis| && 0 <= j < |phis| ==> phis[i].incoming[from] != Var(phis[j].dst)
    ensures ExecAll(F, m, body[..k]) == Falls(m.(s := m.s.(env := PhiEnv(m.s.env, phis, from, k))))
  {
    if k > 0 {
      DirectCopies(F, m, phis, from, body, k - 1);
      assert body[..k] == body[..k - 1] + [body[k - 1]];
      ExecAppend(F, m, body[..k - 1], [body[k - 1]]);
      var env := PhiEnv(m.s.env, phis, from, k - 1);
      var v := phis[k - 1].incoming[from];
      if v.Var? { PhiEnvAt(m.s.env, phis, from, k - 1, v.x); }
      assert Val(env, v) == Val(m.s.env, v);
      ExecOne(F, m.(s := m.s.(env := env)), body[k - 1]);
    }
  }

  lemma ExecOne(F: Meaning, m: Machine, st: Stmt)
    ensures ExecAll(F, m, [st]) == Exec(F, m, st)
  {
    assert [st][1..] == [];
  }

  lemma {:induction false} TempsFilled(F: Meaning, m: Machine, phis: seq<Phi>, from: nat, body: seq<Stmt>, k: nat)
      returns (m': Machine)
    requires HasEdge(phis, from) && k <= |phis| <= |body|
    requires forall i :: 0 <= i < |phis| ==> body[i] == Temp(i, phis[i].incoming[from])
    ensures ExecAll(F, m, body[..k]) == Falls(m') && m'.s == m.s && m'.bb == m.bb
    ensures forall i :: 0 <= i < k ==> i in m'.temps && m'.temps[i] == Val(m.s.env, phis[i].incoming[from])
  {
    if k == 0 {
      m' := m;
    } else {
      var p := TempsFilled(F, m, phis, from, body, k - 1);
      assert body[..k] == body[..k - 1] + [body[k - 1]];
      ExecAppend(F, m, body[..k - 1], [body[k - 1]]);
      ExecOne(F, p, body[k - 1]);
      m' := p.(temps := p.temps[k - 1 := Val(m.s.env, phis[k - 1].incoming[from])]);
    }
  }

  lemma {:induction false} TempsCopied(F: Meaning, m: Machine, env: Env, phis: seq<Phi>, from: nat, body: seq<Stmt>,
      k: nat)
    requires HasEdge(phis, from) && k <= |phis| == |body| && m.s.env == env
    requires forall i :: 0 <= i < |phis| ==> body[i] == FromTemp(phis[i].dst, i)
    requires forall i :: 0 <= i < |phis| ==> i in m.temps && m.temps[i] == Val(env, phis[i].incoming[from])
    ensures ExecAll(F, m, body[..k]) == Falls(m.(s := m.s.(env := PhiEnv(env, phis, from, k))))
  {
    if k > 0 {
      TempsCopied(F, m, env, phis, from, body, k - 1);
      assert body[..k] == body[..k - 1] + [body[k - 1]];
      ExecAppend(F, m, body[..k - 1], [body[k - 1]]);
      ExecOne(F, m.(s := m.s.(env := PhiEnv(env, phis, from, k - 1))), body[k - 1]);
    }
  }

  lemma ThroughTemps(F: Meaning, m: Machine, phis: seq<Phi>, from: nat, temps: seq<Stmt>, copies: seq<Stmt>)
    requires HasEdge(phis, from) && |temps| == |copies| == |phis|
    requires forall i :: 0 <= i < |phis| ==> temps[i] == Temp(i, phis[i].incoming[from])
    requires forall i :: 0 <= i < |phis| ==> copies[i] == FromTemp(phis[i].dst, i)
    ensures ExecAll(F, m, [Scope(temps + copies)]) == Falls(m.(s := m.s.(env := PhiEnv(m.s.env, phis, from, |phis|))))
  {
    hide ExecAll, Val, PhiEnv;
    var n := |phis|;
    var p := TempsFilled(F, m, phis, from, temps, n);
    TempsCopied(F, p, m.s.env, phis, from, copies, n);
    assert temps[..n] == temps && copies[..n] == copies;
    ExecAppend(F, m, temps, copies);
    ExecOne(F, m, Scope(temps + copies));
  }

  // the copies of an edge and the assignment of the next block
  lemma EdgeRuns(F: Meaning, m: Machine, g: Graph, b: nat, t: nat, copies: seq<Stmt>, id: nat)
    requires IsEdge(g, b, t) && Copies(g.blocks[t].phis, b, copies)
    ensures ExecAll(F, m, copies + [SetBlock(id)]) == Falls(Machine(Take(g, b, t, m.s).s, m.temps, id))
  {
    hide Exec, PhiEnv;
    ExecAppend(F, m, copies, [SetBlock(id)]);
    ExecOne(F, ExecAll(F, m, copies).m, SetBlock(id));
    SetBlockRuns(F, ExecAll(F, m, copies).m, id);
  }

  lemma SetBlockRuns(F: Meaning, m: Machine, id: nat)
    ensures Exec(F, m, SetBlock(id)) == Falls(m.(bb := id))
  {
  }

  lemma {:induction false} InstsRun(F: Meaning, m: Machine, insts: seq<Inst>, body: seq<Stmt>)
    requires |body| == |insts| && forall k :: 0 <= k < |insts| ==> body[k] == Do(insts[k])
    ensures ExecAll(F, m, body) == Falls(m.(s := DoInsts(F, m.s, insts)))
    decreases |insts|
  {
    if insts != [] { InstsRun(F, m.(s := DoInst(F, m.s, insts[0])), insts[1..], body[1..]); }
  }

  // an unconditional edge, then the end of the case
  lemma BrRuns(F: Meaning, m: Machine, g: Graph, ids: seq<nat>, b: nat, t: nat, copies: seq<Stmt>)
    requires WellFormed(g) && b < |g.blocks| == |ids| && g.blocks[b].term == Br(t) && IsEdge(g, b, t)
    requires Copies(g.blocks[t].phis, b, copies)
    ensures Matches(ids, m, Leave(g, b, m.s), ExecAll(F, m, copies + [SetBlock(ids[t]), Break]))
  {
    hide Copies, ExecAll;
    assert copies + [SetBlock(ids[t]), Break] == (copies + [SetBlock(ids[t])]) + [Break];
    EdgeRuns(F, m, g, b, t, copies, ids[t]);
    ExecAppend(F, m, copies + [SetBlock(ids[t])], [Break]);
    ExecOne(F, ExecAll(F, m, copies + [SetBlock(ids[t])]).m, Break);
  }

  lemma CondBrRuns(F: Meaning, m: Machine, g: Graph, ids: seq<nat>, b: nat, v: Operand, t: nat, f: nat, ct: seq<Stmt>,
      cf: seq<Stmt>)
    requires WellFormed(g) && b < |g.blocks| == |ids| && g.blocks[b].term == CondBr(v, t, f) && IsEdge(g, b, t)
      && IsEdge(g, b, f)
    requires Copies(g.blocks[t].phis, b, ct) && Copies(g.blocks[f].phis, b, cf)
    ensures Matches(ids, m, Leave(g, b, m.s),
      ExecAll(F, m, [IfElse(v, ct + [SetBlock(ids[t])], cf + [SetBlock(ids[f])]), Break]))
  {
    hide Copies, ExecAll;
    EdgeRuns(F, m, g, b, t, ct, ids[t]);
    EdgeRuns(F, m, g, b, f, cf, ids[f]);
    var branch := IfElse(v, ct + [SetBlock(ids[t])], cf + [SetBlock(ids[f])]);
    assert [branch, Break] == [branch] + [Break];
    ExecAppend(F, m, [branch], [Break]);
    ExecOne(F, m, branch);
    ExecOne(F, ExecAll(F, m, [branch]).m, Break);
  }

  // running the case from a state of block b is one step of the graph
  ghost predicate Simulates(g: Graph, ids: seq<nat>, b: nat, body: seq<Stmt>)
    requires WellFormed(g) && b < |g.blocks| == |ids|
  {
    forall F: Meaning, m: Machine :: Matches(ids, m, GraphStep(F, g, At(b, m.s)), ExecAll(F, m, body))
  }

  // the statements after the instructions act as the terminator
  ghost predicate Leaves(g: Graph, ids: seq<nat>, b: nat, tail: seq<Stmt>)
    requires WellFormed(g) && b < |g.blocks| == |ids|
  {
    forall F: Meaning, m: Machine :: Matches(ids, m, Leave(g, b, m.s), ExecAll(F, m, tail))
  }

  // a turn of the loop has left the machine where the graph is: in the block __bb names, or returned
  ghost predicate Matches(ids: seq<nat>, m: Machine, c: Config, o: Outcome) {
    match c
    case At(t, s) => t < |ids| && o == Breaks(Machine(s, m.temps, ids[t]))
    case Done(s) => o == Returns(Machine(s, m.temps, m.bb))
  }

  lemma CaseRuns(g: Graph, ids: seq<nat>, b: nat, prefix: seq<Stmt>, tail: seq<Stmt>)
    requires WellFormed(g) && b < |g.blocks| == |ids| && Leaves(g, ids, b, tail)
    requires |prefix| == |g.blocks[b].insts| && forall k :: 0 <= k < |prefix| ==> prefix[k] == Do(g.blocks[b].insts[k])
    ensures Simulates(g, ids, b, prefix + tail)
  {
    hide ExecAll, WellFormed, Leave;
    forall F: Meaning, m: Machine
      ensures Matches(ids, m, GraphStep(F, g, At(b, m.s)), ExecAll(F, m, prefix + tail))
    {
      InstsRun(F, m, g.blocks[b].insts, prefix);
      ExecAppend(F, m, prefix, tail);
      var m' := m.(s := DoInsts(F, m.s, g.blocks[b].insts));
      assert Matches(ids, m', Leave(g, b, m'.s), ExecAll(F, m', tail));
    }
  }

  lemma Edge(g: Graph, b: nat, t: nat)
    requires WellFormed(g) && b < |g.blocks| && t in Succs(g.blocks[b].term)
    ensures IsEdge(g, b, t) && DistinctPhis(g.blocks[t].phis)
  {
    assert EdgesInside(g, b);
  }

  // the `case` of one block; a terminator other than a branch, a return or `unreachable` is refused
  method EmitCase(g: Graph, ids: seq<nat>, b: nat) returns (ok: bool, c: Case)
    requires WellFormed(g) && b < |g.blocks| == |ids|
    ensures ok <==> !g.blocks[b].term.OtherTerm?
    ensures ok ==> c.id == ids[b] && Simulates(g, ids, b, c.body)
  {
    hide Simulates, WellFormed, Leave, Matches, Copies, ExecAll;
    var body: seq<Stmt> := [];
    var insts := g.blocks[b].insts;
    for i := 0 to |insts|
      invariant |body| == i && forall k :: 0 <= k < i ==> body[k] == Do(insts[k])
    {
      body := body + [Do(insts[i])];
    }
    var tail := [];
    match g.blocks[b].term {
      case Br(t) => {
        Edge(g, b, t);
        var copies := EmitPhiCopies(g.blocks[t].phis, b);
        tail := copies + [SetBlock(ids[t]), Break];
        forall F: Meaning, m: Machine ensures Matches(ids, m, Leave(g, b, m.s), ExecAll(F, m, tail)) {
          BrRuns(F, m, g, ids, b, t, copies);
        }
      }
      case CondBr(v, t, f) => {
        Edge(g, b, t);
        Edge(g, b, f);
        var ct := EmitPhiCopies(g.blocks[t].phis, b);
        var cf := EmitPhiCopies(g.blocks[f].phis, b);
        tail := [IfElse(v, ct + [SetBlock(ids[t])], cf + [SetBlock(ids[f])]), Break];
        forall F: Meaning, m: Machine ensures Matches(ids, m, Leave(g, b, m.s), ExecAll(F, m, tail)) {
          CondBrRuns(F, m, g, ids, b, v, t, f, ct, cf);
        }
      }
      case OtherTerm => return false, Case(ids[b], []);
      case _ => {
        tail := [Return];
        forall F: Meaning, m: Machine ensures Matches(ids, m, Leave(g, b, m.s), ExecAll(F, m, tail)) {
          ReturnRuns(F, m, g, ids, b);
        }
      }
    }
    CaseRuns(g, ids, b, body, tail);
    return true, Case(ids[b], body + tail);
  }

  lemma ReturnRuns(F: Meaning, m: Machine, g: Graph, ids: seq<nat>, b: nat)
    requires WellFormed(g) && b < |g.blocks| == |ids| && (g.blocks[b].term.Ret? || g.blocks[b].term.Unreachable?)
    ensures Matches(ids, m, Leave(g, b, m.s), ExecAll(F, m, [Return]))
  {
    ExecOne(F, m, Return);
  }

  // ---- the whole body

  ghost predicate Closed(g: Graph, reachable: set<nat>) {
    && 0 in reachable
    && (forall b :: b in reachable ==> b < |g.blocks| && Succs(g.blocks[b].term) <= reachable)
  }

  ghost predicate DistinctIds(ids: seq<nat>) {
    forall i, j :: 0 <= i < j < |ids| ==> ids[i] != ids[j]
  }

  // every reachable block is found under its id, and its case is one step of the graph
  ghost predicate Covers(g: Graph, ids: seq<nat>, blocks: set<nat>, cases: seq<Case>)
    requires WellFormed(g) && |g.blocks| == |ids|
  {
    forall b :: b in blocks && b < |g.blocks| ==> CaseOf(g, ids, b, cases)
  }

  ghost predicate CaseOf(g: Graph, ids: seq<nat>, b: nat, cases: seq<Case>)
    requires WellFormed(g) && b < |g.blocks| == |ids|
  {
    var k := FindCase(cases, ids[b]);
    k < |cases| && Simulates(g, ids, b, cases[k].body)
  }

  lemma {:induction false} FindCaseAppend(cases: seq<Case>, c: Case, id: nat)
    ensures FindCase(cases, id) <= |cases|
    ensures FindCase(cases, id) < |cases| ==>
      cases[FindCase(cases, id)].id == id && FindCase(cases + [c], id) == FindCase(cases, id)
    ensures FindCase(cases, id) == |cases| ==>
      FindCase(cases + [c], id) == if c.id == id then |cases| else |cases| + 1
  {
    if cases != [] {
      assert (cases + [c])[1..] == cases[1..] + [c];
      FindCaseAppend(cases[1..], c, id);
    } else {
      assert cases + [c] == [c] && [c][1..] == [];
    }
  }

  // the `for (;;) switch (__bb)` body: a case per reachable block, in block order
  method EmitBody(g: Graph, ids: seq<nat>, reachable: set<nat>) returns (ok: bool, cases: seq<Case>)
    requires WellFormed(g) && |g.blocks| == |ids| && DistinctIds(ids) && Closed(g, reachable)
    ensures ok <==> forall b :: b in reachable ==> b < |g.blocks| && !g.blocks[b].term.OtherTerm?
    ensures ok ==> Covers(g, ids, reachable, cases)
    ensures ok ==> forall F: Meaning, s: State, temps: Env, n: nat ::
      Agree(ids, GraphRun(F, g, At(0, s), n), Turns(F, cases, Falls(Machine(s, temps, ids[0])), n))
  {
    cases := [];
    assert forall i :: 0 <= i < |ids| ==> FindCase(cases, ids[i]) == 0;
    hide Simulates, WellFormed, FindCase, GraphRun, Turns;
    for b := 0 to |g.blocks|
      invariant forall a :: a in reachable && a < b ==> CaseOf(g, ids, a, cases) && !g.blocks[a].term.OtherTerm?
      invariant forall i :: b <= i < |ids| ==> FindCase(cases, ids[i]) == |cases|
    {
      if b in reachable {
        var emitted, c := EmitCase(g, ids, b);
        if !emitted { return false, []; }
        forall i | 0 <= i < |ids|
          ensures i < b && i in reachable ==> CaseOf(g, ids, i, cases + [c])
          ensures i > b ==> FindCase(cases + [c], ids[i]) == |cases| + 1
        {
          FindCaseAppend(cases, c, ids[i]);
        }
        FindCaseAppend(cases, c, ids[b]);
        cases := cases + [c];
      }
    }
    ok := true;
    forall F: Meaning, s: State, temps: Env, n: nat
      ensures Agree(ids, GraphRun(F, g, At(0, s), n), Turns(F, cases, Falls(Machine(s, temps, ids[0])), n))
    {
      Simulation(F, g, ids, reachable, cases, s, temps, n);
    }
  }

  // the machine is where the graph is
  ghost predicate Agree(ids: seq<nat>, c: Config, o: Outcome) {
    match c
    case At(t, s) => !o.Returns? && o.m.s == s && t < |ids| && o.m.bb == ids[t]
    case Done(s) => o.Returns? && o.m.s == s
  }

  // on every run of any length the loop is where the graph is: same block, same variables, same memory, and the
  // program returns on the same turn as the graph does
  lemma {:induction false} Simulation(F: Meaning, g: Graph, ids: seq<nat>, reachable: set<nat>, cases: seq<Case>,
      s: State, temps: Env, n: nat)
    requires WellFormed(g) && |g.blocks| == |ids| && Closed(g, reachable) && Covers(g, ids, reachable, cases)
    ensures Agree(ids, GraphRun(F, g, At(0, s), n), Turns(F, cases, Falls(Machine(s, temps, ids[0])), n))
    ensures var c := GraphRun(F, g, At(0, s), n); c.At? ==> c.block in reachable
  {
    hide WellFormed, FindCase, ExecAll, Simulates;
    if n > 0 {
      Simulation(F, g, ids, reachable, cases, s, temps, n - 1);
      var c, o := GraphRun(F, g, At(0, s), n - 1), Turns(F, cases, Falls(Machine(s, temps, ids[0])), n - 1);
      if c.At? {
        assert CaseOf(g, ids, c.block, cases);
        StepSimulated(F, g, ids, c.block, cases[FindCase(cases, ids[c.block])].body, o.m);
      }
    }
  }

  lemma StepSimulated(F: Meaning, g: Graph, ids: seq<nat>, b: nat, body: seq<Stmt>, m: Machine)
    requires WellFormed(g) && b < |g.blocks| == |ids| && Simulates(g, ids, b, body)
    ensures Matches(ids, m, GraphStep(F, g, At(b, m.s)), ExecAll(F, m, body))
  {
    hide WellFormed, ExecAll;
  }
}
