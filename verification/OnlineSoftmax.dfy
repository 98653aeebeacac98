// Online softmax: a sum kept beside a running maximum and rescaled whenever the maximum grows. Seen alone the sum is a
// linear tuple whose maps need not commute; seen together the pair does not depend on the order of the iterations.
module OnlineSoftmax {
  import opened Options
  import opened RecurrenceExpr
  import opened Recurrence
  import opened LinearTuple

  // ---- the pair of recurrences

  // the header phi of the maximum, the one of the sum, the loop's other header phis, and the two next values
  datatype Loop = Loop(mid: nat, lid: nat, others: set<nat>, nextM: Expr, nextL: Expr) {
    function MaxCtx(): Ctx {
      Ctx(mid, others + {lid})
    }

    function SumCtx(): Ctx {
      Ctx(lid, others + {mid})
    }

    // reads no header phi
    predicate Clear(e: Expr) {
      !Contains(e, mid) && !Contains(e, lid) && forall s :: s in others ==> !Contains(e, s)
    }
  }

  // exp(a - b)
  function Exponent(e: Expr): Option<(Expr, Expr)> {
    var u := Unwrap(e);
    if u.Call? && u.callee.ExpName? && |u.args| == 1 then
      var d := Unwrap(u.args[0]);
      if d.Op? && d.op.FSub? && |d.args| == 2 then Some((d.args[0], d.args[1])) else None
    else None
  }

  // exp(x - m') for the new maximum m'
  predicate ExpBelow(e: Expr, m: Expr) {
    Exponent(e).Some? && Unwrap(Exponent(e).value.1) == Unwrap(m)
  }

  // the score x and the value v of a shift exp(x - m') or exp(x - m') * v
  function Weight(shift: Expr, m: Expr): Option<(Expr, Option<Expr>)> {
    var u := Unwrap(shift);
    if ExpBelow(shift, m) then Some((Exponent(shift).value.0, None))
    else if u.Op? && u.op.FMul? && |u.args| == 2 then
      if ExpBelow(u.args[0], m) then Some((Exponent(u.args[0]).value.0, Some(u.args[1])))
      else if ExpBelow(u.args[1], m) then Some((Exponent(u.args[1]).value.0, Some(u.args[0])))
      else None
    else None
  }

  // m' a maximum recurrence, l' = exp(m - m') * l + exp(x - m') * v
  predicate Rescales(p: Loop) {
    && p.mid != p.lid
    && ClassifyOne(p.MaxCtx(), p.nextM).kind.Max?
    && !Contains(p.nextM, p.lid) && (forall s :: s in p.others ==> !Contains(p.nextM, s))
    && Linear(p.SumCtx(), p.nextL).Some?
    && var (scale, shift) := Linear(p.SumCtx(), p.nextL).value;
    && ExpBelow(scale, p.nextM) && p.MaxCtx().IsPhi(Exponent(scale).value.0)
    && Weight(shift, p.nextM).Some?
    && p.Clear(Weight(shift, p.nextM).value.0)
    && (Weight(shift, p.nextM).value.1.Some? ==> p.Clear(Weight(shift, p.nextM).value.1.value))
  }

  // ---- the classifier grants the reorder

  lemma UnwrapContains(e: Expr, s: nat)
    ensures Contains(e, s) <==> Contains(Unwrap(e), s)
  {
  }

  lemma ScaleReads(p: Loop, scale: Expr)
    requires ExpBelow(scale, p.nextM) && p.MaxCtx().IsPhi(Exponent(scale).value.0)
    ensures Contains(scale, p.mid) && ExpOfSibling(p.SumCtx(), scale)
  {
    var u := Unwrap(scale);
    var d := Unwrap(u.args[0]);
    UnwrapContains(d.args[0], p.mid);
    assert Contains(d.args[0], p.mid);
    assert Contains(d, p.mid);
    UnwrapContains(u.args[0], p.mid);
    assert Contains(u, p.mid);
    UnwrapContains(scale, p.mid);
    assert p.mid in p.SumCtx().siblings;
    assert ExpOfSibling(p.SumCtx(), u);
  }

  lemma LinearContains(c: Ctx, n: Expr, s: nat)
    requires Linear(c, n).Some? && Contains(Linear(c, n).value.0, s)
    ensures Contains(Unwrap(n), s)
  {
    var u := Unwrap(n);
    if u.Op? {
      FactorContains(c, u.args[0], s);
      FactorContains(c, u.args[1], s);
    }
  }

  lemma FactorContains(c: Ctx, e: Expr, s: nat)
    ensures Factor(c, e).Some? && Contains(Factor(c, e).value, s) ==> Contains(e, s)
  {
    UnwrapContains(e, s);
  }

  lemma FactorEndsChain(c: Ctx, e: Expr, terms: nat, guard: nat)
    requires Factor(c, e).Some?
    ensures Chain(c, e, terms, guard) == None
    ensures !c.Free(e)
  {
    var m := Unwrap(e);
    var i := if c.IsPhi(m.args[0]) && c.Free(m.args[1]) then 0 else 1;
    UnwrapContains(m.args[i], c.pid);
    UnwrapContains(e, c.pid);
    assert Contains(m, c.pid);
    hide Contains;
    if guard > 0 {
      if e.Poly? {
        assert !OnePhi(e.terms, c.pid);
      } else {
        assert Rest(c, e) == None;
      }
    }
  }

  lemma LinearEndsChain(c: Ctx, n: Expr, guard: nat)
    requires Linear(c, n).Some? && n == Unwrap(n) && guard > 0
    ensures Chain(c, n, 0, guard) == None && BinaryAlgebra(c, n) == None
  {
    if n.Call? {
      UnwrapContains(n.args[0], c.pid);
      UnwrapContains(n.args[1], c.pid);
      hide Contains;
      assert !c.Free(n.args[0]) || !c.Free(n.args[1]);
      assert Rest(c, n) == None;
    } else {
      hide Contains;
      var k := if Factor(c, n.args[0]).Some? && c.Free(n.args[1]) then 0 else 1;
      FactorEndsChain(c, n.args[k], 1, guard - 1);
      assert Rest(c, n) == Some((n.args[k], 1));
    }
  }

  lemma TupleReached(c: Ctx, next: Expr)
    requires Linear(c, next).Some? && ReadsSibling(c, Unwrap(next))
    ensures ClassifyOne(c, next) == ClassifyTuple(c, Unwrap(next))
  {
    LinearEndsChain(c, Unwrap(next), MAX_CHAIN);
    hide Contains, Chain, BinaryAlgebra, ReadsSibling, Factor, ClassifyTuple, OnlyConstants;
  }

  lemma PairGranted(p: Loop)
    requires Rescales(p)
    ensures ClassifyOne(p.SumCtx(), p.nextL) == Classified(Tuple, 0, false, Permissions(true, true, false, true))
    ensures ClassifyOne(p.MaxCtx(), p.nextM).permits.reorder
  {
    hide ClassifyOne, Contains, ExpOfSibling, Exponent, Weight, ExpBelow;
    var c, n := p.SumCtx(), Unwrap(p.nextL);
    ScaleReads(p, Linear(c, n).value.0);
    LinearContains(c, n, p.mid);
    TupleReached(c, p.nextL);
    MaxGrant(p.MaxCtx(), p.nextM);
  }

  lemma MaxGrant(c: Ctx, next: Expr)
    requires ClassifyOne(c, next).kind.Max?
    ensures ClassifyOne(c, next).permits.reorder
  {
    hide ClassifyOne;
    PermittedFolds(c, next);
  }

  // the pair of a row's running maximum and sum
  lemma RowRescales(p: Loop, shift: Expr)
    requires p.nextM == Call(MaxName, [Sym(0), Sym(2)]) && shift == Call(ExpName, [Op(FSub, [Sym(2), p.nextM])])
    requires p == Loop(0, 1, {}, p.nextM, Call(FmaName, [Sym(1), Call(ExpName, [Op(FSub, [Sym(0), p.nextM])]), shift]))
    ensures Rescales(p)
  {
    var scale := Call(ExpName, [Op(FSub, [Sym(0), p.nextM])]);
    assert !Contains(p.nextM, 1);
    ExpClear(Sym(0), p.nextM);
    ExpClear(Sym(2), p.nextM);
    RowMaximum(p.nextM);
    assert p.Clear(Sym(2));
    RowLinear(p.SumCtx(), scale, shift);
    assert Weight(shift, p.nextM) == Some((Sym(2), None));
    hide Contains, ClassifyOne, Exponent, Linear, Weight, Loop.Clear;
  }

  lemma RowLinear(c: Ctx, scale: Expr, shift: Expr)
    requires c.pid == 1 && c.Free(scale) && c.Free(shift)
    ensures Linear(c, Call(FmaName, [Sym(1), scale, shift])) == Some((scale, shift))
  {
  }

  lemma ExpClear(a: Expr, b: Expr)
    requires !Contains(a, 1) && !Contains(b, 1)
    ensures var e := Call(ExpName, [Op(FSub, [a, b])]); !Contains(e, 1) && Exponent(e) == Some((a, b))
  {
    var d := Op(FSub, [a, b]);
    assert !Contains(d, 1);
  }

  lemma RowMaximum(m: Expr)
    requires m == Call(MaxName, [Sym(0), Sym(2)])
    ensures ClassifyOne(Ctx(0, {1}), m).kind.Max?
  {
    assert !Contains(m.args[1], 0);
    assert BinaryAlgebra(Ctx(0, {1}), m) == Some(Max);
    hide Contains, BinaryAlgebra, Chain;
  }

  // ---- the joint fold

  ghost function Exp(w: World, a: real): real {
    AsNum(w(4, [Num(a)]))
  }

  ghost predicate Exponential(w: World) {
    Exp(w, 0.0) == 1.0 && forall a, b :: Exp(w, a + b) == Mul(Exp(w, a), Exp(w, b))
  }

  ghost function Both(p: Loop, env: Env, s: (Word, Word)): Env {
    With(With(env, p.mid, s.0), p.lid, s.1)
  }

  // both next values are computed from the old pair
  ghost function JointStep(p: Loop, w: World, env: Env, s: (Word, Word)): (Word, Word) {
    (Eval(w, Both(p, env, s), p.nextM), Eval(w, Both(p, env, s), p.nextL))
  }

  ghost function JointRun(p: Loop, w: World, envs: nat -> Env, s: (Word, Word), order: seq<nat>): (Word, Word) {
    if order == [] then s else JointStep(p, w, envs(order[|order| - 1]), JointRun(p, w, envs, s, order[..|order| - 1]))
  }

  ghost function Score(p: Loop, w: World, env: Env): real
    requires Rescales(p)
  {
    NumAt(w, env, Weight(Linear(p.SumCtx(), p.nextL).value.1, p.nextM).value.0)
  }

  ghost function Worth(p: Loop, w: World, env: Env): real
    requires Rescales(p)
  {
    match Weight(Linear(p.SumCtx(), p.nextL).value.1, p.nextM).value.1
    case None => 1.0
    case Some(v) => NumAt(w, env, v)
  }

  // the sum of exp(x_i - top) * v_i over a list of iterations
  ghost function Weighed(p: Loop, w: World, envs: nat -> Env, top: real, order: seq<nat>): real
    requires Rescales(p)
  {
    if order == [] then 0.0
    else
      var env := envs(order[|order| - 1]);
      Weighed(p, w, envs, top, order[..|order| - 1]) + Mul(Exp(w, Score(p, w, env) - top), Worth(p, w, env))
  }

  lemma ClearEval(p: Loop, w: World, env: Env, s: (Word, Word), e: Expr)
    ensures !Contains(e, p.mid) && !Contains(e, p.lid) ==> Eval(w, Both(p, env, s), e) == Eval(w, env, e)
    ensures !Contains(e, p.lid) ==> Eval(w, Both(p, env, s), e) == Eval(w, With(env, p.mid, s.0), e)
  {
    hide Eval, Contains, With;
    if !Contains(e, p.lid) {
      WithAgrees(With(env, p.mid, s.0), p.lid, s.1, s.1);
      FreeEval(w, With(env, p.mid, s.0), Both(p, env, s), p.lid, e);
      if !Contains(e, p.mid) {
        WithAgrees(env, p.mid, s.0, s.0);
        FreeEval(w, env, With(env, p.mid, s.0), p.mid, e);
      }
    }
  }

  lemma ExponentEval(w: World, env: Env, e: Expr)
    requires Exponent(e).Some?
    ensures var (a, b) := Exponent(e).value; NumAt(w, env, e) == Exp(w, NumAt(w, env, a) - NumAt(w, env, b))
  {
    var u := Unwrap(e);
    var d := Unwrap(u.args[0]);
    UnwrapEval(w, env, e);
    UnwrapEval(w, env, u.args[0]);
    var vs := EvalAll(w, env, u.args);
    assert vs == [Eval(w, env, u.args[0])];
    assert Eval(w, env, u) == w(4, vs);
    var ds := EvalAll(w, env, d.args);
    assert ds[0] == Eval(w, env, d.args[0]) && ds[1] == Eval(w, env, d.args[1]);
    assert Eval(w, env, d) == Num(AsNum(ds[0]) - AsNum(ds[1]));
  }

  lemma BelowEval(w: World, env: Env, e: Expr, m: Expr)
    requires ExpBelow(e, m)
    ensures NumAt(w, env, e) == Exp(w, NumAt(w, env, Exponent(e).value.0) - NumAt(w, env, m))
  {
    ExponentEval(w, env, e);
    UnwrapEval(w, env, m);
    UnwrapEval(w, env, Exponent(e).value.1);
    hide Eval, Exp;
  }

  lemma WeightEval(w: World, env: Env, shift: Expr, m: Expr)
    requires Weight(shift, m).Some?
    ensures var (x, v) := Weight(shift, m).value;
      NumAt(w, env, shift) == Mul(Exp(w, NumAt(w, env, x) - NumAt(w, env, m)),
        if v.Some? then NumAt(w, env, v.value) else 1.0)
  {
    var u := Unwrap(shift);
    UnwrapEval(w, env, shift);
    hide Eval, Exp, Exponent;
    if ExpBelow(shift, m) {
      BelowEval(w, env, shift, m);
      Times(1.0, NumAt(w, env, shift), 0.0);
      MulCommutes(1.0, NumAt(w, env, shift));
    } else {
      Binary(w, env, u.op, u.args);
      MulCommutes(NumAt(w, env, u.args[0]), NumAt(w, env, u.args[1]));
      BelowEval(w, env, if ExpBelow(u.args[0], m) then u.args[0] else u.args[1], m);
    }
  }

  // the scale and the shift in the pair's environment
  lemma ScaleAt(p: Loop, w: World, e: Env)
    requires Rescales(p)
    ensures NumAt(w, e, Linear(p.SumCtx(), p.nextL).value.0) == Exp(w, AsNum(e(p.mid)) - NumAt(w, e, p.nextM))
  {
    var scale := Linear(p.SumCtx(), p.nextL).value.0;
    hide Linear, Contains, Eval, Exp, Exponent, Weight, ClassifyOne, Numeral, AsNum;
    BelowEval(w, e, scale, p.nextM);
    PhiEval(p.MaxCtx(), w, e, Exponent(scale).value.0);
  }

  lemma ShiftAt(p: Loop, w: World, env: Env, s: (Word, Word))
    requires Rescales(p)
    ensures var e := Both(p, env, s);
      NumAt(w, e, Linear(p.SumCtx(), p.nextL).value.1) == Mul(Exp(w, Score(p, w, env) - NumAt(w, e, p.nextM)),
        Worth(p, w, env))
  {
    var e, shift := Both(p, env, s), Linear(p.SumCtx(), p.nextL).value.1;
    var (x, v) := Weight(shift, p.nextM).value;
    hide Linear, Contains, Eval, Exp, Mul, Exponent, Weight, ClassifyOne, Numeral, AsNum, Both, ExpBelow;
    WeightEval(w, e, shift, p.nextM);
    ClearEval(p, w, env, s, x);
    if v.Some? { ClearEval(p, w, env, s, v.value); }
  }

  lemma Pieces(p: Loop)
    requires Rescales(p)
    ensures p.mid != p.lid && !Contains(p.nextM, p.lid) && Linear(p.SumCtx(), p.nextL).Some?
  {
  }

  // one iteration of the pair
  lemma StepIs(p: Loop, w: World, env: Env, s: (Word, Word))
    requires Rescales(p)
    ensures var (m, l) := JointStep(p, w, env, s);
      && m == Step(p.MaxCtx(), w, p.nextM, s.0, env)
      && AsNum(l) == Mul(Exp(w, AsNum(s.0) - AsNum(m)), AsNum(s.1))
        + Mul(Exp(w, Score(p, w, env) - AsNum(m)), Worth(p, w, env))
  {
    hide *;
    JointStepAt(p, w, env, s);
    BothAt(p, env, s);
    LinearAt(p, w, Both(p, env, s));
    ScaleAt(p, w, Both(p, env, s));
    ShiftAt(p, w, env, s);
  }

  lemma BothAt(p: Loop, env: Env, s: (Word, Word))
    requires Rescales(p)
    ensures Both(p, env, s)(p.lid) == s.1 && Both(p, env, s)(p.mid) == s.0
  {
  }

  lemma LinearAt(p: Loop, w: World, e: Env)
    requires Rescales(p)
    ensures var f := Linear(p.SumCtx(), p.nextL).value;
      NumAt(w, e, p.nextL) == Mul(NumAt(w, e, f.0), AsNum(e(p.lid))) + NumAt(w, e, f.1)
  {
    Pieces(p);
    hide Rescales, Linear, Contains, Eval, Mul, AsNum;
    LinearSound(p.SumCtx(), w, e, p.nextL);
  }

  lemma JointStepAt(p: Loop, w: World, env: Env, s: (Word, Word))
    requires Rescales(p)
    ensures var r, e := JointStep(p, w, env, s), Both(p, env, s);
      && r.0 == Step(p.MaxCtx(), w, p.nextM, s.0, env)
      && AsNum(r.0) == NumAt(w, e, p.nextM) && AsNum(r.1) == NumAt(w, e, p.nextL)
  {
    Pieces(p);
    hide Rescales, Linear, Contains, Eval, With, Both, AsNum;
    ClearEval(p, w, env, s, p.nextM);
  }

  // moving the reference from one maximum to the next
  lemma {:induction false} Rescale(p: Loop, w: World, envs: nat -> Env, low: real, top: real, order: seq<nat>)
    requires Rescales(p) && Exponential(w)
    ensures Mul(Exp(w, low - top), Weighed(p, w, envs, low, order)) == Weighed(p, w, envs, top, order)
    decreases |order|
  {
    hide Rescales, Score, Worth, Exp, Mul, Exponential;
    var e := Exp(w, low - top);
    if order == [] {
      Times(e, 0.0, 0.0);
    } else {
      var n := |order| - 1;
      var env := envs(order[n]);
      var x, v := Score(p, w, env), Worth(p, w, env);
      Rescale(p, w, envs, low, top, order[..n]);
      ExpSteps(w, x, low, top);
      Times(e, Weighed(p, w, envs, low, order[..n]), Mul(Exp(w, x - low), v));
      Times(e, Exp(w, x - low), v);
    }
  }

  lemma ExpSteps(w: World, x: real, low: real, top: real)
    requires Exponential(w)
    ensures Mul(Exp(w, low - top), Exp(w, x - low)) == Exp(w, x - top)
  {
    var a, b := low - top, x - low;
    assert Exp(w, a + b) == Mul(Exp(w, a), Exp(w, b));
    assert a + b == x - top;
  }

  // the maximum is the run of its own recurrence, and the sum is the weighed sum below the final maximum
  lemma {:induction false} JointRunIs(p: Loop, w: World, envs: nat -> Env, s: (Word, Word), order: seq<nat>)
    requires Rescales(p) && Exponential(w)
    ensures var (m, l) := JointRun(p, w, envs, s, order);
      && m == Run(p.MaxCtx(), w, p.nextM, envs, s.0, order)
      && AsNum(l) == Mul(Exp(w, AsNum(s.0) - AsNum(m)), AsNum(s.1)) + Weighed(p, w, envs, AsNum(m), order)
    decreases |order|
  {
    hide Rescales, Score, Worth, Exp, Mul, Exponential, AsNum, Step, JointStep;
    if order == [] {
      assert Exp(w, AsNum(s.0) - AsNum(s.0)) == 1.0 by { ExpOfZero(w, AsNum(s.0)); }
      Times(1.0, AsNum(s.1), 0.0);
      Times(AsNum(s.1), 0.0, 0.0);
    } else {
      var n := |order| - 1;
      var env := envs(order[n]);
      var t := JointRun(p, w, envs, s, order[..n]);
      var low, top := AsNum(t.0), AsNum(JointStep(p, w, env, t).0);
      JointRunIs(p, w, envs, s, order[..n]);
      StepIs(p, w, env, t);
      Times(Exp(w, low - top), Mul(Exp(w, AsNum(s.0) - low), AsNum(s.1)), Weighed(p, w, envs, low, order[..n]));
      Times(Exp(w, low - top), Exp(w, AsNum(s.0) - low), AsNum(s.1));
      ExpSteps(w, AsNum(s.0), low, top);
      Rescale(p, w, envs, low, top, order[..n]);
    }
  }

  lemma ExpOfZero(w: World, a: real)
    requires Exponential(w)
    ensures Exp(w, a - a) == 1.0
  {
    assert a - a == 0.0;
  }

  // ---- order and partition

  lemma {:induction false} WeighedConcat(p: Loop, w: World, envs: nat -> Env, top: real, a: seq<nat>, b: seq<nat>)
    requires Rescales(p)
    ensures Weighed(p, w, envs, top, a + b) == Weighed(p, w, envs, top, a) + Weighed(p, w, envs, top, b)
    decreases |b|
  {
    hide Rescales, Score, Worth, Exp, Mul;
    if b == [] {
      assert a + b == a;
    } else {
      var n := |b| - 1;
      assert (a + b)[..|a + b| - 1] == a + b[..n] && (a + b)[|a + b| - 1] == b[n];
      WeighedConcat(p, w, envs, top, a, b[..n]);
    }
  }

  lemma {:induction false} WeighedPermutes(p: Loop, w: World, envs: nat -> Env, top: real, a: seq<nat>, b: seq<nat>)
    requires Rescales(p) && multiset(a) == multiset(b)
    ensures Weighed(p, w, envs, top, a) == Weighed(p, w, envs, top, b)
    decreases |a|
  {
    hide Rescales, Score, Worth, Exp, Mul;
    if a == [] {
      assert |multiset(b)| == 0;
    } else {
      var n := |a| - 1;
      var k := FindLast(a, b);
      var c, d := b[..k], b[k + 1..];
      WeighedPermutes(p, w, envs, top, a[..n], c + d);
      WeighedConcat(p, w, envs, top, c + [b[k]], d);
      WeighedConcat(p, w, envs, top, c, [b[k]]);
      WeighedConcat(p, w, envs, top, c, d);
      assert [b[k]][..0] == [];
      assert a[..n] + [a[n]] == a;
      WeighedConcat(p, w, envs, top, a[..n], [a[n]]);
    }
  }

  // the pair does not depend on the order of the iterations
  lemma JointReorder(p: Loop, w: World, envs: nat -> Env, s: (Word, Word), a: seq<nat>, b: seq<nat>)
    requires Rescales(p) && Exponential(w) && multiset(a) == multiset(b)
    ensures ClassifyOne(p.SumCtx(), p.nextL).permits.reorder
    ensures var u, v := JointRun(p, w, envs, s, a), JointRun(p, w, envs, s, b);
      AsNum(u.0) == AsNum(v.0) && AsNum(u.1) == AsNum(v.1)
  {
    PairGranted(p);
    assert ClassifyOne(p.MaxCtx(), p.nextM).kind.Max?;
    hide Rescales, Exponential, Run, ClassifyOne, JointRun, Weighed, Exp, Mul, Numeral;
    JointRunIs(p, w, envs, s, a);
    JointRunIs(p, w, envs, s, b);
    ReorderPermitted(p.MaxCtx(), w, p.nextM, envs, s.0, a, b);
    WeighedPermutes(p, w, envs, AsNum(JointRun(p, w, envs, s, a).0), a, b);
  }

  lemma MaxOfParts(c: Ctx, w: World, next: Expr, envs: nat -> Env, x: Word, a: seq<nat>, b: seq<nat>)
    requires ClassifyOne(c, next).kind.Max?
    ensures AsNum(Run(c, w, next, envs, x, a + b)) == RMax(AsNum(Run(c, w, next, envs, x, a)),
      AsNum(Run(c, w, next, envs, x, b)))
  {
    hide Run, ClassifyOne, Parts, Numeral;
    RunIsTotal(c, w, next, envs, x, a);
    RunIsTotal(c, w, next, envs, x, b);
    RunIsTotal(c, w, next, envs, x, a + b);
    TotalConcat(Max, Parts(c, w, next, envs), a, b);
    hide Total;
  }

  lemma Spread(k: real, f: real, l: real, sum: real)
    ensures Mul(k, Mul(f, l) + sum) == Mul(Mul(k, f), l) + Mul(k, sum)
  {
    hide Mul;
    Times(k, Mul(f, l), sum);
    Times(k, f, l);
  }

  // a folded sum brought under another maximum
  lemma BroughtTo(p: Loop, w: World, envs: nat -> Env, s: (Word, Word), order: seq<nat>, top: real)
    requires Rescales(p) && Exponential(w)
    ensures var u := JointRun(p, w, envs, s, order);
      Mul(Exp(w, AsNum(u.0) - top), AsNum(u.1)) == Mul(Exp(w, AsNum(s.0) - top), AsNum(s.1))
        + Weighed(p, w, envs, top, order)
  {
    hide *;
    JointRunIs(p, w, envs, s, order);
    var u, x := JointRun(p, w, envs, s, order), AsNum(s.0);
    var m := AsNum(u.0);
    var k, f, sum := Exp(w, m - top), Exp(w, x - m), Weighed(p, w, envs, m, order);
    Rescale(p, w, envs, m, top, order);
    ExpSteps(w, x, m, top);
    Spread(k, f, AsNum(s.1), sum);
  }

  lemma PartMaximum(p: Loop, w: World, envs: nat -> Env, s: (Word, Word), l: Word, a: seq<nat>, b: seq<nat>)
    requires Rescales(p) && Exponential(w)
    ensures AsNum(JointRun(p, w, envs, s, a + b).0)
      == RMax(AsNum(JointRun(p, w, envs, s, a).0), AsNum(JointRun(p, w, envs, (s.0, l), b).0))
  {
    assert ClassifyOne(p.MaxCtx(), p.nextM).kind.Max?;
    hide *;
    JointRunIs(p, w, envs, s, a);
    JointRunIs(p, w, envs, (s.0, l), b);
    JointRunIs(p, w, envs, s, a + b);
    MaxOfParts(p.MaxCtx(), w, p.nextM, envs, s.0, a, b);
  }

  lemma PartSum(p: Loop, w: World, envs: nat -> Env, s: (Word, Word), a: seq<nat>, b: seq<nat>)
    requires Rescales(p) && Exponential(w)
    ensures var r := JointRun(p, w, envs, s, a + b);
      AsNum(r.1) == Mul(Exp(w, AsNum(s.0) - AsNum(r.0)), AsNum(s.1)) + Weighed(p, w, envs, AsNum(r.0), a)
        + Weighed(p, w, envs, AsNum(r.0), b)
  {
    hide *;
    JointRunIs(p, w, envs, s, a + b);
    WeighedConcat(p, w, envs, AsNum(JointRun(p, w, envs, s, a + b).0), a, b);
  }

  lemma FromNothing(p: Loop, w: World, envs: nat -> Env, m: Word, order: seq<nat>, top: real)
    requires Rescales(p) && Exponential(w)
    ensures var u := JointRun(p, w, envs, (m, Num(0.0)), order);
      Mul(Exp(w, AsNum(u.0) - top), AsNum(u.1)) == Weighed(p, w, envs, top, order)
  {
    NumOf(Num(0.0));
    hide *;
    BroughtTo(p, w, envs, (m, Num(0.0)), order, top);
    Times(Exp(w, AsNum(m) - top), 0.0, 0.0);
  }

  // two parts folded on their own, the second with an empty sum, and brought under the larger maximum
  lemma JointPartition(p: Loop, w: World, envs: nat -> Env, s: (Word, Word), a: seq<nat>, b: seq<nat>)
    requires Rescales(p) && Exponential(w)
    ensures var u, v, r := JointRun(p, w, envs, s, a), JointRun(p, w, envs, (s.0, Num(0.0)), b),
      JointRun(p, w, envs, s, a + b);
      && AsNum(r.0) == RMax(AsNum(u.0), AsNum(v.0))
      && AsNum(r.1) == Mul(Exp(w, AsNum(u.0) - AsNum(r.0)), AsNum(u.1))
        + Mul(Exp(w, AsNum(v.0) - AsNum(r.0)), AsNum(v.1))
  {
    hide *;
    var m := AsNum(JointRun(p, w, envs, s, a + b).0);
    PartMaximum(p, w, envs, s, Num(0.0), a, b);
    PartSum(p, w, envs, s, a, b);
    BroughtTo(p, w, envs, s, a, m);
    FromNothing(p, w, envs, s.0, b, m);
  }

  // ---- updates under a predicate

  // both updates under one predicate
  function Under(p: Loop, g: Expr): Loop {
    Loop(p.mid, p.lid, p.others, Ite(g, p.nextM, Sym(p.mid)), Ite(g, p.nextL, Sym(p.lid)))
  }

  ghost predicate On(w: World, env: Env, g: Expr) {
    NumAt(w, env, g) != 0.0
  }

  // the iterations whose predicate is on
  ghost function Active(w: World, g: Expr, envs: nat -> Env, order: seq<nat>): seq<nat> {
    if order == [] then []
    else
      var i := order[|order| - 1];
      var before := Active(w, g, envs, order[..|order| - 1]);
      if On(w, envs(i), g) then before + [i] else before
  }

  lemma GuardedStep(p: Loop, g: Expr, w: World, env: Env, s: (Word, Word))
    requires p.mid != p.lid && p.Clear(g)
    ensures JointStep(Under(p, g), w, env, s) == if On(w, env, g) then JointStep(p, w, env, s) else s
  {
    var q, e := Under(p, g), Both(p, env, s);
    assert Both(q, env, s) == e;
    assert e(p.lid) == s.1 && e(p.mid) == s.0;
    ClearEval(p, w, env, s, g);
    IteChooses(w, e, q.nextM);
    IteChooses(w, e, q.nextL);
    assert Eval(w, e, Sym(p.mid)) == e(p.mid) && Eval(w, e, Sym(p.lid)) == e(p.lid);
    hide Contains, AsNum, With;
  }

  lemma JointRunNext(p: Loop, w: World, envs: nat -> Env, s: (Word, Word), before: seq<nat>, i: nat)
    ensures JointRun(p, w, envs, s, before + [i]) == JointStep(p, w, envs(i), JointRun(p, w, envs, s, before))
  {
    hide JointStep;
    assert (before + [i])[..|before|] == before;
  }

  // an iteration whose predicate is off leaves the pair as it was
  lemma {:induction false} GuardedRun(p: Loop, g: Expr, w: World, envs: nat -> Env, s: (Word, Word), order: seq<nat>)
    requires p.mid != p.lid && p.Clear(g)
    ensures JointRun(Under(p, g), w, envs, s, order) == JointRun(p, w, envs, s, Active(w, g, envs, order))
    decreases |order|
  {
    hide JointStep, On, Loop.Clear, Under;
    if order != [] {
      var n := |order| - 1;
      var i, before := order[n], Active(w, g, envs, order[..n]);
      GuardedRun(p, g, w, envs, s, order[..n]);
      GuardedStep(p, g, w, envs(i), JointRun(p, w, envs, s, before));
      JointRunNext(p, w, envs, s, before, i);
    }
  }

  ghost function Count(w: World, g: Expr, envs: nat -> Env, order: seq<nat>, i: nat): nat {
    if On(w, envs(i), g) then multiset(order)[i] else 0
  }

  lemma {:induction false} ActiveCount(w: World, g: Expr, envs: nat -> Env, order: seq<nat>, i: nat)
    ensures multiset(Active(w, g, envs, order))[i] == Count(w, g, envs, order, i)
    decreases |order|
  {
    hide On;
    if order != [] {
      var n := |order| - 1;
      ActiveCount(w, g, envs, order[..n], i);
      assert order == order[..n] + [order[n]];
    }
  }

  lemma ActivePermutes(w: World, g: Expr, envs: nat -> Env, a: seq<nat>, b: seq<nat>)
    requires multiset(a) == multiset(b)
    ensures multiset(Active(w, g, envs, a)) == multiset(Active(w, g, envs, b))
  {
    hide Active, On;
    forall i ensures multiset(Active(w, g, envs, a))[i] == multiset(Active(w, g, envs, b))[i] {
      ActiveCount(w, g, envs, a, i);
      ActiveCount(w, g, envs, b, i);
    }
  }

  lemma GuardedGrant(p: Loop, g: Expr)
    requires Rescales(p) && p.Clear(g)
    ensures ClassifyOne(p.SumCtx(), Under(p, g).nextL).permits == Permissions(true, true, false, true)
    ensures ClassifyOne(p.SumCtx(), Under(p, g).nextL).predicated
  {
    PairGranted(p);
    var c, n := p.SumCtx(), Under(p, g).nextL;
    assert c.Free(g);
    assert !c.IsPhi(p.nextL);
    assert ClassifyOne(c, n) == ClassifyOne(c, p.nextL).(predicated := true) by {
      hide Contains, CompareSelect, ClassifyRest, Linear, Rescales;
    }
  }

  // the pair under a predicate does not depend on the order either
  lemma GuardedReorder(p: Loop, g: Expr, w: World, envs: nat -> Env, s: (Word, Word), a: seq<nat>, b: seq<nat>)
    requires Rescales(p) && p.Clear(g) && Exponential(w) && multiset(a) == multiset(b)
    ensures ClassifyOne(p.SumCtx(), Under(p, g).nextL).permits.reorder
    ensures var u, v := JointRun(Under(p, g), w, envs, s, a), JointRun(Under(p, g), w, envs, s, b);
      AsNum(u.0) == AsNum(v.0) && AsNum(u.1) == AsNum(v.1)
  {
    Pieces(p);
    hide *;
    GuardedGrant(p, g);
    GuardedRun(p, g, w, envs, s, a);
    GuardedRun(p, g, w, envs, s, b);
    ActivePermutes(w, g, envs, a, b);
    JointReorder(p, w, envs, s, Active(w, g, envs, a), Active(w, g, envs, b));
  }

  // ---- from minus infinity

  ghost predicate Contributes(p: Loop, w: World, env: Env) {
    Gain(p.MaxCtx(), w, p.nextM, env).Some?
  }

  // a maximum without a predicate of its own takes something in on every iteration
  lemma AlwaysContributes(p: Loop, w: World, env: Env)
    requires Rescales(p) && !ClassifyOne(p.MaxCtx(), p.nextM).predicated
    ensures Contributes(p, w, env)
  {
    assert ClassifyOne(p.MaxCtx(), p.nextM).kind.Max?;
    hide Rescales, CompareSelect, ClassifyRest, Contains, Eval, BinaryAlgebra;
  }

  // what the iteration's maximum is taken with
  ghost function Peak(p: Loop, w: World, env: Env): real {
    var g := Gain(p.MaxCtx(), w, p.nextM, env);
    if g.Some? then AsNum(g.value) else 0.0
  }

  // One iteration on a pair that may still have minus infinity for its maximum: the maximum of minus infinity and x is
  // x, and exp(minus infinity - x) is zero, so that the old sum is dropped.
  ghost function RowStep(p: Loop, g: Expr, w: World, env: Env, s: Option<(Word, Word)>): Option<(Word, Word)>
    requires Rescales(p)
  {
    if !On(w, env, g) then s
    else if s.Some? then Some(JointStep(p, w, env, s.value))
    else Some((Num(Peak(p, w, env)), Num(Mul(Exp(w, Score(p, w, env) - Peak(p, w, env)), Worth(p, w, env)))))
  }

  ghost function RowRun(p: Loop, g: Expr, w: World, envs: nat -> Env, order: seq<nat>): Option<(Word, Word)>
    requires Rescales(p)
  {
    if order == [] then None
    else RowStep(p, g, w, envs(order[|order| - 1]), RowRun(p, g, w, envs, order[..|order| - 1]))
  }

  ghost predicate AllContribute(p: Loop, w: World, envs: nat -> Env, order: seq<nat>) {
    forall i :: i in order ==> Contributes(p, w, envs(i))
  }

  ghost predicate Below(p: Loop, w: World, envs: nat -> Env, order: seq<nat>, low: real) {
    forall i :: i in order ==> low <= Peak(p, w, envs(i))
  }

  predicate SameNumbers(s: (Word, Word), t: (Word, Word)) {
    AsNum(s.0) == AsNum(t.0) && AsNum(s.1) == AsNum(t.1)
  }

  // the maximum of one iteration
  lemma MaximumStep(p: Loop, w: World, env: Env, m: Word)
    requires Rescales(p) && Contributes(p, w, env)
    ensures AsNum(Step(p.MaxCtx(), w, p.nextM, m, env)) == RMax(AsNum(m), Peak(p, w, env))
  {
    assert ClassifyOne(p.MaxCtx(), p.nextM).kind.Max?;
    StepPart(p.MaxCtx(), w, p.nextM, m, env);
    hide Rescales, ClassifyOne, Step, Gain, Numeral;
  }

  lemma StepOfNumbers(p: Loop, w: World, env: Env, s: (Word, Word), t: (Word, Word))
    requires Rescales(p) && Contributes(p, w, env) && SameNumbers(s, t)
    ensures SameNumbers(JointStep(p, w, env, s), JointStep(p, w, env, t))
  {
    hide Rescales, JointStep, AsNum, Step, Contributes, Mul, Exp, Score, Worth, Peak;
    StepIs(p, w, env, s);
    StepIs(p, w, env, t);
    MaximumStep(p, w, env, s.0);
    MaximumStep(p, w, env, t.0);
  }

  lemma FirstPair(p: Loop, g: Expr, w: World, env: Env)
    requires Rescales(p) && On(w, env, g)
    ensures RowStep(p, g, w, env, None).Some?
    ensures var r, m := RowStep(p, g, w, env, None).value, Peak(p, w, env);
      AsNum(r.0) == m && AsNum(r.1) == Mul(Exp(w, Score(p, w, env) - m), Worth(p, w, env))
  {
    hide Rescales, On, Score, Worth, Exp, Mul, Peak;
  }

  lemma RaisedPair(p: Loop, w: World, env: Env, low: real)
    requires Rescales(p) && Contributes(p, w, env) && low <= Peak(p, w, env)
    ensures var r, m := JointStep(p, w, env, (Num(low), Num(0.0))), Peak(p, w, env);
      AsNum(r.0) == m && AsNum(r.1) == Mul(Exp(w, Score(p, w, env) - m), Worth(p, w, env))
  {
    NumOf(Num(low));
    NumOf(Num(0.0));
    hide Rescales, JointStep, AsNum, Step, Contributes, Mul, Exp, Score, Worth, Peak;
    StepIs(p, w, env, (Num(low), Num(0.0)));
    MaximumStep(p, w, env, Num(low));
    Times(Exp(w, low - Peak(p, w, env)), 0.0, 0.0);
  }

  lemma FirstStep(p: Loop, g: Expr, w: World, env: Env, low: real)
    requires Rescales(p) && Contributes(p, w, env) && low <= Peak(p, w, env) && On(w, env, g)
    ensures RowStep(p, g, w, env, None).Some?
    ensures SameNumbers(RowStep(p, g, w, env, None).value, JointStep(p, w, env, (Num(low), Num(0.0))))
  {
    FirstPair(p, g, w, env);
    RaisedPair(p, w, env, low);
    hide Rescales, JointStep, AsNum, Contributes, Mul, Exp, Score, Worth, Peak, On, RowStep;
  }

  ghost predicate SameRow(u: Option<(Word, Word)>, v: (Word, Word), started: bool) {
    (u.Some? <==> started) && (u.Some? ==> SameNumbers(u.value, v))
  }

  // one more iteration
  lemma RowNext(p: Loop, g: Expr, w: World, envs: nat -> Env, u: Option<(Word, Word)>, before: seq<nat>, i: nat,
      low: real)
    requires Rescales(p) && Contributes(p, w, envs(i)) && low <= Peak(p, w, envs(i)) && On(w, envs(i), g)
    requires SameRow(u, JointRun(p, w, envs, (Num(low), Num(0.0)), before), before != [])
    ensures SameRow(RowStep(p, g, w, envs(i), u), JointRun(p, w, envs, (Num(low), Num(0.0)), before + [i]), true)
  {
    hide Rescales, JointStep, SameNumbers, Contributes, Peak, On, Score, Worth, Exp, Mul;
    var v := JointRun(p, w, envs, (Num(low), Num(0.0)), before);
    JointRunNext(p, w, envs, (Num(low), Num(0.0)), before, i);
    if u.None? {
      FirstStep(p, g, w, envs(i), low);
    } else {
      StepOfNumbers(p, w, envs(i), u.value, v);
    }
  }

  // starting from minus infinity is starting low enough with an empty sum
  lemma {:induction false} RowRunIs(p: Loop, g: Expr, w: World, envs: nat -> Env, order: seq<nat>, low: real)
    requires Rescales(p)
    requires AllContribute(p, w, envs, Active(w, g, envs, order)) && Below(p, w, envs, Active(w, g, envs, order), low)
    ensures SameRow(RowRun(p, g, w, envs, order), JointRun(p, w, envs, (Num(low), Num(0.0)), Active(w, g, envs, order)),
      Active(w, g, envs, order) != [])
    decreases |order|
  {
    hide Rescales, JointStep, SameNumbers, Contributes, Peak, On, JointRun, RowStep, SameRow;
    var start := (Num(low), Num(0.0));
    if order == [] {
      NotStarted(p, w, envs, start);
    } else {
      var n := |order| - 1;
      var i, before := order[n], Active(w, g, envs, order[..n]);
      var now := Active(w, g, envs, order);
      assert forall j :: j in before ==> j in now;
      RowRunIs(p, g, w, envs, order[..n], low);
      if On(w, envs(i), g) {
        assert now == before + [i] && i in now;
        RowNext(p, g, w, envs, RowRun(p, g, w, envs, order[..n]), before, i, low);
      } else {
        RowOff(p, g, w, envs(i), RowRun(p, g, w, envs, order[..n]));
      }
    }
  }

  lemma NotStarted(p: Loop, w: World, envs: nat -> Env, s: (Word, Word))
    ensures SameRow(None, JointRun(p, w, envs, s, []), false)
  {
  }

  lemma RowOff(p: Loop, g: Expr, w: World, env: Env, u: Option<(Word, Word)>)
    requires Rescales(p) && !On(w, env, g)
    ensures RowStep(p, g, w, env, u) == u
  {
  }

  lemma {:induction false} LowEnough(p: Loop, w: World, envs: nat -> Env, order: seq<nat>) returns (low: real)
    ensures Below(p, w, envs, order, low)
    decreases |order|
  {
    hide Peak;
    if order == [] {
      low := 0.0;
    } else {
      var n := |order| - 1;
      low := LowEnough(p, w, envs, order[..n]);
      assert order == order[..n] + [order[n]];
      if Peak(p, w, envs(order[n])) < low { low := Peak(p, w, envs(order[n])); }
    }
  }

  // a row, from minus infinity and under a predicate: any order of the iterations gives the same pair
  lemma RowReorder(p: Loop, g: Expr, w: World, envs: nat -> Env, a: seq<nat>, b: seq<nat>)
    requires Rescales(p) && p.Clear(g) && Exponential(w) && multiset(a) == multiset(b)
    requires AllContribute(p, w, envs, Active(w, g, envs, a))
    ensures var u, v := RowRun(p, g, w, envs, a), RowRun(p, g, w, envs, b);
      (u.None? <==> v.None?) && (u.Some? ==> v.Some? && SameNumbers(u.value, v.value))
  {
    hide Rescales, Exponential, Loop.Clear, Contributes, Peak, Active, RowRun, JointRun, AsNum;
    var x, y := Active(w, g, envs, a), Active(w, g, envs, b);
    ActivePermutes(w, g, envs, a, b);
    assert forall i :: i in y ==> i in multiset(y);
    assert forall i :: i in x <==> i in multiset(x);
    var low := LowEnough(p, w, envs, x);
    RowRunIs(p, g, w, envs, a, low);
    RowRunIs(p, g, w, envs, b, low);
    assert Below(p, w, envs, y, low) && AllContribute(p, w, envs, y);
    JointReorder(p, w, envs, (Num(low), Num(0.0)), x, y);
    assert |multiset(x)| == |x| && |multiset(y)| == |y|;
  }
}
