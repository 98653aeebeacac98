// What the classifier's answer means: the next value is the phi combined with a value that does not read it, and the
// granted permissions leave the whole fold unchanged.
module Recurrence {
  import opened Options
  import opened RecurrenceExpr

  ghost function With(env: Env, s: nat, v: Word): Env {
    (t: nat) => if t == s then v else env(t)
  }

  lemma WithAgrees(env: Env, s: nat, v: Word, u: Word)
    ensures AgreeOff(s, env, With(env, s, v)) && AgreeOff(s, With(env, s, u), With(env, s, v))
  {
  }

  lemma UnwrapEval(w: World, env: Env, e: Expr)
    ensures Eval(w, env, e) == Eval(w, env, Unwrap(e))
  {
  }

  // ---- additive chains

  ghost function NumAt(w: World, env: Env, e: Expr): real {
    AsNum(Eval(w, env, e))
  }

  lemma {:induction false} OnePhiSum(w: World, env: Env, pid: nat, e: Expr, at: nat, k: nat)
    requires e.Poly? && at < |e.terms| && k <= |e.terms| && IsPhiTerm(e.terms[at], pid) && e.terms[at].coef == 1
    requires forall i :: 0 <= i < |e.terms| && i != at ==> TermFree(e.terms[i], pid)
    ensures EvalTerms(w, env, e, k) == EvalTerms(w, With(env, pid, Num(0.0)), e, k) + if k > at then AsNum(env(pid))
      else 0.0
  {
    if k > 0 {
      hide Eval, EvalMono, EvalTerm, TermFree, IsPhiTerm, With;
      OnePhiSum(w, env, pid, e, at, k - 1);
      if k - 1 == at {
        PhiTerm(w, env, pid, e.terms[at]);
        PhiTerm(w, With(env, pid, Num(0.0)), pid, e.terms[at]);
        assert With(env, pid, Num(0.0))(pid) == Num(0.0) by { WithAt(env, pid, Num(0.0)); }
      } else {
        WithAgrees(env, pid, Num(0.0), Num(0.0));
        FreeTerm(w, env, With(env, pid, Num(0.0)), pid, e.terms[k - 1]);
      }
    }
  }

  lemma WithAt(env: Env, pid: nat, v: Word)
    ensures With(env, pid, v)(pid) == v
  {
  }

  lemma PhiTerm(w: World, env: Env, pid: nat, t: Term)
    requires IsPhiTerm(t, pid) && t.coef == 1
    ensures EvalTerm(w, env, t) == AsNum(env(pid))
  {
    assert EvalMono(w, env, t.mono, 0) == 1.0;
    assert EvalMono(w, env, t.mono, 1) == 1.0 * AsNum(Eval(w, env, t.mono[0]));
  }

  lemma Binary(w: World, env: Env, op: Opcode, args: seq<Expr>)
    requires |args| == 2
    ensures (op.FAdd? || op.Add?) ==> NumAt(w, env, Op(op, args)) == NumAt(w, env, args[0]) + NumAt(w, env, args[1])
    ensures (op.FSub? || op.Sub?) ==> NumAt(w, env, Op(op, args)) == NumAt(w, env, args[0]) - NumAt(w, env, args[1])
    ensures op.FMul? ==> NumAt(w, env, Op(op, args)) == Mul(NumAt(w, env, args[0]), NumAt(w, env, args[1]))
  {
    var vs := EvalAll(w, env, args);
    assert vs[0] == Eval(w, env, args[0]) && vs[1] == Eval(w, env, args[1]);
    assert Eval(w, env, Op(op, args)) == Apply(w, op, vs);
    hide Eval, EvalAll, Numeral, Mul;
  }

  lemma FusedMultiplyAdd(w: World, env: Env, args: seq<Expr>)
    requires |args| >= 3
    ensures NumAt(w, env, Call(FmaName, args)) == Mul(NumAt(w, env, args[0]), NumAt(w, env, args[1]))
      + NumAt(w, env, args[2])
  {
    var vs := EvalAll(w, env, args);
    assert vs[0] == Eval(w, env, args[0]) && vs[1] == Eval(w, env, args[1]) && vs[2] == Eval(w, env, args[2]);
    assert Eval(w, env, Call(FmaName, args)) == Invoke(w, FmaName, vs);
    hide Eval, EvalAll, Numeral, Mul;
  }

  lemma Conversion(w: World, env: Env, op: Opcode, args: seq<Expr>)
    requires |args| == 1 && (op.FPExt? || op.FPTrunc?)
    ensures Eval(w, env, Op(op, args)) == Eval(w, env, args[0])
  {
    assert EvalAll(w, env, args)[0] == Eval(w, env, args[0]);
  }

  // a link of the chain changes the value by the same amount from the phi and from zero
  lemma RestSound(c: Ctx, w: World, env: Env, x: Expr)
    requires Rest(c, x).Some?
    ensures var zero, y := With(env, c.pid, Num(0.0)), Rest(c, x).value.0;
      NumAt(w, env, x) - NumAt(w, zero, x) == NumAt(w, env, y) - NumAt(w, zero, y)
  {
    hide Eval, With, Contains;
    var zero := With(env, c.pid, Num(0.0));
    WithAgrees(env, c.pid, Num(0.0), Num(0.0));
    if x.Call? {
      FusedMultiplyAdd(w, env, x.args);
      FusedMultiplyAdd(w, zero, x.args);
      FreeEval(w, env, zero, c.pid, x.args[0]);
      FreeEval(w, env, zero, c.pid, x.args[1]);
    } else if |x.args| == 1 {
      Conversion(w, env, x.op, x.args);
      Conversion(w, zero, x.op, x.args);
    } else {
      Binary(w, env, x.op, x.args);
      Binary(w, zero, x.op, x.args);
      FreeEval(w, env, zero, c.pid, if c.Free(x.args[1]) then x.args[1] else x.args[0]);
    }
  }

  // an additive chain is the phi plus what it would be from a zero phi
  lemma {:induction false} ChainSound(c: Ctx, w: World, env: Env, x: Expr, terms: nat, guard: nat)
    requires Chain(c, x, terms, guard).Some?
    ensures NumAt(w, env, x) == AsNum(env(c.pid)) + NumAt(w, With(env, c.pid, Num(0.0)), x)
    decreases guard
  {
    hide Eval, With, OnePhi, Rest;
    if c.IsPhi(x) {
      PhiEval(c, w, env, x);
      PhiEval(c, w, With(env, c.pid, Num(0.0)), x);
      WithAt(env, c.pid, Num(0.0));
    } else if x.Poly? {
      PolySound(c, w, env, x);
    } else {
      RestSound(c, w, env, x);
      ChainSound(c, w, env, Rest(c, x).value.0, terms + Rest(c, x).value.1, guard - 1);
    }
  }

  lemma PolySound(c: Ctx, w: World, env: Env, x: Expr)
    requires x.Poly? && OnePhi(x.terms, c.pid) && !c.IsPhi(x)
    ensures NumAt(w, env, x) == AsNum(env(c.pid)) + NumAt(w, With(env, c.pid, Num(0.0)), x)
  {
    var at :| 0 <= at < |x.terms| && IsPhiTerm(x.terms[at], c.pid) && x.terms[at].coef == 1 &&
      forall i :: 0 <= i < |x.terms| && i != at ==> TermFree(x.terms[i], c.pid);
    OnePhiSum(w, env, c.pid, x, at, |x.terms|);
  }

  // ---- the algebras

  predicate Folds(kind: Algebra) {
    kind.Invariant? || kind.Induction? || kind.Sum? || kind.Max? || kind.Min? || kind.BitAnd? || kind.BitOr?
      || kind.BitXor?
  }

  // a word as the algebra reads it
  function View(kind: Algebra, v: Word): Word {
    if kind.BitAnd? || kind.BitOr? || kind.BitXor? then Bits(AsBits(v))
    else if kind.Sum? || kind.Induction? || kind.Max? || kind.Min? then Num(AsNum(v))
    else v
  }

  function Combine(kind: Algebra, a: Word, b: Word): Word {
    match kind
    case Max => Num(RMax(AsNum(a), AsNum(b)))
    case Min => Num(RMin(AsNum(a), AsNum(b)))
    case BitAnd => Bits(BvAnd(AsBits(a), AsBits(b)))
    case BitOr => Bits(BvOr(AsBits(a), AsBits(b)))
    case BitXor => Bits(BvXor(AsBits(a), AsBits(b)))
    case _ => Num(AsNum(a) + AsNum(b))
  }

  // a partial result: nothing yet, or a value; nothing is the identity
  function Merge(kind: Algebra, a: Option<Word>, b: Option<Word>): Option<Word> {
    if a.None? then b else if b.None? then a else Some(Combine(kind, a.value, b.value))
  }

  function Absorb(kind: Algebra, acc: Word, g: Option<Word>): Word {
    if g.None? then View(kind, acc) else Combine(kind, acc, g.value)
  }

  // what an iteration contributes: nothing when its predicate is off
  ghost function Gain(c: Ctx, w: World, next: Expr, env: Env): Option<Word>
    decreases Unwrap(next)
  {
    var n := Unwrap(next);
    if n.Undef? || c.IsPhi(n) then None
    else if n.Ite? && c.Free(n.c) && c.IsPhi(n.b) && !c.IsPhi(n.a) then
      (SmallerUnwrap(n.a); if NumAt(w, env, n.c) != 0.0 then Gain(c, w, n.a, env) else None)
    else if n.Ite? && c.Free(n.c) && c.IsPhi(n.a) && !c.IsPhi(n.b) then
      (SmallerUnwrap(n.b); if NumAt(w, env, n.c) != 0.0 then None else Gain(c, w, n.b, env))
    else if CompareSelect(c, n).Some? then Some(Num(NumAt(w, env, if c.IsPhi(n.a) then n.b else n.a)))
    else if BinaryAlgebra(c, n).Some? then
      Some(View(BinaryAlgebra(c, n).value,
        Eval(w, env, if c.IsPhi(n.args[0]) && c.Free(n.args[1]) then n.args[1] else n.args[0])))
    else Some(Num(NumAt(w, With(env, c.pid, Num(0.0)), n)))
  }

  lemma PhiEval(c: Ctx, w: World, env: Env, e: Expr)
    requires c.IsPhi(e)
    ensures Eval(w, env, e) == env(c.pid)
  {
    UnwrapEval(w, env, e);
  }

  // the selected arm of the comparison is the larger, or the smaller, of the two
  lemma CompareSound(c: Ctx, w: World, env: Env, n: Expr)
    requires CompareSelect(c, n).Some?
    ensures n.Ite?
    ensures var kind, other := CompareSelect(c, n).value, if c.IsPhi(n.a) then n.b else n.a;
      && (kind.Max? || kind.Min?) && c.Free(other)
      && Num(NumAt(w, env, n)) == Combine(kind, env(c.pid), Eval(w, env, other))
  {
    var other := if c.IsPhi(n.a) then n.b else n.a;
    IteEval(w, env, n);
    hide Eval, Contains;
    PhiEval(c, w, env, if c.IsPhi(n.a) then n.a else n.b);
    if c.IsPhi(n.c.l) { PhiEval(c, w, env, n.c.l); }
    if c.IsPhi(n.c.r) { PhiEval(c, w, env, n.c.r); }
    UnwrapEval(w, env, n.c.l);
    UnwrapEval(w, env, n.c.r);
    UnwrapEval(w, env, other);
  }

  lemma IteEval(w: World, env: Env, n: Expr)
    requires n.Ite? && n.c.Cmp?
    ensures NumAt(w, env, n) == if Ordered(n.c.pred.o, NumAt(w, env, n.c.l), NumAt(w, env, n.c.r))
      then NumAt(w, env, n.a) else NumAt(w, env, n.b)
  {
    assert Eval(w, env, n.c) == Truth(Ordered(n.c.pred.o, NumAt(w, env, n.c.l), NumAt(w, env, n.c.r)));
  }

  lemma BinaryEval(w: World, env: Env, n: Expr)
    requires (n.Call? && (n.callee.MaxName? || n.callee.MinName?)) || (n.Op? && (n.op.And? || n.op.Or? || n.op.Xor?))
    requires |n.args| == 2
    ensures var a, b := Eval(w, env, n.args[0]), Eval(w, env, n.args[1]);
      && (n.Call? && n.callee.MaxName? ==> Eval(w, env, n) == Combine(Max, a, b))
      && (n.Call? && n.callee.MinName? ==> Eval(w, env, n) == Combine(Min, a, b))
      && (n.Op? && n.op.And? ==> Eval(w, env, n) == Combine(BitAnd, a, b))
      && (n.Op? && n.op.Or? ==> Eval(w, env, n) == Combine(BitOr, a, b))
      && (n.Op? && n.op.Xor? ==> Eval(w, env, n) == Combine(BitXor, a, b))
  {
    var vs := EvalAll(w, env, n.args);
    assert vs[0] == Eval(w, env, n.args[0]) && vs[1] == Eval(w, env, n.args[1]);
  }

  lemma BinarySound(c: Ctx, w: World, env: Env, n: Expr)
    requires BinaryAlgebra(c, n).Some?
    ensures var kind, other := BinaryAlgebra(c, n).value, if c.IsPhi(n.args[0]) && c.Free(n.args[1]) then n.args[1]
      else n.args[0];
      && Folds(kind) && c.Free(other)
        && View(kind, Eval(w, env, n)) == Combine(kind, env(c.pid), View(kind, Eval(w, env, other)))
  {
    BinaryEval(w, env, n);
    hide Eval, Contains;
    var left := c.IsPhi(n.args[0]) && c.Free(n.args[1]);
    PhiEval(c, w, env, if left then n.args[0] else n.args[1]);
    CombineCommutes(BinaryAlgebra(c, n).value, Eval(w, env, n.args[0]), Eval(w, env, n.args[1]));
  }

  lemma CombineCommutes(kind: Algebra, a: Word, b: Word)
    ensures Combine(kind, a, b) == Combine(kind, b, a)
    ensures View(kind, Combine(kind, a, b)) == Combine(kind, a, b) || !Folds(kind) || kind.Invariant?
    ensures Combine(kind, View(kind, a), b) == Combine(kind, a, b) == Combine(kind, a, View(kind, b))
  {
    CombineLaws(kind, a, b, a);
    hide Numeral, BvAnd, BvOr, BvXor;
  }

  // commutative, associative, and for the idempotent algebras idempotent
  lemma CombineLaws(kind: Algebra, a: Word, b: Word, c: Word)
    ensures Combine(kind, a, b) == Combine(kind, b, a)
    ensures Combine(kind, Combine(kind, a, b), c) == Combine(kind, a, Combine(kind, b, c))
    ensures PermissionsOf(kind).duplicate && Folds(kind) && !kind.Induction? && !kind.Invariant? ==>
      Combine(kind, a, a) == View(kind, a)
  {
    hide Numeral, BvAnd, BvOr, BvXor;
    match kind
    case BitAnd => AndLaws(AsBits(a), AsBits(b), AsBits(c));
    case BitOr => OrLaws(AsBits(a), AsBits(b), AsBits(c));
    case BitXor => XorLaws(AsBits(a), AsBits(b), AsBits(c));
    case _ =>
  }

  // ---- soundness of the classifier

  // the next value is the phi combined with the iteration's contribution, and the contribution does not read the phi
  lemma {:induction false} ClassifierSound(c: Ctx, w: World, env: Env, next: Expr)
    requires Folds(ClassifyOne(c, next).kind)
    ensures var kind := ClassifyOne(c, next).kind;
      View(kind, Eval(w, env, next)) == Absorb(kind, env(c.pid), Gain(c, w, next, env))
    decreases Unwrap(next)
  {
    hide Eval, Contains, Chain, BinaryAlgebra, CompareSelect, Combine, OnlyConstants, Selects, ReadsSibling,
        ClassifyTuple, With, Numeral;
    var n := Unwrap(next);
    UnwrapEval(w, env, next);
    if c.IsPhi(n) {
      PhiEval(c, w, env, n);
    } else if n.Ite? && c.Free(n.c) && c.IsPhi(n.b) && !c.IsPhi(n.a) {
      SmallerUnwrap(n.a);
      IteChooses(w, env, n);
      PhiEval(c, w, env, n.b);
      ClassifierSound(c, w, env, n.a);
    } else if n.Ite? && c.Free(n.c) && c.IsPhi(n.a) && !c.IsPhi(n.b) {
      SmallerUnwrap(n.b);
      IteChooses(w, env, n);
      PhiEval(c, w, env, n.a);
      ClassifierSound(c, w, env, n.b);
    } else if CompareSelect(c, n).Some? {
      CompareSound(c, w, env, n);
      var other := if c.IsPhi(n.a) then n.b else n.a;
      CombineCommutes(CompareSelect(c, n).value, env(c.pid), Eval(w, env, other));
    } else if BinaryAlgebra(c, n).Some? {
      BinarySound(c, w, env, n);
    } else {
      RestClassified(c, n);
      ChainSound(c, w, env, n, 0, MAX_CHAIN);
      SumCombine(ClassifyOne(c, next).kind, env(c.pid), NumAt(w, With(env, c.pid, Num(0.0)), n));
    }
  }

  lemma SumCombine(kind: Algebra, a: Word, r: real)
    requires kind.Sum? || kind.Induction?
    ensures Combine(kind, a, Num(r)) == Num(AsNum(a) + r)
  {
  }

  lemma RestClassified(c: Ctx, n: Expr)
    requires BinaryAlgebra(c, n).None? && Folds(ClassifyRest(c, n).kind)
    ensures Chain(c, n, 0, MAX_CHAIN).Some? && (ClassifyRest(c, n).kind.Sum? || ClassifyRest(c, n).kind.Induction?)
  {
    hide Chain, BinaryAlgebra, OnlyConstants, Selects, ReadsSibling, Linear, ExpOfSibling;
  }

  lemma IteChooses(w: World, env: Env, n: Expr)
    requires n.Ite?
    ensures Eval(w, env, n) == if NumAt(w, env, n.c) != 0.0 then Eval(w, env, n.a) else Eval(w, env, n.b)
  {
  }

  lemma {:induction false} GainFree(c: Ctx, w: World, env: Env, next: Expr, v: Word)
    requires Folds(ClassifyOne(c, next).kind)
    ensures Gain(c, w, next, With(env, c.pid, v)) == Gain(c, w, next, env)
    decreases Unwrap(next)
  {
    hide Eval, Contains, Chain, Combine, OnlyConstants, Selects, ReadsSibling, ClassifyTuple, Numeral, View;
    var n := Unwrap(next);
    var env' := With(env, c.pid, v);
    WithAgrees(env, c.pid, v, v);
    if n.Undef? || c.IsPhi(n) {
    } else if n.Ite? && c.Free(n.c) && c.IsPhi(n.b) && !c.IsPhi(n.a) {
      SmallerUnwrap(n.a);
      FreeEval(w, env, env', c.pid, n.c);
      GainFree(c, w, env, n.a, v);
    } else if n.Ite? && c.Free(n.c) && c.IsPhi(n.a) && !c.IsPhi(n.b) {
      SmallerUnwrap(n.b);
      FreeEval(w, env, env', c.pid, n.c);
      GainFree(c, w, env, n.b, v);
    } else if CompareSelect(c, n).Some? {
      CompareSound(c, w, env, n);
      FreeEval(w, env, env', c.pid, if c.IsPhi(n.a) then n.b else n.a);
    } else if BinaryAlgebra(c, n).Some? {
      FreeEval(w, env, env', c.pid, if c.IsPhi(n.args[0]) && c.Free(n.args[1]) then n.args[1] else n.args[0]);
    } else {
      FreeEval(w, With(env, c.pid, Num(0.0)), With(env', c.pid, Num(0.0)), c.pid, n);
    }
  }

  // ---- the fold

  // one iteration, and a run over iterations in a given order; `envs` gives each iteration's environment
  ghost function Step(c: Ctx, w: World, next: Expr, x: Word, env: Env): Word {
    Eval(w, With(env, c.pid, x), next)
  }

  ghost function Run(c: Ctx, w: World, next: Expr, envs: nat -> Env, x: Word, order: seq<nat>): Word {
    if order == [] then x
    else Step(c, w, next, Run(c, w, next, envs, x, order[..|order| - 1]), envs(order[|order| - 1]))
  }

  // the contribution of one iteration, as its algebra reads it
  ghost function Part(c: Ctx, w: World, next: Expr, env: Env): Option<Word> {
    var g := Gain(c, w, next, env);
    if g.None? then None else Some(View(ClassifyOne(c, next).kind, g.value))
  }

  // the contributions of a list of iterations, without the initial value
  ghost function Total(kind: Algebra, parts: nat -> Option<Word>, order: seq<nat>): Option<Word> {
    if order == [] then None else Merge(kind, Total(kind, parts, order[..|order| - 1]), parts(order[|order| - 1]))
  }

  ghost function Parts(c: Ctx, w: World, next: Expr, envs: nat -> Env): nat -> Option<Word> {
    (i: nat) => Part(c, w, next, envs(i))
  }

  lemma StepPart(c: Ctx, w: World, next: Expr, x: Word, env: Env)
    requires Folds(ClassifyOne(c, next).kind)
    ensures var kind := ClassifyOne(c, next).kind;
      View(kind, Step(c, w, next, x, env)) == Absorb(kind, x, Part(c, w, next, env))
  {
    var kind := ClassifyOne(c, next).kind;
    ClassifierSound(c, w, With(env, c.pid, x), next);
    GainFree(c, w, env, next, x);
    var g := Gain(c, w, next, env);
    if g.Some? { CombineCommutes(kind, x, g.value); }
  }

  lemma AbsorbMerge(kind: Algebra, x: Word, a: Option<Word>, b: Option<Word>)
    requires Folds(kind)
    ensures Absorb(kind, Absorb(kind, x, a), b) == Absorb(kind, x, Merge(kind, a, b))
    ensures forall v :: View(kind, v) == View(kind, x) ==> Absorb(kind, v, a) == Absorb(kind, x, a)
  {
    forall v | View(kind, v) == View(kind, x) ensures Absorb(kind, v, a) == Absorb(kind, x, a) {
      if a.Some? { CombineCommutes(kind, v, a.value); CombineCommutes(kind, x, a.value); }
    }
    if a.Some? { CombineCommutes(kind, x, a.value); }
    if b.Some? { CombineCommutes(kind, x, b.value); }
    if a.Some? && b.Some? { CombineLaws(kind, x, a.value, b.value); }
  }

  // a run is the initial value combined with the total of its contributions
  lemma {:induction false} RunIsTotal(c: Ctx, w: World, next: Expr, envs: nat -> Env, x: Word, order: seq<nat>)
    requires Folds(ClassifyOne(c, next).kind)
    ensures var kind := ClassifyOne(c, next).kind;
      View(kind, Run(c, w, next, envs, x, order)) == Absorb(kind, x, Total(kind, Parts(c, w, next, envs), order))
  {
    hide ClassifyOne, View, Combine, Absorb, Merge, Step, Part;
    if order == [] {
      EmptyAbsorb(ClassifyOne(c, next).kind, x);
    } else {
      var kind, n := ClassifyOne(c, next).kind, |order| - 1;
      var v := Run(c, w, next, envs, x, order[..n]);
      var t := Total(kind, Parts(c, w, next, envs), order[..n]);
      RunIsTotal(c, w, next, envs, x, order[..n]);
      StepPart(c, w, next, v, envs(order[n]));
      AbsorbMerge(kind, x, t, Part(c, w, next, envs(order[n])));
      AbsorbMerge(kind, Absorb(kind, x, t), Part(c, w, next, envs(order[n])), None);
      AbsorbViews(kind, x, t);
    }
  }

  lemma EmptyAbsorb(kind: Algebra, x: Word)
    ensures Absorb(kind, x, None) == View(kind, x)
  {
  }

  lemma AbsorbViews(kind: Algebra, x: Word, t: Option<Word>)
    requires Folds(kind)
    ensures View(kind, Absorb(kind, x, t)) == Absorb(kind, x, t)
  {
    if t.Some? { CombineCommutes(kind, x, t.value); }
  }

  // ---- partition, tree-combine, reorder, duplicate

  lemma MergeLaws(kind: Algebra, a: Option<Word>, b: Option<Word>, c: Option<Word>)
    ensures Merge(kind, Merge(kind, a, b), c) == Merge(kind, a, Merge(kind, b, c))
    ensures Merge(kind, a, b) == Merge(kind, b, a)
    ensures Merge(kind, None, a) == a == Merge(kind, a, None)
  {
    if a.Some? && b.Some? {
      CombineLaws(kind, a.value, b.value, if c.Some? then c.value else a.value);
    }
  }

  lemma {:induction false} TotalConcat(kind: Algebra, parts: nat -> Option<Word>, a: seq<nat>, b: seq<nat>)
    ensures Total(kind, parts, a + b) == Merge(kind, Total(kind, parts, a), Total(kind, parts, b))
    decreases |b|
  {
    hide Merge;
    if b == [] {
      assert a + b == a;
      MergeLaws(kind, Total(kind, parts, a), None, None);
    } else {
      var n := |b| - 1;
      assert (a + b)[..|a + b| - 1] == a + b[..n] && (a + b)[|a + b| - 1] == b[n];
      TotalConcat(kind, parts, a, b[..n]);
      MergeLaws(kind, Total(kind, parts, a), Total(kind, parts, b[..n]), parts(b[n]));
    }
  }

  // a combining tree over iterations
  datatype Tree = Leaf(i: nat) | Node(l: Tree, r: Tree)

  function Leaves(t: Tree): seq<nat> {
    match t
    case Leaf(i) => [i]
    case Node(l, r) => Leaves(l) + Leaves(r)
  }

  ghost function TreeTotal(kind: Algebra, parts: nat -> Option<Word>, t: Tree): Option<Word> {
    match t
    case Leaf(i) => parts(i)
    case Node(l, r) => Merge(kind, TreeTotal(kind, parts, l), TreeTotal(kind, parts, r))
  }

  lemma {:induction false} TreeIsTotal(kind: Algebra, parts: nat -> Option<Word>, t: Tree)
    ensures TreeTotal(kind, parts, t) == Total(kind, parts, Leaves(t))
  {
    match t
    case Leaf(i) =>
      assert [i][..0] == [];
      MergeLaws(kind, parts(i), None, None);
    case Node(l, r) =>
      TreeIsTotal(kind, parts, l);
      TreeIsTotal(kind, parts, r);
      TotalConcat(kind, parts, Leaves(l), Leaves(r));
  }

  // the last of p in q, and what is left of both
  lemma FindLast(p: seq<nat>, q: seq<nat>) returns (k: nat)
    requires multiset(p) == multiset(q) && p != []
    ensures k < |q| && q[k] == p[|p| - 1] && q == q[..k] + [q[k]] + q[k + 1..]
    ensures multiset(p[..|p| - 1]) == multiset(q[..k] + q[k + 1..])
    ensures forall i :: i in q ==> i in p
  {
    var n := |p| - 1;
    assert p == p[..n] + [p[n]];
    assert p[n] in multiset(q);
    k :| 0 <= k < |q| && q[k] == p[n];
    assert q == q[..k] + [q[k]] + q[k + 1..];
    assert multiset(q[..k] + q[k + 1..]) == multiset(q) - multiset{p[n]};
    forall i | i in q ensures i in p {
      assert i in multiset(q);
    }
  }

  lemma {:induction false} TotalPermutes(kind: Algebra, parts: nat -> Option<Word>, p: seq<nat>, q: seq<nat>)
    requires multiset(p) == multiset(q)
    ensures Total(kind, parts, p) == Total(kind, parts, q)
    decreases |p|
  {
    if p == [] {
      assert |multiset(q)| == 0;
    } else {
      var n := |p| - 1;
      var k := FindLast(p, q);
      TotalPermutes(kind, parts, p[..n], q[..k] + q[k + 1..]);
      MoveLast(kind, parts, q[..k], q[k], q[k + 1..]);
    }
  }

  lemma MoveLast(kind: Algebra, parts: nat -> Option<Word>, a: seq<nat>, i: nat, b: seq<nat>)
    ensures Total(kind, parts, a + [i] + b) == Merge(kind, Total(kind, parts, a + b), parts(i))
  {
    hide Merge;
    var ta, tb := Total(kind, parts, a), Total(kind, parts, b);
    TotalConcat(kind, parts, a + [i], b);
    TotalConcat(kind, parts, a, [i]);
    TotalConcat(kind, parts, a, b);
    assert [i][..0] == [];
    MergeLaws(kind, parts(i), None, None);
    MergeLaws(kind, ta, parts(i), tb);
    MergeLaws(kind, parts(i), tb, ta);
    MergeLaws(kind, ta, tb, parts(i));
  }

  predicate Idempotent(kind: Algebra) {
    kind.Invariant? || kind.Max? || kind.Min? || kind.BitAnd? || kind.BitOr?
  }

  // contributions in the form the algebra leaves them in
  ghost predicate Viewed(kind: Algebra, parts: nat -> Option<Word>) {
    forall i :: parts(i).Some? ==> parts(i).value == View(kind, parts(i).value) && !kind.Invariant?
  }

  lemma PartsViewed(c: Ctx, w: World, next: Expr, envs: nat -> Env)
    requires Folds(ClassifyOne(c, next).kind)
    ensures Viewed(ClassifyOne(c, next).kind, Parts(c, w, next, envs))
  {
    hide Eval, View;
    var kind := ClassifyOne(c, next).kind;
    forall i: nat ensures Parts(c, w, next, envs)(i).Some? ==>
      Parts(c, w, next, envs)(i).value == View(kind, Parts(c, w, next, envs)(i).value) && !kind.Invariant?
    {
      if kind.Invariant? { InvariantGivesNothing(c, w, envs(i), next); }
      if Gain(c, w, next, envs(i)).Some? { ViewTwice(kind, Gain(c, w, next, envs(i)).value); }
    }
  }

  lemma ViewTwice(kind: Algebra, v: Word)
    ensures View(kind, View(kind, v)) == View(kind, v)
  {
  }

  lemma {:induction false} InvariantGivesNothing(c: Ctx, w: World, env: Env, next: Expr)
    requires ClassifyOne(c, next).kind.Invariant?
    ensures Gain(c, w, next, env) == None
    decreases Unwrap(next)
  {
    hide Eval, Contains, Chain, OnlyConstants, Selects, ReadsSibling, ClassifyTuple, CompareSelect, BinaryAlgebra;
    var n := Unwrap(next);
    if n.Undef? || c.IsPhi(n) {
    } else if n.Ite? && c.Free(n.c) && c.IsPhi(n.b) && !c.IsPhi(n.a) {
      SmallerUnwrap(n.a);
      InvariantGivesNothing(c, w, env, n.a);
    } else if n.Ite? && c.Free(n.c) && c.IsPhi(n.a) && !c.IsPhi(n.b) {
      SmallerUnwrap(n.b);
      InvariantGivesNothing(c, w, env, n.b);
    } else {
      NeverInvariant(c, n);
    }
  }

  lemma NeverInvariant(c: Ctx, n: Expr)
    ensures CompareSelect(c, n).Some? ==> CompareSelect(c, n).value.Max? || CompareSelect(c, n).value.Min?
    ensures !ClassifyRest(c, n).kind.Invariant?
  {
    hide Chain, OnlyConstants, Selects, ReadsSibling, Linear, ExpOfSibling;
  }

  // an iteration already in the total adds nothing
  lemma {:induction false} TotalAbsorbs(kind: Algebra, parts: nat -> Option<Word>, p: seq<nat>, i: nat)
    requires Idempotent(kind) && Viewed(kind, parts) && i in p
    ensures Merge(kind, Total(kind, parts, p), parts(i)) == Total(kind, parts, p)
    decreases |p|
  {
    hide Merge, View;
    var n := |p| - 1;
    var t, last := Total(kind, parts, p[..n]), parts(p[n]);
    if p[n] == i {
      MergeLaws(kind, t, last, last);
      MergeIdem(kind, parts, i);
    } else {
      TotalAbsorbs(kind, parts, p[..n], i);
      MergeLaws(kind, t, last, parts(i));
      MergeLaws(kind, last, parts(i), t);
      MergeLaws(kind, t, parts(i), last);
    }
  }

  lemma MergeIdem(kind: Algebra, parts: nat -> Option<Word>, i: nat)
    requires Idempotent(kind) && Viewed(kind, parts)
    ensures Merge(kind, parts(i), parts(i)) == parts(i)
  {
    if parts(i).Some? { CombineLaws(kind, parts(i).value, parts(i).value, parts(i).value); }
  }

  lemma {:induction false} TotalCovers(kind: Algebra, parts: nat -> Option<Word>, p: seq<nat>, q: seq<nat>)
    requires Idempotent(kind) && Viewed(kind, parts) && forall i :: i in q ==> i in p
    ensures Merge(kind, Total(kind, parts, p), Total(kind, parts, q)) == Total(kind, parts, p)
    decreases |q|
  {
    hide Merge, View;
    if q == [] {
      MergeLaws(kind, Total(kind, parts, p), None, None);
    } else {
      var n := |q| - 1;
      TotalCovers(kind, parts, p, q[..n]);
      TotalAbsorbs(kind, parts, p, q[n]);
      MergeLaws(kind, Total(kind, parts, p), Total(kind, parts, q[..n]), parts(q[n]));
    }
  }

  // ---- what the permissions mean for a recurrence

  ghost function Result(c: Ctx, w: World, next: Expr, envs: nat -> Env, x: Word, order: seq<nat>): Word {
    View(ClassifyOne(c, next).kind, Run(c, w, next, envs, x, order))
  }

  lemma PermittedFolds(c: Ctx, next: Expr)
    ensures var r := ClassifyOne(c, next);
      (!r.kind.Tuple? ==> r.permits == PermissionsOf(r.kind)) && !r.kind.TensorSum?
      && (!r.kind.Tuple? && (r.permits.partition || r.permits.reorder || r.permits.treeCombine) ==> Folds(r.kind))
      && (r.permits.duplicate && !r.kind.Induction? ==> Idempotent(r.kind) || r.kind.Permutation?)
    decreases Unwrap(next)
  {
    hide Contains, Chain, OnlyConstants, Selects, ReadsSibling, Linear, ExpOfSibling;
    var n := Unwrap(next);
    if !n.Undef? && !c.IsPhi(n) {
      if n.Ite? && c.Free(n.c) && c.IsPhi(n.b) && !c.IsPhi(n.a) {
        SmallerUnwrap(n.a);
        PermittedFolds(c, n.a);
      } else if n.Ite? && c.Free(n.c) && c.IsPhi(n.a) && !c.IsPhi(n.b) {
        SmallerUnwrap(n.b);
        PermittedFolds(c, n.b);
      } else {
        NeverInvariant(c, n);
      }
    }
  }

  // partition: each part folded on its own, the partial totals merged
  lemma PartitionPermitted(c: Ctx, w: World, next: Expr, envs: nat -> Env, x: Word, a: seq<nat>, b: seq<nat>)
    requires var r := ClassifyOne(c, next); r.permits.partition && !r.kind.Tuple?
    ensures var kind, parts := ClassifyOne(c, next).kind, Parts(c, w, next, envs);
      Result(c, w, next, envs, x, a + b) == Absorb(kind, x, Merge(kind, Total(kind, parts, a), Total(kind, parts, b)))
  {
    PermittedFolds(c, next);
    RunIsTotal(c, w, next, envs, x, a + b);
    TotalConcat(ClassifyOne(c, next).kind, Parts(c, w, next, envs), a, b);
  }

  // tree-combine: the contributions merged along any tree
  lemma TreeCombinePermitted(c: Ctx, w: World, next: Expr, envs: nat -> Env, x: Word, t: Tree)
    requires var r := ClassifyOne(c, next); r.permits.treeCombine && !r.kind.Tuple?
    ensures var kind := ClassifyOne(c, next).kind;
      Result(c, w, next, envs, x, Leaves(t)) == Absorb(kind, x, TreeTotal(kind, Parts(c, w, next, envs), t))
  {
    PermittedFolds(c, next);
    RunIsTotal(c, w, next, envs, x, Leaves(t));
    TreeIsTotal(ClassifyOne(c, next).kind, Parts(c, w, next, envs), t);
  }

  // reorder: any two orders of the same iterations
  lemma ReorderPermitted(c: Ctx, w: World, next: Expr, envs: nat -> Env, x: Word, p: seq<nat>, q: seq<nat>)
    requires var r := ClassifyOne(c, next); r.permits.reorder && !r.kind.Tuple?
    requires multiset(p) == multiset(q)
    ensures Result(c, w, next, envs, x, p) == Result(c, w, next, envs, x, q)
  {
    PermittedFolds(c, next);
    RunIsTotal(c, w, next, envs, x, p);
    RunIsTotal(c, w, next, envs, x, q);
    TotalPermutes(ClassifyOne(c, next).kind, Parts(c, w, next, envs), p, q);
  }

  // duplicate: any two orders over the same set of iterations, however often each is repeated
  lemma DuplicatePermitted(c: Ctx, w: World, next: Expr, envs: nat -> Env, x: Word, p: seq<nat>, q: seq<nat>)
    requires var r := ClassifyOne(c, next); r.permits.duplicate && !r.kind.Induction? && !r.kind.Permutation?
    requires forall i :: i in p <==> i in q
    ensures Result(c, w, next, envs, x, p) == Result(c, w, next, envs, x, q)
  {
    PermittedFolds(c, next);
    var kind, parts := ClassifyOne(c, next).kind, Parts(c, w, next, envs);
    PartsViewed(c, w, next, envs);
    RunIsTotal(c, w, next, envs, x, p);
    RunIsTotal(c, w, next, envs, x, q);
    TotalCovers(kind, parts, p, q);
    TotalCovers(kind, parts, q, p);
    MergeLaws(kind, Total(kind, parts, p), Total(kind, parts, q), None);
  }

  // a selection keeps the phi or replaces it by a value that does not depend on it
  lemma {:induction false} SelectsOnce(c: Ctx, w: World, env: Env, e: Expr, x: Word, y: Word)
    requires Selects(c, e)
    ensures var v := Eval(w, With(env, c.pid, x), e); v == x || Eval(w, With(env, c.pid, y), e) == v
    decreases Unwrap(e)
  {
    hide Contains;
    var u := Unwrap(e);
    var ex, ey := With(env, c.pid, x), With(env, c.pid, y);
    WithAgrees(env, c.pid, y, x);
    UnwrapEval(w, ex, e);
    UnwrapEval(w, ey, e);
    if u.Ite? {
      SmallerUnwrap(u.a);
      SmallerUnwrap(u.b);
      FreeEval(w, ex, ey, c.pid, u.c);
      SelectsOnce(c, w, env, u.a, x, y);
      SelectsOnce(c, w, env, u.b, x, y);
    } else if c.Free(u) {
      FreeEval(w, ex, ey, c.pid, u);
    } else {
      UnwrapEval(w, ex, u);
      UnwrapEval(w, ey, u);
    }
  }

  // duplicate for a permutation: running an iteration again at once changes nothing
  lemma {:induction false} PermutationRepeats(c: Ctx, w: World, next: Expr, env: Env, x: Word)
    requires ClassifyOne(c, next).kind.Permutation?
    ensures var v := Step(c, w, next, x, env); Step(c, w, next, v, env) == v
    decreases Unwrap(next)
  {
    hide Contains, Chain, BinaryAlgebra, CompareSelect, OnlyConstants, ReadsSibling, ClassifyTuple, Eval, With, Selects;
    var n := Unwrap(next);
    var v := Step(c, w, next, x, env);
    UnwrapEval(w, With(env, c.pid, x), next);
    UnwrapEval(w, With(env, c.pid, v), next);
    WithAgrees(env, c.pid, x, v);
    if n.Ite? && c.Free(n.c) && c.IsPhi(n.b) && !c.IsPhi(n.a) {
      SmallerUnwrap(n.a);
      Guarded(c, w, env, n, n.a, n.b, x, v);
      PermutationRepeats(c, w, n.a, env, x);
    } else if n.Ite? && c.Free(n.c) && c.IsPhi(n.a) && !c.IsPhi(n.b) {
      SmallerUnwrap(n.b);
      Guarded(c, w, env, n, n.b, n.a, x, v);
      PermutationRepeats(c, w, n.b, env, x);
    } else {
      NeverInvariant(c, n);
      PermutationShape(c, n);
      if c.Free(n) {
        FreeEval(w, With(env, c.pid, x), With(env, c.pid, v), c.pid, n);
      } else {
        SelectsOnce(c, w, env, n, x, v);
      }
    }
  }

  lemma PermutationShape(c: Ctx, n: Expr)
    requires !CompareSelect(c, n).Some? && ClassifyRest(c, n).kind.Permutation?
    ensures Selects(c, n) || c.Free(n)
  {
    hide Contains, Chain, OnlyConstants, ReadsSibling, Linear, ExpOfSibling, Selects;
  }

  // a predicated update: off keeps the phi, on is the inner update, and the predicate does not read the phi
  lemma Guarded(c: Ctx, w: World, env: Env, n: Expr, inner: Expr, phi: Expr, x: Word, v: Word)
    requires n.Ite? && c.Free(n.c) && c.IsPhi(phi) && ((inner == n.a && phi == n.b) || (inner == n.b && phi == n.a))
    ensures var on := (NumAt(w, env, n.c) != 0.0) == (phi == n.b);
      && Eval(w, With(env, c.pid, x), n) == (if on || n.a == n.b then Eval(w, With(env, c.pid, x), inner) else x)
      && Eval(w, With(env, c.pid, v), n) == (if on || n.a == n.b then Eval(w, With(env, c.pid, v), inner) else v)
  {
    WithAgrees(env, c.pid, x, v);
    WithAgrees(env, c.pid, v, v);
    FreeEval(w, env, With(env, c.pid, x), c.pid, n.c);
    FreeEval(w, env, With(env, c.pid, v), c.pid, n.c);
    PhiEval(c, w, With(env, c.pid, x), phi);
    PhiEval(c, w, With(env, c.pid, v), phi);
  }

  // ---- what is not granted does fail

  // a sum is not idempotent
  lemma SumNotDuplicate() returns (c: Ctx, w: World, next: Expr, envs: nat -> Env, x: Word)
    ensures ClassifyOne(c, next).kind.Sum? && !ClassifyOne(c, next).permits.duplicate
    ensures Result(c, w, next, envs, x, [0, 0]) != Result(c, w, next, envs, x, [0])
  {
    hide Eval, Step, ClassifyOne, Numeral;
    c, w := Ctx(0, {}), (t: nat, vs: seq<Word>) => Num(0.0);
    next := Op(FAdd, [Sym(0), Sym(1)]);
    envs := (i: nat) => (s: nat) => Num(1.0);
    x := Num(0.0);
    PhiPlusSymbol(c, w, envs(0), x);
    var once := Step(c, w, next, x, envs(0));
    PhiPlusSymbol(c, w, envs(0), once);
    assert [0, 0][..1] == [0] && [0][..0] == [];
    assert Run(c, w, next, envs, x, []) == x && Run(c, w, next, envs, x, [0]) == once;
    assert Run(c, w, next, envs, x, [0, 0]) == Step(c, w, next, once, envs(0));
    assert Result(c, w, next, envs, x, [0, 0]) != Result(c, w, next, envs, x, [0]);
  }

  lemma PhiPlusSymbol(c: Ctx, w: World, env: Env, x: Word)
    requires c.pid == 0
    ensures var next := Op(FAdd, [Sym(0), Sym(1)]);
      ClassifyOne(c, next) == Named(Sum, 1) && AsNum(Step(c, w, next, x, env)) == AsNum(x) + AsNum(env(1))
  {
    var next := Op(FAdd, [Sym(0), Sym(1)]);
    assert Rest(c, next) == Some((Sym(0), 1)) && Chain(c, Sym(0), 1, MAX_CHAIN - 1) == Some(1);
    assert Chain(c, next, 0, MAX_CHAIN) == Some(1);
    assert BinaryAlgebra(c, next) == None;
    Binary(w, With(env, 0, x), FAdd, [Sym(0), Sym(1)]);
  }

  // a value overwritten each iteration may be duplicated but not reordered
  lemma PermutationNotReorder() returns (c: Ctx, w: World, next: Expr, envs: nat -> Env, x: Word)
    ensures ClassifyOne(c, next).kind.Permutation? && !ClassifyOne(c, next).permits.reorder
    ensures Result(c, w, next, envs, x, [0, 1]) != Result(c, w, next, envs, x, [1, 0])
  {
    c, w := Ctx(0, {}), (t: nat, vs: seq<Word>) => Num(0.0);
    next := Sym(1);
    envs := (i: nat) => (s: nat) => Num(i as real);
    x := Num(0.0);
    assert ClassifyOne(c, next) == Named(Permutation, 0);
    assert [0, 1][..1] == [0] && [1, 0][..1] == [1];
    assert Run(c, w, next, envs, x, [0, 1]) == Num(1.0) && Run(c, w, next, envs, x, [1, 0]) == Num(0.0);
    assert Result(c, w, next, envs, x, [0, 1]) != Result(c, w, next, envs, x, [1, 0]);
  }
}
