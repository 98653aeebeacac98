// Linear tuples: a recurrence l' = a * l + b whose scale and shift read sibling phis but not l composes associatively;
// whether it may be reordered depends on the values, not on the shape the classifier looks at.
module LinearTuple {
  import opened Options
  import opened RecurrenceExpr
  import opened Recurrence

  // ---- linear tuples: l' = a * l + b

  lemma FactorSound(c: Ctx, w: World, env: Env, e: Expr)
    requires Factor(c, e).Some?
    ensures NumAt(w, env, e) == Mul(NumAt(w, env, Factor(c, e).value), AsNum(env(c.pid))) && c.Free(Factor(c, e).value)
  {
    var m := Unwrap(e);
    UnwrapEval(w, env, e);
    hide Eval, Contains, Mul, Numeral;
    Binary(w, env, m.op, m.args);
    MulCommutes(NumAt(w, env, m.args[0]), NumAt(w, env, m.args[1]));
    if c.IsPhi(m.args[0]) && c.Free(m.args[1]) {
      PhiEval(c, w, env, m.args[0]);
    } else {
      PhiEval(c, w, env, m.args[1]);
    }
  }

  lemma MulCommutes(a: real, b: real)
    ensures Mul(a, b) == Mul(b, a)
  {
  }

  lemma LinearSound(c: Ctx, w: World, env: Env, n: Expr)
    requires Linear(c, n).Some?
    ensures var (a, b) := Linear(c, n).value;
      c.Free(a) && c.Free(b) && NumAt(w, env, n) == At((NumAt(w, env, a), NumAt(w, env, b)), AsNum(env(c.pid)))
  {
    hide Eval, Contains, Mul, Numeral, Factor;
    var u := Unwrap(n);
    UnwrapEval(w, env, n);
    if u.Call? {
      FusedMultiplyAdd(w, env, u.args);
      MulCommutes(NumAt(w, env, u.args[0]), NumAt(w, env, u.args[1]));
      PhiEval(c, w, env, if c.IsPhi(u.args[0]) && c.Free(u.args[1]) && c.Free(u.args[2]) then u.args[0] else u.args[1]);
    } else {
      Binary(w, env, u.op, u.args);
      FactorSound(c, w, env, if Factor(c, u.args[0]).Some? && c.Free(u.args[1]) then u.args[0] else u.args[1]);
    }
  }

  // the affine map of one iteration: scale and shift
  ghost function Affine(c: Ctx, w: World, next: Expr, env: Env): (real, real)
    decreases Unwrap(next)
  {
    var n := Unwrap(next);
    if n.Ite? && c.Free(n.c) && c.IsPhi(n.b) && !c.IsPhi(n.a) then
      (SmallerUnwrap(n.a); if NumAt(w, env, n.c) != 0.0 then Affine(c, w, n.a, env) else (1.0, 0.0))
    else if n.Ite? && c.Free(n.c) && c.IsPhi(n.a) && !c.IsPhi(n.b) then
      (SmallerUnwrap(n.b); if NumAt(w, env, n.c) != 0.0 then (1.0, 0.0) else Affine(c, w, n.b, env))
    else if Linear(c, n).Some? then (NumAt(w, env, Linear(c, n).value.0), NumAt(w, env, Linear(c, n).value.1))
    else (1.0, 0.0)
  }

  lemma Keeps(x: real)
    ensures At((1.0, 0.0), x) == x
  {
  }

  // a tuple with permissions is linear in the phi, with scale and shift that do not read it
  lemma {:induction false} TupleSound(c: Ctx, w: World, env: Env, next: Expr, x: Word)
    requires ClassifyOne(c, next).kind.Tuple?
      && (ClassifyOne(c, next).permits.partition || ClassifyOne(c, next).permits.treeCombine)
    ensures AsNum(Step(c, w, next, x, env)) == At(Affine(c, w, next, env), AsNum(x))
    decreases Unwrap(next)
  {
    hide Contains, Chain, BinaryAlgebra, CompareSelect, OnlyConstants, ReadsSibling, ExpOfSibling, Eval, With, Selects,
        Linear, At, PermissionsOf;
    var n := Unwrap(next);
    UnwrapEval(w, With(env, c.pid, x), next);
    Keeps(AsNum(x));
    if n.Ite? && c.Free(n.c) && c.IsPhi(n.b) && !c.IsPhi(n.a) {
      SmallerUnwrap(n.a);
      Guarded(c, w, env, n, n.a, n.b, x, x);
      TupleSound(c, w, env, n.a, x);
    } else if n.Ite? && c.Free(n.c) && c.IsPhi(n.a) && !c.IsPhi(n.b) {
      SmallerUnwrap(n.b);
      Guarded(c, w, env, n, n.b, n.a, x, x);
      TupleSound(c, w, env, n.b, x);
    } else {
      TupleShape(c, n);
      LinearStep(c, w, env, n, x);
    }
  }

  lemma LinearStep(c: Ctx, w: World, env: Env, n: Expr, x: Word)
    requires Linear(c, n).Some?
    ensures var (a, b) := Linear(c, n).value;
      NumAt(w, With(env, c.pid, x), n) == At((NumAt(w, env, a), NumAt(w, env, b)), AsNum(x))
  {
    hide Contains, Eval, With, Linear, At;
    LinearSound(c, w, With(env, c.pid, x), n);
    WithAt(env, c.pid, x);
    WithAgrees(env, c.pid, x, x);
    FreeEval(w, env, With(env, c.pid, x), c.pid, Linear(c, n).value.0);
    FreeEval(w, env, With(env, c.pid, x), c.pid, Linear(c, n).value.1);
  }

  lemma TupleShape(c: Ctx, n: Expr)
    ensures CompareSelect(c, n).Some? ==> !CompareSelect(c, n).value.Tuple?
    ensures var r := ClassifyRest(c, n);
      r.kind.Tuple? && (r.permits.partition || r.permits.treeCombine) ==> Linear(c, n).Some?
  {
    hide Contains, Chain, OnlyConstants, ReadsSibling, Selects, ExpOfSibling;
  }

  // first f, then g
  function Compose(f: (real, real), g: (real, real)): (real, real) {
    (Mul(g.0, f.0), Mul(g.0, f.1) + g.1)
  }

  ghost function TreeAffine(c: Ctx, w: World, next: Expr, envs: nat -> Env, t: Tree): (real, real) {
    match t
    case Leaf(i) => Affine(c, w, next, envs(i))
    case Node(l, r) => Compose(TreeAffine(c, w, next, envs, l), TreeAffine(c, w, next, envs, r))
  }

  function At(f: (real, real), x: real): real {
    Mul(f.0, x) + f.1
  }

  lemma Times(a: real, b: real, c: real)
    ensures Mul(Mul(a, b), c) == Mul(a, Mul(b, c)) && Mul(a, b) == Mul(b, a) && Mul(a, b + c) == Mul(a, b) + Mul(a, c)
    ensures Mul(1.0, a) == a && Mul(a, 0.0) == 0.0
  {
  }

  lemma ComposeApplies(f: (real, real), g: (real, real), x: real)
    ensures At(Compose(f, g), x) == At(g, At(f, x))
  {
    hide Mul;
    Times(g.0, f.0, x);
    Times(g.0, Mul(f.0, x), f.1);
  }

  lemma {:induction false} RunSplits(c: Ctx, w: World, next: Expr, envs: nat -> Env, x: Word, a: seq<nat>, b: seq<nat>)
    ensures Run(c, w, next, envs, x, a + b) == Run(c, w, next, envs, Run(c, w, next, envs, x, a), b)
    decreases |b|
  {
    if b == [] {
      assert a + b == a;
    } else {
      var n := |b| - 1;
      assert (a + b)[..|a + b| - 1] == a + b[..n] && (a + b)[|a + b| - 1] == b[n];
      RunSplits(c, w, next, envs, x, a, b[..n]);
    }
  }

  // partition and tree-combine of a linear tuple: the iterations' affine maps composed along any tree
  lemma {:induction false} TupleTreeCombine(c: Ctx, w: World, next: Expr, envs: nat -> Env, x: Word, t: Tree)
    requires ClassifyOne(c, next).kind.Tuple? && ClassifyOne(c, next).permits.treeCombine
    ensures AsNum(Run(c, w, next, envs, x, Leaves(t))) == At(TreeAffine(c, w, next, envs, t), AsNum(x))
    decreases t
  {
    hide ClassifyOne, Affine, Step, At, Compose, AsNum;
    match t
    case Leaf(i) =>
      assert [i][..0] == [] && Run(c, w, next, envs, x, []) == x;
      TupleSound(c, w, envs(i), next, x);
    case Node(l, r) =>
      var y := Run(c, w, next, envs, x, Leaves(l));
      RunSplits(c, w, next, envs, x, Leaves(l), Leaves(r));
      TupleTreeCombine(c, w, next, envs, x, l);
      TupleTreeCombine(c, w, next, envs, y, r);
      ComposeApplies(TreeAffine(c, w, next, envs, l), TreeAffine(c, w, next, envs, r), AsNum(x));
  }

  // ---- reorder of a linear tuple

  predicate Commutes(f: (real, real), g: (real, real)) {
    Mul(g.0, f.1) + g.1 == Mul(f.0, g.1) + f.1
  }

  // the iterations' maps along an order
  ghost function Along(maps: nat -> (real, real), order: seq<nat>): (real, real) {
    if order == [] then (1.0, 0.0) else Compose(Along(maps, order[..|order| - 1]), maps(order[|order| - 1]))
  }

  lemma ComposeLaws(f: (real, real), g: (real, real), h: (real, real))
    ensures Compose(Compose(f, g), h) == Compose(f, Compose(g, h))
    ensures Compose(f, (1.0, 0.0)) == f == Compose((1.0, 0.0), f)
    ensures Commutes(f, g) <==> Compose(f, g) == Compose(g, f)
  {
    hide Mul;
    Times(h.0, g.0, f.0);
    Times(h.0, g.0, f.1);
    Times(h.0, Mul(g.0, f.1), g.1);
    Times(f.0, g.0, 0.0);
    Times(f.0, 1.0, 0.0);
    Times(f.1, 1.0, 0.0);
    Times(1.0, f.0, 0.0);
  }

  ghost predicate AllCommute(maps: nat -> (real, real), order: seq<nat>) {
    forall i, j :: i in order && j in order ==> Commutes(maps(i), maps(j))
  }

  lemma {:induction false} AlongConcat(maps: nat -> (real, real), a: seq<nat>, b: seq<nat>)
    ensures Along(maps, a + b) == Compose(Along(maps, a), Along(maps, b))
    decreases |b|
  {
    hide Compose;
    if b == [] {
      assert a + b == a;
      ComposeLaws(Along(maps, a), (1.0, 0.0), (1.0, 0.0));
    } else {
      var n := |b| - 1;
      assert (a + b)[..|a + b| - 1] == a + b[..n] && (a + b)[|a + b| - 1] == b[n];
      AlongConcat(maps, a, b[..n]);
      ComposeLaws(Along(maps, a), Along(maps, b[..n]), maps(b[n]));
    }
  }

  lemma {:induction false} CommutesAlong(maps: nat -> (real, real), i: nat, b: seq<nat>)
    requires forall j :: j in b ==> Commutes(maps(i), maps(j))
    ensures Compose(maps(i), Along(maps, b)) == Compose(Along(maps, b), maps(i))
    decreases |b|
  {
    hide Compose, Commutes;
    var f := maps(i);
    if b == [] {
      ComposeLaws(f, f, f);
    } else {
      var n := |b| - 1;
      var g, h := Along(maps, b[..n]), maps(b[n]);
      CommutesAlong(maps, i, b[..n]);
      ComposeLaws(f, g, h);
      ComposeLaws(g, f, h);
      ComposeLaws(f, h, h);
      ComposeLaws(g, h, f);
    }
  }

  lemma {:induction false} AlongPermutes(maps: nat -> (real, real), p: seq<nat>, q: seq<nat>)
    requires multiset(p) == multiset(q) && AllCommute(maps, p)
    ensures Along(maps, p) == Along(maps, q)
    decreases |p|
  {
    hide Compose, Commutes;
    if p == [] {
      assert |multiset(q)| == 0;
    } else {
      var n := |p| - 1;
      var k := FindLast(p, q);
      var a, b := q[..k], q[k + 1..];
      AlongPermutes(maps, p[..n], a + b);
      CommutesAlong(maps, p[n], b);
      AlongConcat(maps, a + [q[k]], b);
      AlongConcat(maps, a, [q[k]]);
      AlongConcat(maps, a, b);
      assert [q[k]][..0] == [];
      ComposeLaws(maps(q[k]), maps(q[k]), maps(q[k]));
      ComposeLaws(Along(maps, a), maps(q[k]), Along(maps, b));
      ComposeLaws(Along(maps, a), Along(maps, b), maps(q[k]));
    }
  }

  ghost function Maps(c: Ctx, w: World, next: Expr, envs: nat -> Env): nat -> (real, real) {
    (i: nat) => Affine(c, w, next, envs(i))
  }

  lemma {:induction false} RunAlong(c: Ctx, w: World, next: Expr, envs: nat -> Env, x: Word, order: seq<nat>)
    requires ClassifyOne(c, next).kind.Tuple? && ClassifyOne(c, next).permits.partition
    ensures AsNum(Run(c, w, next, envs, x, order)) == At(Along(Maps(c, w, next, envs), order), AsNum(x))
    decreases |order|
  {
    hide ClassifyOne, Affine, Step, Compose;
    if order != [] {
      hide At, AsNum;
      var n := |order| - 1;
      RunAlong(c, w, next, envs, x, order[..n]);
      TupleSound(c, w, envs(order[n]), next, Run(c, w, next, envs, x, order[..n]));
      ComposeApplies(Along(Maps(c, w, next, envs), order[..n]), Maps(c, w, next, envs)(order[n]), AsNum(x));
    }
  }

  // a linear tuple may be reordered exactly when every two iterations' maps commute
  lemma ReorderIsCommuting(c: Ctx, w: World, next: Expr, envs: nat -> Env, iters: set<nat>)
    requires ClassifyOne(c, next).kind.Tuple? && ClassifyOne(c, next).permits.partition
    ensures CommuteOn(Maps(c, w, next, envs), iters) <==> Reorders(c, w, next, envs, iters)
  {
    hide ClassifyOne, Affine, Run, Maps, Commutes;
    if CommuteOn(Maps(c, w, next, envs), iters) {
      forall x: Word, p: seq<nat>, q: seq<nat> | multiset(p) == multiset(q) && forall i :: i in p ==> i in iters
        ensures AsNum(Run(c, w, next, envs, x, p)) == AsNum(Run(c, w, next, envs, x, q))
      {
        AlongPermutes(Maps(c, w, next, envs), p, q);
        RunAlong(c, w, next, envs, x, p);
        RunAlong(c, w, next, envs, x, q);
      }
    }
    if Reorders(c, w, next, envs, iters) {
      forall i, j | i in iters && j in iters ensures Commutes(Maps(c, w, next, envs)(i), Maps(c, w, next, envs)(j)) {
        PairCommutes(c, w, next, envs, iters, i, j);
      }
    }
  }

  // no iteration scales
  ghost predicate AllShift(maps: nat -> (real, real), iters: set<nat>) {
    forall i :: i in iters ==> maps(i).0 == 1.0
  }

  // one value that every iteration leaves as it is
  ghost predicate AllFix(maps: nat -> (real, real), iters: set<nat>, x: real) {
    forall i :: i in iters ==> At(maps(i), x) == x
  }

  // the fixed point of a map that scales
  lemma FixedPoint(f: (real, real)) returns (x: real)
    requires f.0 != 1.0
    ensures At(f, x) == x && forall y :: At(f, y) == y ==> y == x
  {
    x := f.1 / (1.0 - f.0);
    assert x * (1.0 - f.0) == f.1;
    forall y | At(f, y) == y ensures y == x {
      Cancels(y - x, 1.0 - f.0);
    }
  }

  lemma Cancels(a: real, b: real)
    requires a * b == 0.0 && b != 0.0
    ensures a == 0.0
  {
    assert a == a * b / b;
  }

  lemma CommutingApplies(f: (real, real), g: (real, real), x: real)
    requires Commutes(f, g)
    ensures At(f, At(g, x)) == At(g, At(f, x))
  {
    hide At, Compose, Mul, Commutes;
    ComposeLaws(f, g, f);
    ComposeApplies(f, g, x);
    ComposeApplies(g, f, x);
  }

  lemma SharedFixCommutes(f: (real, real), g: (real, real), x: real)
    requires At(f, x) == x && At(g, x) == x
    ensures Commutes(f, g)
  {
    var a, b, p, q := f.0, g.0, f.1, g.1;
    assert p == x - a * x && q == x - b * x;
    assert b * p == b * x - b * (a * x) && a * q == a * x - a * (b * x);
    assert b * (a * x) == a * (b * x);
  }

  lemma ShiftsCommute(f: (real, real), g: (real, real))
    requires f.0 == 1.0 && g.0 == 1.0
    ensures Commutes(f, g)
  {
  }

  // maps commute exactly when none scales or all have a common fixed point
  lemma CommutingMaps(maps: nat -> (real, real), iters: set<nat>)
    ensures CommuteOn(maps, iters) <==> AllShift(maps, iters) || exists x :: AllFix(maps, iters, x)
  {
    hide Commutes, At;
    if AllShift(maps, iters) {
      forall i, j | i in iters && j in iters ensures Commutes(maps(i), maps(j)) { ShiftsCommute(maps(i), maps(j)); }
    }
    if x :| AllFix(maps, iters, x) {
      forall i, j | i in iters && j in iters ensures Commutes(maps(i), maps(j)) {
        SharedFixCommutes(maps(i), maps(j), x);
      }
    }
    if CommuteOn(maps, iters) && !AllShift(maps, iters) {
      var i :| i in iters && maps(i).0 != 1.0;
      var x := FixedPoint(maps(i));
      forall j | j in iters ensures At(maps(j), x) == x { CommutingApplies(maps(i), maps(j), x); }
      assert AllFix(maps, iters, x);
    }
  }

  // a linear tuple may be reordered exactly when no iteration scales, or there is a value every iteration leaves alone
  lemma TupleReorderExactly(c: Ctx, w: World, next: Expr, envs: nat -> Env, iters: set<nat>)
    requires ClassifyOne(c, next).kind.Tuple? && ClassifyOne(c, next).permits.partition
    ensures var maps := Maps(c, w, next, envs);
      Reorders(c, w, next, envs, iters) <==> AllShift(maps, iters) || exists x :: AllFix(maps, iters, x)
  {
    hide ClassifyOne, AllShift, AllFix, CommuteOn, Reorders, Maps;
    ReorderIsCommuting(c, w, next, envs, iters);
    CommutingMaps(Maps(c, w, next, envs), iters);
  }

  ghost predicate CommuteOn(maps: nat -> (real, real), iters: set<nat>) {
    forall i, j :: i in iters && j in iters ==> Commutes(maps(i), maps(j))
  }

  ghost predicate Reorders(c: Ctx, w: World, next: Expr, envs: nat -> Env, iters: set<nat>) {
    forall x: Word, p: seq<nat>, q: seq<nat> :: multiset(p) == multiset(q) && (forall i :: i in p ==> i in iters) ==>
      AsNum(Run(c, w, next, envs, x, p)) == AsNum(Run(c, w, next, envs, x, q))
  }

  lemma PairCommutes(c: Ctx, w: World, next: Expr, envs: nat -> Env, iters: set<nat>, i: nat, j: nat)
    requires ClassifyOne(c, next).kind.Tuple? && ClassifyOne(c, next).permits.partition
    requires Reorders(c, w, next, envs, iters) && i in iters && j in iters
    ensures Commutes(Maps(c, w, next, envs)(i), Maps(c, w, next, envs)(j))
  {
    hide ClassifyOne, Affine, Run, Along, Maps;
    var maps, x := Maps(c, w, next, envs), Num(0.0);
    assert [i, j] == [i] + [j] && [j, i] == [j] + [i];
    assert multiset([i, j]) == multiset([j, i]);
    RunAlong(c, w, next, envs, x, [i, j]);
    RunAlong(c, w, next, envs, x, [j, i]);
    PairAlong(maps, i, j);
    PairAlong(maps, j, i);
  }

  lemma PairAlong(maps: nat -> (real, real), i: nat, j: nat)
    ensures Along(maps, [i, j]) == Compose(maps(i), maps(j))
  {
    hide Compose;
    assert [i, j][..1] == [i] && [i][..0] == [];
    assert Along(maps, [i]) == Compose(Along(maps, []), maps(i));
    ComposeLaws(maps(i), maps(i), maps(i));
  }

  // the reorder grant for an exponential scale is syntactic: here it is given, the sibling is 1 throughout, exp(1) is
  // 2, and two iterations do not commute
  lemma ExponentialScaleMayNotReorder() returns (c: Ctx, w: World, next: Expr, envs: nat -> Env, x: Word)
    ensures ClassifyOne(c, next).kind.Tuple? && ClassifyOne(c, next).permits.reorder
    ensures c == Ctx(0, {1}) && envs(0)(1) == envs(1)(1) == Num(1.0)
    ensures AsNum(Run(c, w, next, envs, x, [0, 1])) != AsNum(Run(c, w, next, envs, x, [1, 0]))
  {
    hide ClassifyOne, Run, AsNum;
    c, w := Ctx(0, {1}), (t: nat, vs: seq<Word>) => if vs == [Num(1.0)] then Num(2.0) else Num(1.0);
    next := Call(FmaName, [Sym(0), Call(ExpName, [Sym(1)]), Sym(2)]);
    envs := (i: nat) => (s: nat) => if s == 1 then Num(1.0) else Num(i as real);
    x := Num(0.0);
    NumOf(envs(0)(2));
    NumOf(envs(1)(2));
    ScaledByExp(c);
    OrdersDiffer(c, w, next, envs, x);
  }

  lemma OrdersDiffer(c: Ctx, w: World, next: Expr, envs: nat -> Env, x: Word)
    requires c == Ctx(0, {1}) && next == Call(FmaName, [Sym(0), Call(ExpName, [Sym(1)]), Sym(2)]) && x == Num(0.0)
    requires w(4, [Num(1.0)]) == Num(2.0) && envs(0)(1) == envs(1)(1) == Num(1.0)
    requires AsNum(envs(0)(2)) == 0.0 && AsNum(envs(1)(2)) == 1.0
    ensures AsNum(Run(c, w, next, envs, x, [0, 1])) != AsNum(Run(c, w, next, envs, x, [1, 0]))
  {
    ScaledByExp(c);
    AffineByExp(c, w, envs(0));
    AffineByExp(c, w, envs(1));
    hide ClassifyOne, Affine, Run, Along, AsNum;
    RunAlong(c, w, next, envs, x, [0, 1]);
    RunAlong(c, w, next, envs, x, [1, 0]);
    PairAlong(Maps(c, w, next, envs), 0, 1);
    PairAlong(Maps(c, w, next, envs), 1, 0);
    assert Compose((2.0, 0.0), (2.0, 1.0)) == (4.0, 1.0) && Compose((2.0, 1.0), (2.0, 0.0)) == (4.0, 2.0);
    assert AsNum(x) == 0.0 by { NumOf(x); }
  }

  lemma NumOf(x: Word)
    ensures x.Num? ==> AsNum(x) == x.r
  {
  }

  lemma ScaledByExp(c: Ctx)
    requires c == Ctx(0, {1})
    ensures var scale := Call(ExpName, [Sym(1)]);
      var next := Call(FmaName, [Sym(0), scale, Sym(2)]);
      && Linear(c, next) == Some((scale, Sym(2)))
      && ClassifyOne(c, next).kind.Tuple? && ClassifyOne(c, next).permits == Permissions(true, true, false, true)
  {
    var scale := Call(ExpName, [Sym(1)]);
    var next := Call(FmaName, [Sym(0), scale, Sym(2)]);
    assert Contains(next.args[0], 0);
    assert !Contains(scale.args[0], 0) && !Contains(scale, 0);
    assert !c.Free(next.args[0]) && c.Free(scale) && c.Free(next.args[2]);
    assert Linear(c, next) == Some((scale, Sym(2)));
    assert Contains(scale.args[0], 1) && Contains(scale, 1) && Contains(next.args[1], 1) && Contains(next, 1);
    assert ExpOfSibling(c, scale) && ReadsSibling(c, next);
    FmaTuple(c, next);
  }

  lemma FmaTuple(c: Ctx, n: Expr)
    requires n.Call? && n.callee.FmaName? && |n.args| >= 3 && !c.Free(n.args[0]) && ReadsSibling(c, n)
    ensures ClassifyOne(c, n) == ClassifyTuple(c, n)
  {
    hide Contains, ClassifyTuple;
    assert Rest(c, n) == None && !c.IsPhi(n);
    assert Chain(c, n, 0, MAX_CHAIN) == None;
  }

  lemma AffineByExp(c: Ctx, w: World, env: Env)
    requires c == Ctx(0, {1}) && w(4, [Num(1.0)]) == Num(2.0) && env(1) == Num(1.0)
    ensures Affine(c, w, Call(FmaName, [Sym(0), Call(ExpName, [Sym(1)]), Sym(2)]), env) == (2.0, AsNum(env(2)))
  {
    hide ClassifyOne, Linear, Numeral, Contains;
    ScaledByExp(c);
    assert Eval(w, env, Call(ExpName, [Sym(1)])) == w(4, EvalAll(w, env, [Sym(1)]));
    assert EvalAll(w, env, [Sym(1)]) == [Num(1.0)];
    assert Eval(w, env, Sym(2)) == env(2);
    hide Eval, EvalAll;
  }
}
