// Each right is granted to an algebra exactly when it leaves every run of every recurrence of that algebra unchanged.
module Grants {
  import opened Options
  import opened RecurrenceExpr
  import opened Recurrence

  // algebras that say how the next value comes from the phi
  predicate Definite(kind: Algebra) {
    Folds(kind) || kind.Permutation? || kind.OrderSensitive?
  }

  // a run in two parts is the initial value combined with the totals of the parts
  ghost predicate Splits(kind: Algebra, c: Ctx, w: World, next: Expr, envs: nat -> Env, x: Word, a: seq<nat>,
      b: seq<nat>)
  {
    ClassifyOne(c, next).kind == kind ==>
      var parts := Parts(c, w, next, envs);
      Result(c, w, next, envs, x, a + b) == Absorb(kind, x, Merge(kind, Total(kind, parts, a), Total(kind, parts, b)))
  }

  // a run is the initial value combined with the contributions merged along a tree
  ghost predicate Combines(kind: Algebra, c: Ctx, w: World, next: Expr, envs: nat -> Env, x: Word, t: Tree) {
    ClassifyOne(c, next).kind == kind ==>
      Result(c, w, next, envs, x, Leaves(t)) == Absorb(kind, x, TreeTotal(kind, Parts(c, w, next, envs), t))
  }

  // two orders of the same iterations give one result
  ghost predicate Reorders(kind: Algebra, c: Ctx, w: World, next: Expr, envs: nat -> Env, x: Word, p: seq<nat>,
      q: seq<nat>)
  {
    ClassifyOne(c, next).kind == kind && multiset(p) == multiset(q) ==>
      Result(c, w, next, envs, x, p) == Result(c, w, next, envs, x, q)
  }

  // an iteration run twice in a row is that iteration run once
  ghost predicate Repeats(kind: Algebra, c: Ctx, w: World, next: Expr, envs: nat -> Env, x: Word, p: seq<nat>, i: nat) {
    ClassifyOne(c, next).kind == kind ==>
      Result(c, w, next, envs, x, p + [i, i]) == Result(c, w, next, envs, x, p + [i])
  }

  // ---- a fold keeps its runs under every right it has

  lemma FoldRights(kind: Algebra)
    requires Folds(kind)
    ensures PermissionsOf(kind).partition && PermissionsOf(kind).treeCombine && PermissionsOf(kind).reorder
  {
  }

  lemma FoldSplits(kind: Algebra, c: Ctx, w: World, next: Expr, envs: nat -> Env, x: Word, a: seq<nat>, b: seq<nat>)
    requires Folds(kind)
    ensures Splits(kind, c, w, next, envs, x, a, b)
  {
    hide ClassifyOne, Run, Total, Parts, Absorb, Merge, PermissionsOf;
    if ClassifyOne(c, next).kind == kind {
      RunIsTotal(c, w, next, envs, x, a + b);
      TotalConcat(kind, Parts(c, w, next, envs), a, b);
    }
  }

  lemma FoldCombines(kind: Algebra, c: Ctx, w: World, next: Expr, envs: nat -> Env, x: Word, t: Tree)
    requires Folds(kind)
    ensures Combines(kind, c, w, next, envs, x, t)
  {
    hide ClassifyOne, Run, Total, TreeTotal, Parts, Absorb, Merge, PermissionsOf;
    if ClassifyOne(c, next).kind == kind {
      RunIsTotal(c, w, next, envs, x, Leaves(t));
      TreeIsTotal(kind, Parts(c, w, next, envs), t);
    }
  }

  lemma FoldReorders(kind: Algebra, c: Ctx, w: World, next: Expr, envs: nat -> Env, x: Word, p: seq<nat>, q: seq<nat>)
    requires Folds(kind)
    ensures Reorders(kind, c, w, next, envs, x, p, q)
  {
    hide ClassifyOne, Run, Total, Parts, Absorb, Merge, PermissionsOf;
    if ClassifyOne(c, next).kind == kind && multiset(p) == multiset(q) {
      RunIsTotal(c, w, next, envs, x, p);
      RunIsTotal(c, w, next, envs, x, q);
      TotalPermutes(kind, Parts(c, w, next, envs), p, q);
    }
  }

  lemma RunTwice(c: Ctx, w: World, next: Expr, envs: nat -> Env, x: Word, p: seq<nat>, i: nat)
    ensures var v := Run(c, w, next, envs, x, p);
      && Run(c, w, next, envs, x, p + [i]) == Step(c, w, next, v, envs(i))
      && Run(c, w, next, envs, x, p + [i, i]) == Step(c, w, next, Step(c, w, next, v, envs(i)), envs(i))
  {
    hide Step;
    assert (p + [i])[..|p|] == p && (p + [i, i])[..|p| + 1] == p + [i];
  }

  lemma RepeatsOnce(kind: Algebra, c: Ctx, w: World, next: Expr, envs: nat -> Env, x: Word, p: seq<nat>, i: nat)
    requires Idempotent(kind) || kind.Permutation?
    ensures Repeats(kind, c, w, next, envs, x, p, i)
  {
    hide ClassifyOne, Run, Step, View;
    if ClassifyOne(c, next).kind == kind {
      if kind.Permutation? {
        RunTwice(c, w, next, envs, x, p, i);
        PermutationRepeats(c, w, next, envs(i), Run(c, w, next, envs, x, p));
      } else {
        PermittedFolds(c, next);
        DuplicatePermitted(c, w, next, envs, x, p + [i, i], p + [i]);
      }
    }
  }

  // ---- a right not granted fails on some run

  // the phi is dropped, or subtracted from
  function Witness(kind: Algebra): Expr {
    if kind.OrderSensitive? then Op(FSub, [Sym(1), Sym(0)])
    else if kind.BitXor? then Op(Xor, [Sym(0), Sym(1)])
    else Sym(1)
  }

  lemma WitnessKind(c: Ctx, kind: Algebra)
    requires c == Ctx(0, {}) && (kind.OrderSensitive? || kind.BitXor? || kind.Permutation?)
    ensures ClassifyOne(c, Witness(kind)).kind == kind
  {
    var n := Witness(kind);
    if kind.OrderSensitive? {
      assert Contains(n.args[1], 0);
      assert Chain(c, n, 0, MAX_CHAIN) == None;
    }
  }

  lemma SubtractStep(c: Ctx, w: World, env: Env, x: Word)
    requires c.pid == 0
    ensures AsNum(Step(c, w, Witness(OrderSensitive), x, env)) == AsNum(env(1)) - AsNum(x)
  {
    Binary(w, With(env, 0, x), FSub, [Sym(1), Sym(0)]);
  }

  lemma XorStep(c: Ctx, w: World, env: Env, x: Word)
    requires c.pid == 0
    ensures Step(c, w, Witness(BitXor), x, env) == Bits(BvXor(AsBits(x), AsBits(env(1))))
  {
    BinaryEval(w, With(env, 0, x), Witness(BitXor));
  }

  function Constant(v: Word): nat -> Env {
    (i: nat) => (s: nat) => v
  }

  function Counting(): nat -> Env {
    (i: nat) => (s: nat) => Num(i as real)
  }

  function NoWorld(): World {
    (t: nat, vs: seq<Word>) => Num(0.0)
  }

  lemma TwoSteps(c: Ctx, w: World, next: Expr, envs: nat -> Env, x: Word, i: nat, j: nat)
    ensures Run(c, w, next, envs, x, [i]) == Step(c, w, next, x, envs(i))
    ensures Run(c, w, next, envs, x, [i, j]) == Step(c, w, next, Step(c, w, next, x, envs(i)), envs(j))
  {
    hide Step;
    assert [i][..0] == [] && [i, j][..1] == [i];
  }

  lemma OverwriteStep(c: Ctx, w: World, env: Env, x: Word)
    requires c.pid == 0
    ensures Step(c, w, Witness(Permutation), x, env) == env(1)
  {
  }

  // the recurrence of the witness, its phi 0 read in environments where symbol 1 is v
  lemma WitnessGain(c: Ctx, kind: Algebra, env: Env)
    requires c == Ctx(0, {}) && (kind.OrderSensitive? || kind.Permutation?)
    ensures Gain(c, NoWorld(), Witness(kind), env) == Some(Num(AsNum(env(1))))
  {
    if kind.OrderSensitive? { Binary(NoWorld(), With(env, 0, Num(0.0)), FSub, [Sym(1), Sym(0)]); }
  }

  // of what overwrites or subtracts from the phi, a run of two is not the sum of two contributions
  lemma NoFold(kind: Algebra)
    returns (c: Ctx, w: World, next: Expr, envs: nat -> Env, x: Word)
    requires kind.Permutation? || kind.OrderSensitive?
    ensures var part := Parts(c, w, next, envs)(0);
      && ClassifyOne(c, next).kind == kind && Total(kind, Parts(c, w, next, envs), [0]) == part
      && Result(c, w, next, envs, x, [0, 0]) != Absorb(kind, x, Merge(kind, part, part))
  {
    c, w, next, envs, x := Ctx(0, {}), NoWorld(), Witness(kind), Constant(Num(1.0)), Num(0.0);
    WitnessKind(c, kind);
    WitnessGain(c, kind, envs(0));
    TwoSteps(c, w, next, envs, x, 0, 0);
    OneTotal(kind, Parts(c, w, next, envs), 0);
    hide ClassifyOne, Gain, Step, Total, Witness, Run, Numeral;
    var once := Step(c, w, next, x, envs(0));
    if kind.OrderSensitive? {
      SubtractStep(c, w, envs(0), x);
      SubtractStep(c, w, envs(0), once);
    } else {
      OverwriteStep(c, w, envs(0), once);
    }
  }

  lemma OneTotal(kind: Algebra, parts: nat -> Option<Word>, i: nat)
    ensures Total(kind, parts, [i]) == parts(i)
  {
    assert [i][..0] == [];
    MergeLaws(kind, parts(i), None, None);
  }

  lemma OrderShows(kind: Algebra)
    returns (c: Ctx, w: World, next: Expr, envs: nat -> Env, x: Word)
    requires kind.Permutation? || kind.OrderSensitive?
    ensures ClassifyOne(c, next).kind == kind
    ensures Result(c, w, next, envs, x, [0, 1]) != Result(c, w, next, envs, x, [1, 0])
  {
    c, w, next, envs, x := Ctx(0, {}), NoWorld(), Witness(kind), Counting(), Num(0.0);
    WitnessKind(c, kind);
    TwoSteps(c, w, next, envs, x, 0, 1);
    TwoSteps(c, w, next, envs, x, 1, 0);
    hide ClassifyOne, Step, Witness, Run, Numeral;
    var first, second := Step(c, w, next, x, envs(0)), Step(c, w, next, x, envs(1));
    if kind.OrderSensitive? {
      SubtractStep(c, w, envs(0), x);
      SubtractStep(c, w, envs(1), x);
      SubtractStep(c, w, envs(1), first);
      SubtractStep(c, w, envs(0), second);
    } else {
      OverwriteStep(c, w, envs(1), first);
      OverwriteStep(c, w, envs(0), second);
    }
  }

  lemma RepeatShows(kind: Algebra)
    returns (c: Ctx, w: World, next: Expr, envs: nat -> Env, x: Word)
    requires kind.Sum? || kind.BitXor? || kind.OrderSensitive?
    ensures ClassifyOne(c, next).kind == kind
    ensures Result(c, w, next, envs, x, [0, 0]) != Result(c, w, next, envs, x, [0])
  {
    if kind.Sum? {
      c, w, next, envs, x := SumNotDuplicate();
    } else {
      c, w, next, x := Ctx(0, {}), NoWorld(), Witness(kind), if kind.BitXor? then Bits(0) else Num(0.0);
      envs := Constant(if kind.BitXor? then Bits(1) else Num(1.0));
      WitnessKind(c, kind);
      TwoSteps(c, w, next, envs, x, 0, 0);
      hide ClassifyOne, Step, Witness, Run, Numeral;
      var once := Step(c, w, next, x, envs(0));
      if kind.BitXor? {
        XorStep(c, w, envs(0), x);
        XorStep(c, w, envs(0), once);
        assert BvXor(0, 1) == 1 && BvXor(1, 1) == 0;
      } else {
        SubtractStep(c, w, envs(0), x);
        SubtractStep(c, w, envs(0), once);
      }
    }
  }

  // ---- the rights granted

  lemma PartitionGranted(kind: Algebra)
    requires Definite(kind)
    ensures PermissionsOf(kind).partition
      <==> forall c, w, next, envs, x, a, b :: Splits(kind, c, w, next, envs, x, a, b)
  {
    if Folds(kind) {
      forall c, w, next, envs, x, a, b ensures Splits(kind, c, w, next, envs, x, a, b) {
        FoldSplits(kind, c, w, next, envs, x, a, b);
      }
      FoldRights(kind);
    } else {
      var c, w, next, envs, x := NoFold(kind);
      assert [0] + [0] == [0, 0];
      assert !Splits(kind, c, w, next, envs, x, [0], [0]);
    }
  }

  lemma TreeCombineGranted(kind: Algebra)
    requires Definite(kind)
    ensures PermissionsOf(kind).treeCombine <==> forall c, w, next, envs, x, t :: Combines(kind, c, w, next, envs, x, t)
  {
    if Folds(kind) {
      forall c, w, next, envs, x, t ensures Combines(kind, c, w, next, envs, x, t) {
        FoldCombines(kind, c, w, next, envs, x, t);
      }
      FoldRights(kind);
    } else {
      var c, w, next, envs, x := NoFold(kind);
      var t := Node(Leaf(0), Leaf(0));
      TreeIsTotal(kind, Parts(c, w, next, envs), Leaf(0));
      assert Leaves(t) == [0, 0];
      assert !Combines(kind, c, w, next, envs, x, t);
    }
  }

  lemma ReorderGranted(kind: Algebra)
    requires Definite(kind)
    ensures PermissionsOf(kind).reorder
      <==> forall c, w, next, envs, x, p, q :: Reorders(kind, c, w, next, envs, x, p, q)
  {
    if Folds(kind) {
      forall c, w, next, envs, x, p, q ensures Reorders(kind, c, w, next, envs, x, p, q) {
        FoldReorders(kind, c, w, next, envs, x, p, q);
      }
      FoldRights(kind);
    } else {
      var c, w, next, envs, x := OrderShows(kind);
      assert multiset([0, 1]) == multiset([1, 0]);
      assert !Reorders(kind, c, w, next, envs, x, [0, 1], [1, 0]);
    }
  }

  // an induction is recomputed by every copy, so it may be duplicated whatever it adds
  lemma DuplicateGranted(kind: Algebra)
    requires Definite(kind)
    ensures PermissionsOf(kind).duplicate <==>
      kind.Induction? || forall c, w, next, envs, x, p, i :: Repeats(kind, c, w, next, envs, x, p, i)
  {
    if kind.Induction? {
    } else if Idempotent(kind) || kind.Permutation? {
      forall c, w, next, envs, x, p, i ensures Repeats(kind, c, w, next, envs, x, p, i) {
        RepeatsOnce(kind, c, w, next, envs, x, p, i);
      }
    } else {
      var c, w, next, envs, x := RepeatShows(kind);
      assert [] + [0, 0] == [0, 0] && [] + [0] == [0];
      assert !Repeats(kind, c, w, next, envs, x, [], 0);
    }
  }

  // which is exactly that combining a value with itself gives it back
  lemma DuplicateExactly(kind: Algebra)
    requires Folds(kind) && !kind.Induction? && !kind.Invariant?
    ensures PermissionsOf(kind).duplicate <==> forall a :: Combine(kind, a, a) == View(kind, a)
  {
    hide Numeral, BvAnd, BvOr, BvXor;
    if PermissionsOf(kind).duplicate {
      forall a ensures Combine(kind, a, a) == View(kind, a) { CombineLaws(kind, a, a, a); }
    } else if kind.Sum? {
      assert Combine(kind, Num(1.0), Num(1.0)) != View(kind, Num(1.0));
    } else {
      XorOnes();
      assert Combine(kind, Bits(1), Bits(1)) != View(kind, Bits(1));
    }
  }

  lemma XorOnes()
    ensures BvXor(1, 1) == 0
  {
  }
}
