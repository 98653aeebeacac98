// The classifier is complete for the forms it names: a sum, extremum or bitwise fold is recognized exactly when the
// next value has the form, however the additive chain is written.
module Recognition {
  import opened Options
  import opened RecurrenceExpr

  // one atom with coefficient one in its own type is read through, and nothing else
  lemma UnwrapExactly(e: Expr, x: Expr)
    ensures e == Poly([Term([x], 1)], true) ==> Unwrap(e) == x
    ensures Unwrap(e) != e ==> e == Poly([Term([Unwrap(e)], 1)], true)
  {
    if IsAtom(e) {
      var t := e.terms[0];
      assert e.terms == [t] && t.mono == [t.mono[0]];
    }
  }

  // ---- additive chains, with free choice of the operand that carries the phi

  // one link: y carries the phi on, and everything added or subtracted is free of it
  predicate Links(c: Ctx, x: Expr, y: Expr) {
    match x
    case Call(callee, args) => callee.FmaName? && |args| >= 3 && c.Free(args[0]) && c.Free(args[1]) && y == args[2]
    case Op(op, args) =>
      || ((op.FAdd? || op.Add?) && |args| == 2
        && ((c.Free(args[1]) && y == args[0]) || (c.Free(args[0]) && y == args[1])))
      || ((op.FSub? || op.Sub?) && |args| == 2 && c.Free(args[1]) && y == args[0])
      || ((op.FPExt? || op.FPTrunc?) && |args| == 1 && y == args[0])
    case _ => false
  }

  // what a link adds: a conversion adds nothing
  function Adds(x: Expr): nat {
    if x.Op? && (x.op.FPExt? || x.op.FPTrunc?) then 0 else 1
  }

  // the phi once, and nothing else that reads it
  predicate PhiOnce(terms: seq<Term>, pid: nat) {
    exists k :: 0 <= k < |terms| && terms[k] == Term([Sym(pid)], 1) && forall i, j ::
      0 <= i < |terms| && i != k && 0 <= j < |terms[i].mono| ==> !Contains(terms[i].mono[j], pid)
  }

  lemma PhiOnceIs(terms: seq<Term>, pid: nat)
    ensures PhiOnce(terms, pid) <==> OnePhi(terms, pid)
  {
    if k :| 0 <= k < |terms| && terms[k] == Term([Sym(pid)], 1) && forall i, j ::
      0 <= i < |terms| && i != k && 0 <= j < |terms[i].mono| ==> !Contains(terms[i].mono[j], pid)
    {
      hide Contains;
      assert IsPhiTerm(terms[k], pid) && forall i :: 0 <= i < |terms| && i != k ==> TermFree(terms[i], pid);
    }
    if k :| 0 <= k < |terms| && IsPhiTerm(terms[k], pid) && terms[k].coef == 1 && forall i ::
      0 <= i < |terms| && i != k ==> TermFree(terms[i], pid)
    {
      hide Contains;
      assert terms[k].mono == [Sym(pid)];
    }
  }

  ghost predicate Ends(c: Ctx, x: Expr, t: nat) {
    if c.IsPhi(x) then t == 0 else x.Poly? && PhiOnce(x.terms, c.pid) && t == |x.terms| - 1
  }

  // n links down to the phi, or to a polynomial with the phi as one monomial, adding t terms
  ghost predicate Additive(c: Ctx, x: Expr, n: nat, t: nat) {
    if n == 0 then Ends(c, x, t) else !c.IsPhi(x) && exists y ::
      Links(c, x, y) && t >= Adds(x) && Additive(c, y, n - 1, t - Adds(x))
  }

  lemma PhiRead(c: Ctx, e: Expr)
    requires c.IsPhi(e)
    ensures !c.Free(e)
  {
    if IsAtom(e) { assert Contains(e.terms[0].mono[0], c.pid); }
  }

  // a chain reads its phi
  lemma {:induction false} ChainReads(c: Ctx, x: Expr, n: nat, t: nat)
    requires Additive(c, x, n, t)
    ensures !c.Free(x)
  {
    hide OnePhi, PhiOnce;
    if n == 0 {
      if c.IsPhi(x) { PhiRead(c, x); } else { PhiOnceIs(x.terms, c.pid); OnePhiReads(c, x); }
    } else {
      var y :| Links(c, x, y) && t >= Adds(x) && Additive(c, y, n - 1, t - Adds(x));
      ChainReads(c, y, n - 1, t - Adds(x));
    }
  }

  lemma OnePhiReads(c: Ctx, x: Expr)
    requires x.Poly? && OnePhi(x.terms, c.pid)
    ensures !c.Free(x)
  {
    var k :| 0 <= k < |x.terms| && IsPhiTerm(x.terms[k], c.pid);
    assert Contains(x.terms[k].mono[0], c.pid);
  }

  // the greedy choice of the walk is the only one a chain leaves
  lemma LinkIsRest(c: Ctx, x: Expr, y: Expr)
    requires Links(c, x, y) && !c.Free(y)
    ensures Rest(c, x) == Some((y, Adds(x))) && !x.Poly?
  {
    hide Contains;
  }

  lemma RestIsLink(c: Ctx, x: Expr)
    requires Rest(c, x).Some?
    ensures Links(c, x, Rest(c, x).value.0) && Rest(c, x).value.1 == Adds(x)
  {
    hide Contains;
  }

  // the walk finds a chain whenever there is one of fewer links than its bound
  lemma {:induction false} WalkFinds(c: Ctx, x: Expr, n: nat, t: nat, terms: nat, guard: nat)
    requires Additive(c, x, n, t) && n < guard
    ensures Chain(c, x, terms, guard) == if EndsInPhi(c, x, n) && terms + t == 0 then None else Some(terms + t)
    decreases n
  {
    hide OnePhi, PhiOnce, Links, Rest;
    if x.Poly? { PhiOnceIs(x.terms, c.pid); }
    if n > 0 {
      var y :| Links(c, x, y) && t >= Adds(x) && Additive(c, y, n - 1, t - Adds(x));
      ChainReads(c, y, n - 1, t - Adds(x));
      LinkIsRest(c, x, y);
      WalkFinds(c, y, n - 1, t - Adds(x), terms + Adds(x), guard - 1);
    }
  }

  // where following the operands that carry the phi ends after n links
  ghost predicate EndsInPhi(c: Ctx, x: Expr, n: nat) {
    if n == 0 then c.IsPhi(x) else Rest(c, x).Some? && EndsInPhi(c, Rest(c, x).value.0, n - 1)
  }

  lemma {:induction false} WalkIsChain(c: Ctx, x: Expr, terms: nat, guard: nat) returns (n: nat, t: nat)
    requires Chain(c, x, terms, guard).Some?
    ensures Additive(c, x, n, t) && n < guard && Chain(c, x, terms, guard) == Some(terms + t)
    ensures !(EndsInPhi(c, x, n) && terms + t == 0)
    decreases guard
  {
    hide OnePhi, PhiOnce, Links, Rest;
    if x.Poly? { PhiOnceIs(x.terms, c.pid); }
    if c.IsPhi(x) {
      n, t := 0, 0;
    } else if x.Poly? {
      OnePhiSome(x.terms, c.pid);
      n, t := 0, |x.terms| - 1;
    } else {
      var y, k := Rest(c, x).value.0, Rest(c, x).value.1;
      RestIsLink(c, x);
      n, t := WalkIsChain(c, y, terms + k, guard - 1);
      n, t := n + 1, t + k;
    }
  }

  lemma OnePhiSome(terms: seq<Term>, pid: nat)
    requires OnePhi(terms, pid)
    ensures |terms| > 0
  {
  }

  // fewer than 4096 links, and something added or a polynomial to read it from
  ghost predicate IsChain(c: Ctx, x: Expr) {
    exists n: nat, t: nat :: Additive(c, x, n, t) && n < MAX_CHAIN && !(EndsInPhi(c, x, n) && t == 0)
  }

  lemma ChainExactly(c: Ctx, x: Expr)
    ensures Chain(c, x, 0, MAX_CHAIN).Some? <==> IsChain(c, x)
  {
    hide Additive, EndsInPhi;
    if Chain(c, x, 0, MAX_CHAIN).Some? {
      var n, t := WalkIsChain(c, x, 0, MAX_CHAIN);
    }
    if IsChain(c, x) {
      var n: nat, t: nat :| Additive(c, x, n, t) && n < MAX_CHAIN && !(EndsInPhi(c, x, n) && t == 0);
      WalkFinds(c, x, n, t, 0, MAX_CHAIN);
    }
  }

  // ---- compare and select

  // the arms are the phi and a value free of it, and so are the sides of the comparison
  predicate Compares(c: Ctx, n: Expr) {
    n.Ite? && n.c.Cmp? && ((c.IsPhi(n.a) && c.Free(n.b)) || (c.IsPhi(n.b) && c.Free(n.a))) &&
    var other := if c.IsPhi(n.a) then n.b else n.a;
    (c.IsPhi(n.c.l) && Unwrap(n.c.r) == Unwrap(other)) || (c.IsPhi(n.c.r) && Unwrap(n.c.l) == Unwrap(other))
  }

  // the selected value when the phi is x and the other is y
  function Picked(c: Ctx, n: Expr, x: real, y: real): real
    requires n.Ite? && n.c.Cmp?
  {
    var holds := if c.IsPhi(n.c.l) then Ordered(n.c.pred.o, x, y) else Ordered(n.c.pred.o, y, x);
    if holds == c.IsPhi(n.a) then x else y
  }

  ghost predicate PicksExtremum(c: Ctx, n: Expr, kind: Algebra)
    requires n.Ite? && n.c.Cmp?
  {
    && (kind.Max? ==> forall x: real, y: real :: Picked(c, n, x, y) == RMax(x, y))
    && (kind.Min? ==> forall x: real, y: real :: Picked(c, n, x, y) == RMin(x, y))
  }

  // named maximum or minimum exactly when the selected arm is always the larger, or the smaller
  lemma CompareExactly(c: Ctx, n: Expr, kind: Algebra)
    requires kind.Max? || kind.Min?
    ensures CompareSelect(c, n) == Some(kind) <==> Compares(c, n) && PicksExtremum(c, n, kind)
  {
    if Compares(c, n) {
      SidesApart(c, n);
      hide Contains;
      assert Picked(c, n, 0.0, 1.0) == RMax(0.0, 1.0) || Picked(c, n, 0.0, 1.0) == RMin(0.0, 1.0);
      assert Picked(c, n, 1.0, 0.0) == RMax(1.0, 0.0) || Picked(c, n, 1.0, 0.0) == RMin(1.0, 0.0);
    }
  }

  lemma SidesApart(c: Ctx, n: Expr)
    requires Compares(c, n)
    ensures !(c.IsPhi(n.a) && c.IsPhi(n.b)) && !(c.IsPhi(n.c.l) && c.IsPhi(n.c.r)) && !c.Free(n.c)
  {
    if c.IsPhi(n.a) { PhiRead(c, n.a); }
    if c.IsPhi(n.b) { PhiRead(c, n.b); }
    if c.IsPhi(n.c.l) { PhiRead(c, n.c.l); }
    if c.IsPhi(n.c.r) { PhiRead(c, n.c.r); }
    var other := if c.IsPhi(n.a) then n.b else n.a;
    if c.IsPhi(other) { PhiRead(c, other); }
  }

  // ---- the whole classifier

  // one argument is the phi and the other does not read it
  predicate WithPhi(c: Ctx, args: seq<Expr>) {
    |args| == 2 && exists k :: 0 <= k < 2 && c.IsPhi(args[k]) && c.Free(args[1 - k])
  }

  // an operation of the algebra on the phi and a value free of it
  predicate Operates(c: Ctx, n: Expr, kind: Algebra) {
    match n
    case Call(callee, args) => WithPhi(c, args) && ((kind.Max? && callee.MaxName?) || (kind.Min? && callee.MinName?))
    case Op(op, args) => WithPhi(c, args)
      && ((kind.BitAnd? && op.And?) || (kind.BitOr? && op.Or?) || (kind.BitXor? && op.Xor?))
    case _ => false
  }

  // the phi and constants: loop control
  predicate Control(n: Expr, pid: nat) {
    n.Poly? && forall i :: 0 <= i < |n.terms| ==> n.terms[i].mono == [] || n.terms[i].mono == [Sym(pid)]
  }

  // the arms of nested selections, and their conditions
  function Arms(e: Expr): set<Expr>
    decreases Unwrap(e)
  {
    var u := Unwrap(e);
    if u.Ite? then (SmallerUnwrap(u.a); SmallerUnwrap(u.b); Arms(u.a) + Arms(u.b)) else {u}
  }

  function Conditions(e: Expr): set<Expr>
    decreases Unwrap(e)
  {
    var u := Unwrap(e);
    if u.Ite? then (SmallerUnwrap(u.a); SmallerUnwrap(u.b); {u.c} + Conditions(u.a) + Conditions(u.b)) else {}
  }

  // every arm is the phi or free of it, and no condition reads it
  ghost predicate Selection(c: Ctx, e: Expr) {
    (forall u :: u in Arms(e) ==> c.IsPhi(u) || c.Free(u)) && forall u :: u in Conditions(e) ==> c.Free(u)
  }

  ghost predicate SiblingIn(c: Ctx, n: Expr) {
    exists s :: s in c.siblings && Contains(n, s)
  }

  // an update that only happens under a condition free of the phi, and otherwise keeps it
  predicate Guards(c: Ctx, n: Expr, update: Expr) {
    n.Ite? && c.Free(n.c) && !c.IsPhi(update) && ((n.a == update && c.IsPhi(n.b)) || (n.b == update && c.IsPhi(n.a)))
  }

  // the update under all its guards
  function Update(c: Ctx, next: Expr): (u: Expr)
    ensures u == Unwrap(next) || u < Unwrap(next)
    decreases Unwrap(next)
  {
    var n := Unwrap(next);
    if n.Ite? && Guards(c, n, n.a) then (SmallerUnwrap(n.a); Update(c, n.a))
    else if n.Ite? && Guards(c, n, n.b) then (SmallerUnwrap(n.b); Update(c, n.b))
    else n
  }

  ghost predicate Extremum(c: Ctx, n: Expr, kind: Algebra) {
    (kind.Max? || kind.Min?) && Compares(c, n) && PicksExtremum(c, n, kind)
  }

  ghost predicate Folded(c: Ctx, n: Expr) {
    c.IsPhi(n) || IsChain(c, n) || exists kind :: Extremum(c, n, kind) || Operates(c, n, kind)
  }

  // the form of each kind; what is no fold is a selection, an overwriting, a tuple with a sibling, or depends on order
  ghost predicate Form(c: Ctx, n: Expr, kind: Algebra) {
    match kind
    case Invariant => c.IsPhi(n)
    case Induction => !c.IsPhi(n) && IsChain(c, n) && Control(n, c.pid)
    case Sum => !c.IsPhi(n) && IsChain(c, n) && !Control(n, c.pid)
    case Max => Extremum(c, n, Max) || Operates(c, n, Max)
    case Min => Extremum(c, n, Min) || Operates(c, n, Min)
    case BitAnd => Operates(c, n, BitAnd)
    case BitOr => Operates(c, n, BitOr)
    case BitXor => Operates(c, n, BitXor)
    case Permutation => !Folded(c, n)
      && ((n.Ite? && Selection(c, n)) || (c.Free(n) && !SiblingIn(c, n) && !n.Undef? && !n.Unknown?))
    case Tuple => !Folded(c, n) && !(n.Ite? && Selection(c, n)) && SiblingIn(c, n)
    case OrderSensitive => !Folded(c, n) && !(n.Ite? && Selection(c, n)) && !SiblingIn(c, n) && !c.Free(n)
    case Unclassified => n.Undef? || n.Unknown?
    case TensorSum => false
  }

  lemma OperatesExactly(c: Ctx, n: Expr, kind: Algebra)
    ensures Operates(c, n, kind) <==> BinaryAlgebra(c, n) == Some(kind)
    ensures BinaryAlgebra(c, n).Some? ==>
      Chain(c, n, 0, MAX_CHAIN) == None && !c.IsPhi(n) && CompareSelect(c, n) == None && !n.Ite?
  {
    if n.Call? || n.Op? { assert WithPhi(c, n.args) <==> PhiAndFree(c, n.args) by { WithPhiIs(c, n.args); } }
    hide Contains, WithPhi, PhiAndFree;
  }

  lemma WithPhiIs(c: Ctx, args: seq<Expr>)
    ensures WithPhi(c, args) <==> PhiAndFree(c, args)
  {
    hide Contains;
    if |args| == 2 && c.IsPhi(args[0]) && c.Free(args[1]) { assert c.IsPhi(args[0]) && c.Free(args[1 - 0]); }
    if |args| == 2 && c.IsPhi(args[1]) && c.Free(args[0]) { assert c.IsPhi(args[1]) && c.Free(args[1 - 1]); }
  }

  lemma ControlExactly(n: Expr, pid: nat)
    ensures Control(n, pid) <==> OnlyConstants(n, pid)
  {
    if n.Poly? {
      forall i | 0 <= i < |n.terms| ensures n.terms[i].mono == [Sym(pid)] <==> IsPhiTerm(n.terms[i], pid) {}
    }
  }

  lemma {:induction false} SelectionExactly(c: Ctx, e: Expr)
    ensures Selection(c, e) <==> Selects(c, e)
    decreases Unwrap(e)
  {
    hide Contains;
    var u := Unwrap(e);
    if u.Ite? {
      SmallerUnwrap(u.a);
      SmallerUnwrap(u.b);
      SelectionExactly(c, u.a);
      SelectionExactly(c, u.b);
    } else {
      LeafExactly(c, u);
    }
  }

  // a sibling phi is free of the phi
  lemma LeafExactly(c: Ctx, u: Expr)
    ensures c.IsAnyPhi(u) || c.Free(u) <==> c.IsPhi(u) || c.Free(u)
  {
    if Unwrap(u).Sym? && !c.IsPhi(u) {
      assert !Contains(Unwrap(u), c.pid);
      if IsAtom(u) { assert u.terms[0].mono == [Unwrap(u)]; }
      assert !Contains(u, c.pid);
    }
  }

  lemma SiblingExactly(c: Ctx, n: Expr)
    ensures SiblingIn(c, n) <==> ReadsSibling(c, n)
  {
    hide Contains;
  }

  // a chain is no selection
  lemma ChainShape(c: Ctx, n: Expr)
    ensures n.Ite? || c.IsPhi(n) ==> Chain(c, n, 0, MAX_CHAIN) == None
    ensures !n.Ite? ==> CompareSelect(c, n) == None && !Compares(c, n)
  {
    hide Contains;
  }

  lemma ExtremumExactly(c: Ctx, n: Expr, kind: Algebra)
    ensures Extremum(c, n, kind) <==> CompareSelect(c, n) == Some(kind)
  {
    hide Compares, PicksExtremum;
    if kind.Max? || kind.Min? { CompareExactly(c, n, kind); } else { hide Contains; }
  }

  // what is read off an update that is not the phi
  ghost predicate Decided(c: Ctx, n: Expr) {
    && (IsChain(c, n) <==> Chain(c, n, 0, MAX_CHAIN).Some?)
    && (forall kind :: Extremum(c, n, kind) <==> CompareSelect(c, n) == Some(kind))
    && (forall kind :: Operates(c, n, kind) <==> BinaryAlgebra(c, n) == Some(kind))
    && (Control(n, c.pid) <==> OnlyConstants(n, c.pid)) && (Selection(c, n) <==> Selects(c, n))
    && (SiblingIn(c, n) <==> ReadsSibling(c, n))
    && (CompareSelect(c, n).Some? ==> BinaryAlgebra(c, n) == None)
    && (CompareSelect(c, n).Some? || BinaryAlgebra(c, n).Some? || c.IsPhi(n) ==> Chain(c, n, 0, MAX_CHAIN) == None)
  }

  lemma AllDecided(c: Ctx, n: Expr)
    ensures Decided(c, n)
  {
    hide IsChain, Chain, Extremum, CompareSelect, Operates, BinaryAlgebra, Control, OnlyConstants, Selection, Selects,
        SiblingIn, ReadsSibling, Contains, Compares;
    ChainExactly(c, n);
    ChainShape(c, n);
    ControlExactly(n, c.pid);
    SelectionExactly(c, n);
    SiblingExactly(c, n);
    forall kind ensures Extremum(c, n, kind) <==> CompareSelect(c, n) == Some(kind) { ExtremumExactly(c, n, kind); }
    forall kind ensures Operates(c, n, kind) <==> BinaryAlgebra(c, n) == Some(kind) { OperatesExactly(c, n, kind); }
    OperatesExactly(c, n, Sum);
  }

  // how an update without a guard is named
  function ShapeKind(c: Ctx, n: Expr): Algebra {
    if n.Undef? then Unclassified
    else if c.IsPhi(n) then Invariant
    else if CompareSelect(c, n).Some? then CompareSelect(c, n).value
    else if BinaryAlgebra(c, n).Some? then BinaryAlgebra(c, n).value
    else if Chain(c, n, 0, MAX_CHAIN).Some? then (if OnlyConstants(n, c.pid) then Induction else Sum)
    else if n.Ite? && Selects(c, n) then Permutation
    else if ReadsSibling(c, n) then Tuple
    else if n.Unknown? then Unclassified
    else if c.Free(n) then Permutation
    else OrderSensitive
  }

  lemma UnguardedIs(c: Ctx, next: Expr)
    requires var n := Unwrap(next); !(n.Ite? && (Guards(c, n, n.a) || Guards(c, n, n.b)))
    ensures ClassifyOne(c, next).kind == ShapeKind(c, Unwrap(next)) && !ClassifyOne(c, next).predicated
  {
    hide Chain, CompareSelect, BinaryAlgebra, OnlyConstants, Selects, ReadsSibling, Contains, Linear, ExpOfSibling,
        PermissionsOf;
  }

  // an update without a guard has exactly the form of its name
  lemma ShapeExactly(c: Ctx, n: Expr, kind: Algebra)
    ensures ShapeKind(c, n) == kind <==> Form(c, n, kind)
  {
    hide *;
    FoldedExactly(c, n);
    if Folded(c, n) { FoldShape(c, n, kind); } else { OtherShape(c, n, kind); }
  }

  lemma FoldedExactly(c: Ctx, n: Expr)
    ensures Folded(c, n) <==>
      c.IsPhi(n) || Chain(c, n, 0, MAX_CHAIN).Some? || CompareSelect(c, n).Some? || BinaryAlgebra(c, n).Some?
  {
    hide IsChain, Chain, Extremum, Operates, BinaryAlgebra, Control, OnlyConstants, Selection, Selects, SiblingIn,
        ReadsSibling, Contains, CompareSelect, Unwrap;
    AllDecided(c, n);
    if CompareSelect(c, n).Some? { assert Extremum(c, n, CompareSelect(c, n).value); }
    if BinaryAlgebra(c, n).Some? { assert Operates(c, n, BinaryAlgebra(c, n).value); }
  }

  lemma FoldShape(c: Ctx, n: Expr, kind: Algebra)
    requires Folded(c, n)
    ensures ShapeKind(c, n) == kind <==> Form(c, n, kind)
  {
    hide IsChain, Chain, Extremum, Operates, BinaryAlgebra, Control, OnlyConstants, Selection, Selects, SiblingIn,
        ReadsSibling, Contains, CompareSelect, Unwrap, Folded;
    AllDecided(c, n);
    FoldedExactly(c, n);
    UndefForm(c, n);
    KindsOf(c, n);
  }

  lemma OtherShape(c: Ctx, n: Expr, kind: Algebra)
    requires !Folded(c, n)
    ensures ShapeKind(c, n) == kind <==> Form(c, n, kind)
  {
    hide IsChain, Chain, Extremum, Operates, BinaryAlgebra, Control, OnlyConstants, Selection, Selects, SiblingIn,
        ReadsSibling, Contains, CompareSelect, Unwrap, Folded;
    AllDecided(c, n);
    FoldedExactly(c, n);
    UndefForm(c, n);
  }

  lemma KindsOf(c: Ctx, n: Expr)
    ensures CompareSelect(c, n).Some? ==> CompareSelect(c, n).value.Max? || CompareSelect(c, n).value.Min?
    ensures BinaryAlgebra(c, n).Some? ==>
      var k := BinaryAlgebra(c, n).value; k.Max? || k.Min? || k.BitAnd? || k.BitOr? || k.BitXor?
    ensures c.IsPhi(n) || n.Undef? || n.Unknown? ==> CompareSelect(c, n) == None && BinaryAlgebra(c, n) == None
  {
    hide Contains;
  }

  lemma UndefForm(c: Ctx, n: Expr)
    ensures n.Undef? || n.Unknown? ==> !c.IsPhi(n) && Chain(c, n, 0, MAX_CHAIN) == None && c.Free(n) && !SiblingIn(c, n)
  {
  }

  // every kind is named exactly when the update under the guards has its form, and the guards are reported
  lemma {:induction false} ClassifiesExactly(c: Ctx, next: Expr, kind: Algebra)
    ensures ClassifyOne(c, next).kind == kind <==> Form(c, Update(c, next), kind)
    ensures ClassifyOne(c, next).predicated <==> Update(c, next) != Unwrap(next)
    decreases Unwrap(next)
  {
    hide Form, Contains, CompareSelect, ClassifyRest, ShapeKind;
    var n := Unwrap(next);
    if n.Ite? && Guards(c, n, n.a) {
      SmallerUnwrap(n.a);
      ClassifiesExactly(c, n.a, kind);
    } else if n.Ite? && Guards(c, n, n.b) {
      SmallerUnwrap(n.b);
      ClassifiesExactly(c, n.b, kind);
    } else {
      UnguardedIs(c, next);
      ShapeExactly(c, n, kind);
    }
  }

  // the number of terms reported for a sum is what the links to the phi add
  lemma {:induction false} TermsAre(c: Ctx, next: Expr) returns (links: nat)
    requires ClassifyOne(c, next).kind.Sum? || ClassifyOne(c, next).kind.Induction?
    ensures Additive(c, Update(c, next), links, ClassifyOne(c, next).terms)
    decreases Unwrap(next)
  {
    hide Additive, Contains, CompareSelect, ClassifyRest;
    var n := Unwrap(next);
    if n.Ite? && Guards(c, n, n.a) {
      SmallerUnwrap(n.a);
      links := TermsAre(c, n.a);
    } else if n.Ite? && Guards(c, n, n.b) {
      SmallerUnwrap(n.b);
      links := TermsAre(c, n.b);
    } else {
      KindsOf(c, n);
      RestTerms(c, n);
      var t;
      links, t := WalkIsChain(c, n, 0, MAX_CHAIN);
    }
  }

  lemma RestTerms(c: Ctx, n: Expr)
    requires ClassifyRest(c, n).kind.Sum? || ClassifyRest(c, n).kind.Induction?
    ensures Chain(c, n, 0, MAX_CHAIN) == Some(ClassifyRest(c, n).terms)
  {
    hide Chain, BinaryAlgebra, OnlyConstants, Selects, ReadsSibling, Contains, Linear, ExpOfSibling;
    KindsOf(c, n);
  }
}
