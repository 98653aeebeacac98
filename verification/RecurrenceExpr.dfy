// Loop-carried values: the `next` expression of a header phi, its value in exact arithmetic, and the syntactic
// classifier that names its algebra.
module RecurrenceExpr {
  import opened Options

  // numbers are exact; bit operations work on a machine word
  datatype Word = Num(r: real) | Bits(b: bv32)

  function AsNum(w: Word): real {
    match w
    case Num(r) => r
    case Bits(b) => Numeral(b)
  }

  function Numeral(b: bv32): real {
    (b as int) as real
  }

  function AsBits(w: Word): bv32 {
    match w
    case Num(_) => 0
    case Bits(b) => b
  }

  function BvAnd(a: bv32, b: bv32): bv32 {
    a & b
  }

  function BvOr(a: bv32, b: bv32): bv32 {
    a | b
  }

  function BvXor(a: bv32, b: bv32): bv32 {
    a ^ b
  }

  lemma AndLaws(a: bv32, b: bv32, c: bv32)
    ensures BvAnd(a, b) == BvAnd(b, a) && BvAnd(BvAnd(a, b), c) == BvAnd(a, BvAnd(b, c)) && BvAnd(a, a) == a
  {
  }

  lemma OrLaws(a: bv32, b: bv32, c: bv32)
    ensures BvOr(a, b) == BvOr(b, a) && BvOr(BvOr(a, b), c) == BvOr(a, BvOr(b, c)) && BvOr(a, a) == a
  {
  }

  lemma XorLaws(a: bv32, b: bv32, c: bv32)
    ensures BvXor(a, b) == BvXor(b, a) && BvXor(BvXor(a, b), c) == BvXor(a, BvXor(b, c))
  {
  }

  datatype Opcode = FAdd | Add | FSub | Sub | FMul | And | Or | Xor | FPExt | FPTrunc | OtherOp(n: nat)

  datatype Order = Gt | Ge | Lt | Le | OtherOrder(n: nat)

  // ordered, unordered, signed and unsigned comparisons read the one order of the exact values
  datatype Pred = FOrdered(o: Order) | FUnordered(o: Order) | Signed(o: Order) | Unsigned(o: Order)

  datatype Callee = MaxName | MinName | FmaName | ExpName | OtherName(n: nat)

  datatype Term = Term(mono: seq<Expr>, coef: int)

  // Poly: coefficients times products of atoms; `plain` when its type is its atoms' type
  datatype Expr =
    | Const(w: Word)
    | Poly(terms: seq<Term>, plain: bool)
    | Sym(s: nat)
    | Op(op: Opcode, args: seq<Expr>)
    | Cmp(pred: Pred, l: Expr, r: Expr)
    | Ite(c: Expr, a: Expr, b: Expr)
    | Call(callee: Callee, args: seq<Expr>)
    | Opaque(tag: nat, args: seq<Expr>)
    | Unknown
    | Undef

  // a polynomial that is one plain atom stands for the atom
  predicate IsAtom(e: Expr) {
    e.Poly? && e.plain && |e.terms| == 1 && e.terms[0].coef == 1 && |e.terms[0].mono| == 1
  }

  function Unwrap(e: Expr): Expr {
    if IsAtom(e) then e.terms[0].mono[0] else e
  }

  type Env = nat -> Word

  // what the model does not interpret: loads, other calls and operations
  type World = (nat, seq<Word>) -> Word

  function Truth(b: bool): Word {
    Num(if b then 1.0 else 0.0)
  }

  function Ordered(o: Order, x: real, y: real): bool {
    match o
    case Gt => x > y
    case Ge => x >= y
    case Lt => x < y
    case Le => x <= y
    case OtherOrder(n) => x == y
  }

  function RMax(x: real, y: real): real {
    if x >= y then x else y
  }

  function RMin(x: real, y: real): real {
    if x <= y then x else y
  }

  function Mul(a: real, b: real): real {
    a * b
  }

  function Apply(w: World, op: Opcode, vs: seq<Word>): Word {
    if |vs| == 2 && (op.FAdd? || op.Add?) then Num(AsNum(vs[0]) + AsNum(vs[1]))
    else if |vs| == 2 && (op.FSub? || op.Sub?) then Num(AsNum(vs[0]) - AsNum(vs[1]))
    else if |vs| == 2 && op.FMul? then Num(Mul(AsNum(vs[0]), AsNum(vs[1])))
    else if |vs| == 2 && op.And? then Bits(BvAnd(AsBits(vs[0]), AsBits(vs[1])))
    else if |vs| == 2 && op.Or? then Bits(BvOr(AsBits(vs[0]), AsBits(vs[1])))
    else if |vs| == 2 && op.Xor? then Bits(BvXor(AsBits(vs[0]), AsBits(vs[1])))
    else if |vs| == 1 && (op.FPExt? || op.FPTrunc?) then vs[0]
    else w(if op.OtherOp? then op.n else 0, vs)
  }

  function Invoke(w: World, callee: Callee, vs: seq<Word>): Word {
    match callee
    case MaxName => if |vs| == 2 then Num(RMax(AsNum(vs[0]), AsNum(vs[1]))) else w(1, vs)
    case MinName => if |vs| == 2 then Num(RMin(AsNum(vs[0]), AsNum(vs[1]))) else w(2, vs)
    case FmaName => if |vs| >= 3 then Num(Mul(AsNum(vs[0]), AsNum(vs[1])) + AsNum(vs[2])) else w(3, vs)
    case ExpName => w(4, vs)
    case OtherName(n) => w(n, vs)
  }

  function Eval(w: World, env: Env, e: Expr): Word
    decreases e, 1
  {
    match e
    case Const(v) => v
    case Poly(terms, _) => if IsAtom(e) then Eval(w, env, terms[0].mono[0]) else Num(EvalTerms(w, env, e, |terms|))
    case Sym(s) => env(s)
    case Op(op, args) => Apply(w, op, EvalAll(w, env, args))
    case Cmp(p, l, r) => Truth(Ordered(p.o, AsNum(Eval(w, env, l)), AsNum(Eval(w, env, r))))
    case Ite(c, a, b) => if AsNum(Eval(w, env, c)) != 0.0 then Eval(w, env, a) else Eval(w, env, b)
    case Call(callee, args) => Invoke(w, callee, EvalAll(w, env, args))
    case Opaque(tag, args) => w(tag, EvalAll(w, env, args))
    case Unknown => w(5, [])
    case Undef => w(6, [])
  }

  function EvalAll(w: World, env: Env, es: seq<Expr>): (vs: seq<Word>)
    ensures |vs| == |es|
    decreases es, 0
  {
    seq(|es|, k requires 0 <= k < |es| => Eval(w, env, es[k]))
  }

  function EvalMono(w: World, env: Env, mono: seq<Expr>, k: nat): real
    requires k <= |mono|
    decreases mono, k
  {
    if k == 0 then 1.0 else EvalMono(w, env, mono, k - 1) * AsNum(Eval(w, env, mono[k - 1]))
  }

  function EvalTerm(w: World, env: Env, t: Term): real
    decreases t, 0
  {
    t.coef as real * EvalMono(w, env, t.mono, |t.mono|)
  }

  // the first k terms of a polynomial
  function EvalTerms(w: World, env: Env, e: Expr, k: nat): real
    requires e.Poly? && k <= |e.terms|
    decreases e, 0, k
  {
    if k == 0 then 0.0 else EvalTerms(w, env, e, k - 1) + EvalTerm(w, env, e.terms[k - 1])
  }

  // ---- reading a symbol

  predicate Contains(e: Expr, s: nat)
    decreases e
  {
    match e
    case Sym(t) => t == s
    case Poly(terms, _) => exists i :: 0 <= i < |terms| && exists j ::
      0 <= j < |terms[i].mono| && Contains(terms[i].mono[j], s)
    case Op(_, args) => exists i :: 0 <= i < |args| && Contains(args[i], s)
    case Cmp(_, l, r) => Contains(l, s) || Contains(r, s)
    case Ite(c, a, b) => Contains(c, s) || Contains(a, s) || Contains(b, s)
    case Call(_, args) => exists i :: 0 <= i < |args| && Contains(args[i], s)
    case Opaque(_, args) => exists i :: 0 <= i < |args| && Contains(args[i], s)
    case _ => false
  }

  ghost predicate AgreeOff(pid: nat, a: Env, b: Env) {
    forall s :: s != pid ==> a(s) == b(s)
  }

  // an expression reads the symbols it contains and no other
  lemma {:induction false} FreeEval(w: World, a: Env, b: Env, pid: nat, e: Expr)
    requires AgreeOff(pid, a, b) && (a(pid) == b(pid) || !Contains(e, pid))
    ensures Eval(w, a, e) == Eval(w, b, e)
    decreases e, 1
  {
    match e
    case Poly(terms, _) => if IsAtom(e) { FreeEval(w, a, b, pid, terms[0].mono[0]); }
      else { FreeTerms(w, a, b, pid, e, |terms|); }
    case Op(_, args) => FreeAll(w, a, b, pid, args);
    case Cmp(_, l, r) => FreeEval(w, a, b, pid, l); FreeEval(w, a, b, pid, r);
    case Ite(c, x, y) => FreeEval(w, a, b, pid, c); FreeEval(w, a, b, pid, x); FreeEval(w, a, b, pid, y);
    case Call(_, args) => FreeAll(w, a, b, pid, args);
    case Opaque(_, args) => FreeAll(w, a, b, pid, args);
    case _ =>
  }

  lemma {:induction false} FreeAll(w: World, a: Env, b: Env, pid: nat, es: seq<Expr>)
    requires AgreeOff(pid, a, b) && (a(pid) == b(pid) || forall i :: 0 <= i < |es| ==> !Contains(es[i], pid))
    ensures EvalAll(w, a, es) == EvalAll(w, b, es)
    decreases es, 0
  {
    forall i | 0 <= i < |es| ensures Eval(w, a, es[i]) == Eval(w, b, es[i]) {
      FreeEval(w, a, b, pid, es[i]);
    }
  }

  lemma {:induction false} FreeMono(w: World, a: Env, b: Env, pid: nat, mono: seq<Expr>, k: nat)
    requires AgreeOff(pid, a, b) && k <= |mono|
      && (a(pid) == b(pid) || forall j :: 0 <= j < |mono| ==> !Contains(mono[j], pid))
    ensures EvalMono(w, a, mono, k) == EvalMono(w, b, mono, k)
    decreases mono, k
  {
    hide Eval, Contains;
    if k > 0 {
      FreeMono(w, a, b, pid, mono, k - 1);
      FreeEval(w, a, b, pid, mono[k - 1]);
    }
  }

  lemma {:induction false} FreeTerms(w: World, a: Env, b: Env, pid: nat, e: Expr, k: nat)
    requires AgreeOff(pid, a, b) && e.Poly? && k <= |e.terms|
    requires a(pid) == b(pid) || forall i :: 0 <= i < |e.terms| ==> TermFree(e.terms[i], pid)
    ensures EvalTerms(w, a, e, k) == EvalTerms(w, b, e, k)
    decreases e, 0, k
  {
    hide Eval, EvalTerm, TermFree;
    if k > 0 {
      FreeTerms(w, a, b, pid, e, k - 1);
      FreeTerm(w, a, b, pid, e.terms[k - 1]);
    }
  }

  lemma {:induction false} FreeTerm(w: World, a: Env, b: Env, pid: nat, t: Term)
    requires AgreeOff(pid, a, b) && (a(pid) == b(pid) || TermFree(t, pid))
    ensures EvalTerm(w, a, t) == EvalTerm(w, b, t)
    decreases t, 0
  {
    FreeMono(w, a, b, pid, t.mono, |t.mono|);
  }

  predicate TermFree(t: Term, pid: nat) {
    forall j :: 0 <= j < |t.mono| ==> !Contains(t.mono[j], pid)
  }

  // ---- the classifier

  datatype Algebra = Invariant | Induction | Sum | Max | Min | BitAnd | BitOr | BitXor | TensorSum | Tuple | Permutation
      | OrderSensitive | Unclassified

  datatype Permissions = Permissions(partition: bool, reorder: bool, duplicate: bool, treeCombine: bool)

  function PermissionsOf(a: Algebra): Permissions {
    match a
    case Sum => Permissions(true, true, false, true)
    case TensorSum => Permissions(true, true, false, true)
    case BitXor => Permissions(true, true, false, true)
    case Max => Permissions(true, true, true, true)
    case Min => Permissions(true, true, true, true)
    case BitAnd => Permissions(true, true, true, true)
    case BitOr => Permissions(true, true, true, true)
    case Permutation => Permissions(false, false, true, false)
    case Invariant => Permissions(true, true, true, true)
    case Induction => Permissions(true, true, true, true)
    case _ => Permissions(false, false, false, false)
  }

  datatype Classified = Classified(kind: Algebra, terms: nat, predicated: bool, permits: Permissions)

  function Named(kind: Algebra, terms: nat): Classified {
    Classified(kind, terms, false, PermissionsOf(kind))
  }

  // the recurrence's own phi, and the other header phis of its loop
  datatype Ctx = Ctx(pid: nat, siblings: set<nat>) {
    function IsPhi(e: Expr): bool {
      Unwrap(e) == Sym(pid)
    }

    function IsAnyPhi(e: Expr): bool {
      Unwrap(e).Sym? && (Unwrap(e).s == pid || Unwrap(e).s in siblings)
    }

    predicate Free(e: Expr) {
      !Contains(e, pid)
    }
  }

  const MAX_CHAIN := 4096

  predicate IsPhiTerm(t: Term, pid: nat) {
    |t.mono| == 1 && t.mono[0] == Sym(pid)
  }

  // exactly one monomial is the phi, with coefficient one; every other is free of it
  predicate OnePhi(terms: seq<Term>, pid: nat) {
    exists k :: 0 <= k < |terms| && IsPhiTerm(terms[k], pid) && terms[k].coef == 1 &&
      forall i :: 0 <= i < |terms| && i != k ==> TermFree(terms[i], pid)
  }

  function Chain(c: Ctx, x: Expr, terms: nat, guard: nat): Option<nat>
    decreases guard
  {
    if guard == 0 then None
    else if c.IsPhi(x) then (if terms > 0 then Some(terms) else None)
    else if x.Poly? then (if OnePhi(x.terms, c.pid) then Some(terms + |x.terms| - 1) else None)
    else
      match Rest(c, x)
      case None => None
      case Some((y, n)) => Chain(c, y, terms + n, guard - 1)
  }

  // the operand that carries the chain on, and how many terms it adds
  function Rest(c: Ctx, x: Expr): Option<(Expr, nat)> {
    match x
    case Call(callee, args) =>
      if callee.FmaName? && |args| >= 3 && c.Free(args[0]) && c.Free(args[1]) then Some((args[2], 1)) else None
    case Op(op, args) =>
      if (op.FAdd? || op.Add?) && |args| == 2 then
        if c.Free(args[1]) then Some((args[0], 1)) else if c.Free(args[0]) then Some((args[1], 1)) else None
      else if (op.FSub? || op.Sub?) && |args| == 2 && c.Free(args[1]) then Some((args[0], 1))
      else if (op.FPExt? || op.FPTrunc?) && |args| == 1 then Some((args[0], 0))
      else None
    case _ => None
  }

  // one pass over the monomials
  method PolyChain(ts: seq<Term>, pid: nat) returns (ok: bool)
    ensures ok <==> OnePhi(ts, pid)
  {
    var one := false;
    ghost var at := 0;
    for i := 0 to |ts|
      invariant one ==> at < i && IsPhiTerm(ts[at], pid) && ts[at].coef == 1
      invariant forall k :: 0 <= k < i && !(one && k == at) ==> TermFree(ts[k], pid)
    {
      if IsPhiTerm(ts[i], pid) {
        assert Contains(ts[i].mono[0], pid);
        if ts[i].coef != 1 || one { return false; }
        one, at := true, i;
      } else {
        for j := 0 to |ts[i].mono|
          invariant forall l :: 0 <= l < j ==> !Contains(ts[i].mono[l], pid)
        {
          if ts[i].mono[j] == Sym(pid) || (!ts[i].mono[j].Sym? && Contains(ts[i].mono[j], pid)) { return false; }
        }
      }
    }
    return one;
  }

  // the additive chain from the next value down to the phi
  method AdditiveChain(c: Ctx, n: Expr) returns (r: Option<nat>)
    ensures r == Chain(c, n, 0, MAX_CHAIN)
  {
    var x, terms := n, 0;
    for guard := 0 to MAX_CHAIN
      invariant Chain(c, n, 0, MAX_CHAIN) == Chain(c, x, terms, MAX_CHAIN - guard)
    {
      if c.IsPhi(x) { return if terms > 0 then Some(terms) else None; }
      if x.Poly? {
        var ok := PolyChain(x.terms, c.pid);
        if !ok { return None; }
        return Some(terms + |x.terms| - 1);
      }
      if x.Call? && x.callee.FmaName? && |x.args| >= 3 {
        if !c.Free(x.args[0]) || !c.Free(x.args[1]) { return None; }
        x, terms := x.args[2], terms + 1;
      } else if x.Op? && (x.op.FAdd? || x.op.Add?) && |x.args| == 2 {
        if c.Free(x.args[1]) {
          x, terms := x.args[0], terms + 1;
        } else if c.Free(x.args[0]) {
          x, terms := x.args[1], terms + 1;
        } else {
          return None;
        }
      } else if x.Op? && (x.op.FSub? || x.op.Sub?) && |x.args| == 2 && c.Free(x.args[1]) {
        x, terms := x.args[0], terms + 1;
      } else if x.Op? && (x.op.FPExt? || x.op.FPTrunc?) && |x.args| == 1 {
        x := x.args[0];
      } else {
        return None;
      }
    }
    r := None;
  }

  // ite over a comparison of the phi with the other arm: the larger, the smaller, or neither
  function CompareSelect(c: Ctx, n: Expr): Option<Algebra> {
    if !n.Ite? || !n.c.Cmp? then None
    else
      var phiA, phiB := c.IsPhi(n.a), c.IsPhi(n.b);
      if !((phiA && c.Free(n.b)) || (phiB && c.Free(n.a))) then None
      else
        var other := if phiA then n.b else n.a;
        var lPhi := c.IsPhi(n.c.l) && Unwrap(n.c.r) == Unwrap(other);
        var rPhi := c.IsPhi(n.c.r) && Unwrap(n.c.l) == Unwrap(other);
        var gt := n.c.pred.o.Gt? || n.c.pred.o.Ge?;
        var lt := n.c.pred.o.Lt? || n.c.pred.o.Le?;
        if (lPhi || rPhi) && (gt || lt) then
          var isMax := (gt && ((lPhi && phiA) || (!lPhi && !phiA))) || (lt && ((lPhi && !phiA) || (!lPhi && phiA)));
          Some(if isMax then Max else Min)
        else None
  }

  // op(phi, x) or op(x, phi) with x free of the phi
  predicate PhiAndFree(c: Ctx, args: seq<Expr>) {
    |args| == 2 && ((c.IsPhi(args[0]) && c.Free(args[1])) || (c.IsPhi(args[1]) && c.Free(args[0])))
  }

  function BinaryAlgebra(c: Ctx, n: Expr): Option<Algebra> {
    match n
    case Call(callee, args) =>
      if (callee.MaxName? || callee.MinName?) && PhiAndFree(c, args) then Some(if callee.MaxName? then Max else Min)
        else None
    case Op(op, args) =>
      if (op.And? || op.Or? || op.Xor?) && PhiAndFree(c, args)
        then Some(if op.And? then BitAnd else if op.Or? then BitOr else BitXor) else None
    case _ => None
  }

  // every monomial but the phi is a constant: loop control
  predicate OnlyConstants(n: Expr, pid: nat) {
    n.Poly? && forall i :: 0 <= i < |n.terms| ==> n.terms[i].mono == [] || IsPhiTerm(n.terms[i], pid)
  }

  // a selection among phis and values free of the phi, on conditions free of it
  predicate Selects(c: Ctx, e: Expr)
    decreases Unwrap(e)
  {
    var u := Unwrap(e);
    if u.Ite? then c.Free(u.c)
      && (assert u.a < u && u.b < u; SmallerUnwrap(u.a); SmallerUnwrap(u.b); Selects(c, u.a) && Selects(c, u.b))
    else c.IsAnyPhi(u) || c.Free(u)
  }

  lemma SmallerUnwrap(e: Expr)
    ensures Unwrap(e) == e || Unwrap(e) < e
  {
  }

  // the factor of a product with the phi
  function Factor(c: Ctx, e: Expr): Option<Expr> {
    var m := Unwrap(e);
    if m.Op? && m.op.FMul? && |m.args| == 2 then
      if c.IsPhi(m.args[0]) && c.Free(m.args[1]) then Some(m.args[1])
      else if c.IsPhi(m.args[1]) && c.Free(m.args[0]) then Some(m.args[0])
      else None
    else None
  }

  // scale and shift of a * phi + b with both free of the phi
  function Linear(c: Ctx, n: Expr): Option<(Expr, Expr)> {
    var u := Unwrap(n);
    if u.Call? && u.callee.FmaName? && |u.args| >= 3 then
      if c.IsPhi(u.args[0]) && c.Free(u.args[1]) && c.Free(u.args[2]) then Some((u.args[1], u.args[2]))
      else if c.IsPhi(u.args[1]) && c.Free(u.args[0]) && c.Free(u.args[2]) then Some((u.args[0], u.args[2]))
      else None
    else if u.Op? && u.op.FAdd? && |u.args| == 2 then
      if Factor(c, u.args[0]).Some? && c.Free(u.args[1]) then Some((Factor(c, u.args[0]).value, u.args[1]))
      else if Factor(c, u.args[1]).Some? && c.Free(u.args[0]) then Some((Factor(c, u.args[1]).value, u.args[0]))
      else None
    else None
  }

  // an exponential of something that reads a sibling phi
  predicate ExpOfSibling(c: Ctx, e: Expr)
    decreases e
  {
    match e
    case Call(callee, args) =>
      (callee.ExpName? && exists s :: s in c.siblings && Contains(e, s)) || exists i ::
        0 <= i < |args| && ExpOfSibling(c, args[i])
    case Op(_, args) => exists i :: 0 <= i < |args| && ExpOfSibling(c, args[i])
    case Opaque(_, args) => exists i :: 0 <= i < |args| && ExpOfSibling(c, args[i])
    case Cmp(_, l, r) => ExpOfSibling(c, l) || ExpOfSibling(c, r)
    case Ite(x, a, b) => ExpOfSibling(c, x) || ExpOfSibling(c, a) || ExpOfSibling(c, b)
    case Poly(terms, _) => IsAtom(e) && ExpOfSibling(c, terms[0].mono[0])
    case _ => false
  }

  predicate ReadsSibling(c: Ctx, n: Expr) {
    exists s :: s in c.siblings && Contains(n, s)
  }

  function ClassifyTuple(c: Ctx, n: Expr): Classified {
    match Linear(c, n)
    case None => Named(Tuple, 0)
    case Some((scale, _)) => Classified(Tuple, 0, false, Permissions(true, ExpOfSibling(c, scale), false, true))
  }

  function ClassifyRest(c: Ctx, n: Expr): Classified {
    match BinaryAlgebra(c, n)
    case Some(kind) => Named(kind, 1)
    case None =>
      match Chain(c, n, 0, MAX_CHAIN)
      case Some(terms) => Named(if OnlyConstants(n, c.pid) then Induction else Sum, terms)
      case None =>
        if n.Ite? && Selects(c, n) then Named(Permutation, 0)
        else if ReadsSibling(c, n) then ClassifyTuple(c, n)
        else if n.Unknown? then Named(Unclassified, 0)
        else if c.Free(n) then Named(Permutation, 0)
        else Named(OrderSensitive, 0)
  }

  function ClassifyOne(c: Ctx, next: Expr): Classified
    decreases Unwrap(next)
  {
    var n := Unwrap(next);
    if n.Undef? then Named(Unclassified, 0)
    else if c.IsPhi(n) then Named(Invariant, 0)
    else if n.Ite? && c.Free(n.c) && c.IsPhi(n.b) && !c.IsPhi(n.a) then
      (assert n.a < n; SmallerUnwrap(n.a); ClassifyOne(c, n.a).(predicated := true))
    else if n.Ite? && c.Free(n.c) && c.IsPhi(n.a) && !c.IsPhi(n.b) then
      (assert n.b < n; SmallerUnwrap(n.b); ClassifyOne(c, n.b).(predicated := true))
    else match CompareSelect(c, n)
      case Some(kind) => Named(kind, 1)
      case None => ClassifyRest(c, n)
  }
}
