// Guarded loads become unconditional: the loads of a skipped arm read the zero page instead, two guarded copies to
// shared memory become one, and a skipped mma keeps its accumulator because its operands are zeroed.
module GuardedLoads {
  import opened Options
  import opened SsaValues

  // ---- arms

  // device: a simple load from device memory, not from a global, a private object or a by-value parameter.
  // Copy: cp.async to shared memory with a source size; size < 0 when it is not a constant.
  // Mma: part i of the result of an mma call, from its six multiplicand registers and then four accumulators.
  // Refused: everything else, stores, atomics, calls, other assembly.
  datatype ArmInst =
    | Pure(dst: nat, op: nat, args: seq<Value>, speculatable: bool)
    | Load(dst: nat, ptr: Value, device: bool)
    | Mma(dst: nat, call: nat, part: nat, args: seq<Value>)
    | Copy(to: Value, from: Value, bytes: nat, size: int)
    | Refused(op: nat, args: seq<Value>)

  const MAX_ARM := 128

  predicate Admissible(i: ArmInst) {
    match i
    case Pure(_, _, _, speculatable) => speculatable
    case Load(_, _, device) => device
    case Mma(_, _, _, _) => true
    case Copy(_, _, bytes, size) => bytes in {4, 8, 16} && (size == 0 || size == bytes)
    case Refused(_, _) => false
  }

  function CopyCount(insts: seq<ArmInst>): nat {
    if insts == [] then 0 else (if insts[0].Copy? then 1 else 0) + CopyCount(insts[1..])
  }

  // at most 128 instructions and one copy, and nothing that may be noticed when it runs although the arm was skipped
  ghost predicate Analyzable(insts: seq<ArmInst>) {
    |insts| <= 128 && (forall i :: i in insts ==> Harmless(i)) && CopyCount(insts) <= 1
  }

  // accepts exactly those arms, and finds the copy
  method AnalyzeArm(insts: seq<ArmInst>) returns (ok: bool, copy: Option<ArmInst>)
    ensures ok <==> Analyzable(insts)
    ensures ok ==> (copy == None <==> CopyCount(insts) == 0) && (copy.Some? ==> copy.value in insts && copy.value.Copy?)
  {
    hide Harmless;
    copy := None;
    var n := 0;
    for i := 0 to |insts|
      invariant n == i <= MAX_ARM && forall k :: 0 <= k < i ==> Harmless(insts[k])
      invariant CopyCount(insts[..i]) == if copy.Some? then 1 else 0
      invariant copy.Some? ==> copy.value in insts && copy.value.Copy?
    {
      CopyCountSplit(insts, i);
      n := n + 1;
      if n > MAX_ARM { return false, None; }
      AdmissibleExactly(insts[i]);
      if !Admissible(insts[i]) { return false, None; }
      if insts[i].Copy? {
        if copy.Some? { return false, None; }
        copy := Some(insts[i]);
      }
    }
    assert insts[..|insts|] == insts;
    ok := true;
  }

  lemma CopyCountSplit(insts: seq<ArmInst>, i: nat)
    requires i < |insts|
    ensures CopyCount(insts[..i + 1]) == CopyCount(insts[..i]) + if insts[i].Copy? then 1 else 0
    ensures CopyCount(insts[..i + 1]) <= CopyCount(insts)
  {
    assert insts[..i + 1] == insts[..i] + [insts[i]];
    CopyCountAppend(insts[..i], [insts[i]]);
    assert insts == insts[..i + 1] + insts[i + 1..];
    CopyCountAppend(insts[..i + 1], insts[i + 1..]);
  }

  lemma {:induction false} CopyCountAppend(a: seq<ArmInst>, b: seq<ArmInst>)
    ensures CopyCount(a + b) == CopyCount(a) + CopyCount(b)
  {
    if a == [] {
      assert a + b == b;
    } else {
      assert (a + b)[1..] == a[1..] + b;
      CopyCountAppend(a[1..], b);
    }
  }

  // ---- what an arm does

  // meaning: the pure operations; traps: the operands on which an operation that may not be speculated traps; mma: part
  // i of an mma result; mem: what a load reads; byte: a byte behind an address.
  // The words may be those of one thread, or of a whole warp (WarpMma.dfy) when the guard is the same in all its lanes
  datatype World = World(meaning: Meaning, traps: (nat, seq<Word>) -> bool, mma: (nat, seq<Word>) -> Word,
      mem: Word -> Word, byte: (Word, nat) -> Word)

  function Words(env: Env, args: seq<Value>): seq<Word> {
    seq(|args|, k requires 0 <= k < |args| => Val(env, args[k]))
  }

  // a finished copy: where it wrote, the address it read if any, and the bytes
  datatype Copied = Copied(to: Word, read: Option<Word>, data: seq<Word>)

  function CopyOf(w: World, to: Word, from: Word, bytes: nat, valid: bool): Copied {
    if valid then Copied(to, Some(from), seq(bytes, i requires 0 <= i < bytes => w.byte(from, i)))
    else Copied(to, None, seq(bytes, i => Num(0)))
  }

  function InstValue(w: World, env: Env, i: ArmInst): Word {
    match i
    case Pure(_, op, args, _) => w.meaning(op, Words(env, args))
    case Load(_, ptr, _) => w.mem(Val(env, ptr))
    case Mma(_, _, part, args) => w.mma(part, Words(env, args))
    case _ => Poison
  }

  function InstDefs(i: ArmInst): set<nat> {
    if i.Pure? || i.Load? || i.Mma? then {i.dst} else {}
  }

  function InstEnv(w: World, env: Env, i: ArmInst): Env {
    if i.Pure? || i.Load? || i.Mma? then env[i.dst := InstValue(w, env, i)] else env
  }

  function InstLoads(env: Env, i: ArmInst): seq<Word> {
    if i.Load? then [Val(env, i.ptr)] else []
  }

  function InstCopies(w: World, env: Env, i: ArmInst): seq<Copied> {
    if i.Copy? then [CopyOf(w, Val(env, i.to), Val(env, i.from), i.bytes, i.size == i.bytes)] else []
  }

  // what is noticed besides device loads and whole or zero copies: the effect of a store, an atomic or a call, a trap,
  // an access outside device memory, a copy of another size or with a size known at run time only
  datatype Event =
    | Effect(op: nat, args: seq<Word>)
    | Trap(op: nat, args: seq<Word>)
    | Foreign(at: Word)
    | OddCopy(to: Word, from: Word, bytes: nat, size: int)

  function InstEvents(w: World, env: Env, i: ArmInst): seq<Event> {
    match i
    case Pure(_, op, args, speculatable) =>
      if !speculatable && w.traps(op, Words(env, args)) then [Trap(op, Words(env, args))] else []
    case Load(_, ptr, device) => if device then [] else [Foreign(Val(env, ptr))]
    case Mma(_, _, _, _) => []
    case Copy(to, from, bytes, size) =>
      if (bytes == 4 || bytes == 8 || bytes == 16) && (size == 0 || size == bytes) then []
      else [OddCopy(Val(env, to), Val(env, from), bytes, size)]
    case Refused(op, args) => [Effect(op, Words(env, args))]
  }

  // nothing is noticed, on no machine and from no state
  ghost predicate Harmless(i: ArmInst) {
    forall w: World, env: Env :: InstEvents(w, env, i) == []
  }

  // the test of one instruction decides just that
  lemma AdmissibleExactly(i: ArmInst)
    ensures Admissible(i) <==> Harmless(i)
  {
    if !Admissible(i) {
      var w := World((n: nat, vs: seq<Word>) => Num(0), (n: nat, vs: seq<Word>) => true,
        (k: nat, vs: seq<Word>) => Num(0), (v: Word) => Num(0), (v: Word, k: nat) => Num(0));
      assert InstEvents(w, map[], i) != [];
    }
  }

  function ArmEvents(w: World, env: Env, insts: seq<ArmInst>): seq<Event>
    decreases |insts|
  {
    if insts == [] then [] else InstEvents(w, env, insts[0]) + ArmEvents(w, InstEnv(w, env, insts[0]), insts[1..])
  }

  function ArmEnv(w: World, env: Env, insts: seq<ArmInst>): Env
    decreases |insts|
  {
    if insts == [] then env else ArmEnv(w, InstEnv(w, env, insts[0]), insts[1..])
  }

  // the addresses loaded, in order
  function ArmLoads(w: World, env: Env, insts: seq<ArmInst>): seq<Word>
    decreases |insts|
  {
    if insts == [] then [] else InstLoads(env, insts[0]) + ArmLoads(w, InstEnv(w, env, insts[0]), insts[1..])
  }

  function ArmCopies(w: World, env: Env, insts: seq<ArmInst>): seq<Copied>
    decreases |insts|
  {
    if insts == [] then [] else InstCopies(w, env, insts[0]) + ArmCopies(w, InstEnv(w, env, insts[0]), insts[1..])
  }

  function ArmDefs(insts: seq<ArmInst>): set<nat> {
    if insts == [] then {} else InstDefs(insts[0]) + ArmDefs(insts[1..])
  }

  predicate Avoids(v: Value, vars: set<nat>) {
    v.Var? ==> v.x !in vars
  }

  predicate InstAvoids(i: ArmInst, vars: set<nat>) {
    match i
    case Pure(_, _, args, _) => forall v :: v in args ==> Avoids(v, vars)
    case Load(_, ptr, _) => Avoids(ptr, vars)
    case Mma(_, _, _, args) => forall v :: v in args ==> Avoids(v, vars)
    case Copy(to, from, _, _) => Avoids(to, vars) && Avoids(from, vars)
    case Refused(_, args) => forall v :: v in args ==> Avoids(v, vars)
  }

  predicate ArmAvoids(insts: seq<ArmInst>, vars: set<nat>) {
    forall i :: i in insts ==> InstAvoids(i, vars)
  }

  // single assignment in an arm: every operand is defined before, every variable once
  predicate SingleAssignment(insts: seq<ArmInst>)
    decreases |insts|
  {
    insts == [] ||
    (InstAvoids(insts[0], ArmDefs(insts)) && InstDefs(insts[0]) !! ArmDefs(insts[1..]) && SingleAssignment(insts[1..]))
  }

  // ---- the converted code

  // Pick(t, f): select(cond, t, f)
  datatype Operand = Plain(v: Value) | Pick(t: Value, f: Value)

  datatype Validity = Always | WhenTrue | WhenFalse

  datatype Stmt =
    | Keep(inst: ArmInst)
    | LoadPick(dst: nat, p: Operand, device: bool)
    | MmaPick(dst: nat, part: nat, args: seq<Operand>)
    | CopyPick(to: Operand, from: Operand, bytes: nat, valid: Validity)

  function OperandVal(env: Env, c: Word, o: Operand): Word {
    match o
    case Plain(v) => Val(env, v)
    case Pick(t, f) => if !c.Num? then Poison else if c.n != 0 then Val(env, t) else Val(env, f)
  }

  function StmtEnv(w: World, c: Word, env: Env, st: Stmt): Env {
    match st
    case Keep(i) => InstEnv(w, env, i)
    case LoadPick(dst, p, _) => env[dst := w.mem(OperandVal(env, c, p))]
    case MmaPick(dst, part, args) =>
      env[dst := w.mma(part, seq(|args|, k requires 0 <= k < |args| => OperandVal(env, c, args[k])))]
    case CopyPick(_, _, _, _) => env
  }

  function StmtLoads(c: Word, env: Env, st: Stmt): seq<Word> {
    match st
    case Keep(i) => InstLoads(env, i)
    case LoadPick(_, p, _) => [OperandVal(env, c, p)]
    case _ => []
  }

  function Valid(c: Word, v: Validity): bool {
    match v
    case Always => true
    case WhenTrue => c != Num(0)
    case WhenFalse => c == Num(0)
  }

  function StmtCopies(w: World, c: Word, env: Env, st: Stmt): seq<Copied> {
    match st
    case Keep(i) => InstCopies(w, env, i)
    case CopyPick(to, from, bytes, valid) =>
      [CopyOf(w, OperandVal(env, c, to), OperandVal(env, c, from), bytes, Valid(c, valid))]
    case _ => []
  }

  function StmtEvents(w: World, c: Word, env: Env, st: Stmt): seq<Event> {
    match st
    case Keep(i) => InstEvents(w, env, i)
    case LoadPick(_, p, device) => if device then [] else [Foreign(OperandVal(env, c, p))]
    case _ => []
  }

  function CodeEvents(w: World, c: Word, env: Env, code: seq<Stmt>): seq<Event>
    decreases |code|
  {
    if code == [] then [] else StmtEvents(w, c, env, code[0]) + CodeEvents(w, c, StmtEnv(w, c, env, code[0]), code[1..])
  }

  function CodeEnv(w: World, c: Word, env: Env, code: seq<Stmt>): Env
    decreases |code|
  {
    if code == [] then env else CodeEnv(w, c, StmtEnv(w, c, env, code[0]), code[1..])
  }

  function CodeLoads(w: World, c: Word, env: Env, code: seq<Stmt>): seq<Word>
    decreases |code|
  {
    if code == [] then [] else StmtLoads(c, env, code[0]) + CodeLoads(w, c, StmtEnv(w, c, env, code[0]), code[1..])
  }

  function CodeCopies(w: World, c: Word, env: Env, code: seq<Stmt>): seq<Copied>
    decreases |code|
  {
    if code == [] then [] else StmtCopies(w, c, env, code[0]) + CodeCopies(w, c, StmtEnv(w, c, env, code[0]), code[1..])
  }

  lemma {:induction false} CodeAppend(w: World, c: Word, env: Env, a: seq<Stmt>, b: seq<Stmt>)
    ensures CodeEnv(w, c, env, a + b) == CodeEnv(w, c, CodeEnv(w, c, env, a), b)
    ensures CodeLoads(w, c, env, a + b) == CodeLoads(w, c, env, a) + CodeLoads(w, c, CodeEnv(w, c, env, a), b)
    ensures CodeCopies(w, c, env, a + b) == CodeCopies(w, c, env, a) + CodeCopies(w, c, CodeEnv(w, c, env, a), b)
    decreases |a|
  {
    hide StmtEnv, StmtLoads, StmtCopies;
    if a == [] {
      assert a + b == b;
    } else {
      assert (a + b)[0] == a[0] && (a + b)[1..] == a[1..] + b;
      CodeAppend(w, c, StmtEnv(w, c, env, a[0]), a[1..], b);
    }
  }

  // ---- hoisting

  // the operands of an mma whose call is in `zeroed`: its six multiplicand registers are zero when the arm is skipped
  function ZeroedArgs(args: seq<Value>, taken: bool): seq<Operand> {
    var zero := Lit(Num(0));
    seq(|args|, k requires 0 <= k < |args| =>
      if k >= 6 then Plain(args[k]) else if taken then Pick(args[k], zero) else Pick(zero, args[k]))
  }

  // one instruction of an arm in front of the branch; the copy is merged separately
  function HoistOne(i: ArmInst, taken: bool, zero: Value, zeroed: set<nat>): seq<Stmt> {
    match i
    case Copy(_, _, _, _) => []
    case Load(dst, ptr, device) => [LoadPick(dst, if taken then Pick(ptr, zero) else Pick(zero, ptr), device)]
    case Mma(dst, call, part, args) => if call in zeroed then [MmaPick(dst, part, ZeroedArgs(args, taken))]
      else [Keep(i)]
    case _ => [Keep(i)]
  }

  function Hoisted(insts: seq<ArmInst>, taken: bool, zero: Value, zeroed: set<nat>): seq<Stmt> {
    if insts == [] then []
    else Hoisted(insts[..|insts| - 1], taken, zero, zeroed) + HoistOne(insts[|insts| - 1], taken, zero, zeroed)
  }

  method Hoist(insts: seq<ArmInst>, taken: bool, zero: Value) returns (code: seq<Stmt>)
    ensures code == Hoisted(insts, taken, zero, {})
  {
    code := [];
    for i := 0 to |insts|
      invariant code == Hoisted(insts[..i], taken, zero, {})
    {
      assert insts[..i + 1][..i] == insts[..i];
      if insts[i].Copy? { continue; }
      if insts[i].Load? {
        var p := insts[i].ptr;
        code := code + [LoadPick(insts[i].dst, if taken then Pick(p, zero) else Pick(zero, p), insts[i].device)];
      } else {
        code := code + [Keep(insts[i])];
      }
    }
    assert insts[..|insts|] == insts;
  }

  function Zeros(n: nat, zero: Word): seq<Word> {
    seq(n, i => zero)
  }

  function LoadCount(insts: seq<ArmInst>): nat {
    if insts == [] then 0 else (if insts[0].Load? then 1 else 0) + LoadCount(insts[1..])
  }

  lemma {:induction false} HoistedCons(insts: seq<ArmInst>, taken: bool, zero: Value, zeroed: set<nat>)
    requires insts != []
    ensures Hoisted(insts, taken, zero, zeroed) == HoistOne(insts[0], taken, zero, zeroed)
      + Hoisted(insts[1..], taken, zero, zeroed)
  {
    hide HoistOne;
    var n := |insts| - 1;
    if n == 0 {
      assert insts[..0] == [] && insts[1..] == [];
    } else {
      HoistedCons(insts[..n], taken, zero, zeroed);
      assert insts[..n][1..] == insts[1..][..n - 1];
      hide Hoisted;
      HoistedSnoc(insts, taken, zero, zeroed);
      HoistedSnoc(insts[1..], taken, zero, zeroed);
    }
  }

  lemma HoistedSnoc(insts: seq<ArmInst>, taken: bool, zero: Value, zeroed: set<nat>)
    requires insts != []
    ensures Hoisted(insts, taken, zero, zeroed)
      == Hoisted(insts[..|insts| - 1], taken, zero, zeroed) + HoistOne(insts[|insts| - 1], taken, zero, zeroed)
  {
    hide HoistOne;
  }

  predicate Chooses(c: Word, taken: bool) {
    c.Num? && (c.n != 0 <==> taken)
  }

  // equal on every variable not in `vars`
  ghost predicate AgreeOff(vars: set<nat>, a: Env, b: Env) {
    forall x :: x !in vars ==> Val(a, Var(x)) == Val(b, Var(x))
  }

  lemma WordsAgree(a: Env, b: Env, args: seq<Value>, vars: set<nat>)
    requires AgreeOff(vars, a, b) && forall v :: v in args ==> Avoids(v, vars)
    ensures Words(a, args) == Words(b, args)
  {
    forall k | 0 <= k < |args| ensures Val(a, args[k]) == Val(b, args[k]) {
      assert args[k] in args;
    }
  }

  lemma TakenOperands(c: Word, env: Env, args: seq<Value>, taken: bool)
    requires Chooses(c, taken)
    ensures var ops := ZeroedArgs(args, taken);
      seq(|ops|, k requires 0 <= k < |ops| => OperandVal(env, c, ops[k])) == Words(env, args)
  {
  }

  lemma OneTaken(w: World, c: Word, i: ArmInst, taken: bool, zero: Value, zeroed: set<nat>, vars: set<nat>, a: Env,
      b: Env)
    requires Chooses(c, taken) && AgreeOff(vars, a, b) && InstAvoids(i, vars)
    ensures var code := HoistOne(i, taken, zero, zeroed);
      AgreeOff(vars, InstEnv(w, a, i), CodeEnv(w, c, b, code)) && CodeLoads(w, c, b, code) == InstLoads(a, i)
        && CodeCopies(w, c, b, code) == []
  {
    if i.Pure? || i.Mma? { WordsAgree(a, b, i.args, vars); }
    if i.Mma? { TakenOperands(c, b, i.args, taken); }
    hide Words;
    var code := HoistOne(i, taken, zero, zeroed);
    if code != [] { assert code[1..] == []; }
  }

  // the taken arm does in the straight-line code what it did behind the branch
  lemma {:induction false} HoistTaken(w: World, c: Word, insts: seq<ArmInst>, taken: bool, zero: Value,
      zeroed: set<nat>, vars: set<nat>, a: Env, b: Env)
    requires Chooses(c, taken) && AgreeOff(vars, a, b) && ArmAvoids(insts, vars)
    ensures var code := Hoisted(insts, taken, zero, zeroed);
      AgreeOff(vars, ArmEnv(w, a, insts), CodeEnv(w, c, b, code)) && CodeLoads(w, c, b, code) == ArmLoads(w, a, insts)
      && CodeCopies(w, c, b, code) == []
    decreases |insts|
  {
    if insts != [] {
      hide HoistOne, CodeEnv, CodeLoads, CodeCopies, InstEnv, InstLoads, AgreeOff;
      HoistedCons(insts, taken, zero, zeroed);
      var first, rest := HoistOne(insts[0], taken, zero, zeroed), Hoisted(insts[1..], taken, zero, zeroed);
      OneTaken(w, c, insts[0], taken, zero, zeroed, vars, a, b);
      CodeAppend(w, c, b, first, rest);
      HoistTaken(w, c, insts[1..], taken, zero, zeroed, vars, InstEnv(w, a, insts[0]), CodeEnv(w, c, b, first));
    }
  }

  lemma OneSkipped(w: World, c: Word, i: ArmInst, taken: bool, z: Word, zeroed: set<nat>, env: Env)
    requires Chooses(c, !taken)
    ensures var code := HoistOne(i, taken, Lit(z), zeroed);
      AgreeOff(InstDefs(i), env, CodeEnv(w, c, env, code))
        && CodeLoads(w, c, env, code) == (if i.Load? then [z] else [])
      && CodeCopies(w, c, env, code) == []
  {
    var code := HoistOne(i, taken, Lit(z), zeroed);
    if code != [] { assert code[1..] == []; }
  }

  lemma ZerosCons(insts: seq<ArmInst>, z: Word)
    requires insts != []
    ensures Zeros(LoadCount(insts), z) == (if insts[0].Load? then [z] else []) + Zeros(LoadCount(insts[1..]), z)
  {
  }

  // a skipped arm reads the zero page only, and changes its own definitions only
  lemma {:induction false} HoistSkipped(w: World, c: Word, insts: seq<ArmInst>, taken: bool, z: Word, zeroed: set<nat>,
      env: Env)
    requires Chooses(c, !taken)
    ensures var code := Hoisted(insts, taken, Lit(z), zeroed);
      AgreeOff(ArmDefs(insts), env, CodeEnv(w, c, env, code))
        && CodeLoads(w, c, env, code) == Zeros(LoadCount(insts), z)
      && CodeCopies(w, c, env, code) == []
    decreases |insts|
  {
    if insts == [] {
    } else {
      hide HoistOne, Hoisted, CodeEnv, CodeLoads, CodeCopies, InstDefs, Zeros, LoadCount;
      HoistedCons(insts, taken, Lit(z), zeroed);
      var first, rest := HoistOne(insts[0], taken, Lit(z), zeroed), Hoisted(insts[1..], taken, Lit(z), zeroed);
      OneSkipped(w, c, insts[0], taken, z, zeroed, env);
      CodeAppend(w, c, env, first, rest);
      HoistSkipped(w, c, insts[1..], taken, z, zeroed, CodeEnv(w, c, env, first));
      ZerosCons(insts, z);
    }
  }

  // the one copy of an arm, with the operands' values at the end of the arm
  lemma {:induction false} CopyAtEnd(w: World, env: Env, insts: seq<ArmInst>, copy: Option<ArmInst>)
    requires SingleAssignment(insts) && CopyCount(insts) <= 1
    requires copy == None <==> CopyCount(insts) == 0
    requires copy.Some? ==> copy.value in insts && copy.value.Copy?
    ensures ArmCopies(w, env, insts) == if copy.None? then [] else InstCopies(w, ArmEnv(w, env, insts), copy.value)
    decreases |insts|
  {
    if insts != [] {
      if insts[0].Copy? {
        CopyAtEnd(w, env, insts[1..], None);
        ArmChanges(w, env, insts);
        if copy.value != insts[0] { OtherCopy(insts[1..], copy.value); }
      } else {
        CopyAtEnd(w, InstEnv(w, env, insts[0]), insts[1..], copy);
      }
    }
  }

  lemma {:induction false} OtherCopy(insts: seq<ArmInst>, i: ArmInst)
    requires i in insts && i.Copy?
    ensures CopyCount(insts) > 0
  {
    if insts[0] != i { OtherCopy(insts[1..], i); }
  }

  lemma {:induction false} ArmChanges(w: World, env: Env, insts: seq<ArmInst>)
    ensures AgreeOff(ArmDefs(insts), env, ArmEnv(w, env, insts))
    decreases |insts|
  {
    if insts != [] { ArmChanges(w, InstEnv(w, env, insts[0]), insts[1..]); }
  }
}
