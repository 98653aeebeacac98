// The two shapes of a guard (GuardedLoads.dfy has the arms): the diamond, with one copy in each arm or none, and the
// triangle, with mma accumulators settled by zeroed operands.
module GuardedBranches {
  import opened Options
  import opened SsaValues
  import opened GuardedLoads
  import opened WarpMma

  // ---- identical computations of the two arms collapse

  type Renaming = map<nat, nat>

  function Renamed(r: Renaming, v: Value): Value {
    if v.Var? && v.x in r then Var(r[v.x]) else v
  }

  function RenamedArgs(r: Renaming, args: seq<Value>): seq<Value> {
    seq(|args|, k requires 0 <= k < |args| => Renamed(r, args[k]))
  }

  function RenamedOperand(r: Renaming, o: Operand): Operand {
    match o
    case Plain(v) => Plain(Renamed(r, v))
    case Pick(t, f) => Pick(Renamed(r, t), Renamed(r, f))
  }

  function RenamedInst(r: Renaming, i: ArmInst): ArmInst {
    match i
    case Pure(dst, op, args, s) => Pure(dst, op, RenamedArgs(r, args), s)
    case Load(dst, ptr, device) => Load(dst, Renamed(r, ptr), device)
    case Mma(dst, call, part, args) => Mma(dst, call, part, RenamedArgs(r, args))
    case Copy(to, from, bytes, size) => Copy(Renamed(r, to), Renamed(r, from), bytes, size)
    case Refused(op, args) => Refused(op, RenamedArgs(r, args))
  }

  function RenamedStmt(r: Renaming, st: Stmt): Stmt {
    match st
    case Keep(i) => Keep(RenamedInst(r, i))
    case LoadPick(dst, p, device) => LoadPick(dst, RenamedOperand(r, p), device)
    case MmaPick(dst, part, args) =>
      MmaPick(dst, part, seq(|args|, k requires 0 <= k < |args| => RenamedOperand(r, args[k])))
    case CopyPick(to, from, bytes, valid) => CopyPick(RenamedOperand(r, to), RenamedOperand(r, from), bytes, valid)
  }

  // the same operation on the same operands; loads and copies never count
  predicate Identical(i: ArmInst, j: ArmInst)
    ensures Identical(i, j) <==>
      (i.Pure? && j.Pure? && j == i.(dst := j.dst, speculatable := j.speculatable))
      || (i.Mma? && j.Mma? && j == i.(dst := j.dst, call := j.call))
  {
    match i
    case Pure(_, op, args, _) => j.Pure? && j.op == op && j.args == args
    case Mma(_, _, part, args) => j.Mma? && j.part == part && j.args == args
    case _ => false
  }

  function FirstIdentical(keep: seq<ArmInst>, i: ArmInst): (j: nat)
    ensures j <= |keep| && (j < |keep| ==> Identical(i, keep[j]))
  {
    if keep == [] || Identical(i, keep[0]) then 0 else 1 + FirstIdentical(keep[1..], i)
  }

  method FindIdentical(keep: seq<ArmInst>, i: ArmInst) returns (j: nat)
    ensures j == FirstIdentical(keep, i)
  {
    j := 0;
    assert keep[0..] == keep;
    while j < |keep|
      invariant j <= |keep| && FirstIdentical(keep, i) == j + FirstIdentical(keep[j..], i)
    {
      if Identical(i, keep[j]) { return; }
      assert keep[j..][1..] == keep[j + 1..];
      j := j + 1;
    }
  }

  datatype Collapse = Collapse(out: seq<Stmt>, r: Renaming)

  // the kept instruction a statement repeats, if any
  function Repeats(keep: seq<ArmInst>, st: Stmt): (j: nat)
    ensures j <= |keep|
    ensures j < |keep| ==>
      st.Keep? && (st.inst.Pure? || st.inst.Mma?) && (keep[j].Pure? || keep[j].Mma?) && Identical(st.inst, keep[j])
  {
    if st.Keep? then FirstIdentical(keep, st.inst) else |keep|
  }

  // what is left of the second arm, and the renaming of what is gone
  function Collapsed(keep: seq<ArmInst>, code: seq<Stmt>, r: Renaming): Collapse {
    if code == [] then Collapse([], r)
    else
      var st := RenamedStmt(r, code[0]);
      var j := Repeats(keep, st);
      if j < |keep| then Collapsed(keep, code[1..], r[st.inst.dst := keep[j].dst])
      else var rest := Collapsed(keep, code[1..], r); Collapse([st] + rest.out, rest.r)
  }

  method Cse(keep: seq<ArmInst>, code: seq<Stmt>) returns (out: seq<Stmt>, r: Renaming)
    ensures Collapse(out, r) == Collapsed(keep, code, map[])
  {
    hide RenamedStmt, FirstIdentical, Identical;
    out, r := [], map[];
    assert code[0..] == code;
    for i := 0 to |code|
      invariant Collapsed(keep, code, map[]).out == out + Collapsed(keep, code[i..], r).out
      invariant Collapsed(keep, code, map[]).r == Collapsed(keep, code[i..], r).r
    {
      assert code[i..][1..] == code[i + 1..];
      var st := RenamedStmt(r, code[i]);
      if st.Keep? {
        var j := FindIdentical(keep, st.inst);
        assert j == Repeats(keep, st);
        if j < |keep| {
          r := r[st.inst.dst := keep[j].dst];
          continue;
        }
      }
      assert Repeats(keep, st) == |keep|;
      out := out + [st];
    }
  }

  function StmtDefs(st: Stmt): set<nat> {
    match st
    case Keep(i) => InstDefs(i)
    case LoadPick(dst, _, _) => {dst}
    case MmaPick(dst, _, _) => {dst}
    case CopyPick(_, _, _, _) => {}
  }

  function CodeDefs(code: seq<Stmt>): set<nat> {
    if code == [] then {} else StmtDefs(code[0]) + CodeDefs(code[1..])
  }

  predicate SingleCode(code: seq<Stmt>) {
    code == [] || (StmtDefs(code[0]) !! CodeDefs(code[1..]) && SingleCode(code[1..]))
  }

  // the value of every variable is found under its new name
  ghost predicate Tracks(r: Renaming, a: Env, b: Env) {
    forall x :: Val(b, Renamed(r, Var(x))) == Val(a, Var(x))
  }

  // the kept arm's results are still what its operands give
  ghost predicate Standing(w: World, keep: seq<ArmInst>, b: Env) {
    forall j :: 0 <= j < |keep| && (keep[j].Pure? || keep[j].Mma?) ==>
      Val(b, Var(keep[j].dst)) == InstValue(w, b, keep[j])
  }

  ghost predicate NewNames(r: Renaming, keep: seq<ArmInst>, defs: set<nat>) {
    && r.Keys !! defs && r.Values !! defs
    && (forall j :: 0 <= j < |keep| ==> InstAvoids(keep[j], defs) && InstDefs(keep[j]) !! defs)
  }

  lemma RenamedValue(r: Renaming, a: Env, b: Env, v: Value)
    requires Tracks(r, a, b)
    ensures Val(b, Renamed(r, v)) == Val(a, v)
  {
    if v.Var? { assert Val(b, Renamed(r, Var(v.x))) == Val(a, Var(v.x)); }
  }

  lemma RenamedWords(r: Renaming, a: Env, b: Env, args: seq<Value>)
    requires Tracks(r, a, b)
    ensures Words(b, RenamedArgs(r, args)) == Words(a, args)
  {
    forall k | 0 <= k < |args| ensures Val(b, Renamed(r, args[k])) == Val(a, args[k]) {
      RenamedValue(r, a, b, args[k]);
    }
  }

  lemma RenamedOperandValue(r: Renaming, a: Env, b: Env, c: Word, o: Operand)
    requires Tracks(r, a, b)
    ensures OperandVal(b, c, RenamedOperand(r, o)) == OperandVal(a, c, o)
  {
    match o
    case Plain(v) => RenamedValue(r, a, b, v);
    case Pick(t, f) => RenamedValue(r, a, b, t); RenamedValue(r, a, b, f);
  }

  // a statement that stays
  lemma KeptStep(w: World, c: Word, keep: seq<ArmInst>, st: Stmt, r: Renaming, a: Env, b: Env)
    requires Tracks(r, a, b) && Standing(w, keep, b) && NewNames(r, keep, StmtDefs(st))
    ensures var st' := RenamedStmt(r, st);
      Tracks(r, StmtEnv(w, c, a, st), StmtEnv(w, c, b, st')) && StmtLoads(c, b, st') == StmtLoads(c, a, st)
      && StmtCopies(w, c, b, st') == StmtCopies(w, c, a, st) && Standing(w, keep, StmtEnv(w, c, b, st'))
  {
    hide StmtEnv, StmtLoads, StmtCopies, Tracks, Standing;
    RenamedDefs(r, st);
    RenamedStep(w, c, st, r, a, b);
    StandsOn(w, c, keep, RenamedStmt(r, st), b);
  }

  lemma RenamedDefs(r: Renaming, st: Stmt)
    ensures StmtDefs(RenamedStmt(r, st)) == StmtDefs(st)
  {
  }

  lemma RenamedStep(w: World, c: Word, st: Stmt, r: Renaming, a: Env, b: Env)
    requires Tracks(r, a, b) && r.Keys !! StmtDefs(st) && r.Values !! StmtDefs(st)
    ensures var st' := RenamedStmt(r, st);
      Tracks(r, StmtEnv(w, c, a, st), StmtEnv(w, c, b, st')) && StmtLoads(c, b, st') == StmtLoads(c, a, st)
      && StmtCopies(w, c, b, st') == StmtCopies(w, c, a, st)
  {
    var st' := RenamedStmt(r, st);
    match st {
      case Keep(i) => {
        if i.Pure? || i.Mma? { RenamedWords(r, a, b, i.args); }
        if i.Load? { RenamedValue(r, a, b, i.ptr); }
        if i.Copy? { RenamedValue(r, a, b, i.to); RenamedValue(r, a, b, i.from); }
      }
      case LoadPick(_, p, _) => { RenamedOperandValue(r, a, b, c, p); }
      case MmaPick(_, _, args) => {
        forall k | 0 <= k < |args| ensures OperandVal(b, c, st'.args[k]) == OperandVal(a, c, args[k]) {
          RenamedOperandValue(r, a, b, c, args[k]);
        }
        assert seq(|args|, k requires 0 <= k < |args| => OperandVal(b, c, st'.args[k]))
          == seq(|args|, k requires 0 <= k < |args| => OperandVal(a, c, args[k]));
      }
      case CopyPick(to, from, _, _) => {
        RenamedOperandValue(r, a, b, c, to);
        RenamedOperandValue(r, a, b, c, from);
      }
    }
    SameStep(w, c, st, st', r, a, b);
  }

  lemma SameStep(w: World, c: Word, st: Stmt, st': Stmt, r: Renaming, a: Env, b: Env)
    requires Tracks(r, a, b) && r.Keys !! StmtDefs(st) && r.Values !! StmtDefs(st) && StmtDefs(st') == StmtDefs(st)
    requires forall x :: x in StmtDefs(st) ==> Val(StmtEnv(w, c, a, st), Var(x)) == Val(StmtEnv(w, c, b, st'), Var(x))
    ensures Tracks(r, StmtEnv(w, c, a, st), StmtEnv(w, c, b, st'))
  {
    forall x ensures Val(StmtEnv(w, c, b, st'), Renamed(r, Var(x))) == Val(StmtEnv(w, c, a, st), Var(x)) {
      assert Val(b, Renamed(r, Var(x))) == Val(a, Var(x));
      if x in r { assert r[x] in r.Values; }
      StmtKeeps(w, c, a, st, x);
      StmtKeeps(w, c, b, st', if x in r then r[x] else x);
      hide StmtEnv, StmtDefs, Val;
    }
  }

  lemma StmtKeeps(w: World, c: Word, env: Env, st: Stmt, x: nat)
    ensures x !in StmtDefs(st) ==> Val(StmtEnv(w, c, env, st), Var(x)) == Val(env, Var(x))
  {
  }

  // a statement dropped for the kept one that computes the same
  lemma DroppedStep(w: World, c: Word, keep: seq<ArmInst>, st: Stmt, j: nat, r: Renaming, a: Env, b: Env)
    requires Tracks(r, a, b) && Standing(w, keep, b) && j < |keep| && st.Keep? && (st.inst.Pure? || st.inst.Mma?)
    requires Identical(RenamedInst(r, st.inst), keep[j]) && st.inst.dst !in r.Values
    ensures keep[j].Pure? || keep[j].Mma?
    ensures Tracks(r[st.inst.dst := keep[j].dst], StmtEnv(w, c, a, st), b)
    ensures StmtLoads(c, a, st) == [] && StmtCopies(w, c, a, st) == []
  {
    hide InstAvoids, ArmDefs;
    var i := st.inst;
    RenamedWords(r, a, b, i.args);
    assert Val(b, Var(keep[j].dst)) == InstValue(w, b, keep[j]);
    var r' := r[i.dst := keep[j].dst];
    forall x ensures Val(b, Renamed(r', Var(x))) == Val(InstEnv(w, a, i), Var(x)) {
      if x != i.dst {
        assert Val(b, Renamed(r, Var(x))) == Val(a, Var(x));
      }
    }
  }

  lemma StandsOn(w: World, c: Word, keep: seq<ArmInst>, st: Stmt, b: Env)
    requires Standing(w, keep, b)
    requires forall j :: 0 <= j < |keep| ==> InstAvoids(keep[j], StmtDefs(st)) && InstDefs(keep[j]) !! StmtDefs(st)
    ensures Standing(w, keep, StmtEnv(w, c, b, st))
  {
    var b' := StmtEnv(w, c, b, st);
    assert AgreeOff(StmtDefs(st), b, b');
    forall j | 0 <= j < |keep| && (keep[j].Pure? || keep[j].Mma?)
      ensures Val(b', Var(keep[j].dst)) == InstValue(w, b', keep[j])
    {
      assert InstAvoids(keep[j], StmtDefs(st));
      WordsAgree(b, b', keep[j].args, StmtDefs(st));
    }
  }

  // the code without the repeated computations does what it did
  lemma {:induction false} CseSound(w: World, c: Word, keep: seq<ArmInst>, code: seq<Stmt>, r: Renaming, a: Env, b: Env)
    requires Tracks(r, a, b) && Standing(w, keep, b) && SingleCode(code) && NewNames(r, keep, CodeDefs(code))
    ensures var o := Collapsed(keep, code, r);
      && Tracks(o.r, CodeEnv(w, c, a, code), CodeEnv(w, c, b, o.out))
      && CodeLoads(w, c, b, o.out) == CodeLoads(w, c, a, code)
        && CodeCopies(w, c, b, o.out) == CodeCopies(w, c, a, code)
      && o.r.Keys <= r.Keys + CodeDefs(code)
    decreases |code|
  {
    hide Tracks, Standing, NewNames, RenamedStmt, StmtEnv, StmtLoads, StmtCopies, Identical;
    if code != [] {
      var st := RenamedStmt(r, code[0]);
      var j := Repeats(keep, st);
      KeptNames(keep, code, r);
      if j < |keep| {
        RenamedKind(r, code[0]);
        DroppedNames(keep, code, r, j, st.inst.dst);
        DroppedStep(w, c, keep, code[0], j, r, a, b);
        CseSound(w, c, keep, code[1..], r[st.inst.dst := keep[j].dst], StmtEnv(w, c, a, code[0]), b);
      } else {
        KeptStep(w, c, keep, code[0], r, a, b);
        CseSound(w, c, keep, code[1..], r, StmtEnv(w, c, a, code[0]), StmtEnv(w, c, b, st));
        var rest := Collapsed(keep, code[1..], r);
        assert ([st] + rest.out)[1..] == rest.out;
      }
    }
  }

  lemma RenamedKind(r: Renaming, st: Stmt)
    ensures RenamedStmt(r, st).Keep? <==> st.Keep?
    ensures st.Keep? ==> RenamedStmt(r, st).inst == RenamedInst(r, st.inst)
    ensures st.Keep? && (RenamedInst(r, st.inst).Pure? || RenamedInst(r, st.inst).Mma?) ==>
      (st.inst.Pure? || st.inst.Mma?) && RenamedInst(r, st.inst).dst == st.inst.dst && st.inst.dst in StmtDefs(st)
  {
  }

  lemma KeptNames(keep: seq<ArmInst>, code: seq<Stmt>, r: Renaming)
    requires code != [] && NewNames(r, keep, CodeDefs(code))
    ensures NewNames(r, keep, CodeDefs(code[1..])) && NewNames(r, keep, StmtDefs(code[0]))
  {
    forall j | 0 <= j < |keep|
      ensures InstAvoids(keep[j], CodeDefs(code[1..])) && InstAvoids(keep[j], StmtDefs(code[0]))
    {
      assert InstAvoids(keep[j], CodeDefs(code));
    }
  }

  lemma DroppedNames(keep: seq<ArmInst>, code: seq<Stmt>, r: Renaming, j: nat, d: nat)
    requires code != [] && SingleCode(code) && NewNames(r, keep, CodeDefs(code)) && d in StmtDefs(code[0])
    requires j < |keep| && (keep[j].Pure? || keep[j].Mma?)
    ensures NewNames(r[d := keep[j].dst], keep, CodeDefs(code[1..]))
    ensures d !in r.Values
  {
    KeptNames(keep, code, r);
    assert InstDefs(keep[j]) !! CodeDefs(code);
    assert r[d := keep[j].dst].Values <= r.Values + {keep[j].dst};
  }

  // ---- a hoisted arm

  lemma {:induction false} HoistChanges(w: World, c: Word, insts: seq<ArmInst>, taken: bool, zero: Value,
      zeroed: set<nat>, env: Env)
    ensures AgreeOff(ArmDefs(insts), env, CodeEnv(w, c, env, Hoisted(insts, taken, zero, zeroed)))
    decreases |insts|
  {
    if insts != [] {
      HoistedCons(insts, taken, zero, zeroed);
      var first := HoistOne(insts[0], taken, zero, zeroed);
      CodeAppend(w, c, env, first, Hoisted(insts[1..], taken, zero, zeroed));
      OneChanges(w, c, insts[0], taken, zero, zeroed, env);
      hide HoistOne, Hoisted, CodeEnv;
      HoistChanges(w, c, insts[1..], taken, zero, zeroed, CodeEnv(w, c, env, first));
    }
  }

  lemma OneChanges(w: World, c: Word, i: ArmInst, taken: bool, zero: Value, zeroed: set<nat>, env: Env)
    ensures AgreeOff(InstDefs(i), env, CodeEnv(w, c, env, HoistOne(i, taken, zero, zeroed)))
  {
    var code := HoistOne(i, taken, zero, zeroed);
    if code != [] { assert code[1..] == []; }
  }

  lemma {:induction false} HoistedDefs(insts: seq<ArmInst>, taken: bool, zero: Value, zeroed: set<nat>)
    ensures CodeDefs(Hoisted(insts, taken, zero, zeroed)) == ArmDefs(insts)
    ensures SingleAssignment(insts) ==> SingleCode(Hoisted(insts, taken, zero, zeroed))
    decreases |insts|
  {
    if insts != [] {
      HoistedCons(insts, taken, zero, zeroed);
      HoistedDefs(insts[1..], taken, zero, zeroed);
      var first, rest := HoistOne(insts[0], taken, zero, zeroed), Hoisted(insts[1..], taken, zero, zeroed);
      if first == [] { assert first + rest == rest; } else { assert (first + rest)[1..] == rest; }
    }
  }

  // after its arm was hoisted, every kept instruction's variable holds what its operands give
  lemma {:induction false} HoistStands(w: World, c: Word, insts: seq<ArmInst>, taken: bool, zero: Value, env: Env)
    requires SingleAssignment(insts)
    ensures Standing(w, insts, CodeEnv(w, c, env, Hoisted(insts, taken, zero, {})))
    decreases |insts|
  {
    if insts != [] {
      HoistedCons(insts, taken, zero, {});
      var i, rest := insts[0], Hoisted(insts[1..], taken, zero, {});
      var first := HoistOne(i, taken, zero, {});
      CodeAppend(w, c, env, first, rest);
      var b := CodeEnv(w, c, env, first);
      HoistStands(w, c, insts[1..], taken, zero, b);
      HoistChanges(w, c, insts[1..], taken, zero, {}, b);
      var e := CodeEnv(w, c, b, rest);
      if i.Pure? || i.Mma? {
        assert first[1..] == [] && b == InstEnv(w, env, i);
        WordsAgree(env, e, i.args, ArmDefs(insts));
      }
      forall j | 0 <= j < |insts| && (insts[j].Pure? || insts[j].Mma?)
        ensures Val(e, Var(insts[j].dst)) == InstValue(w, e, insts[j])
      {
        if j > 0 { assert insts[j] == insts[1..][j - 1]; }
      }
    }
  }

  // ---- nothing else is noticed

  ghost predicate Quiet(st: Stmt) {
    match st
    case Keep(i) => Harmless(i)
    case LoadPick(_, _, device) => device
    case _ => true
  }

  ghost predicate AllQuiet(code: seq<Stmt>) {
    forall st :: st in code ==> Quiet(st)
  }

  ghost predicate AllHarmless(insts: seq<ArmInst>) {
    forall i :: i in insts ==> Harmless(i)
  }

  lemma {:induction false} QuietCode(w: World, c: Word, env: Env, code: seq<Stmt>)
    requires AllQuiet(code)
    ensures CodeEvents(w, c, env, code) == []
    decreases |code|
  {
    if code != [] {
      assert code[0] in code;
      QuietCode(w, c, StmtEnv(w, c, env, code[0]), code[1..]);
    }
  }

  lemma {:induction false} QuietArm(w: World, env: Env, insts: seq<ArmInst>)
    requires AllHarmless(insts)
    ensures ArmEvents(w, env, insts) == []
    decreases |insts|
  {
    if insts != [] {
      assert insts[0] in insts;
      QuietArm(w, InstEnv(w, env, insts[0]), insts[1..]);
    }
  }

  lemma {:induction false} HoistedQuiet(insts: seq<ArmInst>, taken: bool, zero: Value, zeroed: set<nat>)
    requires AllHarmless(insts)
    ensures AllQuiet(Hoisted(insts, taken, zero, zeroed))
  {
    hide Harmless;
    if insts != [] {
      var i := insts[|insts| - 1];
      HoistedQuiet(insts[..|insts| - 1], taken, zero, zeroed);
      AdmissibleExactly(i);
      assert i in insts;
    }
  }

  lemma RenamedQuiet(r: Renaming, st: Stmt)
    requires Quiet(st)
    ensures Quiet(RenamedStmt(r, st))
  {
    hide Harmless;
    if st.Keep? {
      AdmissibleExactly(st.inst);
      AdmissibleExactly(RenamedInst(r, st.inst));
    }
  }

  lemma {:induction false} CollapsedQuiet(keep: seq<ArmInst>, code: seq<Stmt>, r: Renaming)
    requires AllQuiet(code)
    ensures AllQuiet(Collapsed(keep, code, r).out)
    decreases |code|
  {
    hide Quiet, RenamedStmt;
    if code != [] {
      var st := RenamedStmt(r, code[0]);
      var j := Repeats(keep, st);
      RenamedQuiet(r, code[0]);
      CollapsedQuiet(keep, code[1..], if j < |keep| then r[st.inst.dst := keep[j].dst] else r);
    }
  }

  // ---- the diamond

  // one copy with selected operands; at least one of the two is valid
  function MergedCopy(t: ArmInst, f: ArmInst): Stmt
    requires t.Copy? && f.Copy?
  {
    CopyPick(if t.to == f.to then Plain(t.to) else Pick(t.to, f.to),
      if t.from == f.from then Plain(t.from) else Pick(t.from, f.from), t.bytes,
      if t.size == t.bytes && f.size == f.bytes then Always else if t.size == t.bytes then WhenTrue else WhenFalse)
  }

  predicate CopiesMatch(t: ArmInst, f: ArmInst) {
    t.Copy? && f.Copy? && t.bytes == f.bytes && (t.size == t.bytes || f.size == f.bytes)
  }

  ghost predicate Diamond(t: seq<ArmInst>, f: seq<ArmInst>) {
    && Analyzable(t) && Analyzable(f) && CopyCount(t) == CopyCount(f)
    && (forall i, j :: i in t && j in f && i.Copy? && j.Copy? ==> CopiesMatch(i, j))
  }

  // the arms and the join in SSA form: an arm sees its own definitions and what comes before the branch
  ghost predicate DiamondSsa(t: seq<ArmInst>, f: seq<ArmInst>, phis: seq<(Value, Value)>) {
    && SingleAssignment(t) && SingleAssignment(f) && ArmDefs(t) !! ArmDefs(f)
    && ArmAvoids(t, ArmDefs(f)) && ArmAvoids(f, ArmDefs(t))
    && (forall i :: 0 <= i < |phis| ==> Avoids(phis[i].0, ArmDefs(f)) && Avoids(phis[i].1, ArmDefs(t)))
  }

  // what the join sees after the conversion is what it saw behind the branch; the loads of the skipped arm read the
  // zero page
  ghost predicate JoinPreserved(w: World, c: Word, env: Env, t: seq<ArmInst>, f: seq<ArmInst>,
      phis: seq<(Value, Value)>, zero: Word, code: seq<Stmt>, sels: seq<Operand>)
    requires c.Num? && |sels| == |phis|
  {
    var end := ArmEnv(w, env, if c.n != 0 then t else f);
    var done := CodeEnv(w, c, env, code);
    && (forall i :: 0 <= i < |phis| ==>
      OperandVal(done, c, sels[i]) == Val(end, if c.n != 0 then phis[i].0 else phis[i].1))
    && CodeLoads(w, c, env, code) == (if c.n != 0 then ArmLoads(w, env, t) + Zeros(LoadCount(f), zero)
                                      else Zeros(LoadCount(t), zero) + ArmLoads(w, env, f))
    && CodeEvents(w, c, env, code) == ArmEvents(w, env, if c.n != 0 then t else f)
    && AgreeOff(ArmDefs(t) + ArmDefs(f), env, done)
  }

  // the copy of the arm that was chosen
  ghost predicate CopyPreserved(w: World, c: Word, env: Env, t: seq<ArmInst>, f: seq<ArmInst>, code: seq<Stmt>)
    requires c.Num?
  {
    CodeCopies(w, c, env, code) == ArmCopies(w, env, if c.n != 0 then t else f)
  }

  // the instructions of the second arm that repeat one of the first, operands read through what was already found to be
  // a repetition: these are erased before the copies are merged
  function Repeated(keep: seq<ArmInst>, insts: seq<ArmInst>, r: Renaming): Renaming
    decreases |insts|
  {
    if insts == [] then r
    else
      var i := insts[0];
      var j := if i.Pure? || i.Mma? then FirstIdentical(keep, RenamedInst(r, i)) else |keep|;
      Repeated(keep, insts[1..], if j < |keep| && (keep[j].Pure? || keep[j].Mma?) then r[i.dst := keep[j].dst] else r)
  }

  predicate Erased(t: seq<ArmInst>, f: seq<ArmInst>, v: Value) {
    v.Var? && v.x in Repeated(t, f, map[])
  }

  // no operand the second arm's copy needs is computed by a repeated instruction
  predicate CopySurvives(t: seq<ArmInst>, f: seq<ArmInst>) {
    forall i :: i in f && i.Copy? ==> !Erased(t, f, i.to) && (i.size == i.bytes ==> !Erased(t, f, i.from))
  }

  // the arms' repetitions are what the collapse of the hoisted code finds
  lemma {:induction false} RepeatedIsCollapsed(keep: seq<ArmInst>, insts: seq<ArmInst>, zero: Value, r: Renaming)
    ensures Collapsed(keep, Hoisted(insts, false, zero, {}), r).r == Repeated(keep, insts, r)
    decreases |insts|
  {
    if insts != [] {
      HoistedCons(insts, false, zero, {});
      var i, rest := insts[0], Hoisted(insts[1..], false, zero, {});
      var first := HoistOne(i, false, zero, {});
      hide Hoisted, FirstIdentical, RenamedInst;
      if first == [] {
        assert first + rest == rest;
        RepeatedIsCollapsed(keep, insts[1..], zero, r);
      } else {
        var j := Repeats(keep, RenamedStmt(r, first[0]));
        CollapsedStep(keep, first, rest, r);
        RepeatsOf(keep, i, r, zero);
        hide Collapsed, HoistOne, RenamedStmt, Repeats;
        RepeatedIsCollapsed(keep, insts[1..], zero, if j < |keep| then r[i.dst := keep[j].dst] else r);
      }
    }
  }

  lemma CollapsedStep(keep: seq<ArmInst>, first: seq<Stmt>, rest: seq<Stmt>, r: Renaming)
    requires |first| == 1
    ensures var st := RenamedStmt(r, first[0]);
      var j := Repeats(keep, st);
      Collapsed(keep, first + rest, r).r == Collapsed(keep, rest,
        if j < |keep| then r[st.inst.dst := keep[j].dst] else r).r
  {
    hide RenamedStmt, Repeats;
    assert (first + rest)[1..] == rest && (first + rest)[0] == first[0];
  }

  lemma RepeatsOf(keep: seq<ArmInst>, i: ArmInst, r: Renaming, zero: Value)
    requires !i.Copy?
    ensures HoistOne(i, false, zero, {}) != []
    ensures var j, k := Repeats(keep, RenamedStmt(r, HoistOne(i, false, zero, {})[0])),
      FirstIdentical(keep, RenamedInst(r, i));
      if i.Pure? || i.Mma? then j == k && (k < |keep| ==> keep[k].Pure? || keep[k].Mma?) else j == |keep|
  {
    if i.Refused? { NothingIdentical(keep, i); }
  }

  lemma {:induction false} NothingIdentical(keep: seq<ArmInst>, i: ArmInst)
    requires !i.Pure? && !i.Mma?
    ensures FirstIdentical(keep, i) == |keep|
  {
    if keep != [] { NothingIdentical(keep[1..], i); }
  }

  // both arms side by side, before identical computations collapse
  lemma BothHoisted(w: World, c: Word, env: Env, t: seq<ArmInst>, f: seq<ArmInst>, z: Word)
    requires c.Num? && ArmAvoids(f, ArmDefs(t))
    ensures var taken, ct, cf := c.n != 0, Hoisted(t, true, Lit(z), {}), Hoisted(f, false, Lit(z), {});
      var e := CodeEnv(w, c, CodeEnv(w, c, env, ct), cf);
      && AgreeOff(if taken then ArmDefs(f) else ArmDefs(t), ArmEnv(w, env, if taken then t else f), e)
      && AgreeOff(ArmDefs(t) + ArmDefs(f), env, e)
      && CodeLoads(w, c, env, ct) + CodeLoads(w, c, CodeEnv(w, c, env, ct), cf) ==
        (if taken then ArmLoads(w, env, t) + Zeros(LoadCount(f), z) else Zeros(LoadCount(t), z) + ArmLoads(w, env, f))
      && CodeCopies(w, c, env, ct) == [] && CodeCopies(w, c, CodeEnv(w, c, env, ct), cf) == []
  {
    var taken, ct := c.n != 0, Hoisted(t, true, Lit(z), {});
    var e := CodeEnv(w, c, env, ct);
    HoistChanges(w, c, t, true, Lit(z), {}, env);
    HoistChanges(w, c, f, false, Lit(z), {}, e);
    if taken {
      HoistTaken(w, c, t, true, Lit(z), {}, {}, env, env);
      HoistSkipped(w, c, f, false, z, {}, e);
    } else {
      HoistSkipped(w, c, t, true, z, {}, env);
      HoistTaken(w, c, f, false, Lit(z), {}, ArmDefs(t), env, e);
    }
  }

  // the second arm with identical computations gone
  lemma CollapsedArm(w: World, c: Word, env: Env, t: seq<ArmInst>, f: seq<ArmInst>, z: Word)
    requires SingleAssignment(t) && SingleAssignment(f) && ArmDefs(t) !! ArmDefs(f) && ArmAvoids(t, ArmDefs(f))
    ensures var ct, cf := Hoisted(t, true, Lit(z), {}), Hoisted(f, false, Lit(z), {});
      var o, e := Collapsed(t, cf, map[]), CodeEnv(w, c, env, ct);
      && Tracks(o.r, CodeEnv(w, c, e, cf), CodeEnv(w, c, e, o.out)) && o.r.Keys <= ArmDefs(f)
      && CodeLoads(w, c, e, o.out) == CodeLoads(w, c, e, cf) && CodeCopies(w, c, e, o.out) == CodeCopies(w, c, e, cf)
  {
    var ct, cf := Hoisted(t, true, Lit(z), {}), Hoisted(f, false, Lit(z), {});
    var e := CodeEnv(w, c, env, ct);
    HoistStands(w, c, t, true, Lit(z), env);
    HoistedDefs(f, false, Lit(z), {});
    forall j | 0 <= j < |t| ensures InstAvoids(t[j], ArmDefs(f)) && InstDefs(t[j]) !! ArmDefs(f) {
      assert t[j] in t;
      InstInArm(t, j);
    }
    CseSound(w, c, t, cf, map[], e, e);
  }

  lemma {:induction false} InstInArm(insts: seq<ArmInst>, j: nat)
    requires j < |insts|
    ensures InstDefs(insts[j]) <= ArmDefs(insts)
  {
    if j > 0 { InstInArm(insts[1..], j - 1); }
  }

  // the renamed value of the second arm's side, and the first arm's side, at the end of the straight-line code
  lemma SidesAtEnd(w: World, c: Word, env: Env, t: seq<ArmInst>, f: seq<ArmInst>, z: Word, vt: Value, vf: Value)
    requires c.Num? && SingleAssignment(t) && SingleAssignment(f) && ArmDefs(t) !! ArmDefs(f)
    requires ArmAvoids(t, ArmDefs(f)) && ArmAvoids(f, ArmDefs(t)) && Avoids(vt, ArmDefs(f)) && Avoids(vf, ArmDefs(t))
    ensures var ct, cf := Hoisted(t, true, Lit(z), {}), Hoisted(f, false, Lit(z), {});
      var o, e := Collapsed(t, cf, map[]), CodeEnv(w, c, env, ct);
      var done := CodeEnv(w, c, e, o.out);
      if c.n != 0 then Val(done, vt) == Val(ArmEnv(w, env, t), vt)
        else Val(done, Renamed(o.r, vf)) == Val(ArmEnv(w, env, f), vf)
  {
    var cf := Hoisted(f, false, Lit(z), {});
    var o := Collapsed(t, cf, map[]);
    var e := CodeEnv(w, c, env, Hoisted(t, true, Lit(z), {}));
    BothHoisted(w, c, env, t, f, z);
    CollapsedArm(w, c, env, t, f, z);
    RenamedValue(o.r, CodeEnv(w, c, e, cf), CodeEnv(w, c, e, o.out), vt);
    RenamedValue(o.r, CodeEnv(w, c, e, cf), CodeEnv(w, c, e, o.out), vf);
    if vt.Var? { assert vt.x !in o.r; }
  }

  function JoinOperand(vt: Value, vf: Value): Operand {
    if vt == vf then Plain(vt) else Pick(vt, vf)
  }

  ghost predicate DiamondCode(t: seq<ArmInst>, f: seq<ArmInst>, z: Word, tc: Option<ArmInst>, fc: Option<ArmInst>,
      code: seq<Stmt>)
  {
    && FindsCopy(t, tc) && FindsCopy(f, fc)
    && var o := Collapsed(t, Hoisted(f, false, Lit(z), {}), map[]);
    code == Hoisted(t, true, Lit(z), {}) + o.out + (if tc.Some? && fc.Some? then [MergedCopy(tc.value, fc.value)]
      else [])
  }

  // everything but the phis
  lemma DiamondEffects(w: World, c: Word, env: Env, t: seq<ArmInst>, f: seq<ArmInst>, z: Word, tc: Option<ArmInst>,
      fc: Option<ArmInst>, code: seq<Stmt>)
    requires c.Num? && Diamond(t, f) && DiamondSsa(t, f, []) && DiamondCode(t, f, z, tc, fc, code)
    ensures var o, e := Collapsed(t, Hoisted(f, false, Lit(z), {}), map[]),
      CodeEnv(w, c, env, Hoisted(t, true, Lit(z), {}));
      CodeEnv(w, c, env, code) == CodeEnv(w, c, e, o.out)
    ensures CodeLoads(w, c, env, code) == (if c.n != 0 then ArmLoads(w, env, t) + Zeros(LoadCount(f), z)
                                           else Zeros(LoadCount(t), z) + ArmLoads(w, env, f))
    ensures c.n != 0 || CopySurvives(t, f) ==> CopyPreserved(w, c, env, t, f, code)
    ensures AgreeOff(ArmDefs(t) + ArmDefs(f), env, CodeEnv(w, c, env, code))
  {
    var ct, cf := Hoisted(t, true, Lit(z), {}), Hoisted(f, false, Lit(z), {});
    var o, e := Collapsed(t, cf, map[]), CodeEnv(w, c, env, ct);
    var tail := if tc.Some? && fc.Some? then [MergedCopy(tc.value, fc.value)] else [];
    assert code == ct + o.out + tail;
    DiamondParts(t, f, []);
    TailRuns(w, c, env, t, f, z, tc, fc, tail);
    CopyPreservedIs(w, c, env, t, f, code);
    hide *;
    CodeAppend(w, c, env, ct + o.out, tail);
    CodeAppend(w, c, env, ct, o.out);
    BothHoisted(w, c, env, t, f, z);
    CollapsedArm(w, c, env, t, f, z);
    KeptVars(o.r, ArmDefs(t) + ArmDefs(f), env, CodeEnv(w, c, e, cf), CodeEnv(w, c, e, o.out));
  }

  lemma DiamondQuiet(w: World, c: Word, env: Env, t: seq<ArmInst>, f: seq<ArmInst>, z: Word, tc: Option<ArmInst>,
      fc: Option<ArmInst>, code: seq<Stmt>)
    requires Diamond(t, f) && DiamondCode(t, f, z, tc, fc, code)
    ensures CodeEvents(w, c, env, code) == [] && ArmEvents(w, env, t) == [] && ArmEvents(w, env, f) == []
  {
    var ct, cf := Hoisted(t, true, Lit(z), {}), Hoisted(f, false, Lit(z), {});
    hide Hoisted, Collapsed, CopyCount, Harmless, CopiesMatch, FindsCopy;
    HoistedQuiet(t, true, Lit(z), {});
    HoistedQuiet(f, false, Lit(z), {});
    CollapsedQuiet(t, cf, map[]);
    assert AllQuiet(code);
    QuietCode(w, c, env, code);
    QuietArm(w, env, t);
    QuietArm(w, env, f);
  }

  lemma CopyPreservedIs(w: World, c: Word, env: Env, t: seq<ArmInst>, f: seq<ArmInst>, code: seq<Stmt>)
    requires c.Num?
    ensures CopyPreserved(w, c, env, t, f, code)
      <==> CodeCopies(w, c, env, code) == ArmCopies(w, env, if c.n != 0 then t else f)
  {
  }

  lemma DiamondCorrect(w: World, c: Word, env: Env, t: seq<ArmInst>, f: seq<ArmInst>, phis: seq<(Value, Value)>,
      z: Word, tc: Option<ArmInst>, fc: Option<ArmInst>, code: seq<Stmt>, sels: seq<Operand>)
    requires c.Num? && Diamond(t, f) && DiamondSsa(t, f, phis) && |sels| == |phis| && DiamondCode(t, f, z, tc, fc, code)
    requires var o := Collapsed(t, Hoisted(f, false, Lit(z), {}), map[]);
      forall i :: 0 <= i < |phis| ==> sels[i] == JoinOperand(phis[i].0, Renamed(o.r, phis[i].1))
    ensures JoinPreserved(w, c, env, t, f, phis, z, code, sels)
    ensures c.n != 0 || CopySurvives(t, f) ==> CopyPreserved(w, c, env, t, f, code)
  {
    hide CopySurvives, CopyPreserved, Collapsed, Hoisted, ArmLoads, SingleAssignment, Analyzable, ArmAvoids, MergedCopy,
        CodeEnv, CodeLoads, CodeCopies, Avoids, CopyCount, Diamond, DiamondSsa, AgreeOff, Tracks, Zeros, LoadCount,
        ArmEnv, ArmDefs, Val, FindsCopy, ArmCopies, JoinOperand, OperandVal, Renamed, DiamondCode, CodeEvents,
          ArmEvents;
    DiamondParts(t, f, phis);
    DiamondEffects(w, c, env, t, f, z, tc, fc, code);
    DiamondQuiet(w, c, env, t, f, z, tc, fc, code);
    var o := Collapsed(t, Hoisted(f, false, Lit(z), {}), map[]);
    var done := CodeEnv(w, c, env, code);
    forall i | 0 <= i < |phis|
      ensures OperandVal(done, c, sels[i]) == Val(ArmEnv(w, env, if c.n != 0 then t else f),
        if c.n != 0 then phis[i].0 else phis[i].1)
    {
      SidesAtEnd(w, c, env, t, f, z, phis[i].0, phis[i].1);
      JoinRuns(done, c, phis[i].0, Renamed(o.r, phis[i].1));
    }
  }

  lemma DiamondParts(t: seq<ArmInst>, f: seq<ArmInst>, phis: seq<(Value, Value)>)
    requires DiamondSsa(t, f, phis)
    ensures forall i :: 0 <= i < |phis| ==> Avoids(phis[i].0, ArmDefs(f)) && Avoids(phis[i].1, ArmDefs(t))
    ensures SingleAssignment(t) && SingleAssignment(f) && ArmDefs(t) !! ArmDefs(f)
    ensures ArmAvoids(t, ArmDefs(f)) && ArmAvoids(f, ArmDefs(t)) && DiamondSsa(t, f, [])
  {
    hide SingleAssignment, ArmAvoids, ArmDefs, Avoids;
  }

  lemma JoinRuns(env: Env, c: Word, vt: Value, vf: Value)
    requires c.Num?
    ensures OperandVal(env, c, JoinOperand(vt, vf)) == Val(env, if c.n != 0 then vt else vf)
  {
  }

  lemma KeptVars(r: Renaming, vars: set<nat>, env: Env, a: Env, b: Env)
    requires Tracks(r, a, b) && r.Keys <= vars && AgreeOff(vars, env, a)
    ensures AgreeOff(vars, env, b)
  {
    forall x | x !in vars ensures Val(env, Var(x)) == Val(b, Var(x)) {
      RenamedValue(r, a, b, Var(x));
    }
  }

  // the merged copy writes what the taken arm's copy wrote, and reads what it read, unless an operand was erased
  lemma TailRuns(w: World, c: Word, env: Env, t: seq<ArmInst>, f: seq<ArmInst>, z: Word, tc: Option<ArmInst>,
      fc: Option<ArmInst>, tail: seq<Stmt>)
    requires c.Num? && Diamond(t, f) && DiamondSsa(t, f, []) && FindsCopy(t, tc) && FindsCopy(f, fc)
    requires tail == if tc.Some? && fc.Some? then [MergedCopy(tc.value, fc.value)] else []
    ensures var o, e := Collapsed(t, Hoisted(f, false, Lit(z), {}), map[]),
      CodeEnv(w, c, env, Hoisted(t, true, Lit(z), {}));
      var done := CodeEnv(w, c, e, o.out);
      && CodeEnv(w, c, done, tail) == done && CodeLoads(w, c, done, tail) == []
      && (c.n != 0 || CopySurvives(t, f) ==>
        CodeCopies(w, c, done, tail) == ArmCopies(w, env, if c.n != 0 then t else f))
  {
    var o, e := Collapsed(t, Hoisted(f, false, Lit(z), {}), map[]), CodeEnv(w, c, env, Hoisted(t, true, Lit(z), {}));
    var done := CodeEnv(w, c, e, o.out);
    RepeatedIsCollapsed(t, f, Lit(z), map[]);
    hide Collapsed, Hoisted, ArmEnv, SingleAssignment, ArmDefs, ArmCopies, MergedCopy, CopyOf, CopiesMatch, Admissible,
        Repeated, InstCopies;
    CopyAtEnd(w, env, t, tc);
    CopyAtEnd(w, env, f, fc);
    if tc.Some? {
      assert fc.Some? && CopiesMatch(tc.value, fc.value);
      assert InstAvoids(tc.value, ArmDefs(f)) && InstAvoids(fc.value, ArmDefs(t));
      assert tail[1..] == [];
      hide Analyzable, ArmAvoids, CopyCount, Diamond;
      assert MergedCopy(tc.value, fc.value).CopyPick? by { MergedIsCopy(tc.value, fc.value); }
      SidesAtEnd(w, c, env, t, f, z, tc.value.to, fc.value.to);
      SidesAtEnd(w, c, env, t, f, z, tc.value.from, fc.value.from);
      if c.n != 0 || CopySurvives(t, f) {
        MergedRuns(w, c, done, tc.value, fc.value, ArmEnv(w, env, if c.n != 0 then t else f));
      }
    }
  }

  lemma MergedIsCopy(t: ArmInst, f: ArmInst)
    requires t.Copy? && f.Copy?
    ensures MergedCopy(t, f).CopyPick?
  {
  }

  // a source that is not read does not matter
  lemma MergedRuns(w: World, c: Word, done: Env, t: ArmInst, f: ArmInst, end: Env)
    requires c.Num? && CopiesMatch(t, f)
    requires var i := if c.n != 0 then t else f;
      Val(done, i.to) == Val(end, i.to) && (i.size == i.bytes ==> Val(done, i.from) == Val(end, i.from))
    ensures StmtCopies(w, c, done, MergedCopy(t, f)) == InstCopies(w, end, if c.n != 0 then t else f)
  {
  }

  // ---- an operand that was erased

  // a machine that computes, loads and multiplies nothing but zero
  const IDLE := World((n: nat, vs: seq<Word>) => Num(0), (n: nat, vs: seq<Word>) => false,
    (i: nat, vs: seq<Word>) => Num(0), (v: Word) => Num(0), (v: Word, i: nat) => Num(0))

  lemma {:induction false} IdleDefs(env: Env, insts: seq<ArmInst>, x: nat)
    ensures if x in ArmDefs(insts) then Val(ArmEnv(IDLE, env, insts), Var(x)) == Num(0)
      else Val(ArmEnv(IDLE, env, insts), Var(x)) == Val(env, Var(x))
    decreases |insts|
  {
    if insts != [] { IdleDefs(InstEnv(IDLE, env, insts[0]), insts[1..], x); }
  }

  lemma {:induction false} CodeKeeps(w: World, c: Word, env: Env, code: seq<Stmt>, x: nat)
    ensures x !in CodeDefs(code) ==> Val(CodeEnv(w, c, env, code), Var(x)) == Val(env, Var(x))
    decreases |code|
  {
    if code != [] {
      StmtKeeps(w, c, env, code[0], x);
      CodeKeeps(w, c, StmtEnv(w, c, env, code[0]), code[1..], x);
    }
  }

  // what was erased is defined nowhere in the code
  lemma {:induction false} ErasedUndefined(keep: seq<ArmInst>, code: seq<Stmt>, r: Renaming)
    requires SingleCode(code) && r.Keys !! CodeDefs(code)
    ensures var o := Collapsed(keep, code, r);
      o.r.Keys !! CodeDefs(o.out) && CodeDefs(o.out) <= CodeDefs(code) && o.r.Keys <= r.Keys + CodeDefs(code)
    decreases |code|
  {
    if code != [] {
      var st := RenamedStmt(r, code[0]);
      assert StmtDefs(st) == StmtDefs(code[0]);
      var j := Repeats(keep, st);
      hide RenamedStmt, Repeats;
      if j < |keep| {
        ErasedUndefined(keep, code[1..], r[st.inst.dst := keep[j].dst]);
      } else {
        ErasedUndefined(keep, code[1..], r);
        var rest := Collapsed(keep, code[1..], r);
        assert ([st] + rest.out)[1..] == rest.out;
      }
    }
  }

  // an erased operand reads as nothing, where the arm had computed it
  lemma ErasedReads(t: seq<ArmInst>, f: seq<ArmInst>, z: Word, v: Value)
    requires DiamondSsa(t, f, []) && Erased(t, f, v)
    ensures var o, e := Collapsed(t, Hoisted(f, false, Lit(z), {}), map[]),
      CodeEnv(IDLE, Num(0), map[], Hoisted(t, true, Lit(z), {}));
      Val(CodeEnv(IDLE, Num(0), e, o.out), v) == Poison
    ensures Val(ArmEnv(IDLE, map[], f), v) == Num(0)
  {
    DiamondParts(t, f, []);
    hide DiamondSsa, SingleAssignment, ArmAvoids;
    var ct, cf := Hoisted(t, true, Lit(z), {}), Hoisted(f, false, Lit(z), {});
    RepeatedIsCollapsed(t, f, Lit(z), map[]);
    HoistedDefs(t, true, Lit(z), {});
    HoistedDefs(f, false, Lit(z), {});
    ErasedUndefined(t, cf, map[]);
    hide Collapsed, Hoisted, Repeated, CodeDefs, SingleCode, ArmDefs, CodeEnv, ArmEnv;
    CodeKeeps(IDLE, Num(0), map[], ct, v.x);
    CodeKeeps(IDLE, Num(0), CodeEnv(IDLE, Num(0), map[], ct), Collapsed(t, cf, map[]).out, v.x);
    IdleDefs(map[], f, v.x);
  }

  // so the copy of the second arm is lost
  lemma CopyLost(t: seq<ArmInst>, f: seq<ArmInst>, z: Word, tc: Option<ArmInst>, fc: Option<ArmInst>, code: seq<Stmt>)
    requires Diamond(t, f) && DiamondSsa(t, f, []) && DiamondCode(t, f, z, tc, fc, code) && !CopySurvives(t, f)
    ensures !CopyPreserved(IDLE, Num(0), map[], t, f, code)
  {
    var i := ErasedCopy(t, f, fc);
    var e := CodeEnv(IDLE, Num(0), map[], Hoisted(t, true, Lit(z), {}));
    var done := CodeEnv(IDLE, Num(0), e, Collapsed(t, Hoisted(f, false, Lit(z), {}), map[]).out);
    if Erased(t, f, i.to) { ErasedReads(t, f, z, i.to); }
    if Erased(t, f, i.from) { ErasedReads(t, f, z, i.from); }
    LastCopy(t, f, z, tc, fc, code);
    CopyAtEnd(IDLE, map[], f, fc) by { DiamondParts(t, f, []); }
    assert CopiesMatch(tc.value, i);
    CopyPreservedIs(IDLE, Num(0), map[], t, f, code);
    hide *;
    MergedDiffers(done, ArmEnv(IDLE, map[], f), tc.value, i);
  }

  // the merged copy is the only one of the code, and comes last
  lemma LastCopy(t: seq<ArmInst>, f: seq<ArmInst>, z: Word, tc: Option<ArmInst>, fc: Option<ArmInst>, code: seq<Stmt>)
    requires Diamond(t, f) && DiamondSsa(t, f, []) && DiamondCode(t, f, z, tc, fc, code) && fc.Some?
    ensures var e := CodeEnv(IDLE, Num(0), map[], Hoisted(t, true, Lit(z), {}));
      var done := CodeEnv(IDLE, Num(0), e, Collapsed(t, Hoisted(f, false, Lit(z), {}), map[]).out);
      tc.Some? && CodeCopies(IDLE, Num(0), map[], code) == StmtCopies(IDLE, Num(0), done,
        MergedCopy(tc.value, fc.value))
  {
    var ct, cf := Hoisted(t, true, Lit(z), {}), Hoisted(f, false, Lit(z), {});
    var o := Collapsed(t, cf, map[]);
    DiamondParts(t, f, []);
    PairedCopies(t, f, tc, fc);
    var st := MergedCopy(tc.value, fc.value);
    assert code == ct + o.out + [st];
    var done := CodeEnv(IDLE, Num(0), CodeEnv(IDLE, Num(0), map[], ct), o.out);
    OneCopy(done, st);
    hide *;
    BothHoisted(IDLE, Num(0), map[], t, f, z);
    CollapsedArm(IDLE, Num(0), map[], t, f, z);
    CodeAppend(IDLE, Num(0), map[], ct + o.out, [st]);
    CodeAppend(IDLE, Num(0), map[], ct, o.out);
    assert [] + [] + StmtCopies(IDLE, Num(0), done, st) == StmtCopies(IDLE, Num(0), done, st);
  }

  lemma OneCopy(env: Env, st: Stmt)
    ensures CodeCopies(IDLE, Num(0), env, [st]) == StmtCopies(IDLE, Num(0), env, st)
  {
    assert [st][1..] == [];
  }

  lemma ErasedCopy(t: seq<ArmInst>, f: seq<ArmInst>, fc: Option<ArmInst>) returns (i: ArmInst)
    requires CopyCount(f) <= 1 && FindsCopy(f, fc) && !CopySurvives(t, f)
    ensures fc == Some(i) && i.Copy? && (Erased(t, f, i.to) || (i.size == i.bytes && Erased(t, f, i.from)))
  {
    hide Erased;
    i :| i in f && i.Copy? && (Erased(t, f, i.to) || (i.size == i.bytes && Erased(t, f, i.from)));
    OtherCopy(f, i);
    UniqueCopy(f, i, fc.value);
  }

  lemma MergedDiffers(done: Env, end: Env, t: ArmInst, f: ArmInst)
    requires CopiesMatch(t, f)
    requires Val(done, f.to) != Val(end, f.to) || (f.size == f.bytes && Val(done, f.from) != Val(end, f.from))
    ensures StmtCopies(IDLE, Num(0), done, MergedCopy(t, f)) != InstCopies(IDLE, end, f)
  {
    var a, b := StmtCopies(IDLE, Num(0), done, MergedCopy(t, f))[0], InstCopies(IDLE, end, f)[0];
    assert a.to != b.to || a.read != b.read;
  }

  // both arms compute the shared address alike, and each copies to it: the usual case. Only the second arm's address is
  // erased, so with the guard off the copy goes nowhere instead of to the address
  lemma SharedAddressLost() returns (t: seq<ArmInst>, f: seq<ArmInst>)
    ensures Diamond(t, f) && DiamondSsa(t, f, []) && !CopySurvives(t, f)
  {
    t := [Pure(1, 0, [Var(0)], true), Copy(Var(1), Var(10), 16, 16)];
    f := [Pure(2, 0, [Var(0)], true), Copy(Var(2), Var(11), 16, 16)];
    var a, b := t[1..], f[1..];
    assert a == [t[1]] && b == [f[1]] && a[1..] == [] && b[1..] == [];
    assert ArmDefs(b) == {} && ArmDefs(f) == {2} && ArmDefs(a) == {} && ArmDefs(t) == {1};
    assert CopyCount(b) == 1 && CopyCount(a) == 1;
    assert RenamedArgs(map[], [Var(0)]) == [Var(0)];
    assert FirstIdentical(t, RenamedInst(map[], f[0])) == 0;
    assert Repeated(t, b, map[2 := 1]) == map[2 := 1];
    assert Repeated(t, f, map[]) == map[2 := 1];
    assert f[1] in f && Erased(t, f, f[1].to);
  }

  ghost predicate FindsCopy(insts: seq<ArmInst>, copy: Option<ArmInst>) {
    (copy == None <==> CopyCount(insts) == 0) && (copy.Some? ==> copy.value in insts && copy.value.Copy?)
  }

  lemma {:induction false} UniqueCopy(insts: seq<ArmInst>, i: ArmInst, j: ArmInst)
    requires CopyCount(insts) <= 1 && i in insts && j in insts && i.Copy? && j.Copy?
    ensures i == j
  {
    if insts[0].Copy? {
      if insts[0] != i { OtherCopy(insts[1..], i); }
      if insts[0] != j { OtherCopy(insts[1..], j); }
    } else {
      UniqueCopy(insts[1..], i, j);
    }
  }

  lemma PairedCopies(t: seq<ArmInst>, f: seq<ArmInst>, tc: Option<ArmInst>, fc: Option<ArmInst>)
    requires Analyzable(t) && Analyzable(f) && FindsCopy(t, tc) && FindsCopy(f, fc)
    ensures Diamond(t, f) <==> (tc.Some? <==> fc.Some?) && (tc.Some? && fc.Some? ==> CopiesMatch(tc.value, fc.value))
  {
    if (tc.Some? <==> fc.Some?) && (tc.Some? && fc.Some? ==> CopiesMatch(tc.value, fc.value)) {
      forall i, j | i in t && j in f && i.Copy? && j.Copy? ensures CopiesMatch(i, j) {
        OtherCopy(t, i);
        OtherCopy(f, j);
        UniqueCopy(t, i, tc.value);
        UniqueCopy(f, j, fc.value);
      }
    }
  }

  // if (cond) { t } else { f }: both arms in front, one merged copy, the join's phis selected
  method ConvertDiamond(t: seq<ArmInst>, f: seq<ArmInst>, phis: seq<(Value, Value)>, zero: Word)
    returns (ok: bool, code: seq<Stmt>, sels: seq<Operand>)
    requires DiamondSsa(t, f, phis)
    ensures ok <==> Diamond(t, f)
    ensures ok ==> |sels| == |phis| && forall w: World, c: Word, env: Env :: c.Num? ==>
      JoinPreserved(w, c, env, t, f, phis, zero, code, sels)
    ensures ok ==> forall w: World, c: Word, env: Env :: c.Num? && c.n != 0 ==> CopyPreserved(w, c, env, t, f, code)
    ensures ok ==>
      ((forall w: World, c: Word, env: Env :: c.Num? ==> CopyPreserved(w, c, env, t, f, code)) <==> CopySurvives(t, f))
  {
    hide Analyzable, DiamondSsa, Collapsed, Hoisted, CopyCount, CopiesMatch, MergedCopy, Diamond, JoinPreserved,
        CopyPreserved, CopySurvives, Renamed;
    code, sels := [], [];
    var tok, tc := AnalyzeArm(t);
    if !tok { NotDiamond(t, f); return false, code, sels; }
    var fok, fc := AnalyzeArm(f);
    if !fok { NotDiamond(t, f); return false, code, sels; }
    PairedCopies(t, f, tc, fc);
    if tc.Some? != fc.Some? { return false, code, sels; }
    if tc.Some? && !CopiesMatch(tc.value, fc.value) { return false, code, sels; }
    var ct := Hoist(t, true, Lit(zero));
    var cf := Hoist(f, false, Lit(zero));
    var rest, r := Cse(t, cf);
    code := ct + rest;
    if tc.Some? {
      code := code + [MergedCopy(tc.value, fc.value)];
    } else {
      assert code + [] == code;
    }
    for i := 0 to |phis|
      invariant |sels| == i && forall k :: 0 <= k < i ==> sels[k] == JoinOperand(phis[k].0, Renamed(r, phis[k].1))
    {
      var vf := Renamed(r, phis[i].1);
      sels := sels + [if phis[i].0 == vf then Plain(phis[i].0) else Pick(phis[i].0, vf)];
    }
    assert DiamondCode(t, f, zero, tc, fc, code);
    forall w: World, c: Word, env: Env | c.Num?
      ensures JoinPreserved(w, c, env, t, f, phis, zero, code, sels)
      ensures c.n != 0 || CopySurvives(t, f) ==> CopyPreserved(w, c, env, t, f, code)
    {
      DiamondCorrect(w, c, env, t, f, phis, zero, tc, fc, code, sels);
    }
    if !CopySurvives(t, f) {
      DiamondParts(t, f, phis);
      CopyLost(t, f, zero, tc, fc, code);
    }
    ok := true;
  }

  lemma NotDiamond(t: seq<ArmInst>, f: seq<ArmInst>)
    requires !Analyzable(t) || !Analyzable(f)
    ensures !Diamond(t, f)
  {
  }

  // ---- the triangle

  // an mma call whose results go only to join phis that take its own accumulators when the arm is skipped
  ghost predicate CallSettles(insts: seq<ArmInst>, phis: seq<(Value, Value)>, call: nat) {
    forall i :: i in insts && i.Mma? && i.call == call ==> PartSettles(insts, phis, i)
  }

  // each result reaches at most one join phi and no instruction
  ghost predicate PartSettles(insts: seq<ArmInst>, phis: seq<(Value, Value)>, i: ArmInst) {
    && i.Mma? && |i.args| == 10 && i.part < 4
    && ArmAvoids(insts, {i.dst})
    && (forall n :: 0 <= n < |phis| && phis[n].0 == Var(i.dst) ==> phis[n].1 == i.args[6 + i.part])
    && (forall n, m :: 0 <= n < m < |phis| ==> phis[n].0 != Var(i.dst) || phis[m].0 != Var(i.dst))
  }

  predicate Settled(insts: seq<ArmInst>, zeroed: set<nat>, v: Value) {
    exists i :: i in insts && i.Mma? && i.call in zeroed && v == Var(i.dst)
  }

  ghost predicate TriangleSsa(insts: seq<ArmInst>, phis: seq<(Value, Value)>) {
    SingleAssignment(insts) && forall n :: 0 <= n < |phis| ==> Avoids(phis[n].1, ArmDefs(insts))
  }

  // an arm without mma makes no demand on it
  ghost predicate MmaFits(w: World, insts: seq<ArmInst>) {
    ZeroKeeps(w) || forall i :: i in insts ==> !i.Mma?
  }

  ghost predicate TrianglePreserved(w: World, c: Word, env: Env, insts: seq<ArmInst>, taken: bool,
      phis: seq<(Value, Value)>, zero: Word, code: seq<Stmt>, sels: seq<Operand>)
    requires c.Num? && |sels| == |phis|
  {
    var done := CodeEnv(w, c, env, code);
    && (forall n :: 0 <= n < |phis| ==>
          OperandVal(done, c, sels[n]) == (if Chooses(c, taken) then Val(ArmEnv(w, env, insts), phis[n].0)
            else Val(env, phis[n].1)))
    && CodeLoads(w, c, env, code) == (if Chooses(c, taken) then ArmLoads(w, env, insts)
      else Zeros(LoadCount(insts), zero))
    && CodeCopies(w, c, env, code) == [] && ArmCopies(w, env, insts) == []
    && CodeEvents(w, c, env, code) == (if Chooses(c, taken) then ArmEvents(w, env, insts) else [])
    && AgreeOff(ArmDefs(insts), env, done)
  }

  // a skipped mma with zeroed registers returns its accumulator
  lemma {:induction false} SettledValue(w: World, c: Word, env: Env, insts: seq<ArmInst>, taken: bool, zero: Value,
      zeroed: set<nat>, i: ArmInst)
    requires ZeroKeeps(w) && Chooses(c, !taken) && SingleAssignment(insts)
    requires i in insts && i.Mma? && i.call in zeroed && |i.args| == 10 && i.part < 4
      && Avoids(i.args[6 + i.part], ArmDefs(insts))
    ensures Val(CodeEnv(w, c, env, Hoisted(insts, taken, zero, zeroed)), Var(i.dst)) == Val(env, i.args[6 + i.part])
    decreases |insts|
  {
    HoistedCons(insts, taken, zero, zeroed);
    var first, rest := HoistOne(insts[0], taken, zero, zeroed), Hoisted(insts[1..], taken, zero, zeroed);
    CodeAppend(w, c, env, first, rest);
    var e := CodeEnv(w, c, env, first);
    OneChanges(w, c, insts[0], taken, zero, zeroed, env);
    if insts[0] == i {
      ZeroedResult(w, c, env, i, taken, zero, zeroed);
      HoistChanges(w, c, insts[1..], taken, zero, zeroed, e);
    } else {
      SettledValue(w, c, e, insts[1..], taken, zero, zeroed, i);
    }
  }

  lemma ZeroedResult(w: World, c: Word, env: Env, i: ArmInst, taken: bool, zero: Value, zeroed: set<nat>)
    requires ZeroKeeps(w) && Chooses(c, !taken) && i.Mma? && i.call in zeroed && |i.args| == 10 && i.part < 4
    ensures Val(CodeEnv(w, c, env, HoistOne(i, taken, zero, zeroed)), Var(i.dst)) == Val(env, i.args[6 + i.part])
  {
    var args := ZeroedArgs(i.args, taken);
    var ops := seq(|args|, k requires 0 <= k < |args| => OperandVal(env, c, args[k]));
    assert HoistOne(i, taken, zero, zeroed) == [MmaPick(i.dst, i.part, args)];
    assert [MmaPick(i.dst, i.part, args)][1..] == [];
    assert ops == ZEROS + ops[6..];
  }

  // the users of one result, one after the other
  method PartMatches(insts: seq<ArmInst>, phis: seq<(Value, Value)>, i: ArmInst) returns (ok: bool)
    requires i.Mma?
    ensures ok <==> PartSettles(insts, phis, i)
  {
    hide InstAvoids;
    if |i.args| != 10 || i.part >= 4 { return false; }
    for k := 0 to |insts|
      invariant forall l :: 0 <= l < k ==> InstAvoids(insts[l], {i.dst})
    {
      if !InstAvoids(insts[k], {i.dst}) { return false; }
    }
    var seen := false;
    ghost var at := 0;
    for n := 0 to |phis|
      invariant forall m :: 0 <= m < n && phis[m].0 == Var(i.dst) ==> seen && m == at && phis[m].1 == i.args[6 + i.part]
      invariant seen ==> at < n && phis[at].0 == Var(i.dst)
    {
      if phis[n].0 == Var(i.dst) {
        if phis[n].1 != i.args[6 + i.part] || seen { return false; }
        seen, at := true, n;
      }
    }
    return true;
  }

  method CallMatches(insts: seq<ArmInst>, phis: seq<(Value, Value)>, call: nat) returns (ok: bool)
    ensures ok <==> CallSettles(insts, phis, call)
  {
    hide PartSettles;
    for k := 0 to |insts|
      invariant forall l :: 0 <= l < k && insts[l].Mma? && insts[l].call == call ==> PartSettles(insts, phis, insts[l])
    {
      if insts[k].Mma? && insts[k].call == call {
        var part := PartMatches(insts, phis, insts[k]);
        if !part { return false; }
      }
    }
    return true;
  }

  // the calls whose operands are zeroed
  method FindSettled(insts: seq<ArmInst>, phis: seq<(Value, Value)>) returns (zeroed: set<nat>)
    ensures forall i :: i in insts && i.Mma? ==> (i.call in zeroed <==> CallSettles(insts, phis, i.call))
  {
    hide CallSettles;
    zeroed := {};
    for k := 0 to |insts|
      invariant forall i :: i in insts[..k] && i.Mma? ==> (i.call in zeroed <==> CallSettles(insts, phis, i.call))
      invariant forall call :: call in zeroed ==> CallSettles(insts, phis, call)
    {
      assert insts[..k + 1] == insts[..k] + [insts[k]];
      if insts[k].Mma? {
        var settles := CallMatches(insts, phis, insts[k].call);
        if settles { zeroed := zeroed + {insts[k].call}; }
      }
    }
    assert insts[..|insts|] == insts;
  }

  function ZeroedStmt(st: Stmt, taken: bool, zeroed: set<nat>): Stmt {
    if st.Keep? && st.inst.Mma? && st.inst.call in zeroed
      then MmaPick(st.inst.dst, st.inst.part, ZeroedArgs(st.inst.args, taken)) else st
  }

  lemma {:induction false} ZeroedHoist(insts: seq<ArmInst>, taken: bool, zero: Value, zeroed: set<nat>)
    ensures var code := Hoisted(insts, taken, zero, {});
      Hoisted(insts, taken, zero, zeroed)
        == seq(|code|, k requires 0 <= k < |code| => ZeroedStmt(code[k], taken, zeroed))
    decreases |insts|
  {
    if insts != [] { ZeroedHoist(insts[..|insts| - 1], taken, zero, zeroed); }
  }

  // the operands of the settled calls, overwritten in place
  method ZeroOperands(insts: seq<ArmInst>, taken: bool, zero: Value, zeroed: set<nat>, code: seq<Stmt>)
      returns (out: seq<Stmt>)
    requires code == Hoisted(insts, taken, zero, {})
    ensures out == Hoisted(insts, taken, zero, zeroed)
  {
    ZeroedHoist(insts, taken, zero, zeroed);
    hide Hoisted;
    out := code;
    for k := 0 to |code|
      invariant |out| == |code|
      invariant forall i :: 0 <= i < k ==> out[i] == ZeroedStmt(code[i], taken, zeroed)
      invariant forall i :: k <= i < |code| ==> out[i] == code[i]
    {
      if code[k].Keep? && code[k].inst.Mma? && code[k].inst.call in zeroed {
        var i := code[k].inst;
        out := out[k := MmaPick(i.dst, i.part, ZeroedArgs(i.args, taken))];
      }
    }
  }

  function TriangleOperand(insts: seq<ArmInst>, taken: bool, zeroed: set<nat>, va: Value, vp: Value): Operand {
    if Settled(insts, zeroed, va) || va == vp then Plain(va) else if taken then Pick(va, vp) else Pick(vp, va)
  }

  lemma TriangleJoin(w: World, c: Word, env: Env, insts: seq<ArmInst>, taken: bool, phis: seq<(Value, Value)>, z: Word,
      zeroed: set<nat>, n: nat)
    requires c.Num? && TriangleSsa(insts, phis) && n < |phis| && MmaFits(w, insts)
    requires forall i :: i in insts && i.Mma? ==> (i.call in zeroed <==> CallSettles(insts, phis, i.call))
    ensures OperandVal(CodeEnv(w, c, env, Hoisted(insts, taken, Lit(z), zeroed)), c,
      TriangleOperand(insts, taken, zeroed, phis[n].0, phis[n].1))
      == if Chooses(c, taken) then Val(ArmEnv(w, env, insts), phis[n].0) else Val(env, phis[n].1)
  {
    hide CallSettles, TriangleSsa, Hoisted, ArmEnv, CodeEnv, ZeroKeeps, Settled, SingleAssignment, ArmDefs, InstValue,
        AgreeOff;
    var (va, vp) := phis[n];
    TriangleParts(insts, phis, n);
    HoistChanges(w, c, insts, taken, Lit(z), zeroed, env);
    ArmChanges(w, env, insts);
    if Chooses(c, taken) {
      HoistTaken(w, c, insts, taken, Lit(z), zeroed, {}, env, env) by { NoneAvoided(insts, env); }
      AvoidsKeeps({}, ArmEnv(w, env, insts), CodeEnv(w, c, env, Hoisted(insts, taken, Lit(z), zeroed)), va);
    } else if Settled(insts, zeroed, va) {
      var i := SettledPart(insts, phis, zeroed, n);
      SettledValue(w, c, env, insts, taken, Lit(z), zeroed, i);
    }
    AvoidsKeeps(ArmDefs(insts), env, CodeEnv(w, c, env, Hoisted(insts, taken, Lit(z), zeroed)), vp);
  }

  lemma TriangleParts(insts: seq<ArmInst>, phis: seq<(Value, Value)>, n: nat)
    requires TriangleSsa(insts, phis) && n < |phis|
    ensures Avoids(phis[n].1, ArmDefs(insts)) && SingleAssignment(insts)
  {
    hide SingleAssignment, ArmDefs, Avoids;
  }

  lemma AvoidsKeeps(vars: set<nat>, a: Env, b: Env, v: Value)
    requires AgreeOff(vars, a, b) && Avoids(v, vars)
    ensures Val(a, v) == Val(b, v)
  {
  }

  lemma NoneAvoided(insts: seq<ArmInst>, env: Env)
    ensures ArmAvoids(insts, {}) && AgreeOff({}, env, env)
  {
  }

  lemma SettledPart(insts: seq<ArmInst>, phis: seq<(Value, Value)>, zeroed: set<nat>, n: nat) returns (i: ArmInst)
    requires n < |phis| && Settled(insts, zeroed, phis[n].0)
    requires forall i :: i in insts && i.Mma? ==> (i.call in zeroed <==> CallSettles(insts, phis, i.call))
    ensures i in insts && i.Mma? && i.call in zeroed && |i.args| == 10 && i.part < 4
    ensures phis[n].0 == Var(i.dst) && phis[n].1 == i.args[6 + i.part]
  {
    i :| i in insts && i.Mma? && i.call in zeroed && phis[n].0 == Var(i.dst);
    assert CallSettles(insts, phis, i.call);
    assert PartSettles(insts, phis, i);
  }

  // a result of a settled call
  ghost predicate FromSettled(insts: seq<ArmInst>, phis: seq<(Value, Value)>, v: Value) {
    exists i :: i in insts && i.Mma? && v == Var(i.dst) && CallSettles(insts, phis, i.call)
  }

  // accumulator chains are not cut: a phi selects only if neither its entries are one value nor a settled call feeds it
  ghost predicate ChainsKept(insts: seq<ArmInst>, phis: seq<(Value, Value)>, sels: seq<Operand>) {
    |sels| == |phis| && forall n :: 0 <= n < |phis| ==>
      (sels[n] == Plain(phis[n].0) <==> phis[n].0 == phis[n].1 || FromSettled(insts, phis, phis[n].0))
  }

  lemma SettledExactly(insts: seq<ArmInst>, phis: seq<(Value, Value)>, zeroed: set<nat>, v: Value)
    requires forall i :: i in insts && i.Mma? ==> (i.call in zeroed <==> CallSettles(insts, phis, i.call))
    ensures Settled(insts, zeroed, v) <==> FromSettled(insts, phis, v)
  {
    hide CallSettles;
  }

  // one arm, the other edge straight to the join; an arm with a copy stays guarded
  method ConvertTriangle(insts: seq<ArmInst>, taken: bool, phis: seq<(Value, Value)>, zero: Word)
    returns (ok: bool, code: seq<Stmt>, sels: seq<Operand>)
    requires TriangleSsa(insts, phis)
    ensures ok <==> Analyzable(insts) && CopyCount(insts) == 0
    ensures ok ==> ChainsKept(insts, phis, sels)
    ensures ok ==> |sels| == |phis| && forall w: World, c: Word, env: Env :: c.Num? && MmaFits(w, insts) ==>
      TrianglePreserved(w, c, env, insts, taken, phis, zero, code, sels)
    ensures ok ==> forall o: LaneOps, tile: Tile, c: Word, env: Env :: c.Num? && ProperTile(tile) ==>
      TrianglePreserved(WarpWorld(o, tile), c, env, insts, taken, phis, zero, code, sels)
  {
    hide CallSettles, Hoisted, CopyCount, Analyzable, TriangleSsa, ZeroKeeps, Settled, TrianglePreserved, WarpWorld,
        ProperTile;
    code, sels := [], [];
    var analyzed, copy := AnalyzeArm(insts);
    if !analyzed || copy.Some? { return false, code, sels; }
    assert AllHarmless(insts) by { ArmHarmless(insts); }
    code := Hoist(insts, taken, Lit(zero));
    var zeroed := FindSettled(insts, phis);
    code := ZeroOperands(insts, taken, Lit(zero), zeroed, code);
    for n := 0 to |phis|
      invariant |sels| == n
      invariant forall k :: 0 <= k < n ==> sels[k] == TriangleOperand(insts, taken, zeroed, phis[k].0, phis[k].1)
    {
      var (va, vp) := phis[n];
      if Settled(insts, zeroed, va) {
        sels := sels + [Plain(va)];
      } else {
        sels := sels + [if va == vp then Plain(va) else if taken then Pick(va, vp) else Pick(vp, va)];
      }
    }
    Chains(insts, taken, phis, zeroed, sels);
    forall w: World, c: Word, env: Env | c.Num? && MmaFits(w, insts)
      ensures TrianglePreserved(w, c, env, insts, taken, phis, zero, code, sels)
    {
      TriangleCorrect(w, c, env, insts, taken, phis, zero, zeroed, sels);
    }
    forall o: LaneOps, tile: Tile, c: Word, env: Env | c.Num? && ProperTile(tile)
      ensures TrianglePreserved(WarpWorld(o, tile), c, env, insts, taken, phis, zero, code, sels)
    {
      WarpZeroKeeps(o, tile);
      TriangleCorrect(WarpWorld(o, tile), c, env, insts, taken, phis, zero, zeroed, sels);
    }
    ok := true;
  }

  lemma Chains(insts: seq<ArmInst>, taken: bool, phis: seq<(Value, Value)>, zeroed: set<nat>, sels: seq<Operand>)
    requires forall i :: i in insts && i.Mma? ==> (i.call in zeroed <==> CallSettles(insts, phis, i.call))
    requires |sels| == |phis|
    requires forall n :: 0 <= n < |phis| ==> sels[n] == TriangleOperand(insts, taken, zeroed, phis[n].0, phis[n].1)
    ensures ChainsKept(insts, phis, sels)
  {
    hide CallSettles, Settled, FromSettled;
    forall n | 0 <= n < |phis|
      ensures sels[n] == Plain(phis[n].0) <==> phis[n].0 == phis[n].1 || FromSettled(insts, phis, phis[n].0)
    {
      SettledExactly(insts, phis, zeroed, phis[n].0);
    }
  }

  lemma ArmHarmless(insts: seq<ArmInst>)
    requires Analyzable(insts)
    ensures AllHarmless(insts)
  {
    hide Harmless;
  }

  lemma TriangleCorrect(w: World, c: Word, env: Env, insts: seq<ArmInst>, taken: bool, phis: seq<(Value, Value)>,
      z: Word, zeroed: set<nat>, sels: seq<Operand>)
    requires c.Num? && TriangleSsa(insts, phis) && MmaFits(w, insts) && CopyCount(insts) == 0 && |sels| == |phis|
    requires AllHarmless(insts)
    requires forall i :: i in insts && i.Mma? ==> (i.call in zeroed <==> CallSettles(insts, phis, i.call))
    requires forall n :: 0 <= n < |phis| ==> sels[n] == TriangleOperand(insts, taken, zeroed, phis[n].0, phis[n].1)
    ensures TrianglePreserved(w, c, env, insts, taken, phis, z, Hoisted(insts, taken, Lit(z), zeroed), sels)
  {
    hide TriangleOperand, CallSettles, Hoisted, MmaFits, OperandVal, CodeEnv, CodeLoads, CodeCopies, ArmEnv, ArmLoads,
        ArmCopies, ArmDefs, Val, Zeros, LoadCount, SingleAssignment, Avoids, CodeEvents, ArmEvents, AllHarmless;
    HoistedQuiet(insts, taken, Lit(z), zeroed);
    QuietCode(w, c, env, Hoisted(insts, taken, Lit(z), zeroed));
    QuietArm(w, env, insts);
    CopyAtEnd(w, env, insts, None);
    HoistChanges(w, c, insts, taken, Lit(z), zeroed, env);
    if Chooses(c, taken) {
      HoistTaken(w, c, insts, taken, Lit(z), zeroed, {}, env, env) by { NoneAvoided(insts, env); }
    } else {
      HoistSkipped(w, c, insts, taken, z, zeroed, env);
    }
    forall n | 0 <= n < |phis|
      ensures OperandVal(CodeEnv(w, c, env, Hoisted(insts, taken, Lit(z), zeroed)), c, sels[n])
        == if Chooses(c, taken) then Val(ArmEnv(w, env, insts), phis[n].0) else Val(env, phis[n].1)
    {
      TriangleJoin(w, c, env, insts, taken, phis, z, zeroed, n);
    }
  }
}
