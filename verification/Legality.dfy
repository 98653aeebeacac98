// The legality check of a schedule: ten laws, each stage breaking a law recorded against it.
module Legality {
  import opened RecurrenceExpr
  import opened Schedule
  import opened ScheduleSource

  // everything but a loop of one worker, and the replicas, which all do the same
  predicate Parallel(b: Bind)
    ensures Parallel(b) <==> !b.Unroll? && !b.Time? && !b.Replicate?
  {
    b.Lane? || b.Simdgroup? || b.BlockX? || b.BlockY? || b.BlockZ? || b.Launch? || b.Device?
  }

  // without a data loop nothing is granted
  predicate Granted(P: Program, right: Right) {
    (exists i :: 0 <= i < |P.loops| && P.loops[i].anyData) && Grants(P.loops, right)
  }

  method Permits(P: Program) returns (p: Permissions)
    ensures forall right :: Gives(p, right) <==> Granted(P, right)
  {
    p := ALL;
    var any := false;
    for i := 0 to |P.loops|
      invariant any <==> exists k :: 0 <= k < i && P.loops[k].anyData
      invariant !any ==> p == ALL
      invariant forall right :: Gives(p, right) <==> Grants(P.loops[..i], right)
    {
      MeetStep(P.loops, i, p);
      ghost var met := Meet(p, P.loops[i]);
      if P.loops[i].anyData {
        p := if !any then P.loops[i].permits else Both(p, P.loops[i].permits);
        any := true;
      }
      assert p == met;
    }
    assert P.loops[..|P.loops|] == P.loops;
    if !any { p := Permissions(false, false, false, false); }
  }

  predicate IsContraction(P: Program) {
    HasAlgebra(P, Sum) || HasAlgebra(P, TensorSum)
  }

  predicate AtomicAlgebra(P: Program) {
    HasAlgebra(P, Sum) || HasAlgebra(P, BitAnd) || HasAlgebra(P, BitOr) || HasAlgebra(P, BitXor)
  }

  predicate Reduces(P: Program, f: Factor) {
    f.coord < |P.coordOutput| && !P.coordOutput[f.coord]
  }

  // ---- the laws, for one stage

  predicate Owned(st: Stage, j: nat) {
    exists k :: 0 <= k < |st.factors| && st.factors[k].coord == j && !st.factors[k].bind.Replicate?
  }

  // 1: every coordinate has an owner that is not a replica
  predicate Coverage(P: Program, st: Stage) {
    forall j :: 0 <= j < |P.coordNames| ==> Owned(st, j)
  }

  predicate DuplicationOk(f: Factor, p: Permissions) {
    f.bind.Replicate? ==> p.duplicate
  }

  // 2: replicas need an algebra that may repeat
  predicate Duplication(st: Stage, p: Permissions) {
    forall k :: 0 <= k < |st.factors| ==> DuplicationOk(st.factors[k], p)
  }

  predicate CombineOk(P: Program, st: Stage, f: Factor, p: Permissions) {
    Reduces(P, f) && Parallel(f.bind) ==>
      p.partition && !st.exchange.NoExchange? && (st.exchange.Atomic? ==> AtomicAlgebra(P))
  }

  // 3: a reduction split over parallel workers is allowed and has its partial results exchanged
  predicate PartialCombine(P: Program, st: Stage, p: Permissions) {
    forall k :: 0 <= k < |st.factors| ==> CombineOk(P, st, st.factors[k], p)
  }

  // a reduction coordinate shared out to parallel workers who meet by atomics: partition granted, and an algebra that
  // has an atomic; any other factor is free
  lemma AtomicSplit(P: Program, st: Stage, f: Factor, p: Permissions)
    requires st.exchange.Atomic?
    ensures f.coord < |P.coordOutput| && !P.coordOutput[f.coord] && f.bind !in {Unroll, Time, Replicate} ==>
      (CombineOk(P, st, f, p) <==>
        p.partition && exists i, a ::
          0 <= i < |P.loops| && a in P.loops[i].algebra && a in {Sum, BitAnd, BitOr, BitXor})
    ensures f.coord >= |P.coordOutput| || P.coordOutput[f.coord] || f.bind in {Unroll, Time, Replicate} ==>
      CombineOk(P, st, f, p)
  {
  }

  predicate FusionOk(S: Sched, st: Stage, o: nat) {
    o < |S.stages|
      && (st.order == [] || S.stages[o].order == [] || exists k ::
        0 <= k < |st.order| && st.order[k] in S.stages[o].order)
  }

  // 4: a fused stage exists and shares a time factor
  predicate DependencyOrder(S: Sched, st: Stage) {
    forall k :: 0 <= k < |st.fusedWith| ==> FusionOk(S, st, st.fusedWith[k])
  }

  predicate HasReplica(st: Stage) {
    exists k :: 0 <= k < |st.factors| && st.factors[k].bind.Replicate?
  }

  // 5: a replicated stage has no observable effect
  predicate EffectOrder(P: Program, st: Stage) {
    HasReplica(st) ==> forall a :: 0 <= a < |P.accesses| ==> !P.accesses[a].store && !P.accesses[a].atomic
  }

  // 6: guards are realized
  predicate Guarded(P: Program, st: Stage) {
    P.guards > 0 ==> !st.predicate_.NoPredicate?
  }

  predicate UnrollsReduction(P: Program, st: Stage) {
    exists k :: 0 <= k < |st.factors| && Reduces(P, st.factors[k]) && st.factors[k].bind.Unroll?
  }

  // 7: tensor operations contract, and a reordered reduction may be reordered
  predicate NumericalClass(P: Program, st: Stage, p: Permissions) {
    (st.engine.TensorOp? ==> IsContraction(P)) && (UnrollsReduction(P, st) ==> p.reorder)
  }

  // a stage without unrolled reductions may use the tensor engine exactly when some loop sums, in a scalar or in
  // tensors
  lemma TensorNeedsSum(P: Program, st: Stage, p: Permissions)
    requires !UnrollsReduction(P, st)
    ensures st.engine.TensorOp? ==> (NumericalClass(P, st, p) <==>
      exists i :: 0 <= i < |P.loops| && (Sum in P.loops[i].algebra || TensorSum in P.loops[i].algebra))
    ensures !st.engine.TensorOp? ==> NumericalClass(P, st, p)
  {
    hide UnrollsReduction;
  }

  // 8: threadgroup memory and threads fit
  predicate Resources(st: Stage) {
    st.smemBytes <= 32768 && st.threadScale <= 32
  }

  predicate StageLaw(P: Program, S: Sched, p: Permissions, n: nat, st: Stage) {
    match n
    case 1 => Coverage(P, st)
    case 2 => Duplication(st, p)
    case 3 => PartialCombine(P, st, p)
    case 4 => DependencyOrder(S, st)
    case 5 => EffectOrder(P, st)
    case 6 => Guarded(P, st)
    case 7 => NumericalClass(P, st, p)
    case 8 => Resources(st)
    case _ => true
  }

  // ---- the laws of the whole program

  predicate InheritsClass(P: Program) {
    P.numClass == "" || P.numClass == "inherit" || P.numClass == "explicit-budget"
  }

  predicate GlobalLaw(P: Program, n: nat) {
    match n
    case 10 => P.unfitted == 0
    case 13 => InheritsClass(P)
    case _ => true
  }

  predicate IsLaw(n: nat) {
    1 <= n <= 10 || n == 13
  }

  predicate Law(P: Program, S: Sched, p: Permissions, n: nat) {
    GlobalLaw(P, n) && forall si :: 0 <= si < |S.stages| ==> StageLaw(P, S, p, n, S.stages[si])
  }

  ghost predicate AllLaws(P: Program, S: Sched, p: Permissions) {
    forall n: nat :: IsLaw(n) ==> Law(P, S, p, n)
  }

  // what the program grants, as the permissions record
  function Permitted(P: Program): Permissions {
    Permissions(Granted(P, Partition), Granted(P, Reorder), Granted(P, Duplicate), Granted(P, TreeCombine))
  }

  ghost predicate Legal(P: Program, S: Sched) {
    WellFormed(P, S) && AllLaws(P, S, Permitted(P))
  }

  // ---- the check

  // stage: the stage that breaks the law, none for a law of the whole program
  datatype Failure = Failure(n: nat, stage: int)

  const NO_STAGE := -1

  // the entries for one law: some entry for a stage exactly when it breaks the law
  ghost predicate Reports(P: Program, S: Sched, p: Permissions, n: nat, upto: nat, fs: seq<Failure>)
    requires upto <= |S.stages|
  {
    && (forall i :: 0 <= i < |fs| ==> fs[i].n == n && 0 <= fs[i].stage < upto)
    && (forall si :: 0 <= si < upto ==> (Failure(n, si) in fs <==> !StageLaw(P, S, p, n, S.stages[si])))
  }

  // a stage's entries added to those of the stages before it
  lemma ReportsStep(P: Program, S: Sched, p: Permissions, n: nat, si: nat, fs: seq<Failure>, more: seq<Failure>)
    requires si < |S.stages| && Reports(P, S, p, n, si, fs)
    requires forall i :: 0 <= i < |more| ==> more[i] == Failure(n, si)
    requires more == [] <==> StageLaw(P, S, p, n, S.stages[si])
    ensures Reports(P, S, p, n, si + 1, fs + more)
  {
    hide StageLaw;
    var all := fs + more;
    forall k | 0 <= k < si + 1 ensures Failure(n, k) in all <==> !StageLaw(P, S, p, n, S.stages[k]) {
      if k == si && more != [] { assert all[|fs|] == Failure(n, si); }
    }
  }

  // how many of the first n do not hold
  ghost function CountFailing(n: nat, holds: nat -> bool): nat {
    if n == 0 then 0 else CountFailing(n - 1, holds) + if holds(n - 1) then 0 else 1
  }

  ghost function OwnedAt(st: Stage): nat -> bool {
    (j: nat) => Owned(st, j)
  }

  ghost function DuplicationAt(st: Stage, p: Permissions): nat -> bool {
    (k: nat) => k < |st.factors| ==> DuplicationOk(st.factors[k], p)
  }

  ghost function CombineAt(P: Program, st: Stage, p: Permissions): nat -> bool {
    (k: nat) => k < |st.factors| ==> CombineOk(P, st, st.factors[k], p)
  }

  ghost function FusionAt(S: Sched, st: Stage): nat -> bool {
    (k: nat) => k < |st.fusedWith| ==> FusionOk(S, st, st.fusedWith[k])
  }

  method CheckCoverage(P: Program, st: Stage, si: nat) returns (fs: seq<Failure>)
    ensures forall i :: 0 <= i < |fs| ==> fs[i] == Failure(1, si)
    ensures fs == [] <==> Coverage(P, st)
    ensures |fs| == CountFailing(|P.coordNames|, OwnedAt(st))
  {
    fs := [];
    for j := 0 to |P.coordNames|
      invariant forall i :: 0 <= i < |fs| ==> fs[i] == Failure(1, si)
      invariant fs == [] <==> forall k :: 0 <= k < j ==> Owned(st, k)
      invariant |fs| == CountFailing(j, OwnedAt(st))
    {
      var owned := false;
      for k := 0 to |st.factors|
        invariant owned <==> exists m :: 0 <= m < k && st.factors[m].coord == j && !st.factors[m].bind.Replicate?
      {
        if st.factors[k].coord == j && !st.factors[k].bind.Replicate? { owned := true; }
      }
      assert owned <==> Owned(st, j);
      if !owned { fs := fs + [Failure(1, si)]; }
    }
  }

  method CheckDuplication(st: Stage, si: nat, p: Permissions) returns (fs: seq<Failure>)
    ensures forall i :: 0 <= i < |fs| ==> fs[i] == Failure(2, si)
    ensures fs == [] <==> Duplication(st, p)
    ensures |fs| == CountFailing(|st.factors|, DuplicationAt(st, p))
  {
    fs := [];
    for k := 0 to |st.factors|
      invariant forall i :: 0 <= i < |fs| ==> fs[i] == Failure(2, si)
      invariant fs == [] <==> forall m :: 0 <= m < k ==> DuplicationOk(st.factors[m], p)
      invariant |fs| == CountFailing(k, DuplicationAt(st, p))
    {
      if st.factors[k].bind.Replicate? && !p.duplicate { fs := fs + [Failure(2, si)]; }
    }
  }

  method CheckPartialCombine(P: Program, st: Stage, si: nat, p: Permissions) returns (fs: seq<Failure>)
    ensures forall i :: 0 <= i < |fs| ==> fs[i] == Failure(3, si)
    ensures fs == [] <==> PartialCombine(P, st, p)
    ensures |fs| == CountFailing(|st.factors|, CombineAt(P, st, p))
  {
    fs := [];
    for k := 0 to |st.factors|
      invariant forall i :: 0 <= i < |fs| ==> fs[i] == Failure(3, si)
      invariant fs == [] <==> forall m :: 0 <= m < k ==> CombineOk(P, st, st.factors[m], p)
      invariant |fs| == CountFailing(k, CombineAt(P, st, p))
    {
      var f := st.factors[k];
      if Reduces(P, f) && Parallel(f.bind) {
        if !p.partition {
          fs := fs + [Failure(3, si)];
        } else if st.exchange.NoExchange? {
          fs := fs + [Failure(3, si)];
        } else if st.exchange.Atomic? && !HasAlgebra(P, Sum) && !HasAlgebra(P, BitAnd) && !HasAlgebra(P, BitOr)
          && !HasAlgebra(P, BitXor) {
          fs := fs + [Failure(3, si)];
        }
      }
    }
  }

  method CheckDependencyOrder(S: Sched, st: Stage, si: nat) returns (fs: seq<Failure>)
    ensures forall i :: 0 <= i < |fs| ==> fs[i] == Failure(4, si)
    ensures fs == [] <==> DependencyOrder(S, st)
    ensures |fs| == CountFailing(|st.fusedWith|, FusionAt(S, st))
  {
    fs := [];
    for k := 0 to |st.fusedWith|
      invariant forall i :: 0 <= i < |fs| ==> fs[i] == Failure(4, si)
      invariant fs == [] <==> forall m :: 0 <= m < k ==> FusionOk(S, st, st.fusedWith[m])
      invariant |fs| == CountFailing(k, FusionAt(S, st))
    {
      var o := st.fusedWith[k];
      if o >= |S.stages| {
        fs := fs + [Failure(4, si)];
      } else {
        var other := S.stages[o];
        var share := false;
        for i := 0 to |st.order|
          invariant share <==> exists m :: 0 <= m < i && st.order[m] in other.order
        {
          if st.order[i] in other.order { share := true; }
        }
        if !share && st.order != [] && other.order != [] { fs := fs + [Failure(4, si)]; }
      }
    }
  }

  method CheckEffectOrder(P: Program, st: Stage, si: nat) returns (fs: seq<Failure>)
    ensures forall i :: 0 <= i < |fs| ==> fs[i] == Failure(5, si)
    ensures fs == [] <==> EffectOrder(P, st)
  {
    fs := [];
    var repl := false;
    for k := 0 to |st.factors|
      invariant repl <==> exists m :: 0 <= m < k && st.factors[m].bind.Replicate?
    {
      if st.factors[k].bind.Replicate? { repl := true; }
    }
    if !repl { return; }
    for a := 0 to |P.accesses|
      invariant forall i :: 0 <= i < |fs| ==> fs[i] == Failure(5, si)
      invariant fs == [] <==> forall m :: 0 <= m < a ==> !P.accesses[m].store && !P.accesses[m].atomic
    {
      if P.accesses[a].store || P.accesses[a].atomic { fs := fs + [Failure(5, si)]; }
    }
  }

  method CheckGuarded(P: Program, st: Stage, si: nat) returns (fs: seq<Failure>)
    ensures forall i :: 0 <= i < |fs| ==> fs[i] == Failure(6, si)
    ensures fs == [] <==> Guarded(P, st)
  {
    fs := if P.guards > 0 && st.predicate_.NoPredicate? then [Failure(6, si)] else [];
  }

  method CheckNumericalClass(P: Program, st: Stage, si: nat, p: Permissions) returns (fs: seq<Failure>)
    ensures forall i :: 0 <= i < |fs| ==> fs[i] == Failure(7, si)
    ensures fs == [] <==> NumericalClass(P, st, p)
  {
    fs := if st.engine.TensorOp? && !IsContraction(P) then [Failure(7, si)] else [];
    var reorders := false;
    for k := 0 to |st.factors|
      invariant reorders <==> exists m :: 0 <= m < k && Reduces(P, st.factors[m]) && st.factors[m].bind.Unroll?
    {
      if Reduces(P, st.factors[k]) && st.factors[k].bind.Unroll? { reorders := true; }
    }
    if reorders && !p.reorder { fs := fs + [Failure(7, si)]; }
  }

  method CheckResources(st: Stage, si: nat) returns (fs: seq<Failure>)
    ensures forall i :: 0 <= i < |fs| ==> fs[i] == Failure(8, si)
    ensures fs == [] <==> Resources(st)
  {
    fs := if st.smemBytes > 32768 then [Failure(8, si)] else [];
    if st.threadScale > 32 { fs := fs + [Failure(8, si)]; }
  }

  method CheckStage(P: Program, S: Sched, p: Permissions, n: nat, si: nat) returns (fs: seq<Failure>)
    requires 1 <= n <= 8 && si < |S.stages|
    ensures forall i :: 0 <= i < |fs| ==> fs[i] == Failure(n, si)
    ensures fs == [] <==> StageLaw(P, S, p, n, S.stages[si])
  {
    hide Coverage, Duplication, PartialCombine, DependencyOrder, EffectOrder, Guarded, NumericalClass, Resources;
    var st := S.stages[si];
    match n
    case 1 => fs := CheckCoverage(P, st, si);
    case 2 => fs := CheckDuplication(st, si, p);
    case 3 => fs := CheckPartialCombine(P, st, si, p);
    case 4 => fs := CheckDependencyOrder(S, st, si);
    case 5 => fs := CheckEffectOrder(P, st, si);
    case 6 => fs := CheckGuarded(P, st, si);
    case 7 => fs := CheckNumericalClass(P, st, si, p);
    case 8 => fs := CheckResources(st, si);
  }

  // one law over every stage
  method CheckLaw(P: Program, S: Sched, p: Permissions, n: nat) returns (fs: seq<Failure>)
    requires 1 <= n <= 8
    ensures Reports(P, S, p, n, |S.stages|, fs)
  {
    hide StageLaw, Reports;
    fs := [];
    NothingReported(P, S, p, n);
    for si := 0 to |S.stages|
      invariant Reports(P, S, p, n, si, fs)
    {
      var more := CheckStage(P, S, p, n, si);
      ReportsStep(P, S, p, n, si, fs, more);
      fs := fs + more;
    }
  }

  lemma NothingReported(P: Program, S: Sched, p: Permissions, n: nat)
    ensures Reports(P, S, p, n, 0, [])
  {
  }

  // ---- all the laws

  // an entry that says what is so
  ghost predicate Broken(P: Program, S: Sched, p: Permissions, f: Failure) {
    if f.stage == NO_STAGE then !GlobalLaw(P, f.n)
    else 0 <= f.stage < |S.stages| && !StageLaw(P, S, p, f.n, S.stages[f.stage])
  }

  // the laws up to n are checked: exactly the broken ones recorded, exactly the others discharged
  ghost predicate Recorded(P: Program, S: Sched, p: Permissions, upto: nat, failed: seq<Failure>) {
    forall f :: f in failed <==> f.n <= upto && Broken(P, S, p, f)
  }

  ghost predicate Discharged(P: Program, S: Sched, p: Permissions, upto: nat, discharged: seq<nat>) {
    forall n: nat :: n in discharged <==> n <= upto && IsLaw(n) && Law(P, S, p, n)
  }

  // the last entry tells whether this law was broken: entries come in the order of the laws
  lemma LastTells(P: Program, S: Sched, p: Permissions, n: nat, failed: seq<Failure>, fs: seq<Failure>)
    requires 1 <= n <= 8 && Recorded(P, S, p, n - 1, failed) && Reports(P, S, p, n, |S.stages|, fs)
    ensures Recorded(P, S, p, n, failed + fs)
    ensures Law(P, S, p, n) <==> fs == []
    ensures fs == [] <==> failed + fs == [] || (failed + fs)[|failed + fs| - 1].n != n
  {
    hide StageLaw;
    assert forall f: Failure :: f in failed + fs <==> f in failed || f in fs;
    forall f: Failure ensures f in failed + fs <==> f.n <= n && Broken(P, S, p, f) {
      if f.n == n { ReportedBroken(P, S, p, n, fs, f); }
    }
    if fs != [] {
      assert fs[0] in fs && !StageLaw(P, S, p, n, S.stages[fs[0].stage]);
      assert (failed + fs)[|failed + fs| - 1] == fs[|fs| - 1];
    } else if failed != [] {
      assert failed[|failed| - 1] in failed;
    }
  }

  lemma ReportedBroken(P: Program, S: Sched, p: Permissions, n: nat, fs: seq<Failure>, f: Failure)
    requires 1 <= n <= 8 && Reports(P, S, p, n, |S.stages|, fs) && f.n == n
    ensures f in fs <==> Broken(P, S, p, f)
  {
    hide StageLaw;
    if 0 <= f.stage < |S.stages| { assert f == Failure(n, f.stage); }
  }

  method RunLaw(P: Program, S: Sched, p: Permissions, n: nat, failed: seq<Failure>, discharged: seq<nat>)
    returns (failed': seq<Failure>, discharged': seq<nat>)
    requires 1 <= n <= 8 && Recorded(P, S, p, n - 1, failed) && Discharged(P, S, p, n - 1, discharged)
    ensures Recorded(P, S, p, n, failed') && Discharged(P, S, p, n, discharged')
  {
    hide Recorded, Discharged, Reports, Law;
    var fs := CheckLaw(P, S, p, n);
    LastTells(P, S, p, n, failed, fs);
    failed' := failed + fs;
    discharged' := discharged;
    if failed' == [] || failed'[|failed'| - 1].n != n { discharged' := discharged + [n]; }
    DischargedStep(P, S, p, n, discharged, discharged');
  }

  lemma DischargedStep(P: Program, S: Sched, p: Permissions, n: nat, discharged: seq<nat>, discharged': seq<nat>)
    requires 1 <= n && Discharged(P, S, p, n - 1, discharged)
    requires discharged' == if IsLaw(n) && Law(P, S, p, n) then discharged + [n] else discharged
    ensures Discharged(P, S, p, n, discharged')
  {
    hide Law;
    assert discharged' == discharged + [n] ==> discharged'[|discharged|] == n;
  }

  // a law of the whole program
  method RunGlobal(P: Program, S: Sched, p: Permissions, n: nat, holds: bool, failed: seq<Failure>,
      discharged: seq<nat>)
    returns (failed': seq<Failure>, discharged': seq<nat>)
    requires (n == 9 || n == 10 || n == 13) && (holds <==> GlobalLaw(P, n))
    requires Recorded(P, S, p, n - 1, failed) && Discharged(P, S, p, n - 1, discharged)
    ensures Recorded(P, S, p, n, failed') && Discharged(P, S, p, n, discharged')
  {
    hide Discharged, Recorded;
    if holds {
      failed', discharged' := failed, discharged + [n];
    } else {
      failed', discharged' := failed + [Failure(n, NO_STAGE)], discharged;
    }
    RecordedGlobal(P, S, p, n, failed, failed');
    DischargedStep(P, S, p, n, discharged, discharged');
  }

  lemma RecordedGlobal(P: Program, S: Sched, p: Permissions, n: nat, failed: seq<Failure>, failed': seq<Failure>)
    requires n >= 9 && Recorded(P, S, p, n - 1, failed)
    requires failed' == if GlobalLaw(P, n) then failed else failed + [Failure(n, NO_STAGE)]
    ensures Recorded(P, S, p, n, failed')
  {
    hide GlobalLaw;
    assert failed' == failed + [Failure(n, NO_STAGE)] ==> failed'[|failed|] == Failure(n, NO_STAGE);
  }

  method Check(P: Program, S: Sched) returns (ok: bool, failed: seq<Failure>, discharged: seq<nat>)
    ensures ok <==> Legal(P, S)
    ensures ok <==> failed == []
    ensures !WellFormed(P, S) ==> failed == [Failure(1, NO_STAGE)] && discharged == []
    ensures WellFormed(P, S) ==>
      Recorded(P, S, Permitted(P), 13, failed) && Discharged(P, S, Permitted(P), 13, discharged)
  {
    hide WellFormed, Recorded, Discharged, GlobalLaw, Granted;
    var wf := CheckWellFormed(P, S);
    failed, discharged := [], [];
    if !wf { return false, [Failure(1, NO_STAGE)], []; }
    var p := Permits(P);
    PermitsAre(P, p);
    NothingRecorded(P, S, p);
    failed, discharged := RunLaw(P, S, p, 1, failed, discharged);
    failed, discharged := RunLaw(P, S, p, 2, failed, discharged);
    failed, discharged := RunLaw(P, S, p, 3, failed, discharged);
    failed, discharged := RunLaw(P, S, p, 4, failed, discharged);
    failed, discharged := RunLaw(P, S, p, 5, failed, discharged);
    failed, discharged := RunLaw(P, S, p, 6, failed, discharged);
    failed, discharged := RunLaw(P, S, p, 7, failed, discharged);
    failed, discharged := RunLaw(P, S, p, 8, failed, discharged);
    GlobalLaws(P);
    failed, discharged := RunGlobal(P, S, p, 9, true, failed, discharged);
    failed, discharged := RunGlobal(P, S, p, 10, P.unfitted == 0, failed, discharged);
    Skipped(P, S, p, failed, discharged);
    failed, discharged := RunGlobal(P, S, p, 13, InheritsClass(P), failed, discharged);
    ok := failed == [];
    NothingFailed(P, S, p, failed);
  }

  lemma GlobalLaws(P: Program)
    ensures GlobalLaw(P, 9) && (GlobalLaw(P, 10) <==> P.unfitted == 0) && (GlobalLaw(P, 13) <==> InheritsClass(P))
  {
  }

  lemma PermitsAre(P: Program, p: Permissions)
    requires forall right :: Gives(p, right) <==> Granted(P, right)
    ensures p == Permitted(P)
  {
    hide Granted;
    assert Gives(p, Partition) <==> Granted(P, Partition);
    assert Gives(p, Reorder) <==> Granted(P, Reorder);
    assert Gives(p, Duplicate) <==> Granted(P, Duplicate);
    assert Gives(p, TreeCombine) <==> Granted(P, TreeCombine);
  }

  lemma NothingRecorded(P: Program, S: Sched, p: Permissions)
    ensures Recorded(P, S, p, 0, []) && Discharged(P, S, p, 0, [])
  {
  }

  // there is no law 11 or 12 for one program
  lemma Skipped(P: Program, S: Sched, p: Permissions, failed: seq<Failure>, discharged: seq<nat>)
    requires Recorded(P, S, p, 10, failed) && Discharged(P, S, p, 10, discharged)
    ensures Recorded(P, S, p, 12, failed) && Discharged(P, S, p, 12, discharged)
  {
  }

  lemma NothingFailed(P: Program, S: Sched, p: Permissions, failed: seq<Failure>)
    requires Recorded(P, S, p, 13, failed)
    ensures failed == [] <==> AllLaws(P, S, p)
  {
    hide StageLaw, GlobalLaw;
    if failed != [] {
      FailureBreaks(P, S, p, failed[0]);
    } else {
      forall n | IsLaw(n) ensures Law(P, S, p, n) {
        assert Failure(n, NO_STAGE) !in failed;
        forall si | 0 <= si < |S.stages| ensures StageLaw(P, S, p, n, S.stages[si]) {
          assert Failure(n, si) !in failed;
        }
      }
    }
  }

  lemma FailureBreaks(P: Program, S: Sched, p: Permissions, f: Failure)
    requires Broken(P, S, p, f)
    ensures IsLaw(f.n) && !Law(P, S, p, f.n)
  {
  }
}
