// The schedule language over a tensor program: well-formedness, the schedule of the source kernel, and the search
// edits.
module Schedule {
  import opened Recur = RecurrenceExpr
  import Powers

  datatype Bind = Lane | Simdgroup | BlockX | BlockY | BlockZ | Unroll | Time | Replicate | Launch | Device

  datatype Storage = InDevice | Threadgroup | Register | CoopTensor | Recompute

  datatype Engine = TensorOp | ScalarFma | SimdVector

  datatype Exchange = NoExchange | ShuffleTree | ThreadgroupBuffer | Atomic | Collective

  datatype Prefetch = AtUse | IterationStart | Rotate

  datatype Predication = Branch | SelectClamp | ZeroPage | NoPredicate

  // size 0 stands for any size
  datatype Factor = Factor(name: string, coord: nat, size: nat, bind: Bind)

  datatype AccessStorage = AccessStorage(tensor: nat, kind: Storage, ringStages: nat, ringBytes: nat)

  datatype Stage = Stage(factors: seq<Factor>, order: seq<string>, storage: seq<AccessStorage>, exchange: Exchange,
      engine: Engine, tensorM: nat, tensorN: nat, tensorK: nat, prefetch: Prefetch, predicate_: Predication,
      fusedWith: seq<nat>, threadScale: nat, smemBytes: nat)

  const DEFAULT_STAGE := Stage([], [], [], NoExchange, ScalarFma, 32, 32, 32, AtUse, Branch, [], 1, 0)

  datatype Sched = Sched(kernel: string, why: string, stages: seq<Stage>)

  // ---- the program a schedule is for

  datatype LoopInfo = LoopInfo(anyData: bool, permits: Permissions, algebra: set<Algebra>)

  datatype Tensor = Tensor(name: string, read: bool, written: bool)

  datatype Access = Access(store: bool, atomic: bool)

  // coordPhys: the physical axes of a coordinate, as text; coordOutput: whether it is an output coordinate (empty: all
  // are)
  datatype Program = Program(kernel: string, coordNames: seq<string>, coordPhys: seq<string>, coordOutput: seq<bool>,
                             loops: seq<LoopInfo>, guards: nat, tensors: seq<Tensor>, accesses: seq<Access>,
                               unfitted: nat, numClass: string)

  ghost predicate DistinctNames(names: seq<string>) {
    forall i, j :: 0 <= i < j < |names| ==> names[i] != names[j]
  }

  // what coordinate discovery hands over
  ghost predicate ValidProgram(P: Program) {
    DistinctNames(P.coordNames) && (P.coordOutput == [] || |P.coordOutput| >= |P.coordNames|)
  }

  predicate IsOutput(P: Program, j: nat) {
    P.coordOutput == [] || (j < |P.coordOutput| && P.coordOutput[j])
  }

  // ---- well-formedness

  predicate IsPow2(n: nat)
    decreases n
  {
    if n == 0 then false else if n == 1 then true else n % 2 == 0 && IsPow2(n / 2)
  }

  // any size, a power of two, or three
  predicate SplitSize(n: nat) {
    n == 0 || n == 3 || IsPow2(n)
  }

  lemma {:induction false} Pow2Exactly(n: nat)
    ensures IsPow2(n) <==> exists k: nat :: n == Powers.Pow2(k)
    decreases n
  {
    if n > 1 {
      Pow2Exactly(n / 2);
      if k: nat :| n / 2 == Powers.Pow2(k) {
        if n % 2 == 0 { assert n == Powers.Pow2(k + 1); }
      }
      if k: nat :| n == Powers.Pow2(k) {
        assert k > 0 && n / 2 == Powers.Pow2(k - 1);
      }
    } else if n == 1 {
      assert 1 == Powers.Pow2(0);
    }
  }

  // the sizes a factor may have
  lemma SplitSizes(n: nat)
    ensures SplitSize(n) <==> n in {0, 3} || exists k: nat :: n == Powers.Pow2(k)
  {
    Pow2Exactly(n);
  }

  ghost predicate FactorsOk(P: Program, factors: seq<Factor>) {
    && (forall i :: 0 <= i < |factors| ==>
      (factors[i].coord < |P.coordNames| || P.coordNames == []) && SplitSize(factors[i].size))
    && (forall i, j :: 0 <= i < j < |factors| ==> factors[i].name != factors[j].name)
    && (forall c :: 0 <= c < |P.coordNames| ==> Covers(factors, c))
  }

  ghost predicate Covers(factors: seq<Factor>, c: nat) {
    exists i :: 0 <= i < |factors| && factors[i].coord == c
  }

  predicate Names(factors: seq<Factor>, name: string) {
    exists i :: 0 <= i < |factors| && factors[i].name == name
  }

  ghost predicate OrderOk(st: Stage) {
    forall k :: 0 <= k < |st.order| ==> Names(st.factors, st.order[k])
  }

  predicate LimitsOk(st: Stage) {
    && 1 <= st.threadScale <= 32 && st.smemBytes <= 232448
    && (st.engine.TensorOp? ==> st.tensorM >= 16 && st.tensorN >= 8 && st.tensorK >= 8)
  }

  ghost predicate StageOk(P: Program, st: Stage) {
    FactorsOk(P, st.factors) && OrderOk(st) && LimitsOk(st)
  }

  ghost predicate WellFormed(P: Program, S: Sched) {
    S.stages != [] && forall i :: 0 <= i < |S.stages| ==> StageOk(P, S.stages[i])
  }

  // the checks, in the order they are made
  method CheckFactors(P: Program, st: Stage) returns (ok: bool)
    ensures ok <==> FactorsOk(P, st.factors)
  {
    var covered: set<nat> := {};
    var names: set<string> := {};
    for i := 0 to |st.factors|
      invariant forall k :: 0 <= k < i ==>
        (st.factors[k].coord < |P.coordNames| || P.coordNames == []) && SplitSize(st.factors[k].size)
      invariant forall k, l :: 0 <= k < l < i ==> st.factors[k].name != st.factors[l].name
      invariant names == set k | 0 <= k < i :: st.factors[k].name
      invariant covered == set k | 0 <= k < i :: st.factors[k].coord
    {
      var f := st.factors[i];
      if f.coord >= |P.coordNames| && P.coordNames != [] { return false; }
      if f.name in names {
        var k :| 0 <= k < i && st.factors[k].name == f.name;
        return false;
      }
      names := names + {f.name};
      covered := covered + {f.coord};
      if !SplitSize(f.size) { return false; }
    }
    for j := 0 to |P.coordNames|
      invariant forall c :: 0 <= c < j ==> Covers(st.factors, c)
    {
      if j !in covered {
        assert !Covers(st.factors, j);
        return false;
      }
      assert Covers(st.factors, j);
    }
    return true;
  }

  method CheckWellFormed(P: Program, S: Sched) returns (ok: bool)
    ensures ok <==> WellFormed(P, S)
  {
    hide FactorsOk, Names;
    if S.stages == [] { return false; }
    for i := 0 to |S.stages|
      invariant forall k :: 0 <= k < i ==> StageOk(P, S.stages[k])
    {
      var st := S.stages[i];
      var factors := CheckFactors(P, st);
      if !factors { return false; }
      for k := 0 to |st.order|
        invariant forall l :: 0 <= l < k ==> Names(st.factors, st.order[l])
      {
        if !Names(st.factors, st.order[k]) { return false; }
      }
      if st.threadScale == 0 || st.threadScale > 32 { return false; }
      if st.smemBytes > 232448 { return false; }
      if st.engine.TensorOp? && (st.tensorM < 16 || st.tensorN < 8 || st.tensorK < 8) { return false; }
    }
    return true;
  }

  // ---- the edits

  function MapStages(f: Stage -> Stage, stages: seq<Stage>): (r: seq<Stage>)
    ensures |r| == |stages| && forall i :: 0 <= i < |r| ==> r[i] == f(stages[i])
  {
    seq(|stages|, i requires 0 <= i < |stages| => f(stages[i]))
  }

  function ToCoop(storage: seq<AccessStorage>): (r: seq<AccessStorage>) {
    seq(|storage|, i requires 0 <= i < |storage| => if storage[i].kind.Register? then storage[i].(kind := CoopTensor)
      else storage[i])
  }

  function EditEngineTensorOp(S: Sched): Sched {
    Sched(S.kernel, "engine:tensor-op", MapStages((st: Stage) =>
      st.(engine := TensorOp, tensorM := 32, tensorN := 32, tensorK := 32, storage := ToCoop(st.storage)), S.stages))
  }

  function Ringed(storage: seq<AccessStorage>): (r: seq<AccessStorage>) {
    seq(|storage|, i requires 0 <= i < |storage| => if storage[i].kind.Threadgroup? then storage[i].(ringStages := 2)
      else storage[i])
  }

  function EditRestage2(S: Sched): Sched {
    Sched(S.kernel, "restage:2", MapStages((st: Stage) =>
      st.(storage := Ringed(st.storage), smemBytes := if st.smemBytes == 0 then 16384
        else if st.smemBytes < 32768 then st.smemBytes else 32768), S.stages))
  }

  // every unroll factor to simdgroups, or the first time factor of more than one element
  function RebindUnroll(factors: seq<Factor>): (r: seq<Factor>) {
    seq(|factors|, i requires 0 <= i < |factors| => if factors[i].bind.Unroll? then factors[i].(bind := Simdgroup)
      else factors[i])
  }

  function RebindFirstTime(factors: seq<Factor>): (r: seq<Factor>) {
    if factors == [] then []
    else if factors[0].bind.Time? && factors[0].size != 1 then [factors[0].(bind := Simdgroup)] + factors[1..]
    else [factors[0]] + RebindFirstTime(factors[1..])
  }

  function Rebound(factors: seq<Factor>): seq<Factor> {
    if exists i :: 0 <= i < |factors| && factors[i].bind.Unroll? then RebindUnroll(factors)
      else RebindFirstTime(factors)
  }

  function EditSimdSplit(S: Sched, F: nat): Sched {
    Sched(S.kernel, if F == 2 then "split:simdgroup*2" else "split:simdgroup*4",
      MapStages((st: Stage) => st.(threadScale := F, factors := Rebound(st.factors)), S.stages))
  }

  function Streamed(storage: seq<AccessStorage>): (r: seq<AccessStorage>) {
    seq(|storage|, i requires 0 <= i < |storage| => if storage[i].kind.Threadgroup? then storage[i].(kind := InDevice)
      else storage[i])
  }

  function EditDeviceStream(S: Sched): Sched {
    Sched(S.kernel, "storage:device-stream", MapStages((st: Stage) =>
      st.(storage := Streamed(st.storage), prefetch := IterationStart, smemBytes := 0), S.stages))
  }

  function EditGuardedZeroPage(S: Sched): Sched {
    Sched(S.kernel, "predicate:zero-page", MapStages((st: Stage) => st.(predicate_ := ZeroPage), S.stages))
  }

  // the six edits a search step tries, in order
  function Edits(S: Sched): (r: seq<Sched>)
    ensures |r| == 6
  {
    [EditEngineTensorOp(S), EditRestage2(S), EditSimdSplit(S, 2), EditSimdSplit(S, 4), EditDeviceStream(S),
      EditGuardedZeroPage(S)]
  }

  // factors with the same names, coordinates and sizes are as well-formed
  ghost predicate SameFactors(a: seq<Factor>, b: seq<Factor>) {
    |a| == |b| && forall i :: 0 <= i < |a| ==>
      a[i].name == b[i].name && a[i].coord == b[i].coord && a[i].size == b[i].size
  }

  lemma SameFactorsOk(P: Program, a: seq<Factor>, b: seq<Factor>)
    requires SameFactors(a, b) && FactorsOk(P, a)
    ensures FactorsOk(P, b)
  {
    forall c | 0 <= c < |P.coordNames| ensures Covers(b, c) {
      assert Covers(a, c);
      var i :| 0 <= i < |a| && a[i].coord == c;
      assert b[i].coord == c;
    }
  }

  lemma {:induction false} FirstTimeSame(factors: seq<Factor>)
    ensures SameFactors(factors, RebindFirstTime(factors))
  {
    if factors != [] && !(factors[0].bind.Time? && factors[0].size != 1) { FirstTimeSame(factors[1..]); }
  }

  // ---- what the edits change

  predicate UnrollAmong(factors: seq<Factor>) {
    exists i :: 0 <= i < |factors| && factors[i].bind.Unroll?
  }

  predicate LongTime(f: Factor) {
    f.bind.Time? && f.size != 1
  }

  // the factors a simdgroup split rebinds: all unrolled ones, or without any the first of time that is not of size one
  predicate Moves(factors: seq<Factor>, i: nat)
    requires i < |factors|
  {
    factors[i].bind.Unroll?
      || (!UnrollAmong(factors) && LongTime(factors[i]) && forall j :: 0 <= j < i ==> !LongTime(factors[j]))
  }

  lemma {:induction false} FirstTimeMoves(factors: seq<Factor>, i: nat)
    requires i < |factors|
    ensures |RebindFirstTime(factors)| == |factors|
    ensures RebindFirstTime(factors)[i] == if LongTime(factors[i]) && forall j :: 0 <= j < i ==> !LongTime(factors[j])
      then factors[i].(bind := Simdgroup) else factors[i]
  {
    FirstTimeSame(factors);
    if LongTime(factors[0]) {
    } else if i > 0 {
      FirstTimeMoves(factors[1..], i - 1);
      assert (forall j :: 0 <= j < i ==> !LongTime(factors[j])) <==>
        forall j :: 0 <= j < i - 1 ==> !LongTime(factors[1..][j]) by {
        if forall j :: 0 <= j < i - 1 ==> !LongTime(factors[1..][j]) {
          forall j | 0 <= j < i ensures !LongTime(factors[j]) {
            if j > 0 { assert factors[1..][j - 1] == factors[j]; }
          }
        }
      }
    }
  }

  // the kind an edit gives a storage entry
  function KindAfter(kind: Storage, e: nat): Storage {
    if e == 0 && kind.Register? then CoopTensor else if e == 4 && kind.Threadgroup? then InDevice else kind
  }

  // field by field: tensor operations with their tile, a second ring stage, a simdgroup split by two or four, streaming
  // from the device, the zero page; and nothing else
  lemma EditedFields(S: Sched, e: nat, i: nat)
    requires e < 6 && i < |S.stages|
    ensures var E := Edits(S)[e]; |E.stages| == |S.stages| && E.kernel == S.kernel
    ensures var a, b := S.stages[i], Edits(S)[e].stages[i];
      && (if e == 0 then b.engine.TensorOp? && b.tensorM == b.tensorN == b.tensorK == 32
          else b.engine == a.engine && b.tensorM == a.tensorM && b.tensorN == a.tensorN && b.tensorK == a.tensorK)
      && b.threadScale == (if e == 2 then 2 else if e == 3 then 4 else a.threadScale)
      && (b.smemBytes == if e == 4 then 0 else if e != 1 then a.smemBytes else if a.smemBytes == 0 then 16384
        else if a.smemBytes > 32768 then 32768 else a.smemBytes)
      && b.prefetch == (if e == 4 then IterationStart else a.prefetch)
      && b.predicate_ == (if e == 5 then ZeroPage else a.predicate_)
      && b.order == a.order && b.exchange == a.exchange && b.fusedWith == a.fusedWith
    ensures var a, b := S.stages[i].storage, Edits(S)[e].stages[i].storage;
      |a| == |b| && forall k :: 0 <= k < |a| ==>
        && b[k].tensor == a[k].tensor && b[k].ringBytes == a[k].ringBytes && b[k].kind == KindAfter(a[k].kind, e)
        && b[k].ringStages == if e == 1 && a[k].kind.Threadgroup? then 2 else a[k].ringStages
    ensures var a, b := S.stages[i].factors, Edits(S)[e].stages[i].factors;
      |a| == |b| && forall k :: 0 <= k < |a| ==>
        b[k] == if (e == 2 || e == 3) && Moves(a, k) then a[k].(bind := Simdgroup) else a[k]
  {
    var a := S.stages[i].factors;
    ReboundSame(a);
    forall k | 0 <= k < |a| ensures Rebound(a)[k] == if Moves(a, k) then a[k].(bind := Simdgroup) else a[k] {
      ReboundAt(a, k);
    }
    hide Rebound, Moves;
  }

  lemma ReboundAt(a: seq<Factor>, k: nat)
    requires k < |a|
    ensures |Rebound(a)| == |a| && Rebound(a)[k] == if Moves(a, k) then a[k].(bind := Simdgroup) else a[k]
  {
    FirstTimeMoves(a, k);
  }

  lemma StageKept(P: Program, a: Stage, b: Stage)
    requires StageOk(P, a) && SameFactors(a.factors, b.factors) && b.order == a.order && LimitsOk(b)
    ensures StageOk(P, b)
  {
    SameFactorsOk(P, a.factors, b.factors);
    hide FactorsOk, LimitsOk;
    forall k | 0 <= k < |b.order| ensures Names(b.factors, b.order[k]) {
      assert Names(a.factors, a.order[k]);
      var i :| 0 <= i < |a.factors| && a.factors[i].name == a.order[k];
      assert b.factors[i].name == b.order[k];
    }
  }

  // every search edit keeps a schedule well-formed, and renames it
  lemma EditKeepsWellFormed(P: Program, S: Sched, e: nat)
    requires e < 6
    ensures WellFormed(P, S) ==> WellFormed(P, Edits(S)[e])
    ensures Edits(S)[e].why != "source"
  {
    hide FactorsOk, OrderOk, WellFormed, Rebound, ToCoop, Ringed, Streamed;
    if WellFormed(P, S) {
      NonEmpty(P, S);
      forall i | 0 <= i < |S.stages| ensures StageOk(P, Edits(S)[e].stages[i]) {
        StageOf(P, S, i);
        EditedStage(P, S, e, i);
      }
      StagesOk(P, Edits(S)[e]);
    }
  }

  lemma NonEmpty(P: Program, S: Sched)
    requires WellFormed(P, S)
    ensures S.stages != []
  {
  }

  lemma StageOf(P: Program, S: Sched, i: nat)
    requires WellFormed(P, S) && i < |S.stages|
    ensures StageOk(P, S.stages[i])
  {
  }

  lemma StagesOk(P: Program, S: Sched)
    requires S.stages != [] && forall i :: 0 <= i < |S.stages| ==> StageOk(P, S.stages[i])
    ensures WellFormed(P, S)
  {
  }

  lemma ReboundSame(factors: seq<Factor>)
    ensures SameFactors(factors, Rebound(factors))
  {
    FirstTimeSame(factors);
  }

  lemma EditedStage(P: Program, S: Sched, e: nat, i: nat)
    requires e < 6 && i < |S.stages| && StageOk(P, S.stages[i])
    ensures |Edits(S)[e].stages| == |S.stages| && StageOk(P, Edits(S)[e].stages[i])
  {
    hide FactorsOk, OrderOk, Rebound, ToCoop, Ringed, Streamed;
    ReboundSame(S.stages[i].factors);
    var b := Edits(S)[e].stages[i];
    hide Edits;
    StageKept(P, S.stages[i], b);
  }
}
