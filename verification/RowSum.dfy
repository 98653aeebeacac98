// The emitted row-sum kernel: every run stores the exact sum of its row, for any row length and any block of whole
// warps.
module RowSum {
  import opened Options
  import opened Reduction
  import opened LockstepKernel

  function Plus(a: real, b: real): real {
    a + b
  }

  predicate AnyReal(a: real) {
    true
  }

  function Addition(): Algebra<real> {
    Algebra(Plus, Plus, 0.0, AnyReal)
  }

  lemma AdditionLawful()
    ensures Lawful(Addition()) && Total(Addition())
  {
  }

  function Sum(x: seq<real>): real {
    if x == [] then 0.0 else Sum(x[..|x| - 1]) + x[|x| - 1]
  }

  lemma {:induction false} FoldIsSum(x: seq<real>)
    ensures Fold(Addition(), x) == Sum(x)
  {
    if x != [] { FoldIsSum(x[..|x| - 1]); }
  }

  function StoreTotal(tot: real, d: nat): real {
    tot
  }

  // the kernel one block runs for its row of the buffer; thread 0 writes the one output, at the row's place. Other
  // block sizes keep the original kernel
  function EmitRowSum(x: seq<real>, row: nat, K: nat, T: nat): (kernel: Option<Kernel<real, real>>)
    ensures kernel.Some? <==> WholeWarps(T)
  {
    WholeWarpsTest(T);
    if T < WARP || T % WARP != 0 then None
    else (RowStart(row, K); Some(Kernel(Addition(), x, row * K, K, T / WARP, 1, 1, row, StoreTotal)))
  }

  lemma RowSumLaunchable(x: seq<real>, row: nat, K: nat, T: nat)
    requires row * K + K <= |x| && WholeWarps(T)
    ensures Launchable(EmitRowSum(x, row, K, T).value) && Threads(EmitRowSum(x, row, K, T).value) == T
  {
    AdditionLawful();
    hide Lawful, Total, Fetch;
  }

  // no run writes anything but the row's sum, a finished run has written it, and no run is stuck before that
  lemma RowSumCorrect(x: seq<real>, row: nat, K: nat, T: nat, run: seq<State<real, real>>, i: nat)
    requires 0 <= row * K && row * K + K <= |x| && WholeWarps(T)
    requires IsRun(EmitRowSum(x, row, K, T).value, run) && i < |run|
    ensures var kernel := EmitRowSum(x, row, K, T).value;
      var y, total := Written(kernel, run[i].out), Sum(seq(K, k requires 0 <= k < K => x[row * K + k]));
      && (y == map[] || y == map[row := total])
      && (Finished(run[i]) ==> y == map[row := total])
      && (Finished(run[i]) || CanStep(kernel, run[i]))
  {
    var kernel, r := EmitRowSum(x, row, K, T).value, seq(K, k requires 0 <= k < K => x[row * K + k]);
    RowRead(x, row, K, T, r);
    RowSumLaunchable(x, row, K, T);
    hide *;
    RunDelivers(kernel, run, i);
    RunInv(kernel, run, i);
    if !Finished(run[i]) { NeverStuck(kernel, run[i]); }
    FoldIsSum(r);
    TotalOnly(kernel, run[i].out, Sum(r));
  }

  // what the kernel of a row computes from, and where it puts it
  lemma RowRead(x: seq<real>, row: nat, K: nat, T: nat, r: seq<real>)
    requires 0 <= row * K && row * K + K <= |x| && WholeWarps(T)
    requires r == seq(K, k requires 0 <= k < K => x[row * K + k])
    ensures var kernel := EmitRowSum(x, row, K, T).value;
      && RowOf(kernel) == r && kernel.m == Addition() && kernel.outputs == 1 && kernel.to == row
      && kernel.finish == StoreTotal
  {
    var kernel := EmitRowSum(x, row, K, T).value;
    assert kernel == Kernel(Addition(), x, row * K, K, T / WARP, 1, 1, row, StoreTotal);
    hide EmitRowSum, Addition;
    forall k | 0 <= k < K ensures RowOf(kernel)[k] == r[k] {
      RowAt(kernel, k);
      assert kernel.base + k == row * K + k;
    }
  }

  lemma TotalOnly(K: Kernel<real, real>, out: map<nat, real>, y: real)
    requires K.outputs == 1 && K.finish == StoreTotal && forall d :: d in out ==> d < 1 && out[d] == K.finish(y, d)
    ensures Written(K, out) == map[] || Written(K, out) == map[K.to := y]
    ensures 0 in out ==> Written(K, out) == map[K.to := y]
  {
    OnlyZero(K, out, y);
  }

  lemma OnlyZero(K: Kernel<real, real>, out: map<nat, real>, y: real)
    requires K.outputs == 1 && forall d :: d in out ==> d < 1 && out[d] == y
    ensures Written(K, out) == map[] || Written(K, out) == map[K.to := y]
    ensures 0 in out ==> Written(K, out) == map[K.to := y]
  {
    if 0 !in out {
      assert Written(K, out) == map[];
    } else {
      assert Written(K, out) == map[K.to := y];
    }
  }
}
