// The emitted online-softmax kernel, with powers of two over integer exponents for the exponential and the exponential
// of minus infinity zero: the (m, l) scan, butterfly and merge of partials give the one-pass definition.
module Softmax {
  import opened Options
  import opened Reduction
  import opened LockstepKernel
  import opened ShortRow

  // ---- powers of two over the integers

  function Pow(n: int): (p: real)
    ensures p > 0.0
    decreases if n < 0 then -n else n
  {
    if n == 0 then 1.0 else if n > 0 then 2.0 * Pow(n - 1) else Pow(n + 1) / 2.0
  }

  lemma {:induction false} PowAdd(a: int, b: int)
    ensures Pow(a + b) == Mul(Pow(a), Pow(b))
    decreases if b < 0 then -b else b
  {
    if b > 0 {
      PowAdd(a, b - 1);
      PowNext(a + b - 1);
      PowNext(b - 1);
      Times(Pow(a), Pow(b - 1), 2.0);
    } else if b < 0 {
      PowAdd(a, b + 1);
      PowNext(a + b);
      PowNext(b);
      Times(Pow(a), Pow(b), 2.0);
      Halve(Pow(a + b), Mul(Pow(a), Pow(b)));
    } else {
      Times(Pow(a), 1.0, 1.0);
    }
  }

  lemma PowNext(n: int)
    ensures Pow(n + 1) == Mul(Pow(n), 2.0)
  {
  }

  lemma Halve(a: real, b: real)
    requires Mul(a, 2.0) == Mul(b, 2.0)
    ensures a == b
  {
  }

  function Mul(a: real, b: real): real {
    a * b
  }

  lemma Times(a: real, b: real, c: real)
    ensures Mul(Mul(a, b), c) == Mul(a, Mul(b, c)) && Mul(a, b) == Mul(b, a)
    ensures Mul(a + b, c) == Mul(a, c) + Mul(b, c)
    ensures Mul(a, 1.0) == a && Mul(a, 0.0) == 0.0
  {
  }

  // ---- the running maximum and sum, as the kernel's registers hold them

  datatype Level = NegInf | Lev(n: int)

  datatype Value = NaN | Val(r: real)

  datatype Pair = Pair(m: Level, l: Value)

  function MaxNum(a: Level, b: Level): Level {
    if a.NegInf? then b else if b.NegInf? then a else if a.n >= b.n then a else b
  }

  // exp(a - b): minus infinity minus itself is not a number
  function ExpDiff(a: Level, b: Level): Value {
    if b.NegInf? then NaN else if a.NegInf? then Val(0.0) else Val(Pow(a.n - b.n))
  }

  function FMul(a: Value, b: Value): Value {
    if a.NaN? || b.NaN? then NaN else Val(Mul(a.r, b.r))
  }

  function FAdd(a: Value, b: Value): Value {
    if a.NaN? || b.NaN? then NaN else Val(a.r + b.r)
  }

  function FDiv(a: Value, b: Value): Value {
    if a.NaN? || b.NaN? || b.r == 0.0 then NaN else Val(a.r / b.r)
  }

  const EMPTY := Pair(NegInf, Val(0.0))

  // one element of the row into a thread's registers
  function ScanOne(p: Pair, v: int): Pair {
    var m := MaxNum(p.m, Lev(v));
    Pair(m, FAdd(FMul(p.l, ExpDiff(p.m, m)), ExpDiff(Lev(v), m)))
  }

  // two pairs into one: a shuffle round, or a partial from threadgroup memory
  function Merge(a: Pair, b: Pair): Pair {
    var m := MaxNum(a.m, b.m);
    Pair(m, FAdd(FMul(a.l, ExpDiff(a.m, m)), FMul(b.l, ExpDiff(b.m, m))))
  }

  function One(v: int): Pair {
    Pair(Lev(v), Val(1.0))
  }

  // scanning an element is merging it
  lemma ScanIsMerge(p: Pair, v: int)
    ensures ScanOne(p, v) == Merge(p, One(v))
  {
    var m := MaxNum(p.m, Lev(v));
    Times(Pow(v - m.n), 1.0, 1.0);
    Times(1.0, Pow(v - m.n), 1.0);
  }

  // two empty pairs do not merge to an empty pair
  lemma EmptyMergeIsNaN()
    ensures Merge(EMPTY, EMPTY).l == NaN
  {
  }

  function MergeSpec(a: Pair, b: Pair): Pair {
    if a == EMPTY then b else if b == EMPTY then a else Merge(a, b)
  }

  predicate Held(p: Pair) {
    p == EMPTY || (p.m.Lev? && p.l.Val?)
  }

  function Merging(): Algebra<Pair> {
    Algebra(Merge, MergeSpec, EMPTY, Held)
  }

  lemma MergeEmpty(a: Pair)
    requires Held(a) && a != EMPTY
    ensures Merge(EMPTY, a) == a == Merge(a, EMPTY)
  {
    assert Pow(0) == 1.0;
    Times(a.l.r, 1.0, 1.0);
    Times(0.0, 0.0, 0.0);
  }

  lemma MergeCommutes(a: Pair, b: Pair)
    requires Held(a) && Held(b) && a != EMPTY && b != EMPTY
    ensures Merge(a, b) == Merge(b, a) && Held(Merge(a, b)) && Merge(a, b) != EMPTY
  {
    hide Mul, Pow;
  }

  lemma MergeAssociates(a: Pair, b: Pair, c: Pair)
    requires Held(a) && Held(b) && Held(c) && a != EMPTY && b != EMPTY && c != EMPTY
    ensures Merge(Merge(a, b), c) == Merge(a, Merge(b, c))
  {
    hide Mul, Pow;
    var ab, bc := MaxNum(a.m, b.m).n, MaxNum(b.m, c.m).n;
    var m := MaxNum(Lev(ab), c.m).n;
    Rescale(a.l.r, a.m.n, ab, m);
    Rescale(b.l.r, b.m.n, ab, m);
    Rescale(b.l.r, b.m.n, bc, m);
    Rescale(c.l.r, c.m.n, bc, m);
    Times(Mul(a.l.r, Pow(a.m.n - ab)), Mul(b.l.r, Pow(b.m.n - ab)), Pow(ab - m));
    Times(Mul(b.l.r, Pow(b.m.n - bc)), Mul(c.l.r, Pow(c.m.n - bc)), Pow(bc - m));
  }

  // two rescalings in a row are one
  lemma Rescale(l: real, n: int, via: int, to: int)
    ensures Mul(Mul(l, Pow(n - via)), Pow(via - to)) == Mul(l, Pow(n - to))
  {
    hide Mul, Pow;
    PowAdd(n - via, via - to);
    Times(l, Pow(n - via), Pow(via - to));
  }

  lemma MergingLawful()
    ensures Lawful(Merging()) && AlmostTotal(Merging())
  {
    hide Merge, Mul, Pow;
    var m := Merging();
    forall a, b | Held(a) && Held(b)
      ensures Held(MergeSpec(a, b)) && MergeSpec(a, b) == MergeSpec(b, a)
      ensures a != EMPTY || b != EMPTY ==> Merge(a, b) == MergeSpec(a, b) != EMPTY
    {
      if a != EMPTY && b != EMPTY {
        MergeCommutes(a, b);
      } else if a != EMPTY {
        MergeEmpty(a);
      } else if b != EMPTY {
        MergeEmpty(b);
      }
    }
    forall a, b, c | Held(a) && Held(b) && Held(c)
      ensures MergeSpec(MergeSpec(a, b), c) == MergeSpec(a, MergeSpec(b, c))
    {
      if a != EMPTY && b != EMPTY && c != EMPTY {
        MergeCommutes(a, b);
        MergeCommutes(b, c);
        MergeAssociates(a, b, c);
      }
    }
  }

  // ---- the one-pass definition

  function MaxOf(x: seq<int>): (m: int)
    requires x != []
    ensures m in x && forall v :: v in x ==> v <= m
  {
    if |x| == 1 then x[0]
    else
      var m, v := MaxOf(x[..|x| - 1]), x[|x| - 1];
      assert x == x[..|x| - 1] + [v];
      if m >= v then m else v
  }

  function SumExp(x: seq<int>, m: int): real {
    if x == [] then 0.0 else SumExp(x[..|x| - 1], m) + Pow(x[|x| - 1] - m)
  }

  lemma {:induction false} SumExpPositive(x: seq<int>, m: int)
    ensures if x == [] then SumExp(x, m) == 0.0 else SumExp(x, m) > 0.0
  {
    if x != [] { SumExpPositive(x[..|x| - 1], m); }
  }

  lemma {:induction false} SumExpRescales(x: seq<int>, m: int, to: int)
    ensures Mul(SumExp(x, m), Pow(m - to)) == SumExp(x, to)
  {
    hide Mul, Pow;
    if x == [] {
      Times(Pow(m - to), 0.0, 0.0);
    } else {
      var n := |x| - 1;
      SumExpRescales(x[..n], m, to);
      Times(SumExp(x[..n], m), Pow(x[n] - m), Pow(m - to));
      Rescale(1.0, x[n], m, to);
      Times(Pow(x[n] - m), 1.0, 1.0);
      Times(Pow(x[n] - to), 1.0, 1.0);
      Times(1.0, Pow(x[n] - m), 1.0);
      Times(1.0, Pow(x[n] - to), 1.0);
    }
  }

  function Elements(x: seq<int>): (s: seq<Pair>)
    ensures |s| == |x|
  {
    seq(|x|, k requires 0 <= k < |x| => One(x[k]))
  }

  // the fold of the row is its maximum and the sum of the exponentials
  lemma {:induction false} FoldIsOnePass(x: seq<int>)
    requires x != []
    ensures Fold(Merging(), Elements(x)) == Pair(Lev(MaxOf(x)), Val(SumExp(x, MaxOf(x))))
  {
    var n := |x| - 1;
    var e := Elements(x);
    assert e[..n] == Elements(x[..n]);
    if n == 0 {
      assert e[..0] == [] && x[..0] == [] && Pow(0) == 1.0;
    } else {
      FoldIsOnePass(x[..n]);
      LastMerges(x, n);
    }
  }

  lemma LastMerges(x: seq<int>, n: nat)
    requires n > 0 && |x| == n + 1
    ensures MergeSpec(Pair(Lev(MaxOf(x[..n])), Val(SumExp(x[..n], MaxOf(x[..n])))), One(x[n]))
      == Pair(Lev(MaxOf(x)), Val(SumExp(x, MaxOf(x))))
  {
    hide Mul, Pow, SumExp;
    var m := MaxOf(x[..n]);
    var to := MaxOf(x);
    SumExpRescales(x[..n], m, to);
    Times(1.0, Pow(x[n] - to), 1.0);
    Times(Pow(x[n] - to), 1.0, 1.0);
    SumExpLast(x, n, to);
  }

  lemma SumExpLast(x: seq<int>, n: nat, m: int)
    requires |x| == n + 1
    ensures SumExp(x, m) == SumExp(x[..n], m) + Pow(x[n] - m)
  {
  }

  // ---- the kernel

  // exp(x[base + d] - M) / L
  function Quotients(x: seq<int>, base: nat): (Pair, nat) -> Value {
    (tot: Pair, d: nat) => if base + d < |x| then FDiv(ExpDiff(Lev(x[base + d]), tot.m), tot.l) else NaN
  }

  // after the barrier the first warp merges the partials and writes the row. Other block sizes keep the original kernel
  function EmitSoftmax(x: seq<int>, row: nat, K: nat, T: nat): (kernel: Option<Kernel<Pair, Value>>)
    ensures kernel.Some? <==> WholeWarps(T)
  {
    WholeWarpsTest(T);
    if T < WARP || T % WARP != 0 then None
    else
      (RowStart(row, K);
       Some(Kernel(Merging(), Elements(x), row * K, K, T / WARP, WARP, K, row * K, Quotients(x, row * K))))
  }

  // row `row` of a matrix of rows of K
  ghost predicate InRow(x: seq<int>, row: nat, K: nat) {
    0 <= row * K && row * K + K <= |x|
  }

  lemma SoftmaxLaunchable(x: seq<int>, row: nat, K: nat, T: nat)
    requires InRow(x, row, K) && WholeWarps(T) && K + WARP / 2 >= T
    ensures Launchable(EmitSoftmax(x, row, K, T).value) && Threads(EmitSoftmax(x, row, K, T).value) == T
  {
    MergingLawful();
    hide Lawful, AlmostTotal, Total;
  }

  // exp(x[d] - max) / sum of exp(x[k] - max)
  function SoftmaxOf(x: seq<int>, d: nat): real
    requires d < |x|
  {
    SumExpPositive(x, MaxOf(x));
    Pow(x[d] - MaxOf(x)) / SumExp(x, MaxOf(x))
  }

  lemma QuotientIsSoftmax(x: seq<int>, d: nat)
    requires d < |x|
    ensures Quotients(x, 0)(Fold(Merging(), Elements(x)), d) == Val(SoftmaxOf(x, d))
  {
    FoldIsOnePass(x);
    SumExpPositive(x, MaxOf(x));
  }

  // what the kernel of a row computes from, and where it puts it
  lemma RowRead(x: seq<int>, row: nat, K: nat, T: nat, r: seq<int>)
    requires InRow(x, row, K) && WholeWarps(T) && r == seq(K, k requires 0 <= k < K => x[row * K + k])
    ensures var kernel := EmitSoftmax(x, row, K, T).value;
      && RowOf(kernel) == Elements(r) && kernel.m == Merging() && kernel.outputs == K && kernel.to == row * K
      && forall tot, d :: 0 <= d < K ==> kernel.finish(tot, d) == Quotients(r, 0)(tot, d)
  {
  }

  // the softmax of x at the places from `to` on
  ghost predicate WritesSoftmax(x: seq<int>, to: nat, y: map<nat, Value>) {
    forall a :: to <= a < to + |x| ==> a in y && y[a] == Val(SoftmaxOf(x, a - to))
  }

  // nothing but the softmax of x, and only at its places
  ghost predicate WithinSoftmax(x: seq<int>, to: nat, y: map<nat, Value>) {
    forall a :: a in y ==> to <= a < to + |x| && y[a] == Val(SoftmaxOf(x, a - to))
  }

  lemma SoftmaxOutputs(x: seq<int>, row: nat, K: nat, T: nat, run: seq<State<Pair, Value>>, i: nat, r: seq<int>)
    requires InRow(x, row, K) && WholeWarps(T) && K + WARP / 2 >= T
    requires IsRun(EmitSoftmax(x, row, K, T).value, run) && i < |run|
    requires r == seq(K, k requires 0 <= k < K => x[row * K + k])
    ensures forall d :: d in run[i].out ==> d < K && run[i].out[d] == Val(SoftmaxOf(r, d))
    ensures Finished(run[i]) ==> forall d :: 0 <= d < K ==> d in run[i].out
  {
    hide *;
    var kernel := EmitSoftmax(x, row, K, T).value;
    SoftmaxLaunchable(x, row, K, T);
    RowRead(x, row, K, T, r);
    RunDelivers(kernel, run, i);
    WrittenAll(kernel, run[i].out);
    forall d | d in run[i].out ensures run[i].out[d] == Val(SoftmaxOf(r, d)) {
      QuotientIsSoftmax(r, d);
    }
  }

  lemma WrittenAll(K: Kernel<Pair, Value>, out: map<nat, Value>)
    ensures Delivered(K, out) ==> forall d :: 0 <= d < K.outputs ==> d in out
  {
  }

  // a row that leaves at most half a warp of threads without an element: every output ever written is the softmax, a
  // finished run has written the whole row, and no run is stuck before that
  lemma SoftmaxCorrect(x: seq<int>, row: nat, K: nat, T: nat, run: seq<State<Pair, Value>>, i: nat)
    requires InRow(x, row, K) && WholeWarps(T) && K + WARP / 2 >= T
    requires IsRun(EmitSoftmax(x, row, K, T).value, run) && i < |run|
    ensures var r, y := seq(K, k requires 0 <= k < K => x[row * K + k]),
      Written(EmitSoftmax(x, row, K, T).value, run[i].out);
      WithinSoftmax(r, row * K, y) && (Finished(run[i]) ==> WritesSoftmax(r, row * K, y))
    ensures Finished(run[i]) || CanStep(EmitSoftmax(x, row, K, T).value, run[i])
  {
    var kernel := EmitSoftmax(x, row, K, T).value;
    var r := seq(K, k requires 0 <= k < K => x[row * K + k]);
    hide *;
    SoftmaxLaunchable(x, row, K, T);
    RowRead(x, row, K, T, r);
    SoftmaxOutputs(x, row, K, T, run, i, r);
    Placed(kernel, run[i].out, r);
    RunInv(kernel, run, i);
    if !Finished(run[i]) { NeverStuck(kernel, run[i]); }
  }

  // outputs d hold the softmax of r, so the places to + d do
  lemma Placed(K: Kernel<Pair, Value>, out: map<nat, Value>, r: seq<int>)
    requires K.outputs == |r| && forall d :: d in out ==> d < |r| && out[d] == Val(SoftmaxOf(r, d))
    ensures WithinSoftmax(r, K.to, Written(K, out))
    ensures (forall d :: 0 <= d < |r| ==> d in out) ==> WritesSoftmax(r, K.to, Written(K, out))
  {
    hide Written, SoftmaxOf;
    forall a: nat
      ensures a in Written(K, out) <==> a >= K.to && a - K.to in out
      ensures a in Written(K, out) ==> Written(K, out)[a] == out[a - K.to]
    {
      WrittenAt(K, out, a);
    }
  }

  lemma WrittenAt(K: Kernel<Pair, Value>, out: map<nat, Value>, a: nat)
    requires forall d :: d in out ==> d < K.outputs
    ensures a in Written(K, out) <==> a >= K.to && a - K.to in out
    ensures a in Written(K, out) ==> Written(K, out)[a] == out[a - K.to]
  {
  }

  // ---- shorter rows

  predicate IsNaN(p: Pair) {
    p.l.NaN?
  }

  lemma MergePoisons()
    ensures Poisons(Merging(), IsNaN)
  {
    hide Mul, Pow;
    EmptyMergeIsNaN();
  }

  // more than half a warp of threads without an element: nothing but NaN is ever written
  lemma ShortSoftmaxIsNaN(x: seq<int>, row: nat, K: nat, T: nat, run: seq<State<Pair, Value>>, i: nat, a: nat)
    requires InRow(x, row, K) && WholeWarps(T) && K + WARP / 2 < T
    requires IsRun(EmitSoftmax(x, row, K, T).value, run) && i < |run|
    ensures var y := Written(EmitSoftmax(x, row, K, T).value, run[i].out); a in y ==> y[a] == NaN
  {
    var kernel := EmitSoftmax(x, row, K, T).value;
    assert Short(kernel) && kernel.m == Merging() && kernel.finish == Quotients(x, row * K);
    hide Short, IsRun, Poisons, EmitSoftmax, Written, Quotients, Merging;
    if a in Written(kernel, run[i].out) {
      WrittenFrom(kernel, run[i].out, a);
      MergePoisons();
      ShortRunPoisoned(kernel, IsNaN, run, i, a - kernel.to);
      var v :| IsNaN(v) && run[i].out[a - kernel.to] == kernel.finish(v, a - kernel.to);
      PoisonedQuotient(x, row * K, v, a - kernel.to);
    }
  }

  lemma WrittenFrom(K: Kernel<Pair, Value>, out: map<nat, Value>, a: nat)
    requires a in Written(K, out)
    ensures a >= K.to && a - K.to in out && Written(K, out)[a] == out[a - K.to]
  {
  }

  lemma PoisonedQuotient(x: seq<int>, base: nat, v: Pair, d: nat)
    requires IsNaN(v)
    ensures Quotients(x, base)(v, d) == NaN
  {
    if base + d < |x| { assert Quotients(x, base)(v, d) == FDiv(ExpDiff(Lev(x[base + d]), v.m), v.l); }
  }

  // a finished run has written the softmax of its row to its row of the output exactly when at most half a warp of
  // threads had no element, or the row is empty
  lemma SoftmaxExactly(x: seq<int>, row: nat, K: nat, T: nat, run: seq<State<Pair, Value>>, i: nat)
    requires InRow(x, row, K) && WholeWarps(T)
    requires IsRun(EmitSoftmax(x, row, K, T).value, run) && i < |run| && Finished(run[i])
    ensures var r, y := seq(K, k requires 0 <= k < K => x[row * K + k]),
      Written(EmitSoftmax(x, row, K, T).value, run[i].out);
      WritesSoftmax(r, row * K, y) <==> K + WARP / 2 >= T || K == 0
  {
    hide IsRun, Finished, CanStep, EmitSoftmax, SoftmaxOf, Written;
    if K + WARP / 2 >= T {
      SoftmaxCorrect(x, row, K, T, run, i);
    } else if K > 0 {
      ShortSoftmaxIsNaN(x, row, K, T, run, i, row * K);
    }
  }
}
