// The schedule of the source kernel: each coordinate's physical axes become its factors.
module ScheduleSource {
  import opened Recur = RecurrenceExpr
  import opened Schedule
  import opened ScheduleText

  // ---- the physical axes of a coordinate, from text such as "b0 + 2*b1 + 4*i0"

  predicate IsAxisKind(c: char) {
    c == 'b' || c == 'i' || c == 'd'
  }

  // the digits at i, as a 32-bit number, and where they end
  function Number(s: string, i: nat, v: nat): (nat, nat)
    requires i <= |s|
    ensures i <= Number(s, i, v).1 <= |s|
    decreases |s| - i
  {
    if i < |s| && IsDigit(s[i]) then Number(s, i + 1, (v * 10 + DigitValue(s[i])) % WORD32) else (v, i)
  }

  // every axis letter followed by a number, in order
  function Axes(s: string, i: nat): seq<(char, nat)>
    requires i <= |s|
    decreases |s| - i
  {
    if i == |s| then []
    else if IsAxisKind(s[i]) && i + 1 < |s| && IsDigit(s[i + 1]) then
      var (v, j) := Number(s, i + 1, 0);
      assert j > i;
      [(s[i], v)] + Axes(s, j)
    else Axes(s, i + 1)
  }

  // first occurrences only
  function AddAxis(axes: seq<(char, nat)>, a: (char, nat)): seq<(char, nat)> {
    if a in axes then axes else axes + [a]
  }

  function Collect(axes: seq<(char, nat)>, more: seq<(char, nat)>): seq<(char, nat)>
    decreases |more|
  {
    if more == [] then axes else Collect(AddAxis(axes, more[0]), more[1..])
  }

  ghost predicate Distinct(axes: seq<(char, nat)>) {
    forall i, j :: 0 <= i < j < |axes| ==> axes[i] != axes[j]
  }

  method ParsePhys(s: string) returns (axes: seq<(char, nat)>)
    ensures axes == Collect([], Axes(s, 0))
    ensures forall a :: a in axes <==> a in Axes(s, 0)
    ensures Distinct(axes)
  {
    axes := [];
    var i := 0;
    while i < |s|
      invariant 0 <= i <= |s|
      invariant Collect([], Axes(s, 0)) == Collect(axes, Axes(s, i))
    {
      var k := s[i];
      if IsAxisKind(k) && i + 1 < |s| && IsDigit(s[i + 1]) {
        var v: nat, j: nat := 0, i + 1;
        while j < |s| && IsDigit(s[j])
          invariant i < j <= |s| && Number(s, i + 1, 0) == Number(s, j, v)
          decreases |s| - j
        {
          v := (v * 10 + DigitValue(s[j])) % WORD32;
          j := j + 1;
        }
        ghost var more := Axes(s, i);
        assert more == [(k, v)] + Axes(s, j) && more[1..] == Axes(s, j);
        axes := AddAxis(axes, (k, v));
        i := j;
      } else {
        i := i + 1;
      }
    }
    CollectSame([], Axes(s, 0));
  }

  lemma {:induction false} CollectSame(axes: seq<(char, nat)>, more: seq<(char, nat)>)
    requires Distinct(axes)
    ensures forall a :: a in Collect(axes, more) <==> a in axes || a in more
    ensures Distinct(Collect(axes, more))
    decreases |more|
  {
    if more != [] {
      assert more == [more[0]] + more[1..];
      CollectSame(AddAxis(axes, more[0]), more[1..]);
    }
  }

  // ---- the factors of one coordinate

  function CountLow(axes: seq<(char, nat)>): nat {
    if axes == [] then 0 else (if axes[0].0 == 'b' && axes[0].1 < 5 then 1 else 0) + CountLow(axes[1..])
  }

  function CountHigh(axes: seq<(char, nat)>): nat {
    if axes == [] then 0 else (if axes[0].0 == 'b' && axes[0].1 >= 5 then 1 else 0) + CountHigh(axes[1..])
  }

  predicate HasKind(axes: seq<(char, nat)>, kind: char) {
    exists k :: 0 <= k < |axes| && axes[k].0 == kind
  }

  function Power2(n: nat): (p: nat)
    ensures IsPow2(p)
  {
    if n == 0 then 1 else 2 * Power2(n - 1)
  }

  function Min5(n: nat): nat {
    if n < 5 then n else 5
  }

  function PhysOf(P: Program, j: nat): string {
    if j < |P.coordPhys| then P.coordPhys[j] else ""
  }

  // lanes, simdgroups, the iteration and the derived axis; a coordinate with none of them is still bound
  function AxisFactors(P: Program, j: nat, axes: seq<(char, nat)>): seq<Factor>
    requires j < |P.coordNames|
  {
    var name := P.coordNames[j];
    (if CountLow(axes) > 0 then [Factor(name + "_lane", j, Power2(Min5(CountLow(axes))), Lane)] else [])
    + (if CountHigh(axes) > 0 then [Factor(name + "_sg", j, Power2(Min5(CountHigh(axes))), Simdgroup)] else [])
    + (if HasKind(axes, 'i') then [Factor(name + "_k", j, 0, Time)] else [])
    + (if HasKind(axes, 'd') then [Factor(name + "_u", j, 0, Unroll)] else [])
  }

  function BoundAnyway(P: Program, j: nat): Factor
    requires j < |P.coordNames|
  {
    if IsOutput(P, j) then Factor(P.coordNames[j] + "_blk", j, 1, BlockX)
      else Factor(P.coordNames[j] + "_r", j, 1, Time)
  }

  function CoordFactors(P: Program, j: nat): seq<Factor>
    requires j < |P.coordNames|
  {
    var fs := AxisFactors(P, j, Collect([], Axes(PhysOf(P, j), 0)));
    if fs == [] then [BoundAnyway(P, j)] else fs
  }

  function SourceFactors(P: Program, n: nat): seq<Factor>
    requires n <= |P.coordNames|
  {
    if n == 0 then [] else SourceFactors(P, n - 1) + CoordFactors(P, n - 1)
  }

  // the time factors, in order
  function TimeNames(factors: seq<Factor>): seq<string> {
    if factors == [] then []
    else
      var last := factors[|factors| - 1];
      TimeNames(factors[..|factors| - 1]) + (if last.bind.Time? then [last.name] else [])
  }

  // ---- permissions of the whole program

  function Both(p: Permissions, q: Permissions): Permissions {
    Permissions(p.partition && q.partition, p.reorder && q.reorder, p.duplicate && q.duplicate,
      p.treeCombine && q.treeCombine)
  }

  const ALL := Permissions(true, true, true, true)

  datatype Right = Partition | Reorder | Duplicate | TreeCombine

  predicate Gives(p: Permissions, right: Right) {
    match right
    case Partition => p.partition case Reorder => p.reorder case Duplicate => p.duplicate
      case TreeCombine => p.treeCombine
  }

  // what every data loop grants
  predicate Grants(loops: seq<LoopInfo>, right: Right) {
    forall i :: 0 <= i < |loops| && loops[i].anyData ==> Gives(loops[i].permits, right)
  }

  lemma GrantsStep(loops: seq<LoopInfo>, i: nat, right: Right)
    requires i < |loops|
    ensures Grants(loops[..i + 1], right)
      <==> Grants(loops[..i], right) && (loops[i].anyData ==> Gives(loops[i].permits, right))
  {
    hide Gives;
    assert loops[..i + 1] == loops[..i] + [loops[i]];
    forall k | 0 <= k < i ensures loops[..i][k] == loops[..i + 1][k] {}
    assert loops[..i + 1][i] == loops[i];
  }

  function Meet(p: Permissions, loop: LoopInfo): Permissions {
    if loop.anyData then Both(p, loop.permits) else p
  }

  // intersecting with one more loop's permissions
  lemma MeetStep(loops: seq<LoopInfo>, i: nat, p: Permissions)
    requires i < |loops| && forall right :: Gives(p, right) <==> Grants(loops[..i], right)
    ensures forall right :: Gives(Meet(p, loops[i]), right) <==> Grants(loops[..i + 1], right)
  {
    forall right ensures Gives(Meet(p, loops[i]), right) <==> Grants(loops[..i + 1], right) {
      GrantsStep(loops, i, right);
      assert Gives(p, right) <==> Grants(loops[..i], right);
    }
  }

  method ProgramPermits(P: Program) returns (p: Permissions)
    ensures forall right :: Gives(p, right) <==> Grants(P.loops, right)
  {
    p := ALL;
    var any := false;
    for i := 0 to |P.loops|
      invariant !any ==> p == ALL && forall k :: 0 <= k < i ==> !P.loops[k].anyData
      invariant forall right :: Gives(p, right) <==> Grants(P.loops[..i], right)
    {
      MeetStep(P.loops, i, p);
      ghost var met := Meet(p, P.loops[i]);
      if P.loops[i].anyData {
        p := if !any then P.loops[i].permits else Both(p, P.loops[i].permits);
        any := true;
      }
      assert p == met;
    }
    assert P.loops[..|P.loops|] == P.loops;
  }

  predicate HasAlgebra(P: Program, a: Algebra) {
    exists i :: 0 <= i < |P.loops| && a in P.loops[i].algebra
  }

  predicate AnyReduction(P: Program) {
    exists i :: 0 <= i < |P.coordOutput| && !P.coordOutput[i]
  }

  // ---- the source schedule

  function InDeviceAll(n: nat): (r: seq<AccessStorage>) {
    seq(n, t requires 0 <= t < n => AccessStorage(t, InDevice, 0, 0))
  }

  ghost function SourceStage(P: Program): Stage {
    var factors := if P.coordNames == [] then [Factor("c0_lane", 0, 32, Lane)] else SourceFactors(P, |P.coordNames|);
    DEFAULT_STAGE.(factors := factors, order := if P.coordNames == [] then [] else TimeNames(factors),
      storage := InDeviceAll(|P.tensors|),
      exchange := if AnyReduction(P) && Grants(P.loops, Partition) then ShuffleTree else NoExchange,
      engine := if HasAlgebra(P, TensorSum) then TensorOp else ScalarFma,
      prefetch := IterationStart, predicate_ := if P.guards == 0 then NoPredicate else Branch)
  }

  ghost function Source(P: Program): Sched {
    Sched(P.kernel, "source", [SourceStage(P)])
  }

  lemma {:induction false} TimeNamesConcat(a: seq<Factor>, b: seq<Factor>)
    ensures TimeNames(a + b) == TimeNames(a) + TimeNames(b)
    decreases |b|
  {
    if b == [] {
      assert a + b == a;
    } else {
      assert (a + b)[..|a + b| - 1] == a + b[..|b| - 1];
      TimeNamesConcat(a, b[..|b| - 1]);
    }
  }

  // the axes counted, as the loop over them does
  method CountAxes(axes: seq<(char, nat)>) returns (lo: nat, hi: nat, iter: bool, derived: bool)
    ensures lo == CountLow(axes) && hi == CountHigh(axes) && iter == HasKind(axes, 'i') && derived == HasKind(axes, 'd')
  {
    lo, hi, iter, derived := 0, 0, false, false;
    for k := 0 to |axes|
      invariant CountLow(axes) == lo + CountLow(axes[k..]) && CountHigh(axes) == hi + CountHigh(axes[k..])
      invariant iter <==> exists i :: 0 <= i < k && axes[i].0 == 'i'
      invariant derived <==> exists i :: 0 <= i < k && axes[i].0 == 'd'
    {
      var a := axes[k];
      assert axes[k..][0] == a && axes[k..][1..] == axes[k + 1..];
      if a.0 == 'b' {
        if a.1 < 5 { lo := lo + 1; } else { hi := hi + 1; }
      } else if a.0 == 'i' {
        iter := true;
      } else if a.0 == 'd' {
        derived := true;
      }
    }
  }

  method FindAlgebra(P: Program, a: Algebra) returns (found: bool)
    ensures found <==> HasAlgebra(P, a)
  {
    for i := 0 to |P.loops|
      invariant forall k :: 0 <= k < i ==> a !in P.loops[k].algebra
    {
      if a in P.loops[i].algebra { return true; }
    }
    return false;
  }

  method FindReduction(P: Program) returns (any: bool)
    ensures any <==> AnyReduction(P)
  {
    any := false;
    for i := 0 to |P.coordOutput|
      invariant any <==> exists k :: 0 <= k < i && !P.coordOutput[k]
    {
      if !P.coordOutput[i] { any := true; }
    }
  }

  method SourceSchedule(P: Program) returns (S: Sched)
    requires ValidProgram(P)
    ensures S == Source(P)
  {
    hide Axes, Collect, CountLow, CountHigh, HasKind, Grants, HasAlgebra, AnyReduction;
    var permits := ProgramPermits(P);
    var factors: seq<Factor> := [];
    var order: seq<string> := [];
    for j := 0 to |P.coordNames|
      invariant factors == SourceFactors(P, j) && order == TimeNames(factors)
    {
      var axes := ParsePhys(PhysOf(P, j));
      var mine := AddFactors(P, j, axes);
      var time := TimeOf(mine);
      TimeNamesConcat(factors, mine);
      factors := factors + mine;
      order := order + time;
    }
    if P.coordNames == [] { factors := [Factor("c0_lane", 0, 32, Lane)]; }
    var anyR := FindReduction(P);
    var tensors := FindAlgebra(P, TensorSum);
    var storage: seq<AccessStorage> := [];
    for t := 0 to |P.tensors|
      invariant |storage| == t && forall k :: 0 <= k < t ==> storage[k] == AccessStorage(k, InDevice, 0, 0)
    {
      storage := storage + [AccessStorage(t, InDevice, 0, 0)];
    }
    assert storage == InDeviceAll(|P.tensors|);
    var st := DEFAULT_STAGE.(factors := factors, order := order, storage := storage,
      exchange := if anyR && Gives(permits, Partition) then ShuffleTree else NoExchange,
      engine := if tensors then TensorOp else ScalarFma,
      prefetch := IterationStart, predicate_ := if P.guards == 0 then NoPredicate else Branch);
    S := Sched(P.kernel, "source", [st]);
  }

  // one coordinate's factors, axis by axis
  method AddFactors(P: Program, j: nat, axes: seq<(char, nat)>) returns (fs: seq<Factor>)
    requires j < |P.coordNames| && axes == Collect([], Axes(PhysOf(P, j), 0))
    ensures fs == CoordFactors(P, j)
  {
    hide Axes, Collect, CountLow, CountHigh, HasKind, Power2, PhysOf, IsPow2, BoundAnyway;
    var lo, hi, iter, derived := CountAxes(axes);
    var name := P.coordNames[j];
    fs := [];
    if lo > 0 { fs := fs + [Factor(name + "_lane", j, Power2(Min5(lo)), Lane)]; }
    if hi > 0 { fs := fs + [Factor(name + "_sg", j, Power2(Min5(hi)), Simdgroup)]; }
    if iter { fs := fs + [Factor(name + "_k", j, 0, Time)]; }
    if derived { fs := fs + [Factor(name + "_u", j, 0, Unroll)]; }
    if fs == [] { fs := [BoundAnyway(P, j)]; }
  }

  method TimeOf(fs: seq<Factor>) returns (names: seq<string>)
    ensures names == TimeNames(fs)
  {
    names := [];
    for k := 0 to |fs|
      invariant names == TimeNames(fs[..k])
    {
      assert fs[..k + 1][..k] == fs[..k];
      if fs[k].bind.Time? { names := names + [fs[k].name]; }
    }
    assert fs[..|fs|] == fs;
  }

  // ---- the source schedule is well-formed

  // the end of a factor's name, told by how it is bound
  function Suffix(f: Factor): string {
    match f.bind
    case Lane => "_lane" case Simdgroup => "_sg" case Unroll => "_u" case BlockX => "_blk"
    case _ => if f.size == 0 then "_k" else "_r"
  }

  predicate Suffixes(s: string) {
    s == "_lane" || s == "_sg" || s == "_u" || s == "_blk" || s == "_k" || s == "_r"
  }

  // names built from distinct coordinates or distinct suffixes differ
  lemma NamesDiffer(a: string, s: string, b: string, t: string)
    requires Suffixes(s) && Suffixes(t) && a + s == b + t
    ensures a == b && s == t
  {
    var x := a + s;
    assert x[|x| - 1] == s[|s| - 1] == t[|t| - 1];
    assert x[|x| - 2] == s[|s| - 2] == t[|t| - 2];
    assert s == t;
    assert x[..|a|] == a && x[..|b|] == b;
  }

  ghost predicate Built(P: Program, f: Factor) {
    f.coord < |P.coordNames| && Suffixes(Suffix(f)) && f.name == P.coordNames[f.coord] + Suffix(f) && SplitSize(f.size)
  }

  lemma CoordBuilt(P: Program, j: nat)
    requires j < |P.coordNames|
    ensures var fs := CoordFactors(P, j);
      fs != [] && (forall i :: 0 <= i < |fs| ==> Built(P, fs[i]) && fs[i].coord == j)
      && forall i, k :: 0 <= i < k < |fs| ==> Suffix(fs[i]) != Suffix(fs[k])
  {
    hide Axes, Collect, CountLow, CountHigh, HasKind, Min5, IsPow2;
    assert IsPow2(1) by { OneIsPow2(); }
  }

  lemma OneIsPow2()
    ensures IsPow2(1)
  {
  }

  ghost predicate AllBuilt(P: Program, fs: seq<Factor>, low: nat, high: nat) {
    forall i :: 0 <= i < |fs| ==> Built(P, fs[i]) && low <= fs[i].coord < high
  }

  ghost predicate DistinctFactors(fs: seq<Factor>) {
    forall i, k :: 0 <= i < k < |fs| ==> fs[i].name != fs[k].name
  }

  ghost predicate CoversTo(fs: seq<Factor>, n: nat) {
    forall c :: 0 <= c < n ==> Covers(fs, c)
  }

  lemma {:induction false} SourceBuilt(P: Program, n: nat)
    requires DistinctNames(P.coordNames) && n <= |P.coordNames|
    ensures AllBuilt(P, SourceFactors(P, n), 0, n) && DistinctFactors(SourceFactors(P, n))
      && CoversTo(SourceFactors(P, n), n)
  {
    hide *;
    if n == 0 {
      NothingBuilt(P);
    } else {
      SourceBuilt(P, n - 1);
      CoordDistinct(P, n - 1);
      SourceAppend(P, n - 1, SourceFactors(P, n - 1), CoordFactors(P, n - 1));
      SourceStep(P, n);
    }
  }

  lemma NothingBuilt(P: Program)
    ensures SourceFactors(P, 0) == [] && AllBuilt(P, [], 0, 0) && DistinctFactors([]) && CoversTo([], 0)
  {
    hide CoordFactors, Built, Covers;
  }

  lemma SourceStep(P: Program, n: nat)
    requires 0 < n <= |P.coordNames|
    ensures SourceFactors(P, n) == SourceFactors(P, n - 1) + CoordFactors(P, n - 1)
  {
    hide CoordFactors;
  }

  lemma CoordDistinct(P: Program, j: nat)
    requires j < |P.coordNames|
    ensures CoordFactors(P, j) != [] && AllBuilt(P, CoordFactors(P, j), j, j + 1) && DistinctFactors(CoordFactors(P, j))
  {
    CoordBuilt(P, j);
    var fs := CoordFactors(P, j);
    hide CoordFactors, Suffix, Suffixes, IsPow2;
    forall i, k | 0 <= i < k < |fs| ensures fs[i].name != fs[k].name {
      if fs[i].name == fs[k].name { NamesDiffer(P.coordNames[j], Suffix(fs[i]), P.coordNames[j], Suffix(fs[k])); }
    }
  }

  lemma SourceAppend(P: Program, j: nat, a: seq<Factor>, b: seq<Factor>)
    requires DistinctNames(P.coordNames) && j < |P.coordNames| && b != []
    requires AllBuilt(P, a, 0, j) && AllBuilt(P, b, j, j + 1) && DistinctFactors(a) && DistinctFactors(b)
      && CoversTo(a, j)
    ensures AllBuilt(P, a + b, 0, j + 1) && DistinctFactors(a + b) && CoversTo(a + b, j + 1)
  {
    hide Suffix, Suffixes, IsPow2;
    forall i, k | 0 <= i < |a| && 0 <= k < |b| ensures a[i].name != b[k].name {
      assert Built(P, a[i]) && Built(P, b[k]);
      if a[i].name == b[k].name { NamesDiffer(P.coordNames[a[i].coord], Suffix(a[i]), P.coordNames[j], Suffix(b[k])); }
    }
    forall c | 0 <= c < j + 1 ensures Covers(a + b, c) {
      if c < j {
        assert Covers(a, c);
        var i :| 0 <= i < |a| && a[i].coord == c;
        assert (a + b)[i].coord == c;
      } else {
        assert (a + b)[|a|] == b[0];
      }
    }
  }

  lemma {:induction false} TimeNamesNamed(factors: seq<Factor>, n: nat)
    requires n <= |factors|
    ensures forall k :: 0 <= k < |TimeNames(factors[..n])| ==> Names(factors, TimeNames(factors[..n])[k])
  {
    if n > 0 {
      assert factors[..n][..n - 1] == factors[..n - 1];
      TimeNamesNamed(factors, n - 1);
    }
  }

  // distinct coordinate names are all it takes
  lemma SourceWellFormed(P: Program)
    requires ValidProgram(P)
    ensures WellFormed(P, Source(P))
  {
    hide *;
    SourceFactorsOk(P);
    SourceStageOk(P);
  }

  lemma SourceFactorsOk(P: Program)
    requires ValidProgram(P)
    ensures FactorsOk(P, SourceStage(P).factors)
  {
    hide *;
    StageFactors(P);
    if P.coordNames == [] {
      LaneAloneOk(P);
    } else {
      NamesOfValid(P);
      SourceBuilt(P, |P.coordNames|);
      BuiltOk(P, SourceFactors(P, |P.coordNames|));
    }
  }

  lemma StageFactors(P: Program)
    ensures SourceStage(P).factors
         == if P.coordNames == [] then [Factor("c0_lane", 0, 32, Lane)] else SourceFactors(P, |P.coordNames|)
  {
    hide SourceFactors, Grants, HasAlgebra, TimeNames, InDeviceAll, AnyReduction;
  }

  lemma NamesOfValid(P: Program)
    requires ValidProgram(P)
    ensures DistinctNames(P.coordNames)
  {
  }

  lemma LaneAloneOk(P: Program)
    requires P.coordNames == []
    ensures FactorsOk(P, [Factor("c0_lane", 0, 32, Lane)])
  {
    hide IsPow2, Covers;
    ThirtyTwo();
  }

  lemma BuiltOk(P: Program, fs: seq<Factor>)
    requires AllBuilt(P, fs, 0, |P.coordNames|) && DistinctFactors(fs) && CoversTo(fs, |P.coordNames|)
    ensures FactorsOk(P, fs)
  {
    hide Suffixes, Suffix, SplitSize, Covers;
    forall i | 0 <= i < |fs| ensures fs[i].coord < |P.coordNames| && SplitSize(fs[i].size) {
      assert Built(P, fs[i]);
    }
  }

  lemma SourceStageOk(P: Program)
    requires FactorsOk(P, SourceStage(P).factors)
    ensures WellFormed(P, Source(P))
  {
    var st := SourceStage(P);
    TimeNamesNamed(st.factors, |st.factors|);
    hide SourceFactors, Grants, HasAlgebra, TimeNames, FactorsOk, Names;
    assert st.factors[..|st.factors|] == st.factors;
    assert OrderOk(st) && LimitsOk(st);
  }

  lemma ThirtyTwo()
    ensures IsPow2(32)
  {
    assert IsPow2(1);
    assert IsPow2(2) && IsPow2(4);
    assert IsPow2(8) && IsPow2(16);
  }
}
