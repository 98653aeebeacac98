// When the schedule of the source kernel is itself legal, read off the program.
module SourceLegality {
  import opened RecurrenceExpr
  import opened Schedule
  import opened ScheduleSource
  import opened Legality

  function AxesOf(P: Program, j: nat): seq<(char, nat)> {
    Collect([], Axes(PhysOf(P, j), 0))
  }

  // a coordinate with an axis on lanes or simdgroups
  predicate Laned(P: Program, j: nat) {
    CountLow(AxesOf(P, j)) > 0 || CountHigh(AxesOf(P, j)) > 0
  }

  // a coordinate with a derived axis
  predicate Derived(P: Program, j: nat) {
    HasKind(AxesOf(P, j), 'd')
  }

  predicate ReducesAt(P: Program, j: nat) {
    j < |P.coordOutput| && !P.coordOutput[j]
  }

  // the kernel splits a reduction over its threads; a kernel without coordinates is one lane of coordinate 0
  predicate SplitsReduction(P: Program) {
    if P.coordNames == [] then ReducesAt(P, 0) else exists j ::
      0 <= j < |P.coordNames| && ReducesAt(P, j) && Laned(P, j)
  }

  // the kernel unrolls a reduction
  predicate DerivesReduction(P: Program) {
    exists j :: 0 <= j < |P.coordNames| && ReducesAt(P, j) && Derived(P, j)
  }

  // ---- the factors of the source schedule

  ghost predicate Sourced(P: Program, n: nat, f: Factor)
    requires n <= |P.coordNames|
  {
    exists j :: 0 <= j < n && f in CoordFactors(P, j)
  }

  lemma {:induction false} InSource(P: Program, n: nat, f: Factor)
    requires n <= |P.coordNames|
    ensures f in SourceFactors(P, n) <==> Sourced(P, n, f)
  {
    hide CoordFactors, SourceFactors;
    if n == 0 {
      NothingBuilt(P);
    } else {
      InSource(P, n - 1, f);
      SourceStep(P, n);
    }
  }

  lemma FactorKinds(P: Program, j: nat, f: Factor)
    requires j < |P.coordNames| && f in CoordFactors(P, j)
    ensures !f.bind.Replicate? && f.coord == j
    ensures Parallel(f.bind) ==> f.bind.Lane? || f.bind.Simdgroup? || f.bind.BlockX?
    ensures f.bind.Lane? || f.bind.Simdgroup? ==> Laned(P, j)
    ensures f.bind.BlockX? ==> IsOutput(P, j)
    ensures f.bind.Unroll? ==> Derived(P, j)
  {
    hide Axes, Collect, CountLow, CountHigh, HasKind, Power2, Min5, PhysOf, IsOutput;
  }

  lemma LanedFactor(P: Program, j: nat) returns (f: Factor)
    requires j < |P.coordNames| && Laned(P, j)
    ensures f in CoordFactors(P, j) && f.coord == j && Parallel(f.bind)
  {
    hide Axes, Collect, CountLow, CountHigh, HasKind, Power2, Min5, PhysOf, IsOutput;
    f := CoordFactors(P, j)[0];
  }

  lemma DerivedFactor(P: Program, j: nat) returns (f: Factor)
    requires j < |P.coordNames| && Derived(P, j)
    ensures f in CoordFactors(P, j) && f.coord == j && f.bind.Unroll?
  {
    hide Axes, Collect, CountLow, CountHigh, HasKind, Power2, Min5, PhysOf, IsOutput;
    var fs := CoordFactors(P, j);
    f := fs[|fs| - 1];
  }

  // the search calls an output what the laws do not call a reduction
  lemma OutputsDoNotReduce(P: Program, f: Factor)
    requires ValidProgram(P) && f.coord < |P.coordNames|
    ensures IsOutput(P, f.coord) <==> !Reduces(P, f)
  {
  }

  // ---- law by law

  lemma StageShape(P: Program)
    ensures var st := SourceStage(P);
      && (st.exchange.NoExchange? <==> !(AnyReduction(P) && Grants(P.loops, Partition))) && !st.exchange.Atomic?
      && (st.engine.TensorOp? ==> IsContraction(P)) && (st.predicate_.NoPredicate? <==> P.guards == 0)
      && st.smemBytes == 0 && st.threadScale == 1 && st.fusedWith == []
  {
    hide SourceFactors, Grants, HasAlgebra, AnyReduction, TimeNames, InDeviceAll;
  }

  lemma NoReplica(P: Program)
    requires ValidProgram(P)
    ensures Coverage(P, SourceStage(P)) && !HasReplica(SourceStage(P))
  {
    hide *;
    StageFactors(P);
    SourceFactorsOk(P);
    forall f | f in SourceStage(P).factors ensures !f.bind.Replicate? {
      if P.coordNames != [] { PlacedFactor(P, f); }
    }
    Covering(P, SourceStage(P));
  }

  // a factor of a named coordinate
  lemma PlacedFactor(P: Program, f: Factor)
    requires P.coordNames != [] && f in SourceFactors(P, |P.coordNames|)
    ensures f.coord < |P.coordNames| && f in CoordFactors(P, f.coord) && !f.bind.Replicate?
  {
    hide CoordFactors, SourceFactors;
    InSource(P, |P.coordNames|, f);
    var j :| 0 <= j < |P.coordNames| && f in CoordFactors(P, j);
    FactorKinds(P, j, f);
  }

  lemma Covering(P: Program, st: Stage)
    requires FactorsOk(P, st.factors) && forall f :: f in st.factors ==> !f.bind.Replicate?
    ensures Coverage(P, st) && !HasReplica(st)
  {
    hide SplitSize;
    forall j | 0 <= j < |P.coordNames| ensures Owned(st, j) {
      assert Covers(st.factors, j);
      var k :| 0 <= k < |st.factors| && st.factors[k].coord == j;
      assert st.factors[k] in st.factors;
    }
    assert forall k :: 0 <= k < |st.factors| ==> st.factors[k] in st.factors;
  }

  lemma SplitCombines(P: Program, p: Permissions)
    requires ValidProgram(P) && p == Permitted(P)
    ensures PartialCombine(P, SourceStage(P), p) <==> (SplitsReduction(P) ==> Granted(P, Partition))
  {
    hide SourceStage, SourceFactors, CoordFactors, AnyReduction, Laned, Grants, DistinctNames;
    StageFactors(P);
    StageShape(P);
    var st := SourceStage(P);
    if Granted(P, Partition) {
      forall k | 0 <= k < |st.factors| ensures CombineOk(P, st, st.factors[k], p) {
        if Reduces(P, st.factors[k]) { ReductionSomewhere(P, st.factors[k].coord); }
      }
    } else if SplitsReduction(P) {
      var f := SplitFactor(P);
      var k :| 0 <= k < |st.factors| && st.factors[k] == f;
      assert !CombineOk(P, st, st.factors[k], p);
    } else {
      forall k | 0 <= k < |st.factors| ensures CombineOk(P, st, st.factors[k], p) {
        UnsplitFactor(P, st.factors[k]);
      }
    }
  }

  lemma ReductionSomewhere(P: Program, j: nat)
    requires ReducesAt(P, j)
    ensures AnyReduction(P)
  {
  }

  lemma SplitFactor(P: Program) returns (f: Factor)
    requires ValidProgram(P) && SplitsReduction(P)
    ensures f in SourceStage(P).factors && Reduces(P, f) && Parallel(f.bind)
  {
    hide SourceStage, SourceFactors, CoordFactors, Laned, DistinctNames;
    StageFactors(P);
    if P.coordNames == [] {
      f := SourceStage(P).factors[0];
    } else {
      var j :| 0 <= j < |P.coordNames| && ReducesAt(P, j) && Laned(P, j);
      f := LanedFactor(P, j);
      InSource(P, |P.coordNames|, f);
    }
  }

  lemma UnsplitFactor(P: Program, f: Factor)
    requires ValidProgram(P) && !SplitsReduction(P) && f in SourceStage(P).factors
    ensures !(Reduces(P, f) && Parallel(f.bind))
  {
    hide SourceStage, SourceFactors, CoordFactors, Laned, DistinctNames;
    StageFactors(P);
    if P.coordNames != [] {
      PlacedFactor(P, f);
      FactorKinds(P, f.coord, f);
    }
  }

  lemma UnrollsExactly(P: Program)
    requires ValidProgram(P)
    ensures UnrollsReduction(P, SourceStage(P)) <==> DerivesReduction(P)
  {
    hide SourceStage, SourceFactors, CoordFactors, Derived, DistinctNames;
    StageFactors(P);
    var st := SourceStage(P);
    if DerivesReduction(P) {
      var j :| 0 <= j < |P.coordNames| && ReducesAt(P, j) && Derived(P, j);
      var f := DerivedFactor(P, j);
      InSource(P, |P.coordNames|, f);
      var k :| 0 <= k < |st.factors| && st.factors[k] == f;
      assert Reduces(P, st.factors[k]) && st.factors[k].bind.Unroll?;
    }
    if UnrollsReduction(P, st) {
      var k :| 0 <= k < |st.factors| && Reduces(P, st.factors[k]) && st.factors[k].bind.Unroll?;
      if P.coordNames != [] {
        PlacedFactor(P, st.factors[k]);
        FactorKinds(P, st.factors[k].coord, st.factors[k]);
      }
    }
  }

  lemma LawsOfOne(P: Program, S: Sched, p: Permissions)
    requires |S.stages| == 1
    ensures AllLaws(P, S, p) <==> GlobalLaw(P, 10) && GlobalLaw(P, 13) && forall n: nat :: 1 <= n <= 8 ==>
      StageLaw(P, S, p, n, S.stages[0])
  {
    hide Coverage, Duplication, PartialCombine, DependencyOrder, EffectOrder, Guarded, NumericalClass, Resources;
    if AllLaws(P, S, p) {
      assert Law(P, S, p, 10) && Law(P, S, p, 13);
      forall n: nat | 1 <= n <= 8 ensures StageLaw(P, S, p, n, S.stages[0]) { assert Law(P, S, p, n); }
    }
    if GlobalLaw(P, 10) && GlobalLaw(P, 13) && forall n: nat :: 1 <= n <= 8 ==> StageLaw(P, S, p, n, S.stages[0]) {
      forall n: nat | IsLaw(n) ensures Law(P, S, p, n) {
        assert n <= 8 || n == 9 || n == 10 || n == 13;
      }
    }
  }

  // the six laws the source schedule always keeps, and what the other two come to
  lemma SourceLaws(P: Program, p: Permissions)
    requires ValidProgram(P) && p == Permitted(P)
    ensures var S := Source(P); var st := SourceStage(P);
      && (forall n: nat :: 1 <= n <= 8 && n != 3 && n != 7 ==> StageLaw(P, S, p, n, st))
      && (StageLaw(P, S, p, 3, st) <==> (SplitsReduction(P) ==> Granted(P, Partition)))
      && (StageLaw(P, S, p, 7, st) <==> (DerivesReduction(P) ==> Granted(P, Reorder)))
  {
    hide SourceStage, Source, ValidProgram, SplitsReduction, DerivesReduction, Granted, Coverage, PartialCombine,
        HasReplica, UnrollsReduction, IsContraction;
    StageShape(P);
    NoReplica(P);
    UnreplicatedDuplicates(SourceStage(P), p);
    SplitCombines(P, p);
    UnrollsExactly(P);
  }

  lemma UnreplicatedDuplicates(st: Stage, p: Permissions)
    ensures !HasReplica(st) ==> Duplication(st, p)
  {
  }

  // exactly when the source schedule is legal
  lemma SourceLegal(P: Program)
    requires ValidProgram(P)
    ensures Legal(P, Source(P)) <==>
      P.unfitted == 0 && P.numClass in {"", "inherit", "explicit-budget"}
      && (SplitsReduction(P) ==> Granted(P, Partition)) && (DerivesReduction(P) ==> Granted(P, Reorder))
  {
    hide SourceStage, WellFormed, ValidProgram, SplitsReduction, DerivesReduction, Granted, Permitted, StageLaw,
        AllLaws;
    SourceWellFormed(P);
    SourceLaws(P, Permitted(P));
    LawsOfOne(P, Source(P), Permitted(P));
    GlobalLaws(P);
    var S, st, p := Source(P), SourceStage(P), Permitted(P);
    assert S.stages[0] == st;
    assert AllLaws(P, S, p) ==> StageLaw(P, S, p, 3, S.stages[0]) && StageLaw(P, S, p, 7, S.stages[0]);
    assert StageLaw(P, S, p, 3, st) && StageLaw(P, S, p, 7, st) ==> forall n: nat :: 1 <= n <= 8 ==>
      StageLaw(P, S, p, n, st);
  }
}
