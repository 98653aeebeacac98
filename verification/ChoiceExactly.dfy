// When the choice is the cheapest legal schedule within reach whatever the costs. Legality is looked at only after the
// cut to a window, so illegal schedules can push every legal edit out of it: exactly when there are enough of them.
module ChoiceExactly {
  import R = RecurrenceExpr
  import opened Schedule
  import opened ScheduleParse
  import opened ScheduleSource
  import ScheduleText
  import opened ScheduleSearch
  import opened Legality
  import opened SourceLegality
  import opened EngineChoice

  // a legal schedule within reach is not passed over
  ghost predicate IsCheapest(P: Program, depth: nat, cost: CostModel, best: Candidate, legal: bool) {
    forall S :: Considered(Source(P), depth, S) && Legal(P, S) ==> legal && best.cost <= cost(S)
  }

  ghost function Reach(src: Sched, depth: nat): set<Sched> {
    (if depth == 0 then {} else Reach(src, depth - 1)) + set S | S in Level(src, depth)
  }

  lemma {:induction false} ReachIs(src: Sched, depth: nat, S: Sched)
    ensures S in Reach(src, depth) <==> Considered(src, depth, S)
  {
    hide Level;
    if depth > 0 {
      ReachIs(src, depth - 1, S);
      if Considered(src, depth - 1, S) {
        var d :| 0 <= d <= depth - 1 && S in Level(src, d);
        assert d <= depth;
      }
    }
  }

  // the illegal schedules within reach, the source aside
  ghost function IllegalEdits(P: Program, depth: nat): set<Sched> {
    set S | S in Reach(Source(P), depth) && S != Source(P) && !Legal(P, S)
  }

  ghost predicate IsIllegalEdit(P: Program, depth: nat, S: Sched) {
    Considered(Source(P), depth, S) && S != Source(P) && !Legal(P, S)
  }

  lemma IllegalEditsAre(P: Program, depth: nat, S: Sched)
    ensures S in IllegalEdits(P, depth) <==> IsIllegalEdit(P, depth, S)
  {
    hide Legal, Source, Reach, Considered;
    ReachIs(Source(P), depth, S);
  }

  ghost predicate IsLegalEdit(P: Program, depth: nat, S: Sched) {
    Considered(Source(P), depth, S) && S != Source(P) && Legal(P, S)
  }

  ghost predicate HasLegalEdit(P: Program, depth: nat) {
    exists S :: IsLegalEdit(P, depth, S)
  }

  // beside the source and all illegal edits the window has a place for a legal one, or none is needed
  ghost predicate WideEnough(P: Program, depth: nat, width: nat) {
    |IllegalEdits(P, depth)| + 1 < width || !HasLegalEdit(P, depth)
  }

  // ---- counting a window

  ghost function Schedules(cands: seq<Candidate>): set<Sched> {
    set i | 0 <= i < |cands| :: cands[i].S
  }

  lemma {:induction false} WindowSize(cands: seq<Candidate>)
    ensures |Schedules(cands)| <= |cands|
    ensures DistinctTexts(cands) ==> |Schedules(cands)| == |cands|
    decreases |cands|
  {
    hide Canon;
    if cands != [] {
      var n := |cands| - 1;
      WindowSize(cands[..n]);
      assert Schedules(cands) == Schedules(cands[..n]) + {cands[n].S};
      if DistinctTexts(cands) {
        assert DistinctTexts(cands[..n]);
        assert cands[n].S !in Schedules(cands[..n]);
      }
    }
  }

  lemma SubsetSize<T>(a: set<T>, b: set<T>)
    requires a <= b
    ensures |a| <= |b|
    decreases |a|
  {
    if a != {} {
      var x :| x in a;
      SubsetSize(a - {x}, b - {x});
    }
  }

  lemma HoldsIs(cands: seq<Candidate>, S: Sched)
    ensures Holds(cands, S) <==> S in Schedules(cands)
  {
  }

  // ---- a wide enough window is enough

  lemma LegalHeld(P: Program, depth: nat, width: nat, cost: CostModel, cands: seq<Candidate>, best: Candidate,
      legal: bool, S: Sched)
    requires Outcome(P, depth, width, cost, cands, best, legal) && Legal(P, S) && Holds(cands, S)
    ensures legal && best.cost <= cost(S)
  {
    hide *;
    OutcomeParts(P, depth, width, cost, cands, best, legal);
    HeldBeaten(P, Source(P), depth, cost, cands, best, legal, S);
  }

  lemma OutcomeParts(P: Program, depth: nat, width: nat, cost: CostModel, cands: seq<Candidate>, best: Candidate,
      legal: bool)
    requires Outcome(P, depth, width, cost, cands, best, legal)
    ensures Genuine(P, Source(P), depth, cost, cands) && DistinctTexts(cands) && Holds(cands, Source(P))
      && |cands| <= width
    ensures AllWeighed(Source(P), depth, cost, cands) && (|cands| < width ==> AllSeen(Source(P), depth, cands))
    ensures best in cands && (legal <==> Legal(P, best.S)) && (legal <==> SomeLegal(P, cands, |cands|))
    ensures legal ==> Beats(P, cands, |cands|, best)
    ensures !legal ==> best.S == Source(P)
  {
    hide Genuine, DistinctTexts, Holds, AllWeighed, AllSeen, Legal, SomeLegal, Beats, Source;
  }

  lemma CandidateReached(P: Program, depth: nat, cost: CostModel, cands: seq<Candidate>, S: Sched)
    requires Genuine(P, Source(P), depth, cost, cands) && Holds(cands, S)
    ensures Considered(Source(P), depth, S) && Candidate(S, cost(S)) in cands
  {
    hide Considered, WellFormed, Source;
    var i :| 0 <= i < |cands| && cands[i].S == S;
    assert IsGenuine(P, Source(P), depth, cost, cands[i]);
    assert cands[i] == Candidate(S, cost(S));
  }

  // a window of the source and illegal edits alone is not full
  lemma OnlyIllegal(P: Program, depth: nat, cost: CostModel, cands: seq<Candidate>)
    requires Genuine(P, Source(P), depth, cost, cands) && DistinctTexts(cands)
    requires forall S :: Holds(cands, S) ==> S == Source(P) || !Legal(P, S)
    ensures |cands| <= |IllegalEdits(P, depth)| + 1
  {
    hide Genuine, DistinctTexts, Holds, Legal, Source, IllegalEdits, Considered, Schedules;
    WindowSize(cands);
    forall S | S in Schedules(cands) ensures S in IllegalEdits(P, depth) + {Source(P)} {
      HoldsIs(cands, S);
      CandidateReached(P, depth, cost, cands, S);
      IllegalEditsAre(P, depth, S);
    }
    SubsetSize(Schedules(cands), IllegalEdits(P, depth) + {Source(P)});
  }

  lemma DearerBounds(cands: seq<Candidate>, src: Sched, c: Candidate, bound: real)
    requires Dearer(cands, src, bound) && c in cands && c.S != src
    ensures c.cost <= bound
  {
  }

  lemma WideIsEnough(P: Program, depth: nat, width: nat, cost: CostModel, cands: seq<Candidate>, best: Candidate,
      legal: bool)
    requires Printable(Source(P)) && WideEnough(P, depth, width) && Outcome(P, depth, width, cost, cands, best, legal)
    ensures IsCheapest(P, depth, cost, best, legal)
  {
    hide Outcome, Printable, Considered, Legal, Source, Holds, HasLegalEdit, IllegalEdits;
    forall S | Considered(Source(P), depth, S) && Legal(P, S) ensures legal && best.cost <= cost(S) {
      WideForOne(P, depth, width, cost, cands, best, legal, S);
    }
  }

  lemma WideForOne(P: Program, depth: nat, width: nat, cost: CostModel, cands: seq<Candidate>, best: Candidate,
      legal: bool, S: Sched)
    requires Printable(Source(P)) && WideEnough(P, depth, width) && Outcome(P, depth, width, cost, cands, best, legal)
    requires Considered(Source(P), depth, S) && Legal(P, S)
    ensures legal && best.cost <= cost(S)
  {
    hide Outcome, Printable, Considered, Legal, Source, Holds, IllegalEdits, Genuine, DistinctTexts, AllWeighed,
        AllSeen, SomeLegal, Beats, Dearer;
    OutcomeParts(P, depth, width, cost, cands, best, legal);
    if Holds(cands, S) {
      LegalHeld(P, depth, width, cost, cands, best, legal, S);
    } else if R :| Holds(cands, R) && R != Source(P) && Legal(P, R) {
      CandidateReached(P, depth, cost, cands, R);
      LegalHeld(P, depth, width, cost, cands, best, legal, R);
      NothingLost(Source(P), depth, cost, cands, S);
      DearerBounds(cands, Source(P), Candidate(R, cost(R)), cost(S));
    } else {
      assert IsLegalEdit(P, depth, S);
      OnlyIllegal(P, depth, cost, cands);
      EverythingReturned(P, Source(P), depth, cost, cands, S);
      assert false;
    }
  }

  // ---- in a narrower one some costs hide every legal edit

  // illegal edits for nothing, one legal edit cheap, the rest dear
  ghost function Misleading(bad: set<Sched>, good: Sched): CostModel {
    (S: Sched) => if S in bad then 0.0 else if S == good then 1.0 else 2.0
  }

  lemma MisleadingAt(bad: set<Sched>, good: Sched, S: Sched)
    ensures Misleading(bad, good)(S) == if S in bad then 0.0 else if S == good then 1.0 else 2.0
  {
  }

  // the legal edit is in no window
  lemma EditMissed(P: Program, depth: nat, width: nat, good: Sched, cands: seq<Candidate>, best: Candidate, legal: bool)
    requires Printable(Source(P)) && IsLegalEdit(P, depth, good) && |IllegalEdits(P, depth)| + 1 >= width
    requires Outcome(P, depth, width, Misleading(IllegalEdits(P, depth), good), cands, best, legal)
    ensures !Holds(cands, good)
  {
    var bad, cost := IllegalEdits(P, depth), Misleading(IllegalEdits(P, depth), good);
    hide Outcome, Printable, Considered, Legal, Source, Holds, IllegalEdits, Genuine, DistinctTexts, AllWeighed,
        AllSeen, SomeLegal, Beats, Dearer, Misleading, Schedules;
    OutcomeParts(P, depth, width, cost, cands, best, legal);
    IllegalEditsAre(P, depth, good);
    IllegalEditsAre(P, depth, Source(P));
    MisleadingAt(bad, good, good);
    if Holds(cands, good) {
      CandidateReached(P, depth, cost, cands, good);
      forall S | S in bad + {good, Source(P)} ensures S in Schedules(cands) {
        if S in bad {
          IllegalEditsAre(P, depth, S);
          MisleadingAt(bad, good, S);
          NothingLost(Source(P), depth, cost, cands, S);
          if Dearer(cands, Source(P), 0.0) { DearerBounds(cands, Source(P), Candidate(good, 1.0), 0.0); }
        }
        HoldsIs(cands, S);
      }
      SubsetSize(bad + {good, Source(P)}, Schedules(cands));
      assert |bad + {good, Source(P)}| == |bad| + 2 by { assert bad + {good, Source(P)} == bad + {good} + {Source(P)}; }
      WindowSize(cands);
      assert false;
    }
  }

  lemma AlwaysMissed(P: Program, depth: nat, width: nat, good: Sched, cands: seq<Candidate>, best: Candidate,
      legal: bool)
    requires Printable(Source(P)) && IsLegalEdit(P, depth, good) && |IllegalEdits(P, depth)| + 1 >= width
    requires Outcome(P, depth, width, Misleading(IllegalEdits(P, depth), good), cands, best, legal)
    ensures !IsCheapest(P, depth, Misleading(IllegalEdits(P, depth), good), best, legal)
  {
    var bad, cost := IllegalEdits(P, depth), Misleading(IllegalEdits(P, depth), good);
    EditMissed(P, depth, width, good, cands, best, legal);
    hide Outcome, Printable, Considered, Legal, Source, Holds, IllegalEdits, Genuine, DistinctTexts, AllWeighed,
        AllSeen, SomeLegal, Beats, Misleading;
    OutcomeParts(P, depth, width, cost, cands, best, legal);
    MisleadingAt(bad, good, good);
    IllegalEditsAre(P, depth, good);
    if legal {
      BestIs(P, depth, cost, cands, best);
      MisleadingAt(bad, good, best.S);
      IllegalEditsAre(P, depth, best.S);
    }
  }

  lemma BestIs(P: Program, depth: nat, cost: CostModel, cands: seq<Candidate>, best: Candidate)
    requires Genuine(P, Source(P), depth, cost, cands) && best in cands
    ensures Holds(cands, best.S) && best.cost == cost(best.S)
  {
    hide Considered, WellFormed, Source;
    var i :| 0 <= i < |cands| && cands[i] == best;
    assert IsGenuine(P, Source(P), depth, cost, cands[i]);
  }

  // ---- there is such a window

  lemma Enumerate(s: set<Sched>, n: nat) returns (xs: seq<Sched>)
    requires n <= |s|
    ensures |xs| == n && (forall i :: 0 <= i < n ==> xs[i] in s) && forall i, j :: 0 <= i < j < n ==> xs[i] != xs[j]
  {
    if n == 0 {
      xs := [];
    } else {
      var x :| x in s;
      xs := Enumerate(s - {x}, n - 1);
      xs := xs + [x];
    }
  }

  ghost function WindowOf(cost: CostModel, xs: seq<Sched>): seq<Candidate> {
    seq(|xs|, i requires 0 <= i < |xs| => Candidate(xs[i], cost(xs[i])))
  }

  lemma WindowGenuine(P: Program, depth: nat, cost: CostModel, xs: seq<Sched>)
    requires ValidProgram(P) && Printable(Source(P)) && forall i :: 0 <= i < |xs| ==>
      Considered(Source(P), depth, xs[i])
    requires forall i, j :: 0 <= i < j < |xs| ==> xs[i] != xs[j]
    ensures Genuine(P, Source(P), depth, cost, WindowOf(cost, xs)) && DistinctTexts(WindowOf(cost, xs))
  {
    hide Considered, WellFormed, Canon, Printable, Source, ValidProgram;
    var out := WindowOf(cost, xs);
    SourceWellFormed(P);
    forall i | 0 <= i < |out| ensures IsGenuine(P, Source(P), depth, cost, out[i]) {
      ConsideredWellFormed(P, Source(P), depth, xs[i]);
    }
    forall i, j | 0 <= i < j < |out| ensures Canon(out[i].S) != Canon(out[j].S) {
      ConsideredPrintable(Source(P), depth, xs[i]);
      ConsideredPrintable(Source(P), depth, xs[j]);
      if Canon(xs[i]) == Canon(xs[j]) { CanonInjective(xs[i], xs[j]); }
    }
  }

  lemma SourceReached(src: Sched, depth: nat)
    ensures Considered(src, depth, src)
  {
    assert src in Level(src, 0);
  }

  lemma WindowWeighs(src: Sched, depth: nat, cost: CostModel, out: seq<Candidate>)
    requires forall i :: 0 <= i < |out| ==> out[i].S == src || out[i].cost == 0.0
    requires forall S :: cost(S) >= 0.0
    ensures AllWeighed(src, depth, cost, out)
  {
    hide Considered, Canon;
    forall S | Considered(src, depth, S) ensures Weighed(src, depth, cost, out, S) {
      assert Dearer(out, src, cost(S));
    }
  }

  // the source last, illegal edits before it
  ghost predicate BadWindow(P: Program, depth: nat, width: nat, cost: CostModel, xs: seq<Sched>) {
    && |xs| == width && width >= 1 && xs[width - 1] == Source(P)
    && (forall i :: 0 <= i < width - 1 ==> IsIllegalEdit(P, depth, xs[i]) && cost(xs[i]) == 0.0)
    && forall i, j :: 0 <= i < j < width ==> xs[i] != xs[j]
  }

  lemma BadWindowPicks(P: Program, depth: nat, width: nat, cost: CostModel, xs: seq<Sched>, best: Candidate,
      legal: bool)
    requires BadWindow(P, depth, width, cost, xs) && best == Candidate(Source(P), cost(Source(P)))
      && (legal <==> Legal(P, Source(P)))
    ensures best in WindowOf(cost, xs) && Holds(WindowOf(cost, xs), Source(P))
    ensures legal <==> SomeLegal(P, WindowOf(cost, xs), width)
    ensures Beats(P, WindowOf(cost, xs), width, best)
  {
    hide Legal, Source, Considered;
    var out := WindowOf(cost, xs);
    assert out[width - 1] == best;
    assert out[width - 1].S == Source(P);
    forall i | 0 <= i < width - 1 ensures !Legal(P, out[i].S) {
      assert IsIllegalEdit(P, depth, xs[i]);
    }
  }

  lemma BadWindowArises(P: Program, depth: nat, width: nat, good: Sched)
      returns (cands: seq<Candidate>, best: Candidate, legal: bool)
    requires ValidProgram(P) && Printable(Source(P)) && 1 <= width <= |IllegalEdits(P, depth)| + 1
    ensures Outcome(P, depth, width, Misleading(IllegalEdits(P, depth), good), cands, best, legal)
  {
    var bad, cost := IllegalEdits(P, depth), Misleading(IllegalEdits(P, depth), good);
    hide Genuine, DistinctTexts, Holds, AllWeighed, AllSeen, Legal, SomeLegal, Beats, Source, Considered, Printable,
        IllegalEdits, Misleading, ValidProgram, WindowOf, IsIllegalEdit;
    var ys := Enumerate(bad, width - 1);
    var xs := ys + [Source(P)];
    SourceReached(Source(P), depth);
    forall i | 0 <= i < width
      ensures Considered(Source(P), depth, xs[i])
      ensures i < width - 1 ==> IsIllegalEdit(P, depth, xs[i]) && cost(xs[i]) == 0.0 && xs[i] != Source(P)
    {
      if i < width - 1 {
        assert xs[i] == ys[i];
        IllegalEditsAre(P, depth, xs[i]);
        EditIs(P, depth, xs[i]);
        MisleadingAt(bad, good, xs[i]);
      }
    }
    cands, best, legal := WindowOf(cost, xs), Candidate(Source(P), cost(Source(P))), Legal(P, Source(P));
    WindowGenuine(P, depth, cost, xs);
    BadWindowPicks(P, depth, width, cost, xs, best, legal);
    WindowAt(cost, xs);
    forall S ensures cost(S) >= 0.0 { MisleadingAt(bad, good, S); }
    WindowWeighs(Source(P), depth, cost, cands);
  }

  lemma EditIs(P: Program, depth: nat, S: Sched)
    requires IsIllegalEdit(P, depth, S)
    ensures Considered(Source(P), depth, S) && S != Source(P)
  {
    hide Considered, Legal, Source;
  }

  lemma WindowAt(cost: CostModel, xs: seq<Sched>)
    ensures |WindowOf(cost, xs)| == |xs| && forall i :: 0 <= i < |xs| ==>
      WindowOf(cost, xs)[i] == Candidate(xs[i], cost(xs[i]))
  {
  }

  // ---- exactly

  // in a window that is not wide enough there are costs under which no outcome is the cheapest legal schedule
  lemma NarrowMisses(P: Program, depth: nat, width: nat)
      returns (cost: CostModel, cands: seq<Candidate>, best: Candidate, legal: bool)
    requires ValidProgram(P) && Printable(Source(P)) && width >= 1 && !WideEnough(P, depth, width)
    ensures Outcome(P, depth, width, cost, cands, best, legal)
    ensures forall c: seq<Candidate>, b: Candidate, l: bool :: Outcome(P, depth, width, cost, c, b, l) ==>
      !IsCheapest(P, depth, cost, b, l)
  {
    hide Outcome, IsCheapest, Printable, Source, IllegalEdits, ValidProgram, IsLegalEdit;
    var good :| IsLegalEdit(P, depth, good);
    cost := Misleading(IllegalEdits(P, depth), good);
    cands, best, legal := BadWindowArises(P, depth, width, good);
    forall c: seq<Candidate>, b: Candidate, l: bool | Outcome(P, depth, width, cost, c, b, l)
      ensures !IsCheapest(P, depth, cost, b, l)
    {
      AlwaysMissed(P, depth, width, good, c, b, l);
    }
  }

  // the choice is the cheapest legal schedule within reach under all costs exactly when the window is wide enough
  lemma CheapestExactly(P: Program, depth: nat, width: nat)
    requires ValidProgram(P) && Printable(Source(P)) && width >= 1
    ensures WideEnough(P, depth, width) <==>
      forall cost: CostModel, cands: seq<Candidate>, best: Candidate, legal: bool ::
        Outcome(P, depth, width, cost, cands, best, legal) ==>
        IsCheapest(P, depth, cost, best, legal)
  {
    hide Outcome, IsCheapest, Printable, Source, WideEnough, ValidProgram;
    if WideEnough(P, depth, width) {
      forall cost: CostModel, cands: seq<Candidate>, best: Candidate,
        legal: bool | Outcome(P, depth, width, cost, cands, best, legal)
        ensures IsCheapest(P, depth, cost, best, legal)
      {
        WideIsEnough(P, depth, width, cost, cands, best, legal);
      }
    } else {
      var cost, cands, best, legal := NarrowMisses(P, depth, width);
      assert Outcome(P, depth, width, cost, cands, best, legal) && !IsCheapest(P, depth, cost, best, legal);
    }
  }

  // ---- three edits deep and eight wide is not wide enough for a program that does not contract

  ghost predicate Tensored(S: Sched) {
    |S.stages| == 1 && S.stages[0].engine.TensorOp?
  }

  lemma TensoredIllegal(P: Program, S: Sched)
    requires Tensored(S) && !IsContraction(P)
    ensures !Legal(P, S)
  {
    hide Coverage, Duplication, PartialCombine, DependencyOrder, EffectOrder, Guarded, Resources, WellFormed,
        IsContraction, UnrollsReduction;
    assert !StageLaw(P, S, Permitted(P), 7, S.stages[0]);
    assert IsLaw(7) && !Law(P, S, Permitted(P), 7);
  }

  lemma EditTensored(S: Sched, e: nat)
    requires e < 6 && |S.stages| == 1 && (e == 0 || Tensored(S))
    ensures Tensored(Edits(S)[e])
  {
    hide Rebound, ToCoop, Ringed, Streamed;
  }

  const EDIT_NAMES: seq<string> :=
    ["engine:tensor-op", "restage:2", "split:simdgroup*2", "split:simdgroup*4", "storage:device-stream",
      "predicate:zero-page"]

  lemma EditName(S: Sched, e: nat)
    requires e < 6
    ensures Edits(S)[e].why == EDIT_NAMES[e]
  {
    hide Rebound, ToCoop, Ringed, Streamed, MapStages;
  }

  lemma NamesDiffer(e: nat, f: nat)
    requires e < f < 6
    ensures EDIT_NAMES[e] != EDIT_NAMES[f]
  {
    var names := EDIT_NAMES;
    assert names[0][0] == 'e' && names[1][0] == 'r' && names[2][16] == '2' && names[3][16] == '4'
      && names[2][1] == names[3][1] == 'p';
    assert names[4][1] == 't' && names[5][0] == 'p' && names[2][0] == names[3][0] == names[4][0] == 's';
  }

  lemma EditsReached(src: Sched, depth: nat, e: nat, f: nat)
    requires e < 6 && f < 6 && depth >= 2
    ensures Considered(src, depth, Edits(src)[e]) && Considered(src, depth, Edits(Edits(src)[e])[f])
  {
    hide Edits;
    assert Level(src, 0) == [src];
    EditInLevel(Level(src, 0), 0, e);
    assert Edits(src)[e] in Level(src, 1);
    var k :| 0 <= k < |Level(src, 1)| && Level(src, 1)[k] == Edits(src)[e];
    EditInLevel(Level(src, 1), k, f);
    assert Edits(Edits(src)[e])[f] in Level(src, 2);
  }

  // the tensor-op edit, it followed by any other edit, and it after the zero-page edit
  ghost function TensorEdits(src: Sched): (xs: seq<Sched>)
    ensures |xs| == 7
  {
    var first := Edits(src)[0];
    [first, Edits(first)[1], Edits(first)[2], Edits(first)[3], Edits(first)[4], Edits(first)[5],
      Edits(Edits(src)[5])[0]]
  }

  lemma TensorEditIs(src: Sched, depth: nat, k: nat)
    requires k < 7 && |src.stages| == 1 && src.why == "source" && depth >= 2
    ensures Considered(src, depth, TensorEdits(src)[k]) && Tensored(TensorEdits(src)[k]) && TensorEdits(src)[k] != src
  {
    hide Edits, Considered, Level;
    var first, zeroed := Edits(src)[0], Edits(src)[5];
    EditTensored(src, 0);
    EditOneStage(src, 5);
    if k < 6 { EditTensored(first, k); } else { EditTensored(zeroed, 0); }
    EditsReached(src, depth, 0, if k < 6 then k else 0);
    EditsReached(src, depth, 5, 0);
    ConsideredNames(src, depth, TensorEdits(src)[k]);
    EditName(if k == 0 then src else if k < 6 then first else zeroed, if k < 6 then k else 0);
    NameIsNew(if k < 6 then k else 0);
  }

  lemma EditOneStage(S: Sched, e: nat)
    requires e < 6
    ensures |Edits(S)[e].stages| == |S.stages|
  {
    hide Rebound, ToCoop, Ringed, Streamed;
  }

  lemma NameIsNew(e: nat)
    requires e < 6
    ensures EDIT_NAMES[e] != "source"
  {
    var names := EDIT_NAMES;
    assert |names[0]| == 16 && |names[1]| == 9 && |names[2]| == |names[3]| == 17 && |names[4]| == 21 && |names[5]| == 19
      && |"source"| == 6;
  }

  lemma TensorEditName(src: Sched, k: nat)
    requires k < 7
    ensures TensorEdits(src)[k].why == EDIT_NAMES[if k < 6 then k else 0]
  {
    hide Edits;
    EditName(if k == 0 then src else if k < 6 then Edits(src)[0] else Edits(src)[5], if k < 6 then k else 0);
  }

  lemma TensorEditsDiffer(src: Sched, i: nat, j: nat)
    requires i < j < 7 && |src.stages| == 1 && !src.stages[0].predicate_.ZeroPage?
    ensures TensorEdits(src)[i] != TensorEdits(src)[j]
  {
    hide Edits;
    if i == 0 && j == 6 {
      PredicateKept(src);
    } else {
      hide TensorEdits;
      TensorEditName(src, i);
      TensorEditName(src, j);
      if j < 6 { NamesDiffer(i, j); } else { NamesDiffer(0, i); }
    }
  }

  lemma PredicateKept(src: Sched)
    requires |src.stages| == 1
    ensures var first, last := Edits(src)[0], Edits(Edits(src)[5])[0];
      && |first.stages| == |last.stages| == 1
      && first.stages[0].predicate_ == src.stages[0].predicate_ && last.stages[0].predicate_ == ZeroPage
  {
    hide Rebound, ToCoop, Ringed, Streamed;
  }

  // zero-page guards keep every law
  lemma ZeroPageLegal(P: Program)
    requires ValidProgram(P) && Legal(P, Source(P))
    ensures Legal(P, Edits(Source(P))[5])
  {
    var S, T, p := Source(P), Edits(Source(P))[5], Permitted(P);
    EditKeepsWellFormed(P, S, 5);
    ZeroPageStage(S);
    hide Source, Edits, WellFormed, ValidProgram, Permitted;
    LawsOfOne(P, S, p);
    LawsOfOne(P, T, p);
    forall n: nat | 1 <= n <= 8 ensures StageLaw(P, T, p, n, T.stages[0]) {
      assert StageLaw(P, S, p, n, S.stages[0]);
      SameLaws(P, S, T, p, n);
    }
  }

  lemma ZeroPageStage(S: Sched)
    requires |S.stages| == 1
    ensures var T := Edits(S)[5]; |T.stages| == 1 && T.stages[0] == S.stages[0].(predicate_ := ZeroPage)
  {
    hide Rebound, ToCoop, Ringed, Streamed;
  }

  lemma SameLaws(P: Program, S: Sched, T: Sched, p: R.Permissions, n: nat)
    requires |S.stages| == |T.stages| == 1 && T.stages[0] == S.stages[0].(predicate_ := ZeroPage)
    requires 1 <= n <= 8 && StageLaw(P, S, p, n, S.stages[0])
    ensures StageLaw(P, T, p, n, T.stages[0])
  {
    var a, b := S.stages[0], T.stages[0];
    assert a.factors == b.factors && a.fusedWith == b.fusedWith && a.order == b.order;
    match n
    case 1 => forall j | 0 <= j < |P.coordNames| ensures Owned(b, j) { assert Owned(a, j); }
    case 3 => forall k | 0 <= k < |b.factors|
      ensures CombineOk(P, b, b.factors[k], p) { assert CombineOk(P, a, a.factors[k], p); }
    case 4 => forall k | 0 <= k < |b.fusedWith|
      ensures FusionOk(T, b, b.fusedWith[k]) { assert FusionOk(S, a, a.fusedWith[k]); }
    case _ =>
  }

  lemma SourceShape(P: Program)
    ensures |Source(P).stages| == 1 && Source(P).why == "source" && !Source(P).stages[0].predicate_.ZeroPage?
  {
    hide SourceFactors, Grants, HasAlgebra, TimeNames, InDeviceAll, AnyReduction;
  }

  // seven illegal edits and a legal one are two edits away
  lemma NotWideEnough(P: Program, depth: nat, width: nat)
    requires ValidProgram(P) && !IsContraction(P) && Legal(P, Source(P)) && depth >= 2 && width <= 8
    ensures !WideEnough(P, depth, width)
  {
    var src := Source(P);
    SourceShape(P);
    ZeroPageLegal(P);
    hide Source, Edits, Considered, Legal, IllegalEdits, IsContraction, ValidProgram, Tensored, TensorEdits;
    EditsReached(src, depth, 5, 0);
    EditName(src, 5);
    NameIsNew(5);
    assert IsLegalEdit(P, depth, Edits(src)[5]);
    var xs := TensorEdits(src);
    forall k | 0 <= k < 7 ensures xs[k] in IllegalEdits(P, depth) {
      TensorEditIs(src, depth, k);
      TensoredIllegal(P, xs[k]);
      IllegalEditsAre(P, depth, xs[k]);
    }
    forall i, j | 0 <= i < j < 7 ensures xs[i] != xs[j] { TensorEditsDiffer(src, i, j); }
    SequenceSize(xs, IllegalEdits(P, depth));
  }

  lemma {:induction false} SequenceSize(xs: seq<Sched>, s: set<Sched>)
    requires (forall i :: 0 <= i < |xs| ==> xs[i] in s) && forall i, j :: 0 <= i < j < |xs| ==> xs[i] != xs[j]
    ensures |xs| <= |s|
    decreases |xs|
  {
    if xs != [] {
      var n := |xs| - 1;
      SequenceSize(xs[..n], s - {xs[n]});
    }
  }

  // a program that copies one coordinate
  lemma CopyProgram(P: Program)
    requires P == Program("copy", ["i"], ["lane"], [], [], 0, [], [], 0, "")
    ensures ValidProgram(P) && PrintableProgram(P) && !IsContraction(P) && Legal(P, Source(P))
  {
    NothingReduced(P);
    CopyPrints(P);
    hide Source, Legal, SplitsReduction, DerivesReduction, PrintableProgram;
    SourceLegal(P);
  }

  lemma CopyPrints(P: Program)
    requires P.kernel == "copy" && P.coordNames == ["i"] && P.tensors == []
    ensures PrintableProgram(P)
  {
    assert ScheduleText.Word("i");
    assert "copy"[0] == 'c';
  }

  lemma NothingReduced(P: Program)
    requires P.coordOutput == []
    ensures !SplitsReduction(P) && !DerivesReduction(P)
  {
  }

  // with the defaults of the search its choice misses a cheaper legal schedule under some costs
  lemma DefaultsMiss() returns (P: Program, cost: CostModel, cands: seq<Candidate>, best: Candidate, legal: bool)
    ensures ValidProgram(P) && Printable(Source(P)) && Legal(P, Source(P)) && Outcome(P, 3, 8, cost, cands, best, legal)
    ensures forall c: seq<Candidate>, b: Candidate, l: bool :: Outcome(P, 3, 8, cost, c, b, l) ==>
      !IsCheapest(P, 3, cost, b, l)
  {
    P := Program("copy", ["i"], ["lane"], [], [], 0, [], [], 0, "");
    CopyProgram(P);
    hide *;
    SourcePrints(P);
    NotWideEnough(P, 3, 8);
    cost, cands, best, legal := NarrowMisses(P, 3, 8);
  }
}
