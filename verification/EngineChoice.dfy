// The choice of a schedule, with no schedule database: the cheapest legal candidate.
module EngineChoice {
  import opened Schedule
  import opened ScheduleParse
  import opened ScheduleSource
  import opened ScheduleSearch
  import opened Legality
  import opened SourceLegality

  // no legal candidate among the first n is cheaper, and the source does not lose a tie
  ghost predicate Beats(P: Program, cands: seq<Candidate>, n: nat, best: Candidate)
    requires n <= |cands|
  {
    forall i :: 0 <= i < n && Legal(P, cands[i].S) ==>
      best.cost <= cands[i].cost
        && (best.cost == cands[i].cost && cands[i].S.why == "source" ==> best.S.why == "source")
  }

  ghost predicate SomeLegal(P: Program, cands: seq<Candidate>, n: nat)
    requires n <= |cands|
  {
    exists i :: 0 <= i < n && Legal(P, cands[i].S)
  }

  method Pick(P: Program, cands: seq<Candidate>) returns (have: bool, best: Candidate)
    requires cands != []
    ensures have <==> SomeLegal(P, cands, |cands|)
    ensures have ==> best in cands && Legal(P, best.S) && Beats(P, cands, |cands|, best)
  {
    hide Legal;
    have, best := false, cands[0];
    for i := 0 to |cands|
      invariant have <==> SomeLegal(P, cands, i)
      invariant have ==> best in cands && Legal(P, best.S) && Beats(P, cands, i, best)
    {
      var c := cands[i];
      var ok, _, _ := Check(P, c.S);
      if ok {
        var take := !have || c.cost < best.cost || (c.cost == best.cost && c.S.why == "source");
        if take { best, have := c, true; }
      }
    }
  }

  // what a choice out of at most `width` candidates comes to
  ghost predicate Outcome(P: Program, depth: nat, width: nat, cost: CostModel, cands: seq<Candidate>, best: Candidate,
      legal: bool)
  {
    && Genuine(P, Source(P), depth, cost, cands) && DistinctTexts(cands) && Holds(cands, Source(P)) && |cands| <= width
    && AllWeighed(Source(P), depth, cost, cands) && (|cands| < width ==> AllSeen(Source(P), depth, cands))
    && best in cands && (legal <==> Legal(P, best.S)) && (legal <==> SomeLegal(P, cands, |cands|))
    && (legal ==> Beats(P, cands, |cands|, best))
    && (!legal ==> best.S == Source(P))
  }

  method Choose(P: Program, depth: nat, width: nat, cost: CostModel)
      returns (best: Candidate, legal: bool, ghost cands: seq<Candidate>)
    requires ValidProgram(P) && width >= 1
    ensures Outcome(P, depth, width, cost, cands, best, legal)
  {
    hide Legal, Genuine, AllWeighed, AllSeen, Source, ValidProgram, DistinctTexts;
    var found := Candidates(P, depth, width, cost);
    cands := found;
    legal, best := Pick(P, found);
    if !legal {
      var src := SourceSchedule(P);
      best := Candidate(src, cost(src));
      var ok, _, _ := Check(P, src);
      legal := ok;
      HeldCost(P, src, depth, cost, found);
      HeldLegal(P, src, found);
    }
  }

  lemma HeldCost(P: Program, src: Sched, depth: nat, cost: CostModel, cands: seq<Candidate>)
    requires Genuine(P, src, depth, cost, cands) && Holds(cands, src)
    ensures Candidate(src, cost(src)) in cands
  {
    hide Considered, WellFormed;
    var i :| 0 <= i < |cands| && cands[i].S == src;
    assert IsGenuine(P, src, depth, cost, cands[i]);
    assert cands[i] in cands;
  }

  lemma HeldLegal(P: Program, src: Sched, cands: seq<Candidate>)
    requires Holds(cands, src) && !SomeLegal(P, cands, |cands|)
    ensures !Legal(P, src)
  {
    hide Legal;
  }

  // a legal source is never lost: the choice is then legal and costs no more
  lemma LegalSourceBounds(P: Program, depth: nat, width: nat, cost: CostModel, cands: seq<Candidate>, best: Candidate,
      legal: bool)
    requires ValidProgram(P) && Outcome(P, depth, width, cost, cands, best, legal)
    requires P.unfitted == 0 && P.numClass in {"", "inherit", "explicit-budget"}
    requires (SplitsReduction(P) ==> Granted(P, Partition)) && (DerivesReduction(P) ==> Granted(P, Reorder))
    ensures legal && best.cost <= cost(Source(P))
  {
    hide Legal, Source, ValidProgram, Considered, WellFormed, SplitsReduction, DerivesReduction, Granted, DistinctTexts;
    SourceLegal(P);
    HeldBeaten(P, Source(P), depth, cost, cands, best, legal, Source(P));
  }

  // the choice costs no more than a legal candidate
  lemma HeldBeaten(P: Program, src: Sched, depth: nat, cost: CostModel, cands: seq<Candidate>, best: Candidate,
      legal: bool, S: Sched)
    requires Genuine(P, src, depth, cost, cands) && Holds(cands, S) && Legal(P, S)
    requires (legal <==> SomeLegal(P, cands, |cands|)) && (legal ==> Beats(P, cands, |cands|, best))
    ensures legal && best.cost <= cost(S)
  {
    hide Legal, Considered, WellFormed;
    var i :| 0 <= i < |cands| && cands[i].S == S;
    assert IsGenuine(P, src, depth, cost, cands[i]);
  }
}
