// The depth-bounded search: the source schedule and everything up to `depth` edits away, deduplicated by printed text,
// ranked by cost, cut to `width` candidates with the source kept.
module ScheduleSearch {
  import opened Schedule
  import opened ScheduleParse
  import opened ScheduleSource
  import opened ScheduleText

  datatype Candidate = Candidate(S: Sched, cost: real)

  // the cost model: any function of the schedule
  type CostModel = Sched -> real

  // ---- what the search looks at

  ghost function EditsOfAll(ss: seq<Sched>): seq<Sched> {
    if ss == [] then [] else EditsOfAll(ss[..|ss| - 1]) + Edits(ss[|ss| - 1])
  }

  // the schedules exactly d edits from src
  ghost function Level(src: Sched, d: nat): seq<Sched> {
    if d == 0 then [src] else EditsOfAll(Level(src, d - 1))
  }

  ghost predicate Considered(src: Sched, depth: nat, S: Sched) {
    exists d :: 0 <= d <= depth && S in Level(src, d)
  }

  lemma {:induction false} EditsOfAllFrom(ss: seq<Sched>, E: Sched)
    requires E in EditsOfAll(ss)
    ensures exists i, e :: 0 <= i < |ss| && 0 <= e < 6 && E == Edits(ss[i])[e]
  {
    hide Edits;
    var n := |ss| - 1;
    if E in EditsOfAll(ss[..n]) {
      EditsOfAllFrom(ss[..n], E);
      var i, e :| 0 <= i < |ss[..n]| && 0 <= e < 6 && E == Edits(ss[..n][i])[e];
      assert E == Edits(ss[i])[e];
    } else {
      var e :| 0 <= e < 6 && Edits(ss[n])[e] == E;
    }
  }

  // only the source carries the name "source"
  lemma {:induction false} LevelNames(src: Sched, d: nat, E: Sched)
    requires E in Level(src, d) && d > 0
    ensures E.why != "source"
  {
    EditsOfAllFrom(Level(src, d - 1), E);
    var i, e :| 0 <= i < |Level(src, d - 1)| && 0 <= e < 6 && E == Edits(Level(src, d - 1)[i])[e];
    EditKeepsWellFormed(Program("", [], [], [], [], 0, [], [], 0, ""), Level(src, d - 1)[i], e);
  }

  lemma ConsideredNames(src: Sched, depth: nat, S: Sched)
    requires Considered(src, depth, S) && src.why == "source"
    ensures S.why == "source" <==> S == src
  {
    var d :| 0 <= d <= depth && S in Level(src, d);
    if d > 0 { LevelNames(src, d, S); }
  }

  // every schedule the search looks at is well-formed when the source is
  lemma {:induction false} LevelWellFormed(P: Program, src: Sched, d: nat, E: Sched)
    requires WellFormed(P, src) && E in Level(src, d)
    ensures WellFormed(P, E)
  {
    hide WellFormed, Edits;
    if d > 0 {
      EditsOfAllFrom(Level(src, d - 1), E);
      var i, e :| 0 <= i < |Level(src, d - 1)| && 0 <= e < 6 && E == Edits(Level(src, d - 1)[i])[e];
      LevelWellFormed(P, src, d - 1, Level(src, d - 1)[i]);
      EditKeepsWellFormed(P, Level(src, d - 1)[i], e);
    }
  }

  lemma ConsideredWellFormed(P: Program, src: Sched, depth: nat, S: Sched)
    requires WellFormed(P, src) && Considered(src, depth, S)
    ensures WellFormed(P, S)
  {
    hide WellFormed, Level;
    var d :| 0 <= d <= depth && S in Level(src, d);
    LevelWellFormed(P, src, d, S);
  }

  // ---- the found candidates

  ghost predicate Genuine(P: Program, src: Sched, depth: nat, cost: CostModel, out: seq<Candidate>) {
    forall i :: 0 <= i < |out| ==> IsGenuine(P, src, depth, cost, out[i])
  }

  ghost predicate IsGenuine(P: Program, src: Sched, depth: nat, cost: CostModel, c: Candidate) {
    Considered(src, depth, c.S) && WellFormed(P, c.S) && c.cost == cost(c.S)
  }

  ghost predicate DistinctTexts(out: seq<Candidate>) {
    forall i, j :: 0 <= i < j < |out| ==> Canon(out[i].S) != Canon(out[j].S)
  }

  // a candidate with this text was found
  ghost predicate Seen(out: seq<Candidate>, S: Sched) {
    exists i :: 0 <= i < |out| && Canon(out[i].S) == Canon(S)
  }

  ghost predicate SeenAll(out: seq<Candidate>, ss: seq<Sched>) {
    forall i :: 0 <= i < |ss| ==> Seen(out, ss[i])
  }

  ghost predicate SeenUpTo(out: seq<Candidate>, src: Sched, d: nat) {
    forall e :: 0 <= e <= d ==> SeenAll(out, Level(src, e))
  }

  ghost predicate Texts(out: seq<Candidate>, seen: set<string>) {
    forall k :: k in seen <==> HasText(out, k)
  }

  ghost predicate HasText(out: seq<Candidate>, k: string) {
    exists i :: 0 <= i < |out| && Canon(out[i].S) == k
  }

  ghost predicate Found(P: Program, src: Sched, depth: nat, cost: CostModel, out: seq<Candidate>, seen: set<string>) {
    Genuine(P, src, depth, cost, out) && DistinctTexts(out) && Texts(out, seen)
  }

  ghost predicate Extends(out': seq<Candidate>, out: seq<Candidate>) {
    |out| <= |out'| && out'[..|out|] == out
  }

  // one schedule looked at: kept unless ill-formed or its text was seen
  method Consider(P: Program, src: Sched, depth: nat, cost: CostModel, S: Sched, out: seq<Candidate>, seen: set<string>)
    returns (out': seq<Candidate>, seen': set<string>)
    requires Found(P, src, depth, cost, out, seen) && Considered(src, depth, S)
    ensures Found(P, src, depth, cost, out', seen') && Extends(out', out)
    ensures WellFormed(P, S) ==> Seen(out', S)
    ensures WellFormed(P, S) && !Seen(out, S) ==> out' == out + [Candidate(S, cost(S))]
  {
    hide WellFormed, Canon, Considered, Genuine, DistinctTexts, Dump, Unlines;
    out', seen' := out, seen;
    var ok := CheckWellFormed(P, S);
    if ok {
      var lines := DumpSchedule(S);
      var k := Unlines(lines);
      CanonIs(S);
      if k in seen {
        assert HasText(out, k);
        return;
      }
      Kept(P, src, depth, cost, out, S, seen);
      out' := out + [Candidate(S, cost(S))];
      seen' := seen + {k};
    }
  }

  lemma CanonIs(S: Sched)
    ensures Canon(S) == Unlines(Dump(S))
  {
  }

  lemma Kept(P: Program, src: Sched, depth: nat, cost: CostModel, out: seq<Candidate>, S: Sched, seen: set<string>)
    requires Found(P, src, depth, cost, out, seen) && Canon(S) !in seen && Considered(src, depth, S) && WellFormed(P, S)
    ensures Found(P, src, depth, cost, out + [Candidate(S, cost(S))], seen + {Canon(S)})
      && Seen(out + [Candidate(S, cost(S))], S)
  {
    hide Canon, Considered, WellFormed;
    var out' := out + [Candidate(S, cost(S))];
    assert Canon(out'[|out|].S) == Canon(S);
    forall k ensures k in seen + {Canon(S)} <==> HasText(out', k) {
      if k in seen {
        assert HasText(out, k);
        var i :| 0 <= i < |out| && Canon(out[i].S) == k;
        assert Canon(out'[i].S) == k;
      }
    }
    assert forall i :: 0 <= i < |out| ==> HasText(out, Canon(out[i].S));
  }

  lemma SeenGrows(out: seq<Candidate>, out': seq<Candidate>, ss: seq<Sched>)
    requires SeenAll(out, ss) && Extends(out', out)
    ensures SeenAll(out', ss)
  {
    hide Canon;
    forall i | 0 <= i < |ss| ensures Seen(out', ss[i]) {
      assert Seen(out, ss[i]);
      var k :| 0 <= k < |out| && Canon(out[k].S) == Canon(ss[i]);
      assert out'[..|out|][k] == out'[k];
    }
  }

  lemma SeenUpToGrows(out: seq<Candidate>, out': seq<Candidate>, src: Sched, d: nat)
    requires SeenUpTo(out, src, d) && Extends(out', out) && SeenAll(out', Level(src, d + 1))
    ensures SeenUpTo(out', src, d + 1)
  {
    hide Level, SeenAll, Extends;
    forall e | 0 <= e <= d + 1 ensures SeenAll(out', Level(src, e)) {
      if e <= d {
        assert SeenAll(out, Level(src, e));
        SeenGrows(out, out', Level(src, e));
      }
    }
  }

  // ---- one level of the search

  lemma LevelConsidered(src: Sched, d: nat, depth: nat, S: Sched)
    requires S in Level(src, d) && d <= depth
    ensures Considered(src, depth, S)
  {
  }

  lemma {:induction false} EditInLevel(ss: seq<Sched>, k: nat, e: nat)
    requires k < |ss| && e < 6
    ensures Edits(ss[k])[e] in EditsOfAll(ss)
  {
    hide Edits;
    var n := |ss| - 1;
    if k < n {
      EditInLevel(ss[..n], k, e);
      assert ss[..n][k] == ss[k];
    }
  }

  lemma EditsOfAllStep(ss: seq<Sched>, k: nat)
    requires k < |ss|
    ensures EditsOfAll(ss[..k + 1]) == EditsOfAll(ss[..k]) + Edits(ss[k])
  {
    hide Edits;
    assert ss[..k + 1][..k] == ss[..k];
  }

  method ConsiderEdits(P: Program, src: Sched, depth: nat, cost: CostModel, S: Sched, out: seq<Candidate>,
      seen: set<string>)
    returns (out': seq<Candidate>, seen': set<string>)
    requires WellFormed(P, src) && Found(P, src, depth, cost, out, seen)
    requires forall e :: 0 <= e < 6 ==> Considered(src, depth, Edits(S)[e])
    ensures Found(P, src, depth, cost, out', seen') && Extends(out', out) && SeenAll(out', Edits(S))
  {
    hide WellFormed, Found, Considered, Seen, Edits;
    out', seen' := out, seen;
    var edits := Edits(S);
    for e := 0 to 6
      invariant Found(P, src, depth, cost, out', seen') && Extends(out', out) && SeenAll(out', edits[..e])
    {
      var before := out';
      ConsideredWellFormed(P, src, depth, edits[e]);
      out', seen' := Consider(P, src, depth, cost, edits[e], out', seen');
      SeenGrows(before, out', edits[..e]);
      SeenOneMore(out', edits, e);
      ExtendsAgain(out', before, out);
    }
    assert edits[..6] == edits;
  }

  lemma SeenOneMore(out: seq<Candidate>, ss: seq<Sched>, e: nat)
    requires e < |ss| && SeenAll(out, ss[..e]) && Seen(out, ss[e])
    ensures SeenAll(out, ss[..e + 1])
  {
    hide Seen;
    var some := ss[..e + 1];
    forall i | 0 <= i < |some| ensures Seen(out, some[i]) {
      if i < e { assert Seen(out, ss[..e][i]); }
    }
  }

  lemma ExtendsAgain(c: seq<Candidate>, b: seq<Candidate>, a: seq<Candidate>)
    requires Extends(c, b) && Extends(b, a)
    ensures Extends(c, a)
  {
    assert c[..|a|] == c[..|b|][..|a|];
  }

  lemma SeenBoth(out: seq<Candidate>, a: seq<Sched>, b: seq<Sched>)
    requires SeenAll(out, a) && SeenAll(out, b)
    ensures SeenAll(out, a + b)
  {
    hide Seen;
  }

  method ConsiderLevel(P: Program, src: Sched, d: nat, depth: nat, cost: CostModel, frontier: seq<Sched>,
                       out: seq<Candidate>, seen: set<string>)
    returns (next: seq<Sched>, out': seq<Candidate>, seen': set<string>)
    requires WellFormed(P, src) && d < depth && frontier == Level(src, d) && Found(P, src, depth, cost, out, seen)
    ensures next == Level(src, d + 1) && Found(P, src, depth, cost, out', seen') && Extends(out', out)
      && SeenAll(out', next)
  {
    hide WellFormed, Found, Considered, SeenAll, Edits;
    next, out', seen' := [], out, seen;
    NothingSeen(out);
    for k := 0 to |frontier|
      invariant next == EditsOfAll(frontier[..k])
      invariant Found(P, src, depth, cost, out', seen') && Extends(out', out) && SeenAll(out', next)
    {
      forall e | 0 <= e < 6 ensures Considered(src, depth, Edits(frontier[k])[e]) {
        EditInLevel(frontier, k, e);
        LevelConsidered(src, d + 1, depth, Edits(frontier[k])[e]);
      }
      var before := out';
      out', seen' := ConsiderEdits(P, src, depth, cost, frontier[k], out', seen');
      SeenGrows(before, out', next);
      SeenBoth(out', next, Edits(frontier[k]));
      ExtendsAgain(out', before, out);
      EditsOfAllStep(frontier, k);
      next := next + Edits(frontier[k]);
    }
    assert frontier[..|frontier|] == frontier;
  }

  lemma NothingSeen(out: seq<Candidate>)
    ensures SeenAll(out, [])
  {
  }

  // ---- ranking

  ghost predicate Ranked(out: seq<Candidate>) {
    forall i, j :: 0 <= i < j < |out| ==> out[i].cost <= out[j].cost
  }

  // c put after the entries that cost no more
  lemma Inserted(ranked: seq<Candidate>, k: nat, c: Candidate)
    requires Ranked(ranked) && k <= |ranked|
    requires k > 0 ==> ranked[k - 1].cost <= c.cost
    requires forall j :: k <= j < |ranked| ==> ranked[j].cost > c.cost
    ensures Ranked(ranked[..k] + [c] + ranked[k..])
  {
    var r := ranked[..k] + [c] + ranked[k..];
    forall i, j | 0 <= i < j < |r| ensures r[i].cost <= r[j].cost {
      assert forall m :: 0 <= m < k ==> r[m] == ranked[m];
      assert forall m :: k < m < |r| ==> r[m] == ranked[m - 1];
      assert forall m :: 0 <= m < k ==> ranked[m].cost <= ranked[k - 1].cost;
    }
  }

  lemma InsertedCount(ranked: seq<Candidate>, k: nat, c: Candidate)
    requires k <= |ranked|
    ensures multiset(ranked[..k] + [c] + ranked[k..]) == multiset(ranked) + multiset{c}
  {
    assert ranked == ranked[..k] + ranked[k..];
  }

  lemma PrefixCount(out: seq<Candidate>, i: nat)
    requires i < |out|
    ensures multiset(out[..i + 1]) == multiset(out[..i]) + multiset{out[i]}
  {
    assert out[..i + 1] == out[..i] + [out[i]];
  }

  lemma InsertedDistinct(out: seq<Candidate>, i: nat, ranked: seq<Candidate>, k: nat)
    requires DistinctTexts(out) && i < |out| && k <= |ranked|
    requires DistinctTexts(ranked) && multiset(ranked) == multiset(out[..i])
    ensures DistinctTexts(ranked[..k] + [out[i]] + ranked[k..])
  {
    hide Canon;
    forall m | 0 <= m < |ranked| ensures Canon(ranked[m].S) != Canon(out[i].S) {
      assert ranked[m] in multiset(out[..i]);
      var p :| 0 <= p < i && out[p] == ranked[m];
    }
    var r := ranked[..k] + [out[i]] + ranked[k..];
    assert forall m :: 0 <= m < k ==> r[m] == ranked[m];
    assert forall m :: k < m < |r| ==> r[m] == ranked[m - 1];
  }

  method Rank(out: seq<Candidate>) returns (ranked: seq<Candidate>)
    requires DistinctTexts(out)
    ensures Ranked(ranked) && DistinctTexts(ranked) && multiset(ranked) == multiset(out)
  {
    hide Ranked, DistinctTexts;
    ranked := [];
    EmptyRanked();
    for i := 0 to |out|
      invariant Ranked(ranked) && DistinctTexts(ranked) && multiset(ranked) == multiset(out[..i])
    {
      var k := |ranked|;
      while k > 0 && ranked[k - 1].cost > out[i].cost
        invariant 0 <= k <= |ranked| && forall j :: k <= j < |ranked| ==> ranked[j].cost > out[i].cost
      {
        k := k - 1;
      }
      Inserted(ranked, k, out[i]);
      InsertedDistinct(out, i, ranked, k);
      InsertedCount(ranked, k, out[i]);
      PrefixCount(out, i);
      ranked := ranked[..k] + [out[i]] + ranked[k..];
    }
    assert out[..|out|] == out;
  }

  lemma EmptyRanked()
    ensures Ranked([]) && DistinctTexts([])
  {
  }

  // ---- the search

  ghost predicate Holds(out: seq<Candidate>, S: Sched) {
    exists i :: 0 <= i < |out| && out[i].S == S
  }

  // everything returned but the source costs no more than c
  ghost predicate Dearer(out: seq<Candidate>, src: Sched, c: real) {
    forall i :: 0 <= i < |out| ==> out[i].S == src || out[i].cost <= c
  }

  // some schedule that prints like S was returned or ranked behind everything returned
  ghost predicate Weighed(src: Sched, depth: nat, cost: CostModel, out: seq<Candidate>, S: Sched) {
    exists R :: Considered(src, depth, R) && Canon(R) == Canon(S) && (Holds(out, R) || Dearer(out, src, cost(R)))
  }

  ghost predicate AllWeighed(src: Sched, depth: nat, cost: CostModel, out: seq<Candidate>) {
    forall S :: Considered(src, depth, S) ==> Weighed(src, depth, cost, out, S)
  }

  // every schedule within reach prints like one returned
  ghost predicate AllSeen(src: Sched, depth: nat, out: seq<Candidate>) {
    forall S :: Considered(src, depth, S) ==> Seen(out, S)
  }

  // the first w of the ranking, with the source put back when it is not among them
  ghost predicate Cut(ranked: seq<Candidate>, w: nat, src: Sched, cost: CostModel, out: seq<Candidate>) {
    && w <= |ranked|
    && (out == ranked[..w] || (out == ranked[..w] + [Candidate(src, cost(src))] && !Holds(ranked[..w], src)))
  }

  lemma NothingFound(P: Program, src: Sched, depth: nat, cost: CostModel)
    ensures Found(P, src, depth, cost, [], {}) && !Seen([], src)
  {
  }

  lemma SourceSeen(all: seq<Candidate>, c: Candidate)
    requires all == [c]
    ensures SeenUpTo(all, c.S, 0) && Holds(all, c.S)
  {
    assert all[0].S == c.S;
    assert Seen(all, c.S);
  }

  lemma HoldsGrows(out: seq<Candidate>, out': seq<Candidate>, S: Sched)
    requires Holds(out, S) && Extends(out', out)
    ensures Holds(out', S)
  {
    var i :| 0 <= i < |out| && out[i].S == S;
    assert out'[..|out|][i] == out'[i];
  }

  lemma RankedSame(P: Program, src: Sched, depth: nat, cost: CostModel, all: seq<Candidate>, ranked: seq<Candidate>,
      S: Sched)
    requires multiset(ranked) == multiset(all) && Genuine(P, src, depth, cost, all) && Holds(all, S)
    ensures Genuine(P, src, depth, cost, ranked) && Holds(ranked, S)
  {
    hide IsGenuine;
    forall i | 0 <= i < |ranked| ensures IsGenuine(P, src, depth, cost, ranked[i]) {
      assert ranked[i] in multiset(all);
      var k :| 0 <= k < |all| && all[k] == ranked[i];
    }
    var i :| 0 <= i < |all| && all[i].S == S;
    assert all[i] in multiset(ranked);
  }

  lemma PrefixGenuine(P: Program, src: Sched, depth: nat, cost: CostModel, ranked: seq<Candidate>, w: nat)
    requires Genuine(P, src, depth, cost, ranked) && w <= |ranked|
    ensures Genuine(P, src, depth, cost, ranked[..w])
  {
    hide IsGenuine;
  }

  method HasSource(P: Program, src: Sched, depth: nat, cost: CostModel, out: seq<Candidate>) returns (has: bool)
    requires Genuine(P, src, depth, cost, out) && src.why == "source"
    ensures has <==> Holds(out, src)
  {
    hide Considered, WellFormed;
    has := false;
    for i := 0 to |out|
      invariant has <==> exists k :: 0 <= k < i && out[k].S == src
    {
      assert IsGenuine(P, src, depth, cost, out[i]);
      ConsideredNames(src, depth, out[i].S);
      if out[i].S.why == "source" { has := true; }
    }
  }

  // ---- what the cut keeps

  lemma CutGenuine(P: Program, src: Sched, depth: nat, cost: CostModel, ranked: seq<Candidate>, w: nat,
      out: seq<Candidate>)
    requires Genuine(P, src, depth, cost, ranked) && Holds(ranked, src) && Cut(ranked, w, src, cost, out)
    ensures Genuine(P, src, depth, cost, out)
  {
    hide Considered, WellFormed;
    var m :| 0 <= m < |ranked| && ranked[m].S == src;
    assert IsGenuine(P, src, depth, cost, ranked[m]);
    forall i | 0 <= i < |out| ensures IsGenuine(P, src, depth, cost, out[i]) {
      if i < w { assert out[i] == ranked[i]; }
    }
  }

  lemma CutDistinct(src: Sched, cost: CostModel, ranked: seq<Candidate>, w: nat, out: seq<Candidate>)
    requires DistinctTexts(ranked) && Holds(ranked, src) && Cut(ranked, w, src, cost, out)
    ensures DistinctTexts(out)
  {
    hide Canon;
    var m :| 0 <= m < |ranked| && ranked[m].S == src;
    forall i | 0 <= i < w ensures out[i] == ranked[i] {}
    PrefixHolds(ranked, m, w);
  }

  lemma PrefixHolds(ranked: seq<Candidate>, m: nat, w: nat)
    requires m < |ranked| && w <= |ranked|
    ensures m < w ==> Holds(ranked[..w], ranked[m].S)
  {
    if m < w { assert ranked[..w][m] == ranked[m]; }
  }

  lemma CutWeighs(P: Program, src: Sched, depth: nat, cost: CostModel, ranked: seq<Candidate>, w: nat,
      out: seq<Candidate>, m: nat, S: Sched)
    requires Genuine(P, src, depth, cost, ranked) && Ranked(ranked) && Cut(ranked, w, src, cost, out)
    requires m < |ranked| && Canon(ranked[m].S) == Canon(S)
    ensures Weighed(src, depth, cost, out, S)
  {
    hide Considered, WellFormed, Canon;
    assert IsGenuine(P, src, depth, cost, ranked[m]);
    forall i | 0 <= i < w ensures out[i] == ranked[i] {}
    if m < w {
      assert out[m].S == ranked[m].S;
      assert Holds(out, ranked[m].S);
    } else {
      assert Dearer(out, src, ranked[m].cost);
    }
  }

  lemma SeenOf(all: seq<Candidate>, src: Sched, depth: nat, S: Sched)
    requires SeenUpTo(all, src, depth) && Considered(src, depth, S)
    ensures Seen(all, S)
  {
    hide Seen, Level;
    var d :| 0 <= d <= depth && S in Level(src, d);
    assert SeenAll(all, Level(src, d));
  }

  lemma SeenRanked(all: seq<Candidate>, ranked: seq<Candidate>, S: Sched) returns (m: nat)
    requires multiset(ranked) == multiset(all) && Seen(all, S)
    ensures m < |ranked| && Canon(ranked[m].S) == Canon(S)
  {
    hide Canon;
    var i :| 0 <= i < |all| && Canon(all[i].S) == Canon(S);
    assert all[i] in multiset(ranked);
    m :| 0 <= m < |ranked| && ranked[m] == all[i];
  }

  lemma CutWeighsAll(P: Program, src: Sched, depth: nat, cost: CostModel, all: seq<Candidate>, ranked: seq<Candidate>,
      w: nat, out: seq<Candidate>)
    requires Genuine(P, src, depth, cost, ranked) && Ranked(ranked) && Cut(ranked, w, src, cost, out)
    requires multiset(ranked) == multiset(all) && SeenUpTo(all, src, depth)
    ensures AllWeighed(src, depth, cost, out)
  {
    hide Considered, Genuine, Ranked, Cut, SeenUpTo, Canon, Weighed, Seen;
    forall S | Considered(src, depth, S) ensures Weighed(src, depth, cost, out, S) {
      SeenOf(all, src, depth, S);
      var m := SeenRanked(all, ranked, S);
      CutWeighs(P, src, depth, cost, ranked, w, out, m, S);
    }
  }

  // a full window that misses the source gives up its last entry for it
  method CutToWidth(P: Program, src: Sched, depth: nat, width: nat, cost: CostModel, ranked: seq<Candidate>)
      returns (out: seq<Candidate>, ghost w: nat)
    requires width >= 1 && src.why == "source" && WellFormed(P, src)
    requires Genuine(P, src, depth, cost, ranked) && Holds(ranked, src)
    ensures Cut(ranked, w, src, cost, out) && |out| <= width && Holds(out, src)
    ensures |out| < width ==> out == ranked
  {
    hide Genuine, WellFormed, Considered;
    out := ranked;
    if |out| > width { out := out[..width]; }
    w := |out|;
    PrefixGenuine(P, src, depth, cost, ranked, w);
    var hasSrc := HasSource(P, src, depth, cost, out);
    if !hasSrc {
      var ok := CheckWellFormed(P, src);
      if ok {
        if |out| == width {
          out := out[..|out| - 1];
          w := w - 1;
        }
        NotHeld(ranked, w, src);
        out := out + [Candidate(src, cost(src))];
        assert out[|out| - 1].S == src;
      }
    }
  }

  method Candidates(P: Program, depth: nat, width: nat, cost: CostModel) returns (out: seq<Candidate>)
    requires ValidProgram(P) && width >= 1
    ensures 0 < |out| <= width && Holds(out, Source(P))
    ensures Genuine(P, Source(P), depth, cost, out) && DistinctTexts(out)
    ensures AllWeighed(Source(P), depth, cost, out)
    ensures |out| < width ==> AllSeen(Source(P), depth, out)
  {
    hide WellFormed, Found, Source, Genuine, DistinctTexts, SeenUpTo, SeenAll, Seen, Canon, Ranked, AllWeighed, AllSeen,
        Holds, Extends, Considered, Edits, Cut;
    SourceWellFormed(P);
    var src := SourceSchedule(P);
    SourceNamed(P);
    NothingFound(P, src, depth, cost);
    LevelConsidered(src, 0, depth, src);
    var all, seen := Consider(P, src, depth, cost, src, [], {});
    SourceSeen(all, Candidate(src, cost(src)));
    var frontier := [src];
    for d := 0 to depth
      invariant frontier == Level(src, d) && Found(P, src, depth, cost, all, seen) && SeenUpTo(all, src, d)
      invariant Holds(all, src)
    {
      var before := all;
      frontier, all, seen := ConsiderLevel(P, src, d, depth, cost, frontier, all, seen);
      SeenUpToGrows(before, all, src, d);
      HoldsGrows(before, all, src);
    }
    FoundParts(P, src, depth, cost, all, seen);
    var ranked := Rank(all);
    RankedSame(P, src, depth, cost, all, ranked, src);
    ghost var w;
    out, w := CutToWidth(P, src, depth, width, cost, ranked);
    CutGenuine(P, src, depth, cost, ranked, w, out);
    CutDistinct(src, cost, ranked, w, out);
    CutWeighsAll(P, src, depth, cost, all, ranked, w, out);
    if |out| < width { SeenByAll(all, src, depth, out); }
    HeldSome(out, src);
  }

  lemma SeenByAll(all: seq<Candidate>, src: Sched, depth: nat, ranked: seq<Candidate>)
    requires multiset(ranked) == multiset(all) && SeenUpTo(all, src, depth)
    ensures AllSeen(src, depth, ranked)
  {
    hide Considered, SeenUpTo, Canon;
    forall S | Considered(src, depth, S) ensures Seen(ranked, S) {
      SeenOf(all, src, depth, S);
      var m := SeenRanked(all, ranked, S);
    }
  }

  lemma NotHeld(ranked: seq<Candidate>, w: nat, src: Sched)
    requires w <= |ranked|
    ensures Holds(ranked[..w], src) && w < |ranked| ==> Holds(ranked[..w + 1], src)
  {
    if Holds(ranked[..w], src) && w < |ranked| {
      var i :| 0 <= i < w && ranked[..w][i].S == src;
      assert ranked[..w + 1][i].S == src;
    }
  }

  lemma HeldSome(out: seq<Candidate>, S: Sched)
    requires Holds(out, S)
    ensures |out| > 0
  {
  }

  lemma SourceNamed(P: Program)
    ensures Source(P).why == "source"
  {
    hide SourceStage;
  }

  lemma FoundParts(P: Program, src: Sched, depth: nat, cost: CostModel, all: seq<Candidate>, seen: set<string>)
    requires Found(P, src, depth, cost, all, seen)
    ensures Genuine(P, src, depth, cost, all) && DistinctTexts(all)
  {
  }

  // ---- with a printable source no schedule is lost to another with its text

  lemma EditKeepsPrintable(S: Sched, e: nat)
    requires Printable(S) && e < 6
    ensures Printable(Edits(S)[e])
  {
    hide PrintableStage, Edits, HeaderField;
    EditedHeader(S, e);
    forall i | 0 <= i < |S.stages| ensures PrintableStage(Edits(S)[e].stages[i]) {
      assert PrintableStage(S.stages[i]);
      EditedPrintable(S, e, i);
    }
  }

  lemma EditedHeader(S: Sched, e: nat)
    requires e < 6
    ensures Edits(S)[e].kernel == S.kernel && HeaderField(Edits(S)[e].why) && |Edits(S)[e].stages| == |S.stages|
  {
    hide HeaderField, Rebound, ToCoop, Ringed, Streamed;
    EditNamesRead();
  }

  lemma EditNamesRead()
    ensures HeaderField("engine:tensor-op") && HeaderField("restage:2") && HeaderField("split:simdgroup*2")
    ensures HeaderField("split:simdgroup*4") && HeaderField("storage:device-stream")
      && HeaderField("predicate:zero-page")
  {
  }

  lemma EditedPrintable(S: Sched, e: nat, i: nat)
    requires e < 6 && i < |S.stages| && PrintableStage(S.stages[i])
    ensures |Edits(S)[e].stages| == |S.stages| && PrintableStage(Edits(S)[e].stages[i])
  {
    hide Rebound, Word, AllWords;
    ReboundSame(S.stages[i].factors);
  }

  lemma {:induction false} LevelPrintable(src: Sched, d: nat, E: Sched)
    requires Printable(src) && E in Level(src, d)
    ensures Printable(E)
  {
    hide Printable, Edits;
    if d > 0 {
      EditsOfAllFrom(Level(src, d - 1), E);
      var i, e :| 0 <= i < |Level(src, d - 1)| && 0 <= e < 6 && E == Edits(Level(src, d - 1)[i])[e];
      LevelPrintable(src, d - 1, Level(src, d - 1)[i]);
      EditKeepsPrintable(Level(src, d - 1)[i], e);
    }
  }

  lemma ConsideredPrintable(src: Sched, depth: nat, S: Sched)
    requires Printable(src) && Considered(src, depth, S)
    ensures Printable(S)
  {
    hide Printable, Level;
    var d :| 0 <= d <= depth && S in Level(src, d);
    LevelPrintable(src, d, S);
  }

  // every schedule within reach was returned, or everything returned but the source is at least as cheap
  lemma NothingLost(src: Sched, depth: nat, cost: CostModel, out: seq<Candidate>, S: Sched)
    requires Printable(src) && AllWeighed(src, depth, cost, out) && Considered(src, depth, S)
    ensures Holds(out, S) || Dearer(out, src, cost(S))
  {
    hide Printable, Considered, Canon, Holds, Dearer;
    assert Weighed(src, depth, cost, out, S);
    var R :| Considered(src, depth, R) && Canon(R) == Canon(S) && (Holds(out, R) || Dearer(out, src, cost(R)));
    ConsideredPrintable(src, depth, R);
    ConsideredPrintable(src, depth, S);
    CanonInjective(R, S);
  }

  // a window that is not full returned every schedule within reach
  lemma EverythingReturned(P: Program, src: Sched, depth: nat, cost: CostModel, out: seq<Candidate>, S: Sched)
    requires Printable(src) && AllSeen(src, depth, out) && Genuine(P, src, depth, cost, out)
      && Considered(src, depth, S)
    ensures Holds(out, S)
  {
    hide Printable, Considered, Canon, WellFormed;
    assert Seen(out, S);
    var i :| 0 <= i < |out| && Canon(out[i].S) == Canon(S);
    assert IsGenuine(P, src, depth, cost, out[i]);
    ConsideredPrintable(src, depth, out[i].S);
    ConsideredPrintable(src, depth, S);
    CanonInjective(out[i].S, S);
  }

  // ---- which programs print

  predicate PrintableProgram(P: Program) {
    && P.kernel != "" && HeaderField(P.kernel) && P.kernel[0] != '\t'
    && AllWords(P.coordNames) && |P.coordNames| < WORD32 && |P.tensors| < WORD32
  }

  ghost predicate PrintableFactor(f: Factor) {
    Word(f.name) && f.coord < WORD32 && f.size < WORD32
  }

  ghost predicate PrintableFactors(fs: seq<Factor>) {
    forall k :: 0 <= k < |fs| ==> PrintableFactor(fs[k])
  }

  lemma SmallPower(n: nat)
    ensures Power2(Min5(n)) <= 32
  {
    hide IsPow2;
    assert Power2(0) == 1 && Power2(1) == 2 && Power2(2) == 4;
    assert Power2(3) == 8 && Power2(4) == 16;
    assert Power2(5) == 32;
  }

  lemma CoordSizes(P: Program, j: nat)
    requires j < |P.coordNames|
    ensures forall i :: 0 <= i < |CoordFactors(P, j)| ==> CoordFactors(P, j)[i].size <= 32
  {
    var axes := Collect([], Axes(PhysOf(P, j), 0));
    SmallPower(CountLow(axes));
    SmallPower(CountHigh(axes));
    hide Axes, Collect, CountLow, CountHigh, HasKind, Min5, IsPow2, Power2, PhysOf;
  }

  lemma SuffixWord(a: string, s: string)
    requires Word(a) && Suffixes(s)
    ensures Word(a + s)
  {
  }

  lemma CoordPrintable(P: Program, j: nat)
    requires PrintableProgram(P) && j < |P.coordNames|
    ensures PrintableFactors(CoordFactors(P, j))
  {
    hide CoordFactors, Suffix, Suffixes, SplitSize, Word;
    CoordBuilt(P, j);
    CoordSizes(P, j);
    var fs := CoordFactors(P, j);
    forall k | 0 <= k < |fs| ensures PrintableFactor(fs[k]) {
      assert Built(P, fs[k]);
      SuffixWord(P.coordNames[j], Suffix(fs[k]));
    }
  }

  lemma {:induction false} SourceFactorsPrint(P: Program, n: nat)
    requires PrintableProgram(P) && n <= |P.coordNames|
    ensures PrintableFactors(SourceFactors(P, n))
  {
    hide CoordFactors, SourceFactors, PrintableProgram, PrintableFactor;
    if n == 0 {
      NothingBuilt(P);
    } else {
      SourceFactorsPrint(P, n - 1);
      CoordPrintable(P, n - 1);
      SourceStep(P, n);
    }
  }

  lemma OrderPrints(fs: seq<Factor>)
    requires PrintableFactors(fs)
    ensures AllWords(TimeNames(fs))
  {
    hide TimeNames, Word;
    TimeNamesNamed(fs, |fs|);
    assert fs[..|fs|] == fs;
    forall k | 0 <= k < |TimeNames(fs)| ensures Word(TimeNames(fs)[k]) {
      assert Names(fs, TimeNames(fs)[k]);
      var i :| 0 <= i < |fs| && fs[i].name == TimeNames(fs)[k];
      assert PrintableFactor(fs[i]);
    }
  }

  lemma LanePrints()
    ensures PrintableFactors([Factor("c0_lane", 0, 32, Lane)])
  {
    assert Word("c0_lane");
  }

  // word-like coordinate names and a kernel name without blanks are enough
  lemma SourcePrints(P: Program)
    requires PrintableProgram(P)
    ensures Printable(Source(P))
  {
    hide SourceFactors, Grants, HasAlgebra, AnyReduction, TimeNames, PrintableFactor, HeaderField, Word;
    StageFactors(P);
    var st := SourceStage(P);
    if P.coordNames == [] {
      LanePrints();
    } else {
      SourceFactorsPrint(P, |P.coordNames|);
    }
    OrderPrints(st.factors);
    SourceIsField();
    FactorsPrint(st.factors);
    assert PrintableStage(st);
  }

  lemma FactorsPrint(fs: seq<Factor>)
    requires PrintableFactors(fs)
    ensures forall k :: 0 <= k < |fs| ==> Word(fs[k].name) && fs[k].coord < WORD32 && fs[k].size < WORD32
  {
    hide Word;
    forall k | 0 <= k < |fs| ensures Word(fs[k].name) && fs[k].coord < WORD32 && fs[k].size < WORD32 {
      assert PrintableFactor(fs[k]);
    }
  }

  lemma SourceIsField()
    ensures HeaderField("source")
  {
  }
}
