// The text of a coordinate's physical axes, written when the program is built and read again by the source schedule.
module PhysText {
  import opened ScheduleText
  import opened ScheduleSource

  datatype Axis = Simdgroup | Lane | Iteration(n: nat) | Bit(n: nat) | Derived(n: nat)

  function AxisName(a: Axis): string {
    match a
    case Simdgroup => "sg"
    case Lane => "lane"
    case Iteration(n) => "i" + Decimal(n)
    case Bit(n) => "b" + Decimal(n)
    case Derived(n) => "d" + Decimal(n)
  }

  function ToString(v: int): string {
    if v < 0 then "-" + Decimal(-v) else Decimal(v)
  }

  // the digits of the text are the absolute value, after a minus sign for a negative number
  lemma ToStringReads(v: int)
    ensures (v < 0 <==> ToString(v)[0] == '-')
    ensures LeadingNumber(if v < 0 then ToString(v)[1..] else ToString(v), 0) == if v < 0 then -v else v
  {
    var n := if v < 0 then -v else v;
    LeadingOfDecimal(n, 0);
    hide LeadingNumber;
    assert IsDigit(Decimal(n)[0]);
    if v < 0 { assert ToString(v)[1..] == Decimal(n); }
  }

  // one axis of a combination: the coefficient one is not written
  function TermText(v: int, a: Axis): string {
    (if v == 1 then "" else ToString(v) + "*") + AxisName(a)
  }

  // the first n axes of the combination with coefficients col
  function TermsText(col: seq<int>, axes: seq<Axis>, n: nat): string
    requires n <= |col| == |axes|
  {
    if n == 0 then ""
    else
      var s := TermsText(col, axes, n - 1);
      if col[n - 1] == 0 then s else s + (if s == "" then "" else " + ") + TermText(col[n - 1], axes[n - 1])
  }

  // coefficients of one coordinate along the axes, as text
  method PhysOfCoordinate(col: seq<int>, axes: seq<Axis>) returns (s: string)
    requires |col| == |axes|
    ensures s == if TermsText(col, axes, |col|) == "" then "0" else TermsText(col, axes, |col|)
  {
    s := "";
    var first := true;
    for a := 0 to |axes|
      invariant s == TermsText(col, axes, a) && (first <==> s == "")
    {
      if col[a] != 0 {
        TermNotEmpty(col[a], axes[a]);
        s := s + (if first then "" else " + ") + (if col[a] == 1 then "" else ToString(col[a]) + "*")
          + AxisName(axes[a]);
        first := false;
      }
    }
    if first { s := "0"; }
  }

  lemma TermNotEmpty(v: int, a: Axis)
    ensures AxisName(a) != "" && TermText(v, a) != ""
  {
  }

  // an axis the reader knows, by its letter and number
  function Known(a: Axis): seq<(char, nat)> {
    match a
    case Iteration(n) => [('i', n)]
    case Bit(n) => [('b', n)]
    case Derived(n) => [('d', n)]
    case _ => []
  }

  // of the axes the coordinate moves along, those of thread bits, iterations and derived quantities
  function KnownAxes(col: seq<int>, axes: seq<Axis>, n: nat): seq<(char, nat)>
    requires n <= |col| == |axes|
  {
    if n == 0 then [] else KnownAxes(col, axes, n - 1) + if col[n - 1] == 0 then [] else Known(axes[n - 1])
  }

  // ---- reading

  lemma {:induction false} NumberShift(p: string, s: string, i: nat, v: nat)
    requires i <= |s|
    ensures Number(p + s, |p| + i, v) == (Number(s, i, v).0, |p| + Number(s, i, v).1)
    decreases |s| - i
  {
    if i < |s| && IsDigit(s[i]) {
      assert (p + s)[|p| + i] == s[i];
      NumberShift(p, s, i + 1, (v * 10 + DigitValue(s[i])) % WORD32);
    } else if i < |s| {
      assert (p + s)[|p| + i] == s[i];
    }
  }

  predicate AxisStart(s: string, i: nat) {
    i + 1 < |s| && IsAxisKind(s[i]) && IsDigit(s[i + 1])
  }

  lemma AxesStep(s: string, i: nat)
    requires i < |s|
    ensures AxisStart(s, i) ==>
      i < Number(s, i + 1, 0).1 <= |s|
        && Axes(s, i) == [(s[i], Number(s, i + 1, 0).0)] + Axes(s, Number(s, i + 1, 0).1)
    ensures !AxisStart(s, i) ==> Axes(s, i) == Axes(s, i + 1)
  {
    hide Number;
  }

  lemma StartShift(p: string, s: string, i: nat)
    requires i < |s|
    ensures (p + s)[|p| + i] == s[i] && (AxisStart(p + s, |p| + i) <==> AxisStart(s, i))
  {
    if i + 1 < |s| { assert (p + s)[|p| + i + 1] == s[i + 1]; }
  }

  lemma {:induction false} AxesShift(p: string, s: string, i: nat)
    requires i <= |s|
    ensures Axes(p + s, |p| + i) == Axes(s, i)
    decreases |s| - i
  {
    if i == |s| {
      assert |p + s| == |p| + i;
    } else {
      hide *;
      StartShift(p, s, i);
      AxesStep(s, i);
      AxesStep(p + s, |p| + i);
      if AxisStart(s, i) {
        NumberShift(p, s, i + 1, 0);
        AxesShift(p, s, Number(s, i + 1, 0).1);
      } else {
        AxesShift(p, s, i + 1);
      }
    }
  }

  // text without axis letters is passed over
  predicate Plain(u: string) {
    forall k :: 0 <= k < |u| ==> !IsAxisKind(u[k])
  }

  lemma {:induction false} PlainSkipped(u: string, s: string)
    requires Plain(u)
    ensures Axes(u + s, 0) == Axes(s, 0)
  {
    if u == "" {
      assert u + s == s;
    } else {
      var t := u[1..] + s;
      assert u + s == u[..1] + t;
      AxesShift(u[..1], t, 0);
      PlainSkipped(u[1..], s);
      assert !IsAxisKind((u + s)[0]);
    }
  }

  predicate NoDigitFirst(s: string) {
    s == "" || !IsDigit(s[0])
  }

  lemma {:induction false} LeadingRises(s: string, v: nat)
    requires forall k :: 0 <= k < |s| ==> IsDigit(s[k])
    ensures LeadingNumber(s, v) >= v
  {
    if s != "" { LeadingRises(s[1..], v * 10 + DigitValue(s[0])); }
  }

  // digits up to something else are read as their number, when it fits
  lemma {:induction false} NumberReads(d: string, s: string, v: nat)
    requires (forall k :: 0 <= k < |d| ==> IsDigit(d[k])) && NoDigitFirst(s) && LeadingNumber(d, v) < WORD32
    ensures Number(d + s, 0, v) == (LeadingNumber(d, v), |d|)
  {
    if d == "" {
      assert d + s == s;
    } else {
      var next := v * 10 + DigitValue(d[0]);
      var t := d[1..] + s;
      LeadingRises(d[1..], next);
      NumberReads(d[1..], s, next);
      assert d + s == d[..1] + t;
      NumberShift(d[..1], t, 0, next);
      assert (d + s)[0] == d[0];
    }
  }

  lemma DecimalReads(n: nat, s: string)
    requires n < WORD32 && NoDigitFirst(s)
    ensures Number(Decimal(n) + s, 0, 0) == (n, |Decimal(n)|)
  {
    LeadingOfDecimal(n, 0);
    NumberReads(Decimal(n), s, 0);
  }

  // a letter and a number are one axis
  lemma LetterReads(c: char, n: nat, s: string)
    requires IsAxisKind(c) && n < WORD32 && NoDigitFirst(s)
    ensures Axes([c] + Decimal(n) + s, 0) == [(c, n)] + Axes(s, 0)
  {
    hide Decimal, Number, IsDigit, IsAxisKind;
    var d := Decimal(n);
    var t := [c] + d + s;
    assert t == [c] + (d + s) && t == [c] + d + s;
    DecimalReads(n, s);
    NumberShift([c], d + s, 0, 0);
    AxesShift([c] + d, s, 0);
    assert t[0] == c && t[1] == d[0];
    assert |[c] + d| == 1 + |d|;
  }

  ghost predicate Fits(a: Axis) {
    a.Simdgroup? || a.Lane? || a.n < WORD32
  }

  lemma NameReads(a: Axis, s: string)
    requires Fits(a) && NoDigitFirst(s)
    ensures Axes(AxisName(a) + s, 0) == Known(a) + Axes(s, 0)
  {
    match a
    case Iteration(n) => LetterReads('i', n, s);
    case Bit(n) => LetterReads('b', n, s);
    case Derived(n) => LetterReads('d', n, s);
    case Simdgroup => PlainSkipped("sg", s);
    case Lane => PlainSkipped("lane", s);
  }

  lemma ToStringPlain(v: int)
    ensures Plain(ToString(v)) && Plain(ToString(v) + "*")
  {
  }

  lemma TermReads(v: int, a: Axis, s: string)
    requires Fits(a) && NoDigitFirst(s)
    ensures ReadsAs(TermText(v, a), s, Known(a))
  {
    hide Axes, AxisName, Known, ToString;
    NameReads(a, s);
    if v == 1 {
      assert TermText(v, a) == AxisName(a);
    } else {
      ToStringPlain(v);
      PlainSkipped(ToString(v) + "*", AxisName(a) + s);
      assert TermText(v, a) + s == (ToString(v) + "*") + (AxisName(a) + s);
    }
  }

  // what follows the text written so far, when t is written next
  function Following(before: string, t: string): string {
    if before == "" then "" else " + " + t
  }

  // u reads as x, whatever follows
  ghost predicate ReadsAs(u: string, s: string, x: seq<(char, nat)>) {
    Axes(u + s, 0) == x + Axes(s, 0)
  }

  function Extended(before: string, term: string): string {
    if before == "" then term else before + " + " + term
  }

  lemma {:induction false} TermsRead(col: seq<int>, axes: seq<Axis>, n: nat, s: string)
    requires n <= |col| == |axes| && NoDigitFirst(s) && forall k :: 0 <= k < |axes| ==> Fits(axes[k])
    ensures ReadsAs(TermsText(col, axes, n), s, KnownAxes(col, axes, n))
    decreases n
  {
    hide TermText, Known, Fits, Extended, Following, ReadsAs, NoDigitFirst;
    if n == 0 {
      NothingReads(s);
    } else if col[n - 1] == 0 {
      TermsRead(col, axes, n - 1, s);
      assert KnownAxes(col, axes, n) == KnownAxes(col, axes, n - 1);
    } else {
      LastTerm(col, axes, n);
      KnownStep(col, axes, n);
      hide TermsText, KnownAxes;
      var before, term := TermsText(col, axes, n - 1), TermText(col[n - 1], axes[n - 1]);
      SeparatorFirst(before, term + s);
      TermsRead(col, axes, n - 1, Following(before, term + s));
      TermReads(col[n - 1], axes[n - 1], s);
      JoinReads(before, term, s, KnownAxes(col, axes, n - 1), Known(axes[n - 1]));
    }
  }

  lemma NothingReads(s: string)
    ensures ReadsAs("", s, [])
  {
    assert "" + s == s;
  }

  lemma SeparatorFirst(before: string, rest: string)
    ensures NoDigitFirst(Following(before, rest))
  {
  }

  lemma LastTerm(col: seq<int>, axes: seq<Axis>, n: nat)
    requires 0 < n <= |col| == |axes| && col[n - 1] != 0
    ensures TermsText(col, axes, n) == Extended(TermsText(col, axes, n - 1), TermText(col[n - 1], axes[n - 1]))
  {
    hide TermText;
  }

  // a term after what was written before
  lemma JoinReads(before: string, term: string, s: string, known: seq<(char, nat)>, mine: seq<(char, nat)>)
    requires ReadsAs(before, Following(before, term + s), known) && ReadsAs(term, s, mine)
    ensures ReadsAs(Extended(before, term), s, known + mine)
  {
    hide Axes;
    EmptyReads();
    if before == "" {
      assert before + "" == "";
      assert known + mine == mine;
    } else {
      PlainSkipped(" + ", term + s);
      assert before + " + " + term + s == before + (" + " + (term + s));
      assert known + mine + Axes(s, 0) == known + (mine + Axes(s, 0));
    }
  }

  lemma EmptyReads()
    ensures Axes("", 0) == [] && Axes("0", 0) == []
  {
    PlainSkipped("0", "");
  }

  ghost predicate DistinctAxes(axes: seq<Axis>) {
    forall i, j :: 0 <= i < j < |axes| ==> axes[i] != axes[j]
  }

  lemma {:induction false} KnownAt(col: seq<int>, axes: seq<Axis>, n: nat, x: (char, nat))
    requires n <= |col| == |axes|
    ensures x in KnownAxes(col, axes, n) <==> exists k :: 0 <= k < n && col[k] != 0 && Known(axes[k]) == [x]
  {
    if n > 0 {
      KnownAt(col, axes, n - 1, x);
      var last := if col[n - 1] == 0 then [] else Known(axes[n - 1]);
      assert x in KnownAxes(col, axes, n) <==> x in KnownAxes(col, axes, n - 1) || x in last;
      assert x in last <==> col[n - 1] != 0 && Known(axes[n - 1]) == [x];
    }
  }

  lemma KnownInjective(a: Axis, b: Axis)
    requires Known(a) == Known(b) != []
    ensures a == b
  {
    assert Known(a)[0] == Known(b)[0];
  }

  lemma {:induction false} KnownDistinct(col: seq<int>, axes: seq<Axis>, n: nat)
    requires n <= |col| == |axes| && DistinctAxes(axes)
    ensures Distinct(KnownAxes(col, axes, n))
  {
    hide Known;
    if n > 0 {
      KnownDistinct(col, axes, n - 1);
      KnownStep(col, axes, n);
      var last := if col[n - 1] == 0 then [] else Known(axes[n - 1]);
      if last != [] && last[0] in KnownAxes(col, axes, n - 1) {
        KnownAt(col, axes, n - 1, last[0]);
        var k :| 0 <= k < n - 1 && col[k] != 0 && Known(axes[k]) == [last[0]];
        KnownInjective(axes[k], axes[n - 1]);
      }
    }
  }

  lemma KnownStep(col: seq<int>, axes: seq<Axis>, n: nat)
    requires 0 < n <= |col| == |axes|
    ensures |Known(axes[n - 1])| <= 1
    ensures KnownAxes(col, axes, n) == KnownAxes(col, axes, n - 1) + if col[n - 1] == 0 then [] else Known(axes[n - 1])
  {
  }

  lemma {:induction false} CollectDistinct(axes: seq<(char, nat)>, more: seq<(char, nat)>)
    requires Distinct(axes + more)
    ensures Collect(axes, more) == axes + more
    decreases |more|
  {
    if more == [] {
      assert axes + more == axes;
    } else {
      assert axes + more == (axes + [more[0]]) + more[1..];
      assert forall k :: 0 <= k < |axes| ==> (axes + more)[k] == axes[k];
      assert (axes + more)[|axes|] == more[0];
      CollectDistinct(axes + [more[0]], more[1..]);
    }
  }

  // how many axes the coordinate moves along
  function Moved(col: seq<int>): nat {
    if col == [] then 0 else Moved(col[..|col| - 1]) + if col[|col| - 1] == 0 then 0 else 1
  }

  // none of the first n axes the coordinate moves along is a whole simdgroup or lane index
  ghost predicate AllKnown(col: seq<int>, axes: seq<Axis>, n: nat)
    requires n <= |col| == |axes|
  {
    forall k :: 0 <= k < n && col[k] != 0 ==> !axes[k].Simdgroup? && !axes[k].Lane?
  }

  lemma {:induction false} LostExactly(col: seq<int>, axes: seq<Axis>, n: nat)
    requires n <= |col| == |axes|
    ensures |KnownAxes(col, axes, n)| <= Moved(col[..n])
    ensures |KnownAxes(col, axes, n)| == Moved(col[..n]) <==> AllKnown(col, axes, n)
  {
    if n > 0 {
      LostExactly(col, axes, n - 1);
      KnownStep(col, axes, n);
      assert col[..n][..n - 1] == col[..n - 1];
      hide Known, KnownAxes;
      assert Known(axes[n - 1]) == [] <==> axes[n - 1].Simdgroup? || axes[n - 1].Lane? by { KnownNames(axes[n - 1]); }
    }
  }

  lemma KnownNames(a: Axis)
    ensures Known(a) == [] <==> a.Simdgroup? || a.Lane?
  {
  }

  // writing a coordinate's axes and reading them back keeps, each once and in order, the thread bits, iterations and
  // derived quantities it moves along; nothing is lost exactly when it moves along no whole simdgroup or lane index
  lemma PhysReadBack(col: seq<int>, axes: seq<Axis>, s: string)
    requires |col| == |axes| && DistinctAxes(axes) && forall k :: 0 <= k < |axes| ==> Fits(axes[k])
    requires s == if TermsText(col, axes, |col|) == "" then "0" else TermsText(col, axes, |col|)
    ensures Collect([], Axes(s, 0)) == KnownAxes(col, axes, |col|)
    ensures |Collect([], Axes(s, 0))| == Moved(col) <==> AllKnown(col, axes, |col|)
  {
    hide Axes, Known, KnownAxes, Fits, TermsText, Collect, Moved;
    var t := TermsText(col, axes, |col|);
    TermsRead(col, axes, |col|, "");
    EmptyReads();
    assert t + "" == t && KnownAxes(col, axes, |col|) + [] == KnownAxes(col, axes, |col|);
    assert Axes(s, 0) == KnownAxes(col, axes, |col|);
    KnownDistinct(col, axes, |col|);
    assert [] + Axes(s, 0) == Axes(s, 0);
    CollectDistinct([], Axes(s, 0));
    assert col[..|col|] == col;
    LostExactly(col, axes, |col|);
  }
}
