// The text of a schedule file: lines, whitespace, words and decimal numbers.
module ScheduleText {
  import opened Options

  // what stream extraction skips
  predicate IsSpace(c: char) {
    c == ' ' || c == '\t' || c == '\n' || c == '\r' || c == '\U{000B}' || c == '\U{000C}'
  }

  // a word stream extraction gives back whole
  predicate Word(s: string) {
    s != "" && forall i :: 0 <= i < |s| ==> !IsSpace(s[i])
  }

  // ---- words

  function WordLength(s: string): (n: nat)
    ensures n <= |s|
  {
    if s == "" || IsSpace(s[0]) then 0 else 1 + WordLength(s[1..])
  }

  // the words `is >> tok` extracts, one after the other
  function Words(s: string): seq<string>
    decreases |s|
  {
    if s == "" then []
    else if IsSpace(s[0]) then Words(s[1..])
    else var n := WordLength(s); [s[..n]] + Words(s[n..])
  }

  function Joined(ws: seq<string>): string {
    if ws == [] then "" else if |ws| == 1 then ws[0] else ws[0] + " " + Joined(ws[1..])
  }

  predicate AllWords(ws: seq<string>) {
    forall i :: 0 <= i < |ws| ==> Word(ws[i])
  }

  lemma {:induction false} WordThenRest(w: string, rest: string)
    requires (forall i :: 0 <= i < |w| ==> !IsSpace(w[i])) && (rest == "" || IsSpace(rest[0]))
    ensures WordLength(w + rest) == |w|
  {
    if w == "" {
      assert w + rest == rest;
    } else {
      assert (w + rest)[1..] == w[1..] + rest;
      WordThenRest(w[1..], rest);
    }
  }

  lemma {:induction false} WordsOfJoined(ws: seq<string>)
    requires AllWords(ws)
    ensures Words(Joined(ws)) == ws
  {
    if |ws| == 1 {
      WordThenRest(ws[0], "");
      assert ws[0] + "" == ws[0];
      assert ws[0][|ws[0]|..] == "" && ws[0][..|ws[0]|] == ws[0];
    } else if ws != [] {
      var w, rest := ws[0], " " + Joined(ws[1..]);
      assert Joined(ws) == w + rest;
      WordThenRest(w, rest);
      assert (w + rest)[..|w|] == w && (w + rest)[|w|..] == rest && rest[1..] == Joined(ws[1..]);
      WordsOfJoined(ws[1..]);
      assert Words(rest) == Words(rest[1..]);
    }
  }

  // ---- trimming

  function TrimLeft(s: string): string {
    if s != "" && (s[0] == ' ' || s[0] == '\t') then TrimLeft(s[1..]) else s
  }

  function TrimRight(s: string): string {
    if s != "" && (s[|s| - 1] == ' ' || s[|s| - 1] == '\t' || s[|s| - 1] == '\r') then TrimRight(s[..|s| - 1]) else s
  }

  function Trim(s: string): string {
    TrimRight(TrimLeft(s))
  }

  // nothing to trim at either end
  predicate Trimmed(s: string) {
    s != "" && s[0] != ' ' && s[0] != '\t' && s[|s| - 1] != ' ' && s[|s| - 1] != '\t' && s[|s| - 1] != '\r'
  }

  function Blanks(n: nat): string {
    if n == 0 then "" else " " + Blanks(n - 1)
  }

  lemma {:induction false} LeftIndented(n: nat, s: string)
    requires s != "" && s[0] != ' ' && s[0] != '\t'
    ensures TrimLeft(Blanks(n) + s) == s
  {
    if n == 0 {
      assert "" + s == s;
    } else {
      var t := Blanks(n - 1) + s;
      LeftIndented(n - 1, s);
      assert Blanks(n) + s == " " + t;
      assert (" " + t)[0] == ' ' && (" " + t)[1..] == t;
    }
  }

  lemma TrimIndented(n: nat, s: string)
    requires Trimmed(s)
    ensures Trim(Blanks(n) + s) == s
  {
    LeftIndented(n, s);
    hide TrimLeft, Blanks;
  }

  lemma TrimNothing(s: string)
    requires Trimmed(s)
    ensures Trim(s) == s
  {
  }

  lemma {:induction false} JoinedTrimmed(ws: seq<string>)
    requires AllWords(ws) && ws != []
    ensures Joined(ws) != "" && Joined(ws)[0] == ws[0][0] && Trimmed(Joined(ws))
  {
    if |ws| > 1 {
      JoinedTrimmed(ws[1..]);
      var rest := Joined(ws[1..]);
      assert Joined(ws)[|Joined(ws)| - 1] == rest[|rest| - 1];
    }
  }

  // ---- prefixes

  predicate Starts(s: string, p: string) {
    |p| <= |s| && s[..|p|] == p
  }

  function After(s: string, p: string): string
    requires |p| <= |s|
  {
    Trim(s[|p|..])
  }

  lemma Prefixed(p: string, rest: string)
    ensures Starts(p + rest, p) && (p + rest)[|p|..] == rest
  {
  }

  // the first word and what follows it
  lemma HeadWord(w: string, ws: seq<string>)
    requires AllWords(ws) && ws != []
    ensures Joined([w] + ws) == (w + " ") + Joined(ws)
    ensures Starts(Joined([w] + ws), w + " ") && After(Joined([w] + ws), w + " ") == Joined(ws)
  {
    assert ([w] + ws)[1..] == ws;
    JoinedTrimmed(ws);
    Prefixed(w + " ", Joined(ws));
    TrimNothing(Joined(ws));
  }

  function IndexOfSpace(s: string): (n: nat)
    ensures n <= |s|
  {
    if s == "" || s[0] == ' ' then 0 else 1 + IndexOfSpace(s[1..])
  }

  lemma {:induction false} FirstSpace(w: string, rest: string)
    requires (forall i :: 0 <= i < |w| ==> w[i] != ' ') && (rest == "" || rest[0] == ' ')
    ensures IndexOfSpace(w + rest) == |w|
  {
    if w == "" {
      assert w + rest == rest;
    } else {
      assert (w + rest)[1..] == w[1..] + rest;
      FirstSpace(w[1..], rest);
    }
  }

  // ---- numbers

  predicate IsDigit(c: char) {
    '0' <= c <= '9'
  }

  function Digit(n: nat): (c: char)
    requires n < 10
    ensures IsDigit(c)
  {
    '0' + n as char
  }

  function DigitValue(c: char): nat
    requires IsDigit(c)
  {
    (c - '0') as nat
  }

  function Decimal(n: nat): (s: string)
    ensures s != "" && forall i :: 0 <= i < |s| ==> IsDigit(s[i])
  {
    if n < 10 then [Digit(n)] else Decimal(n / 10) + [Digit(n % 10)]
  }

  // the value of the leading digits
  function LeadingNumber(s: string, value: nat): nat {
    if s == "" || !IsDigit(s[0]) then value else LeadingNumber(s[1..], value * 10 + DigitValue(s[0]))
  }

  const WORD32 := 0x1_0000_0000
  const WORD64 := 0x1_0000_0000_0000_0000

  // (unsigned)std::stoul(s) on text that starts with its number; no number, or one too long, throws
  function Stoul(s: string): Option<nat> {
    if s == "" || !IsDigit(s[0]) then None
    else if LeadingNumber(s, 0) >= WORD64 then None
    else Some(LeadingNumber(s, 0) % WORD32)
  }

  lemma {:induction false} LeadingOfDecimal(n: nat, value: nat)
    ensures LeadingNumber(Decimal(n), value) == value * Tens(n) + n
    decreases n
  {
    if n >= 10 {
      LeadingOfDecimal(n / 10, value);
      LeadingAppend(Decimal(n / 10), Digit(n % 10), value);
      TenTimes(value, Tens(n / 10));
      hide Tens, Decimal, LeadingNumber;
    } else {
      assert Decimal(n)[1..] == "";
    }
  }

  lemma TenTimes(a: nat, b: nat)
    ensures a * (10 * b) == a * b * 10
  {
  }

  function Tens(n: nat): nat {
    if n < 10 then 10 else 10 * Tens(n / 10)
  }

  lemma {:induction false} LeadingAppend(s: string, c: char, value: nat)
    requires (forall i :: 0 <= i < |s| ==> IsDigit(s[i])) && IsDigit(c)
    ensures LeadingNumber(s + [c], value) == LeadingNumber(s, value) * 10 + DigitValue(c)
    decreases |s|
  {
    if s == "" {
      assert (s + [c])[1..] == "";
    } else {
      assert (s + [c])[1..] == s[1..] + [c];
      LeadingAppend(s[1..], c, value * 10 + DigitValue(s[0]));
    }
  }

  lemma StoulOfDecimal(n: nat)
    requires n < WORD32
    ensures Stoul(Decimal(n)) == Some(n) && Word(Decimal(n))
  {
    LeadingOfDecimal(n, 0);
    DigitsAreWord(Decimal(n));
  }

  lemma DigitsAreWord(s: string)
    requires s != "" && forall i :: 0 <= i < |s| ==> IsDigit(s[i])
    ensures Word(s)
  {
  }

  // a key=value word
  lemma KeyedWord(key: string, value: string)
    requires Word(key) && (value == "" || Word(value))
    ensures Word(key + value) && Starts(key + value, key) && (key + value)[|key|..] == value
  {
  }

  // ---- lines

  predicate NoNewline(s: string) {
    forall i :: 0 <= i < |s| ==> s[i] != '\n'
  }

  // each line and its newline
  function Unlines(lines: seq<string>): string {
    if lines == [] then "" else lines[0] + "\n" + Unlines(lines[1..])
  }

  function LineLength(s: string): (n: nat)
    ensures n <= |s|
  {
    if s == "" || s[0] == '\n' then 0 else 1 + LineLength(s[1..])
  }

  // lines between newlines; a last line without one counts when it is not empty
  function Lines(text: string): seq<string>
    decreases |text|
  {
    if text == "" then []
    else
      var n := LineLength(text);
      if n == |text| then [text] else [text[..n]] + Lines(text[n + 1..])
  }

  lemma {:induction false} LineThenRest(line: string, rest: string)
    requires NoNewline(line)
    ensures LineLength(line + "\n" + rest) == |line|
  {
    if line == "" {
      assert line + "\n" + rest == "\n" + rest;
    } else {
      assert (line + "\n" + rest)[1..] == line[1..] + "\n" + rest;
      LineThenRest(line[1..], rest);
    }
  }

  lemma {:induction false} LinesOfUnlines(lines: seq<string>)
    requires forall i :: 0 <= i < |lines| ==> NoNewline(lines[i])
    ensures Lines(Unlines(lines)) == lines
  {
    if lines != [] {
      var line, rest := lines[0], Unlines(lines[1..]);
      LineThenRest(line, rest);
      var text := line + "\n" + rest;
      assert text[..|line|] == line && text[|line| + 1..] == rest;
      LinesOfUnlines(lines[1..]);
    }
  }

  lemma FirstLine(line: string, rest: string)
    requires NoNewline(line)
    ensures Lines(line + "\n" + rest) == [line] + Lines(rest)
  {
    LineThenRest(line, rest);
    var text := line + "\n" + rest;
    assert text[..|line|] == line && text[|line| + 1..] == rest;
  }

  lemma LastLine(line: string)
    requires NoNewline(line)
    ensures Lines(line) == if line == "" then [] else [line]
  {
    WholeLine(line);
  }

  // the loop over the characters
  method SplitLines(text: string) returns (lines: seq<string>)
    ensures lines == Lines(text)
  {
    hide Lines;
    lines := [];
    var cur := "";
    assert "" + text[0..] == text;
    for i := 0 to |text|
      invariant NoNewline(cur)
      invariant Lines(text) == lines + Lines(cur + text[i..])
    {
      if text[i] == '\n' {
        assert cur + text[i..] == cur + "\n" + text[i + 1..];
        FirstLine(cur, text[i + 1..]);
        lines := lines + [cur];
        cur := "";
        assert "" + text[i + 1..] == text[i + 1..];
      } else {
        assert cur + text[i..] == (cur + [text[i]]) + text[i + 1..];
        cur := cur + [text[i]];
      }
    }
    assert cur + text[|text|..] == cur;
    LastLine(cur);
    if cur != "" {
      lines := lines + [cur];
    }
  }

  lemma {:induction false} WholeLine(s: string)
    requires NoNewline(s)
    ensures LineLength(s) == |s|
  {
    if s != "" { WholeLine(s[1..]); }
  }
}
