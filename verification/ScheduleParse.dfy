// Printing a schedule and reading it back.
module ScheduleParse {
  import opened Options
  import opened ScheduleText
  import opened Schedule

  // ---- names of the enumerations

  function BindName(b: Bind): string {
    match b
    case Lane => "lane" case Simdgroup => "simdgroup" case BlockX => "block.x" case BlockY => "block.y"
      case BlockZ => "block.z"
    case Unroll => "unroll" case Time => "time" case Replicate => "replicate" case Launch => "launch"
      case Device => "device"
  }

  function ParseBind(s: string): Option<Bind> {
    if s == "lane" then Some(Lane) else if s == "simdgroup" then Some(Simdgroup)
      else if s == "block.x" then Some(BlockX)
    else if s == "block.y" then Some(BlockY) else if s == "block.z" then Some(BlockZ)
      else if s == "unroll" then Some(Unroll)
    else if s == "time" then Some(Time) else if s == "replicate" then Some(Replicate)
      else if s == "launch" then Some(Launch)
    else if s == "device" then Some(Device) else None
  }

  function StorageName(k: Storage): string {
    match k
    case InDevice => "device" case Threadgroup => "threadgroup" case Register => "register"
      case CoopTensor => "coop-tensor"
    case Recompute => "recompute"
  }

  function ParseStorage(s: string): Option<Storage> {
    if s == "device" then Some(InDevice) else if s == "threadgroup" then Some(Threadgroup)
      else if s == "register" then Some(Register)
    else if s == "coop-tensor" then Some(CoopTensor) else if s == "recompute" then Some(Recompute) else None
  }

  function EngineName(e: Engine): string {
    match e
    case TensorOp => "tensor-op" case ScalarFma => "scalar-fma" case SimdVector => "simd-vector"
  }

  function ParseEngine(s: string): Option<Engine> {
    if s == "tensor-op" then Some(TensorOp) else if s == "scalar-fma" then Some(ScalarFma)
    else if s == "simd-vector" then Some(SimdVector) else None
  }

  function ExchangeName(x: Exchange): string {
    match x
    case NoExchange => "none" case ShuffleTree => "shuffle-tree" case ThreadgroupBuffer => "threadgroup-buffer"
      case Atomic => "atomic"
    case Collective => "collective"
  }

  function ParseExchange(s: string): Option<Exchange> {
    if s == "none" then Some(NoExchange) else if s == "shuffle-tree" then Some(ShuffleTree)
    else if s == "threadgroup-buffer" then Some(ThreadgroupBuffer) else if s == "atomic" then Some(Atomic)
    else if s == "collective" then Some(Collective) else None
  }

  function PrefetchName(p: Prefetch): string {
    match p
    case AtUse => "at-use" case IterationStart => "iteration-start" case Rotate => "rotate"
  }

  function ParsePrefetch(s: string): Option<Prefetch> {
    if s == "at-use" then Some(AtUse) else if s == "iteration-start" then Some(IterationStart)
      else if s == "rotate" then Some(Rotate) else None
  }

  function PredicateName(p: Predication): string {
    match p
    case Branch => "branch" case SelectClamp => "select+clamp" case ZeroPage => "zero-page" case NoPredicate => "none"
  }

  function ParsePredicate(s: string): Option<Predication> {
    if s == "branch" then Some(Branch) else if s == "select+clamp" then Some(SelectClamp)
      else if s == "zero-page" then Some(ZeroPage)
    else if s == "none" then Some(NoPredicate) else None
  }

  lemma BindRoundTrip(b: Bind)
    ensures Word(BindName(b)) && ParseBind(BindName(b)) == Some(b)
  {
  }

  lemma StorageRoundTrip(k: Storage)
    ensures Word(StorageName(k)) && ParseStorage(StorageName(k)) == Some(k)
  {
  }

  lemma EngineRoundTrip(e: Engine)
    ensures Word(EngineName(e)) && ParseEngine(EngineName(e)) == Some(e)
  {
  }

  lemma ExchangeRoundTrip(x: Exchange)
    ensures Word(ExchangeName(x)) && ParseExchange(ExchangeName(x)) == Some(x)
  {
  }

  lemma PrefetchRoundTrip(p: Prefetch)
    ensures Word(PrefetchName(p)) && ParsePrefetch(PrefetchName(p)) == Some(p)
  {
  }

  lemma PredicateRoundTrip(q: Predication)
    ensures Word(PredicateName(q)) && ParsePredicate(PredicateName(q)) == Some(q)
  {
  }

  // ---- the words of each line

  function StageWords(i: nat, st: Stage): seq<string> {
    [Decimal(i), "engine=" + EngineName(st.engine), "exchange=" + ExchangeName(st.exchange),
      "prefetch=" + PrefetchName(st.prefetch), "predicate=" + PredicateName(st.predicate_),
      "thread_scale=" + Decimal(st.threadScale), "smem=" + Decimal(st.smemBytes)]
  }

  function SplitWords(f: Factor): seq<string> {
    [f.name, "coord=" + Decimal(f.coord), "size=" + (if f.size == 0 then "*" else Decimal(f.size)),
      "bind=" + BindName(f.bind)]
  }

  function StorageWords(a: AccessStorage): seq<string> {
    ["t" + Decimal(a.tensor), StorageName(a.kind)] + (if a.ringStages == 0 then []
      else ["ring=" + Decimal(a.ringStages)])
  }

  function HeaderLine(S: Sched): string {
    "schedule " + (if S.kernel == "" then "_" else S.kernel) + " why=" + S.why + " stages=" + Decimal(|S.stages|)
  }

  function StageLine(i: nat, st: Stage): string {
    Blanks(2) + Joined(["stage"] + StageWords(i, st))
  }

  function SplitLine(f: Factor): string {
    Blanks(4) + Joined(["split"] + SplitWords(f))
  }

  function OrderLine(order: seq<string>): string {
    Blanks(4) + Joined(["order"] + order)
  }

  function StorageLine(a: AccessStorage): string {
    Blanks(4) + Joined(["storage"] + StorageWords(a))
  }

  function FactorLines(factors: seq<Factor>): (r: seq<string>) {
    seq(|factors|, i requires 0 <= i < |factors| => SplitLine(factors[i]))
  }

  function StorageLines(storage: seq<AccessStorage>): (r: seq<string>) {
    seq(|storage|, i requires 0 <= i < |storage| => StorageLine(storage[i]))
  }

  function StageLines(i: nat, st: Stage): seq<string> {
    [StageLine(i, st)] + FactorLines(st.factors) + (if st.order == [] then [] else [OrderLine(st.order)])
      + StorageLines(st.storage)
  }

  function AllStageLines(stages: seq<Stage>, n: nat): seq<string>
    requires n <= |stages|
  {
    if n == 0 then [] else AllStageLines(stages, n - 1) + StageLines(n - 1, stages[n - 1])
  }

  function Dump(S: Sched): seq<string> {
    [HeaderLine(S)] + AllStageLines(S.stages, |S.stages|)
  }

  // the printed text, also the key duplicate candidates are found by
  function Canon(S: Sched): string {
    Unlines(Dump(S))
  }

  method DumpStage(i: nat, st: Stage) returns (out: seq<string>)
    ensures out == StageLines(i, st)
  {
    hide StageLine, SplitLine, OrderLine, StorageLine;
    out := [StageLine(i, st)];
    var lines: seq<string> := [];
    for k := 0 to |st.factors|
      invariant lines == FactorLines(st.factors)[..k]
    {
      lines := lines + [SplitLine(st.factors[k])];
    }
    assert lines == FactorLines(st.factors);
    out := out + lines;
    if st.order != [] { out := out + [OrderLine(st.order)]; }
    lines := [];
    for k := 0 to |st.storage|
      invariant lines == StorageLines(st.storage)[..k]
    {
      lines := lines + [StorageLine(st.storage[k])];
    }
    assert lines == StorageLines(st.storage);
    out := out + lines;
    assert [StageLine(i, st)] + FactorLines(st.factors) + [] == [StageLine(i, st)] + FactorLines(st.factors);
  }

  method DumpSchedule(S: Sched) returns (out: seq<string>)
    ensures out == Dump(S)
  {
    hide HeaderLine, StageLines;
    out := [];
    for i := 0 to |S.stages|
      invariant out == AllStageLines(S.stages, i)
    {
      var lines := DumpStage(i, S.stages[i]);
      out := out + lines;
    }
    out := [HeaderLine(S)] + out;
  }

  // ---- reading

  datatype Parsed = Parsed(S: Sched) | Failed

  function SetStageWord(st: Stage, tok: string): Option<Stage> {
    if Starts(tok, "engine=") then Some(match ParseEngine(tok[7..]) case Some(e) => st.(engine := e) case None => st)
    else if Starts(tok, "exchange=") then Some(match ParseExchange(tok[9..]) case Some(x) => st.(exchange := x)
      case None => st)
    else if Starts(tok, "prefetch=") then Some(match ParsePrefetch(tok[9..]) case Some(p) => st.(prefetch := p)
      case None => st)
    else if Starts(tok, "predicate=") then Some(match ParsePredicate(tok[10..]) case Some(q) => st.(predicate_ := q)
      case None => st)
    else if Starts(tok, "thread_scale=") then (match Stoul(tok[13..]) case Some(n) => Some(st.(threadScale := n))
      case None => None)
    else if Starts(tok, "smem=") then (match Stoul(tok[5..]) case Some(n) => Some(st.(smemBytes := n))
      case None => None)
    else Some(st)
  }

  function SetFactorWord(f: Factor, tok: string): Option<Factor> {
    if Starts(tok, "coord=") then (match Stoul(tok[6..]) case Some(n) => Some(f.(coord := n)) case None => None)
    else if Starts(tok, "size=") then
      if tok[5..] == "*" then Some(f.(size := 0))
        else (match Stoul(tok[5..]) case Some(n) => Some(f.(size := n)) case None => None)
    else if Starts(tok, "bind=") then (match ParseBind(tok[5..]) case Some(b) => Some(f.(bind := b)) case None => None)
    else Some(f)
  }

  function SetStorageWord(a: AccessStorage, tok: string): Option<AccessStorage> {
    if Starts(tok, "ring=") then (match Stoul(tok[5..]) case Some(n) => Some(a.(ringStages := n)) case None => None)
    else if Starts(tok, "ring_bytes=") then (match Stoul(tok[11..]) case Some(n) => Some(a.(ringBytes := n))
      case None => None)
    else Some(a)
  }

  function StageOf(toks: seq<string>, st: Stage): Option<Stage> {
    if toks == [] then Some(st)
    else match SetStageWord(st, toks[0]) case None => None case Some(s) => StageOf(toks[1..], s)
  }

  function FactorOf(toks: seq<string>, f: Factor): Option<Factor> {
    if toks == [] then Some(f)
    else match SetFactorWord(f, toks[0]) case None => None case Some(g) => FactorOf(toks[1..], g)
  }

  function RingOf(toks: seq<string>, a: AccessStorage): Option<AccessStorage> {
    if toks == [] then Some(a)
    else match SetStorageWord(a, toks[0]) case None => None case Some(b) => RingOf(toks[1..], b)
  }

  const DEFAULT_FACTOR := Factor("", 0, 0, Time)
  const DEFAULT_STORAGE := AccessStorage(0, InDevice, 0, 0)

  // the kernel is up to the first blank; why is up to the next one
  function ReadHeader(S: Sched, l: string): Sched
    requires Starts(l, "schedule ")
  {
    var k := After(l, "schedule ");
    var sp := IndexOfSpace(k);
    if sp == |k| then S.(kernel := k)
    else
      var rest := k[sp + 1..];
      if Starts(rest, "why=") then S.(kernel := k[..sp], why := rest[4..][..IndexOfSpace(rest[4..])])
        else S.(kernel := k[..sp])
  }

  function ReadFactor(toks: seq<string>): Option<Factor> {
    if toks == [] then Some(DEFAULT_FACTOR) else FactorOf(toks[1..], DEFAULT_FACTOR.(name := toks[0]))
  }

  function ReadStorage(toks: seq<string>): Option<AccessStorage> {
    var t := if |toks| > 0 then toks[0] else "";
    var k := if |toks| > 1 then toks[1] else "";
    var tensor := if t != "" && t[0] == 't' then Stoul(t[1..]) else Some(0);
    if tensor.None? then None
    else match ParseStorage(k)
      case None => None
      case Some(kind) => RingOf(if |toks| > 2 then toks[2..] else [],
        DEFAULT_STORAGE.(tensor := tensor.value, kind := kind))
  }

  function AddTo(S: Sched, st: Stage): Sched
    requires S.stages != []
  {
    S.(stages := S.stages[..|S.stages| - 1] + [st])
  }

  // one line; every line after the header goes to the last stage
  function ReadLine(S: Sched, raw: string): Parsed {
    var l := Trim(raw);
    if l == "" || l[0] == '#' then Parsed(S)
    else if Starts(l, "schedule ") then Parsed(ReadHeader(S, l))
    else if Starts(l, "stage ") then
      match StageOf(Words(After(l, "stage ")), DEFAULT_STAGE)
      case Some(st) => Parsed(S.(stages := S.stages + [st]))
      case None => Failed
    else if S.stages == [] then Failed
    else
      var st := S.stages[|S.stages| - 1];
      if Starts(l, "split ") then
        match ReadFactor(Words(After(l, "split ")))
        case Some(f) => Parsed(AddTo(S, st.(factors := st.factors + [f])))
        case None => Failed
      else if Starts(l, "order") then Parsed(AddTo(S, st.(order := st.order + Words(After(l, "order")))))
      else if Starts(l, "storage ") then
        match ReadStorage(Words(After(l, "storage ")))
        case Some(a) => Parsed(AddTo(S, st.(storage := st.storage + [a])))
        case None => Failed
      else Failed
  }

  function ReadLines(p: Parsed, lines: seq<string>): Parsed
    decreases |lines|
  {
    if p.Failed? || lines == [] then p else ReadLines(ReadLine(p.S, lines[0]), lines[1..])
  }

  const EMPTY := Sched("", "", [])

  function ParseText(text: string): Parsed {
    var p := ReadLines(Parsed(EMPTY), Lines(text));
    if p.Parsed? && p.S.stages == [] then Failed else p
  }

  method Parse(text: string) returns (p: Parsed)
    ensures p == ParseText(text)
  {
    var lines := SplitLines(text);
    p := Parsed(EMPTY);
    for i := 0 to |lines|
      invariant ReadLines(Parsed(EMPTY), lines) == ReadLines(p, lines[i..])
    {
      if p.Parsed? {
        assert lines[i..][1..] == lines[i + 1..];
        p := ReadLine(p.S, lines[i]);
      }
    }
    if p.Parsed? && p.S.stages == [] { p := Failed; }
  }

  // ---- what can be read back

  predicate PrintableStage(st: Stage) {
    && (forall k :: 0 <= k < |st.factors| ==>
      Word(st.factors[k].name) && st.factors[k].coord < WORD32 && st.factors[k].size < WORD32)
    && AllWords(st.order)
    && (forall k :: 0 <= k < |st.storage| ==>
      st.storage[k].tensor < WORD32 && st.storage[k].ringStages < WORD32 && st.storage[k].ringBytes == 0)
    && st.threadScale < WORD32 && st.smemBytes < WORD32
    && st.tensorM == st.tensorN == st.tensorK == 32 && st.fusedWith == []
  }

  // the text up to a blank is one field of the header
  predicate HeaderField(s: string) {
    forall i :: 0 <= i < |s| ==> s[i] != ' ' && s[i] != '\n'
  }

  predicate Printable(S: Sched) {
    && S.kernel != "" && HeaderField(S.kernel) && S.kernel[0] != '\t' && HeaderField(S.why)
    && S.stages != [] && forall i :: 0 <= i < |S.stages| ==> PrintableStage(S.stages[i])
  }

  lemma DecimalEnds(n: nat)
    ensures var c := Decimal(n)[|Decimal(n)| - 1]; IsDigit(c)
  {
  }

  function HeaderTail(S: Sched): string {
    " stages=" + Decimal(|S.stages|)
  }

  function HeaderRest(S: Sched): string {
    "why=" + (S.why + HeaderTail(S))
  }

  function HeaderFields(S: Sched): string {
    S.kernel + (" " + HeaderRest(S))
  }

  lemma HeaderShape(S: Sched)
    requires S.kernel != ""
    ensures HeaderLine(S) == "schedule " + HeaderFields(S)
  {
    hide Decimal;
    var d := Decimal(|S.stages|);
    assert " " + ("why=" + (S.why + (" stages=" + d))) == " why=" + S.why + " stages=" + d;
  }

  lemma HeaderTrimmed(S: Sched)
    requires S.kernel != "" && S.kernel[0] != ' ' && S.kernel[0] != '\t'
    ensures Trimmed(HeaderFields(S)) && Trimmed("schedule " + HeaderFields(S))
  {
    DecimalEnds(|S.stages|);
    hide Decimal;
    LastOf(" stages=", Decimal(|S.stages|));
    LastOf(S.why, HeaderTail(S));
    LastOf("why=", S.why + HeaderTail(S));
    LastOf(" ", HeaderRest(S));
    LastOf(S.kernel, " " + HeaderRest(S));
    LastOf("schedule ", HeaderFields(S));
  }

  lemma HeaderSplits(S: Sched)
    requires HeaderField(S.kernel) && HeaderField(S.why)
    ensures var k := HeaderFields(S);
      IndexOfSpace(k) == |S.kernel| < |k| && k[..|S.kernel|] == S.kernel && k[|S.kernel| + 1..] == HeaderRest(S)
    ensures Starts(HeaderRest(S), "why=") && HeaderRest(S)[4..] == S.why + HeaderTail(S)
    ensures IndexOfSpace(S.why + HeaderTail(S)) == |S.why| && (S.why + HeaderTail(S))[..|S.why|] == S.why
  {
    hide Decimal;
    FirstSpace(S.kernel, " " + HeaderRest(S));
    Prefixed("why=", S.why + HeaderTail(S));
    FirstSpace(S.why, HeaderTail(S));
  }

  lemma HeaderRead(S: Sched, into: Sched)
    requires Printable(S)
    ensures ReadLine(into, HeaderLine(S)) == Parsed(into.(kernel := S.kernel, why := S.why))
  {
    HeaderShape(S);
    HeaderTrimmed(S);
    HeaderSplits(S);
    var l := HeaderLine(S);
    hide HeaderLine, HeaderFields, HeaderRest, HeaderTail, Printable, IndexOfSpace, Trimmed, ReadLine;
    TrimNothing(l);
    TrimNothing(HeaderFields(S));
    hide Trim;
    Prefixed("schedule ", HeaderFields(S));
    PrefixChars(l, "schedule ");
    HeaderDispatch(l, into);
    FieldsRead(S, into, l);
  }

  lemma FieldsRead(S: Sched, into: Sched, l: string)
    requires Starts(l, "schedule ") && After(l, "schedule ") == HeaderFields(S) && HeaderField(S.kernel)
      && HeaderField(S.why)
    ensures ReadHeader(into, l) == into.(kernel := S.kernel, why := S.why)
  {
    HeaderSplits(S);
    hide HeaderFields, HeaderRest, HeaderTail, IndexOfSpace, After;
  }

  lemma HeaderDispatch(raw: string, into: Sched)
    requires Trim(raw) == raw && raw != "" && raw[0] == 's' && Starts(raw, "schedule ")
    ensures ReadLine(into, raw) == Parsed(ReadHeader(into, raw))
  {
    hide Trim, ReadHeader, Starts;
  }

  lemma LastOf(a: string, b: string)
    requires b != ""
    ensures (a + b)[|a + b| - 1] == b[|b| - 1]
  {
  }

  // an indented line of words under its head word
  lemma IndentedLine(indent: nat, head: string, ws: seq<string>)
    requires Word(head) && AllWords(ws) && ws != []
    ensures var l := Trim(Blanks(indent) + Joined([head] + ws));
      l == (head + " ") + Joined(ws) && Starts(l, head + " ") && Starts(l, head) && l != "" && l[0] == head[0]
      && After(l, head + " ") == Joined(ws) && Words(Joined(ws)) == ws && Words(After(l, head)) == ws
  {
    var all := [head] + ws;
    assert AllWords(all);
    JoinedTrimmed(all);
    TrimIndented(indent, Joined(all));
    HeadWord(head, ws);
    WordsOfJoined(ws);
    var l := (head + " ") + Joined(ws);
    assert l[..|head|] == head;
    assert l[|head|..] == Blanks(1) + Joined(ws) by { assert Blanks(1) == " " + Blanks(0) && Blanks(0) == ""; }
    JoinedTrimmed(ws);
    TrimIndented(1, Joined(ws));
  }

  lemma StartsOtherwise(l: string, head: string, p: string, k: nat)
    requires Starts(l, head) && k < |head| && k < |p| && head[k] != p[k]
    ensures !Starts(l, p)
  {
    PrefixChars(l, head);
    PrefixChars(l, p);
  }

  lemma PrefixChars(l: string, p: string)
    ensures Starts(l, p) ==> forall k :: 0 <= k < |p| ==> l[k] == p[k]
  {
    if Starts(l, p) {
      forall k | 0 <= k < |p| ensures l[k] == p[k] {
        assert l[..|p|][k] == l[k];
      }
    }
  }

  // ---- each line is read as what it was printed from

  lemma StageWordsAre(i: nat, st: Stage)
    ensures AllWords(StageWords(i, st))
  {
    DecimalIsWord(i);
    DecimalIsWord(st.threadScale);
    DecimalIsWord(st.smemBytes);
    EngineRoundTrip(st.engine);
    ExchangeRoundTrip(st.exchange);
    PrefetchRoundTrip(st.prefetch);
    PredicateRoundTrip(st.predicate_);
    hide Decimal, EngineName, ExchangeName, PrefetchName, PredicateName;
    KeyedWord("engine=", EngineName(st.engine));
    KeyedWord("exchange=", ExchangeName(st.exchange));
    KeyedWord("prefetch=", PrefetchName(st.prefetch));
    KeyedWord("predicate=", PredicateName(st.predicate_));
    KeyedWord("thread_scale=", Decimal(st.threadScale));
    KeyedWord("smem=", Decimal(st.smemBytes));
  }

  lemma DecimalIsWord(n: nat)
    ensures Word(Decimal(n)) && IsDigit(Decimal(n)[0])
  {
    DigitsAreWord(Decimal(n));
  }

  // the stage a stage line opens
  function Opened(st: Stage): Stage {
    DEFAULT_STAGE.(engine := st.engine, exchange := st.exchange, prefetch := st.prefetch, predicate_ := st.predicate_,
                   threadScale := st.threadScale, smemBytes := st.smemBytes)
  }

  lemma EnumTokens(st: Stage, e: Engine, x: Exchange)
    ensures SetStageWord(st, "engine=" + EngineName(e)) == Some(st.(engine := e))
    ensures SetStageWord(st, "exchange=" + ExchangeName(x)) == Some(st.(exchange := x))
  {
    EngineRoundTrip(e);
    ExchangeRoundTrip(x);
    hide EngineName, ExchangeName, ParseEngine, ParseExchange, Stoul;
    KeyedWord("engine=", EngineName(e));
    KeyedWord("exchange=", ExchangeName(x));
    StartsOtherwise("exchange=" + ExchangeName(x), "exchange=", "engine=", 1);
  }

  lemma MoreEnumTokens(st: Stage, p: Prefetch, q: Predication)
    ensures SetStageWord(st, "prefetch=" + PrefetchName(p)) == Some(st.(prefetch := p))
    ensures SetStageWord(st, "predicate=" + PredicateName(q)) == Some(st.(predicate_ := q))
  {
    PrefetchRoundTrip(p);
    PredicateRoundTrip(q);
    hide PrefetchName, PredicateName, ParsePrefetch, ParsePredicate, Stoul;
    KeyedWord("prefetch=", PrefetchName(p));
    KeyedWord("predicate=", PredicateName(q));
    var a, b := "prefetch=" + PrefetchName(p), "predicate=" + PredicateName(q);
    StartsOtherwise(a, "prefetch=", "engine=", 0);
    StartsOtherwise(a, "prefetch=", "exchange=", 0);
    StartsOtherwise(b, "predicate=", "engine=", 0);
    StartsOtherwise(b, "predicate=", "exchange=", 0);
    StartsOtherwise(b, "predicate=", "prefetch=", 3);
  }

  lemma NumberTokens(st: Stage, i: nat, n: nat)
    requires n < WORD32
    ensures SetStageWord(st, Decimal(i)) == Some(st)
    ensures SetStageWord(st, "thread_scale=" + Decimal(n)) == Some(st.(threadScale := n))
    ensures SetStageWord(st, "smem=" + Decimal(n)) == Some(st.(smemBytes := n))
  {
    StoulOfDecimal(n);
    DecimalIsWord(i);
    hide Decimal, Stoul;
    KeyedWord("thread_scale=", Decimal(n));
    KeyedWord("smem=", Decimal(n));
    var a, b := "thread_scale=" + Decimal(n), "smem=" + Decimal(n);
    NoKey(a);
    NoKey(b);
    NoKey(Decimal(i));
    StartsOtherwise(b, "smem=", "thread_scale=", 0);
    PrefixChars(Decimal(i), "thread_scale=");
    PrefixChars(Decimal(i), "smem=");
  }

  lemma NoKey(tok: string)
    requires tok != "" && tok[0] != 'e' && tok[0] != 'p'
    ensures !Starts(tok, "engine=") && !Starts(tok, "exchange=") && !Starts(tok, "prefetch=")
      && !Starts(tok, "predicate=")
  {
    PrefixChars(tok, "engine=");
    PrefixChars(tok, "exchange=");
    PrefixChars(tok, "prefetch=");
    PrefixChars(tok, "predicate=");
  }

  lemma StageOfCons(tok: string, toks: seq<string>, st: Stage, st': Stage)
    requires SetStageWord(st, tok) == Some(st')
    ensures StageOf([tok] + toks, st) == StageOf(toks, st')
  {
    assert ([tok] + toks)[1..] == toks;
  }

  lemma StageWordsRead(i: nat, st: Stage)
    requires st.threadScale < WORD32 && st.smemBytes < WORD32
    ensures StageOf(StageWords(i, st), DEFAULT_STAGE) == Some(Opened(st))
  {
    var w := StageWords(i, st);
    var s1 := DEFAULT_STAGE.(engine := st.engine);
    var s2 := s1.(exchange := st.exchange);
    var s3 := s2.(prefetch := st.prefetch);
    var s4 := s3.(predicate_ := st.predicate_);
    var s5 := s4.(threadScale := st.threadScale);
    var s6 := s5.(smemBytes := st.smemBytes);
    NumberTokens(DEFAULT_STAGE, i, 0);
    EnumTokens(DEFAULT_STAGE, st.engine, st.exchange);
    EnumTokens(s1, st.engine, st.exchange);
    MoreEnumTokens(s2, st.prefetch, st.predicate_);
    MoreEnumTokens(s3, st.prefetch, st.predicate_);
    NumberTokens(s4, i, st.threadScale);
    NumberTokens(s5, i, st.smemBytes);
    hide SetStageWord, Decimal, EngineName, ExchangeName, PrefetchName, PredicateName;
    assert w == [w[0]] + ([w[1]] + ([w[2]] + ([w[3]] + ([w[4]] + ([w[5]] + ([w[6]] + []))))));
    StageOfCons(w[6], [], s5, s6);
    StageOfCons(w[5], [w[6]] + [], s4, s5);
    StageOfCons(w[4], [w[5]] + ([w[6]] + []), s3, s4);
    StageOfCons(w[3], [w[4]] + ([w[5]] + ([w[6]] + [])), s2, s3);
    StageOfCons(w[2], [w[3]] + ([w[4]] + ([w[5]] + ([w[6]] + []))), s1, s2);
    StageOfCons(w[1], [w[2]] + ([w[3]] + ([w[4]] + ([w[5]] + ([w[6]] + [])))), DEFAULT_STAGE, s1);
    StageOfCons(w[0], [w[1]] + ([w[2]] + ([w[3]] + ([w[4]] + ([w[5]] + ([w[6]] + []))))), DEFAULT_STAGE, DEFAULT_STAGE);
  }

  lemma StageRead(i: nat, st: Stage, into: Sched)
    requires st.threadScale < WORD32 && st.smemBytes < WORD32
    ensures ReadLine(into, StageLine(i, st)) == Parsed(into.(stages := into.stages + [Opened(st)]))
  {
    StageWordsAre(i, st);
    StageWordsRead(i, st);
    IndentedLine(2, "stage", StageWords(i, st));
    var l := Trim(StageLine(i, st));
    StartsOtherwise(l, "stage", "schedule ", 1);
    assert "stage" + " " == "stage ";
    hide Trim, Joined, Words, StageWords, StageOf, ReadHeader;
  }

  // ---- factors

  lemma SplitWordsAre(f: Factor)
    requires Word(f.name)
    ensures AllWords(SplitWords(f))
  {
    DecimalIsWord(f.coord);
    DecimalIsWord(f.size);
    BindRoundTrip(f.bind);
    hide Decimal, BindName;
    KeyedWord("coord=", Decimal(f.coord));
    KeyedWord("size=", if f.size == 0 then "*" else Decimal(f.size));
    KeyedWord("bind=", BindName(f.bind));
  }

  lemma FactorTokens(f: Factor, c: nat, n: nat, b: Bind)
    requires c < WORD32 && n < WORD32
    ensures SetFactorWord(f, "coord=" + Decimal(c)) == Some(f.(coord := c))
    ensures SetFactorWord(f, "size=" + (if n == 0 then "*" else Decimal(n))) == Some(f.(size := n))
    ensures SetFactorWord(f, "bind=" + BindName(b)) == Some(f.(bind := b))
  {
    StoulOfDecimal(c);
    StoulOfDecimal(n);
    DecimalIsWord(n);
    BindRoundTrip(b);
    hide Decimal, BindName, ParseBind, Stoul;
    var v := if n == 0 then "*" else Decimal(n);
    KeyedWord("coord=", Decimal(c));
    KeyedWord("size=", v);
    KeyedWord("bind=", BindName(b));
    assert n > 0 ==> v != "*";
    StartsOtherwise("size=" + v, "size=", "coord=", 0);
    StartsOtherwise("bind=" + BindName(b), "bind=", "coord=", 0);
    StartsOtherwise("bind=" + BindName(b), "bind=", "size=", 0);
  }

  lemma FactorOfCons(tok: string, toks: seq<string>, f: Factor, f': Factor)
    requires SetFactorWord(f, tok) == Some(f')
    ensures FactorOf([tok] + toks, f) == FactorOf(toks, f')
  {
    assert ([tok] + toks)[1..] == toks;
  }

  lemma FactorRead(f: Factor)
    requires f.coord < WORD32 && f.size < WORD32
    ensures ReadFactor(SplitWords(f)) == Some(f)
  {
    var w := SplitWords(f);
    var f0 := DEFAULT_FACTOR.(name := f.name);
    var f1 := f0.(coord := f.coord);
    var f2 := f1.(size := f.size);
    FactorTokens(f0, f.coord, f.size, f.bind);
    FactorTokens(f1, f.coord, f.size, f.bind);
    FactorTokens(f2, f.coord, f.size, f.bind);
    hide SetFactorWord, Decimal, BindName;
    assert w[1..] == [w[1]] + ([w[2]] + ([w[3]] + []));
    FactorOfCons(w[3], [], f2, f);
    FactorOfCons(w[2], [w[3]] + [], f1, f2);
    FactorOfCons(w[1], [w[2]] + ([w[3]] + []), f0, f1);
  }

  lemma SplitRead(f: Factor, into: Sched)
    requires into.stages != [] && Word(f.name) && f.coord < WORD32 && f.size < WORD32
    ensures var st := into.stages[|into.stages| - 1];
      ReadLine(into, SplitLine(f)) == Parsed(AddTo(into, st.(factors := st.factors + [f])))
  {
    SplitWordsAre(f);
    FactorRead(f);
    IndentedLine(4, "split", SplitWords(f));
    SplitHead(Trim(SplitLine(f)));
    hide Trim, Joined, Words, SplitWords, ReadFactor, Decimal, BindName, ReadLine, Starts, After, Word;
    SplitDispatch(SplitLine(f), into);
  }

  lemma SplitHead(l: string)
    requires Starts(l, "split")
    ensures !Starts(l, "schedule ") && !Starts(l, "stage ") && "split" + " " == "split "
  {
    StartsOtherwise(l, "split", "schedule ", 1);
    StartsOtherwise(l, "split", "stage ", 1);
  }

  lemma SplitDispatch(raw: string, into: Sched)
    requires var l := Trim(raw);
      l != "" && l[0] == 's' && !Starts(l, "schedule ") && !Starts(l, "stage ") && Starts(l, "split ")
    requires into.stages != []
    ensures var st := into.stages[|into.stages| - 1];
      ReadLine(into, raw) == match ReadFactor(Words(After(Trim(raw), "split ")))
        case Some(f) => Parsed(AddTo(into, st.(factors := st.factors + [f])))
        case None => Failed
  {
    hide Trim, Words, After, ReadFactor, ReadStorage, StageOf, ReadHeader, Starts;
  }

  lemma OrderRead(order: seq<string>, into: Sched)
    requires into.stages != [] && AllWords(order) && order != []
    ensures var st := into.stages[|into.stages| - 1];
      ReadLine(into, OrderLine(order)) == Parsed(AddTo(into, st.(order := st.order + order)))
  {
    IndentedLine(4, "order", order);
    var l := Trim(OrderLine(order));
    StartsOtherwise(l, "order", "schedule ", 0);
    StartsOtherwise(l, "order", "stage ", 0);
    StartsOtherwise(l, "order", "split ", 0);
    hide Trim, Joined, Words, ReadHeader;
  }

  // ---- storage

  lemma StorageTokens(a: AccessStorage, n: nat)
    requires n < WORD32
    ensures SetStorageWord(a, "ring=" + Decimal(n)) == Some(a.(ringStages := n))
  {
    StoulOfDecimal(n);
    hide Decimal, Stoul;
    KeyedWord("ring=", Decimal(n));
  }

  lemma StorageWordsRead(a: AccessStorage)
    requires a.tensor < WORD32 && a.ringStages < WORD32 && a.ringBytes == 0
    ensures AllWords(StorageWords(a)) && ReadStorage(StorageWords(a)) == Some(a)
  {
    StoulOfDecimal(a.tensor);
    DecimalIsWord(a.ringStages);
    StorageRoundTrip(a.kind);
    var a0 := DEFAULT_STORAGE.(tensor := a.tensor, kind := a.kind);
    StorageTokens(a0, a.ringStages);
    hide Decimal, Stoul, StorageName, ParseStorage, SetStorageWord;
    KeyedWord("t", Decimal(a.tensor));
    KeyedWord("ring=", Decimal(a.ringStages));
    var w := StorageWords(a);
    if a.ringStages == 0 {
      assert w == ["t" + Decimal(a.tensor), StorageName(a.kind)];
    } else {
      var ring := "ring=" + Decimal(a.ringStages);
      assert w[2..] == [ring] && [ring][1..] == [];
      assert RingOf([ring], a0) == RingOf([], a0.(ringStages := a.ringStages));
    }
  }

  lemma StorageRead(a: AccessStorage, into: Sched)
    requires into.stages != [] && a.tensor < WORD32 && a.ringStages < WORD32 && a.ringBytes == 0
    ensures var st := into.stages[|into.stages| - 1];
      ReadLine(into, StorageLine(a)) == Parsed(AddTo(into, st.(storage := st.storage + [a])))
  {
    StorageWordsRead(a);
    IndentedLine(4, "storage", StorageWords(a));
    StorageHead(Trim(StorageLine(a)));
    hide Trim, Joined, Words, StorageWords, ReadStorage, Decimal, StorageName, ReadLine, Starts, After, Word;
    StorageDispatch(StorageLine(a), into);
  }

  lemma StorageHead(l: string)
    requires Starts(l, "storage")
    ensures !Starts(l, "schedule ") && !Starts(l, "stage ") && !Starts(l, "split ") && !Starts(l, "order")
      && "storage" + " " == "storage "
  {
    StartsOtherwise(l, "storage", "schedule ", 1);
    StartsOtherwise(l, "storage", "stage ", 2);
    StartsOtherwise(l, "storage", "split ", 1);
    StartsOtherwise(l, "storage", "order", 0);
  }

  lemma StorageDispatch(raw: string, into: Sched)
    requires Trim(raw) != "" && Trim(raw)[0] == 's' && !Starts(Trim(raw), "schedule ") && !Starts(Trim(raw), "stage ")
    requires !Starts(Trim(raw), "split ") && !Starts(Trim(raw), "order") && Starts(Trim(raw), "storage ")
    requires into.stages != []
    ensures var st := into.stages[|into.stages| - 1];
      ReadLine(into, raw) == match ReadStorage(Words(After(Trim(raw), "storage ")))
        case Some(a) => Parsed(AddTo(into, st.(storage := st.storage + [a])))
        case None => Failed
  {
    hide Trim, Words, After, ReadFactor, ReadStorage, StageOf, ReadHeader, Starts;
  }

  // ---- whole stages and schedules

  lemma {:induction false} ReadConcat(p: Parsed, a: seq<string>, b: seq<string>)
    ensures ReadLines(p, a + b) == ReadLines(ReadLines(p, a), b)
    decreases |a|
  {
    hide ReadLine;
    if a == [] {
      assert a + b == b;
    } else if p.Parsed? {
      assert (a + b)[0] == a[0] && (a + b)[1..] == a[1..] + b;
      ReadConcat(ReadLine(p.S, a[0]), a[1..], b);
    }
  }

  lemma ReadOne(S: Sched, line: string)
    ensures ReadLines(Parsed(S), [line]) == ReadLine(S, line)
  {
    hide ReadLine;
    assert [line][1..] == [];
  }

  // the schedule with the last stage replaced
  function Grown(S: Sched, st: Stage): Sched {
    Sched(S.kernel, S.why, S.stages + [st])
  }

  lemma GrownAgain(S: Sched, st: Stage, st': Stage)
    ensures AddTo(Grown(S, st), st') == Grown(S, st') && Grown(S, st).stages[|Grown(S, st).stages| - 1] == st
  {
  }

  lemma {:induction false} FactorsRead(S: Sched, base: Stage, st: Stage, n: nat)
    requires PrintableStage(st) && n <= |st.factors| && base.factors == []
    ensures ReadLines(Parsed(Grown(S, base)), FactorLines(st.factors)[..n])
      == Parsed(Grown(S, base.(factors := st.factors[..n])))
  {
    hide ReadLine, SplitLine, Word;
    if n == 0 {
      assert base.(factors := st.factors[..0]) == base;
    } else {
      FactorsRead(S, base, st, n - 1);
      var f := st.factors[n - 1];
      var before := Grown(S, base.(factors := st.factors[..n - 1]));
      assert FactorLines(st.factors)[..n] == FactorLines(st.factors)[..n - 1] + [SplitLine(f)];
      ReadConcat(Parsed(Grown(S, base)), FactorLines(st.factors)[..n - 1], [SplitLine(f)]);
      ReadOne(before, SplitLine(f));
      SplitRead(f, before);
      GrownAgain(S, base.(factors := st.factors[..n - 1]), base.(factors := st.factors[..n]));
      assert st.factors[..n] == st.factors[..n - 1] + [f];
    }
  }

  lemma {:induction false} StorageAllRead(S: Sched, base: Stage, st: Stage, n: nat)
    requires PrintableStage(st) && n <= |st.storage| && base.storage == []
    ensures ReadLines(Parsed(Grown(S, base)), StorageLines(st.storage)[..n])
      == Parsed(Grown(S, base.(storage := st.storage[..n])))
  {
    hide ReadLine, StorageLine, Word;
    if n == 0 {
      assert base.(storage := st.storage[..0]) == base;
    } else {
      StorageAllRead(S, base, st, n - 1);
      var a := st.storage[n - 1];
      var before := Grown(S, base.(storage := st.storage[..n - 1]));
      assert StorageLines(st.storage)[..n] == StorageLines(st.storage)[..n - 1] + [StorageLine(a)];
      ReadConcat(Parsed(Grown(S, base)), StorageLines(st.storage)[..n - 1], [StorageLine(a)]);
      ReadOne(before, StorageLine(a));
      StorageRead(a, before);
      GrownAgain(S, base.(storage := st.storage[..n - 1]), base.(storage := st.storage[..n]));
      assert st.storage[..n] == st.storage[..n - 1] + [a];
    }
  }

  lemma OrderAllRead(S: Sched, base: Stage, st: Stage)
    requires PrintableStage(st) && base.order == []
    ensures ReadLines(Parsed(Grown(S, base)), if st.order == [] then [] else [OrderLine(st.order)])
      == Parsed(Grown(S, base.(order := st.order)))
  {
    hide ReadLine, OrderLine, Word;
    if st.order == [] {
      assert base.(order := st.order) == base;
    } else {
      ReadOne(Grown(S, base), OrderLine(st.order));
      OrderRead(st.order, Grown(S, base));
      GrownAgain(S, base, base.(order := st.order));
      assert base.order + st.order == st.order;
    }
  }

  lemma StageLinesRead(S: Sched, i: nat, st: Stage)
    requires PrintableStage(st)
    ensures ReadLines(Parsed(S), StageLines(i, st)) == Parsed(Grown(S, st))
  {
    hide ReadLine, StageLine, OrderLine, Word, FactorLines, StorageLines, ReadLines;
    var s1 := Opened(st);
    var s2 := s1.(factors := st.factors);
    var s3 := s2.(order := st.order);
    var order := if st.order == [] then [] else [OrderLine(st.order)];
    var a, b, c := [StageLine(i, st)], FactorLines(st.factors), StorageLines(st.storage);
    ReadOne(S, StageLine(i, st));
    StageRead(i, st, S);
    assert S.(stages := S.stages + [s1]) == Grown(S, s1);
    WholeLists(st);
    FactorsRead(S, s1, st, |st.factors|);
    OrderAllRead(S, s2, st);
    StorageAllRead(S, s3, st, |st.storage|);
    ReadConcat(Parsed(S), a + b + order, c);
    ReadConcat(Parsed(S), a + b, order);
    ReadConcat(Parsed(S), a, b);
    assert s3.(storage := st.storage) == st;
  }

  lemma WholeLists(st: Stage)
    ensures FactorLines(st.factors)[..|st.factors|] == FactorLines(st.factors)
      && st.factors[..|st.factors|] == st.factors
    ensures StorageLines(st.storage)[..|st.storage|] == StorageLines(st.storage)
      && st.storage[..|st.storage|] == st.storage
    ensures |FactorLines(st.factors)| == |st.factors| && |StorageLines(st.storage)| == |st.storage|
  {
  }

  lemma {:induction false} StagesRead(S: Sched, stages: seq<Stage>, n: nat)
    requires n <= |stages| && S.stages == [] && forall i :: 0 <= i < |stages| ==> PrintableStage(stages[i])
    ensures ReadLines(Parsed(S), AllStageLines(stages, n)) == Parsed(Sched(S.kernel, S.why, stages[..n]))
  {
    hide ReadLine, StageLines, PrintableStage;
    if n > 0 {
      StagesRead(S, stages, n - 1);
      var before := Sched(S.kernel, S.why, stages[..n - 1]);
      ReadConcat(Parsed(S), AllStageLines(stages, n - 1), StageLines(n - 1, stages[n - 1]));
      StageLinesRead(before, n - 1, stages[n - 1]);
      assert stages[..n] == stages[..n - 1] + [stages[n - 1]];
    }
  }

  lemma DumpRead(S: Sched)
    requires Printable(S)
    ensures ReadLines(Parsed(EMPTY), Dump(S)) == Parsed(S)
  {
    var mid := Sched(S.kernel, S.why, []);
    HeaderRead(S, EMPTY);
    hide ReadLine, HeaderLine, AllStageLines, HeaderField, PrintableStage, ReadLines;
    ReadOne(EMPTY, HeaderLine(S));
    ReadConcat(Parsed(EMPTY), [HeaderLine(S)], AllStageLines(S.stages, |S.stages|));
    StagesRead(mid, S.stages, |S.stages|);
    assert S.stages[..|S.stages|] == S.stages;
  }

  // ---- no newline inside a line

  lemma NoNewlineConcat(a: string, b: string)
    requires NoNewline(a) && NoNewline(b)
    ensures NoNewline(a + b)
  {
  }

  lemma {:induction false} BlanksNoNewline(n: nat)
    ensures NoNewline(Blanks(n))
  {
    if n > 0 { BlanksNoNewline(n - 1); }
  }

  lemma {:induction false} JoinedNoNewline(ws: seq<string>)
    requires AllWords(ws)
    ensures NoNewline(Joined(ws))
  {
    if |ws| > 1 {
      JoinedNoNewline(ws[1..]);
      NoNewlineConcat(ws[0] + " ", Joined(ws[1..]));
    }
  }

  lemma IndentedNoNewline(n: nat, head: string, ws: seq<string>)
    requires Word(head) && AllWords(ws)
    ensures NoNewline(Blanks(n) + Joined([head] + ws))
  {
    BlanksNoNewline(n);
    JoinedNoNewline([head] + ws);
    NoNewlineConcat(Blanks(n), Joined([head] + ws));
  }

  ghost predicate Clean(lines: seq<string>) {
    forall i :: 0 <= i < |lines| ==> NoNewline(lines[i])
  }

  lemma StageClean(i: nat, st: Stage)
    requires PrintableStage(st)
    ensures Clean(StageLines(i, st))
  {
    StageWordsAre(i, st);
    IndentedNoNewline(2, "stage", StageWords(i, st));
    hide NoNewline, SplitLine, OrderLine, StorageLine, Word;
    forall k | 0 <= k < |st.factors| ensures NoNewline(SplitLine(st.factors[k])) {
      SplitClean(st.factors[k]);
    }
    forall k | 0 <= k < |st.storage| ensures NoNewline(StorageLine(st.storage[k])) {
      StorageClean(st.storage[k]);
    }
    OrderClean(st.order);
    hide StageLine, PrintableStage;
  }

  lemma SplitClean(f: Factor)
    requires Word(f.name)
    ensures NoNewline(SplitLine(f))
  {
    SplitWordsAre(f);
    hide SplitWords, NoNewline;
    IndentedNoNewline(4, "split", SplitWords(f));
  }

  lemma StorageClean(a: AccessStorage)
    requires a.tensor < WORD32 && a.ringStages < WORD32 && a.ringBytes == 0
    ensures NoNewline(StorageLine(a))
  {
    StorageWordsRead(a);
    hide StorageWords, NoNewline;
    IndentedNoNewline(4, "storage", StorageWords(a));
  }

  lemma OrderClean(order: seq<string>)
    requires AllWords(order)
    ensures NoNewline(OrderLine(order))
  {
    hide NoNewline;
    IndentedNoNewline(4, "order", order);
  }

  lemma {:induction false} StagesClean(stages: seq<Stage>, n: nat)
    requires n <= |stages| && forall i :: 0 <= i < |stages| ==> PrintableStage(stages[i])
    ensures Clean(AllStageLines(stages, n))
  {
    hide StageLines, PrintableStage, NoNewline;
    if n > 0 {
      StagesClean(stages, n - 1);
      StageClean(n - 1, stages[n - 1]);
    }
  }

  lemma DumpClean(S: Sched)
    requires Printable(S)
    ensures Clean(Dump(S))
  {
    StagesClean(S.stages, |S.stages|);
    HeaderClean(S);
    hide AllStageLines, PrintableStage, HeaderLine, NoNewline;
  }

  lemma HeaderClean(S: Sched)
    requires S.kernel != "" && HeaderField(S.kernel) && HeaderField(S.why)
    ensures NoNewline(HeaderLine(S))
  {
    HeaderShape(S);
    DecimalIsWord(|S.stages|);
    assert NoNewline(Decimal(|S.stages|)) && NoNewline(S.kernel) && NoNewline(S.why);
    assert NoNewline(" stages=") && NoNewline("why=") && NoNewline(" ") && NoNewline("schedule ");
    hide Decimal, HeaderLine, NoNewline;
    NoNewlineConcat(" stages=", Decimal(|S.stages|));
    NoNewlineConcat(S.why, HeaderTail(S));
    NoNewlineConcat("why=", S.why + HeaderTail(S));
    NoNewlineConcat(" ", HeaderRest(S));
    NoNewlineConcat(S.kernel, " " + HeaderRest(S));
    NoNewlineConcat("schedule ", HeaderFields(S));
  }

  // reading what was printed gives the schedule back
  lemma PrintParse(S: Sched)
    requires Printable(S)
    ensures ParseText(Canon(S)) == Parsed(S)
  {
    DumpClean(S);
    hide Dump, ReadLines, PrintableStage;
    LinesOfUnlines(Dump(S));
    DumpRead(S);
  }

  // so two printable schedules with one text are one schedule
  lemma CanonInjective(S: Sched, R: Sched)
    requires Printable(S) && Printable(R) && Canon(S) == Canon(R)
    ensures S == R
  {
    PrintParse(S);
    PrintParse(R);
  }
}
