// The reduction kernel the emitter builds, as threads of a block: a strided scan, an xor butterfly per warp in
// lockstep, one partial per warp in threadgroup memory, a barrier, and a few threads that combine the partials and
// write the outputs. Threads interleave in any order; shuffles take a whole warp at once, the barrier a whole block.
module LockstepKernel {
  import opened Options
  import opened Reduction

  lemma RowStart(row: nat, K: nat)
    ensures row * K >= 0
  {
  }

  const WARP := 32

  // the block sizes the emitter takes: at least a warp, and no part of one
  ghost predicate WholeWarps(T: nat) {
    exists w :: w > 0 && T == WARP * w
  }

  lemma WholeWarpsTest(T: nat)
    ensures WholeWarps(T) <==> T >= WARP && T % WARP == 0
  {
    if T >= WARP && T % WARP == 0 { assert T == WARP * (T / WARP); }
  }

  // The block reads the elements base, base + 1, ..., base + len - 1 of the buffer mem. After the barrier the first
  // `heads` threads combine the partials, and thread t of them writes the outputs t, t + heads, ... as finish(total,
  // d), output d to the place `to` + d of the output buffer.
  datatype Kernel<!V, !O> = Kernel(m: Algebra<V>, mem: seq<V>, base: nat, len: nat, warps: nat, heads: nat,
      outputs: nat, to: nat, finish: (V, nat) -> O)

  ghost predicate InBounds<V, O>(K: Kernel<V, O>) {
    K.base + K.len <= |K.mem|
  }

  // what the scan reads at index k of its row; a launched block stays within the buffer
  function Fetch<V, O>(K: Kernel<V, O>, k: nat): V {
    if K.base + k < |K.mem| then K.mem[K.base + k] else K.m.unit
  }

  // what the block reads
  function RowOf<V, O>(K: Kernel<V, O>): (x: seq<V>)
    ensures |x| == K.len
  {
    seq(K.len, k requires 0 <= k < K.len => Fetch(K, k))
  }

  lemma RowAt<V, O>(K: Kernel<V, O>, k: nat)
    requires k < K.len
    ensures RowOf(K)[k] == Fetch(K, k)
  {
  }

  predicate WroteTo<V, O>(K: Kernel<V, O>, out: map<nat, O>, a: nat) {
    a >= K.to && a - K.to in out
  }

  // what it wrote to the output buffer
  function Written<V, O>(K: Kernel<V, O>, out: map<nat, O>): map<nat, O> {
    map a: nat | K.to <= a < K.to + K.outputs && WroteTo(K, out, a) :: out[a - K.to]
  }

  datatype Stage<!V> = Scan(k: nat) | Shuffle(off: nat) | Store | AtBarrier | Collect(i: nat, tot: V)
      | Emit(tot: V, d: nat) | Done

  datatype State<!V, !O> = State(stage: seq<Stage<V>>, acc: seq<V>, sm: seq<Option<V>>, out: map<nat, O>)

  function Threads<V, O>(K: Kernel<V, O>): nat {
    WARP * K.warps
  }

  ghost predicate Launchable<V(!new), O>(K: Kernel<V, O>) {
    && InBounds(K) && Lawful(K.m) && AllGood(K.m, RowOf(K)) && K.warps > 0 && 0 < K.heads <= Threads(K)
    && (Total(K.m)
      || (AlmostTotal(K.m) && Threads(K) <= K.len + WARP / 2
          && forall k :: 0 <= k < K.len ==> RowOf(K)[k] != K.m.unit))
  }

  ghost function Start<V(!new), O>(K: Kernel<V, O>): State<V, O> {
    State(seq(Threads(K), t requires 0 <= t < Threads(K) => Scan(t)), seq(Threads(K), t => K.m.unit),
      seq(K.warps, w => None), map[])
  }

  ghost predicate Shaped<V(!new), O>(K: Kernel<V, O>, s: State<V, O>) {
    |s.stage| == |s.acc| == Threads(K) && |s.sm| == K.warps
  }

  // ---- steps

  ghost predicate ThreadStep<V(!new), O(!new)>(K: Kernel<V, O>, s: State<V, O>, t: nat, s': State<V, O>)
    requires Shaped(K, s) && t < Threads(K)
  {
    match s.stage[t]
    case Scan(k) =>
      if k < K.len then
        s' == s.(stage := s.stage[t := Scan(k + Threads(K))],
                 acc := s.acc[t := K.m.combine(s.acc[t], Fetch(K, k))])
      else s' == s.(stage := s.stage[t := Shuffle(WARP / 2)])
    case Shuffle(off) => off == 0 && s' == s.(stage := s.stage[t := if t % WARP == 0 then Store else AtBarrier])
    case Store => s' == s.(stage := s.stage[t := AtBarrier], sm := s.sm[t / WARP := Some(s.acc[t])])
    case AtBarrier => false
    case Collect(i, tot) =>
      // an unwritten slot may hold anything
      if i < K.warps then exists v ::
        (s.sm[i].Some? ==> v == s.sm[i].value) && s' == s.(stage := s.stage[t := Collect(i + 1, K.m.combine(tot, v))])
      else s' == s.(stage := s.stage[t := Emit(tot, t)])
    case Emit(tot, d) =>
      if d < K.outputs then s' == s.(stage := s.stage[t := Emit(tot, d + K.heads)], out := s.out[d := K.finish(tot, d)])
      else s' == s.(stage := s.stage[t := Done])
    case Done => false
  }

  // a shuffle: every lane of the warp at the same offset
  ghost predicate WarpStep<V(!new), O(!new)>(K: Kernel<V, O>, s: State<V, O>, w: nat, s': State<V, O>)
    requires Shaped(K, s) && w < K.warps
  {
    var lo, hi := WARP * w, WARP * w + WARP;
    && s.stage[lo].Shuffle?
    && var off := s.stage[lo].off;
    && off > 0 && (forall t :: lo <= t < hi ==> s.stage[t] == Shuffle(off))
    && (forall i :: 0 <= i < WARP ==> Flip(i, off) < WARP)
    && s' == s.(stage := s.stage[..lo] + seq(WARP, i => Shuffle(off / 2)) + s.stage[hi..],
                acc := s.acc[..lo] + Round(K.m, s.acc[lo..hi], off) + s.acc[hi..])
  }

  // the barrier opens when every thread of the block has arrived
  ghost predicate BarrierStep<V(!new), O(!new)>(K: Kernel<V, O>, s: State<V, O>, s': State<V, O>)
    requires Shaped(K, s)
  {
    && (forall t :: 0 <= t < Threads(K) ==> s.stage[t].AtBarrier?)
    && s' == s.(stage := seq(Threads(K), t requires 0 <= t < Threads(K) => if t < K.heads then Collect(0, K.m.unit)
      else Done))
  }

  ghost predicate Next<V(!new), O(!new)>(K: Kernel<V, O>, s: State<V, O>, s': State<V, O>) {
    Shaped(K, s) &&
    ((exists t :: 0 <= t < Threads(K) && ThreadStep(K, s, t, s'))
      || (exists w :: 0 <= w < K.warps && WarpStep(K, s, w, s'))
      || BarrierStep(K, s, s'))
  }

  // ---- what the parts must be

  ghost function Parts<V(!new), O>(K: Kernel<V, O>): (p: seq<V>)
    requires K.warps > 0
    ensures |p| == Threads(K)
  {
    Strided(K.m, RowOf(K), Threads(K), K.len)
  }

  ghost function WarpOf<V(!new), O>(K: Kernel<V, O>, w: nat): (p: seq<V>)
    requires w < K.warps
    ensures |p| == WARP
  {
    Parts(K)[WARP * w..WARP * w + WARP]
  }

  ghost function Partials<V(!new), O>(K: Kernel<V, O>): (p: seq<V>)
    requires K.warps > 0
    ensures |p| == K.warps
  {
    Blocks(K.m, Parts(K), WARP, K.warps)
  }

  lemma PartialIsFold<V(!new), O>(K: Kernel<V, O>, w: nat)
    requires w < K.warps
    ensures Partials(K)[w] == Fold(K.m, WarpOf(K, w))
  {
    BlockAt(K.m, Parts(K), WARP, K.warps, w);
    assert WARP * (w + 1) == WARP * w + WARP;
  }

  // the partials together are the whole row
  lemma PartialsCover<V(!new), O>(K: Kernel<V, O>)
    requires Launchable(K)
    ensures Fold(K.m, Partials(K)) == Fold(K.m, RowOf(K)) && AllGood(K.m, Partials(K)) && AllGood(K.m, Parts(K))
  {
    hide Lawful;
    StridedCovers(K.m, RowOf(K), Threads(K), K.len);
    BlocksCover(K.m, Parts(K), WARP, K.warps);
    assert Parts(K)[..WARP * K.warps] == Parts(K) && RowOf(K)[..K.len] == RowOf(K);
  }

  lemma {:induction false} StridedNotUnit<V(!new)>(m: Algebra<V>, x: seq<V>, parts: nat, t: nat, bound: nat)
    requires Lawful(m) && AllGood(m, x) && AlmostTotal(m) && t < parts && t < bound <= |x|
    requires forall k :: 0 <= k < |x| ==> x[k] != m.unit
    ensures Strided(m, x, parts, bound)[t] != m.unit
  {
    hide Lawful, AlmostTotal;
    StridedCovers(m, x, parts, bound - 1);
    var s := Strided(m, x, parts, bound - 1);
    SpecNotUnit(m, s[t], x[bound - 1]);
    if bound - 1 == t {
      Small(t, parts);
    } else {
      StridedNotUnit(m, x, parts, t, bound - 1);
    }
  }

  lemma Small(t: nat, parts: nat)
    requires t < parts
    ensures t % parts == t
  {
  }

  lemma SpecNotUnit<V(!new)>(m: Algebra<V>, a: V, b: V)
    requires AlmostTotal(m) && m.good(a) && m.good(b) && (a != m.unit || b != m.unit)
    ensures m.combine(a, b) == m.spec(a, b) != m.unit
  {
  }

  lemma {:induction false} FoldNotUnit<V(!new)>(m: Algebra<V>, v: seq<V>)
    requires Lawful(m) && AllGood(m, v) && AlmostTotal(m) && v != [] && v[0] != m.unit
    ensures Fold(m, v) != m.unit
  {
    var n := |v| - 1;
    FoldGood(m, v[..n]);
    if n > 0 { FoldNotUnit(m, v[..n]); } else { Laws(m, v[0], v[0], v[0]); }
  }

  lemma WarpAgrees<V(!new), O>(K: Kernel<V, O>, w: nat)
    requires Launchable(K) && w < K.warps
    ensures AllGood(K.m, WarpOf(K, w)) && Agrees(K.m, WarpOf(K, w))
    ensures Total(K.m) || Partials(K)[w] != K.m.unit
  {
    PartialsCover(K);
    var v := WarpOf(K, w);
    if !Total(K.m) {
      forall i | 0 <= i && 2 * i < WARP ensures v[i] != K.m.unit {
        var t := WARP * w + i;
        WarpIndex(w, i, K.warps);
        StridedNotUnit(K.m, RowOf(K), Threads(K), t, K.len);
      }
      FoldNotUnit(K.m, v);
      PartialIsFold(K, w);
    }
  }

  lemma WarpIndex(w: nat, i: nat, warps: nat)
    requires w < warps && i < WARP
    ensures WARP * w + i < WARP * warps && (WARP * w + i) / WARP == w && (WARP * w + i) % WARP == i
  {
  }

  // ---- the invariant

  ghost predicate IsOffset(off: nat) {
    off == 16 || off == 8 || off == 4 || off == 2 || off == 1 || off == 0
  }

  function StepOf(off: nat): nat {
    if off == 0 then 1 else 2 * off
  }

  predicate Past<V>(g: Stage<V>) {
    g.Collect? || g.Emit? || g.Done?
  }

  // the shuffle round a thread takes part in next; 0 once its warp has finished
  function NextRound<V>(g: Stage<V>): nat {
    match g
    case Scan(_) => WARP / 2
    case Shuffle(off) => off
    case _ => 0
  }

  function Min(a: nat, b: nat): nat {
    if a < b then a else b
  }

  ghost predicate Wrote<O>(out: map<nat, O>, heads: nat, t: nat, bound: nat)
    requires heads > 0
  {
    forall d :: 0 <= d < bound && d % heads == t ==> d in out
  }

  ghost predicate ThreadOk<V(!new), O>(K: Kernel<V, O>, t: nat, g: Stage<V>, acc: V, slot: Option<V>, out: map<nat, O>)
    requires K.warps > 0 && K.heads > 0 && t < Threads(K)
  {
    var w := t / WARP;
    match g
    case Scan(k) => k % Threads(K) == t && acc == Strided(K.m, RowOf(K), Threads(K), Min(k, K.len))[t]
    case Shuffle(off) => IsOffset(off) && acc == Class(K.m, WarpOf(K, w), t % WARP % StepOf(off), StepOf(off))
    case Store => t % WARP == 0 && acc == Fold(K.m, WarpOf(K, w))
    case AtBarrier => t % WARP == 0 ==> slot == Some(Partials(K)[w])
    case Collect(i, tot) => t < K.heads && i <= K.warps && tot == Fold(K.m, Partials(K)[..i])
    case Emit(tot, d) => t < K.heads && tot == Fold(K.m, Partials(K)) && d % K.heads == t
      && Wrote(out, K.heads, t, Min(d, K.outputs))
    case Done => t < K.heads ==> Wrote(out, K.heads, t, K.outputs)
  }

  ghost predicate AllOk<V(!new), O>(K: Kernel<V, O>, s: State<V, O>)
    requires Shaped(K, s) && K.warps > 0 && K.heads > 0
  {
    forall t :: 0 <= t < Threads(K) ==> ThreadOk(K, t, s.stage[t], s.acc[t], s.sm[t / WARP], s.out)
  }

  // before the barrier nobody is past it; after it everybody is, and every partial is in place
  ghost predicate Phased<V(!new), O>(K: Kernel<V, O>, s: State<V, O>)
    requires Shaped(K, s) && K.warps > 0
  {
    || (forall t :: 0 <= t < Threads(K) ==> !Past(s.stage[t]))
    || ((forall t :: 0 <= t < Threads(K) ==> Past(s.stage[t])) && forall w :: 0 <= w < K.warps ==>
      s.sm[w] == Some(Partials(K)[w]))
  }

  ghost predicate InRounds<V(!new), O>(K: Kernel<V, O>, s: State<V, O>)
    requires Shaped(K, s)
  {
    forall t, u :: 0 <= t < Threads(K) && 0 <= u < Threads(K) && t / WARP == u / WARP ==>
      NextRound(s.stage[t]) == NextRound(s.stage[u])
  }

  ghost predicate OutOk<V(!new), O>(K: Kernel<V, O>, out: map<nat, O>)
    requires K.warps > 0
  {
    forall d :: d in out ==> d < K.outputs && out[d] == K.finish(Fold(K.m, Partials(K)), d)
  }

  ghost predicate Inv<V(!new), O>(K: Kernel<V, O>, s: State<V, O>) {
    Launchable(K) && Shaped(K, s) && AllOk(K, s) && Phased(K, s) && InRounds(K, s) && OutOk(K, s.out)
  }

  lemma StartInv<V(!new), O>(K: Kernel<V, O>)
    requires Launchable(K)
    ensures Inv(K, Start(K))
  {
    var s := Start(K);
    forall t | 0 <= t < Threads(K) ensures ThreadOk(K, t, s.stage[t], s.acc[t], s.sm[t / WARP], s.out) {
      Small(t, Threads(K));
      forall k | 0 <= k < Min(t, K.len) ensures k % Threads(K) != t { Small(k, Threads(K)); }
      StridedKeeps(K.m, RowOf(K), Threads(K), t, 0, Min(t, K.len));
    }
  }

  // ---- one thread's step keeps its own condition

  lemma Combines<V(!new), O>(K: Kernel<V, O>, a: V, b: V)
    requires Launchable(K) && K.m.good(a) && K.m.good(b) && (Total(K.m) || b != K.m.unit)
    ensures K.m.combine(a, b) == K.m.spec(a, b)
  {
  }

  lemma ScanStep<V(!new), O>(K: Kernel<V, O>, t: nat, k: nat, acc: V)
    requires Launchable(K) && t < Threads(K) && k < K.len && k % Threads(K) == t
    requires acc == Strided(K.m, RowOf(K), Threads(K), k)[t]
    ensures (k + Threads(K)) % Threads(K) == t
    ensures K.m.combine(acc, RowOf(K)[k]) == Strided(K.m, RowOf(K), Threads(K), Min(k + Threads(K), K.len))[t]
  {
    hide Strided, Threads, Launchable;
    StridedGood(K, k, t);
    ElementGood(K, k);
    Combines(K, acc, RowOf(K)[k]);
    StridedAdvance(K.m, RowOf(K), Threads(K), t, k);
  }

  lemma ElementGood<V(!new), O>(K: Kernel<V, O>, k: nat)
    requires Launchable(K) && k < K.len
    ensures K.m.good(RowOf(K)[k]) && (Total(K.m) || RowOf(K)[k] != K.m.unit)
  {
    hide Lawful, AlmostTotal;
  }

  lemma StridedGood<V(!new), O>(K: Kernel<V, O>, k: nat, t: nat)
    requires Launchable(K) && t < Threads(K) && k <= K.len
    ensures K.m.good(Strided(K.m, RowOf(K), Threads(K), k)[t])
  {
    hide Lawful, Strided, Threads;
    StridedCovers(K.m, RowOf(K), Threads(K), k);
  }

  // from one index of a residue class to the next, the entry takes in one value
  lemma StridedAdvance<V(!new)>(m: Algebra<V>, x: seq<V>, T: nat, t: nat, k: nat)
    requires T > 0 && t < T && k < |x| && k % T == t
    ensures (k + T) % T == t && Strided(m, x, T, Min(k + T, |x|))[t] == m.spec(Strided(m, x, T, k)[t], x[k])
  {
    StridedNext(m, x, T, k);
    hide Strided;
    NextResidue(k, T);
    forall j | k + 1 <= j < Min(k + T, |x|) ensures j % T != t { BetweenResidues(k, j, T); }
    StridedKeeps(m, x, T, t, k + 1, Min(k + T, |x|));
  }

  lemma StridedNext<V(!new)>(m: Algebra<V>, x: seq<V>, parts: nat, k: nat)
    requires parts > 0 && k < |x|
    ensures Strided(m, x, parts, k + 1)[k % parts] == m.spec(Strided(m, x, parts, k)[k % parts], x[k])
  {
  }

  lemma NextResidue(k: nat, T: nat)
    requires T > 0
    ensures (k + T) % T == k % T
  {
    Quotient(k, T);
    DivMod(k + T, T, k / T + 1, k % T);
  }

  lemma BetweenResidues(k: nat, j: nat, T: nat)
    requires T > 0 && k < j < k + T
    ensures j % T != k % T
  {
    Quotient(k, T);
    Quotient(j, T);
    if j % T == k % T {
      var q: int := j / T - k / T;
      assert T * q == j - k;
      Multiple(T, q);
    }
  }

  // a thread that has scanned everything holds its part, and its part is its class before the first round
  lemma ScanEnds<V(!new), O>(K: Kernel<V, O>, t: nat, k: nat, acc: V)
    requires Launchable(K) && t < Threads(K) && k >= K.len && acc == Strided(K.m, RowOf(K), Threads(K), K.len)[t]
    ensures acc == Class(K.m, WarpOf(K, t / WARP), t % WARP % StepOf(WARP / 2), StepOf(WARP / 2))
  {
    var w, lane := t / WARP, t % WARP;
    hide Lawful, Strided, AlmostTotal, Total, Class, Agrees;
    PartInWarp(K, t);
    hide Threads, WarpOf;
    WarpAgrees(K, w);
    hide Launchable;
    FirstClass(K.m, WarpOf(K, w), lane);
  }

  lemma FirstClass<V(!new)>(m: Algebra<V>, warp: seq<V>, lane: nat)
    requires Lawful(m) && AllGood(m, warp) && lane < |warp| == WARP
    ensures warp[lane] == Class(m, warp, lane % StepOf(WARP / 2), StepOf(WARP / 2))
  {
    hide Lawful, Class, AllGood;
    ClassOne(m, warp, lane, WARP);
    Small(lane, WARP);
  }

  lemma PartInWarp<V(!new), O>(K: Kernel<V, O>, t: nat)
    requires t < Threads(K)
    ensures t / WARP < K.warps && WarpOf(K, t / WARP)[t % WARP] == Parts(K)[t]
    ensures Parts(K)[t] == Strided(K.m, RowOf(K), Threads(K), K.len)[t]
  {
  }

  lemma ShuffleEnds<V(!new), O>(K: Kernel<V, O>, t: nat, acc: V)
    requires Launchable(K) && t < Threads(K) && acc == Class(K.m, WarpOf(K, t / WARP), t % WARP % StepOf(0), StepOf(0))
    ensures acc == Fold(K.m, WarpOf(K, t / WARP))
  {
    hide Lawful, Class, Strided, Agrees, AllGood, Partials;
    WarpAgrees(K, t / WARP);
    var warp := WarpOf(K, t / WARP);
    hide WarpOf;
    ClassAll(K.m, warp, 0);
    assert warp[0..] == warp && t % WARP % 1 == 0;
  }

  lemma CollectStep<V(!new), O>(K: Kernel<V, O>, i: nat, tot: V)
    requires Launchable(K) && i < K.warps && tot == Fold(K.m, Partials(K)[..i])
    ensures K.m.combine(tot, Partials(K)[i]) == Fold(K.m, Partials(K)[..i + 1])
  {
    PartialsCover(K);
    WarpAgrees(K, i);
    FoldGood(K.m, Partials(K)[..i]);
    Combines(K, tot, Partials(K)[i]);
    assert Partials(K)[..i + 1][..i] == Partials(K)[..i];
  }

  lemma EmitStep<O>(out: map<nat, O>, heads: nat, t: nat, d: nat, outputs: nat, y: O)
    requires heads > 0 && d < outputs && d % heads == t && Wrote(out, heads, t, d)
    ensures (d + heads) % heads == t && Wrote(out[d := y], heads, t, Min(d + heads, outputs))
  {
    NextResidue(d, heads);
    forall e | 0 <= e < Min(d + heads, outputs) && e % heads == t ensures e in out[d := y] {
      if e > d { BetweenResidues(d, e, heads); }
    }
  }

  // what a thread's step leaves: everybody else untouched but for a slot or an output set to its right value
  ghost predicate Kept<V(!new), O(!new)>(K: Kernel<V, O>, s: State<V, O>, t: nat, s': State<V, O>)
    requires Launchable(K) && Shaped(K, s) && t < Threads(K)
  {
    && Shaped(K, s') && ThreadOk(K, t, s'.stage[t], s'.acc[t], s'.sm[t / WARP], s'.out)
    && (forall u :: 0 <= u < Threads(K) && u != t ==> s'.stage[u] == s.stage[u] && s'.acc[u] == s.acc[u])
    && (forall w :: 0 <= w < K.warps ==> s'.sm[w] == s.sm[w] || s'.sm[w] == Some(Partials(K)[w]))
    && (forall d :: d in s.out ==> d in s'.out)
    && OutOk(K, s'.out)
    && Past(s.stage[t]) == Past(s'.stage[t]) && NextRound(s.stage[t]) == NextRound(s'.stage[t])
  }

  lemma ScanOk<V(!new), O>(K: Kernel<V, O>, t: nat, k: nat, acc: V, slot: Option<V>, out: map<nat, O>)
    requires Launchable(K) && t < Threads(K) && ThreadOk(K, t, Scan(k), acc, slot, out)
    ensures k < K.len ==> ThreadOk(K, t, Scan(k + Threads(K)), K.m.combine(acc, Fetch(K, k)), slot, out)
    ensures k >= K.len ==> ThreadOk(K, t, Shuffle(WARP / 2), acc, slot, out)
  {
    hide Threads, Strided, Class, WarpOf, Lawful, Fetch, RowOf;
    if k < K.len {
      RowAt(K, k);
      ScanStep(K, t, k, acc);
    } else {
      ScanEnds(K, t, k, acc);
    }
  }

  lemma ScanStepIs<V(!new), O(!new)>(K: Kernel<V, O>, s: State<V, O>, t: nat, s': State<V, O>)
    requires Shaped(K, s) && t < Threads(K) && ThreadStep(K, s, t, s') && s.stage[t].Scan?
    ensures var k := s.stage[t].k;
      s' == if k < K.len then s.(stage := s.stage[t := Scan(k + Threads(K))],
                                 acc := s.acc[t := K.m.combine(s.acc[t], Fetch(K, k))])
            else s.(stage := s.stage[t := Shuffle(WARP / 2)])
  {
    hide Fetch, Threads;
  }

  // a step that changes one thread's stage and accumulator only
  lemma OnlyThread<V(!new), O(!new)>(K: Kernel<V, O>, s: State<V, O>, t: nat, g: Stage<V>, acc: V)
    requires Launchable(K) && Shaped(K, s) && t < Threads(K) && OutOk(K, s.out)
    requires ThreadOk(K, t, g, acc, s.sm[t / WARP], s.out)
    requires Past(s.stage[t]) == Past(g) && NextRound(s.stage[t]) == NextRound(g)
    ensures Kept(K, s, t, s.(stage := s.stage[t := g], acc := s.acc[t := acc]))
  {
    hide ThreadOk, Launchable, OutOk, Partials, Past, NextRound;
  }

  lemma ScanKeeps<V(!new), O(!new)>(K: Kernel<V, O>, s: State<V, O>, t: nat, s': State<V, O>)
    requires Inv(K, s) && t < Threads(K) && ThreadStep(K, s, t, s') && s.stage[t].Scan?
    ensures Kept(K, s, t, s')
  {
    NothingOut(K, s);
    OneOk(K, s, t);
    ScanStepIs(K, s, t, s');
    var k := s.stage[t].k;
    ScanOk(K, t, k, s.acc[t], s.sm[t / WARP], s.out);
    var g := if k < K.len then Scan(k + Threads(K)) else Shuffle(WARP / 2);
    var acc := if k < K.len then K.m.combine(s.acc[t], Fetch(K, k)) else s.acc[t];
    assert s.acc[t := s.acc[t]] == s.acc;
    assert s' == s.(stage := s.stage[t := g], acc := s.acc[t := acc]);
    assert Past(s.stage[t]) == Past(g) && NextRound(s.stage[t]) == NextRound(g);
    hide *;
    OnlyThread(K, s, t, g, acc);
  }

  lemma WarpKeeps<V(!new), O(!new)>(K: Kernel<V, O>, s: State<V, O>, t: nat, s': State<V, O>)
    requires Inv(K, s) && t < Threads(K) && ThreadStep(K, s, t, s') && (s.stage[t].Shuffle? || s.stage[t].Store?)
    ensures Kept(K, s, t, s')
  {
    assert ThreadOk(K, t, s.stage[t], s.acc[t], s.sm[t / WARP], s.out);
    if s.stage[t].Shuffle? { ShuffleEnds(K, t, s.acc[t]); } else { PartialIsFold(K, t / WARP); }
    hide Launchable, AllOk, InRounds, Strided, Class, OutOk, Partials, WarpOf;
    if s.stage[t].Shuffle? && t % WARP != 0 { assert s'.stage[t] == AtBarrier; }
  }

  lemma CollectOk<V(!new), O>(K: Kernel<V, O>, t: nat, i: nat, tot: V, acc: V, slot: Option<V>, out: map<nat, O>)
    requires Launchable(K) && t < Threads(K) && ThreadOk(K, t, Collect(i, tot), acc, slot, out)
    ensures i < K.warps ==> ThreadOk(K, t, Collect(i + 1, K.m.combine(tot, Partials(K)[i])), acc, slot, out)
    ensures i >= K.warps ==> ThreadOk(K, t, Emit(tot, t), acc, slot, out)
  {
    hide Lawful, Strided, Class, Partials, Threads;
    if i < K.warps {
      CollectStep(K, i, tot);
    } else {
      assert Partials(K)[..i] == Partials(K);
      Small(t, K.heads);
      NoneBefore(out, K.heads, t, K.outputs);
    }
  }

  lemma AfterBarrier<V(!new), O(!new)>(K: Kernel<V, O>, s: State<V, O>, t: nat)
    requires K.warps > 0 && Shaped(K, s) && Phased(K, s) && t < Threads(K) && Past(s.stage[t])
    ensures forall w :: 0 <= w < K.warps ==> s.sm[w] == Some(Partials(K)[w])
  {
    hide Partials;
  }

  lemma CollectKeeps<V(!new), O(!new)>(K: Kernel<V, O>, s: State<V, O>, t: nat, s': State<V, O>)
    requires Inv(K, s) && t < Threads(K) && ThreadStep(K, s, t, s') && s.stage[t].Collect?
    ensures Kept(K, s, t, s')
  {
    NothingOut(K, s);
    hide ThreadOk, Launchable, AllOk, Phased, InRounds, OutOk, Partials, Threads;
    OneOk(K, s, t);
    AfterBarrier(K, s, t);
    CollectOk(K, t, s.stage[t].i, s.stage[t].tot, s.acc[t], s.sm[t / WARP], s.out);
  }

  // no output below t belongs to thread t
  lemma NoneBefore<O>(out: map<nat, O>, heads: nat, t: nat, outputs: nat)
    requires t < heads
    ensures Wrote(out, heads, t, Min(t, outputs))
  {
    forall d | 0 <= d < Min(t, outputs) ensures d % heads != t { Small(d, heads); }
  }

  lemma EmitOk<V(!new), O>(K: Kernel<V, O>, t: nat, tot: V, d: nat, acc: V, slot: Option<V>, out: map<nat, O>)
    requires Launchable(K) && t < Threads(K) && ThreadOk(K, t, Emit(tot, d), acc, slot, out) && OutOk(K, out)
    ensures d < K.outputs ==>
      ThreadOk(K, t, Emit(tot, d + K.heads), acc, slot, out[d := K.finish(tot, d)])
        && OutOk(K, out[d := K.finish(tot, d)])
    ensures d >= K.outputs ==> ThreadOk(K, t, Done, acc, slot, out)
  {
    hide Lawful, Strided, Class, Partials, Wrote, Threads;
    if d < K.outputs { EmitStep(out, K.heads, t, d, K.outputs, K.finish(tot, d)); }
  }

  lemma EmitKeeps<V(!new), O(!new)>(K: Kernel<V, O>, s: State<V, O>, t: nat, s': State<V, O>)
    requires Inv(K, s) && t < Threads(K) && ThreadStep(K, s, t, s') && s.stage[t].Emit?
    ensures Kept(K, s, t, s')
  {
    NothingOut(K, s);
    hide ThreadOk, Launchable, AllOk, Phased, InRounds, OutOk, Partials, Threads, Fetch, Past, NextRound, Kept;
    OneOk(K, s, t);
    var tot, d := s.stage[t].tot, s.stage[t].d;
    EmitOk(K, t, tot, d, s.acc[t], s.sm[t / WARP], s.out);
    SamePast(tot, d, d + K.heads);
    if d < K.outputs {
      OneWritten(K, s, t, Emit(tot, d + K.heads), d, K.finish(tot, d));
    } else {
      OneWritten(K, s, t, Done, d, K.finish(tot, d));
    }
  }

  lemma SamePast<V>(tot: V, d: nat, e: nat)
    ensures Past<V>(Emit(tot, d)) && Past<V>(Emit(tot, e)) && Past<V>(Done)
    ensures NextRound<V>(Emit(tot, d)) == NextRound<V>(Emit(tot, e)) == NextRound<V>(Done)
  {
  }

  // a step that changes one thread's stage, and may write one output
  lemma OneWritten<V(!new), O(!new)>(K: Kernel<V, O>, s: State<V, O>, t: nat, g: Stage<V>, d: nat, y: O)
    requires Launchable(K) && Shaped(K, s) && t < Threads(K)
    requires Past(s.stage[t]) == Past(g) && NextRound(s.stage[t]) == NextRound(g)
    ensures OutOk(K, s.out) && ThreadOk(K, t, g, s.acc[t], s.sm[t / WARP], s.out) ==>
      Kept(K, s, t, s.(stage := s.stage[t := g]))
    ensures OutOk(K, s.out[d := y]) && ThreadOk(K, t, g, s.acc[t], s.sm[t / WARP], s.out[d := y]) ==>
      Kept(K, s, t, s.(stage := s.stage[t := g], out := s.out[d := y]))
  {
    hide ThreadOk, Launchable, OutOk, Partials, Past, NextRound;
  }

  lemma ThreadKeeps<V(!new), O(!new)>(K: Kernel<V, O>, s: State<V, O>, t: nat, s': State<V, O>)
    requires Inv(K, s) && t < Threads(K) && ThreadStep(K, s, t, s')
    ensures Kept(K, s, t, s')
  {
    assert Launchable(K) && Shaped(K, s);
    hide Inv, Kept;
    match s.stage[t]
    case Scan(_) => ScanKeeps(K, s, t, s');
    case Collect(_, _) => CollectKeeps(K, s, t, s');
    case Emit(_, _) => EmitKeeps(K, s, t, s');
    case _ => WarpKeeps(K, s, t, s');
  }

  // ---- every step keeps the invariant

  lemma ThreadInv<V(!new), O(!new)>(K: Kernel<V, O>, s: State<V, O>, t: nat, s': State<V, O>)
    requires Inv(K, s) && t < Threads(K) && ThreadStep(K, s, t, s')
    ensures Inv(K, s')
  {
    ThreadKeeps(K, s, t, s');
    forall u | 0 <= u < Threads(K) ensures ThreadOk(K, u, s'.stage[u], s'.acc[u], s'.sm[u / WARP], s'.out) {
      assert ThreadOk(K, u, s.stage[u], s.acc[u], s.sm[u / WARP], s.out);
      if u != t { OtherOk(K, u, s.stage[u], s.acc[u], s.sm[u / WARP], s.out, s'.sm[u / WARP], s'.out); }
    }
    hide ThreadOk, Launchable, ThreadStep, OutOk, AllOk;
    PhaseKept(K, s, t, s');
    RoundsKept(K, s, t, s');
  }

  lemma OtherOk<V(!new), O>(K: Kernel<V, O>, u: nat, g: Stage<V>, acc: V, slot: Option<V>, out: map<nat, O>,
      slot': Option<V>, out': map<nat, O>)
    requires K.warps > 0 && K.heads > 0 && u < Threads(K) && ThreadOk(K, u, g, acc, slot, out)
    requires slot' == slot || slot' == Some(Partials(K)[u / WARP])
    requires forall d :: d in out ==> d in out'
    ensures ThreadOk(K, u, g, acc, slot', out')
  {
    hide Class, Strided, Partials, WarpOf;
  }

  lemma PhaseKept<V(!new), O(!new)>(K: Kernel<V, O>, s: State<V, O>, t: nat, s': State<V, O>)
    requires Launchable(K) && Shaped(K, s) && t < Threads(K) && Phased(K, s) && Kept(K, s, t, s')
    ensures Phased(K, s')
  {
    hide ThreadOk, Launchable, OutOk, Partials;
  }

  lemma RoundsKept<V(!new), O(!new)>(K: Kernel<V, O>, s: State<V, O>, t: nat, s': State<V, O>)
    requires Launchable(K) && Shaped(K, s) && t < Threads(K) && InRounds(K, s) && Kept(K, s, t, s')
    ensures InRounds(K, s')
  {
    hide ThreadOk, Launchable, OutOk, Partials;
  }

  // a shuffle of a whole warp
  lemma WarpInv<V(!new), O(!new)>(K: Kernel<V, O>, s: State<V, O>, w: nat, s': State<V, O>)
    requires Inv(K, s) && w < K.warps && WarpStep(K, s, w, s')
    ensures Inv(K, s')
  {
    var lo, off := WARP * w, s.stage[WARP * w].off;
    WarpShuffle(K, s, w, off);
    WarpFrame(K, s, w, s');
    WarpAllOk(K, s, w, s', off, Round(K.m, s.acc[lo..lo + WARP], off));
    hide ThreadOk, Launchable, OutOk, AllOk, WarpStep;
    WarpPhased(K, s, w, s', off);
  }

  lemma WarpAllOk<V(!new), O(!new)>(K: Kernel<V, O>, s: State<V, O>, w: nat, s': State<V, O>, off: nat, round: seq<V>)
    requires Inv(K, s) && Shaped(K, s') && w < K.warps && off > 0 && s'.sm == s.sm && s'.out == s.out
    requires IsOffset(off / 2) && StepOf(off / 2) == off && Exchanged(K.m, WarpOf(K, w), round, off)
    requires forall u :: 0 <= u < Threads(K) && !(WARP * w <= u < WARP * w + WARP) ==>
      s'.stage[u] == s.stage[u] && s'.acc[u] == s.acc[u]
    requires forall u :: WARP * w <= u < WARP * w + WARP ==>
      s'.stage[u] == Shuffle(off / 2) && s'.acc[u] == round[u - WARP * w]
    ensures AllOk(K, s')
  {
    NothingOut(K, s);
    hide ThreadOk, Launchable, Phased, InRounds, OutOk, WarpOf, Exchanged, StepOf, IsOffset;
    forall u | 0 <= u < Threads(K) ensures ThreadOk(K, u, s'.stage[u], s'.acc[u], s'.sm[u / WARP], s'.out) {
      WarpThreadOk(K, s, w, s', off, round, u);
    }
  }

  lemma WarpThreadOk<V(!new), O(!new)>(K: Kernel<V, O>, s: State<V, O>, w: nat, s': State<V, O>, off: nat,
      round: seq<V>, u: nat)
    requires K.warps > 0 && K.heads > 0 && Shaped(K, s) && AllOk(K, s) && Shaped(K, s')
    requires w < K.warps && off > 0 && s'.sm == s.sm && s'.out == s.out && u < Threads(K)
    requires IsOffset(off / 2) && StepOf(off / 2) == off && Exchanged(K.m, WarpOf(K, w), round, off)
    requires !(WARP * w <= u < WARP * w + WARP) ==> s'.stage[u] == s.stage[u] && s'.acc[u] == s.acc[u]
    requires WARP * w <= u < WARP * w + WARP ==> s'.stage[u] == Shuffle(off / 2) && s'.acc[u] == round[u - WARP * w]
    ensures ThreadOk(K, u, s'.stage[u], s'.acc[u], s'.sm[u / WARP], s'.out)
  {
    hide ThreadOk, WarpOf, Exchanged, StepOf, IsOffset, AllOk;
    if WARP * w <= u < WARP * w + WARP {
      ShuffledOk(K, w, off, u - WARP * w, round, s'.sm[u / WARP], s'.out);
    } else {
      OneOk(K, s, u);
    }
  }

  lemma OneOk<V(!new), O(!new)>(K: Kernel<V, O>, s: State<V, O>, u: nat)
    requires K.warps > 0 && K.heads > 0 && Shaped(K, s) && AllOk(K, s) && u < Threads(K)
    ensures u / WARP < K.warps
    ensures ThreadOk(K, u, s.stage[u], s.acc[u], s.sm[u / WARP], s.out)
  {
    hide ThreadOk;
  }

  lemma ShuffledOk<V(!new), O>(K: Kernel<V, O>, w: nat, off: nat, i: nat, round: seq<V>, slot: Option<V>,
      out: map<nat, O>)
    requires K.warps > 0 && K.heads > 0 && w < K.warps && i < WARP && off > 0 && IsOffset(off / 2)
      && StepOf(off / 2) == off
    requires Exchanged(K.m, WarpOf(K, w), round, off)
    ensures WARP * w + i < Threads(K) && ThreadOk(K, WARP * w + i, Shuffle(off / 2), round[i], slot, out)
  {
    WarpIndex(w, i, K.warps);
    hide Class, WarpOf;
  }

  // a warp step touches the lanes of its warp only
  lemma WarpFrame<V(!new), O(!new)>(K: Kernel<V, O>, s: State<V, O>, w: nat, s': State<V, O>)
    requires Shaped(K, s) && w < K.warps && WarpStep(K, s, w, s')
    ensures Shaped(K, s') && s'.sm == s.sm && s'.out == s.out
    ensures var lo, off := WARP * w, s.stage[WARP * w].off;
      var round := Round(K.m, s.acc[lo..lo + WARP], off);
      && (forall u :: 0 <= u < Threads(K) && !(lo <= u < lo + WARP) ==>
        s'.stage[u] == s.stage[u] && s'.acc[u] == s.acc[u])
      && (forall u :: lo <= u < lo + WARP ==> s'.stage[u] == Shuffle(off / 2) && s'.acc[u] == round[u - lo])
  {
    hide Round;
  }

  lemma WarpPhased<V(!new), O(!new)>(K: Kernel<V, O>, s: State<V, O>, w: nat, s': State<V, O>, off: nat)
    requires K.warps > 0 && Shaped(K, s) && Shaped(K, s') && w < K.warps && Phased(K, s) && InRounds(K, s)
      && s.stage[WARP * w] == Shuffle(off)
    requires forall u :: 0 <= u < Threads(K) && !(WARP * w <= u < WARP * w + WARP) ==> s'.stage[u] == s.stage[u]
    requires forall u :: WARP * w <= u < WARP * w + WARP ==> s'.stage[u] == Shuffle(off / 2)
    ensures Phased(K, s') && InRounds(K, s')
  {
    hide Partials;
    assert !Past(s.stage[WARP * w]);
    forall t, u | 0 <= t < Threads(K) && 0 <= u < Threads(K) && t / WARP == u / WARP
      ensures NextRound(s'.stage[t]) == NextRound(s'.stage[u])
    {
      assert (WARP * w <= t < WARP * w + WARP) <==> t / WARP == w;
    }
  }

  // the lanes before and after a round
  lemma WarpShuffle<V(!new), O(!new)>(K: Kernel<V, O>, s: State<V, O>, w: nat, off: nat)
    requires Inv(K, s) && w < K.warps && off > 0 && forall t :: WARP * w <= t < WARP * w + WARP ==>
      s.stage[t] == Shuffle(off)
    requires forall i :: 0 <= i < WARP ==> Flip(i, off) < WARP
    ensures IsOffset(off) && IsOffset(off / 2) && StepOf(off / 2) == off
    ensures Exchanged(K.m, WarpOf(K, w), Round(K.m, s.acc[WARP * w..WARP * w + WARP], off), off)
  {
    LaneClass(K, s, w, off, 0);
    WarpAgrees(K, w);
    forall i | 0 <= i < WARP ensures s.acc[WARP * w + i] == Class(K.m, WarpOf(K, w), i % (2 * off), 2 * off) {
      LaneClass(K, s, w, off, i);
    }
    assert Launchable(K) && Shaped(K, s);
    hide Inv, WarpOf, Class, Flip, Agrees, AllGood;
    WarpExchange(K, w, s.acc[WARP * w..WARP * w + WARP], off);
  }

  lemma LaneClass<V(!new), O(!new)>(K: Kernel<V, O>, s: State<V, O>, w: nat, off: nat, i: nat)
    requires Inv(K, s) && w < K.warps && off > 0 && i < WARP && s.stage[WARP * w + i] == Shuffle(off)
    ensures IsOffset(off) && WARP * w + i < |s.acc|
      && s.acc[WARP * w + i] == Class(K.m, WarpOf(K, w), i % (2 * off), 2 * off)
  {
    WarpIndex(w, i, K.warps);
    assert ThreadOk(K, WARP * w + i, s.stage[WARP * w + i], s.acc[WARP * w + i], s.sm[(WARP * w + i) / WARP], s.out);
    hide Class, WarpOf, AllOk, Phased, InRounds, OutOk, Launchable;
  }

  lemma WarpExchange<V(!new), O>(K: Kernel<V, O>, w: nat, acc: seq<V>, off: nat)
    requires Launchable(K) && w < K.warps && |acc| == WARP && off > 0 && IsOffset(off)
    requires AllGood(K.m, WarpOf(K, w)) && Agrees(K.m, WarpOf(K, w)) && forall i :: 0 <= i < WARP ==>
      Flip(i, off) < WARP
    requires forall i :: 0 <= i < WARP ==> acc[i] == Class(K.m, WarpOf(K, w), i % (2 * off), 2 * off)
    ensures Exchanged(K.m, WarpOf(K, w), Round(K.m, acc, off), off)
  {
    hide WarpOf, Class, Flip, Agrees, AllGood, Round, Lawful;
    ExchangeRound(K.m, WarpOf(K, w), acc, off, WARP / (2 * off));
  }

  // the barrier opens: every partial is in place
  lemma BarrierInv<V(!new), O(!new)>(K: Kernel<V, O>, s: State<V, O>, s': State<V, O>)
    requires Inv(K, s) && BarrierStep(K, s, s')
    ensures Inv(K, s')
  {
    NothingOut(K, s);
    hide Launchable, OutOk, ThreadOk, Partials;
    forall w | 0 <= w < K.warps ensures s.sm[w] == Some(Partials(K)[w]) {
      ArrivedPartial(K, s, w);
    }
    forall t | 0 <= t < Threads(K) ensures ThreadOk(K, t, s'.stage[t], s'.acc[t], s'.sm[t / WARP], s'.out) {
      PastBarrier(K, t, s.acc[t], s.sm[t / WARP], s.out);
    }
  }

  lemma ArrivedPartial<V(!new), O(!new)>(K: Kernel<V, O>, s: State<V, O>, w: nat)
    requires Inv(K, s) && w < K.warps && forall t :: 0 <= t < Threads(K) ==> s.stage[t].AtBarrier?
    ensures s.sm[w] == Some(Partials(K)[w])
  {
    NothingOut(K, s);
    WarpIndex(w, 0, K.warps);
    var t := WARP * w + 0;
    hide Launchable, Partials, Phased, InRounds, OutOk;
    assert ThreadOk(K, t, s.stage[t], s.acc[t], s.sm[t / WARP], s.out);
  }

  lemma PastBarrier<V(!new), O(!new)>(K: Kernel<V, O>, t: nat, acc: V, slot: Option<V>, out: map<nat, O>)
    requires K.warps > 0 && K.heads > 0 && t < Threads(K)
    ensures ThreadOk(K, t, if t < K.heads then Collect(0, K.m.unit) else Done, acc, slot, out)
  {
    assert Partials(K)[..0] == [];
    hide Partials, Strided, Class, WarpOf;
  }

  lemma NothingOut<V(!new), O(!new)>(K: Kernel<V, O>, s: State<V, O>)
    requires Launchable(K)
    ensures K.warps > 0 && K.heads > 0 && Fold(K.m, []) == K.m.unit
  {
  }

  lemma NextInv<V(!new), O(!new)>(K: Kernel<V, O>, s: State<V, O>, s': State<V, O>)
    requires Inv(K, s) && Next(K, s, s')
    ensures Inv(K, s')
  {
    hide Inv, ThreadStep, WarpStep, BarrierStep;
    if t :| 0 <= t < Threads(K) && ThreadStep(K, s, t, s') {
      ThreadInv(K, s, t, s');
    } else if w :| 0 <= w < K.warps && WarpStep(K, s, w, s') {
      WarpInv(K, s, w, s');
    } else {
      BarrierInv(K, s, s');
    }
  }

  // ---- whole runs

  ghost predicate IsRun<V(!new), O(!new)>(K: Kernel<V, O>, run: seq<State<V, O>>) {
    |run| > 0 && run[0] == Start(K) && forall i :: 0 <= i < |run| - 1 ==> Next(K, run[i], run[i + 1])
  }

  lemma {:induction false} RunInv<V(!new), O(!new)>(K: Kernel<V, O>, run: seq<State<V, O>>, i: nat)
    requires Launchable(K) && IsRun(K, run) && i < |run|
    ensures Inv(K, run[i])
  {
    hide Inv, Next, Launchable;
    if i == 0 {
      StartInv(K);
    } else {
      RunInv(K, run, i - 1);
      NextInv(K, run[i - 1], run[i]);
    }
  }

  ghost predicate Finished<V, O>(s: State<V, O>) {
    forall t :: 0 <= t < |s.stage| ==> s.stage[t].Done?
  }

  // what a finished run wrote: every output, each from the fold of the whole row
  ghost predicate Delivered<V(!new), O(!new)>(K: Kernel<V, O>, out: map<nat, O>) {
    && (forall d :: d in out <==> 0 <= d < K.outputs)
    && (forall d :: d in out ==> out[d] == K.finish(Fold(K.m, RowOf(K)), d))
  }

  // at any point of any run every output written so far is right, and a finished run has written them all
  lemma RunDelivers<V(!new), O(!new)>(K: Kernel<V, O>, run: seq<State<V, O>>, i: nat)
    requires Launchable(K) && IsRun(K, run) && i < |run|
    ensures forall d :: d in run[i].out ==> d < K.outputs && run[i].out[d] == K.finish(Fold(K.m, RowOf(K)), d)
    ensures Finished(run[i]) ==> Delivered(K, run[i].out)
  {
    RunInv(K, run, i);
    PartialsCover(K);
    var s := run[i];
    if Finished(s) {
      hide Launchable, Lawful, Partials, Fold, Class, Strided;
      forall d | 0 <= d < K.outputs ensures d in s.out {
        var t := d % K.heads;
        assert ThreadOk(K, t, s.stage[t], s.acc[t], s.sm[t / WARP], s.out);
      }
    }
  }

  // ---- progress

  // how much a thread has left to do
  function Left<V, O>(K: Kernel<V, O>, g: Stage<V>): nat {
    match g
    case Done => 0
    case Emit(_, d) => 1 + (if d < K.outputs then K.outputs - d else 0)
    case Collect(i, _) => 3 + K.outputs + (if i < K.warps then K.warps - i else 0)
    case AtBarrier => 4 + K.outputs + K.warps
    case Store => 5 + K.outputs + K.warps
    case Shuffle(off) => 6 + K.outputs + K.warps + off
    case Scan(k) => 7 + K.outputs + K.warps + WARP + (if k < K.len then K.len - k else 0)
  }

  function TotalLeft<V, O>(K: Kernel<V, O>, stages: seq<Stage<V>>): nat {
    if stages == [] then 0 else Left(K, stages[0]) + TotalLeft(K, stages[1..])
  }

  lemma {:induction false} LeftFalls<V, O>(K: Kernel<V, O>, a: seq<Stage<V>>, b: seq<Stage<V>>, t: nat)
    requires |a| == |b| && t < |a| && Left(K, b[t]) < Left(K, a[t])
    requires forall u :: 0 <= u < |a| ==> Left(K, b[u]) <= Left(K, a[u])
    ensures TotalLeft(K, b) < TotalLeft(K, a)
  {
    hide Left;
    if t == 0 {
      LeftBelow(K, a[1..], b[1..]);
    } else {
      LeftFalls(K, a[1..], b[1..], t - 1);
    }
  }

  lemma {:induction false} LeftBelow<V, O>(K: Kernel<V, O>, a: seq<Stage<V>>, b: seq<Stage<V>>)
    requires |a| == |b| && forall u :: 0 <= u < |a| ==> Left(K, b[u]) <= Left(K, a[u])
    ensures TotalLeft(K, b) <= TotalLeft(K, a)
  {
    hide Left;
    if a != [] { LeftBelow(K, a[1..], b[1..]); }
  }

  // every step leaves less to do, so no run goes on for ever
  lemma NextFalls<V(!new), O(!new)>(K: Kernel<V, O>, s: State<V, O>, s': State<V, O>)
    requires Launchable(K) && Next(K, s, s')
    ensures TotalLeft(K, s'.stage) < TotalLeft(K, s.stage)
  {
    hide Launchable, Lawful, Round, TotalLeft;
    if t :| 0 <= t < Threads(K) && ThreadStep(K, s, t, s') {
      ThreadFalls(K, s, t, s');
      assert forall u :: 0 <= u < Threads(K) && u != t ==> s'.stage[u] == s.stage[u];
      LeftFalls(K, s.stage, s'.stage, t);
    } else if w :| 0 <= w < K.warps && WarpStep(K, s, w, s') {
      WarpFrame(K, s, w, s');
      LeftFalls(K, s.stage, s'.stage, WARP * w);
    } else {
      HasThreads(K);
      assert s.stage[0].AtBarrier?;
      LeftFalls(K, s.stage, s'.stage, 0);
    }
  }

  lemma HasThreads<V(!new), O>(K: Kernel<V, O>)
    requires Launchable(K)
    ensures Threads(K) > 0 && K.heads > 0
  {
  }

  lemma ThreadFalls<V(!new), O(!new)>(K: Kernel<V, O>, s: State<V, O>, t: nat, s': State<V, O>)
    requires Launchable(K) && Shaped(K, s) && t < Threads(K) && ThreadStep(K, s, t, s')
    ensures |s'.stage| == |s.stage| && Left(K, s'.stage[t]) < Left(K, s.stage[t])
    ensures forall u :: 0 <= u < Threads(K) && u != t ==> s'.stage[u] == s.stage[u]
  {
    HasThreads(K);
    hide Launchable;
  }

  ghost predicate CanStep<V(!new), O(!new)>(K: Kernel<V, O>, s: State<V, O>) {
    exists s' :: Next(K, s, s')
  }

  // a thread that waits neither for its warp nor at the barrier can step
  lemma FreeThread<V(!new), O(!new)>(K: Kernel<V, O>, s: State<V, O>, t: nat)
    requires Shaped(K, s) && t < Threads(K) && !s.stage[t].Done? && !s.stage[t].AtBarrier?
    requires s.stage[t].Shuffle? ==> s.stage[t].off == 0
    ensures CanStep(K, s)
  {
    var s': State<V, O>;
    match s.stage[t] {
      case Scan(k) =>
        s' := if k < K.len
          then s.(stage := s.stage[t := Scan(k + Threads(K))], acc := s.acc[t := K.m.combine(s.acc[t], Fetch(K, k))])
        else s.(stage := s.stage[t := Shuffle(WARP / 2)]);
      case Shuffle(_) => s' := s.(stage := s.stage[t := if t % WARP == 0 then Store else AtBarrier]);
      case Store => s' := s.(stage := s.stage[t := AtBarrier], sm := s.sm[t / WARP := Some(s.acc[t])]);
      case Collect(i, tot) =>
        var v := if i < K.warps && s.sm[i].Some? then s.sm[i].value else tot;
        s' := if i < K.warps then s.(stage := s.stage[t := Collect(i + 1, K.m.combine(tot, v))])
          else s.(stage := s.stage[t := Emit(tot, t)]);
      case Emit(tot, d) =>
        s' := if d < K.outputs
          then s.(stage := s.stage[t := Emit(tot, d + K.heads)], out := s.out[d := K.finish(tot, d)])
        else s.(stage := s.stage[t := Done]);
      case _ => s' := s;
    }
    assert ThreadStep(K, s, t, s');
    assert Next(K, s, s');
  }

  // no reachable state but a finished one is stuck
  lemma NeverStuck<V(!new), O(!new)>(K: Kernel<V, O>, s: State<V, O>)
    requires Inv(K, s) && !Finished(s)
    ensures CanStep(K, s)
  {
    if t :| 0 <= t < Threads(K) && !s.stage[t].Done? && !s.stage[t].AtBarrier? && (s.stage[t].Shuffle? ==>
      s.stage[t].off == 0) {
      FreeThread(K, s, t);
    } else if t :| 0 <= t < Threads(K) && s.stage[t].Shuffle? {
      WarpReady(K, s, t);
    } else {
      BarrierReady(K, s);
    }
  }

  // the lanes of a shuffling warp are all at the same offset once none of them can step alone
  lemma WarpReady<V(!new), O(!new)>(K: Kernel<V, O>, s: State<V, O>, t: nat)
    requires Inv(K, s) && t < Threads(K) && s.stage[t].Shuffle? && s.stage[t].off > 0
    requires forall u :: 0 <= u < Threads(K) ==>
      s.stage[u].Done? || s.stage[u].AtBarrier? || (s.stage[u].Shuffle? && s.stage[u].off > 0)
    ensures CanStep(K, s)
  {
    var w, off := t / WARP, s.stage[t].off;
    assert ThreadOk(K, t, s.stage[t], s.acc[t], s.sm[t / WARP], s.out);
    FlipInWarp(off);
    assert Shaped(K, s) && InRounds(K, s);
    hide Inv, ThreadOk, Class, Flip;
    forall u | WARP * w <= u < WARP * w + WARP ensures s.stage[u] == Shuffle(off) {
      assert u / WARP == w;
      SameRound(K, s, u, t);
    }
    WarpCanStep(K, s, w, off);
  }

  lemma SameRound<V(!new), O(!new)>(K: Kernel<V, O>, s: State<V, O>, u: nat, t: nat)
    requires Shaped(K, s) && InRounds(K, s) && u < Threads(K) && t < Threads(K) && u / WARP == t / WARP
    ensures NextRound(s.stage[u]) == NextRound(s.stage[t])
  {
  }

  lemma FlipInWarp(off: nat)
    requires IsOffset(off) && off > 0
    ensures forall i :: 0 <= i < WARP ==> Flip(i, off) < WARP
  {
    RoundInside(WARP, off, WARP / (2 * off));
  }

  lemma WarpCanStep<V(!new), O(!new)>(K: Kernel<V, O>, s: State<V, O>, w: nat, off: nat)
    requires Shaped(K, s) && w < K.warps && off > 0 && forall i :: 0 <= i < WARP ==> Flip(i, off) < WARP
    requires forall u :: WARP * w <= u < WARP * w + WARP ==> s.stage[u] == Shuffle(off)
    ensures CanStep(K, s)
  {
    hide Flip, Round;
    var lo, hi := WARP * w, WARP * w + WARP;
    var s' := s.(stage := s.stage[..lo] + seq(WARP, i => Shuffle(off / 2)) + s.stage[hi..],
                 acc := s.acc[..lo] + Round(K.m, s.acc[lo..hi], off) + s.acc[hi..]);
    assert WarpStep(K, s, w, s');
    assert Next(K, s, s');
  }

  lemma BarrierReady<V(!new), O(!new)>(K: Kernel<V, O>, s: State<V, O>)
    requires Inv(K, s) && !Finished(s)
    requires forall u :: 0 <= u < Threads(K) ==> s.stage[u].Done? || s.stage[u].AtBarrier?
    ensures CanStep(K, s)
  {
    hide Launchable, AllOk, OutOk, InRounds, Partials;
    var s' := s.(stage := seq(Threads(K), t requires 0 <= t < Threads(K) => if t < K.heads then Collect(0, K.m.unit)
      else Done));
    assert BarrierStep(K, s, s');
    assert Next(K, s, s');
  }
}
