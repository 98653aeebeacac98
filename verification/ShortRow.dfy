// A row too short for its block: when more than half a warp of threads has no element, two lanes that hold nothing meet
// in the first shuffle round. If combining two units is an error that nothing repairs, every output is that error.
module ShortRow {
  import opened Options
  import opened Reduction
  import opened LockstepKernel

  // an error combine cannot lose, and makes of two units
  ghost predicate Poisons<V(!new)>(m: Algebra<V>, bad: V -> bool) {
    && bad(m.combine(m.unit, m.unit))
    && forall a, b :: bad(a) || bad(b) ==> bad(m.combine(a, b))
  }

  // at most 15 threads of the last warp have an element
  ghost predicate Short<V, O>(K: Kernel<V, O>) {
    K.warps > 0 && K.len + WARP / 2 < Threads(K)
  }

  // the first thread of the last warp
  function Base<V, O>(K: Kernel<V, O>): int {
    WARP * (K.warps - 1)
  }

  // the first thread of the last warp without an element: its partner 16 further has none either
  function FirstIdle<V, O>(K: Kernel<V, O>): int {
    if K.len > Base(K) then K.len else Base(K)
  }

  // ---- what a thread of the last warp holds

  ghost predicate LaneBad<V(!new), O>(K: Kernel<V, O>, bad: V -> bool, t: nat, g: Stage<V>, acc: V) {
    match g
    case Scan(k) => t >= K.len ==> acc == K.m.unit && k >= K.len
    case Shuffle(off) => IsOffset(off) && ShuffleBad(K, bad, t, off, acc)
    case Store => bad(acc)
    case _ => true
  }

  ghost predicate ShuffleBad<V(!new), O>(K: Kernel<V, O>, bad: V -> bool, t: nat, off: nat, acc: V) {
    if off == WARP / 2 then t >= K.len ==> acc == K.m.unit
    else t % StepOf(off) == FirstIdle(K) % StepOf(off) ==> bad(acc)
  }

  ghost predicate LanesBad<V(!new), O>(K: Kernel<V, O>, bad: V -> bool, s: State<V, O>)
    requires Shaped(K, s) && K.warps > 0
  {
    forall t :: Base(K) <= t < Threads(K) ==> LaneBad(K, bad, t, s.stage[t], s.acc[t])
  }

  // the slot of the last warp, and what any thread has made of it
  ghost predicate SlotBad<V(!new), O>(K: Kernel<V, O>, bad: V -> bool, s: State<V, O>)
    requires Shaped(K, s) && K.warps > 0
  {
    var slot := s.sm[K.warps - 1];
    && (slot.Some? ==> bad(slot.value))
    && (s.stage[Base(K)].AtBarrier? ==> slot.Some?)
  }

  ghost predicate PastBad<V(!new), O>(K: Kernel<V, O>, bad: V -> bool, g: Stage<V>, slot: Option<V>) {
    match g
    case Collect(i, tot) => slot.Some? && (i >= K.warps ==> bad(tot))
    case Emit(tot, _) => bad(tot)
    case _ => true
  }

  ghost predicate ThreadsBad<V(!new), O>(K: Kernel<V, O>, bad: V -> bool, s: State<V, O>)
    requires Shaped(K, s) && K.warps > 0
  {
    forall t :: 0 <= t < Threads(K) ==> PastBad(K, bad, s.stage[t], s.sm[K.warps - 1])
  }

  ghost predicate FromBad<V(!new), O(!new)>(K: Kernel<V, O>, bad: V -> bool, o: O, d: nat) {
    exists v :: bad(v) && o == K.finish(v, d)
  }

  ghost predicate OutBad<V(!new), O(!new)>(K: Kernel<V, O>, bad: V -> bool, out: map<nat, O>) {
    forall d :: d in out ==> FromBad(K, bad, out[d], d)
  }

  ghost predicate BadInv<V(!new), O(!new)>(K: Kernel<V, O>, bad: V -> bool, s: State<V, O>) {
    Short(K) && Shaped(K, s) && LanesBad(K, bad, s) && SlotBad(K, bad, s) && ThreadsBad(K, bad, s)
      && OutBad(K, bad, s.out)
  }

  lemma StartBad<V(!new), O(!new)>(K: Kernel<V, O>, bad: V -> bool)
    requires Short(K)
    ensures BadInv(K, bad, Start(K))
  {
  }

  // ---- one thread

  lemma CombineBad<V(!new)>(m: Algebra<V>, bad: V -> bool, a: V, b: V)
    requires Poisons(m, bad)
    ensures bad(a) || bad(b) ==> bad(m.combine(a, b))
    ensures a == m.unit && b == m.unit ==> bad(m.combine(a, b))
  {
  }

  // the stage and register of a thread of the last warp after its step
  lemma LaneStep<V(!new), O(!new)>(K: Kernel<V, O>, bad: V -> bool, s: State<V, O>, t: nat, s': State<V, O>)
    requires BadInv(K, bad, s) && t < Threads(K) && ThreadStep(K, s, t, s')
    ensures Shaped(K, s') && (Base(K) <= t ==> LaneBad(K, bad, t, s'.stage[t], s'.acc[t]))
  {
    hide SlotBad, ThreadsBad, OutBad;
    if Base(K) <= t {
      assert LaneBad(K, bad, t, s.stage[t], s.acc[t]);
      hide LanesBad;
    }
  }

  lemma OthersStep<V(!new), O(!new)>(K: Kernel<V, O>, bad: V -> bool, s: State<V, O>, t: nat, s': State<V, O>)
    requires BadInv(K, bad, s) && t < Threads(K) && ThreadStep(K, s, t, s')
    ensures Shaped(K, s') && forall u :: 0 <= u < Threads(K) && u != t ==>
      s'.stage[u] == s.stage[u] && s'.acc[u] == s.acc[u]
  {
    hide BadInv;
    assert Shaped(K, s) by { BadShaped(K, bad, s); }
  }

  lemma BadShaped<V(!new), O(!new)>(K: Kernel<V, O>, bad: V -> bool, s: State<V, O>)
    requires BadInv(K, bad, s)
    ensures Shaped(K, s) && K.warps > 0 && Short(K)
  {
  }

  lemma SlotStep<V(!new), O(!new)>(K: Kernel<V, O>, bad: V -> bool, s: State<V, O>, t: nat, s': State<V, O>)
    requires BadInv(K, bad, s) && t < Threads(K) && ThreadStep(K, s, t, s')
    ensures Shaped(K, s') && SlotBad(K, bad, s') && (s.sm[K.warps - 1].Some? ==> s'.sm[K.warps - 1].Some?)
  {
    assert Base(K) <= t ==> LaneBad(K, bad, t, s.stage[t], s.acc[t]);
    assert t / WARP == K.warps - 1 ==> Base(K) <= t;
    hide LanesBad, ThreadsBad, OutBad;
  }

  lemma PastStep<V(!new), O(!new)>(K: Kernel<V, O>, bad: V -> bool, s: State<V, O>, t: nat, s': State<V, O>)
    requires BadInv(K, bad, s) && Poisons(K.m, bad) && t < Threads(K) && ThreadStep(K, s, t, s')
    ensures Shaped(K, s') && PastBad(K, bad, s'.stage[t], s'.sm[K.warps - 1])
  {
    assert PastBad(K, bad, s.stage[t], s.sm[K.warps - 1]);
    hide LanesBad, ThreadsBad, OutBad;
  }

  lemma OutStep<V(!new), O(!new)>(K: Kernel<V, O>, bad: V -> bool, s: State<V, O>, t: nat, s': State<V, O>)
    requires BadInv(K, bad, s) && t < Threads(K) && ThreadStep(K, s, t, s')
    ensures OutBad(K, bad, s'.out)
  {
    assert PastBad(K, bad, s.stage[t], s.sm[K.warps - 1]);
    hide LanesBad, ThreadsBad, SlotBad;
  }

  lemma ThreadKeepsBad<V(!new), O(!new)>(K: Kernel<V, O>, bad: V -> bool, s: State<V, O>, t: nat, s': State<V, O>)
    requires BadInv(K, bad, s) && Poisons(K.m, bad) && t < Threads(K) && ThreadStep(K, s, t, s')
    ensures BadInv(K, bad, s')
  {
    hide ThreadStep, OutBad, SlotBad, Poisons, LaneBad, PastBad;
    LaneStep(K, bad, s, t, s');
    OthersStep(K, bad, s, t, s');
    SlotStep(K, bad, s, t, s');
    PastStep(K, bad, s, t, s');
    OutStep(K, bad, s, t, s');
    forall u | 0 <= u < Threads(K) ensures PastBad(K, bad, s'.stage[u], s'.sm[K.warps - 1]) {
      assert PastBad(K, bad, s.stage[u], s.sm[K.warps - 1]);
      PastSlot(K, bad, s.stage[u], s.sm[K.warps - 1], s'.sm[K.warps - 1]);
    }
  }

  lemma PastSlot<V(!new), O>(K: Kernel<V, O>, bad: V -> bool, g: Stage<V>, slot: Option<V>, slot': Option<V>)
    requires PastBad(K, bad, g, slot) && (slot.Some? ==> slot'.Some?)
    ensures PastBad(K, bad, g, slot')
  {
  }

  // ---- a warp

  // a round halves the classes: a lane of the bad class takes in a bad value, in the first round two units
  lemma LaneRound<V(!new), O(!new)>(K: Kernel<V, O>, bad: V -> bool, acc: seq<V>, off: nat, i: nat)
    requires Short(K) && Poisons(K.m, bad) && |acc| == WARP && i < WARP && IsOffset(off) && off > 0
    requires forall j :: 0 <= j < WARP ==> ShuffleBad(K, bad, Base(K) + j, off, acc[j])
    ensures Flip(i, off) < WARP && ShuffleBad(K, bad, Base(K) + i, off / 2, K.m.combine(acc[i], acc[Flip(i, off)]))
  {
    var other := Flip(i, off);
    PartnerClass(K.warps - 1, i, off, FirstIdle(K));
    assert ShuffleBad(K, bad, Base(K) + i, off, acc[i]) && ShuffleBad(K, bad, Base(K) + other, off, acc[other]);
    CombineBad(K.m, bad, acc[i], acc[other]);
    hide Poisons;
  }

  // lane i of the warp and its partner: both idle in the first round, one of the bad class in the later ones
  lemma PartnerClass(w: nat, i: nat, off: nat, first: int)
    requires i < WARP && IsOffset(off) && off > 0 && WARP * w <= first < WARP * w + WARP / 2
    ensures Flip(i, off) < WARP
    ensures (WARP * w + i) % off == first % off ==>
      if off == WARP / 2 then WARP * w + i >= first && WARP * w + Flip(i, off) >= first
      else (WARP * w + i) % (2 * off) == first % (2 * off) || (WARP * w + Flip(i, off)) % (2 * off) == first % (2 * off)
  {
    var a := first - WARP * w;
    Offsets(off);
    FlipHalves(i, off, 16 / off);
    FlipHalves(a, off, 16 / off);
    DropWarps(w, i, off);
    DropWarps(w, a, off);
    DropWarps(w, i, 2 * off);
    DropWarps(w, Flip(i, off), 2 * off);
    DropWarps(w, a, 2 * off);
    hide IsOffset, Flip;
    assert WARP * w + a == first;
  }

  lemma Offsets(off: nat)
    requires IsOffset(off) && off > 0
    ensures 2 * off * (16 / off) == WARP && (off == 16 || off == 8 || off == 4 || off == 2 || off == 1)
  {
  }

  // whole warps do not change a remainder by a power of two up to 32
  lemma DropWarps(w: nat, x: nat, d: nat)
    requires d == 1 || d == 2 || d == 4 || d == 8 || d == 16 || d == 32
    ensures (WARP * w + x) % d == x % d
  {
    Quotient(x, d);
    Regroup(w, x, d);
    DivMod(WARP * w + x, d, w * (32 / d) + x / d, x % d);
  }

  lemma Regroup(w: nat, x: nat, d: nat)
    requires d == 1 || d == 2 || d == 4 || d == 8 || d == 16 || d == 32
    requires x == d * (x / d) + x % d
    ensures WARP * w + x == d * (w * (32 / d) + x / d) + x % d
  {
    assert d * (w * (32 / d) + x / d) == d * (w * (32 / d)) + d * (x / d);
  }

  lemma LastLanes<V(!new), O(!new)>(K: Kernel<V, O>, bad: V -> bool, s: State<V, O>, off: nat)
    requires BadInv(K, bad, s) && forall t :: Base(K) <= t < Threads(K) ==> s.stage[t] == Shuffle(off)
    ensures IsOffset(off) && forall t :: Base(K) <= t < Threads(K) ==> ShuffleBad(K, bad, t, off, s.acc[t])
  {
    hide SlotBad, ThreadsBad, OutBad, ShuffleBad, IsOffset;
    assert LaneBad(K, bad, Base(K), s.stage[Base(K)], s.acc[Base(K)]);
    forall t | Base(K) <= t < Threads(K) ensures ShuffleBad(K, bad, t, off, s.acc[t]) {
      assert LaneBad(K, bad, t, s.stage[t], s.acc[t]);
    }
  }

  // after a round of the last warp
  lemma LastRound<V(!new), O(!new)>(K: Kernel<V, O>, bad: V -> bool, s: State<V, O>, off: nat, t: nat)
    requires BadInv(K, bad, s) && Poisons(K.m, bad) && off > 0 && forall u :: Base(K) <= u < Threads(K) ==>
      s.stage[u] == Shuffle(off)
    requires Base(K) <= t < Threads(K) && forall i :: 0 <= i < WARP ==> Flip(i, off) < WARP
    ensures LaneBad(K, bad, t, Shuffle(off / 2), Round(K.m, s.acc[Base(K)..Base(K) + WARP], off)[t - Base(K)])
  {
    BadShaped(K, bad, s);
    LastLanes(K, bad, s, off);
    hide BadInv, Poisons, ShuffleBad, Flip;
    var acc := s.acc[Base(K)..Base(K) + WARP];
    forall j | 0 <= j < WARP ensures ShuffleBad(K, bad, Base(K) + j, off, acc[j]) {
      assert acc[j] == s.acc[Base(K) + j];
    }
    LaneRound(K, bad, acc, off, t - Base(K));
    assert Base(K) + (t - Base(K)) == t;
  }

  lemma WarpKeepsBad<V(!new), O(!new)>(K: Kernel<V, O>, bad: V -> bool, s: State<V, O>, w: nat, s': State<V, O>)
    requires BadInv(K, bad, s) && Poisons(K.m, bad) && w < K.warps && WarpStep(K, s, w, s')
    ensures BadInv(K, bad, s')
  {
    BadShaped(K, bad, s);
    WarpFrame(K, s, w, s');
    var off := s.stage[WARP * w].off;
    forall t | Base(K) <= t < Threads(K) ensures LaneBad(K, bad, t, s'.stage[t], s'.acc[t]) {
      assert LaneBad(K, bad, t, s.stage[t], s.acc[t]);
      hide LaneBad, Poisons, ThreadsBad, SlotBad, OutBad, LanesBad, Round, Flip;
      if w == K.warps - 1 { LastRound(K, bad, s, off, t); }
    }
    forall t | 0 <= t < Threads(K) ensures PastBad(K, bad, s'.stage[t], s'.sm[K.warps - 1]) {
      assert PastBad(K, bad, s.stage[t], s.sm[K.warps - 1]);
    }
    hide LaneBad, PastBad, OutBad, WarpStep, Round;
  }

  lemma BarrierKeepsBad<V(!new), O(!new)>(K: Kernel<V, O>, bad: V -> bool, s: State<V, O>, s': State<V, O>)
    requires BadInv(K, bad, s) && BarrierStep(K, s, s')
    ensures BadInv(K, bad, s')
  {
    hide OutBad;
    assert s.sm[K.warps - 1].Some?;
  }

  lemma NextBad<V(!new), O(!new)>(K: Kernel<V, O>, bad: V -> bool, s: State<V, O>, s': State<V, O>)
    requires BadInv(K, bad, s) && Poisons(K.m, bad) && Next(K, s, s')
    ensures BadInv(K, bad, s')
  {
    hide BadInv, Poisons, ThreadStep, WarpStep, BarrierStep;
    if t :| 0 <= t < Threads(K) && ThreadStep(K, s, t, s') {
      ThreadKeepsBad(K, bad, s, t, s');
    } else if w :| 0 <= w < K.warps && WarpStep(K, s, w, s') {
      WarpKeepsBad(K, bad, s, w, s');
    } else {
      BarrierKeepsBad(K, bad, s, s');
    }
  }

  lemma {:induction false} RunBad<V(!new), O(!new)>(K: Kernel<V, O>, bad: V -> bool, run: seq<State<V, O>>, i: nat)
    requires Short(K) && Poisons(K.m, bad) && IsRun(K, run) && i < |run|
    ensures BadInv(K, bad, run[i])
  {
    hide BadInv, Next, Short, Poisons;
    if i == 0 {
      StartBad(K, bad);
    } else {
      RunBad(K, bad, run, i - 1);
      NextBad(K, bad, run[i - 1], run[i]);
    }
  }

  // at any point of any run every output written so far comes from the error
  lemma ShortRunPoisoned<V(!new), O(!new)>(K: Kernel<V, O>, bad: V -> bool, run: seq<State<V, O>>, i: nat, d: nat)
    requires Short(K) && Poisons(K.m, bad) && IsRun(K, run) && i < |run| && d in run[i].out
    ensures FromBad(K, bad, run[i].out[d], d)
  {
    RunBad(K, bad, run, i);
    hide Poisons, IsRun, Short, FromBad, LanesBad, SlotBad, ThreadsBad;
  }
}
