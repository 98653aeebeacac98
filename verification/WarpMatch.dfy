// __match_any_sync and __match_all_sync: a lockstep protocol of shuffles and ballots over the lanes of a mask. A 32-bit
// mask is the set of its lanes.
module WarpMatch {
  const LANES := 32

  predicate IsMask(mask: set<nat>) {
    forall i :: i in mask ==> i < LANES
  }

  // the lanes of the mask that hold the same value as lane i
  ghost function Peers<T(!new)>(mask: set<nat>, value: seq<T>, i: nat): set<nat>
    requires IsMask(mask) && |value| == LANES && i < LANES
  {
    set j | j in mask && value[j] == value[i]
  }

  ghost function Values<T(!new)>(lanes: set<nat>, value: seq<T>): set<T>
    requires IsMask(lanes) && |value| == LANES
  {
    set j | j in lanes :: value[j]
  }

  // ffs(m) - 1
  function FirstLane(m: set<nat>, from: nat): nat
    requires from <= LANES
    decreases LANES - from
  {
    if from == LANES || from in m then from else FirstLane(m, from + 1)
  }

  lemma {:induction false} FirstLaneIn(m: set<nat>, from: nat)
    requires IsMask(m) && m != {} && from <= LANES && forall i :: i in m ==> i >= from
    ensures FirstLane(m, from) in m
    decreases LANES - from
  {
    var i :| i in m;
    assert from <= i < LANES;
    if from !in m { FirstLaneIn(m, from + 1); }
  }

  // the ballot: the lanes of the mask whose predicate holds
  function Ballot(mask: set<nat>, vote: seq<bool>): set<nat>
    requires IsMask(mask) && |vote| == LANES
  {
    set i | i in mask && vote[i]
  }

  // every lane of the mask leaves with exactly its peers, after one round per distinct value
  method MatchAny<T(==, !new)>(mask: set<nat>, value: seq<T>) returns (result: seq<set<nat>>, rounds: nat)
    requires IsMask(mask) && |value| == LANES
    ensures |result| == LANES && forall i :: i in mask ==> result[i] == Peers(mask, value, i)
    ensures rounds == |Values(mask, value)|
  {
    hide FirstLane, Values, Closed, Peers, Ballot, Shuffled, Votes, Recorded, Cleared;
    WholeClosed(mask, value);
    rounds := 0;
    result := seq(LANES, i => {});
    // each lane's own copy of the loop variable
    var m := seq(LANES, i => mask);
    ghost var rest := mask;
    while exists i :: i in mask && m[i] != {}
      invariant |m| == |result| == LANES && rest <= mask
      invariant forall i :: i in mask ==> m[i] == rest
      invariant Closed(mask, value, rest)
      invariant forall i :: i in mask && i !in rest ==> result[i] == Peers(mask, value, i)
      invariant rounds + |Values(rest, value)| == |Values(mask, value)|
      decreases |rest|
    {
      StillGoing(mask, m, rest);
      FirstLaneIn(rest, 0);
      // shfl: every lane reads the lane its own m names, all the same one
      var other := Shuffled(value, m);
      var eq := Ballot(mask, Votes(value, other));
      AllRead(mask, value, m, rest);
      BallotIsPeers(mask, value, FirstLane(rest, 0), other);
      OneRound(mask, value, rest, FirstLane(rest, 0), eq);
      Decided(mask, value, rest, eq, other, result);
      ClearedAll(mask, m, rest, eq);
      result := Recorded(result, value, other, eq);
      m := Cleared(m, eq);
      rest := rest - eq;
      rounds := rounds + 1;
    }
    NothingLeft(mask, value, rest, m);
    result := seq(LANES, i requires 0 <= i < LANES => result[i] * mask);
  }

  // the value each lane reads: that of the lane its own m names
  function Shuffled<T>(value: seq<T>, m: seq<set<nat>>): (other: seq<T>)
    requires |value| == |m| == LANES
    ensures |other| == LANES
  {
    seq(LANES, i requires 0 <= i < LANES => if FirstLane(m[i], 0) < LANES then value[FirstLane(m[i], 0)] else value[i])
  }

  function Votes<T(==)>(value: seq<T>, other: seq<T>): (votes: seq<bool>)
    requires |value| == |other| == LANES
    ensures |votes| == LANES
  {
    seq(LANES, i requires 0 <= i < LANES => other[i] == value[i])
  }

  // a lane that read its own value takes the ballot as its result
  function Recorded<T(==)>(result: seq<set<nat>>, value: seq<T>, other: seq<T>, eq: set<nat>): (r: seq<set<nat>>)
    requires |result| == |value| == |other| == LANES
    ensures |r| == LANES
  {
    seq(LANES, i requires 0 <= i < LANES => if other[i] == value[i] then eq else result[i])
  }

  function Cleared(m: seq<set<nat>>, eq: set<nat>): (r: seq<set<nat>>)
    requires |m| == LANES
    ensures |r| == LANES
  {
    seq(LANES, i requires 0 <= i < LANES => m[i] - eq)
  }

  lemma WholeClosed<T(!new)>(mask: set<nat>, value: seq<T>)
    requires IsMask(mask) && |value| == LANES
    ensures Closed(mask, value, mask)
  {
  }

  lemma StillGoing(mask: set<nat>, m: seq<set<nat>>, rest: set<nat>)
    requires IsMask(mask) && |m| == LANES && rest <= mask && forall i :: i in mask ==> m[i] == rest
    requires exists i :: i in mask && m[i] != {}
    ensures IsMask(rest) && rest != {}
  {
  }

  lemma ClearedAll(mask: set<nat>, m: seq<set<nat>>, rest: set<nat>, eq: set<nat>)
    requires IsMask(mask) && |m| == LANES && forall i :: i in mask ==> m[i] == rest
    ensures forall i :: i in mask ==> Cleared(m, eq)[i] == rest - eq
  {
  }

  lemma AllRead<T(!new)>(mask: set<nat>, value: seq<T>, m: seq<set<nat>>, rest: set<nat>)
    requires IsMask(mask) && |value| == |m| == LANES && rest <= mask && FirstLane(rest, 0) in rest
    requires forall i :: i in mask ==> m[i] == rest
    ensures forall i :: i in mask ==> Shuffled(value, m)[i] == value[FirstLane(rest, 0)]
  {
  }

  lemma BallotIsPeers<T(!new)>(mask: set<nat>, value: seq<T>, lane: nat, other: seq<T>)
    requires IsMask(mask) && |value| == |other| == LANES && lane < LANES
    requires forall i :: i in mask ==> other[i] == value[lane]
    ensures Ballot(mask, Votes(value, other)) == Peers(mask, value, lane)
    ensures forall i :: i in mask ==> (i in Ballot(mask, Votes(value, other)) <==> other[i] == value[i])
  {
  }

  // the lanes of the class leave the loop with their result, the others keep theirs
  lemma Decided<T(!new)>(mask: set<nat>, value: seq<T>, rest: set<nat>, eq: set<nat>, other: seq<T>,
      result: seq<set<nat>>)
    requires IsMask(mask) && |value| == |other| == |result| == LANES && rest <= mask
    requires forall i :: i in mask && i !in rest ==> result[i] == Peers(mask, value, i)
    requires forall i :: i in mask ==> (i in eq <==> other[i] == value[i])
    requires forall i :: i in eq ==> i < LANES && Peers(mask, value, i) == eq
    ensures forall i :: i in mask && i !in rest - eq ==> Recorded(result, value, other, eq)[i] == Peers(mask, value, i)
  {
    hide Peers;
  }

  lemma NothingLeft<T(!new)>(mask: set<nat>, value: seq<T>, rest: set<nat>, m: seq<set<nat>>)
    requires IsMask(mask) && |value| == |m| == LANES && rest <= mask && forall i :: i in mask ==> m[i] == rest
    requires !exists i :: i in mask && m[i] != {}
    ensures rest == {} && |Values(rest, value)| == 0
    ensures forall i :: i in mask ==> Peers(mask, value, i) * mask == Peers(mask, value, i)
  {
    forall i ensures i !in rest {
      if i in mask { assert m[i] == {}; }
    }
    assert Values({}, value) == {};
  }

  // what is left is a union of whole classes
  ghost predicate Closed<T(!new)>(mask: set<nat>, value: seq<T>, rest: set<nat>)
    requires IsMask(mask) && |value| == LANES && rest <= mask
  {
    forall i, j :: i in rest && j in mask && value[j] == value[i] ==> j in rest
  }

  lemma OneRound<T(!new)>(mask: set<nat>, value: seq<T>, rest: set<nat>, lane: nat, eq: set<nat>)
    requires IsMask(mask) && |value| == LANES && rest <= mask && Closed(mask, value, rest) && lane in rest
    requires eq == Peers(mask, value, lane)
    ensures Closed(mask, value, rest - eq) && rest - eq < rest && |rest - eq| < |rest|
    ensures |Values(rest, value)| == 1 + |Values(rest - eq, value)|
    ensures forall i :: i in eq ==> i < LANES && Peers(mask, value, i) == eq
  {
    var v := value[lane];
    assert lane in eq;
    assert rest == (rest - eq) + (rest * eq);
    assert Values(rest, value) == Values(rest - eq, value) + {v};
    assert v !in Values(rest - eq, value);
    assert |rest| == |rest - eq| + |rest * eq|;
    assert lane in rest * eq;
  }

  // ---- 64-bit values by their halves

  const HALF := 0x1_0000_0000

  function Low(v: nat): nat {
    v % HALF
  }

  function High(v: nat): nat {
    v / HALF
  }

  method MatchAny64(mask: set<nat>, value: seq<nat>) returns (result: seq<set<nat>>)
    requires IsMask(mask) && |value| == LANES
    ensures |result| == LANES && forall i :: i in mask ==> result[i] == Peers(mask, value, i)
  {
    var lows := seq(LANES, i requires 0 <= i < LANES => Low(value[i]));
    var highs := seq(LANES, i requires 0 <= i < LANES => High(value[i]));
    var a, n := MatchAny(mask, lows);
    var b, k := MatchAny(mask, highs);
    result := seq(LANES, i requires 0 <= i < LANES => a[i] * b[i]);
    forall i | i in mask ensures result[i] == Peers(mask, value, i) {
      forall j | j in mask ensures value[j] == value[i] <==>
        (Low(value[j]) == Low(value[i]) && High(value[j]) == High(value[i]))
      {
        Halves(value[i], value[j]);
      }
      assert result[i] == Peers(mask, lows, i) * Peers(mask, highs, i);
      assert Peers(mask, lows, i) == set j | j in mask && Low(value[j]) == Low(value[i]);
      assert Peers(mask, highs, i) == set j | j in mask && High(value[j]) == High(value[i]);
    }
  }

  lemma Halves(a: nat, b: nat)
    ensures a == b <==> (Low(a) == Low(b) && High(a) == High(b))
  {
    assert a == HALF * High(a) + Low(a) && b == HALF * High(b) + Low(b);
  }

  // ---- all lanes equal

  // every lane of the mask gets the whole mask and a true predicate exactly when all lanes of the mask hold one value
  method MatchAll<T(==, !new)>(mask: set<nat>, value: seq<T>) returns (result: seq<set<nat>>, pred: seq<bool>)
    requires IsMask(mask) && |value| == LANES
    ensures |result| == |pred| == LANES
    ensures forall i :: i in mask ==> (pred[i] <==> forall j, k :: j in mask && k in mask ==> value[j] == value[k])
    ensures forall i :: i in mask ==> result[i] == if pred[i] then mask else {}
  {
    var r, n := MatchAny(mask, value);
    pred := seq(LANES, i requires 0 <= i < LANES => r[i] == mask);
    result := seq(LANES, i requires 0 <= i < LANES => if pred[i] then mask else {});
    forall i | i in mask ensures pred[i] <==> forall j, k :: j in mask && k in mask ==> value[j] == value[k] {
      WholeMask(mask, value, i);
    }
  }

  lemma WholeMask<T(!new)>(mask: set<nat>, value: seq<T>, i: nat)
    requires IsMask(mask) && |value| == LANES && i in mask
    ensures Peers(mask, value, i) == mask <==> forall j, k :: j in mask && k in mask ==> value[j] == value[k]
  {
    if Peers(mask, value, i) == mask {
      forall j, k | j in mask && k in mask ensures value[j] == value[k] {
        assert j in Peers(mask, value, i) && k in Peers(mask, value, i);
      }
    }
  }
}
