// The order of monomials, lexicographic on their sorted atom lists, and iteration in that order.
module MonomialOrder {
  import opened Polynomials

  predicate LexLess(x: seq<int>, y: seq<int>) {
    if y == [] then false
    else if x == [] then true
    else x[0] < y[0] || (x[0] == y[0] && LexLess(x[1..], y[1..]))
  }

  lemma MinExists(m: Mono)
    requires m != multiset{}
    ensures exists x :: x in m && forall y :: y in m ==> x <= y
  {
    var x :| x in m;
    while exists y :: y in m && y < x
      invariant x in m
      decreases x
    {
      var y :| y in m && y < x;
      x := y;
    }
  }

  function Min(m: Mono): nat
    requires m != multiset{}
  {
    MinExists(m);
    var x :| x in m && forall y :: y in m ==> x <= y;
    x
  }

  lemma SortedCons(x: nat, r: seq<nat>, m: Mono)
    requires x in m && multiset(r) == m - multiset{x} && Sorted(r) && forall y :: y in m ==> x <= y
    ensures Sorted([x] + r) && multiset([x] + r) == m
  {
    forall i | 0 <= i < |r| ensures x <= r[i] {
      assert r[i] in multiset(r);
    }
  }

  function AtomList(m: Mono): (r: seq<nat>)
    ensures multiset(r) == m && Sorted(r)
    decreases |m|
  {
    if m == multiset{} then []
    else
      var x := Min(m);
      var r := AtomList(m - multiset{x});
      SortedCons(x, r, m);
      [x] + r
  }

  lemma {:induction false} LexTotal(x: seq<int>, y: seq<int>)
    ensures x == y || LexLess(x, y) || LexLess(y, x)
    ensures !LexLess(x, x)
  {
    if x != [] && y != [] {
      LexTotal(x[1..], y[1..]);
      if x[0] == y[0] && x[1..] == y[1..] { assert x == [x[0]] + x[1..] && y == [y[0]] + y[1..]; }
    }
    if x != [] { LexTotal(x[1..], x[1..]); }
  }

  lemma {:induction false} LexTrans(x: seq<int>, y: seq<int>, z: seq<int>)
    requires LexLess(x, y) && LexLess(y, z)
    ensures LexLess(x, z)
  {
    if x != [] && x[0] == y[0] == z[0] { LexTrans(x[1..], y[1..], z[1..]); }
  }

  // equal up to k, smaller there
  predicate FirstSmaller(x: seq<int>, y: seq<int>, k: nat) {
    k < |x| && k < |y| && x[..k] == y[..k] && x[k] < y[k]
  }

  lemma FirstSmallerTail(x: seq<int>, y: seq<int>, k: nat)
    requires x != [] && y != [] && x[0] == y[0]
    ensures FirstSmaller(x[1..], y[1..], k) <==> FirstSmaller(x, y, k + 1)
  {
    if k < |x| - 1 && k < |y| - 1 {
      assert x[..k + 1] == [x[0]] + x[1..][..k] && y[..k + 1] == [y[0]] + y[1..][..k];
      assert x[1..][..k] == x[..k + 1][1..] && y[1..][..k] == y[..k + 1][1..];
    }
  }

  // at the first difference the smaller atom comes first, and a list comes before what it begins
  lemma {:induction false} LexIs(x: seq<int>, y: seq<int>)
    ensures LexLess(x, y) <==> x < y || exists k: nat :: FirstSmaller(x, y, k)
  {
    if x != [] && y != [] {
      assert x[..0] == y[..0] && (x[0] < y[0] ==> FirstSmaller(x, y, 0));
      if x[0] == y[0] {
        LexIs(x[1..], y[1..]);
        assert x == [x[0]] + x[1..] && y == [y[0]] + y[1..];
        assert x < y <==> x[1..] < y[1..];
        forall k: nat ensures FirstSmaller(x[1..], y[1..], k) <==> FirstSmaller(x, y, k + 1) {
          FirstSmallerTail(x, y, k);
        }
        if k: nat :| FirstSmaller(x, y, k) { assert FirstSmaller(x[1..], y[1..], k - 1); }
      } else {
        forall k: nat ensures FirstSmaller(x, y, k) ==> k == 0 {
          if 0 < k < |x| && k < |y| { assert x[..k][0] == x[0] && y[..k][0] == y[0]; }
        }
      }
    }
  }

  predicate MonoLess(a: Mono, b: Mono) { LexLess(AtomList(a), AtomList(b)) }

  ghost predicate StrictOrder(less: (Mono, Mono) -> bool) {
    && (forall a, b :: a == b || less(a, b) || less(b, a))
    && (forall a :: !less(a, a))
    && (forall a, b, c :: less(a, b) && less(b, c) ==> less(a, c))
  }

  lemma MonoOrder()
    ensures StrictOrder(MonoLess)
  {
    forall a: Mono, b: Mono ensures a == b || MonoLess(a, b) || MonoLess(b, a) {
      LexTotal(AtomList(a), AtomList(b));
      assert AtomList(a) == AtomList(b) ==> multiset(AtomList(a)) == multiset(AtomList(b));
    }
    forall a: Mono ensures !MonoLess(a, a) { LexTotal(AtomList(a), AtomList(a)); }
    forall a: Mono, b: Mono, c: Mono | MonoLess(a, b) && MonoLess(b, c) ensures MonoLess(a, c) {
      LexTrans(AtomList(a), AtomList(b), AtomList(c));
    }
  }

  // ordered iteration over the keys (std::map, std::sort)
  method SortKeys(keys: set<Mono>, less: (Mono, Mono) -> bool) returns (s: seq<Mono>)
    requires StrictOrder(less)
    ensures forall i, j :: 0 <= i < j < |s| ==> less(s[i], s[j])
    ensures forall m :: m in s <==> m in keys
  {
    s := [];
    var todo := keys;
    while todo != {}
      invariant todo <= keys
      invariant forall i, j :: 0 <= i < j < |s| ==> less(s[i], s[j])
      invariant forall m :: m in s <==> m in keys && m !in todo
    {
      var m :| m in todo;
      var i := 0;
      while i < |s| && less(s[i], m)
        invariant i <= |s| && forall k :: 0 <= k < i ==> less(s[k], m)
      {
        i := i + 1;
      }
      s := s[..i] + [m] + s[i..];
      todo := todo - {m};
    }
  }
}
