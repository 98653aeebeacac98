// Rounding to an 8-bit float, parametric in the number of mantissa bits and the bias. Codes without their sign count
// the representable magnitudes upwards; magnitudes are in units of the smallest subnormal.
module Fp8Rounding {
  import opened Powers

  // the magnitude of code c, with `ulps` = 2^mbits codes per binade; no largest exponent
  function Magnitude(ulps: nat, c: nat): nat
    requires ulps > 0
    decreases c
  {
    if c < 2 * ulps then c else 2 * Magnitude(ulps, c - ulps)
  }

  // the fields of a code: exponent fe and mantissa q - ulps of a normal number, q between one and two binades of ulps
  lemma {:induction false} MagnitudeFields(ulps: nat, fe: nat, q: nat)
    requires ulps > 0 && fe > 0 && ulps <= q <= 2 * ulps
    ensures (fe - 1) * ulps >= 0 && Magnitude(ulps, (fe - 1) * ulps + q) == q * Pow2(fe - 1)
    decreases fe
  {
    if fe == 1 {
      assert (fe - 1) * ulps == 0;
      if q == 2 * ulps { assert Magnitude(ulps, q) == 2 * Magnitude(ulps, ulps); }
    } else {
      MagnitudeFields(ulps, fe - 1, q);
      assert (fe - 1) * ulps == (fe - 2) * ulps + ulps;
      assert q * Pow2(fe - 1) == 2 * (q * Pow2(fe - 2));
    }
  }

  lemma {:induction false} MagnitudeNext(ulps: nat, c: nat)
    requires ulps > 0
    ensures Magnitude(ulps, c) < Magnitude(ulps, c + 1)
    decreases c
  {
    if c >= 2 * ulps {
      MagnitudeNext(ulps, c - ulps);
    } else if c + 1 >= 2 * ulps {
      assert Magnitude(ulps, c + 1) == 2 * Magnitude(ulps, c + 1 - ulps);
    }
  }

  lemma {:induction false} MagnitudeRises(ulps: nat, a: nat, b: nat)
    requires ulps > 0 && a < b
    ensures Magnitude(ulps, a) < Magnitude(ulps, b)
    decreases b
  {
    MagnitudeNext(ulps, b - 1);
    if a < b - 1 { MagnitudeRises(ulps, a, b - 1); }
  }

  // distance between code c and num / den, times den
  function Distance(ulps: nat, c: nat, num: nat, den: nat): nat
    requires ulps > 0
  {
    var v: int := Magnitude(ulps, c) * den - num;
    if v < 0 then -v else v
  }

  // the representable magnitude nearest to num / den, ties to the even code (its last mantissa bit is zero)
  ghost predicate Nearest(ulps: nat, c: nat, num: nat, den: nat)
    requires ulps > 0
  {
    forall d: nat :: d != c ==>
      Distance(ulps, c, num, den) < Distance(ulps, d, num, den)
      || (Distance(ulps, c, num, den) == Distance(ulps, d, num, den) && c % 2 == 0)
  }

  lemma DoubleDistance(a: int, b: int, num: int, den: int)
    requires den > 0 && a < b
    ensures 2 * num < (a + b) * den ==> Away(a, num, den) < Away(b, num, den)
    ensures 2 * num == (a + b) * den ==> Away(a, num, den) == Away(b, num, den)
    ensures 2 * num > (a + b) * den ==> Away(a, num, den) > Away(b, num, den)
  {
    assert (a + b) * den == a * den + b * den;
    assert (b - a) * den == b * den - a * den && (b - a) * den > 0;
  }

  function Away(a: int, num: int, den: int): nat {
    if a * den - num < 0 then num - a * den else a * den - num
  }

  // no code is nearer than one that lies within half a step of both its neighbours
  lemma BetweenNeighbours(ulps: nat, c: nat, num: nat, den: nat)
    requires ulps > 0 && den > 0
    requires var m, up := Magnitude(ulps, c), Magnitude(ulps, c + 1);
      2 * num < (m + up) * den || (2 * num == (m + up) * den && c % 2 == 0)
    requires c > 0 ==> (var m, down := Magnitude(ulps, c), Magnitude(ulps, c - 1);
      2 * num > (m + down) * den || (2 * num == (m + down) * den && c % 2 == 0))
    ensures Nearest(ulps, c, num, den)
  {
    forall d: nat | d != c
      ensures Distance(ulps, c, num, den) < Distance(ulps, d, num, den)
        || (Distance(ulps, c, num, den) == Distance(ulps, d, num, den) && c % 2 == 0)
    {
      if d > c {
        Above(ulps, c, d, num, den);
      } else {
        Below(ulps, c, d, num, den);
      }
    }
  }

  lemma Above(ulps: nat, c: nat, d: nat, num: nat, den: nat)
    requires ulps > 0 && den > 0 && d > c
    requires var m, up := Magnitude(ulps, c), Magnitude(ulps, c + 1);
      2 * num < (m + up) * den || (2 * num == (m + up) * den && c % 2 == 0)
    ensures Distance(ulps, c, num, den) < Distance(ulps, d, num, den)
      || (Distance(ulps, c, num, den) == Distance(ulps, d, num, den) && c % 2 == 0)
  {
    var m, up, v := Magnitude(ulps, c), Magnitude(ulps, c + 1), Magnitude(ulps, d);
    MagnitudeNext(ulps, c);
    if d > c + 1 { MagnitudeRises(ulps, c + 1, d); }
    hide Magnitude;
    DoubleDistance(m, v, num, den);
    Scale(m + up, m + v, den);
  }

  lemma Below(ulps: nat, c: nat, d: nat, num: nat, den: nat)
    requires ulps > 0 && den > 0 && d < c
    requires var m, down := Magnitude(ulps, c), Magnitude(ulps, c - 1);
      2 * num > (m + down) * den || (2 * num == (m + down) * den && c % 2 == 0)
    ensures Distance(ulps, c, num, den) < Distance(ulps, d, num, den)
      || (Distance(ulps, c, num, den) == Distance(ulps, d, num, den) && c % 2 == 0)
  {
    var m, down, v := Magnitude(ulps, c), Magnitude(ulps, c - 1), Magnitude(ulps, d);
    MagnitudeNext(ulps, c - 1);
    if d < c - 1 { MagnitudeRises(ulps, d, c - 1); }
    hide Magnitude;
    DoubleDistance(v, m, num, den);
    Scale(m + v, m + down, den);
  }

  lemma Scale(a: int, b: int, den: int)
    requires a <= b && den > 0
    ensures a * den <= b * den
  {
  }

  lemma MulOrder(a: int, b: int, d: int)
    requires d > 0
    ensures (a <= b ==> a * d <= b * d) && (a < b ==> a * d + d <= b * d)
  {
    Difference(a, b, d);
    if a < b { AtLeast(b - a, d); }
  }

  lemma Difference(a: int, b: int, d: int)
    ensures (b - a) * d == b * d - a * d
  {
  }

  lemma AtLeast(k: int, d: int)
    requires k >= 1 && d > 0
    ensures k * d >= d
  {
  }

  lemma QuotientNat(m: nat, d: nat)
    requires d > 0
    ensures m / d >= 0
  {
  }

  lemma QuotientBounds(m: nat, d: nat, lo: nat, hi: nat)
    requires d > 0 && lo * d <= m < hi * d
    ensures lo <= m / d < hi
  {
    var q := m / d;
    assert m == q * d + m % d;
    MulOrder(q, lo, d);
    MulOrder(hi, q, d);
  }

  // the nearest code is unique: two neighbours at the same distance are not both even
  lemma NearestUnique(ulps: nat, a: nat, b: nat, num: nat, den: nat)
    requires ulps > 0 && den > 0 && a < b && Nearest(ulps, a, num, den)
    ensures !Nearest(ulps, b, num, den)
  {
    var x, v, y := Magnitude(ulps, a), Magnitude(ulps, a + 1), Magnitude(ulps, b);
    MagnitudeNext(ulps, a);
    if Nearest(ulps, b, num, den) {
      if b > a + 1 {
        MagnitudeRises(ulps, a + 1, b);
        hide Magnitude;
        assert Distance(ulps, a, num, den) <= Distance(ulps, a + 1, num, den);
        DoubleDistance(x, v, num, den);
        DoubleDistance(v, y, num, den);
        MulOrder(x + v, v + y, den);
      }
    }
  }

  // a magnitude that is representable is its own rounding
  lemma ExactIsNearest(ulps: nat, c: nat, num: nat, den: nat)
    requires ulps > 0 && den > 0 && num == Magnitude(ulps, c) * den
    ensures Nearest(ulps, c, num, den)
  {
    forall d: nat | d != c ensures Distance(ulps, c, num, den) < Distance(ulps, d, num, den) {
      if d > c { MagnitudeRises(ulps, c, d); } else { MagnitudeRises(ulps, d, c); }
      MulOrder(Magnitude(ulps, c), Magnitude(ulps, d), den);
      MulOrder(Magnitude(ulps, d), Magnitude(ulps, c), den);
      hide Magnitude;
    }
  }

  // ---- round half to even

  function Rne(m: nat, d: nat): nat
    requires d > 0
  {
    var q, rem := m / d, m % d;
    if 2 * rem > d || (2 * rem == d && q % 2 == 1) then q + 1 else q
  }

  lemma RneHalf(m: nat, d: nat)
    requires d > 0
    ensures var q := Rne(m, d);
      && (2 * m < (2 * q + 1) * d || (2 * m == (2 * q + 1) * d && q % 2 == 0))
      && (2 * m > (2 * q - 1) * d || (2 * m == (2 * q - 1) * d && q % 2 == 0))
  {
    var q, rem := m / d, m % d;
    assert m == d * q + rem;
    OddMultiples(q, d);
    OddMultiples(q + 1, d);
    assert d * (q + 1) == d * q + d;
  }

  lemma OddMultiples(q: int, d: int)
    ensures (2 * q + 1) * d == 2 * (d * q) + d && (2 * q - 1) * d == 2 * (d * q) - d
  {
  }

  // a normal result: m scaled to one binade of ulps rounds to the code with these fields
  lemma NormalNearest(ulps: nat, fe: nat, m: nat, d: nat)
    requires ulps > 0 && ulps % 2 == 0 && fe > 0 && d > 0 && ulps * d <= m < 2 * ulps * d
    ensures ulps <= Rne(m, d) <= 2 * ulps && (fe - 1) * ulps >= 0
    ensures Nearest(ulps, (fe - 1) * ulps + Rne(m, d), m * Pow2(fe - 1), d)
  {
    RneBinade(ulps, m, d);
    RneHalf(m, d);
    var q, k := Rne(m, d), Pow2(fe - 1);
    var c := (fe - 1) * ulps + q;
    MagnitudeFields(ulps, fe, q);
    EvenShift(ulps, fe, q);
    NextMagnitude(ulps, fe, q);
    hide Rne, Magnitude, Pow2, Nearest;
    UpperHalf(m, q, k, d, Magnitude(ulps, c), Magnitude(ulps, c + 1), c);
    LowerHalf(ulps, m, q, k, d, Magnitude(ulps, c), Magnitude(ulps, c - 1), c);
    BetweenNeighbours(ulps, c, m * k, d);
  }

  lemma RneBinade(ulps: nat, m: nat, d: nat)
    requires d > 0 && ulps * d <= m < 2 * ulps * d
    ensures ulps <= Rne(m, d) <= 2 * ulps
  {
    QuotientBounds(m, d, ulps, 2 * ulps);
  }

  lemma EvenShift(ulps: nat, fe: nat, q: nat)
    requires ulps % 2 == 0 && fe > 0
    ensures ((fe - 1) * ulps + q) % 2 == q % 2 && (fe - 1) * ulps >= 0
  {
    var h := ulps / 2;
    EvenProduct(fe - 1, ulps, h);
    EvenSum((fe - 1) * h, q);
  }

  lemma EvenProduct(a: nat, b: nat, h: nat)
    requires b == 2 * h
    ensures a * b == 2 * (a * h) && a * h >= 0
  {
  }

  lemma EvenSum(x: nat, q: nat)
    ensures (2 * x + q) % 2 == q % 2
  {
  }

  // the neighbours of a normal code
  lemma NextMagnitude(ulps: nat, fe: nat, q: nat)
    requires ulps > 0 && fe > 0 && ulps <= q <= 2 * ulps
    ensures var c, k := (fe - 1) * ulps + q, Pow2(fe - 1);
      && c > 0
      && Magnitude(ulps, c + 1) >= q * k + k
      && (if q > ulps then Magnitude(ulps, c - 1) == q * k - k else Magnitude(ulps, c - 1) < q * k)
  {
    var c, k := (fe - 1) * ulps + q, Pow2(fe - 1);
    MagnitudeFields(ulps, fe, q);
    if q < 2 * ulps { MagnitudeFields(ulps, fe, q + 1); } else { MagnitudeFields(ulps, fe + 1, ulps + 1); }
    if q > ulps { MagnitudeFields(ulps, fe, q - 1); } else { MagnitudeNext(ulps, c - 1); }
    NextProducts(ulps, fe, q, k);
    hide Magnitude, Pow2;
  }

  lemma NextProducts(ulps: nat, fe: nat, q: nat, k: nat)
    requires fe > 0 && k == Pow2(fe - 1)
    ensures (q + 1) * k == q * k + k && (q - 1) * k == q * k - k && fe * ulps == (fe - 1) * ulps + ulps
    ensures (ulps + 1) * Pow2(fe) == 2 * ulps * k + 2 * k
  {
    assert Pow2(fe) == 2 * k;
    hide Pow2;
    assert (ulps + 1) * (2 * k) == 2 * ulps * k + 2 * k;
  }

  lemma UpperHalf(m: nat, q: nat, k: nat, d: nat, here: nat, up: nat, c: nat)
    requires k > 0 && d > 0 && here == q * k && up >= q * k + k && c % 2 == q % 2
    requires 2 * m < (2 * q + 1) * d || (2 * m == (2 * q + 1) * d && q % 2 == 0)
    ensures 2 * (m * k) < (here + up) * d || (2 * (m * k) == (here + up) * d && c % 2 == 0)
  {
    Products(m, q, k, d);
    MulOrder(2 * (q * k) + k, here + up, d);
    MulOrder(2 * m, (2 * q + 1) * d, k);
  }

  lemma Products(m: int, q: int, k: int, d: int)
    ensures (2 * m) * k == 2 * (m * k)
    ensures ((2 * q + 1) * d) * k == (2 * (q * k) + k) * d && ((2 * q - 1) * d) * k == (2 * (q * k) - k) * d
    ensures (q * d) * k == (q * k) * d && (2 * (q * k)) * d == 2 * ((q * k) * d)
  {
    Expand(q, k, d);
  }

  lemma Expand(q: int, k: int, d: int)
    ensures (2 * q + 1) * d == 2 * (q * d) + d && (2 * q - 1) * d == 2 * (q * d) - d
    ensures (q * d) * k == (q * k) * d && (2 * (q * d) + d) * k == 2 * ((q * d) * k) + d * k
    ensures (2 * (q * d) - d) * k == 2 * ((q * d) * k) - d * k
    ensures (2 * (q * k) + k) * d == 2 * ((q * k) * d) + d * k && (2 * (q * k) - k) * d == 2 * ((q * k) * d) - d * k
  {
  }

  lemma LowerHalf(ulps: nat, m: nat, q: nat, k: nat, d: nat, here: nat, down: nat, c: nat)
    requires k > 0 && d > 0 && here == q * k && c % 2 == q % 2 && ulps * d <= m && ulps <= q
    requires if q > ulps then down == q * k - k else down < q * k
    requires 2 * m > (2 * q - 1) * d || (2 * m == (2 * q - 1) * d && q % 2 == 0)
    ensures 2 * (m * k) > (here + down) * d || (2 * (m * k) == (here + down) * d && c % 2 == 0)
  {
    Products(m, q, k, d);
    if q > ulps {
      MulOrder((2 * q - 1) * d, 2 * m, k);
    } else {
      MulOrder(q * d, m, k);
      MulOrder(here + down, 2 * (q * k), d);
    }
  }

  lemma Reassociate(a: int, d: int, k: int)
    ensures a * d * k == a * k * d
  {
  }

  // a subnormal result, up to and including the smallest normal
  lemma SubnormalNearest(ulps: nat, m: nat, d: nat)
    requires ulps > 0 && d > 0 && m < ulps * d
    ensures Rne(m, d) <= ulps && Nearest(ulps, Rne(m, d), m, d)
  {
    RneHalf(m, d);
    var q := Rne(m, d);
    QuotientBounds(m, d, 0, ulps);
    assert Magnitude(ulps, q) == q && Magnitude(ulps, q + 1) >= q + 1 by { MagnitudeNext(ulps, q); }
    Scale(2 * q + 1, q + Magnitude(ulps, q + 1), d);
    hide Rne;
    BetweenNeighbours(ulps, q, m, d);
  }
}
