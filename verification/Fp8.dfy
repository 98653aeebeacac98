// FP8 storage conversions: the branchy encoder, the decoder, and the branch-free saturating E4M3 encoder.
module Fp8 {
  import opened Powers
  import opened Fp8Rounding

  // a binary32 bit pattern by its fields
  datatype Float = Float(negative: bool, exp: nat, man: nat)

  const HIDDEN := 0x80_0000

  predicate IsFloat(f: Float) {
    f.exp < 256 && f.man < HIDDEN
  }

  function Bits(f: Float): nat {
    f.exp * HIDDEN + f.man
  }

  function SignBit(f: Float): nat {
    if f.negative then 0x80 else 0
  }

  // the two formats: mantissa bits and bias
  function MBits(e5m2: bool): nat {
    if e5m2 then 2 else 3
  }

  function Bias(e5m2: bool): nat {
    if e5m2 then 15 else 7
  }

  function Ulps(e5m2: bool): nat {
    if e5m2 then 4 else 8
  }

  function MaxFinite(e5m2: bool): nat {
    if e5m2 then 0x7b else 0x7e
  }

  // beyond the largest finite code: it if saturating, else infinity, or NaN in a format without infinities
  function Overflow(e5m2: bool, sat: bool): nat {
    if sat then MaxFinite(e5m2) else if e5m2 then 0x7c else 0x7f
  }

  // ---- the magnitude of a finite float in units of the smallest subnormal of the target, as num / den

  function Significand(f: Float): nat {
    if f.exp == 0 then f.man else f.man + HIDDEN
  }

  // exponent field in the target's bias
  function TargetExp(f: Float, bias: nat): int {
    (if f.exp == 0 then 1 else f.exp) - 127 + bias
  }

  function Num(f: Float, bias: nat): nat {
    var fe := TargetExp(f, bias);
    if fe > 0 then Significand(f) * Pow2(fe - 1) else Significand(f)
  }

  function Den(f: Float, mbits: nat, bias: nat): (d: nat)
    requires mbits <= 23
    ensures d > 0
  {
    var fe := TargetExp(f, bias);
    if fe > 0 then Pow2(23 - mbits) else Pow2(23 - mbits + 1 - fe)
  }

  // code c, counted without a largest exponent, is the correct rounding of the float's magnitude
  ghost predicate Rounds(f: Float, c: nat, mbits: nat, bias: nat)
    requires mbits <= 23
  {
    Nearest(Pow2(mbits), c, Num(f, bias), Den(f, mbits, bias))
  }

  lemma RoundsUnique(f: Float, a: nat, b: nat, mbits: nat, bias: nat)
    requires mbits <= 23 && Rounds(f, a, mbits, bias) && Rounds(f, b, mbits, bias)
    ensures a == b
  {
    if a < b {
      NearestUnique(Pow2(mbits), a, b, Num(f, bias), Den(f, mbits, bias));
    } else if b < a {
      NearestUnique(Pow2(mbits), b, a, Num(f, bias), Den(f, mbits, bias));
    }
  }

  // ---- the encoder's two cases, for any format

  lemma Split(mbits: nat)
    requires 1 <= mbits <= 23
    ensures Pow2(mbits) * Pow2(23 - mbits) == HIDDEN && Pow2(mbits) % 2 == 0
  {
    Pow2Add(mbits, 23 - mbits);
    assert Pow2(23) == HIDDEN by { Pow2Of23(); }
  }

  lemma Pow2Of23()
    ensures Pow2(23) == HIDDEN
  {
    assert Pow2(8) == 256;
    assert Pow2(16) == 65536 by { Pow2Add(8, 8); }
    assert Pow2(7) == 128;
    Pow2Add(16, 7);
  }

  lemma Binade(m: nat, u: nat, d: nat)
    requires u * d == HIDDEN && HIDDEN <= m < 2 * HIDDEN
    ensures u * d <= m < 2 * u * d
  {
    assert 2 * u * d == 2 * (u * d);
  }

  // a normal target: the significand rounds to one binade of the target's ulps
  lemma NormalRounds(f: Float, mbits: nat, bias: nat)
    requires IsFloat(f) && 1 <= mbits <= 23 && f.exp > 0 && TargetExp(f, bias) > 0
    ensures var fe, q := TargetExp(f, bias), Rne(Significand(f), Pow2(23 - mbits));
      Pow2(mbits) <= q <= 2 * Pow2(mbits) && (fe - 1) * Pow2(mbits) >= 0
        && Rounds(f, (fe - 1) * Pow2(mbits) + q, mbits, bias)
  {
    Split(mbits);
    hide Rne, Pow2, Nearest;
    Binade(Significand(f), Pow2(mbits), Pow2(23 - mbits));
    NormalNearest(Pow2(mbits), TargetExp(f, bias), Significand(f), Pow2(23 - mbits));
  }

  // a subnormal target, a float subnormal or a zero
  lemma SubnormalRounds(f: Float, mbits: nat, bias: nat)
    requires IsFloat(f) && 1 <= mbits <= 23 && TargetExp(f, bias) <= 0
    ensures Rne(Significand(f), Den(f, mbits, bias)) <= Pow2(mbits)
    ensures Rounds(f, Rne(Significand(f), Den(f, mbits, bias)), mbits, bias)
  {
    hide Rne, Nearest;
    Split(mbits);
    var fe := TargetExp(f, bias);
    Pow2Add(23 - mbits, 1 - fe);
    Pow2Rises(1, 1 - fe);
    assert Pow2(1) == 2;
    hide Pow2;
    DenLarge(Pow2(mbits), Pow2(23 - mbits), Pow2(1 - fe));
    SubnormalNearest(Pow2(mbits), Significand(f), Den(f, mbits, bias));
  }

  lemma DenLarge(u: nat, a: nat, b: nat)
    requires u * a == HIDDEN && b >= 2
    ensures u * (a * b) >= 2 * HIDDEN
  {
    assert u * (a * b) == (u * a) * b;
  }

  // a significand far below the divisor rounds to zero
  lemma TinyRne(m: nat, d: nat)
    requires d > 0 && 2 * m < d
    ensures Rne(m, d) == 0
  {
  }

  // ---- float -> fp8

  // the correctly rounded code when it is finite in the format, else the overflow code
  ghost predicate EncodesFinite(f: Float, mbits: nat, bias: nat, e5m2: bool, sat: bool, code: nat)
    requires mbits <= 23
  {
    exists c: nat :: Rounds(f, c, mbits, bias) && code == SignBit(f) + if c <= MaxFinite(e5m2) then c
      else Overflow(e5m2, sat)
  }

  ghost predicate Encodes(f: Float, e5m2: bool, sat: bool, code: nat) {
    if f.exp == 0xff then
      code == SignBit(f) + if f.man != 0 then 0x7f else Overflow(e5m2, sat)
    else EncodesFinite(f, MBits(e5m2), Bias(e5m2), e5m2, sat, code)
  }

  // there is exactly one such code
  lemma EncodesUnique(f: Float, e5m2: bool, sat: bool, a: nat, b: nat)
    requires Encodes(f, e5m2, sat, a) && Encodes(f, e5m2, sat, b)
    ensures a == b
  {
    if f.exp != 0xff {
      var mbits, bias := MBits(e5m2), Bias(e5m2);
      hide Rounds;
      var x: nat :| Rounds(f, x, mbits, bias) && a == SignBit(f) + if x <= MaxFinite(e5m2) then x
        else Overflow(e5m2, sat);
      var y: nat :| Rounds(f, y, mbits, bias) && b == SignBit(f) + if y <= MaxFinite(e5m2) then y
        else Overflow(e5m2, sat);
      RoundsUnique(f, x, y, mbits, bias);
    }
  }

  lemma SmallDivisors(e5m2: bool)
    ensures Pow2(MBits(e5m2)) == Ulps(e5m2)
  {
    assert Pow2(2) == 4 && Pow2(3) == 8;
  }

  // a float subnormal, or zero, is far below half the smallest fp8 subnormal
  lemma ZeroRounds(f: Float, mbits: nat, bias: nat)
    requires IsFloat(f) && f.exp == 0 && 1 <= mbits <= 3 && bias <= 100
    ensures Rounds(f, 0, mbits, bias)
  {
    SubnormalRounds(f, mbits, bias);
    Pow2Rises(25, 23 - mbits + 1 - TargetExp(f, bias));
    Pow2Add(23, 2);
    Pow2Of23();
    TinyRne(Significand(f), Den(f, mbits, bias));
  }

  lemma FarBelow(f: Float, mbits: nat, bias: nat)
    requires IsFloat(f) && 1 <= mbits <= 3 && TargetExp(f, bias) <= 0 && 23 - mbits + 1 - TargetExp(f, bias) > 31
    ensures Rounds(f, 0, mbits, bias)
  {
    SubnormalRounds(f, mbits, bias);
    Pow2Rises(32, 23 - mbits + 1 - TargetExp(f, bias));
    Pow2Add(23, 9);
    Pow2Of23();
    assert Pow2(9) == 512;
    TinyRne(Significand(f), Den(f, mbits, bias));
  }

  // the machine's shift and mask
  function ShiftRight(m: nat, shift: nat): nat {
    QuotientNat(m, Pow2(shift));
    m / Pow2(shift)
  }

  function LowBits(m: nat, bits: nat): nat {
    m % Pow2(bits)
  }

  // the rounding test on the low bits, as the encoder writes it
  predicate RoundsUp(rem: nat, half: nat, mant: nat) {
    rem > half || (rem == half && mant % 2 == 1)
  }

  // it rounds half to even
  lemma HalfIsRne(m: nat, shift: nat)
    requires shift > 0
    ensures Rne(m, Pow2(shift)) ==
      ShiftRight(m, shift) + if RoundsUp(LowBits(m, shift), Pow2(shift - 1), ShiftRight(m, shift)) then 1 else 0
  {
  }

  // dropping the hidden bit
  lemma MantissaField(m: nat, mbits: nat)
    requires 1 <= mbits <= 23 && HIDDEN <= m < 2 * HIDDEN
    ensures var q, ulps := ShiftRight(m, 23 - mbits), Pow2(mbits);
      ulps <= q < 2 * ulps && LowBits(q, mbits) == q - ulps && LowBits(q, mbits) % 2 == q % 2
  {
    Split(mbits);
    hide Pow2;
    var ulps, d := Pow2(mbits), Pow2(23 - mbits);
    Binade(m, ulps, d);
    QuotientBounds(m, d, ulps, 2 * ulps);
    OneBinade(m / d, ulps);
  }

  lemma OneBinade(q: nat, ulps: nat)
    requires ulps <= q < 2 * ulps && ulps % 2 == 0
    ensures q % ulps == q - ulps && (q % ulps) % 2 == q % 2
  {
    assert q == ulps * 1 + (q - ulps);
    var k: int := q / ulps - 1;
    assert ulps * k == q - ulps - q % ulps by {
      assert q == ulps * (q / ulps) + q % ulps;
      assert ulps * k == ulps * (q / ulps) - ulps;
    }
    MulOrder(1, k, ulps);
    MulOrder(k, -1, ulps);
  }

  // a mantissa that reaches a whole binade carries into the exponent
  lemma Carry(mant: nat, e5m2: bool)
    requires mant <= Ulps(e5m2)
    ensures if ShiftRight(mant, MBits(e5m2)) != 0 then mant == Ulps(e5m2)
      && LowBits(mant, MBits(e5m2)) == 0 else mant < Ulps(e5m2)
  {
    SmallDivisors(e5m2);
  }

  // a code found by the encoder
  lemma Found(f: Float, e5m2: bool, sat: bool, c: nat)
    requires f.exp != 0xff && Rounds(f, c, MBits(e5m2), Bias(e5m2))
    ensures Encodes(f, e5m2, sat, SignBit(f) + if c <= MaxFinite(e5m2) then c else Overflow(e5m2, sat))
  {
    hide Rounds;
  }

  // a subnormal mantissa that reaches a whole binade is the smallest normal
  lemma SubnormalCode(f: Float, e5m2: bool, sat: bool, shift: nat)
    requires IsFloat(f) && 0 < f.exp < 0xff && TargetExp(f, Bias(e5m2)) <= 0
      && shift == 24 - MBits(e5m2) - TargetExp(f, Bias(e5m2))
    ensures var q := ShiftRight(Significand(f), shift);
      var mant := if RoundsUp(LowBits(Significand(f), shift), Pow2(shift - 1), q) then q + 1 else q;
      mant <= Ulps(e5m2) && Encodes(f, e5m2, sat, SignBit(f) + mant)
  {
    SmallDivisors(e5m2);
    SubnormalDen(f, e5m2, shift);
    hide Rne, Rounds, Encodes, Pow2, ShiftRight, LowBits, RoundsUp, Den, Significand;
    SubnormalRounds(f, MBits(e5m2), Bias(e5m2));
    HalfIsRne(Significand(f), shift);
    Found(f, e5m2, sat, Rne(Significand(f), Pow2(shift)));
  }

  lemma SubnormalDen(f: Float, e5m2: bool, shift: nat)
    requires TargetExp(f, Bias(e5m2)) <= 0 && shift == 24 - MBits(e5m2) - TargetExp(f, Bias(e5m2))
    ensures Den(f, MBits(e5m2), Bias(e5m2)) == Pow2(shift)
  {
  }

  // the normal mantissa after rounding, with the carry into the exponent
  lemma NormalCode(f: Float, e5m2: bool, sat: bool, fe: nat, mant: nat)
    requires IsFloat(f) && 0 < f.exp < 0xff && fe > 0 && fe == TargetExp(f, Bias(e5m2))
    requires mant == LowBits(ShiftRight(Significand(f), 23 - MBits(e5m2)), MBits(e5m2))
    ensures mant < Ulps(e5m2)
    ensures var shift := 23 - MBits(e5m2);
      var c := fe * Ulps(e5m2) + if RoundsUp(LowBits(Significand(f), shift), Pow2(shift - 1), mant) then mant + 1
        else mant;
      Encodes(f, e5m2, sat, SignBit(f) + if c <= MaxFinite(e5m2) then c else Overflow(e5m2, sat))
  {
    var shift := 23 - MBits(e5m2);
    SmallDivisors(e5m2);
    MantissaField(Significand(f), MBits(e5m2));
    HalfIsRne(Significand(f), shift);
    NormalRounds(f, MBits(e5m2), Bias(e5m2));
    hide Rne, Rounds, Encodes, Pow2, ShiftRight, LowBits, Significand;
    Found(f, e5m2, sat, (fe - 1) * Ulps(e5m2) + Rne(Significand(f), Pow2(shift)));
  }

  // the mantissa field rounded, a carry going to the exponent field
  method RoundField(fe: nat, mant: nat, rem: nat, half: nat, e5m2: bool) returns (fe': nat, mant': nat)
    requires mant < Ulps(e5m2)
    ensures mant' < Ulps(e5m2) && fe' * Ulps(e5m2) + mant' == fe * Ulps(e5m2) + if RoundsUp(rem, half, mant)
      then mant + 1 else mant
  {
    fe', mant' := fe, mant;
    if RoundsUp(rem, half, mant) {
      mant' := mant + 1;
      Carry(mant', e5m2);
      if ShiftRight(mant', MBits(e5m2)) != 0 {
        mant' := 0;
        fe' := fe + 1;
      }
    }
  }

  // float -> fp8, round to nearest even
  method F2Fp8(f: Float, mbits: nat, bias: nat, e5m2: bool, sat: bool) returns (code: nat)
    requires IsFloat(f) && mbits == MBits(e5m2) && bias == Bias(e5m2)
    ensures Encodes(f, e5m2, sat, code)
  {
    var sign := SignBit(f);
    if f.exp == 0xff {
      if f.man != 0 { return sign + 0x7f; }
      if e5m2 { return if sat then sign + 0x7b else sign + 0x7c; }
      return if sat then sign + 0x7e else sign + 0x7f;
    }
    hide Encodes, Pow2, SignBit, ShiftRight, LowBits, RoundsUp;
    if f.exp == 0 {
      ZeroRounds(f, mbits, bias);
      Found(f, e5m2, sat, 0);
    }
    if f.exp == 0 && f.man == 0 { return sign; }
    var e := f.exp - 127;
    var m := f.man + HIDDEN;
    if f.exp == 0 { return sign; }
    var fe := e + bias;
    var shift := 23 - mbits;
    assert m == Significand(f) && fe == TargetExp(f, bias);
    hide Significand, TargetExp, RoundsUp;
    if fe <= 0 {
      var extra := 1 - fe;
      shift := shift + extra;
      if shift > 31 {
        FarBelow(f, mbits, bias);
        Found(f, e5m2, sat, 0);
        return sign;
      }
      SubnormalCode(f, e5m2, sat, shift);
      fe := 0;
      var rem, half := LowBits(m, shift), Pow2(shift - 1);
      var mant := ShiftRight(m, shift);
      if RoundsUp(rem, half, mant) { mant := mant + 1; }
      Carry(mant, e5m2);
      if ShiftRight(mant, mbits) != 0 {
        fe := 1;
        mant := LowBits(mant, mbits);
      }
      return sign + fe * Ulps(e5m2) + mant;
    }
    var rem, half := LowBits(m, shift), Pow2(shift - 1);
    var mant := LowBits(ShiftRight(m, shift), mbits);
    NormalCode(f, e5m2, sat, fe, mant);
    fe, mant := RoundField(fe, mant, rem, half, e5m2);
    if e5m2 {
      if fe >= 31 { return if sat then sign + 0x7b else sign + 0x7c; }
      return sign + fe * 4 + mant;
    }
    if fe > 15 || (fe == 15 && mant == 7) { return if sat then sign + 0x7e else sign + 0x7f; }
    return sign + fe * 8 + mant;
  }

  // ---- the branch-free saturating E4M3 encoder

  const BITS_448 := 0x43e0_0000
  const BITS_MIN_NORMAL := 0x3c80_0000
  const INFINITY_BITS := 0x7f80_0000

  // rintf(ax * 512): the magnitude in units of 2^-9, rounded half to even
  function TimesRint(f: Float): nat {
    var p := (if f.exp == 0 then 1 else f.exp) - 141;
    if p >= 0 then Significand(f) * Pow2(p) else Rne(Significand(f), Pow2(-p))
  }

  // adding half an ulp and the tie bit to the bit pattern, then dropping the low bits
  function PatternRound(a: nat): nat {
    var rn := a + 0x7_ffff + ShiftRight(a, 20) % 2;
    if ShiftRight(rn, 20) >= 120 * 8 then (ShiftRight(rn, 20) - 120 * 8) % 128 else 0
  }

  lemma Pow2Of20()
    ensures Pow2(20) == 0x10_0000
  {
    assert Pow2(8) == 256 && Pow2(4) == 16;
    Pow2Add(8, 8);
    Pow2Add(16, 4);
  }

  // the pattern's rounding is the significand's
  lemma PatternIsRne(f: Float)
    requires IsFloat(f) && 121 <= f.exp && Bits(f) <= BITS_448
    ensures (f.exp - 121) * 8 + Rne(Significand(f), Pow2(20)) <= MaxFinite(false)
    ensures PatternRound(Bits(f)) == (f.exp - 121) * 8 + Rne(Significand(f), Pow2(20))
  {
    var t, r := f.man / 0x10_0000, f.man % 0x10_0000;
    assert f.man == 0x10_0000 * t + r;
    assert Bits(f) == 0x10_0000 * (8 * f.exp + t) + r && Significand(f) == 0x10_0000 * (t + 8) + r;
    FieldsInRange(f.exp, t, r);
    hide PatternRound, Rne, Pow2, Bits, Significand, RoundsUp;
    PatternFields(8 * f.exp + t, r);
    SignificandFields(t, r);
  }

  lemma FieldsInRange(exp: nat, t: nat, r: nat)
    requires exp >= 121 && r < 0x10_0000 && 0x10_0000 * (8 * exp + t) + r <= BITS_448
    ensures exp <= 135 && 8 * exp + t <= 1086 && (8 * exp + t == 1086 ==> r == 0)
    ensures RoundsUp(r, 0x8_0000, 8 * exp + t) == RoundsUp(r, 0x8_0000, t)
    ensures 8 * exp + t == 1086 ==> !RoundsUp(r, 0x8_0000, t)
  {
    assert (8 * exp + t) % 2 == t % 2;
  }

  // the pattern with its low 20 bits apart
  lemma PatternFields(high: nat, r: nat)
    requires r < 0x10_0000 && 120 * 8 <= high < 120 * 8 + 127
    ensures PatternRound(0x10_0000 * high + r) == high + (if RoundsUp(r, 0x8_0000, high) then 1 else 0) - 120 * 8
  {
    Pow2Of20();
    hide Pow2;
    var a, low := 0x10_0000 * high + r, r + 0x7_ffff + high % 2;
    assert ShiftRight(a, 20) == high;
    assert a + 0x7_ffff + ShiftRight(a, 20) % 2 == 0x10_0000 * high + low;
    assert ShiftRight(0x10_0000 * high + low, 20) == high + if low >= 0x10_0000 then 1 else 0;
  }

  lemma SignificandFields(t: nat, r: nat)
    requires r < 0x10_0000
    ensures Rne(0x10_0000 * (t + 8) + r, Pow2(20)) == t + 8 + if RoundsUp(r, 0x8_0000, t) then 1 else 0
  {
    Pow2Of20();
    hide Pow2;
    var m := 0x10_0000 * (t + 8) + r;
    assert m / 0x10_0000 == t + 8 && m % 0x10_0000 == r;
  }

  // magnitudes above 448 round to the largest finite code or beyond
  lemma AboveMax(f: Float, c: nat)
    requires IsFloat(f) && f.exp != 0xff && Bits(f) > BITS_448 && Rounds(f, c, 3, 7)
    ensures c >= MaxFinite(false)
  {
    NormalRounds(f, 3, 7);
    Pow2Of20();
    assert Pow2(3) == 8;
    var q := Rne(Significand(f), Pow2(20));
    RoundsUnique(f, c, (f.exp - 121) * 8 + q, 3, 7);
    if f.exp == 135 { assert Significand(f) / 0x10_0000 >= 14; }
  }

  // the branch-free code of a finite magnitude up to 448
  lemma InRange(f: Float)
    requires IsFloat(f) && f.exp != 0xff && Bits(f) <= BITS_448
    ensures Encodes(f, false, true, SignBit(f) + if Bits(f) >= BITS_MIN_NORMAL then PatternRound(Bits(f))
      else TimesRint(f))
  {
    assert Pow2(3) == 8;
    hide Rne, Rounds, Encodes, Nearest;
    if Bits(f) >= BITS_MIN_NORMAL {
      PatternIsRne(f);
      NormalRounds(f, 3, 7);
      Found(f, false, true, PatternRound(Bits(f)));
    } else {
      SubnormalRounds(f, 3, 7);
      Found(f, false, true, TimesRint(f));
    }
  }

  // float -> E4M3 saturating, without branches on the value: the same code as the branchy encoder on every bit pattern
  method F2E4M3Sat(f: Float) returns (code: nat)
    requires IsFloat(f)
    ensures Encodes(f, false, true, code)
  {
    var sign := SignBit(f);
    var nan := Bits(f) > INFINITY_BITS;
    var ax := Float(false, f.exp, f.man);
    ax := if !nan && Bits(f) > BITS_448 then Float(false, 135, 0x60_0000) else ax;
    var a := Bits(ax);
    var normal := PatternRound(a);
    var sub := TimesRint(ax);
    var c := if a >= BITS_MIN_NORMAL then normal else sub;
    code := sign + if nan then 0x7f else c;
    Saturated(f);
  }

  lemma Saturated(f: Float)
    requires IsFloat(f)
    ensures PatternRound(BITS_448) == MaxFinite(false)
    ensures Bits(f) > INFINITY_BITS ==> Encodes(f, false, true, SignBit(f) + 0x7f)
    ensures BITS_448 < Bits(f) <= INFINITY_BITS ==> Encodes(f, false, true, SignBit(f) + MaxFinite(false))
    ensures Bits(f) <= BITS_448 ==>
      Encodes(f, false, true, SignBit(f) + if Bits(f) >= BITS_MIN_NORMAL then PatternRound(Bits(f))
        else TimesRint(Float(false, f.exp, f.man)))
  {
    Pow2Of20();
    hide Rne, Rounds;
    if f.exp != 0xff {
      if Bits(f) <= BITS_448 {
        InRange(f);
      } else {
        NormalRounds(f, 3, 7);
        var c := (TargetExp(f, 7) - 1) * Pow2(3) + Rne(Significand(f), Pow2(20));
        AboveMax(f, c);
        Found(f, false, true, c);
      }
    }
  }

  // so the two encoders agree
  lemma FastFormAgrees(f: Float, slow: nat, fast: nat)
    requires IsFloat(f) && Encodes(f, false, true, slow) && Encodes(f, false, true, fast)
    ensures slow == fast
  {
    EncodesUnique(f, false, true, slow, fast);
  }

  // ---- fp8 -> float

  predicate IsNaNCode(c: nat, e5m2: bool) {
    if e5m2 then c > 0x7c else c == 0x7f
  }

  predicate IsInfCode(c: nat, e5m2: bool) {
    e5m2 && c == 0x7c
  }

  // the float has the code's sign, and its value exactly
  ghost predicate Decodes(v: nat, e5m2: bool, f: Float) {
    var c := v % 0x80;
    && IsFloat(f) && f.negative == (v >= 0x80)
    && (if IsNaNCode(c, e5m2) then f.exp == 0xff && f.man != 0
        else if IsInfCode(c, e5m2) then f.exp == 0xff && f.man == 0
        else f.exp != 0xff && Num(f, Bias(e5m2)) == Magnitude(Ulps(e5m2), c) * Den(f, MBits(e5m2), Bias(e5m2)))
  }

  // the leading bit of a small number
  function TopBit(m: nat): nat {
    if m >= 4 then 2 else if m >= 2 then 1 else 0
  }

  // (float)m * 2^sc for a small m, an exact product
  function ExactProduct(negative: bool, m: nat, sc: int): Float
    requires 0 < m < 8 && -126 <= sc <= 0
  {
    var h := TopBit(m);
    assert Pow2(0) == 1 && Pow2(1) == 2 && Pow2(2) == 4;
    Float(negative, 127 + sc + h, (m - Pow2(h)) * Pow2(23 - h))
  }

  lemma SubnormalDecoded(negative: bool, m: nat, e5m2: bool)
    requires 0 < m < Ulps(e5m2)
    ensures var f := ExactProduct(negative, m, 1 - Bias(e5m2) - MBits(e5m2));
      && IsFloat(f) && f.exp != 0xff && f.negative == negative
      && Num(f, Bias(e5m2)) == Magnitude(Ulps(e5m2), m) * Den(f, MBits(e5m2), Bias(e5m2))
  {
    var h := TopBit(m);
    assert Pow2(0) == 1 && Pow2(1) == 2 && Pow2(2) == 4;
    Pow2Add(h, 23 - h);
    Pow2Of23();
    Distribute(m, Pow2(h), Pow2(23 - h));
  }

  lemma Distribute(m: nat, p: nat, k: nat)
    requires p * k == HIDDEN && p <= m < 2 * p && k > 0
    ensures (m - p) * k + HIDDEN == m * k && (m - p) * k < HIDDEN
  {
    assert (m - p) * k == m * k - p * k;
    MulOrder(m, 2 * p, k);
    assert 2 * p * k == 2 * HIDDEN;
  }

  lemma NormalDecoded(negative: bool, e: nat, m: nat, e5m2: bool)
    requires m < Ulps(e5m2) && 1 <= e <= 31
    ensures var f := Float(negative, e - Bias(e5m2) + 127, m * Pow2(23 - MBits(e5m2)));
      && IsFloat(f) && f.exp != 0xff
      && Num(f, Bias(e5m2)) == Magnitude(Ulps(e5m2), e * Ulps(e5m2) + m) * Den(f, MBits(e5m2), Bias(e5m2))
  {
    var ulps, d := Ulps(e5m2), Pow2(23 - MBits(e5m2));
    SmallDivisors(e5m2);
    Split(MBits(e5m2));
    MagnitudeFields(ulps, e, ulps + m);
    hide Magnitude;
    assert (e - 1) * ulps + (ulps + m) == e * ulps + m;
    assert m * d + HIDDEN == (ulps + m) * d;
    Reassociate(ulps + m, d, Pow2(e - 1));
    MulOrder(m, ulps, d);
  }

  lemma CodeFields(v: nat, e5m2: bool)
    requires v < 0x100
    ensures var e, m := (v % 0x80) / Ulps(e5m2), v % Ulps(e5m2); 0 <= e < 0x20 && v % 0x80 == e * Ulps(e5m2) + m
  {
  }

  // the exact value of the code
  method Fp82F(v: nat, e5m2: bool) returns (f: Float)
    requires v < 0x100
    ensures Decodes(v, e5m2, f)
  {
    hide Num, Den, Magnitude, Pow2;
    var negative := v >= 0x80;
    var mbits, bias := MBits(e5m2), Bias(e5m2);
    var e, m := (v % 0x80) / Ulps(e5m2), v % Ulps(e5m2);
    CodeFields(v, e5m2);
    if e5m2 && e == 0x1f { return Float(negative, 0xff, m * 0x20_0000); }
    if !e5m2 && e == 0xf && m == 7 { return Float(negative, 0xff, 0x40_0000); }
    if e == 0 {
      if m == 0 {
        ZeroDecoded(negative, e5m2);
        return Float(negative, 0, 0);
      }
      SubnormalDecoded(negative, m, e5m2);
      return ExactProduct(negative, m, 1 - Bias(e5m2) - MBits(e5m2));
    }
    NormalDecoded(negative, e, m, e5m2);
    f := Float(negative, e - bias + 127, m * Pow2(23 - mbits));
  }

  lemma ZeroDecoded(negative: bool, e5m2: bool)
    ensures var f := Float(negative, 0, 0);
      Num(f, Bias(e5m2)) == Magnitude(Ulps(e5m2), 0) * Den(f, MBits(e5m2), Bias(e5m2))
  {
  }

  // ---- absolute values

  // the exponent a float's significand is scaled by: the value is Significand * 2^(Scale - 150)
  function Scale(f: Float): nat {
    if f.exp == 0 then 1 else f.exp
  }

  // the magnitude of a float counts units of 2^-9 for E4M3 and of 2^-16 for E5M2
  lemma UnitsAre(f: Float, e5m2: bool)
    requires IsFloat(f)
    ensures Num(f, Bias(e5m2)) * Pow2(if e5m2 then 134 else 141)
      == Significand(f) * Pow2(Scale(f)) * Den(f, MBits(e5m2), Bias(e5m2))
  {
    var sig, k, mbits, bias := Significand(f), if e5m2 then 134 else 141, MBits(e5m2), Bias(e5m2);
    var fe := TargetExp(f, bias);
    hide Pow2, Significand;
    if fe > 0 {
      Pow2Add(fe - 1, k);
      Pow2Add(Scale(f), 23 - mbits);
      Regroup(sig, Pow2(fe - 1), Pow2(k));
      Regroup(sig, Pow2(Scale(f)), Pow2(23 - mbits));
    } else {
      Pow2Add(Scale(f), 23 - mbits + 1 - fe);
      Regroup(sig, Pow2(Scale(f)), Pow2(23 - mbits + 1 - fe));
    }
  }

  lemma Regroup(a: nat, b: nat, c: nat)
    ensures a * b * c == a * (b * c)
  {
  }

  // so every finite code has one value: Magnitude * 2^-9 for E4M3, Magnitude * 2^-16 for E5M2
  lemma DecodesTo(v: nat, e5m2: bool, f: Float)
    requires v < 0x100 && Decodes(v, e5m2, f)
    requires !IsInfCode(v % 0x80, e5m2) && !IsNaNCode(v % 0x80, e5m2)
    ensures Significand(f) * Pow2(Scale(f)) == Magnitude(Ulps(e5m2), v % 0x80) * Pow2(if e5m2 then 134 else 141)
  {
    UnitsAre(f, e5m2);
    var num, den, k := Num(f, Bias(e5m2)), Den(f, MBits(e5m2), Bias(e5m2)), Pow2(if e5m2 then 134 else 141);
    assert num == Magnitude(Ulps(e5m2), v % 0x80) * den;
    hide Num, Den, Magnitude, Pow2, Significand, Scale, Decodes;
    Cancel(Significand(f) * Pow2(Scale(f)), Magnitude(Ulps(e5m2), v % 0x80), k, num, den);
  }

  lemma Cancel(a: nat, m: nat, k: nat, num: nat, den: nat)
    requires den > 0 && num == m * den && num * k == a * den
    ensures a == m * k
  {
    assert (m * k) * den == num * k;
    assert (a - m * k) * den == 0;
  }

  // 0x38 is 1.0 in E4M3, and 0x3c is 1.0 in E5M2
  lemma OneDecodes(e5m2: bool)
    ensures Decodes(if e5m2 then 0x3c else 0x38, e5m2, Float(false, 127, 0))
  {
    var ulps, fe, shift := Ulps(e5m2), if e5m2 then 15 else 7, 23 - MBits(e5m2);
    SmallDivisors(e5m2);
    MagnitudeFields(ulps, fe, ulps);
    Split(MBits(e5m2));
    hide Pow2, Magnitude;
    assert Num(Float(false, 127, 0), Bias(e5m2)) == HIDDEN * Pow2(fe - 1);
    assert HIDDEN * Pow2(fe - 1) == ulps * Pow2(shift) * Pow2(fe - 1) == ulps * Pow2(fe - 1) * Pow2(shift);
  }

  // encoding what a code decodes to gives the code back, or the largest finite one for an infinity that saturates
  lemma NumberReEncodes(v: nat, e5m2: bool, sat: bool, f: Float, code: nat)
    requires v < 0x100 && Decodes(v, e5m2, f) && Encodes(f, e5m2, sat, code) && !IsNaNCode(v % 0x80, e5m2)
    ensures code == if IsInfCode(v % 0x80, e5m2) && sat then SignBit(f) + MaxFinite(e5m2) else v
  {
    var c := v % 0x80;
    if !IsInfCode(c, e5m2) {
      SmallDivisors(e5m2);
      ExactIsNearest(Ulps(e5m2), c, Num(f, Bias(e5m2)), Den(f, MBits(e5m2), Bias(e5m2)));
      Found(f, e5m2, sat, c);
      EncodesUnique(f, e5m2, sat, code, SignBit(f) + c);
    }
  }

  // every code comes back but two NaN codes of E5M2 of each sign, and its infinities under saturation
  lemma ReEncodes(v: nat, e5m2: bool, sat: bool, f: Float, code: nat)
    requires v < 0x100 && Decodes(v, e5m2, f) && Encodes(f, e5m2, sat, code)
    ensures code == v <==> !(e5m2 && (v % 0x80 == 0x7d || v % 0x80 == 0x7e || (v % 0x80 == 0x7c && sat)))
    ensures e5m2 && (v % 0x80 == 0x7d || v % 0x80 == 0x7e) ==> code == v - v % 0x80 + 0x7f
    ensures e5m2 && v % 0x80 == 0x7c && sat ==> code == v - 1
  {
    if !IsNaNCode(v % 0x80, e5m2) { NumberReEncodes(v, e5m2, sat, f, code); }
  }
}
