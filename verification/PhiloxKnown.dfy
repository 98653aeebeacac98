// A known answer of the generator: the block of counter 0 under key 0.
module PhiloxKnown {
  import opened Powers
  import opened Philox

  // ---- exclusive or, four bits at a time

  predicate Digit(x: nat) {
    x < 16
  }

  predicate Bit3(x: nat) {
    x >= 8
  }

  predicate Bit2(x: nat) {
    4 <= x < 8 || x >= 12
  }

  predicate Bit1(x: nat) {
    x == 2 || x == 3 || x == 6 || x == 7 || x == 10 || x == 11 || x >= 14
  }

  predicate Bit0(x: nat) {
    x == 1 || x == 3 || x == 5 || x == 7 || x == 9 || x == 11 || x == 13 || x == 15
  }

  function One(b: bool): nat {
    if b then 1 else 0
  }

  function Nibble(b3: bool, b2: bool, b1: bool, b0: bool): nat {
    One(b0) + 2 * (One(b1) + 2 * (One(b2) + 2 * One(b3)))
  }

  function XorDigit(x: nat, y: nat): nat {
    (if (x >= 8) != (y >= 8) then 8 else 0)
      + (if (4 <= x < 8 || x >= 12) != (4 <= y < 8 || y >= 12) then 4 else 0)
      + (if (x == 2 || x == 3 || x == 6 || x == 7 || x == 10 || x == 11 || x >= 14)
            != (y == 2 || y == 3 || y == 6 || y == 7 || y == 10 || y == 11 || y >= 14) then 2 else 0)
      + (if (x == 1 || x == 3 || x == 5 || x == 7 || x == 9 || x == 11 || x == 13 || x == 15)
            != (y == 1 || y == 3 || y == 5 || y == 7 || y == 9 || y == 11 || y == 13 || y == 15) then 1 else 0)
  }

  lemma DigitOfBits(x: nat, y: nat)
    ensures XorDigit(x, y) == Nibble(Bit3(x) != Bit3(y), Bit2(x) != Bit2(y), Bit1(x) != Bit1(y), Bit0(x) != Bit0(y))
  {
  }

  lemma OneBit(b: bool, c: bool, x: nat, y: nat, n: nat)
    ensures XorBits(One(b) + 2 * x, One(c) + 2 * y, n + 1) == One(b != c) + 2 * XorBits(x, y, n)
  {
    assert (One(b) + 2 * x) / 2 == x && (One(c) + 2 * y) / 2 == y;
    assert (One(b) + 2 * x + (One(c) + 2 * y)) % 2 == One(b != c);
  }

  lemma DigitBits(x: nat)
    requires Digit(x)
    ensures x == Nibble(Bit3(x), Bit2(x), Bit1(x), Bit0(x))
  {
  }

  lemma FourBits(b3: bool, b2: bool, b1: bool, b0: bool, c3: bool, c2: bool, c1: bool, c0: bool, r: nat, s: nat, n: nat)
    ensures XorBits(Nibble(b3, b2, b1, b0) + 16 * r, Nibble(c3, c2, c1, c0) + 16 * s, n + 4)
      == Nibble(b3 != c3, b2 != c2, b1 != c1, b0 != c0) + 16 * XorBits(r, s, n)
  {
    hide XorBits, One;
    var x3, y3 := One(b3) + 2 * r, One(c3) + 2 * s;
    var x2, y2 := One(b2) + 2 * x3, One(c2) + 2 * y3;
    var x1, y1 := One(b1) + 2 * x2, One(c1) + 2 * y2;
    OneBit(b0, c0, x1, y1, n + 3);
    OneBit(b1, c1, x2, y2, n + 2);
    OneBit(b2, c2, x3, y3, n + 1);
    OneBit(b3, c3, r, s, n);
    assert Nibble(b3, b2, b1, b0) + 16 * r == One(b0) + 2 * x1;
    assert Nibble(c3, c2, c1, c0) + 16 * s == One(c0) + 2 * y1;
  }

  lemma OneDigit(x: nat, y: nat, r: nat, s: nat, n: nat)
    requires Digit(x) && Digit(y)
    ensures XorBits(x + 16 * r, y + 16 * s, n + 4) == XorDigit(x, y) + 16 * XorBits(r, s, n)
  {
    hide *;
    DigitBits(x);
    DigitBits(y);
    DigitOfBits(x, y);
    FourBits(Bit3(x), Bit2(x), Bit1(x), Bit0(x), Bit3(y), Bit2(y), Bit1(y), Bit0(y), r, s, n);
  }

  lemma XorIs(a: u32, b: u32)
    ensures Xor(a, b) == XorBits(a, b, 32)
  {
  }

  function Of(d7: nat, d6: nat, d5: nat, d4: nat, d3: nat, d2: nat, d1: nat, d0: nat): nat {
    d0 + 16 * (d1 + 16 * (d2 + 16 * (d3 + 16 * (d4 + 16 * (d5 + 16 * (d6 + 16 * d7))))))
  }

  predicate Digits(d7: nat, d6: nat, d5: nat, d4: nat, d3: nat, d2: nat, d1: nat, d0: nat) {
    Digit(d7) && Digit(d6) && Digit(d5) && Digit(d4) && Digit(d3) && Digit(d2) && Digit(d1) && Digit(d0)
  }

  function Quad(d3: nat, d2: nat, d1: nat, d0: nat): nat {
    d0 + 16 * d1 + 256 * d2 + 4096 * d3
  }

  lemma FourDigits(a3: nat, a2: nat, a1: nat, a0: nat, b3: nat, b2: nat, b1: nat, b0: nat, r: nat, s: nat, n: nat)
    requires Digit(a3) && Digit(a2) && Digit(a1) && Digit(a0) && Digit(b3) && Digit(b2) && Digit(b1) && Digit(b0)
    ensures XorBits(Quad(a3, a2, a1, a0) + 65536 * r, Quad(b3, b2, b1, b0) + 65536 * s, n + 16)
      == Quad(XorDigit(a3, b3), XorDigit(a2, b2), XorDigit(a1, b1), XorDigit(a0, b0)) + 65536 * XorBits(r, s, n)
  {
    hide XorBits, XorDigit;
    var p3, q3 := a3 + 16 * r, b3 + 16 * s;
    var p2, q2 := a2 + 16 * p3, b2 + 16 * q3;
    var p1, q1 := a1 + 16 * p2, b1 + 16 * q2;
    OneDigit(a3, b3, r, s, n);
    OneDigit(a2, b2, p3, q3, n + 4);
    OneDigit(a1, b1, p2, q2, n + 8);
    OneDigit(a0, b0, p1, q1, n + 12);
    assert Quad(a3, a2, a1, a0) + 65536 * r == a0 + 16 * p1;
    assert Quad(b3, b2, b1, b0) + 65536 * s == b0 + 16 * q1;
  }

  lemma OfQuads(d7: nat, d6: nat, d5: nat, d4: nat, d3: nat, d2: nat, d1: nat, d0: nat)
    requires Digits(d7, d6, d5, d4, d3, d2, d1, d0)
    ensures Of(d7, d6, d5, d4, d3, d2, d1, d0) == Quad(d3, d2, d1, d0) + 65536 * Quad(d7, d6, d5, d4) < W32
  {
  }

  // words given by their hexadecimal digits
  lemma XorWords(a7: nat, a6: nat, a5: nat, a4: nat, a3: nat, a2: nat, a1: nat, a0: nat,
      b7: nat, b6: nat, b5: nat, b4: nat, b3: nat, b2: nat, b1: nat, b0: nat,
      r7: nat, r6: nat, r5: nat, r4: nat, r3: nat, r2: nat, r1: nat, r0: nat)
    requires Digits(a7, a6, a5, a4, a3, a2, a1, a0) && Digits(b7, b6, b5, b4, b3, b2, b1, b0)
    requires XorDigit(a7, b7) == r7 && XorDigit(a6, b6) == r6 && XorDigit(a5, b5) == r5 && XorDigit(a4, b4) == r4
    requires XorDigit(a3, b3) == r3 && XorDigit(a2, b2) == r2 && XorDigit(a1, b1) == r1 && XorDigit(a0, b0) == r0
    ensures Of(a7, a6, a5, a4, a3, a2, a1, a0) < W32 && Of(b7, b6, b5, b4, b3, b2, b1, b0) < W32
    ensures Xor(Of(a7, a6, a5, a4, a3, a2, a1, a0), Of(b7, b6, b5, b4, b3, b2, b1, b0))
      == Of(r7, r6, r5, r4, r3, r2, r1, r0)
  {
    hide Xor, XorBits, XorDigit, Of, Quad, Digits, Digit;
    DigitsOf(a7, a6, a5, a4, a3, a2, a1, a0);
    DigitsOf(b7, b6, b5, b4, b3, b2, b1, b0);
    XorDigits(a7, a6, a5, a4, a3, a2, a1, a0, b7, b6, b5, b4, b3, b2, b1, b0, r7, r6, r5, r4, r3, r2, r1, r0);
    OfQuads(a7, a6, a5, a4, a3, a2, a1, a0);
    OfQuads(b7, b6, b5, b4, b3, b2, b1, b0);
    OfQuads(r7, r6, r5, r4, r3, r2, r1, r0);
    XorIs(Of(a7, a6, a5, a4, a3, a2, a1, a0), Of(b7, b6, b5, b4, b3, b2, b1, b0));
    XorLow(a3, a2, a1, a0, b3, b2, b1, b0, Quad(a7, a6, a5, a4), Quad(b7, b6, b5, b4));
    XorHigh(a7, a6, a5, a4, b7, b6, b5, b4);
  }

  lemma DigitsOf(d7: nat, d6: nat, d5: nat, d4: nat, d3: nat, d2: nat, d1: nat, d0: nat)
    requires Digits(d7, d6, d5, d4, d3, d2, d1, d0)
    ensures Digit(d7) && Digit(d6) && Digit(d5) && Digit(d4) && Digit(d3) && Digit(d2) && Digit(d1) && Digit(d0)
  {
  }

  lemma XorLow(a3: nat, a2: nat, a1: nat, a0: nat, b3: nat, b2: nat, b1: nat, b0: nat, r: nat, s: nat)
    requires Digit(a3) && Digit(a2) && Digit(a1) && Digit(a0) && Digit(b3) && Digit(b2) && Digit(b1) && Digit(b0)
    ensures XorBits(Quad(a3, a2, a1, a0) + 65536 * r, Quad(b3, b2, b1, b0) + 65536 * s, 32)
      == Quad(XorDigit(a3, b3), XorDigit(a2, b2), XorDigit(a1, b1), XorDigit(a0, b0)) + 65536 * XorBits(r, s, 16)
  {
    hide *;
    FourDigits(a3, a2, a1, a0, b3, b2, b1, b0, r, s, 16);
  }

  lemma XorHigh(a3: nat, a2: nat, a1: nat, a0: nat, b3: nat, b2: nat, b1: nat, b0: nat)
    requires Digit(a3) && Digit(a2) && Digit(a1) && Digit(a0) && Digit(b3) && Digit(b2) && Digit(b1) && Digit(b0)
    ensures XorBits(Quad(a3, a2, a1, a0), Quad(b3, b2, b1, b0), 16)
      == Quad(XorDigit(a3, b3), XorDigit(a2, b2), XorDigit(a1, b1), XorDigit(a0, b0))
  {
    hide *;
    FourDigits(a3, a2, a1, a0, b3, b2, b1, b0, 0, 0, 0);
    NoBits();
  }

  lemma NoBits()
    ensures XorBits(0, 0, 0) == 0
  {
  }

  lemma XorDigits(a7: nat, a6: nat, a5: nat, a4: nat, a3: nat, a2: nat, a1: nat, a0: nat,
      b7: nat, b6: nat, b5: nat, b4: nat, b3: nat, b2: nat, b1: nat, b0: nat,
      r7: nat, r6: nat, r5: nat, r4: nat, r3: nat, r2: nat, r1: nat, r0: nat)
    requires XorDigit(a7, b7) == r7 && XorDigit(a6, b6) == r6 && XorDigit(a5, b5) == r5 && XorDigit(a4, b4) == r4
    requires XorDigit(a3, b3) == r3 && XorDigit(a2, b2) == r2 && XorDigit(a1, b1) == r1 && XorDigit(a0, b0) == r0
    ensures Digits(r7, r6, r5, r4, r3, r2, r1, r0)
  {
    hide XorDigit;
    DigitBound(a7, b7);
    DigitBound(a6, b6);
    DigitBound(a5, b5);
    DigitBound(a4, b4);
    DigitBound(a3, b3);
    DigitBound(a2, b2);
    DigitBound(a1, b1);
    DigitBound(a0, b0);
  }

  lemma DigitBound(x: nat, y: nat)
    ensures Digit(XorDigit(x, y))
  {
  }

  // ---- the ten rounds

  lemma Split(p: nat, hi: nat, lo: u32)
    requires p == hi * W32 + lo
    ensures p / W32 == hi && p % W32 == lo
  {
  }

  // a round from the halves of the two products
  lemma RoundFrom(c: Block, k: Key, hi0: u32, lo0: u32, hi1: u32, lo1: u32)
    requires 0xD2511F53 * c.x == hi0 * W32 + lo0 && 0xCD9E8D57 * c.z == hi1 * W32 + lo1
    ensures Round(c, k) == Block(Xor(Xor(hi1, c.y), k.x), lo1, Xor(Xor(hi0, c.w), k.y), lo0)
  {
    hide Xor;
    Split(0xD2511F53 * c.x, hi0, lo0);
    Split(0xCD9E8D57 * c.z, hi1, lo1);
  }

  lemma KeyFrom(n: nat, q0: nat, k0: u32, q1: nat, k1: u32)
    requires n * 0x9E3779B9 == q0 * W32 + k0 && n * 0xBB67AE85 == q1 * W32 + k1
    ensures KeyAt(Key(0, 0), n) == Key(k0, k1)
  {
    Split(n * 0x9E3779B9, q0, k0);
    Split(n * 0xBB67AE85, q1, k1);
  }

  lemma FirstWord0()
    ensures Xor(Xor(0x00000000, 0x00000000), 0x00000000) == 0x00000000
  {
    hide Xor, XorBits;
    XorWords(0, 0, 0, 0, 0, 0, 0, 0,
      0, 0, 0, 0, 0, 0, 0, 0, 0, 0, 0, 0, 0, 0, 0, 0);
    XorWords(0, 0, 0, 0, 0, 0, 0, 0,
      0, 0, 0, 0, 0, 0, 0, 0, 0, 0, 0, 0, 0, 0, 0, 0);
  }

  lemma ThirdWord0()
    ensures Xor(Xor(0x00000000, 0x00000000), 0x00000000) == 0x00000000
  {
    hide Xor, XorBits;
    XorWords(0, 0, 0, 0, 0, 0, 0, 0,
      0, 0, 0, 0, 0, 0, 0, 0, 0, 0, 0, 0, 0, 0, 0, 0);
    XorWords(0, 0, 0, 0, 0, 0, 0, 0,
      0, 0, 0, 0, 0, 0, 0, 0, 0, 0, 0, 0, 0, 0, 0, 0);
  }

  lemma Round0()
    ensures KeyAt(Key(0, 0), 0) == Key(0x00000000, 0x00000000)
    ensures Round(Block(0x00000000, 0x00000000, 0x00000000, 0x00000000), Key(0x00000000, 0x00000000))
      == Block(0x00000000, 0x00000000, 0x00000000, 0x00000000)
  {
    hide Round, Xor, KeyAt;
    KeyFrom(0, 0, 0x00000000, 0, 0x00000000);
    FirstWord0();
    ThirdWord0();
    RoundFrom(Block(0x00000000, 0x00000000, 0x00000000, 0x00000000), Key(0x00000000, 0x00000000),
      0x00000000, 0x00000000, 0x00000000, 0x00000000);
  }

  lemma FirstWord1()
    ensures Xor(Xor(0x00000000, 0x00000000), 0x9e3779b9) == 0x9e3779b9
  {
    hide Xor, XorBits;
    XorWords(0, 0, 0, 0, 0, 0, 0, 0,
      0, 0, 0, 0, 0, 0, 0, 0, 0, 0, 0, 0, 0, 0, 0, 0);
    XorWords(0, 0, 0, 0, 0, 0, 0, 0,
      9, 0xe, 3, 7, 7, 9, 0xb, 9, 9, 0xe, 3, 7, 7, 9, 0xb, 9);
  }

  lemma ThirdWord1()
    ensures Xor(Xor(0x00000000, 0x00000000), 0xbb67ae85) == 0xbb67ae85
  {
    hide Xor, XorBits;
    XorWords(0, 0, 0, 0, 0, 0, 0, 0,
      0, 0, 0, 0, 0, 0, 0, 0, 0, 0, 0, 0, 0, 0, 0, 0);
    XorWords(0, 0, 0, 0, 0, 0, 0, 0,
      0xb, 0xb, 6, 7, 0xa, 0xe, 8, 5, 0xb, 0xb, 6, 7, 0xa, 0xe, 8, 5);
  }

  lemma Round1()
    ensures KeyAt(Key(0, 0), 1) == Key(0x9e3779b9, 0xbb67ae85)
    ensures Round(Block(0x00000000, 0x00000000, 0x00000000, 0x00000000), Key(0x9e3779b9, 0xbb67ae85))
      == Block(0x9e3779b9, 0x00000000, 0xbb67ae85, 0x00000000)
  {
    hide Round, Xor, KeyAt;
    KeyFrom(1, 0, 0x9e3779b9, 0, 0xbb67ae85);
    FirstWord1();
    ThirdWord1();
    RoundFrom(Block(0x00000000, 0x00000000, 0x00000000, 0x00000000), Key(0x9e3779b9, 0xbb67ae85),
      0x00000000, 0x00000000, 0x00000000, 0x00000000);
  }

  lemma FirstWord2()
    ensures Xor(Xor(0x96861836, 0x00000000), 0x3c6ef372) == 0xaae8eb44
  {
    hide Xor, XorBits;
    XorWords(9, 6, 8, 6, 1, 8, 3, 6,
      0, 0, 0, 0, 0, 0, 0, 0, 9, 6, 8, 6, 1, 8, 3, 6);
    XorWords(9, 6, 8, 6, 1, 8, 3, 6,
      3, 0xc, 6, 0xe, 0xf, 3, 7, 2, 0xa, 0xa, 0xe, 8, 0xe, 0xb, 4, 4);
  }

  lemma ThirdWord2()
    ensures Xor(Xor(0x81fba4c3, 0x00000000), 0x76cf5d0a) == 0xf734f9c9
  {
    hide Xor, XorBits;
    XorWords(8, 1, 0xf, 0xb, 0xa, 4, 0xc, 3,
      0, 0, 0, 0, 0, 0, 0, 0, 8, 1, 0xf, 0xb, 0xa, 4, 0xc, 3);
    XorWords(8, 1, 0xf, 0xb, 0xa, 4, 0xc, 3,
      7, 6, 0xc, 0xf, 5, 0xd, 0, 0xa, 0xf, 7, 3, 4, 0xf, 9, 0xc, 9);
  }

  lemma Round2()
    ensures KeyAt(Key(0, 0), 2) == Key(0x3c6ef372, 0x76cf5d0a)
    ensures Round(Block(0x9e3779b9, 0x00000000, 0xbb67ae85, 0x00000000), Key(0x3c6ef372, 0x76cf5d0a))
      == Block(0xaae8eb44, 0x02719033, 0xf734f9c9, 0x4942ddfb)
  {
    hide Round, Xor, KeyAt;
    KeyFrom(2, 1, 0x3c6ef372, 1, 0x76cf5d0a);
    FirstWord2();
    ThirdWord2();
    RoundFrom(Block(0x9e3779b9, 0x00000000, 0xbb67ae85, 0x00000000), Key(0x3c6ef372, 0x76cf5d0a),
      0x81fba4c3, 0x4942ddfb, 0x96861836, 0x02719033);
  }

  lemma FirstWord3()
    ensures Xor(Xor(0xc68e8734, 0x02719033), 0xdaa66d2b) == 0x1e597a2c
  {
    hide Xor, XorBits;
    XorWords(0xc, 6, 8, 0xe, 8, 7, 3, 4,
      0, 2, 7, 1, 9, 0, 3, 3, 0xc, 4, 0xf, 0xf, 1, 7, 0, 7);
    XorWords(0xc, 4, 0xf, 0xf, 1, 7, 0, 7,
      0xd, 0xa, 0xa, 6, 6, 0xd, 2, 0xb, 1, 0xe, 5, 9, 7, 0xa, 2, 0xc);
  }

  lemma ThirdWord3()
    ensures Xor(Xor(0x8c693999, 0x4942ddfb), 0x32370b8f) == 0xf71cefed
  {
    hide Xor, XorBits;
    XorWords(8, 0xc, 6, 9, 3, 9, 9, 9,
      4, 9, 4, 2, 0xd, 0xd, 0xf, 0xb, 0xc, 5, 2, 0xb, 0xe, 4, 6, 2);
    XorWords(0xc, 5, 2, 0xb, 0xe, 4, 6, 2,
      3, 2, 3, 7, 0, 0xb, 8, 0xf, 0xf, 7, 1, 0xc, 0xe, 0xf, 0xe, 0xd);
  }

  lemma Round3()
    ensures KeyAt(Key(0, 0), 3) == Key(0xdaa66d2b, 0x32370b8f)
    ensures Round(Block(0xaae8eb44, 0x02719033, 0xf734f9c9, 0x4942ddfb), Key(0xdaa66d2b, 0x32370b8f))
      == Block(0x1e597a2c, 0x4fa2984f, 0xf71cefed, 0xd685830c)
  {
    hide Round, Xor, KeyAt;
    KeyFrom(3, 1, 0xdaa66d2b, 2, 0x32370b8f);
    FirstWord3();
    ThirdWord3();
    RoundFrom(Block(0xaae8eb44, 0x02719033, 0xf734f9c9, 0x4942ddfb), Key(0xdaa66d2b, 0x32370b8f),
      0x8c693999, 0xd685830c, 0xc68e8734, 0x4fa2984f);
  }

  lemma FirstWord4()
    ensures Xor(Xor(0xc67b386b, 0x4fa2984f), 0x78dde6e4) == 0xf10446c0
  {
    hide Xor, XorBits;
    XorWords(0xc, 6, 7, 0xb, 3, 8, 6, 0xb,
      4, 0xf, 0xa, 2, 9, 8, 4, 0xf, 8, 9, 0xd, 9, 0xa, 0, 2, 4);
    XorWords(8, 9, 0xd, 9, 0xa, 0, 2, 4,
      7, 8, 0xd, 0xd, 0xe, 6, 0xe, 4, 0xf, 1, 0, 4, 4, 6, 0xc, 0);
  }

  lemma ThirdWord4()
    ensures Xor(Xor(0x18ef043e, 0xd685830c), 0xed9eba14) == 0x23f43d26
  {
    hide Xor, XorBits;
    XorWords(1, 8, 0xe, 0xf, 0, 4, 3, 0xe,
      0xd, 6, 8, 5, 8, 3, 0, 0xc, 0xc, 0xe, 6, 0xa, 8, 7, 3, 2);
    XorWords(0xc, 0xe, 6, 0xa, 8, 7, 3, 2,
      0xe, 0xd, 9, 0xe, 0xb, 0xa, 1, 4, 2, 3, 0xf, 4, 3, 0xd, 2, 6);
  }

  lemma Round4()
    ensures KeyAt(Key(0, 0), 4) == Key(0x78dde6e4, 0xed9eba14)
    ensures Round(Block(0x1e597a2c, 0x4fa2984f, 0xf71cefed, 0xd685830c), Key(0x78dde6e4, 0xed9eba14))
      == Block(0xf10446c0, 0xc841128b, 0x23f43d26, 0x6cb9f044)
  {
    hide Round, Xor, KeyAt;
    KeyFrom(4, 2, 0x78dde6e4, 2, 0xed9eba14);
    FirstWord4();
    ThirdWord4();
    RoundFrom(Block(0x1e597a2c, 0x4fa2984f, 0xf71cefed, 0xd685830c), Key(0x78dde6e4, 0xed9eba14),
      0x18ef043e, 0x6cb9f044, 0xc67b386b, 0xc841128b);
  }

  lemma FirstWord5()
    ensures Xor(Xor(0x1ce0d98e, 0xc841128b), 0x1715609d) == 0xc3b4ab98
  {
    hide Xor, XorBits;
    XorWords(1, 0xc, 0xe, 0, 0xd, 9, 8, 0xe,
      0xc, 8, 4, 1, 1, 2, 8, 0xb, 0xd, 4, 0xa, 1, 0xc, 0xb, 0, 5);
    XorWords(0xd, 4, 0xa, 1, 0xc, 0xb, 0, 5,
      1, 7, 1, 5, 6, 0, 9, 0xd, 0xc, 3, 0xb, 4, 0xa, 0xb, 9, 8);
  }

  lemma ThirdWord5()
    ensures Xor(Xor(0xc601e1e1, 0x6cb9f044), 0xa9066899) == 0x03be793c
  {
    hide Xor, XorBits;
    XorWords(0xc, 6, 0, 1, 0xe, 1, 0xe, 1,
      6, 0xc, 0xb, 9, 0xf, 0, 4, 4, 0xa, 0xa, 0xb, 8, 1, 1, 0xa, 5);
    XorWords(0xa, 0xa, 0xb, 8, 1, 1, 0xa, 5,
      0xa, 9, 0, 6, 6, 8, 9, 9, 0, 3, 0xb, 0xe, 7, 9, 3, 0xc);
  }

  lemma Round5()
    ensures KeyAt(Key(0, 0), 5) == Key(0x1715609d, 0xa9066899)
    ensures Round(Block(0xf10446c0, 0xc841128b, 0x23f43d26, 0x6cb9f044), Key(0x1715609d, 0xa9066899))
      == Block(0xc3b4ab98, 0xe922b5ea, 0x03be793c, 0x8bb43040)
  {
    hide Round, Xor, KeyAt;
    KeyFrom(5, 3, 0x1715609d, 3, 0xa9066899);
    FirstWord5();
    ThirdWord5();
    RoundFrom(Block(0xf10446c0, 0xc841128b, 0x23f43d26, 0x6cb9f044), Key(0x1715609d, 0xa9066899),
      0xc601e1e1, 0x8bb43040, 0x1ce0d98e, 0xe922b5ea);
  }

  lemma FirstWord6()
    ensures Xor(Xor(0x0301d8b5, 0xe922b5ea), 0xb54cda56) == 0x5f6fb709
  {
    hide Xor, XorBits;
    XorWords(0, 3, 0, 1, 0xd, 8, 0xb, 5,
      0xe, 9, 2, 2, 0xb, 5, 0xe, 0xa, 0xe, 0xa, 2, 3, 6, 0xd, 5, 0xf);
    XorWords(0xe, 0xa, 2, 3, 6, 0xd, 5, 0xf,
      0xb, 5, 4, 0xc, 0xd, 0xa, 5, 6, 5, 0xf, 6, 0xf, 0xb, 7, 0, 9);
  }

  lemma ThirdWord6()
    ensures Xor(Xor(0xa0c838df, 0x8bb43040), 0x646e171e) == 0x4f121f81
  {
    hide Xor, XorBits;
    XorWords(0xa, 0, 0xc, 8, 3, 8, 0xd, 0xf,
      8, 0xb, 0xb, 4, 3, 0, 4, 0, 2, 0xb, 7, 0xc, 0, 8, 9, 0xf);
    XorWords(2, 0xb, 7, 0xc, 0, 8, 9, 0xf,
      6, 4, 6, 0xe, 1, 7, 1, 0xe, 4, 0xf, 1, 2, 1, 0xf, 8, 1);
  }

  lemma Round6()
    ensures KeyAt(Key(0, 0), 6) == Key(0xb54cda56, 0x646e171e)
    ensures Round(Block(0xc3b4ab98, 0xe922b5ea, 0x03be793c, 0x8bb43040), Key(0xb54cda56, 0x646e171e))
      == Block(0x5f6fb709, 0x0d893f64, 0x4f121f81, 0x4f730a48)
  {
    hide Round, Xor, KeyAt;
    KeyFrom(6, 3, 0xb54cda56, 4, 0x646e171e);
    FirstWord6();
    ThirdWord6();
    RoundFrom(Block(0xc3b4ab98, 0xe922b5ea, 0x03be793c, 0x8bb43040), Key(0xb54cda56, 0x646e171e),
      0xa0c838df, 0x4f730a48, 0x0301d8b5, 0x0d893f64);
  }

  lemma FirstWord7()
    ensures Xor(Xor(0x3f827c11, 0x0d893f64), 0x5384540f) == 0x618f177a
  {
    hide Xor, XorBits;
    XorWords(3, 0xf, 8, 2, 7, 0xc, 1, 1,
      0, 0xd, 8, 9, 3, 0xf, 6, 4, 3, 2, 0, 0xb, 4, 3, 7, 5);
    XorWords(3, 2, 0, 0xb, 4, 3, 7, 5,
      5, 3, 8, 4, 5, 4, 0, 0xf, 6, 1, 8, 0xf, 1, 7, 7, 0xa);
  }

  lemma ThirdWord7()
    ensures Xor(Xor(0x4e67e22b, 0x4f730a48), 0x1fd5c5a3) == 0x1ec12dc0
  {
    hide Xor, XorBits;
    XorWords(4, 0xe, 6, 7, 0xe, 2, 2, 0xb,
      4, 0xf, 7, 3, 0, 0xa, 4, 8, 0, 1, 1, 4, 0xe, 8, 6, 3);
    XorWords(0, 1, 1, 4, 0xe, 8, 6, 3,
      1, 0xf, 0xd, 5, 0xc, 5, 0xa, 3, 1, 0xe, 0xc, 1, 2, 0xd, 0xc, 0);
  }

  lemma Round7()
    ensures KeyAt(Key(0, 0), 7) == Key(0x5384540f, 0x1fd5c5a3)
    ensures Round(Block(0x5f6fb709, 0x0d893f64, 0x4f121f81, 0x4f730a48), Key(0x5384540f, 0x1fd5c5a3))
      == Block(0x618f177a, 0x9920c1d7, 0x1ec12dc0, 0xc43b6eeb)
  {
    hide Round, Xor, KeyAt;
    KeyFrom(7, 4, 0x5384540f, 5, 0x1fd5c5a3);
    FirstWord7();
    ThirdWord7();
    RoundFrom(Block(0x5f6fb709, 0x0d893f64, 0x4f121f81, 0x4f730a48), Key(0x5384540f, 0x1fd5c5a3),
      0x4e67e22b, 0xc43b6eeb, 0x3f827c11, 0x9920c1d7);
  }

  lemma FirstWord8()
    ensures Xor(Xor(0x18b3bdd7, 0x9920c1d7), 0xf1bbcdc8) == 0x7028b1c8
  {
    hide Xor, XorBits;
    XorWords(1, 8, 0xb, 3, 0xb, 0xd, 0xd, 7,
      9, 9, 2, 0, 0xc, 1, 0xd, 7, 8, 1, 9, 3, 7, 0xc, 0, 0);
    XorWords(8, 1, 9, 3, 7, 0xc, 0, 0,
      0xf, 1, 0xb, 0xb, 0xc, 0xd, 0xc, 8, 7, 0, 2, 8, 0xb, 1, 0xc, 8);
  }

  lemma ThirdWord8()
    ensures Xor(Xor(0x50264b78, 0xc43b6eeb), 0xdb3d7428) == 0x4f2051bb
  {
    hide Xor, XorBits;
    XorWords(5, 0, 2, 6, 4, 0xb, 7, 8,
      0xc, 4, 3, 0xb, 6, 0xe, 0xe, 0xb, 9, 4, 1, 0xd, 2, 5, 9, 3);
    XorWords(9, 4, 1, 0xd, 2, 5, 9, 3,
      0xd, 0xb, 3, 0xd, 7, 4, 2, 8, 4, 0xf, 2, 0, 5, 1, 0xb, 0xb);
  }

  lemma Round8()
    ensures KeyAt(Key(0, 0), 8) == Key(0xf1bbcdc8, 0xdb3d7428)
    ensures Round(Block(0x618f177a, 0x9920c1d7, 0x1ec12dc0, 0xc43b6eeb), Key(0xf1bbcdc8, 0xdb3d7428))
      == Block(0x7028b1c8, 0xd6594c40, 0x4f2051bb, 0x76d6628e)
  {
    hide Round, Xor, KeyAt;
    KeyFrom(8, 4, 0xf1bbcdc8, 5, 0xdb3d7428);
    FirstWord8();
    ThirdWord8();
    RoundFrom(Block(0x618f177a, 0x9920c1d7, 0x1ec12dc0, 0xc43b6eeb), Key(0xf1bbcdc8, 0xdb3d7428),
      0x50264b78, 0x76d6628e, 0x18b3bdd7, 0xd6594c40);
  }

  lemma FirstWord9()
    ensures Xor(Xor(0x3f8de314, 0xd6594c40), 0x8ff34781) == 0x6627e8d5
  {
    hide Xor, XorBits;
    XorWords(3, 0xf, 8, 0xd, 0xe, 3, 1, 4,
      0xd, 6, 5, 9, 4, 0xc, 4, 0, 0xe, 9, 0xd, 4, 0xa, 0xf, 5, 4);
    XorWords(0xe, 9, 0xd, 4, 0xa, 0xf, 5, 4,
      8, 0xf, 0xf, 3, 4, 7, 8, 1, 6, 6, 2, 7, 0xe, 8, 0xd, 5);
  }

  lemma ThirdWord9()
    ensures Xor(Xor(0x5c24ec6f, 0x76d6628e), 0x96a522ad) == 0xbc57ac4c
  {
    hide Xor, XorBits;
    XorWords(5, 0xc, 2, 4, 0xe, 0xc, 6, 0xf,
      7, 6, 0xd, 6, 6, 2, 8, 0xe, 2, 0xa, 0xf, 2, 8, 0xe, 0xe, 1);
    XorWords(2, 0xa, 0xf, 2, 8, 0xe, 0xe, 1,
      9, 6, 0xa, 5, 2, 2, 0xa, 0xd, 0xb, 0xc, 5, 7, 0xa, 0xc, 4, 0xc);
  }

  lemma Round9()
    ensures KeyAt(Key(0, 0), 9) == Key(0x8ff34781, 0x96a522ad)
    ensures Round(Block(0x7028b1c8, 0xd6594c40, 0x4f2051bb, 0x76d6628e), Key(0x8ff34781, 0x96a522ad))
      == Block(0x6627e8d5, 0xe169c58d, 0xbc57ac4c, 0x9b00dbd8)
  {
    hide Round, Xor, KeyAt;
    KeyFrom(9, 5, 0x8ff34781, 6, 0x96a522ad);
    FirstWord9();
    ThirdWord9();
    RoundFrom(Block(0x7028b1c8, 0xd6594c40, 0x4f2051bb, 0x76d6628e), Key(0x8ff34781, 0x96a522ad),
      0x5c24ec6f, 0x9b00dbd8, 0x3f8de314, 0xe169c58d);
  }

  lemma OneMore(c: Block, d: Block, e: Block, k: Key, j: Key, n: nat)
    requires Rounds(c, k, n) == d && KeyAt(k, n) == j && Round(d, j) == e
    ensures Rounds(c, k, n + 1) == e
  {
    hide Round, KeyAt;
  }

  lemma KnownBlock()
    ensures BlockOf(Block(0, 0, 0, 0), Key(0, 0)) == Block(0x6627e8d5, 0xe169c58d, 0xbc57ac4c, 0x9b00dbd8)
  {
    var c, k := Block(0, 0, 0, 0), Key(0, 0);
    assert Rounds(c, k, 0) == c;
    hide Round, Xor, KeyAt, Rounds;
    Round0();
    OneMore(c, Block(0x00000000, 0x00000000, 0x00000000, 0x00000000),
      Block(0x00000000, 0x00000000, 0x00000000, 0x00000000), k, Key(0x00000000, 0x00000000), 0);
    Round1();
    OneMore(c, Block(0x00000000, 0x00000000, 0x00000000, 0x00000000),
      Block(0x9e3779b9, 0x00000000, 0xbb67ae85, 0x00000000), k, Key(0x9e3779b9, 0xbb67ae85), 1);
    Round2();
    OneMore(c, Block(0x9e3779b9, 0x00000000, 0xbb67ae85, 0x00000000),
      Block(0xaae8eb44, 0x02719033, 0xf734f9c9, 0x4942ddfb), k, Key(0x3c6ef372, 0x76cf5d0a), 2);
    Round3();
    OneMore(c, Block(0xaae8eb44, 0x02719033, 0xf734f9c9, 0x4942ddfb),
      Block(0x1e597a2c, 0x4fa2984f, 0xf71cefed, 0xd685830c), k, Key(0xdaa66d2b, 0x32370b8f), 3);
    Round4();
    OneMore(c, Block(0x1e597a2c, 0x4fa2984f, 0xf71cefed, 0xd685830c),
      Block(0xf10446c0, 0xc841128b, 0x23f43d26, 0x6cb9f044), k, Key(0x78dde6e4, 0xed9eba14), 4);
    Round5();
    OneMore(c, Block(0xf10446c0, 0xc841128b, 0x23f43d26, 0x6cb9f044),
      Block(0xc3b4ab98, 0xe922b5ea, 0x03be793c, 0x8bb43040), k, Key(0x1715609d, 0xa9066899), 5);
    Round6();
    OneMore(c, Block(0xc3b4ab98, 0xe922b5ea, 0x03be793c, 0x8bb43040),
      Block(0x5f6fb709, 0x0d893f64, 0x4f121f81, 0x4f730a48), k, Key(0xb54cda56, 0x646e171e), 6);
    Round7();
    OneMore(c, Block(0x5f6fb709, 0x0d893f64, 0x4f121f81, 0x4f730a48),
      Block(0x618f177a, 0x9920c1d7, 0x1ec12dc0, 0xc43b6eeb), k, Key(0x5384540f, 0x1fd5c5a3), 7);
    Round8();
    OneMore(c, Block(0x618f177a, 0x9920c1d7, 0x1ec12dc0, 0xc43b6eeb),
      Block(0x7028b1c8, 0xd6594c40, 0x4f2051bb, 0x76d6628e), k, Key(0xf1bbcdc8, 0xdb3d7428), 8);
    Round9();
    OneMore(c, Block(0x7028b1c8, 0xd6594c40, 0x4f2051bb, 0x76d6628e),
      Block(0x6627e8d5, 0xe169c58d, 0xbc57ac4c, 0x9b00dbd8), k, Key(0x8ff34781, 0x96a522ad), 9);
  }
}
