// The Philox4x32-10 generator of the cuRAND device API: a 128-bit block counter in four words, a block of four outputs
// filled lazily, and skip-ahead. Words are exact: every addition wraps explicitly.
module Philox {
  import opened Powers

  const W32: int := 0x1_0000_0000
  const W64: int := 0x1_0000_0000_0000_0000
  const W128: int := 0x1_0000_0000_0000_0000_0000_0000_0000_0000
  const SEQUENCE: int := 4 * W64       // outputs of one subsequence
  const PERIOD: int := 4 * W128        // outputs of one key

  type u32 = x: int | 0 <= x < 0x1_0000_0000
  type u64 = x: int | 0 <= x < 0x1_0000_0000_0000_0000

  const M0: u32 := 0xD2511F53
  const M1: u32 := 0xCD9E8D57
  const BUMP0: u32 := 0x9E3779B9
  const BUMP1: u32 := 0xBB67AE85

  // what a word keeps of an integer
  function Wrap32(x: int): u32 { x % W32 }
  function Wrap64(x: int): u64 { x % W64 }

  // positions wrap with the period of 2^130 outputs
  ghost function Cycle(p: nat): nat { p % PERIOD }

  // the outputs of n subsequences
  ghost function Subsequences(n: nat): nat { n * SEQUENCE }

  ghost function Next(p: nat): nat { Cycle(p + 1) }

  // a block number from its halves
  ghost function Join(lo: u64, hi: u64): nat { lo + hi * W64 }

  datatype Block = Block(x: u32, y: u32, z: u32, w: u32)
  datatype Key = Key(x: u32, y: u32)

  // ---- exclusive or on words

  function XorBits(a: nat, b: nat, n: nat): (r: nat) {
    if n == 0 then 0 else (a + b) % 2 + 2 * XorBits(a / 2, b / 2, n - 1)
  }

  lemma {:induction false} XorBound(a: nat, b: nat, n: nat)
    ensures XorBits(a, b, n) < Pow2(n)
  {
    if n > 0 { XorBound(a / 2, b / 2, n - 1); }
  }

  lemma XorBit(a: nat, b: nat, r: nat, x: nat)
    requires x == (a + b) % 2 + 2 * r
    ensures x / 2 == r && (x + b) % 2 == a % 2
  {
  }

  lemma {:induction false} XorCancel(a: nat, b: nat, n: nat)
    requires a < Pow2(n)
    ensures XorBits(XorBits(a, b, n), b, n) == a
  {
    if n > 0 {
      XorCancel(a / 2, b / 2, n - 1);
      XorBit(a, b, XorBits(a / 2, b / 2, n - 1), XorBits(a, b, n));
    }
  }

  lemma Pow32()
    ensures Pow2(32) == W32
  {
    assert Pow2(8) == 256;
    assert Pow2(16) == 65536 by { assert Pow2(12) == 4096; }
    assert Pow2(20) == 0x10_0000;
    assert Pow2(24) == 0x100_0000;
    assert Pow2(28) == 0x1000_0000;
  }

  function Xor(a: u32, b: u32): (r: u32)
  {
    Pow32();
    XorBound(a, b, 32);
    XorBits(a, b, 32)
  }

  lemma XorTwice(a: u32, b: u32)
    ensures Xor(Xor(a, b), b) == a
  {
    Pow32();
    XorCancel(a, b, 32);
  }

  // ---- the block function

  function Round(c: Block, k: Key): Block {
    var p0 := M0 * c.x;
    var p1 := M1 * c.z;
    Block(Xor(Xor(p1 / W32, c.y), k.x), p1 % W32, Xor(Xor(p0 / W32, c.w), k.y), p0 % W32)
  }

  function NextKey(k: Key): Key { Key((k.x + BUMP0) % W32, (k.y + BUMP1) % W32) }

  // the key of round n
  ghost function KeyAt(k: Key, n: nat): Key {
    Key((k.x + n * 0x9E3779B9) % W32, (k.y + n * 0xBB67AE85) % W32)
  }

  // the counter after n rounds
  ghost function Rounds(c: Block, k: Key, n: nat): Block {
    if n == 0 then c else Round(Rounds(c, k, n - 1), KeyAt(k, n - 1))
  }

  ghost function BlockOf(c: Block, k: Key): Block { Rounds(c, k, 10) }

  lemma BumpAgain(x: u32, b: nat, n: nat)
    ensures ((x + n * b) % W32 + b) % W32 == (x + (n + 1) * b) % W32
  {
    var y := x + n * b;
    assert y == y / W32 * W32 + y % W32;
    assert x + (n + 1) * b == y % W32 + b + W32 * (y / W32);
  }

  lemma KeyNext(k: Key, n: nat)
    ensures NextKey(KeyAt(k, n)) == KeyAt(k, n + 1) && KeyAt(k, 0) == k
  {
    BumpAgain(k.x, BUMP0, n);
    BumpAgain(k.y, BUMP1, n);
  }

  method Philox4x32_10(ctr: Block, key: Key) returns (r: Block)
    ensures r == BlockOf(ctr, key)
  {
    r := ctr;
    var k := key;
    KeyNext(key, 0);
    for round := 0 to 10
      invariant r == Rounds(ctr, key, round) && k == KeyAt(key, round)
    {
      KeyNext(key, round);
      r := Round(r, k);
      k := NextKey(k);
    }
  }

  // a round can be read backwards: the two 64-bit products of the words x and z are found in the result
  lemma RoundProducts(c: Block, k: Key)
    ensures var r := Round(c, k);
      && 0xD2511F53 * c.x == Xor(Xor(r.z, k.y), c.w) * W32 + r.w
      && 0xCD9E8D57 * c.z == Xor(Xor(r.x, k.x), c.y) * W32 + r.y
  {
    XorTwice(Xor(M1 * c.z / W32, c.y), k.x);
    XorTwice(M1 * c.z / W32, c.y);
    XorTwice(Xor(M0 * c.x / W32, c.w), k.y);
    XorTwice(M0 * c.x / W32, c.w);
  }

  // ---- every round is a bijection, so the block function is

  // the inverses of the odd multipliers modulo 2^32: V*M = 1 + Q*2^32
  const V0: u32 := 0x991a7cdb
  const V1: u32 := 0x6d7cae67

  lemma {:induction false} XorBitsComm(a: nat, b: nat, n: nat)
    ensures XorBits(a, b, n) == XorBits(b, a, n)
  {
    if n > 0 { XorBitsComm(a / 2, b / 2, n - 1); }
  }

  lemma XorSwapped(h: u32, y: u32, k: u32)
    ensures Xor(Xor(Xor(Xor(h, y), k), k), h) == y
  {
    XorTwice(Xor(h, y), k);
    XorBitsComm(h, y, 32);
    XorTwice(y, h);
  }

  lemma Reduce(x: u32, t: int)
    ensures (x + W32 * t) % W32 == x
  {
  }

  lemma Unmultiply0(x: u32)
    ensures V0 * (M0 * x % W32) % W32 == x
  {
    var p := M0 * x;
    assert p == p / W32 * W32 + p % W32;
    assert V0 * M0 == 1 + 2110275209 * W32;
    assert V0 * (p % W32) == x + W32 * (2110275209 * x - V0 * (p / W32));
    Reduce(x, 2110275209 * x - V0 * (p / W32));
  }

  lemma Unmultiply1(x: u32)
    ensures V1 * (M1 * x % W32) % W32 == x
  {
    var p := M1 * x;
    assert p == p / W32 * W32 + p % W32;
    assert V1 * M1 == 1 + 1475389199 * W32;
    assert V1 * (p % W32) == x + W32 * (1475389199 * x - V1 * (p / W32));
    Reduce(x, 1475389199 * x - V1 * (p / W32));
  }

  lemma Remultiply0(y: u32)
    ensures M0 * (V0 * y % W32) % W32 == y
  {
    var p := V0 * y;
    assert p == p / W32 * W32 + p % W32;
    assert M0 * (p % W32) == y + W32 * (2110275209 * y - M0 * (p / W32));
    Reduce(y, 2110275209 * y - M0 * (p / W32));
  }

  lemma Remultiply1(y: u32)
    ensures M1 * (V1 * y % W32) % W32 == y
  {
    var p := V1 * y;
    assert p == p / W32 * W32 + p % W32;
    assert M1 * (p % W32) == y + W32 * (1475389199 * y - M1 * (p / W32));
    Reduce(y, 1475389199 * y - M1 * (p / W32));
  }

  ghost function Unround(n: Block, k: Key): Block {
    var x: u32 := V0 * n.w % W32;
    var z: u32 := V1 * n.y % W32;
    Block(x, Xor(Xor(n.x, k.x), M1 * z / W32), z, Xor(Xor(n.z, k.y), M0 * x / W32))
  }

  lemma RoundInverse(c: Block, k: Key)
    ensures Unround(Round(c, k), k) == c
    ensures Round(Unround(c, k), k) == c
  {
    Unmultiply0(c.x);
    Unmultiply1(c.z);
    XorSwapped(M1 * c.z / W32, c.y, k.x);
    XorSwapped(M0 * c.x / W32, c.w, k.y);
    Remultiply0(c.w);
    Remultiply1(c.y);
    var u := Unround(c, k);
    XorRestored(c.x, k.x, M1 * u.z / W32);
    XorRestored(c.z, k.y, M0 * u.x / W32);
  }

  lemma XorRestored(n: u32, k: u32, h: u32)
    ensures Xor(Xor(h, Xor(Xor(n, k), h)), k) == n
  {
    XorBitsComm(h, Xor(Xor(n, k), h), 32);
    XorTwice(Xor(n, k), h);
    XorTwice(n, k);
  }

  ghost function Unrounds(c: Block, k: Key, n: nat): Block
    decreases n
  {
    if n == 0 then c else Unrounds(Unround(c, KeyAt(k, n - 1)), k, n - 1)
  }

  lemma {:induction false} RoundsInverse(c: Block, k: Key, n: nat)
    ensures Unrounds(Rounds(c, k, n), k, n) == c
    ensures Rounds(Unrounds(c, k, n), k, n) == c
    decreases n
  {
    hide Round, Unround, KeyAt;
    if n > 0 {
      RoundsInverse(c, k, n - 1);
      RoundInverse(Rounds(c, k, n - 1), KeyAt(k, n - 1));
      RoundsInverse(Unround(c, KeyAt(k, n - 1)), k, n - 1);
      RoundInverse(c, KeyAt(k, n - 1));
    }
  }

  // for every key the block function is a permutation of the 2^128 counters: no two counters share a block, and every
  // block is some counter's
  lemma BlockBijective(k: Key)
    ensures forall c, d :: BlockOf(c, k) == BlockOf(d, k) ==> c == d
    ensures forall b :: BlockOf(Unrounds(b, k, 10), k) == b
  {
    forall c, d | BlockOf(c, k) == BlockOf(d, k) ensures c == d {
      RoundsInverse(c, k, 10);
      RoundsInverse(d, k, 10);
    }
    forall b: Block ensures BlockOf(Unrounds(b, k, 10), k) == b {
      RoundsInverse(b, k, 10);
    }
  }

  // ---- counters and positions

  function Low(c: Block): u64 { c.x + c.y * W32 }
  function High(c: Block): u64 { c.z + c.w * W32 }
  ghost function Counter(c: Block): nat { Join(Low(c), High(c)) }

  function Words(lo: u64, hi: u64): Block { Block(lo % W32, lo / W32, hi % W32, hi / W32) }

  ghost function BlockAt(v: nat): Block {
    var m := v % W128;
    Words(m % W64, m / W64)
  }

  lemma WordsCounter(lo: u64, hi: u64)
    ensures Low(Words(lo, hi)) == lo && High(Words(lo, hi)) == hi
  {
  }

  lemma JoinParts(lo: u64, hi: u64)
    ensures Join(lo, hi) % W64 == lo && Join(lo, hi) / W64 == hi
    ensures Join(lo, hi) < W128 && Join(lo, hi) % W128 == Join(lo, hi)
  {
    assert hi * W64 <= (W64 - 1) * W64;
  }

  lemma HalfParts(x: u32, y: u32)
    ensures (x + y * W32) % W32 == x && (x + y * W32) / W32 == y
  {
  }

  lemma CounterBlock(c: Block)
    ensures BlockAt(Counter(c)) == c && Counter(c) < W128
  {
    HalfParts(c.x, c.y);
    HalfParts(c.z, c.w);
    assert Words(Low(c), High(c)) == c;
    hide Words, Low, High;
    JoinParts(Low(c), High(c));
    hide Join;
  }

  // `x & 3u`
  function And3(x: u32): (r: u32)
    ensures x < 4 ==> r == x
  {
    x % 4
  }

  function NextIndex(w: nat): u32 { (w + 1) % 4 }

  function Pick(b: Block, word: nat): u32 {
    if word == 0 then b.x else if word == 1 then b.y else if word == 2 then b.z else b.w
  }

  // the i-th output of a key: word i%4 of block i/4, the block number wrapping at 2^128
  ghost function Stream(k: Key, i: nat): u32 { Pick(BlockOf(BlockAt(i / 4), k), i % 4) }

  ghost function Succ(v: nat): nat { (v + 1) % W128 }

  ghost function Before(v: nat): nat { (v + W128 - 1) % W128 }

  // the state fields say position `p` of the key's stream
  ghost function PositionOf(ctr: Block, word: nat): nat {
    if word == 0 then 4 * Counter(ctr) else 4 * Before(Counter(ctr)) + word
  }

  ghost predicate Holds(ctr: Block, output: Block, key: Key, word: nat) {
    word < 4 && (word != 0 ==> output == BlockOf(BlockAt(Before(Counter(ctr))), key))
  }

  lemma PositionBound(ctr: Block, word: nat)
    requires word < 4
    ensures Cycle(PositionOf(ctr, word)) == PositionOf(ctr, word)
  {
    CounterBlock(ctr);
  }

  // the borrow across the 64-bit halves
  lemma StepBack(c: Block)
    ensures Join(Wrap64(Low(c) - 1), Wrap64(High(c) - (if Low(c) == 0 then 1 else 0))) == Before(Counter(c))
  {
    var lo: int, hi: int := Low(c), High(c);
    if lo == 0 {
      if hi == 0 {
        assert Wrap64(hi - 1) == W64 - 1;
      } else {
        assert Wrap64(hi - 1) == hi - 1;
        Reduce128(Counter(c) - 1);
      }
    } else {
      assert Wrap64(hi) == hi;
      assert Wrap64(lo - 1) == lo - 1;
      Reduce128(Counter(c) - 1);
    }
  }

  lemma Reduce128(v: nat)
    requires v < W128
    ensures (v + W128) % W128 == v
  {
  }

  // the carry across the 64-bit halves
  lemma StepForward(lo: u64, hi: u64)
    ensures var nlo := Wrap64(lo as int + 1);
      var next := Words(nlo, if nlo == 0 then Wrap64(hi as int + 1) else hi);
      Before(Counter(next)) == Join(lo, hi) && BlockAt(Join(lo, hi)) == Words(lo, hi)
  {
    var nlo := Wrap64(lo as int + 1);
    var nhi := if nlo == 0 then Wrap64(hi as int + 1) else hi;
    WordsCounter(nlo, nhi);
    JoinParts(lo, hi);
    if nlo != 0 {
      assert nlo == lo + 1 && Join(nlo, nhi) == Join(lo, hi) + 1;
      Reduce128(Join(lo, hi));
    } else if hi as int + 1 < W64 {
      assert lo == W64 - 1 && nhi == hi + 1 && Join(nlo, nhi) == Join(lo, hi) + 1;
      Reduce128(Join(lo, hi));
    } else {
      assert lo == W64 - 1 && hi == W64 - 1 && nhi == 0;
    }
    hide Words;
  }

  lemma BumpedBack(v: nat)
    requires v < W128
    ensures Before((v + 1) % W128) == v
  {
    if v + 1 < W128 { Reduce128(v); }
  }

  // where a position points, and what the next one is
  lemma PositionWord(ctr: Block, word: nat)
    requires word < 4
    ensures PositionOf(ctr, word) % 4 == word
    ensures PositionOf(ctr, word) / 4 == if word == 0 then Counter(ctr) else Before(Counter(ctr))
  {
  }

  lemma BeforeNext(v: nat)
    requires v < W128
    ensures (Before(v) + 1) % W128 == v && Before(v) < W128
  {
    if v > 0 { Reduce128(v - 1); }
  }

  lemma NextWord(ctr: Block, word: nat)
    requires 0 < word < 4
    ensures PositionOf(ctr, (word + 1) % 4) == Cycle(PositionOf(ctr, word) + 1)
  {
    CounterBlock(ctr);
    hide Counter;
    var v := Counter(ctr);
    BeforeNext(v);
    hide Before;
    var b := Before(v);
    if word == 3 {
      QuadMod(b + 1, 0);
      assert 4 * b + 3 + 1 == 4 * (b + 1) + 0;
    } else {
      QuadMod(b, word + 1);
      assert b % W128 == b;
    }
  }

  lemma WrapFour(v: nat)
    requires v < W128
    ensures 4 * v + 1 == Cycle(4 * v + 1) && 4 * ((v + 1) % W128) == Cycle(4 * v + 4)
  {
    if v + 1 < W128 { assert (v + 1) % W128 == v + 1; }
  }

  lemma FirstWord(ctr: Block, next: Block)
    requires Counter(next) == Succ(Counter(ctr))
    ensures Before(Counter(next)) == Counter(ctr)
    ensures PositionOf(next, 1) == Cycle(PositionOf(ctr, 0) + 1)
    ensures PositionOf(next, 0) == Cycle(PositionOf(ctr, 0) + 4)
  {
    CounterBlock(ctr);
    hide Counter;
    BumpedBack(Counter(ctr));
    WrapFour(Counter(ctr));
    hide Before;
  }

  // the block and word that the next sample comes from, with the borrow
  lemma Loaded(c: Block, word: nat)
    requires word < 4
    ensures PositionOf(c, word) == (if word == 0 then 4 * Join(Low(c), High(c))
      else 4 * Join(Wrap64(Low(c) - 1), Wrap64(High(c) - (if Low(c) == 0 then 1 else 0)))) + word
  {
    StepBack(c);
  }

  // the next sample as (block, word)
  method Load(ctr: Block, word: u32) returns (blo: u64, bhi: u64, w: u32)
    requires word < 4
    ensures w == word
    ensures 4 * Join(blo, bhi) + w == PositionOf(ctr, word)
  {
    Loaded(ctr, word);
    hide PositionOf, Low, High, Wrap64, Join;
    w := And3(word);
    blo, bhi := Low(ctr), High(ctr);
    if w != 0 {
      bhi := Wrap64(bhi as int - (if blo == 0 then 1 else 0));
      blo := Wrap64(blo as int - 1);
    }
  }

  lemma CounterWords(c: Block)
    ensures Counter(c) == c.x + W32 * (c.y + W32 * (c.z + W32 * c.w))
  {
  }

  lemma WrapNext(x: u32)
    ensures Wrap32(x as int + 1) == if x as int + 1 == W32 then 0 else x + 1
  {
  }

  method Bump(c: Block) returns (ctr: Block)
    ensures Counter(ctr) == Succ(Counter(c))
  {
    CounterBlock(c);
    WrapNext(c.x);
    WrapNext(c.y);
    WrapNext(c.z);
    WrapNext(c.w);
    hide Wrap32, Counter;
    CounterWords(c);
    ctr := c.(x := Wrap32(c.x as int + 1));
    CounterWords(ctr);
    if ctr.x != 0 { return; }
    ctr := ctr.(y := Wrap32(ctr.y as int + 1));
    CounterWords(ctr);
    if ctr.y != 0 { return; }
    ctr := ctr.(z := Wrap32(ctr.z as int + 1));
    CounterWords(ctr);
    if ctr.z != 0 { return; }
    ctr := ctr.(w := Wrap32(ctr.w as int + 1));
    CounterWords(ctr);
  }

  // the counter one past a block
  method After(blo: u64, bhi: u64) returns (next: Block)
    ensures Before(Counter(next)) == Join(blo, bhi) && BlockAt(Join(blo, bhi)) == Words(blo, bhi)
  {
    StepForward(blo, bhi);
    hide Counter, Before, BlockAt, Words, Wrap64, Join;
    var nlo := Wrap64(blo as int + 1);
    var nhi := bhi;
    if nlo == 0 { nhi := Wrap64(bhi as int + 1); }
    next := Words(nlo, nhi);
  }

  // the addition of n outputs to (block, word), with the carry across the halves
  method Advance(blo: u64, bhi: u64, word: u32, n: u64) returns (nlo: u64, nhi: u64, w: u32)
    requires word < 4
    ensures w < 4 && 4 * Join(nlo, nhi) + w == Cycle(4 * Join(blo, bhi) + word + n)
  {
    SkipArithmetic(blo, bhi, word, n);
    hide Wrap64, Join;
    var blocks := n / 4;
    var sum := word + n % 4;
    blocks := blocks + sum / 4;
    nlo := Wrap64(blo as int + blocks);
    nhi := Wrap64(bhi as int + (if nlo < blo then 1 else 0));
    w := sum % 4;
  }

  // n subsequences are added to the high half alone
  method AdvanceHigh(blo: u64, bhi: u64, word: u32, n: u64) returns (nhi: u64)
    requires word < 4
    ensures 4 * Join(blo, nhi) + word == Cycle(4 * Join(blo, bhi) + word + Subsequences(n))
  {
    SequenceArithmetic(blo, bhi, word, n);
    hide *;
    nhi := Wrap64(bhi as int + n);
  }

  lemma SkipArithmetic(blo: u64, bhi: u64, w: nat, n: u64)
    requires w < 4
    ensures var blocks := n / 4 + (w + n % 4) / 4;
      var nlo := Wrap64(blo as int + blocks);
      4 * Join(nlo, Wrap64(bhi as int + (if nlo < blo then 1 else 0))) + (w + n % 4) % 4
        == Cycle(4 * Join(blo, bhi) + w + n)
  {
    var blocks := n / 4 + (w + n % 4) / 4;
    assert 4 * blocks + (w + n % 4) % 4 == w + n && blocks < W64;
    BlocksAdded(blo, bhi, blocks);
    var total := Join(blo, bhi) + blocks;
    QuadMod(total, (w + n % 4) % 4);
  }

  // adding to the low half and carrying is addition modulo 2^128
  lemma BlocksAdded(blo: u64, bhi: u64, blocks: u64)
    ensures var nlo := Wrap64(blo as int + blocks);
      Join(nlo, Wrap64(bhi as int + (if nlo < blo then 1 else 0))) == (Join(blo, bhi) + blocks) % W128
  {
    var sum := blo as int + blocks;
    var nlo := Wrap64(sum);
    if sum < W64 {
      assert nlo == sum && Wrap64(bhi as int) == bhi;
    } else {
      assert nlo == sum - W64;
      if bhi as int + 1 < W64 { assert Wrap64(bhi as int + 1) == bhi + 1; } else { assert Wrap64(bhi as int + 1) == 0; }
    }
  }

  lemma QuadMod(v: nat, r: nat)
    requires r < 4
    ensures Cycle(4 * v + r) == 4 * (v % W128) + r
  {
    assert v == v / W128 * W128 + v % W128;
    assert 4 * v + r == v / W128 * PERIOD + (4 * (v % W128) + r);
  }

  // ---- the generator state

  // the state values after word `w` at position `p` has been taken from `output`
  ghost predicate Drawn(ctr: Block, output: Block, key: Key, w: nat, p: nat) {
    Holds(ctr, output, key, NextIndex(w)) && Pick(output, w) == Stream(key, p)
      && PositionOf(ctr, NextIndex(w)) == Next(p)
  }

  // drawing the first output of a block, and a later one
  lemma DrawnFirst(ctr: Block, key: Key, ctr': Block)
    requires Counter(ctr') == Succ(Counter(ctr))
    ensures Drawn(ctr', BlockOf(ctr, key), key, 0, PositionOf(ctr, 0))
  {
    PositionWord(ctr, 0);
    CounterBlock(ctr);
    FirstWord(ctr, ctr');
    hide BlockOf, BlockAt, Counter, Before, PositionOf, Cycle;
  }

  lemma DrawnLater(ctr: Block, output: Block, key: Key, word: nat)
    requires Holds(ctr, output, key, word) && word != 0
    ensures Drawn(ctr, output, key, word, PositionOf(ctr, word))
  {
    PositionWord(ctr, word);
    NextWord(ctr, word);
    hide BlockOf, BlockAt, Counter, Before, PositionOf, Cycle;
  }

  lemma Stored(output: Block, key: Key, ctr: Block, blo: u64, bhi: u64, w: u32)
    requires w < 4
    requires w == 0 ==> ctr == Words(blo, bhi)
    requires w != 0 ==> Before(Counter(ctr)) == Join(blo, bhi) && output == BlockOf(BlockAt(Join(blo, bhi)), key)
    ensures Holds(ctr, output, key, w) && PositionOf(ctr, w) == 4 * Join(blo, bhi) + w
  {
    WordsCounter(blo, bhi);
  }

  class State {
    var ctr: Block          // next block when word == 0, one past the current block otherwise
    var output: Block       // the current block, valid when word != 0
    var key: Key
    var word: u32           // index of the next output in the current block
    var boxFlag: bool       // boxExtra holds the second normal of a pair
    var boxExtra: real

    constructor Init(seed: u64, subsequence: u64, offset: u64)
      ensures Valid() && key == Key(seed % W32, seed / W32) && !boxFlag
      ensures Position() == Cycle(Subsequences(subsequence) + offset)
    {
      key := Key(seed % W32, seed / W32);
      ctr := Block(0, 0, 0, 0);
      output := Block(0, 0, 0, 0);
      word := 0;
      boxFlag := false;
      boxExtra := 0.0;
      new;
      assert Valid() && Position() == 0;
      WrapTwice(Subsequences(subsequence), offset);
      hide *;
      SkipaheadSequence(subsequence);
      Skipahead(offset);
    }

    ghost predicate Valid()
      reads this
    {
      Holds(ctr, output, key, word)
    }

    // the number of outputs drawn so far, modulo the period of 2^130
    ghost function Position(): nat
      reads this
    {
      PositionOf(ctr, word)
    }

    method Store(blo: u64, bhi: u64, w: u32)
      requires w < 4
      modifies this`ctr, this`output, this`word, this`boxFlag
      ensures Valid() && !boxFlag && Position() == 4 * Join(blo, bhi) + w
    {
      hide Holds, PositionOf, BlockOf, BlockAt, Words, Before, Counter, Join;
      boxFlag := false;
      if w == 0 {
        ctr := Words(blo, bhi);
        word := 0;
      } else {
        output := Philox4x32_10(Words(blo, bhi), key);
        ctr := After(blo, bhi);
        word := w;
      }
      Stored(output, key, ctr, blo, bhi, w);
    }

    method Skipahead(n: u64)
      requires Valid()
      modifies this`ctr, this`output, this`word, this`boxFlag
      ensures Valid() && Position() == Cycle(old(Position()) + n)
      ensures n == 0 ==> unchanged(this)
      ensures n != 0 ==> !boxFlag
    {
      assert word < 4;
      PositionBound(ctr, word);
      hide Holds, PositionOf, Join, Cycle;
      if n == 0 { return; }
      var blo, bhi, w := Load(ctr, word);
      blo, bhi, w := Advance(blo, bhi, w, n);
      Store(blo, bhi, w);
    }

    // one subsequence is 2^64 blocks
    method SkipaheadSequence(n: u64)
      requires Valid()
      modifies this`ctr, this`output, this`word, this`boxFlag
      ensures Valid() && Position() == Cycle(old(Position()) + Subsequences(n))
      ensures n == 0 ==> unchanged(this)
      ensures n != 0 ==> !boxFlag
    {
      assert word < 4;
      PositionBound(ctr, word);
      assert Subsequences(0) == 0;
      hide Holds, PositionOf, Join, Cycle, Subsequences;
      if n == 0 { return; }
      var blo, bhi, w := Load(ctr, word);
      bhi := AdvanceHigh(blo, bhi, w, n);
      Store(blo, bhi, w);
    }

    // computes the block the counter points at and moves the counter past it
    method Refill()
      requires word == 0
      modifies this`ctr, this`output
      ensures Drawn(ctr, output, key, 0, old(Position()))
      ensures output == BlockOf(old(ctr), key) && PositionOf(ctr, 0) == Cycle(old(Position()) + 4)
    {
      hide Holds, PositionOf, Stream, BlockOf, Counter, Cycle, Pick, Succ;
      ghost var c := ctr;
      output := Philox4x32_10(ctr, key);
      ctr := Bump(ctr);
      DrawnFirst(c, key, ctr);
      FirstWord(c, ctr);
    }

    method Curand() returns (r: u32)
      requires Valid()
      modifies this`ctr, this`output, this`word
      ensures Valid() && r == Stream(key, old(Position()))
      ensures Position() == Next(old(Position()))
    {
      assert word < 4;
      hide Holds, PositionOf, Stream, Next, Pick, BlockOf, NextIndex, And3;
      var w := And3(word);
      if w == 0 { Refill(); } else { DrawnLater(ctr, output, key, w); }
      r := Pick(output, w);
      word := NextIndex(w);
    }

    // four outputs; a fresh block is returned whole and never stored
    method Curand4() returns (r: Block)
      requires Valid()
      modifies this`ctr, this`output, this`word
      ensures Valid() && Position() == Cycle(old(Position()) + 4)
      ensures r == Four(key, old(Position()))
    {
      assert word < 4;
      hide Position, Four, Cycle, And3, Holds;
      if And3(word) == 0 { r := FourFresh(); } else { r := FourStored(); }
    }

    method FourStored() returns (r: Block)
      requires Valid()
      modifies this`ctr, this`output, this`word
      ensures Valid() && Position() == Cycle(old(Position()) + 4)
      ensures r == Four(key, old(Position()))
    {
      FourSteps(Position());
      hide Stream, Position, Valid, Next, Cycle;
      var x := Curand();
      var y := Curand();
      var z := Curand();
      var w := Curand();
      r := Block(x, y, z, w);
    }

    method FourFresh() returns (r: Block)
      requires word == 0
      modifies this`ctr
      ensures Valid() && Position() == Cycle(old(Position()) + 4)
      ensures r == Four(key, old(Position()))
    {
      BlockStream(ctr, key);
      ghost var c := ctr;
      hide Four, PositionOf, BlockOf, Counter, Cycle, Succ;
      r := Philox4x32_10(ctr, key);
      ctr := Bump(ctr);
      FirstWord(c, ctr);
    }
  }

  // four consecutive outputs of the key's stream
  ghost function Four(k: Key, p: nat): Block {
    Block(Stream(k, p), Stream(k, Next(p)), Stream(k, Next(Next(p))), Stream(k, Next(Next(Next(p)))))
  }

  lemma StreamWord(c: Block, k: Key, i: nat)
    requires i < 4
    ensures Stream(k, Cycle(PositionOf(c, 0) + i)) == Pick(BlockOf(c, k), i)
  {
    CounterBlock(c);
    hide BlockAt, BlockOf, Counter, Cycle;
    QuadParts(Counter(c), i);
  }

  lemma QuadParts(v: nat, i: nat)
    requires v < W128 && i < 4
    ensures Cycle(4 * v + i) == 4 * v + i && (4 * v + i) / 4 == v && (4 * v + i) % 4 == i
  {
    QuadMod(v, i);
    assert v % W128 == v;
  }

  lemma BlockStream(c: Block, k: Key)
    ensures BlockOf(c, k) == Four(k, PositionOf(c, 0))
  {
    hide *;
    PositionBound(c, 0);
    StreamWord(c, k, 0);
    StreamWord(c, k, 1);
    StreamWord(c, k, 2);
    StreamWord(c, k, 3);
    FourSteps(PositionOf(c, 0));
    OneStep(PositionOf(c, 0));
    FourIs(BlockOf(c, k), k, PositionOf(c, 0));
  }

  lemma OneStep(p: nat)
    ensures Next(p) == Cycle(p + 1) && Cycle(p + 0) == Cycle(p)
  {
  }

  lemma FourIs(b: Block, k: Key, p: nat)
    requires Stream(k, p) == Pick(b, 0) && Stream(k, Next(p)) == Pick(b, 1)
    requires Stream(k, Next(Next(p))) == Pick(b, 2) && Stream(k, Next(Next(Next(p)))) == Pick(b, 3)
    ensures b == Four(k, p)
  {
    hide Stream, Next;
  }

  lemma FourSteps(p: nat)
    ensures Next(Next(p)) == Cycle(p + 2) && Next(Next(Next(p))) == Cycle(p + 3)
    ensures Next(Next(Next(Next(p)))) == Cycle(p + 4)
  {
    WrapTwice(p + 1, 1);
    WrapTwice(p + 2, 1);
    WrapTwice(p + 3, 1);
  }

  lemma SequenceArithmetic(blo: u64, bhi: u64, w: nat, n: u64)
    requires w < 4
    ensures 4 * Join(blo, Wrap64(bhi as int + n)) + w == Cycle(4 * Join(blo, bhi) + w + Subsequences(n))
  {
    var sum := bhi as int + n;
    assert sum == sum / W64 * W64 + sum % W64;
    assert Join(blo, bhi) + n * W64 == sum / W64 * W128 + Join(blo, Wrap64(sum));
    assert (Join(blo, bhi) + n * W64) % W128 == Join(blo, Wrap64(sum));
    QuadMod(Join(blo, bhi) + n * W64, w);
  }

  lemma WrapTwice(a: nat, b: nat)
    ensures Cycle(Cycle(a) + b) == Cycle(a + b)
  {
    assert a == a / PERIOD * PERIOD + a % PERIOD;
  }

  // ---- whole programs over the generator

  datatype Op = One | Quad | Skip(n: u64) | SkipSequence(n: u64)

  // what one call at position p prints, and the position it leaves
  ghost function Emits(k: Key, p: nat, op: Op): seq<u32> {
    match op
    case One => [Stream(k, p)]
    case Quad => var b := Four(k, p); [b.x, b.y, b.z, b.w]
    case Skip(_) => []
    case SkipSequence(_) => []
  }

  ghost function Moves(p: nat, op: Op): nat {
    match op
    case One => Next(p)
    case Quad => Cycle(p + 4)
    case Skip(n) => Cycle(p + n)
    case SkipSequence(n) => Cycle(p + Subsequences(n))
  }

  // what a program of calls on a generator at position p prints
  ghost function Printed(k: Key, p: nat, ops: seq<Op>): seq<u32>
    decreases |ops|
  {
    if ops == [] then [] else Emits(k, p, ops[0]) + Printed(k, Moves(p, ops[0]), ops[1..])
  }

  method Step(s: State, op: Op) returns (out: seq<u32>)
    requires s.Valid()
    modifies s
    ensures s.Valid() && s.key == old(s.key)
    ensures out == Emits(s.key, old(s.Position()), op) && s.Position() == Moves(old(s.Position()), op)
  {
    hide Stream, Four, Next, Cycle, Holds, PositionOf, Subsequences;
    match op
    case One =>
      var r := s.Curand();
      out := [r];
    case Quad =>
      var b := s.Curand4();
      out := [b.x, b.y, b.z, b.w];
    case Skip(n) =>
      s.Skipahead(n);
      out := [];
    case SkipSequence(n) =>
      s.SkipaheadSequence(n);
      out := [];
  }

  // every program on a valid state prints what its key and position alone determine
  method Run(s: State, ops: seq<Op>) returns (out: seq<u32>)
    requires s.Valid()
    modifies s
    ensures s.Valid() && s.key == old(s.key)
    ensures out == Printed(s.key, old(s.Position()), ops)
  {
    out := [];
    ghost var k, whole := s.key, Printed(s.key, s.Position(), ops);
    assert ops[0..] == ops;
    for i := 0 to |ops|
      invariant s.Valid() && s.key == k
      invariant whole == out + Printed(k, s.Position(), ops[i..])
    {
      hide Emits, Moves, State.Valid, State.Position;
      assert ops[i..][0] == ops[i] && ops[i..][1..] == ops[i + 1..];
      var more := Step(s, ops[i]);
      out := out + more;
    }
  }

  ghost function Ones(n: nat): seq<Op> { seq(n, i => One) }

  // skipping n outputs is drawing n outputs and dropping them: the programs that follow print the same
  lemma SkipIsDrawing(k: Key, p: nat, n: u64, ops: seq<Op>)
    requires Cycle(p) == p
    ensures |Printed(k, p, Ones(n) + ops)| >= n
    ensures Printed(k, p, [Skip(n)] + ops) == Printed(k, p, Ones(n) + ops)[n..]
  {
    DrawMany(k, p, n, ops);
    SkipFirst(k, p, n, ops);
    hide Printed, Cycle, Ones;
  }

  lemma SkipFirst(k: Key, p: nat, n: u64, ops: seq<Op>)
    ensures Printed(k, p, [Skip(n)] + ops) == Printed(k, Cycle(p + n), ops)
  {
    PrintedCons(k, p, Skip(n), ops);
  }

  lemma ShiftCycle(p: nat, n: nat)
    requires n > 0
    ensures Cycle(Next(p)) == Next(p) && Cycle(Next(p) + (n - 1)) == Cycle(p + n)
  {
    WrapTwice(p + 1, n - 1);
    WrapTwice(p + 1, 0);
  }

  // after n draws the program goes on from n positions later
  ghost predicate Drops(k: Key, p: nat, n: nat, ops: seq<Op>) {
    && |Printed(k, p, Ones(n) + ops)| >= n
    && Printed(k, p, Ones(n) + ops)[n..] == Printed(k, Cycle(p + n), ops)
  }

  lemma DropNone(k: Key, p: nat, ops: seq<Op>)
    requires Cycle(p) == p
    ensures Drops(k, p, 0, ops)
  {
    assert Ones(0) + ops == ops;
    hide Printed, Cycle;
  }

  lemma DropOne(k: Key, p: nat, n: nat, ops: seq<Op>)
    requires n > 0 && Drops(k, Next(p), n - 1, ops)
    ensures Drops(k, p, n, ops)
  {
    ShiftCycle(p, n);
    OnesCons(k, p, n - 1, ops);
    var rest, whole := Printed(k, Next(p), Ones(n - 1) + ops), Printed(k, p, Ones(n) + ops);
    hide Printed, Cycle, Next, Ones, Stream;
    DropCons(Stream(k, p), rest, n, whole);
  }

  lemma {:induction false} DrawMany(k: Key, p: nat, n: nat, ops: seq<Op>)
    requires Cycle(p) == p
    ensures Drops(k, p, n, ops)
    decreases n
  {
    hide *;
    if n == 0 {
      DropNone(k, p, ops);
    } else {
      ShiftCycle(p, n);
      DrawMany(k, Next(p), n - 1, ops);
      DropOne(k, p, n, ops);
    }
  }

  // skips compose additively
  lemma SkipsAdd(k: Key, p: nat, a: u64, b: u64, ops: seq<Op>)
    requires a + b < W64
    ensures Printed(k, p, [Skip(a), Skip(b)] + ops) == Printed(k, p, [Skip(a + b)] + ops)
  {
    WrapTwice(p + a, b);
    assert ([Skip(a), Skip(b)] + ops)[1..] == [Skip(b)] + ops;
    assert ([Skip(b)] + ops)[1..] == ops && ([Skip(a + b)] + ops)[1..] == ops;
  }

  // Quad is four Ones
  lemma QuadIsFourOnes(k: Key, p: nat, ops: seq<Op>)
    ensures Printed(k, p, [Quad] + ops) == Printed(k, p, Ones(4) + ops)
  {
    FourSteps(p);
    PrintedCons(k, p, Quad, ops);
    var b := Four(k, p);
    assert Emits(k, p, Quad) == [b.x, b.y, b.z, b.w] && Moves(p, Quad) == Cycle(p + 4);
    assert b.x == Stream(k, p) && b.y == Stream(k, Next(p)) && b.z == Stream(k, Next(Next(p)));
    assert b.w == Stream(k, Next(Next(Next(p))));
    assert Ones(0) + ops == ops;
    hide *;
    OnesCons(k, p, 3, ops);
    OnesCons(k, Next(p), 2, ops);
    OnesCons(k, Next(Next(p)), 1, ops);
    OnesCons(k, Next(Next(Next(p))), 0, ops);
    FourCons(b.x, b.y, b.z, b.w, Printed(k, Cycle(p + 4), ops));
  }

  lemma FourCons<T>(a: T, b: T, c: T, d: T, rest: seq<T>)
    ensures [a, b, c, d] + rest == [a] + ([b] + ([c] + ([d] + rest)))
  {
  }

  lemma DropCons<T>(x: T, rest: seq<T>, n: nat, whole: seq<T>)
    requires 0 < n <= |rest| + 1 && whole == [x] + rest
    ensures |whole| >= n && whole[n..] == rest[n - 1..]
  {
  }

  lemma PrintedCons(k: Key, p: nat, op: Op, ops: seq<Op>)
    ensures Printed(k, p, [op] + ops) == Emits(k, p, op) + Printed(k, Moves(p, op), ops)
  {
    assert ([op] + ops)[1..] == ops;
  }

  lemma OnesCons(k: Key, p: nat, n: nat, ops: seq<Op>)
    ensures Printed(k, p, Ones(n + 1) + ops) == [Stream(k, p)] + Printed(k, Next(p), Ones(n) + ops)
  {
    assert Ones(n + 1) + ops == [One] + (Ones(n) + ops);
    PrintedCons(k, p, One, Ones(n) + ops);
  }

  // two valid states of one key at one position agree on everything a draw uses
  lemma PositionDecides(c: Block, o: Block, w: nat, c': Block, o': Block, w': nat, k: Key)
    requires Holds(c, o, k, w) && Holds(c', o', k, w') && PositionOf(c, w) == PositionOf(c', w')
    ensures w == w' && c == c' && (w != 0 ==> o == o')
  {
    PositionWord(c, w);
    PositionWord(c', w');
    CounterBlock(c);
    CounterBlock(c');
    BeforeNext(Counter(c));
    BeforeNext(Counter(c'));
  }
}
