/** count_crc16: a byte-wise shift/xor formula, the reflected 0x8408 shift register
    that it computes, and the errors that it detects. */
module Crc16 {
  import opened Bits
  import opened Words
  import opened Xor

  type Reg = x: nat | x < 0x1_0000

  const POLYNOMIAL: Reg := 0x8408

  /** One turn of count_crc16's loop: `crc16 ^= *pch`, then the shift formula. */
  function Step(crc: nat, b: nat): nat
  {
    Formula(BitXor(crc, b))
  }

  /** `a = (c ^ (c << 4)) & 0x00FF` and `(c >> 8) ^ (a << 8) ^ (a << 3) ^ (a >> 4)` */
  function Formula(c: nat): nat
  {
    var a := BitAnd(BitXor(c, c * 16), 0xFF);
    BitXor(BitXor(BitXor(ShiftRight(c, 8), a * 256), a * 8), ShiftRight(a, 4))
  }

  function Crc(crc: nat, m: seq<Byte>): nat
  {
    if m == [] then crc else Step(Crc(crc, m[..|m| - 1]), m[|m| - 1])
  }

  lemma FormulaFits(c: Reg)
    ensures Formula(c) < 0x1_0000
  {
    var a := BitAnd(BitXor(c, c * 16), 0xFF);
    Sizes();
    MaskIsMod(BitXor(c, c * 16), 8);
    assert a < 256;
    ShiftIsDiv(c, 8);
    ShiftIsDiv(a, 4);
    OperatorBounds(ShiftRight(c, 8), a * 256, 16);
    OperatorBounds(BitXor(ShiftRight(c, 8), a * 256), a * 8, 16);
    assert Pow2(4) == 16;
    OperatorBounds(BitXor(BitXor(ShiftRight(c, 8), a * 256), a * 8), ShiftRight(a, 4), 16);
  }

  /** The register stays a 16-bit word, so the casts in the loop lose nothing. */
  lemma StepFits(crc: Reg, b: Byte)
    ensures BitXor(crc, b) < 0x1_0000 && Step(crc, b) < 0x1_0000
  {
    Sizes();
    OperatorBounds(crc, b, 16);
    FormulaFits(BitXor(crc, b));
  }

  /** count_crc16 */
  method CountCrc16(mem: seq<Byte>) returns (crc16: Reg)
    ensures crc16 == Crc(0, mem)
  {
    crc16 := 0;
    var k := 0;
    while k < |mem|
      invariant k <= |mem| && crc16 == Crc(0, mem[..k])
    {
      hide BitXor, BitAnd, ShiftRight;
      assert mem[..k + 1][..k] == mem[..k];
      StepFits(crc16, mem[k]);
      crc16 := BitXor(crc16, mem[k]);
      var a := BitAnd(BitXor(crc16, crc16 * 16), 0xFF);
      crc16 := BitXor(BitXor(BitXor(ShiftRight(crc16, 8), a * 256), a * 8), ShiftRight(a, 4));
      k := k + 1;
    }
    assert mem[..k] == mem;
  }

  // ----- the shift register

  /** One message bit through the reflected shift register. */
  function RegStep(c: nat, bit: nat): nat
  {
    if c % 2 == bit % 2 then c / 2 else BitXor(c / 2, POLYNOMIAL)
  }

  /** n bits of b, least significant first. */
  function RegBits(c: nat, b: nat, n: nat): nat
    decreases n
  {
    if n == 0 then c else RegBits(RegStep(c, b % 2), b / 2, n - 1)
  }

  /** n zero bits. */
  function Shifts(c: nat, n: nat): nat
  {
    RegBits(c, 0, n)
  }

  lemma XorSwap(p: nat, q: nat, r: nat)
    ensures BitXor(BitXor(p, q), r) == BitXor(BitXor(p, r), q)
  {
    hide BitXor;
    XorAssociates(p, q, r);
    XorCommutes(q, r);
    XorAssociates(p, r, q);
  }

  /** Feeding a bit is shifting the register with the bit xored in. */
  lemma FeedBit(c: nat, b: nat)
    ensures RegStep(BitXor(c, b), 0) == BitXor(RegStep(c, b % 2), b / 2)
  {
    hide BitXor;
    XorHalves(c, b);
    XorSwap(c / 2, b / 2, POLYNOMIAL);
    assert (b % 2) % 2 == b % 2;
  }

  lemma {:induction false} FeedBits(c: nat, b: nat, n: nat)
    requires b < Pow2(n)
    ensures Shifts(BitXor(c, b), n) == RegBits(c, b, n)
    decreases n
  {
    hide BitXor, RegStep;
    if n == 0 {
      XorWithZero(c);
    } else {
      FeedBit(c, b);
      FeedBits(RegStep(c, b % 2), b / 2, n - 1);
    }
  }

  lemma RegStepLinear(c: nat, d: nat)
    ensures RegStep(BitXor(c, d), 0) == BitXor(RegStep(c, 0), RegStep(d, 0))
  {
    hide BitXor;
    var p, q := c / 2, d / 2;
    XorHalves(c, d);
    if c % 2 == 1 && d % 2 == 1 {
      Interchange(p, POLYNOMIAL, q, POLYNOMIAL);
      XorSelf(POLYNOMIAL);
      XorWithZero(BitXor(p, q));
    } else if c % 2 == 1 {
      XorAssociates(p, POLYNOMIAL, q);
      XorCommutes(POLYNOMIAL, q);
      XorAssociates(p, q, POLYNOMIAL);
    } else if d % 2 == 1 {
      XorAssociates(p, q, POLYNOMIAL);
    }
  }

  lemma {:induction false} ShiftsLinear(c: nat, d: nat, n: nat)
    ensures Shifts(BitXor(c, d), n) == BitXor(Shifts(c, n), Shifts(d, n))
    decreases n
  {
    hide BitXor, RegStep;
    if n > 0 {
      RegStepLinear(c, d);
      ShiftsLinear(RegStep(c, 0), RegStep(d, 0), n - 1);
    }
  }

  lemma {:induction false} ShiftsOut(hi: nat, n: nat)
    ensures Shifts(hi * Pow2(n), n) == hi
    decreases n
  {
    if n > 0 {
      var p := hi * Pow2(n - 1);
      assert hi * Pow2(n) == 2 * p;
      ShiftsOut(hi, n - 1);
    }
  }

  // ----- the formula is eight shifts

  lemma TimesLinear(x: nat, y: nat, k: nat)
    ensures BitXor(x, y) * Pow2(k) == BitXor(x * Pow2(k), y * Pow2(k))
  {
    XorShiftLeft(x, y, k);
  }

  lemma Powers()
    ensures Pow2(0) == 1 && Pow2(1) == 2 && Pow2(2) == 4 && Pow2(3) == 8 && Pow2(4) == 16 && Pow2(7) == 128
        && Pow2(8) == 256 && Pow2(12) == 4096
  {
    assert Pow2(7) == 2 * Pow2(6) && Pow2(6) == 2 * Pow2(5) && Pow2(5) == 2 * Pow2(4) && Pow2(4) == 2 * Pow2(3);
    Pow2Adds(4, 8);
  }

  /** What four shifts make of the low four bits. */
  function Fold4(n: nat): nat
  {
    BitXor(BitXor(n * 4096, n * 128), n)
  }

  lemma Fold4Linear(x: nat, y: nat)
    ensures Fold4(BitXor(x, y)) == BitXor(Fold4(x), Fold4(y))
  {
    hide BitXor;
    Powers();
    TimesLinear(x, y, 12);
    TimesLinear(x, y, 7);
    Interchange(x * 4096, y * 4096, x * 128, y * 128);
    Interchange(BitXor(x * 4096, x * 128), BitXor(y * 4096, y * 128), x, y);
  }

  /** Below 16 the three terms do not meet. */
  lemma Fold4Sum(n: nat)
    requires n < 16
    ensures Fold4(n) == n * 4096 + n * 128 + n
  {
    hide BitXor;
    Powers();
    DisjointXor(n, 0, n * 128, 12);
    XorWithZero(n * 128);
    DisjointXor(n * 32 + n, 0, n, 7);
    XorWithZero(n);
  }

  lemma NextShift(c: nat)
    ensures Shifts(c, 0) == c
    ensures forall n {:trigger Shifts(c, n)} :: 0 < n ==> Shifts(c, n) == Shifts(RegStep(c, 0), n - 1)
  {
  }

  /** The one bit that is shifted out leaves the polynomial, which is shifted on. */
  lemma PolynomialShifts()
    ensures Shifts(1, 1) == 0x8408 && Shifts(1, 2) == 0x4204 && Shifts(1, 3) == 0x2102 && Shifts(1, 4) == 0x1081
  {
    hide BitXor, Shifts;
    XorWithZero(POLYNOMIAL);
    assert RegStep(1, 0) == 0x8408;
    assert RegStep(0x8408, 0) == 0x4204 && RegStep(0x4204, 0) == 0x2102 && RegStep(0x2102, 0) == 0x1081;
    NextShift(1);
    NextShift(0x8408);
    NextShift(0x4204);
    NextShift(0x2102);
    NextShift(0x1081);
  }

  lemma FourShiftsOfBit(i: nat)
    requires i < 4
    ensures Shifts(Pow2(i), 4) == Fold4(Pow2(i))
  {
    hide BitXor, Shifts, Fold4;
    Powers();
    Fold4Sum(Pow2(i));
    PolynomialShifts();
    assert RegStep(8, 0) == 4 && RegStep(4, 0) == 2 && RegStep(2, 0) == 1;
    NextShift(8);
    NextShift(4);
    NextShift(2);
  }

  lemma {:induction false} FourShiftsLow(n: nat, k: nat)
    requires n < Pow2(k) && k <= 4
    ensures Shifts(n, 4) == Fold4(n)
    decreases k
  {
    hide BitXor, Shifts, Fold4;
    if k == 0 {
      NothingToShift();
    } else {
      var p := Pow2(k - 1);
      if n < p {
        FourShiftsLow(n, k - 1);
      } else {
        var m := n - p;
        DisjointXor(1, 0, m, k - 1);
        XorWithZero(m);
        FourShiftsLow(m, k - 1);
        FourShiftsOfBit(k - 1);
        ShiftsLinear(p, m, 4);
        Fold4Linear(p, m);
      }
    }
  }

  lemma NothingToShift()
    ensures Shifts(0, 4) == Fold4(0) == 0
  {
  }

  lemma FourShifts(c: nat)
    ensures Shifts(c, 4) == BitXor(c / 16, Fold4(c % 16))
  {
    hide BitXor, Shifts, Fold4;
    var hi, n := c / 16, c % 16;
    Powers();
    DisjointXor(hi, 0, n, 4);
    XorWithZero(n);
    ShiftsLinear(hi * 16, n, 4);
    ShiftsOut(hi, 4);
    FourShiftsLow(n, 4);
  }

  lemma {:induction false} ShiftsAdd(c: nat, j: nat, k: nat)
    ensures Shifts(c, j + k) == Shifts(Shifts(c, j), k)
    decreases j
  {
    if j > 0 {
      ShiftsAdd(RegStep(c, 0), j - 1, k);
    }
  }

  lemma XorNibbles(x: nat, y: nat)
    ensures BitXor(x, y) / 16 == BitXor(x / 16, y / 16)
    ensures BitXor(x, y) % 16 == BitXor(x % 16, y % 16)
  {
    hide BitXor, ShiftRight;
    Powers();
    XorShiftRight(x, y, 4);
    ShiftIsDiv(BitXor(x, y), 4);
    ShiftIsDiv(x, 4);
    ShiftIsDiv(y, 4);
    XorMask(x, y, 4);
  }

  /** Eight shifts, in terms of the two low nibbles n and h of the register. */
  lemma EightShifts(c: nat)
    ensures var n := c % 16;
            var m := BitXor(c / 16 % 16, n);
            m < 16 && Shifts(c, 8) == BitXor(BitXor(c / 256, BitXor(n * 256, n * 8)), Fold4(m))
  {
    hide BitXor, Shifts, Fold4;
    var n, h := c % 16, c / 16 % 16;
    var m := BitXor(h, n);
    Powers();
    OperatorBounds(h, n, 4);
    ShiftsAdd(c, 4, 4);
    FourShifts(c);
    var d := Shifts(c, 4);
    FourShifts(d);
    XorNibbles(c / 16, Fold4(n));
    Fold4Nibbles(n);
    assert c / 16 / 16 == c / 256;
  }

  lemma Fold4Nibbles(n: nat)
    requires n < 16
    ensures Fold4(n) / 16 == BitXor(n * 256, n * 8) && Fold4(n) % 16 == n
  {
    hide BitXor, Fold4;
    Powers();
    Fold4Sum(n);
    DivUnique(Fold4(n), 16, n * 256 + n * 8, n);
    DisjointXor(n, 0, n * 8, 8);
    XorWithZero(n * 8);
  }

  /** The byte a of count_crc16, in terms of the same nibbles. */
  lemma LowByte(c: nat)
    ensures var n := c % 16;
            BitAnd(BitXor(c, c * 16), 0xFF) == 16 * BitXor(c / 16 % 16, n) + n
  {
    hide BitXor, BitAnd;
    var v := BitXor(c, c * 16);
    Powers();
    MaskIsMod(v, 8);
    XorNibbles(c, c * 16);
    XorNibbles(c / 16, c);
    XorWithZero(c % 16);
    Nibbles(v);
    Nibbles(c);
  }

  lemma Nibbles(v: nat)
    ensures v % 256 == 16 * (v / 16 % 16) + v % 16
    ensures v * 16 / 16 == v && v * 16 % 16 == 0
  {
    DivUnique(v, 256, v / 16 / 16, 16 * (v / 16 % 16) + v % 16);
  }

  /** The formula is eight turns of the register. */
  lemma FormulaIsEightShifts(c: nat)
    ensures Formula(c) == Shifts(c, 8)
  {
    hide BitXor, BitAnd, ShiftRight, Shifts;
    var n := c % 16;
    var m := BitXor(c / 16 % 16, n);
    var a := 16 * m + n;
    Powers();
    EightShifts(c);
    LowByte(c);
    ShiftIsDiv(c, 8);
    ShiftIsDiv(a, 4);
    DisjointXor(m, 0, n, 4);
    XorWithZero(n);
    TimesLinear(16 * m, n, 8);
    TimesLinear(16 * m, n, 3);
    Regroup(c / 256, m * 4096, n * 256, m * 128, n * 8, m);
  }

  lemma Regroup(c: nat, p: nat, q: nat, r: nat, s: nat, m: nat)
    ensures BitXor(BitXor(BitXor(c, BitXor(p, q)), BitXor(r, s)), m)
         == BitXor(BitXor(c, BitXor(q, s)), BitXor(BitXor(p, r), m))
  {
    hide BitXor;
    XorAssociates(c, BitXor(p, q), BitXor(r, s));
    Interchange(p, q, r, s);
    XorCommutes(BitXor(p, r), BitXor(q, s));
    XorAssociates(c, BitXor(q, s), BitXor(p, r));
    XorAssociates(BitXor(c, BitXor(q, s)), BitXor(p, r), m);
  }

  // ----- bit streams

  function Bit(b: bool): nat { if b then 1 else 0 }

  /** The register after a stream of bits. */
  function Feed(c: nat, bits: seq<bool>): nat
    decreases |bits|
  {
    if bits == [] then c else Feed(RegStep(c, Bit(bits[0])), bits[1..])
  }

  lemma {:induction false} FeedConcat(c: nat, p: seq<bool>, q: seq<bool>)
    ensures Feed(c, p + q) == Feed(Feed(c, p), q)
    decreases |p|
  {
    hide RegStep;
    if p == [] {
      assert p + q == q;
    } else {
      FeedConcat(RegStep(c, Bit(p[0])), p[1..], q);
      assert (p + q)[1..] == p[1..] + q;
    }
  }

  /** The n low bits of b in transmission order. */
  function BitsOf(b: nat, n: nat): (bits: seq<bool>)
    ensures |bits| == n
  {
    if n == 0 then [] else [b % 2 == 1] + BitsOf(b / 2, n - 1)
  }

  function MessageBits(m: seq<Byte>): (bits: seq<bool>)
    ensures |bits| == 8 * |m|
  {
    if m == [] then [] else MessageBits(m[..|m| - 1]) + BitsOf(m[|m| - 1], 8)
  }

  lemma {:induction false} RegBitsIsFeed(c: nat, b: nat, n: nat)
    ensures RegBits(c, b, n) == Feed(c, BitsOf(b, n))
    decreases n
  {
    hide RegStep;
    if n > 0 {
      RegBitsIsFeed(RegStep(c, b % 2), b / 2, n - 1);
      assert BitsOf(b, n)[1..] == BitsOf(b / 2, n - 1);
    }
  }

  /** count_crc16's byte step is eight bits through the register. */
  lemma StepIsEightBits(c: nat, b: Byte)
    ensures Step(c, b) == Feed(c, BitsOf(b, 8))
  {
    hide BitXor, RegBits, Formula;
    Powers();
    FormulaIsEightShifts(BitXor(c, b));
    FeedBits(c, b, 8);
    RegBitsIsFeed(c, b, 8);
  }

  /** count_crc16 is the bit-at-a-time shift register, for messages of every length. */
  lemma {:induction false} CrcIsRegister(c: nat, m: seq<Byte>)
    ensures Crc(c, m) == Feed(c, MessageBits(m))
  {
    hide Step;
    if m != [] {
      var n := |m| - 1;
      CrcIsRegister(c, m[..n]);
      StepIsEightBits(Crc(c, m[..n]), m[n]);
      FeedConcat(c, MessageBits(m[..n]), BitsOf(m[n], 8));
    }
  }

  // ----- what the register detects

  /** The number that a bit stream denotes, first bit least significant. */
  function Value(bits: seq<bool>): nat
  {
    if bits == [] then 0 else Bit(bits[0]) + 2 * Value(bits[1..])
  }

  lemma {:induction false} ValueBound(bits: seq<bool>)
    ensures Value(bits) < Pow2(|bits|)
  {
    if bits != [] {
      ValueBound(bits[1..]);
    }
  }

  /** Xor with the polynomial sets the top bit. */
  lemma TopBit(u: nat)
    requires u < 0x8000
    ensures 0x8000 <= BitXor(u, POLYNOMIAL) < 0x1_0000
  {
    hide BitXor;
    Powers();
    Pow2Adds(8, 7);
    OperatorBounds(0x408, u, 15);
    DisjointXor(1, 0x408, u, 15);
    XorCommutes(POLYNOMIAL, u);
  }

  lemma RegStepFits(c: Reg, bit: nat)
    ensures RegStep(c, bit) < 0x1_0000
  {
    TopBit(c / 2);
  }

  lemma {:induction false} FeedFits(c: Reg, bits: seq<bool>)
    ensures Feed(c, bits) < 0x1_0000
    decreases |bits|
  {
    hide RegStep;
    if bits != [] {
      RegStepFits(c, Bit(bits[0]));
      FeedFits(RegStep(c, Bit(bits[0])), bits[1..]);
    }
  }

  /** One bit takes the register to a value below the top bit from one register only. */
  lemma StepTo(c: Reg, bit: nat, v: nat)
    requires bit < 2 && v < 0x8000
    ensures RegStep(c, bit) == v <==> c == bit + 2 * v
  {
    hide BitXor;
    TopBit(c / 2);
  }

  /** At most sixteen bits clear the register exactly when they spell its contents. */
  lemma {:induction false} ClearsIff(c: Reg, bits: seq<bool>)
    requires |bits| <= 16
    ensures Feed(c, bits) == 0 <==> c == Value(bits)
    decreases |bits|
  {
    hide RegStep;
    if bits != [] {
      var bit, rest := Bit(bits[0]), bits[1..];
      RegStepFits(c, bit);
      ClearsIff(RegStep(c, bit), rest);
      ValueBound(rest);
      Below15(|rest|);
      StepTo(c, bit, Value(rest));
    }
  }

  lemma {:induction false} Below15(n: nat)
    requires n <= 15
    ensures Pow2(n) <= 0x8000
  {
    Powers();
    Pow2Adds(8, 7);
    Pow2Adds(n, 15 - n);
    assert Pow2(n) * 1 <= Pow2(n) * Pow2(15 - n);
  }

  /** A stream of zero bits keeps a register that is not clear from clearing. */
  lemma {:induction false} ZerosKeep(c: Reg, bits: seq<bool>)
    requires c != 0 && Value(bits) == 0
    ensures Feed(c, bits) != 0
    decreases |bits|
  {
    hide BitXor;
    if bits != [] {
      TopBit(c / 2);
      ZerosKeep(RegStep(c, 0), bits[1..]);
    }
  }

  // ----- linearity

  function Differences(p: seq<bool>, q: seq<bool>): (d: seq<bool>)
    requires |p| == |q|
    ensures |d| == |p|
  {
    seq(|p|, k requires 0 <= k < |p| => p[k] != q[k])
  }

  lemma RegStepXor(c: nat, d: nat, p: bool, q: bool)
    ensures RegStep(BitXor(c, d), Bit(p != q)) == BitXor(RegStep(c, Bit(p)), RegStep(d, Bit(q)))
  {
    hide BitXor;
    FeedBitOnly(c, p);
    FeedBitOnly(d, q);
    FeedBitOnly(BitXor(c, d), p != q);
    Interchange(c, Bit(p), d, Bit(q));
    assert BitXor(Bit(p), Bit(q)) == Bit(p != q) by {
      XorWithZero(Bit(p));
      XorWithZero(Bit(q));
      XorSelf(1);
    }
    RegStepLinear(BitXor(c, Bit(p)), BitXor(d, Bit(q)));
  }

  lemma FeedBitOnly(c: nat, p: bool)
    ensures RegStep(c, Bit(p)) == RegStep(BitXor(c, Bit(p)), 0)
  {
    hide BitXor;
    FeedBit(c, Bit(p));
    XorWithZero(RegStep(c, Bit(p)));
  }

  /** The register is linear in its contents and in the stream together. */
  lemma {:induction false} FeedLinear(c: nat, d: nat, p: seq<bool>, q: seq<bool>)
    requires |p| == |q|
    ensures Feed(BitXor(c, d), Differences(p, q)) == BitXor(Feed(c, p), Feed(d, q))
    decreases |p|
  {
    hide BitXor, RegStep, Bit;
    if p != [] {
      RegStepXor(c, d, p[0], q[0]);
      FeedLinear(RegStep(c, Bit(p[0])), RegStep(d, Bit(q[0])), p[1..], q[1..]);
      assert Differences(p, q)[1..] == Differences(p[1..], q[1..]);
    }
  }

  lemma {:induction false} ValueZeroIff(bits: seq<bool>)
    ensures Value(bits) == 0 <==> forall k :: 0 <= k < |bits| ==> !bits[k]
  {
    if bits != [] {
      ValueZeroIff(bits[1..]);
      assert bits[0] ==> Value(bits) != 0;
      assert forall k :: 0 < k < |bits| ==> bits[k] == bits[1..][k - 1];
    }
  }

  lemma DifferencesZeroIff(p: seq<bool>, q: seq<bool>)
    requires |p| == |q|
    ensures Value(Differences(p, q)) == 0 <==> p == q
  {
    ValueZeroIff(Differences(p, q));
    if p != q {
      var k :| 0 <= k < |p| && p[k] != q[k];
      assert Differences(p, q)[k];
    }
  }

  /** Streams that differ only inside a window of sixteen bits leave different registers,
      whatever comes before and after. */
  lemma BurstDetected(c: Reg, pre: seq<bool>, w: seq<bool>, w': seq<bool>, post: seq<bool>)
    requires |w| == |w'| <= 16 && w != w'
    ensures Feed(c, pre + w + post) != Feed(c, pre + w' + post)
  {
    hide BitXor, RegStep, Feed;
    var c0 := Feed(c, pre);
    FeedFits(c, pre);
    FeedConcat(c, pre + w, post);
    FeedConcat(c, pre, w);
    FeedConcat(c, pre + w', post);
    FeedConcat(c, pre, w');
    var d, d' := Feed(c0, w), Feed(c0, w');
    FeedFits(c0, w);
    FeedFits(c0, w');
    FeedLinear(c0, c0, w, w');
    XorSelf(c0);
    DifferencesZeroIff(w, w');
    ClearsIff(0, Differences(w, w'));
    XorFits(d, d');
    FeedLinear(d, d', post, post);
    DifferencesZeroIff(post, post);
    ZerosKeep(BitXor(d, d'), Differences(post, post));
    XorSelf(Feed(d, post));
  }

  lemma XorFits(c: Reg, d: Reg)
    ensures BitXor(c, d) < 0x1_0000
  {
    Powers();
    Pow2Adds(8, 8);
    OperatorBounds(c, d, 16);
  }

  // ----- back to messages

  lemma MessageBitsSnoc(m: seq<Byte>, x: Byte)
    ensures MessageBits(m + [x]) == MessageBits(m) + BitsOf(x, 8) && MessageBits([]) == []
  {
    assert (m + [x])[..|m|] == m;
  }

  lemma {:induction false} MessageBitsConcat(m: seq<Byte>, t: seq<Byte>)
    ensures MessageBits(m + t) == MessageBits(m) + MessageBits(t)
    decreases |t|
  {
    hide BitsOf, MessageBits;
    if t == [] {
      MessageBitsSnoc(m, 0);
      assert m + t == m;
    } else {
      var u, x := t[..|t| - 1], t[|t| - 1];
      assert t == u + [x] && m + t == (m + u) + [x];
      MessageBitsConcat(m, u);
      MessageBitsSnoc(m + u, x);
      MessageBitsSnoc(u, x);
    }
  }

  lemma {:induction false} BitsOfInjective(x: nat, y: nat, n: nat)
    requires x < Pow2(n) && y < Pow2(n) && BitsOf(x, n) == BitsOf(y, n)
    ensures x == y
    decreases n
  {
    if n > 0 {
      assert BitsOf(x, n)[0] == BitsOf(y, n)[0];
      assert BitsOf(x / 2, n - 1) == BitsOf(x, n)[1..] == BitsOf(y, n)[1..] == BitsOf(y / 2, n - 1);
      BitsOfInjective(x / 2, y / 2, n - 1);
    }
  }

  lemma {:induction false} MessageBitsInjective(m: seq<Byte>, t: seq<Byte>)
    requires |m| == |t| && MessageBits(m) == MessageBits(t)
    ensures m == t
    decreases |m|
  {
    hide BitsOf;
    if m != [] {
      var n := |m| - 1;
      assert MessageBits(m)[..8 * n] == MessageBits(m[..n]) && MessageBits(m)[8 * n..] == BitsOf(m[n], 8);
      assert MessageBits(t)[..8 * n] == MessageBits(t[..n]) && MessageBits(t)[8 * n..] == BitsOf(t[n], 8);
      MessageBitsInjective(m[..n], t[..n]);
      Powers();
      BitsOfInjective(m[n], t[n], 8);
      assert m == m[..n] + [m[n]] && t == t[..n] + [t[n]];
    }
  }

  /** Two messages that differ only inside two adjacent bytes have different checksums. */
  lemma TwoByteBurstDetected(c: Reg, pre: seq<Byte>, mid: seq<Byte>, mid': seq<Byte>, post: seq<Byte>)
    requires |mid| == |mid'| <= 2 && mid != mid'
    ensures Crc(c, pre + mid + post) != Crc(c, pre + mid' + post)
  {
    hide MessageBits, Crc, Feed;
    CrcIsRegister(c, pre + mid + post);
    CrcIsRegister(c, pre + mid' + post);
    MessageBitsConcat(pre + mid, post);
    MessageBitsConcat(pre, mid);
    MessageBitsConcat(pre + mid', post);
    MessageBitsConcat(pre, mid');
    if MessageBits(mid) == MessageBits(mid') {
      MessageBitsInjective(mid, mid');
    }
    BurstDetected(c, MessageBits(pre), MessageBits(mid), MessageBits(mid'), MessageBits(post));
  }

  lemma StepLinear(c: nat, d: nat, x: Byte, y: Byte)
    ensures Step(BitXor(c, d), BitXor(x, y)) == BitXor(Step(c, x), Step(d, y))
  {
    hide BitXor, Formula, Shifts;
    Interchange(c, d, x, y);
    FormulaIsEightShifts(BitXor(BitXor(c, x), BitXor(d, y)));
    ShiftsLinear(BitXor(c, x), BitXor(d, y), 8);
    FormulaIsEightShifts(BitXor(c, x));
    FormulaIsEightShifts(BitXor(d, y));
  }

  /** z is the byte-wise xor of m and t. */
  ghost predicate XorOf(z: seq<Byte>, m: seq<Byte>, t: seq<Byte>)
  {
    |z| == |m| == |t| && forall k :: 0 <= k < |z| ==> z[k] == BitXor(m[k], t[k])
  }

  /** The checksum of the xor of two messages is the xor of their checksums. */
  lemma {:induction false} CrcLinear(c: nat, d: nat, z: seq<Byte>, m: seq<Byte>, t: seq<Byte>)
    requires XorOf(z, m, t)
    ensures Crc(BitXor(c, d), z) == BitXor(Crc(c, m), Crc(d, t))
    decreases |z|
  {
    hide BitXor, Step;
    if z != [] {
      var n := |z| - 1;
      CrcLinear(c, d, z[..n], m[..n], t[..n]);
      StepLinear(Crc(c, m[..n]), Crc(d, t[..n]), m[n], t[n]);
    }
  }

  lemma {:induction false} ValueConcat(p: seq<bool>, q: seq<bool>)
    ensures Value(p + q) == Value(p) + Pow2(|p|) * Value(q)
  {
    hide Value, Pow2;
    ValueOfNothing();
    if p == [] {
      assert p + q == q;
    } else {
      var b, r := p[0], p[1..];
      assert p == [b] + r && p + q == [b] + (r + q);
      ValueConcat(r, q);
      ValueCons(b, r + q);
      ValueCons(b, r);
      PowerStep(|r|, Value(q));
    }
  }

  lemma PowerStep(n: nat, x: nat)
    ensures Pow2(n + 1) * x == 2 * (Pow2(n) * x)
  {
    TimesTwo(x, Pow2(n));
  }

  lemma ValueOfNothing()
    ensures Value([]) == 0 && Pow2(0) == 1
  {
  }

  lemma ValueCons(b: bool, bits: seq<bool>)
    ensures Value([b] + bits) == Bit(b) + 2 * Value(bits)
  {
    assert ([b] + bits)[1..] == bits;
  }

  lemma {:induction false} ValueOfBits(b: nat, n: nat)
    requires b < Pow2(n)
    ensures Value(BitsOf(b, n)) == b
    decreases n
  {
    if n > 0 {
      ValueOfBits(b / 2, n - 1);
      assert BitsOf(b, n)[1..] == BitsOf(b / 2, n - 1);
    }
  }

  lemma TwoBytesValue(x: Byte, y: Byte)
    ensures Value(MessageBits([x, y])) == x + 256 * y
  {
    hide BitsOf, Value;
    Powers();
    assert [x, y][..1] == [x] && [x][..0] == [];
    assert MessageBits([x, y]) == BitsOf(x, 8) + BitsOf(y, 8);
    ValueConcat(BitsOf(x, 8), BitsOf(y, 8));
    ValueOfBits(x, 8);
    ValueOfBits(y, 8);
  }

  /** A message followed by two bytes has checksum 0 exactly when they are the low byte and
      then the high byte of the message's own checksum. */
  lemma TrailerIff(c: Reg, m: seq<Byte>, x: Byte, y: Byte)
    ensures Crc(c, m + [x, y]) == 0 <==> Crc(c, m) == x + 256 * y
  {
    hide MessageBits, Crc, Feed, Value;
    CrcIsRegister(c, m + [x, y]);
    CrcIsRegister(c, m);
    MessageBitsConcat(m, [x, y]);
    FeedConcat(c, MessageBits(m), MessageBits([x, y]));
    FeedFits(c, MessageBits(m));
    ClearsIff(Feed(c, MessageBits(m)), MessageBits([x, y]));
    TwoBytesValue(x, y);
  }

  // ----- parity

  /** Is the number of one bits of c odd? */
  function Parity(c: nat): bool
  {
    c != 0 && (c % 2 == 1) != Parity(c / 2)
  }

  /** The number of one bits of a stream. */
  function Ones(bits: seq<bool>): nat
  {
    if bits == [] then 0 else Bit(bits[0]) + Ones(bits[1..])
  }

  predicate Odd(bits: seq<bool>)
  {
    Ones(bits) % 2 == 1
  }

  lemma {:induction false} XorParity(c: nat, d: nat)
    ensures Parity(BitXor(c, d)) == (Parity(c) != Parity(d))
  {
    if c > 0 && d > 0 {
      XorParity(c / 2, d / 2);
      XorHalves(c, d);
    }
  }

  lemma ParityHalf(c: nat)
    ensures Parity(c) == ((c % 2 == 1) != Parity(c / 2))
  {
  }

  lemma {:induction false} ParityShifted(c: nat, k: nat)
    ensures Parity(c * Pow2(k)) == Parity(c)
  {
    hide Parity;
    if k > 0 {
      var p := c * Pow2(k - 1);
      TimesTwo(c, Pow2(k - 1));
      assert c * Pow2(k) == 2 * p;
      ParityHalf(2 * p);
      ParityShifted(c, k - 1);
    }
  }

  /** 0x8408 is 8 * (1 + 2^7 * (1 + 2^5)). */
  lemma PolynomialParity()
    ensures Parity(POLYNOMIAL)
  {
    hide Parity, Pow2;
    Powers();
    ParityShifted(4225, 3);
    ParityHalf(4225);
    ParityHalf(2112);
    ParityHalf(1056);
    ParityShifted(33, 4);
    ParityHalf(528);
    ParityHalf(33);
    ParityShifted(1, 4);
    OneBit();
  }

  lemma OneBit()
    ensures Parity(1)
  {
  }

  /** Each bit adds itself to the parity of the register. */
  lemma RegStepParity(c: nat, bit: bool)
    ensures Parity(RegStep(c, Bit(bit))) == (Parity(c) != bit)
  {
    hide BitXor, Parity;
    PolynomialParity();
    ParityHalf(c);
    XorParity(c / 2, POLYNOMIAL);
  }

  lemma {:induction false} FeedParity(c: nat, bits: seq<bool>)
    ensures Parity(Feed(c, bits)) == (Parity(c) != Odd(bits))
    decreases |bits|
  {
    hide RegStep, Parity, Odd;
    if bits == [] {
      OddCons(true, []);
    } else {
      RegStepParity(c, bits[0]);
      FeedParity(RegStep(c, Bit(bits[0])), bits[1..]);
      assert bits == [bits[0]] + bits[1..];
      OddCons(bits[0], bits[1..]);
    }
  }

  lemma OddCons(b: bool, bits: seq<bool>)
    ensures Odd([b] + bits) == (b != Odd(bits)) && !Odd([])
  {
    assert ([b] + bits)[1..] == bits;
  }

  lemma {:induction false} OddDiffer(p: seq<bool>, q: seq<bool>)
    requires |p| == |q|
    ensures Odd(Differences(p, q)) == (Odd(p) != Odd(q))
    decreases |p|
  {
    hide Odd;
    if p == [] {
      OddCons(true, []);
      assert q == [] && Differences(p, q) == [];
    } else {
      var a, r, b, t := p[0], p[1..], q[0], q[1..];
      OddDiffer(r, t);
      assert p == [a] + r && q == [b] + t && Differences(p, q) == [a != b] + Differences(r, t);
      OddCons(a, r);
      OddCons(b, t);
      OddCons(a != b, Differences(r, t));
    }
  }

  /** The checksums of two messages of one length differ in parity exactly when the messages
      differ in an odd number of bits, so every odd number of bit errors is detected. */
  lemma OddErrorsDetected(c: nat, m: seq<Byte>, t: seq<Byte>)
    requires |m| == |t|
    ensures Parity(Crc(c, m)) != Parity(Crc(c, t)) <==> Odd(Differences(MessageBits(m), MessageBits(t)))
    ensures Odd(Differences(MessageBits(m), MessageBits(t))) ==> Crc(c, m) != Crc(c, t)
  {
    hide MessageBits, Crc, Feed, Parity, Odd, Differences;
    CrcIsRegister(c, m);
    CrcIsRegister(c, t);
    FeedParity(c, MessageBits(m));
    FeedParity(c, MessageBits(t));
    OddDiffer(MessageBits(m), MessageBits(t));
  }
}
