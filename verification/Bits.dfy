/** C's unsigned shift and mask operators on natural numbers, and the two
    power-of-two identities that the hash table relies on. */
module Bits {

  function Pow2(k: nat): (r: nat)
    ensures 1 <= r
  {
    if k == 0 then 1 else 2 * Pow2(k - 1)
  }

  /** `x & y` */
  function BitAnd(x: nat, y: nat): nat
  {
    if x == 0 || y == 0 then 0
    else 2 * BitAnd(x / 2, y / 2) + (if x % 2 == 1 && y % 2 == 1 then 1 else 0)
  }

  /** `x >> k` */
  function ShiftRight(x: nat, k: nat): nat
  {
    if k == 0 then x else ShiftRight(x / 2, k - 1)
  }

  /** The least integer that is at least x / b. */
  function CeilDiv(x: nat, b: nat): (r: nat)
    requires 1 <= b
  {
    (x + b - 1) / b
  }

  lemma DivDiv(x: nat, b: nat)
    requires 1 <= b
    ensures x / (2 * b) == (x / 2) / b
    ensures x % (2 * b) == 2 * ((x / 2) % b) + x % 2
  {
    var q, r := (x / 2) / b, (x / 2) % b;
    assert x == 2 * b * q + (2 * r + x % 2) by {
      assert x / 2 == q * b + r;
    }
    DivUnique(x, 2 * b, q, 2 * r + x % 2);
  }

  lemma SmallMultipleIsZero(b: int, d: int)
    requires -b < b * d < b
    ensures d == 0
  {
  }

  lemma DivUnique(x: int, b: int, q: int, r: int)
    requires 0 <= r < b && x == b * q + r
    ensures x / b == q && x % b == r
  {
    var p, s := x / b, x % b;
    assert x == b * p + s && 0 <= s < b;
    assert b * (p - q) == b * p - b * q == r - s;
    SmallMultipleIsZero(b, p - q);
  }

  lemma AndHalves(x: nat, y: nat)
    ensures BitAnd(x, y) == 2 * BitAnd(x / 2, y / 2) + (if x % 2 == 1 && y % 2 == 1 then 1 else 0)
    ensures BitAnd(x, 0) == 0
  {
  }

  lemma Pow2Step(k: nat)
    ensures if k == 0 then Pow2(k) == 1 else Pow2(k) == 2 * Pow2(k - 1)
  {
  }

  /** Masking with 2^k - 1 is reduction modulo 2^k. */
  lemma {:induction false} MaskIsMod(x: nat, k: nat)
    ensures BitAnd(x, Pow2(k) - 1) == x % Pow2(k)
  {
    hide BitAnd, Pow2;
    Pow2Step(k);
    AndHalves(x, Pow2(k) - 1);
    if k > 0 {
      var p := Pow2(k - 1);
      MaskIsMod(x / 2, k - 1);
      DivDiv(x, p);
      assert (2 * p - 1) / 2 == p - 1 && (2 * p - 1) % 2 == 1;
    }
  }

  /** Shifting right by k divides by 2^k. */
  lemma {:induction false} ShiftIsDiv(x: nat, k: nat)
    ensures ShiftRight(x, k) == x / Pow2(k)
  {
    if k > 0 {
      ShiftIsDiv(x / 2, k - 1);
      DivDiv(x, Pow2(k - 1));
    }
  }

  lemma CeilDivSplit(x: nat, b: nat)
    requires 1 <= b
    ensures CeilDiv(x, b) == x / b + (if x % b == 0 then 0 else 1)
  {
    var q, r := x / b, x % b;
    if r == 0 {
      DivUnique(x + b - 1, b, q, b - 1);
    } else {
      DivUnique(x + b - 1, b, q + 1, r - 1);
    }
  }

  lemma CeilPositive(x: nat, b: nat)
    requires 1 <= b && 1 <= x
    ensures 1 <= CeilDiv(x, b)
  {
    CeilDivSplit(x, b);
  }

  /** (x >> k) + ((x & (2^k - 1)) ? 1 : 0) is ceil(x / 2^k). */
  lemma CeilByShiftAndMask(x: nat, k: nat)
    ensures ShiftRight(x, k) + (if BitAnd(x, Pow2(k) - 1) != 0 then 1 else 0) == CeilDiv(x, Pow2(k))
  {
    ShiftIsDiv(x, k);
    MaskIsMod(x, k);
    CeilDivSplit(x, Pow2(k));
  }

  lemma TimesTwo(x: nat, y: nat)
    ensures x * (2 * y) == 2 * (x * y)
  {
  }

  lemma {:induction false} Pow2Adds(j: nat, k: nat)
    ensures Pow2(j + k) == Pow2(j) * Pow2(k)
  {
    if k > 0 {
      Pow2Adds(j, k - 1);
      TimesTwo(Pow2(j), Pow2(k - 1));
    }
  }

  // ----- the other operators

  /** `x | y` */
  function BitOr(x: nat, y: nat): nat
  {
    if x == 0 then y else if y == 0 then x
    else 2 * BitOr(x / 2, y / 2) + (if x % 2 == 1 || y % 2 == 1 then 1 else 0)
  }

  /** `x ^ y` */
  function BitXor(x: nat, y: nat): nat
  {
    if x == 0 then y else if y == 0 then x
    else 2 * BitXor(x / 2, y / 2) + (if x % 2 == y % 2 then 0 else 1)
  }

  lemma {:induction false} OperatorBounds(x: nat, y: nat, k: nat)
    requires x < Pow2(k) && y < Pow2(k)
    ensures BitAnd(x, y) < Pow2(k) && BitOr(x, y) < Pow2(k) && BitXor(x, y) < Pow2(k)
  {
    if k > 0 {
      OperatorBounds(x / 2, y / 2, k - 1);
    }
  }

  lemma {:induction false} OrCommutes(x: nat, y: nat)
    ensures BitOr(x, y) == BitOr(y, x)
  {
    if x > 0 && y > 0 {
      OrCommutes(x / 2, y / 2);
    }
  }

  /** Or-ing numbers without common bits adds them. */
  lemma {:induction false} DisjointOr(hi: nat, lo: nat, k: nat)
    requires lo < Pow2(k)
    ensures BitOr(hi * Pow2(k), lo) == hi * Pow2(k) + lo
  {
    if k > 0 && hi > 0 && lo > 0 {
      var h := hi * Pow2(k - 1);
      assert hi * Pow2(k) == 2 * h;
      assert h > 0;
      DisjointOr(hi, lo / 2, k - 1);
    }
  }

  lemma OrHalves(x: nat, y: nat)
    ensures BitOr(x, y) == 2 * BitOr(x / 2, y / 2) + (if x % 2 == 1 || y % 2 == 1 then 1 else 0)
  {
  }

  lemma XorHalves(x: nat, y: nat)
    ensures BitXor(x, y) / 2 == BitXor(x / 2, y / 2)
    ensures BitXor(x, y) % 2 == (if x % 2 == y % 2 then 0 else 1)
  {
  }

  // ----- the operators bit by bit

  /** Is bit k of x set? */
  function BitAt(x: nat, k: nat): bool
  {
    x / Pow2(k) % 2 == 1
  }

  lemma BitAtHalf(x: nat, k: nat)
    ensures BitAt(x, 0) <==> x % 2 == 1
    ensures k > 0 ==> (BitAt(x, k) <==> BitAt(x / 2, k - 1))
  {
    hide Pow2;
    Pow2Step(0);
    if k > 0 {
      Pow2Step(k);
      DivDiv(x, Pow2(k - 1));
    }
  }

  /** `&` is and, `|` is or, and `^` is exclusive or, of every bit. */
  lemma {:induction false} OperatorBits(x: nat, y: nat, k: nat)
    ensures BitAt(BitAnd(x, y), k) <==> BitAt(x, k) && BitAt(y, k)
    ensures BitAt(BitOr(x, y), k) <==> BitAt(x, k) || BitAt(y, k)
    ensures BitAt(BitXor(x, y), k) <==> BitAt(x, k) != BitAt(y, k)
    decreases k
  {
    hide BitAnd, BitOr, BitXor, BitAt;
    AndHalves(x, y);
    OrHalves(x, y);
    XorHalves(x, y);
    BitAtHalf(x, k);
    BitAtHalf(y, k);
    BitAtHalf(BitAnd(x, y), k);
    BitAtHalf(BitOr(x, y), k);
    BitAtHalf(BitXor(x, y), k);
    if k > 0 {
      OperatorBits(x / 2, y / 2, k - 1);
    }
  }

  /** A number below 2^n subtracted from 2^n - 1 has every bit below n flipped. */
  lemma {:induction false} FlippedBits(x: nat, n: nat, k: nat)
    requires k < n && x < Pow2(n)
    ensures BitAt(Pow2(n) - 1 - x, k) <==> !BitAt(x, k)
    decreases k
  {
    hide BitAt, Pow2;
    Pow2Step(n);
    var y := Pow2(n) - 1 - x;
    BitAtHalf(x, k);
    BitAtHalf(y, k);
    assert x % 2 + y % 2 == 1 && y / 2 == Pow2(n - 1) - 1 - x / 2;
    if k > 0 {
      FlippedBits(x / 2, n - 1, k - 1);
    }
  }

  /** The operators work on the parts below and from bit k on by themselves. */
  lemma {:induction false} OperatorParts(x: nat, y: nat, a: nat, b: nat, k: nat)
    requires a < Pow2(k) && b < Pow2(k)
    ensures BitAnd(x * Pow2(k) + a, y * Pow2(k) + b) == BitAnd(x, y) * Pow2(k) + BitAnd(a, b)
    ensures BitOr(x * Pow2(k) + a, y * Pow2(k) + b) == BitOr(x, y) * Pow2(k) + BitOr(a, b)
    ensures BitXor(x * Pow2(k) + a, y * Pow2(k) + b) == BitXor(x, y) * Pow2(k) + BitXor(a, b)
    decreases k
  {
    hide BitAnd, BitOr, BitXor, Pow2;
    Pow2Step(k);
    if k == 0 {
      NoBits();
    } else {
      var p := Pow2(k - 1);
      TimesTwo(x, p);
      TimesTwo(y, p);
      TimesTwo(BitAnd(x, y), p);
      TimesTwo(BitOr(x, y), p);
      TimesTwo(BitXor(x, y), p);
      OperatorParts(x, y, a / 2, b / 2, k - 1);
      LowBit(x * p, y * p, a, b);
    }
  }

  /** The lowest bit by itself, below what is twice as much. */
  lemma LowBit(x: nat, y: nat, a: nat, b: nat)
    ensures var u, v := x + a / 2, y + b / 2;
            && BitAnd(2 * x + a, 2 * y + b) - BitAnd(a, b) == 2 * (BitAnd(u, v) - BitAnd(a / 2, b / 2))
            && BitOr(2 * x + a, 2 * y + b) - BitOr(a, b) == 2 * (BitOr(u, v) - BitOr(a / 2, b / 2))
            && BitXor(2 * x + a, 2 * y + b) - BitXor(a, b) == 2 * (BitXor(u, v) - BitXor(a / 2, b / 2))
  {
    hide BitAnd, BitOr, BitXor;
    var u, v := 2 * x + a, 2 * y + b;
    assert u / 2 == x + a / 2 && v / 2 == y + b / 2 && u % 2 == a % 2 && v % 2 == b % 2;
    AndHalves(u, v);
    OrHalves(u, v);
    XorHalves(u, v);
    AndHalves(a, b);
    OrHalves(a, b);
    XorHalves(a, b);
  }

  lemma NoBits()
    ensures BitAnd(0, 0) == BitOr(0, 0) == BitXor(0, 0) == 0
  {
  }
}
