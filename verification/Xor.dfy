/** Exclusive or is a commutative group operation on the naturals, and shifts and
    masks are linear for it. */
module Xor {
  import opened Bits

  lemma {:induction false} XorCommutes(x: nat, y: nat)
    ensures BitXor(x, y) == BitXor(y, x)
  {
    if x > 0 && y > 0 {
      XorCommutes(x / 2, y / 2);
    }
  }

  lemma {:induction false} XorAssociates(x: nat, y: nat, z: nat)
    ensures BitXor(BitXor(x, y), z) == BitXor(x, BitXor(y, z))
    decreases x + y + z
  {
    if x > 0 && y > 0 && z > 0 {
      XorAssociates(x / 2, y / 2, z / 2);
      XorHalves(x, y);
      XorHalves(y, z);
      SameHalves(BitXor(BitXor(x, y), z), BitXor(x, BitXor(y, z))) by {
        XorHalves(BitXor(x, y), z);
        XorHalves(x, BitXor(y, z));
      }
    }
  }

  lemma SameHalves(x: nat, y: nat)
    requires x / 2 == y / 2 && x % 2 == y % 2
    ensures x == y
  {
  }

  lemma {:induction false} XorSelf(x: nat)
    ensures BitXor(x, x) == 0
  {
    if x > 0 {
      XorSelf(x / 2);
    }
  }

  lemma Interchange(p: nat, q: nat, r: nat, s: nat)
    ensures BitXor(BitXor(p, q), BitXor(r, s)) == BitXor(BitXor(p, r), BitXor(q, s))
  {
    XorAssociates(p, q, BitXor(r, s));
    XorAssociates(q, r, s);
    XorCommutes(q, r);
    XorAssociates(r, q, s);
    XorAssociates(p, r, BitXor(q, s));
  }

  lemma {:induction false} XorShiftRight(x: nat, y: nat, k: nat)
    ensures ShiftRight(BitXor(x, y), k) == BitXor(ShiftRight(x, k), ShiftRight(y, k))
  {
    if k > 0 {
      XorHalves(x, y);
      XorShiftRight(x / 2, y / 2, k - 1);
    }
  }

  lemma XorDoubles(x: nat, y: nat)
    ensures BitXor(2 * x, 2 * y) == 2 * BitXor(x, y)
  {
    XorHalves(2 * x, 2 * y);
  }

  lemma {:induction false} XorShiftLeft(x: nat, y: nat, k: nat)
    ensures BitXor(x, y) * Pow2(k) == BitXor(x * Pow2(k), y * Pow2(k))
  {
    hide BitXor;
    if k > 0 {
      var p := Pow2(k - 1);
      XorShiftLeft(x, y, k - 1);
      assert x * Pow2(k) == 2 * (x * p) && y * Pow2(k) == 2 * (y * p);
      XorDoubles(x * p, y * p);
      assert BitXor(x, y) * Pow2(k) == 2 * (BitXor(x, y) * p);
    }
  }

  lemma {:induction false} XorMask(x: nat, y: nat, k: nat)
    ensures BitXor(x, y) % Pow2(k) == BitXor(x % Pow2(k), y % Pow2(k))
  {
    if k > 0 {
      XorHalves(x, y);
      XorMask(x / 2, y / 2, k - 1);
      MaskHalves(BitXor(x, y), k);
      MaskHalves(x, k);
      MaskHalves(y, k);
      hide BitXor, Pow2;
      var u, v := x % Pow2(k), y % Pow2(k);
      XorHalves(u, v);
      SameHalves(BitXor(x, y) % Pow2(k), BitXor(u, v));
    }
  }

  lemma MaskHalves(x: nat, k: nat)
    requires k > 0
    ensures var u := x % Pow2(k); u / 2 == x / 2 % Pow2(k - 1) && u % 2 == x % 2
  {
    DivDiv(x, Pow2(k - 1));
  }

  /** Xor leaves apart what is in different bit positions. */
  lemma {:induction false} DisjointXor(hi: nat, lo: nat, x: nat, k: nat)
    requires lo < Pow2(k) && x < Pow2(k)
    ensures BitXor(hi * Pow2(k) + lo, x) == hi * Pow2(k) + BitXor(lo, x)
  {
    hide BitXor;
    if k == 0 {
      XorWithZero(hi);
      XorWithZero(0);
    } else {
      var p := Pow2(k - 1);
      var u := hi * Pow2(k) + lo;
      assert hi * Pow2(k) == 2 * (hi * p);
      assert u / 2 == hi * p + lo / 2 && u % 2 == lo % 2;
      DisjointXor(hi, lo / 2, x / 2, k - 1);
      XorHalves(u, x);
      XorHalves(lo, x);
    }
  }

  lemma XorWithZero(x: nat)
    ensures BitXor(x, 0) == x && BitXor(0, x) == x
  {
  }
}
