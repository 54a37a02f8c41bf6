/** The digests of appendix A.5 of RFC 1321, by following the 64 steps on the words of the
    padded messages. A word is also a vector of bits here, on which the verifier computes. */
module Md5Answers {
  import opened Bits
  import opened Words
  import opened Md5Spec

  // ----- bytes of bits

  function N(u: bv8): (n: Byte) { u as nat }

  function HalfOf(u: bv8): bv8 { u >> 1 }

  predicate Low(u: bv8) { u & 1 == 1 }

  function AndByte(u: bv8, v: bv8): bv8 { u & v }

  function OrByte(u: bv8, v: bv8): bv8 { u | v }

  function XorByte(u: bv8, v: bv8): bv8 { u ^ v }

  function NotByte(u: bv8): bv8 { !u }

  lemma HalfByte(u: bv8)
    ensures N(u) / 2 == N(HalfOf(u)) && N(u) % 2 == if Low(u) then 1 else 0
    ensures N(NotByte(u)) == 0xff - N(u)
  {
  }

  lemma HalfOperators(u: bv8, v: bv8)
    ensures HalfOf(AndByte(u, v)) == AndByte(HalfOf(u), HalfOf(v)) && (Low(AndByte(u, v)) <==> Low(u) && Low(v))
    ensures HalfOf(OrByte(u, v)) == OrByte(HalfOf(u), HalfOf(v)) && (Low(OrByte(u, v)) <==> Low(u) || Low(v))
    ensures HalfOf(XorByte(u, v)) == XorByte(HalfOf(u), HalfOf(v)) && (Low(XorByte(u, v)) <==> Low(u) != Low(v))
  {
  }

  lemma ZeroBytes(u: bv8, v: bv8)
    requires N(u) == N(v) == 0
    ensures N(AndByte(u, v)) == N(OrByte(u, v)) == N(XorByte(u, v)) == 0
  {
  }

  lemma {:induction false} ByteOperators(u: bv8, v: bv8)
    ensures BitAnd(N(u), N(v)) == N(AndByte(u, v))
    ensures BitOr(N(u), N(v)) == N(OrByte(u, v))
    ensures BitXor(N(u), N(v)) == N(XorByte(u, v))
    decreases N(u) + N(v)
  {
    hide BitAnd, BitOr, BitXor, N, HalfOf, Low, AndByte, OrByte, XorByte, NotByte;
    HalfByte(u);
    HalfByte(v);
    if N(u) == 0 && N(v) == 0 {
      NoBits();
      ZeroBytes(u, v);
    } else {
      HalfByte(AndByte(u, v));
      HalfByte(OrByte(u, v));
      HalfByte(XorByte(u, v));
      HalfOperators(u, v);
      ByteOperators(HalfOf(u), HalfOf(v));
      AndHalves(N(u), N(v));
      OrHalves(N(u), N(v));
      XorHalves(N(u), N(v));
    }
  }

  // ----- words of bits

  function B3(u: bv32): bv8 { (u >> 24) as bv8 }

  function B2(u: bv32): bv8 { ((u >> 16) & 0xff) as bv8 }

  function B1(u: bv32): bv8 { ((u >> 8) & 0xff) as bv8 }

  function B0(u: bv32): bv8 { (u & 0xff) as bv8 }

  function AndWord(u: bv32, v: bv32): bv32 { u & v }

  function OrWord(u: bv32, v: bv32): bv32 { u | v }

  function XorWord(u: bv32, v: bv32): bv32 { u ^ v }

  function NotWord(u: bv32): bv32 { !u }

  function Joined(x3: nat, x2: nat, x1: nat, x0: nat): nat
  {
    ((x3 * 0x100 + x2) * 0x100 + x1) * 0x100 + x0
  }

  /** The number of a word, byte by byte. */
  function V(u: bv32): Word
  {
    (u >> 24) as bv8 as nat * 0x100_0000 + ((u >> 16) & 0xff) as bv8 as nat * 0x1_0000
    + ((u >> 8) & 0xff) as bv8 as nat * 0x100 + (u & 0xff) as bv8 as nat
  }

  lemma VIsJoined(u: bv32)
    ensures V(u) == Joined(N(B3(u)), N(B2(u)), N(B1(u)), N(B0(u)))
  {
  }

  lemma AndByte3(u: bv32, v: bv32)
    ensures B3(AndWord(u, v)) == AndByte(B3(u), B3(v))
  {
  }

  lemma AndByte2(u: bv32, v: bv32)
    ensures B2(AndWord(u, v)) == AndByte(B2(u), B2(v))
  {
  }

  lemma AndByte1(u: bv32, v: bv32)
    ensures B1(AndWord(u, v)) == AndByte(B1(u), B1(v))
  {
  }

  lemma AndByte0(u: bv32, v: bv32)
    ensures B0(AndWord(u, v)) == AndByte(B0(u), B0(v))
  {
  }

  lemma OrByte3(u: bv32, v: bv32)
    ensures B3(OrWord(u, v)) == OrByte(B3(u), B3(v))
  {
  }

  lemma OrByte2(u: bv32, v: bv32)
    ensures B2(OrWord(u, v)) == OrByte(B2(u), B2(v))
  {
  }

  lemma OrByte1(u: bv32, v: bv32)
    ensures B1(OrWord(u, v)) == OrByte(B1(u), B1(v))
  {
  }

  lemma OrByte0(u: bv32, v: bv32)
    ensures B0(OrWord(u, v)) == OrByte(B0(u), B0(v))
  {
  }

  lemma XorByte3(u: bv32, v: bv32)
    ensures B3(XorWord(u, v)) == XorByte(B3(u), B3(v))
  {
  }

  lemma XorByte2(u: bv32, v: bv32)
    ensures B2(XorWord(u, v)) == XorByte(B2(u), B2(v))
  {
  }

  lemma XorByte1(u: bv32, v: bv32)
    ensures B1(XorWord(u, v)) == XorByte(B1(u), B1(v))
  {
  }

  lemma XorByte0(u: bv32, v: bv32)
    ensures B0(XorWord(u, v)) == XorByte(B0(u), B0(v))
  {
  }

  lemma NotBytes(u: bv32)
    ensures B3(NotWord(u)) == NotByte(B3(u)) && B2(NotWord(u)) == NotByte(B2(u))
    ensures B1(NotWord(u)) == NotByte(B1(u)) && B0(NotWord(u)) == NotByte(B0(u))
  {
  }

  lemma WordOperators(u: bv32, v: bv32)
    ensures And(V(u), V(v)) == V(AndWord(u, v))
    ensures Or(V(u), V(v)) == V(OrWord(u, v))
    ensures Xor(V(u), V(v)) == V(XorWord(u, v))
  {
    hide BitAnd, BitOr, BitXor, N, AndByte, OrByte, XorByte, AndWord, OrWord, XorWord, B3, B2, B1, B0, Joined, V;
    VIsJoined(u);
    VIsJoined(v);
    VIsJoined(AndWord(u, v));
    VIsJoined(OrWord(u, v));
    VIsJoined(XorWord(u, v));
    AndByte3(u, v); AndByte2(u, v); AndByte1(u, v); AndByte0(u, v);
    OrByte3(u, v); OrByte2(u, v); OrByte1(u, v); OrByte0(u, v);
    XorByte3(u, v); XorByte2(u, v); XorByte1(u, v); XorByte0(u, v);
    ByteOperators(B3(u), B3(v));
    ByteOperators(B2(u), B2(v));
    ByteOperators(B1(u), B1(v));
    ByteOperators(B0(u), B0(v));
    FourParts(N(B3(u)), N(B2(u)), N(B1(u)), N(B0(u)), N(B3(v)), N(B2(v)), N(B1(v)), N(B0(v)));
  }

  lemma NotIs(u: bv32)
    ensures Not(V(u)) == V(NotWord(u))
  {
    hide N, NotByte, NotWord, B3, B2, B1, B0, V;
    VIsJoined(u);
    VIsJoined(NotWord(u));
    NotBytes(u);
    HalfByte(B3(u));
    HalfByte(B2(u));
    HalfByte(B1(u));
    HalfByte(B0(u));
  }

  lemma FourParts(x3: Byte, x2: Byte, x1: Byte, x0: Byte, y3: Byte, y2: Byte, y1: Byte, y0: Byte)
    ensures var x, y := Joined(x3, x2, x1, x0), Joined(y3, y2, y1, y0);
            && BitAnd(x, y) == Joined(BitAnd(x3, y3), BitAnd(x2, y2), BitAnd(x1, y1), BitAnd(x0, y0))
            && BitOr(x, y) == Joined(BitOr(x3, y3), BitOr(x2, y2), BitOr(x1, y1), BitOr(x0, y0))
            && BitXor(x, y) == Joined(BitXor(x3, y3), BitXor(x2, y2), BitXor(x1, y1), BitXor(x0, y0))
  {
    hide BitAnd, BitOr, BitXor;
    var x23, y23 := x3 * 0x100 + x2, y3 * 0x100 + y2;
    LowPart(x3, y3, x2, y2);
    ThreeParts(x23, x1, x0, y23, y1, y0);
  }

  lemma ThreeParts(x2: nat, x1: Byte, x0: Byte, y2: nat, y1: Byte, y0: Byte)
    ensures var x, y := (x2 * 0x100 + x1) * 0x100 + x0, (y2 * 0x100 + y1) * 0x100 + y0;
            && BitAnd(x, y) == (BitAnd(x2, y2) * 0x100 + BitAnd(x1, y1)) * 0x100 + BitAnd(x0, y0)
            && BitOr(x, y) == (BitOr(x2, y2) * 0x100 + BitOr(x1, y1)) * 0x100 + BitOr(x0, y0)
            && BitXor(x, y) == (BitXor(x2, y2) * 0x100 + BitXor(x1, y1)) * 0x100 + BitXor(x0, y0)
  {
    hide BitAnd, BitOr, BitXor;
    LowPart(x2, y2, x1, y1);
    LowPart(x2 * 0x100 + x1, y2 * 0x100 + y1, x0, y0);
  }

  lemma LowPart(x: nat, y: nat, a: Byte, b: Byte)
    ensures BitAnd(x * 0x100 + a, y * 0x100 + b) == BitAnd(x, y) * 0x100 + BitAnd(a, b)
    ensures BitOr(x * 0x100 + a, y * 0x100 + b) == BitOr(x, y) * 0x100 + BitOr(a, b)
    ensures BitXor(x * 0x100 + a, y * 0x100 + b) == BitXor(x, y) * 0x100 + BitXor(a, b)
  {
    hide BitAnd, BitOr, BitXor, Pow2;
    Sizes();
    OperatorParts(x, y, a, b, 8);
  }

  // ----- one step

  /** What step i mixes, in bits. */
  function Mixed(i: nat, b: bv32, c: bv32, d: bv32): bv32
  {
    if i < 16 then OrWord(AndWord(b, c), AndWord(NotWord(b), d))
    else if i < 32 then OrWord(AndWord(b, d), AndWord(c, NotWord(d)))
    else if i < 48 then XorWord(XorWord(b, c), d)
    else XorWord(c, OrWord(b, NotWord(d)))
  }

  lemma MixedIs(i: nat, b: bv32, c: bv32, d: bv32)
    requires i < 64
    ensures MixedWord(i, V(b), V(c), V(d)) == V(Mixed(i, b, c, d))
  {
    hide And, Or, Xor, Not, V, AndWord, OrWord, XorWord, NotWord;
    if i < 16 {
      NotIs(b);
      WordOperators(b, c);
      WordOperators(NotWord(b), d);
      WordOperators(AndWord(b, c), AndWord(NotWord(b), d));
    } else if i < 32 {
      NotIs(d);
      WordOperators(b, d);
      WordOperators(c, NotWord(d));
      WordOperators(AndWord(b, d), AndWord(c, NotWord(d)));
    } else if i < 48 {
      WordOperators(b, c);
      WordOperators(XorWord(b, c), d);
    } else {
      NotIs(d);
      WordOperators(b, NotWord(d));
      WordOperators(c, OrWord(b, NotWord(d)));
    }
  }

  lemma AddMod(y: nat, z: Word)
    ensures (y % M + z) % M == (y + z) % M
  {
    var s := y % M + z;
    DivUnique(y + z, M, y / M + s / M, s % M);
  }

  lemma AddThree(a: Word, f: Word, x: Word, ac: Word)
    ensures Add(a, Add(Add(f, x), ac)) == (a + f + x + ac) % M
  {
    AddMod(f + x, ac);
    AddMod(f + x + ac, a);
  }

  // ----- one step

  /** The state of four words of bits. */
  function S4(a: bv32, b: bv32, c: bv32, d: bv32): State
  {
    State(V(a), V(b), V(c), V(d))
  }

  /** For this word, the bytes make up the number that it is. */
  predicate W(u: bv32)
  {
    V(u) == u as int
  }

  /** One step on numbers: f is the word that it mixes, t the sum that it rotates and r the new
      word. */
  lemma TurnWords(st: State, x: seq<Word>, i: nat, f: Word, t: Word, r: Word, p: nat, q: nat)
    requires |x| == 16 && i < 64 && f == MixedWord(i, st.b, st.c, st.d)
    requires 1 <= q && Pow2(S(i)) == p && Pow2(32 - S(i)) == q
    requires t == (st.a + f + x[K(i)] + AC(i)) % M && r == ((t % q) * p + t / q + st.b) % M
    ensures Step(st, x, i) == State(st.d, r, st.b, st.c)
  {
    hide RotL, MixedWord, AC, K, S, Pow2;
    AddThree(st.a, f, x[K(i)], AC(i));
    RotLValue(t, S(i));
  }

  lemma Complement(s: nat)
    requires 1 <= s < 32
    ensures Pow2(32 - s) == 0x1_0000_0000 / Pow2(s)
  {
    Pow2Split(s);
    DivUnique(0x1_0000_0000, Pow2(s), Pow2(32 - s), 0);
  }

  lemma Turn(x: seq<Word>, i: nat, a: bv32, b: bv32, c: bv32, d: bv32, f: bv32, t: Word, r: bv32, p: nat)
    requires |x| == 16 && i < 64 && Steps(INITIAL, x, i) == S4(a, b, c, d) && f == Mixed(i, b, c, d)
    requires t == (V(a) + V(f) + x[K(i)] + AC(i)) % M && 1 <= p == Pow2(S(i)) && 1 <= 0x1_0000_0000 / p
    requires V(r) == (t % (0x1_0000_0000 / p) * p + t / (0x1_0000_0000 / p) + V(b)) % M
    ensures Steps(INITIAL, x, i + 1) == S4(d, r, b, c)
  {
    hide V, Mixed, MixedWord, AC, K, S, Pow2, Step;
    MixedIs(i, b, c, d);
    Complement(S(i));
    TurnWords(Steps(INITIAL, x, i), x, i, V(f), t, V(r), p, 0x1_0000_0000 / p);
  }

  lemma TurnF(x: seq<Word>, i: nat, a: bv32, b: bv32, c: bv32, d: bv32, t: nat, r: bv32, xk: nat, ac: nat, p: nat)
    requires |x| == 16 && 0 <= i < 16 && Steps(INITIAL, x, i) == S4(a, b, c, d)
    requires x[K(i)] == xk && AC(i) == ac && 1 <= p <= 0x100_0000 && Pow2(S(i)) == p
    requires W(a) && W(b) && W((b & c) | (!b & d)) && W(r)
    requires t == (a as int + ((b & c) | (!b & d)) as int + xk + ac) % 0x1_0000_0000
    requires 1 <= 0x1_0000_0000 / p
          && r as int == (t % (0x1_0000_0000 / p) * p + t / (0x1_0000_0000 / p) + b as int) % 0x1_0000_0000
    ensures Steps(INITIAL, x, i + 1) == S4(d, r, b, c)
  {
    hide Steps, S4, K, AC, S, Pow2, V;
    Turn(x, i, a, b, c, d, (b & c) | (!b & d), t, r, p);
  }

  lemma TurnG(x: seq<Word>, i: nat, a: bv32, b: bv32, c: bv32, d: bv32, t: nat, r: bv32, xk: nat, ac: nat, p: nat)
    requires |x| == 16 && 16 <= i < 32 && Steps(INITIAL, x, i) == S4(a, b, c, d)
    requires x[K(i)] == xk && AC(i) == ac && 1 <= p <= 0x100_0000 && Pow2(S(i)) == p
    requires W(a) && W(b) && W((b & d) | (c & !d)) && W(r)
    requires t == (a as int + ((b & d) | (c & !d)) as int + xk + ac) % 0x1_0000_0000
    requires 1 <= 0x1_0000_0000 / p
          && r as int == (t % (0x1_0000_0000 / p) * p + t / (0x1_0000_0000 / p) + b as int) % 0x1_0000_0000
    ensures Steps(INITIAL, x, i + 1) == S4(d, r, b, c)
  {
    hide Steps, S4, K, AC, S, Pow2, V;
    Turn(x, i, a, b, c, d, (b & d) | (c & !d), t, r, p);
  }

  lemma TurnH(x: seq<Word>, i: nat, a: bv32, b: bv32, c: bv32, d: bv32, t: nat, r: bv32, xk: nat, ac: nat, p: nat)
    requires |x| == 16 && 32 <= i < 48 && Steps(INITIAL, x, i) == S4(a, b, c, d)
    requires x[K(i)] == xk && AC(i) == ac && 1 <= p <= 0x100_0000 && Pow2(S(i)) == p
    requires W(a) && W(b) && W(b ^ c ^ d) && W(r)
    requires t == (a as int + (b ^ c ^ d) as int + xk + ac) % 0x1_0000_0000
    requires 1 <= 0x1_0000_0000 / p
          && r as int == (t % (0x1_0000_0000 / p) * p + t / (0x1_0000_0000 / p) + b as int) % 0x1_0000_0000
    ensures Steps(INITIAL, x, i + 1) == S4(d, r, b, c)
  {
    hide Steps, S4, K, AC, S, Pow2, V;
    Turn(x, i, a, b, c, d, b ^ c ^ d, t, r, p);
  }

  lemma TurnI(x: seq<Word>, i: nat, a: bv32, b: bv32, c: bv32, d: bv32, t: nat, r: bv32, xk: nat, ac: nat, p: nat)
    requires |x| == 16 && 48 <= i < 64 && Steps(INITIAL, x, i) == S4(a, b, c, d)
    requires x[K(i)] == xk && AC(i) == ac && 1 <= p <= 0x100_0000 && Pow2(S(i)) == p
    requires W(a) && W(b) && W(c ^ (b | !d)) && W(r)
    requires t == (a as int + (c ^ (b | !d)) as int + xk + ac) % 0x1_0000_0000
    requires 1 <= 0x1_0000_0000 / p
          && r as int == (t % (0x1_0000_0000 / p) * p + t / (0x1_0000_0000 / p) + b as int) % 0x1_0000_0000
    ensures Steps(INITIAL, x, i + 1) == S4(d, r, b, c)
  {
    hide Steps, S4, K, AC, S, Pow2, V;
    Turn(x, i, a, b, c, d, c ^ (b | !d), t, r, p);
  }

  lemma Rotations()
    ensures Pow2(4) == 16 && Pow2(5) == 32 && Pow2(6) == 64 && Pow2(7) == 128
    ensures Pow2(9) == 512 && Pow2(10) == 1024 && Pow2(11) == 2048 && Pow2(12) == 4096
    ensures Pow2(14) == 16384 && Pow2(15) == 32768 && Pow2(16) == 65536 && Pow2(17) == 131072
    ensures Pow2(20) == 1048576 && Pow2(21) == 2097152 && Pow2(22) == 4194304 && Pow2(23) == 8388608
  {
    hide Pow2;
    Pow2Step(0);
    Pow2Step(1); Pow2Step(2); Pow2Step(3); Pow2Step(4); Pow2Step(5); Pow2Step(6); Pow2Step(7);
    Pow2Step(8); Pow2Step(9); Pow2Step(10); Pow2Step(11); Pow2Step(12); Pow2Step(13); Pow2Step(14);
    Pow2Step(15); Pow2Step(16); Pow2Step(17); Pow2Step(18); Pow2Step(19); Pow2Step(20); Pow2Step(21);
    Pow2Step(22); Pow2Step(23);
  }

  lemma Table00()
    ensures AC(0) == 0xd76aa478 && K(0) == 0 && S(0) == 7
    ensures AC(1) == 0xe8c7b756 && K(1) == 1 && S(1) == 12
    ensures AC(2) == 0x242070db && K(2) == 2 && S(2) == 17
    ensures AC(3) == 0xc1bdceee && K(3) == 3 && S(3) == 22
    ensures AC(4) == 0xf57c0faf && K(4) == 4 && S(4) == 7
    ensures AC(5) == 0x4787c62a && K(5) == 5 && S(5) == 12
    ensures AC(6) == 0xa8304613 && K(6) == 6 && S(6) == 17
    ensures AC(7) == 0xfd469501 && K(7) == 7 && S(7) == 22
  {
  }

  lemma Table08()
    ensures AC(8) == 0x698098d8 && K(8) == 8 && S(8) == 7
    ensures AC(9) == 0x8b44f7af && K(9) == 9 && S(9) == 12
    ensures AC(10) == 0xffff5bb1 && K(10) == 10 && S(10) == 17
    ensures AC(11) == 0x895cd7be && K(11) == 11 && S(11) == 22
    ensures AC(12) == 0x6b901122 && K(12) == 12 && S(12) == 7
    ensures AC(13) == 0xfd987193 && K(13) == 13 && S(13) == 12
    ensures AC(14) == 0xa679438e && K(14) == 14 && S(14) == 17
    ensures AC(15) == 0x49b40821 && K(15) == 15 && S(15) == 22
  {
  }

  lemma Table16()
    ensures AC(16) == 0xf61e2562 && K(16) == 1 && S(16) == 5
    ensures AC(17) == 0xc040b340 && K(17) == 6 && S(17) == 9
    ensures AC(18) == 0x265e5a51 && K(18) == 11 && S(18) == 14
    ensures AC(19) == 0xe9b6c7aa && K(19) == 0 && S(19) == 20
    ensures AC(20) == 0xd62f105d && K(20) == 5 && S(20) == 5
    ensures AC(21) == 0x02441453 && K(21) == 10 && S(21) == 9
    ensures AC(22) == 0xd8a1e681 && K(22) == 15 && S(22) == 14
    ensures AC(23) == 0xe7d3fbc8 && K(23) == 4 && S(23) == 20
  {
  }

  lemma Table24()
    ensures AC(24) == 0x21e1cde6 && K(24) == 9 && S(24) == 5
    ensures AC(25) == 0xc33707d6 && K(25) == 14 && S(25) == 9
    ensures AC(26) == 0xf4d50d87 && K(26) == 3 && S(26) == 14
    ensures AC(27) == 0x455a14ed && K(27) == 8 && S(27) == 20
    ensures AC(28) == 0xa9e3e905 && K(28) == 13 && S(28) == 5
    ensures AC(29) == 0xfcefa3f8 && K(29) == 2 && S(29) == 9
    ensures AC(30) == 0x676f02d9 && K(30) == 7 && S(30) == 14
    ensures AC(31) == 0x8d2a4c8a && K(31) == 12 && S(31) == 20
  {
  }

  lemma Table32()
    ensures AC(32) == 0xfffa3942 && K(32) == 5 && S(32) == 4
    ensures AC(33) == 0x8771f681 && K(33) == 8 && S(33) == 11
    ensures AC(34) == 0x6d9d6122 && K(34) == 11 && S(34) == 16
    ensures AC(35) == 0xfde5380c && K(35) == 14 && S(35) == 23
    ensures AC(36) == 0xa4beea44 && K(36) == 1 && S(36) == 4
    ensures AC(37) == 0x4bdecfa9 && K(37) == 4 && S(37) == 11
    ensures AC(38) == 0xf6bb4b60 && K(38) == 7 && S(38) == 16
    ensures AC(39) == 0xbebfbc70 && K(39) == 10 && S(39) == 23
  {
  }

  lemma Table40()
    ensures AC(40) == 0x289b7ec6 && K(40) == 13 && S(40) == 4
    ensures AC(41) == 0xeaa127fa && K(41) == 0 && S(41) == 11
    ensures AC(42) == 0xd4ef3085 && K(42) == 3 && S(42) == 16
    ensures AC(43) == 0x04881d05 && K(43) == 6 && S(43) == 23
    ensures AC(44) == 0xd9d4d039 && K(44) == 9 && S(44) == 4
    ensures AC(45) == 0xe6db99e5 && K(45) == 12 && S(45) == 11
    ensures AC(46) == 0x1fa27cf8 && K(46) == 15 && S(46) == 16
    ensures AC(47) == 0xc4ac5665 && K(47) == 2 && S(47) == 23
  {
  }

  lemma Table48()
    ensures AC(48) == 0xf4292244 && K(48) == 0 && S(48) == 6
    ensures AC(49) == 0x432aff97 && K(49) == 7 && S(49) == 10
    ensures AC(50) == 0xab9423a7 && K(50) == 14 && S(50) == 15
    ensures AC(51) == 0xfc93a039 && K(51) == 5 && S(51) == 21
    ensures AC(52) == 0x655b59c3 && K(52) == 12 && S(52) == 6
    ensures AC(53) == 0x8f0ccc92 && K(53) == 3 && S(53) == 10
    ensures AC(54) == 0xffeff47d && K(54) == 10 && S(54) == 15
    ensures AC(55) == 0x85845dd1 && K(55) == 1 && S(55) == 21
  {
  }

  lemma Table56()
    ensures AC(56) == 0x6fa87e4f && K(56) == 8 && S(56) == 6
    ensures AC(57) == 0xfe2ce6e0 && K(57) == 15 && S(57) == 10
    ensures AC(58) == 0xa3014314 && K(58) == 6 && S(58) == 15
    ensures AC(59) == 0x4e0811a1 && K(59) == 13 && S(59) == 21
    ensures AC(60) == 0xf7537e82 && K(60) == 4 && S(60) == 6
    ensures AC(61) == 0xbd3af235 && K(61) == 11 && S(61) == 10
    ensures AC(62) == 0x2ad7d2bb && K(62) == 2 && S(62) == 15
    ensures AC(63) == 0xeb86d391 && K(63) == 9 && S(63) == 21
  {
  }

  lemma NoSteps(x: seq<Word>)
    requires |x| == 16
    ensures Steps(INITIAL, x, 0) == INITIAL
  {
  }

  // ----- the empty message

  predicate EmptyWords(x: seq<Word>)
  {
    && |x| == 16
    && x[0] == 0x80 && x[1] == 0x0 && x[2] == 0x0 && x[3] == 0x0
    && x[4] == 0x0 && x[5] == 0x0 && x[6] == 0x0 && x[7] == 0x0
    && x[8] == 0x0 && x[9] == 0x0 && x[10] == 0x0 && x[11] == 0x0
    && x[12] == 0x0 && x[13] == 0x0 && x[14] == 0x0 && x[15] == 0x0
  }

  lemma Empty00(x: seq<Word>)
    requires EmptyWords(x) && Steps(INITIAL, x, 0) == S4(0x67452301, 0xefcdab89, 0x98badcfe, 0x10325476)
    ensures Steps(INITIAL, x, 4) == S4(0xa5202774, 0x1b163203, 0xe7f06b23, 0xf59592dd)
  {
    hide Steps, S4, Pow2, AC, K, S;
    Rotations();
    Table00();
    TurnF(x, 0, 0x67452301, 0xefcdab89, 0x98badcfe, 0x10325476, 0xd76aa4f7, 0xa5202774, 0x80, 0xd76aa478, 128);
    TurnF(x, 1, 0x10325476, 0xa5202774, 0xefcdab89, 0x98badcfe, 0xb6950756, 0xf59592dd, 0x0, 0xe8c7b756, 4096);
    TurnF(x, 2, 0x98badcfe, 0xf59592dd, 0xa5202774, 0xefcdab89, 0x6c23792d, 0xe7f06b23, 0x0, 0x242070db, 131072);
    TurnF(x, 3, 0xefcdab89, 0xe7f06b23, 0xf59592dd, 0xa5202774, 0x971b80cc, 0x1b163203, 0x0, 0xc1bdceee, 4194304);
  }

  lemma Empty04(x: seq<Word>)
    requires EmptyWords(x) && Steps(INITIAL, x, 4) == S4(0xa5202774, 0x1b163203, 0xe7f06b23, 0xf59592dd)
    ensures Steps(INITIAL, x, 8) == S4(0x32033344, 0x9bc13ce9, 0xf5b158db, 0x2f35d494)
  {
    hide Steps, S4, Pow2, AC, K, S;
    Rotations();
    Table00();
    TurnF(x, 4, 0xa5202774, 0x1b163203, 0xe7f06b23, 0xf59592dd, 0x822dda02, 0x32033344, 0x0, 0xf57c0faf, 128);
    TurnF(x, 5, 0xf59592dd, 0x32033344, 0x1b163203, 0xe7f06b23, 0x150fd32a, 0x2f35d494, 0x0, 0x4787c62a, 4096);
    TurnF(x, 6, 0xe7f06b23, 0x2f35d494, 0x32033344, 0x1b163203, 0xc223e33d, 0xf5b158db, 0x0, 0xa8304613, 131072);
    TurnF(x, 7, 0x1b163203, 0xf5b158db, 0x2f35d494, 0x32033344, 0x3f903a98, 0x9bc13ce9, 0x0, 0xfd469501, 4194304);
  }

  lemma Empty08(x: seq<Word>)
    requires EmptyWords(x) && Steps(INITIAL, x, 8) == S4(0x32033344, 0x9bc13ce9, 0xf5b158db, 0x2f35d494)
    ensures Steps(INITIAL, x, 12) == S4(0x3893b991, 0x70768a29, 0xe1ef0576, 0xfce4a312)
  {
    hide Steps, S4, Pow2, AC, K, S;
    Rotations();
    Table08();
    TurnF(x, 8, 0x32033344, 0x9bc13ce9, 0xf5b158db, 0x2f35d494, 0x5139a4f9, 0x3893b991, 0x0, 0x698098d8, 128);
    TurnF(x, 9, 0x2f35d494, 0x3893b991, 0x9bc13ce9, 0xf5b158db, 0x981c450e, 0xfce4a312, 0x0, 0x8b44f7af, 4096);
    TurnF(x, 10, 0xf5b158db, 0xfce4a312, 0x3893b991, 0x9bc13ce9, 0x31327285, 0xe1ef0576, 0x0, 0xffff5bb1, 131072);
    TurnF(x, 11, 0x9bc13ce9, 0xe1ef0576, 0xfce4a312, 0x3893b991, 0x1e12ce3a, 0x70768a29, 0x0, 0x895cd7be, 4194304);
  }

  lemma Empty12(x: seq<Word>)
    requires EmptyWords(x) && Steps(INITIAL, x, 12) == S4(0x3893b991, 0x70768a29, 0xe1ef0576, 0xfce4a312)
    ensures Steps(INITIAL, x, 16) == S4(0xf56c7cf1, 0xd6819c6a, 0x5aa53f75, 0x374943a7)
  {
    hide Steps, S4, Pow2, AC, K, S;
    Rotations();
    Table08();
    TurnF(x, 12, 0x3893b991, 0x70768a29, 0xe1ef0576, 0xfce4a312, 0x9109ebe5, 0xf56c7cf1, 0x0, 0x6b901122, 128);
    TurnF(x, 13, 0xfce4a312, 0xf56c7cf1, 0x70768a29, 0xe1ef0576, 0x6b641dcc, 0x374943a7, 0x0, 0xfd987193, 4096);
    TurnF(x, 14, 0xe1ef0576, 0x374943a7, 0xf56c7cf1, 0x70768a29, 0xfde711ad, 0x5aa53f75, 0x0, 0xa679438e, 131072);
    TurnF(x, 15, 0x70768a29, 0x5aa53f75, 0x374943a7, 0xf56c7cf1, 0x7173d5ef, 0xd6819c6a, 0x0, 0x49b40821, 4194304);
  }

  lemma Empty16(x: seq<Word>)
    requires EmptyWords(x) && Steps(INITIAL, x, 16) == S4(0xf56c7cf1, 0xd6819c6a, 0x5aa53f75, 0x374943a7)
    ensures Steps(INITIAL, x, 20) == S4(0x1c7d7513, 0xbd782e17, 0xc095f13a, 0x7bd57a3a)
  {
    hide Steps, S4, Pow2, AC, K, S;
    Rotations();
    Table16();
    TurnG(x, 16, 0xf56c7cf1, 0xd6819c6a, 0x5aa53f75, 0x374943a7, 0x4a2fdec5, 0x1c7d7513, 0x0, 0xf61e2562, 32);
    TurnG(x, 17, 0x374943a7, 0x1c7d7513, 0xd6819c6a, 0x5aa53f75, 0x93afac02, 0x7bd57a3a, 0x0, 0xc040b340, 512);
    TurnG(x, 18, 0x5aa53f75, 0x7bd57a3a, 0x1c7d7513, 0xd6819c6a, 0xdc011301, 0xc095f13a, 0x0, 0x265e5a51, 16384);
    TurnG(x, 19, 0xd6819c6a, 0xc095f13a, 0x7bd57a3a, 0x1c7d7513, 0x23cddfce, 0xbd782e17, 0x80, 0xe9b6c7aa, 1048576);
  }

  lemma Empty20(x: seq<Word>)
    requires EmptyWords(x) && Steps(INITIAL, x, 20) == S4(0x1c7d7513, 0xbd782e17, 0xc095f13a, 0x7bd57a3a)
    ensures Steps(INITIAL, x, 24) == S4(0x3d1e3e6c, 0xe422531a, 0xeb41643e, 0x68b7b3e3)
  {
    hide Steps, S4, Pow2, AC, K, S;
    Rotations();
    Table16();
    TurnG(x, 20, 0x1c7d7513, 0xbd782e17, 0xc095f13a, 0x7bd57a3a, 0xabfd3082, 0x3d1e3e6c, 0x0, 0xd62f105d, 32);
    TurnG(x, 21, 0x7bd57a3a, 0x3d1e3e6c, 0xbd782e17, 0xc095f13a, 0xbb95ccba, 0x68b7b3e3, 0x0, 0x02441453, 512);
    TurnG(x, 22, 0xc095f13a, 0x68b7b3e3, 0x3d1e3e6c, 0xbd782e17, 0xc16e0a26, 0xeb41643e, 0x0, 0xd8a1e681, 16384);
    TurnG(x, 23, 0xbd782e17, 0xeb41643e, 0x68b7b3e3, 0x3d1e3e6c, 0x0eedcf8e, 0xe422531a, 0x0, 0xe7d3fbc8, 1048576);
  }

  lemma Empty24(x: seq<Word>)
    requires EmptyWords(x) && Steps(INITIAL, x, 24) == S4(0x3d1e3e6c, 0xe422531a, 0xeb41643e, 0x68b7b3e3)
    ensures Steps(INITIAL, x, 28) == S4(0x306ec122, 0xa0572807, 0xa3c663da, 0xd28c77c2)
  {
    hide Steps, S4, Pow2, AC, K, S;
    Rotations();
    Table24();
    TurnG(x, 24, 0x3d1e3e6c, 0xe422531a, 0xeb41643e, 0x68b7b3e3, 0x42626370, 0x306ec122, 0x0, 0x21e1cde6, 32);
    TurnG(x, 25, 0x68b7b3e3, 0x306ec122, 0xe422531a, 0xeb41643e, 0x50510edb, 0xd28c77c2, 0x0, 0xc33707d6, 512);
    TurnG(x, 26, 0xeb41643e, 0xd28c77c2, 0x306ec122, 0xe422531a, 0xb06344e7, 0xa3c663da, 0x0, 0xf4d50d87, 16384);
    TurnG(x, 27, 0xe422531a, 0xa3c663da, 0xd28c77c2, 0x306ec122, 0x0c42dfc9, 0xa0572807, 0x0, 0x455a14ed, 1048576);
  }

  lemma Empty28(x: seq<Word>)
    requires EmptyWords(x) && Steps(INITIAL, x, 28) == S4(0x306ec122, 0xa0572807, 0xa3c663da, 0xd28c77c2)
    ensures Steps(INITIAL, x, 32) == S4(0x13707036, 0xa2205f1f, 0x1c31c384, 0xae7813db)
  {
    hide Steps, S4, Pow2, AC, K, S;
    Rotations();
    Table24();
    TurnG(x, 28, 0x306ec122, 0xa0572807, 0xa3c663da, 0xd28c77c2, 0x7b98ca41, 0x13707036, 0x0, 0xa9e3e905, 32);
    TurnG(x, 29, 0xd28c77c2, 0x13707036, 0xa0572807, 0xa3c663da, 0xd2cd83d1, 0xae7813db, 0x0, 0xfcefa3f8, 512);
    TurnG(x, 30, 0xa3c663da, 0xae7813db, 0x13707036, 0xa0572807, 0xbea5b6e6, 0x1c31c384, 0x0, 0x676f02d9, 16384);
    TurnG(x, 31, 0xa0572807, 0x1c31c384, 0xae7813db, 0x13707036, 0xe9b9b85e, 0xa2205f1f, 0x0, 0x8d2a4c8a, 1048576);
  }

  lemma Empty32(x: seq<Word>)
    requires EmptyWords(x) && Steps(INITIAL, x, 32) == S4(0x13707036, 0xa2205f1f, 0x1c31c384, 0xae7813db)
    ensures Steps(INITIAL, x, 36) == S4(0xdf63eaa1, 0x004b6669, 0x12f3e755, 0xc3689f5b)
  {
    hide Steps, S4, Pow2, AC, K, S;
    Rotations();
    Table32();
    TurnH(x, 32, 0x13707036, 0xa2205f1f, 0x1c31c384, 0xae7813db, 0x23d438b8, 0xdf63eaa1, 0x0, 0xfffa3942, 16);
    TurnH(x, 33, 0xae7813db, 0xdf63eaa1, 0xa2205f1f, 0x1c31c384, 0x975c8096, 0xc3689f5b, 0x0, 0x8771f681, 2048);
    TurnH(x, 34, 0x1c31c384, 0xc3689f5b, 0xdf63eaa1, 0xa2205f1f, 0x47fa4f8b, 0x12f3e755, 0x0, 0x6d9d6122, 65536);
    TurnH(x, 35, 0xa2205f1f, 0x12f3e755, 0xc3689f5b, 0xdf63eaa1, 0xaefe29da, 0x004b6669, 0x0, 0xfde5380c, 8388608);
  }

  lemma Empty36(x: seq<Word>)
    requires EmptyWords(x) && Steps(INITIAL, x, 36) == S4(0xdf63eaa1, 0x004b6669, 0x12f3e755, 0xc3689f5b)
    ensures Steps(INITIAL, x, 40) == S4(0x5f7a9b2e, 0xc5dc8c15, 0x91ca4cb7, 0xabc34e16)
  {
    hide Steps, S4, Pow2, AC, K, S;
    Rotations();
    Table32();
    TurnH(x, 36, 0xdf63eaa1, 0x004b6669, 0x12f3e755, 0xc3689f5b, 0x55f2f34c, 0x5f7a9b2e, 0x0, 0xa4beea44, 16);
    TurnH(x, 37, 0xc3689f5b, 0x5f7a9b2e, 0x004b6669, 0x12f3e755, 0x5d098916, 0xabc34e16, 0x0, 0x4bdecfa9, 2048);
    TurnH(x, 38, 0x12f3e755, 0xabc34e16, 0x5f7a9b2e, 0x004b6669, 0xfea1e606, 0x91ca4cb7, 0x0, 0xf6bb4b60, 65536);
    TurnH(x, 39, 0x004b6669, 0x91ca4cb7, 0xabc34e16, 0x5f7a9b2e, 0x247ebc68, 0xc5dc8c15, 0x0, 0xbebfbc70, 8388608);
  }

  lemma Empty40(x: seq<Word>)
    requires EmptyWords(x) && Steps(INITIAL, x, 40) == S4(0x5f7a9b2e, 0xc5dc8c15, 0x91ca4cb7, 0xabc34e16)
    ensures Steps(INITIAL, x, 44) == S4(0x4497169d, 0x0fe32453, 0xfd95f243, 0x76fd93d4)
  {
    hide Steps, S4, Pow2, AC, K, S;
    Rotations();
    Table40();
    TurnH(x, 40, 0x5f7a9b2e, 0xc5dc8c15, 0x91ca4cb7, 0xabc34e16, 0x87eba8a8, 0x4497169d, 0x0, 0x289b7ec6, 16);
    TurnH(x, 41, 0xabc34e16, 0x4497169d, 0xc5dc8c15, 0x91ca4cb7, 0xa6e64ccf, 0x76fd93d4, 0x80, 0xeaa127fa, 2048);
    TurnH(x, 42, 0x91ca4cb7, 0x76fd93d4, 0x4497169d, 0xc5dc8c15, 0x5e6f8698, 0xfd95f243, 0x0, 0xd4ef3085, 65536);
    TurnH(x, 43, 0xc5dc8c15, 0xfd95f243, 0x76fd93d4, 0x4497169d, 0x9a642024, 0x0fe32453, 0x0, 0x04881d05, 8388608);
  }

  lemma Empty44(x: seq<Word>)
    requires EmptyWords(x) && Steps(INITIAL, x, 44) == S4(0x4497169d, 0x0fe32453, 0xfd95f243, 0x76fd93d4)
    ensures Steps(INITIAL, x, 48) == S4(0x3f55edfd, 0xca7d2dbd, 0x68d84ea2, 0x22a31f54)
  {
    hide Steps, S4, Pow2, AC, K, S;
    Rotations();
    Table40();
    TurnH(x, 44, 0x4497169d, 0x0fe32453, 0xfd95f243, 0x76fd93d4, 0xa2f72c9a, 0x3f55edfd, 0x0, 0xd9d4d039, 16);
    TurnH(x, 45, 0x76fd93d4, 0x3f55edfd, 0x0fe32453, 0xfd95f243, 0x2afc69a6, 0x22a31f54, 0x0, 0xe6db99e5, 2048);
    TurnH(x, 46, 0xfd95f243, 0x22a31f54, 0x3f55edfd, 0x0fe32453, 0x2f4e4635, 0x68d84ea2, 0x0, 0x1fa27cf8, 65536);
    TurnH(x, 47, 0x0fe32453, 0x68d84ea2, 0x22a31f54, 0x3f55edfd, 0x49be36c3, 0xca7d2dbd, 0x0, 0xc4ac5665, 8388608);
  }

  lemma Empty48(x: seq<Word>)
    requires EmptyWords(x) && Steps(INITIAL, x, 48) == S4(0x3f55edfd, 0xca7d2dbd, 0x68d84ea2, 0x22a31f54)
    ensures Steps(INITIAL, x, 52) == S4(0x93aa2577, 0x561e0689, 0xcd85b8cb, 0x1688dc85)
  {
    hide Steps, S4, Pow2, AC, K, S;
    Rotations();
    Table48();
    TurnI(x, 48, 0x3f55edfd, 0xca7d2dbd, 0x68d84ea2, 0x22a31f54, 0xeb24b3de, 0x93aa2577, 0x80, 0xf4292244, 64);
    TurnI(x, 49, 0x22a31f54, 0x93aa2577, 0xca7d2dbd, 0x68d84ea2, 0xc3a0b7ad, 0x1688dc85, 0x0, 0x432aff97, 1024);
    TurnI(x, 50, 0x68d84ea2, 0x1688dc85, 0x93aa2577, 0xca7d2dbd, 0xb88d6df9, 0xcd85b8cb, 0x0, 0xab9423a7, 32768);
    TurnI(x, 51, 0xca7d2dbd, 0xcd85b8cb, 0x1688dc85, 0x93aa2577, 0xc26df444, 0x561e0689, 0x0, 0xfc93a039, 2097152);
  }

  lemma Empty52(x: seq<Word>)
    requires EmptyWords(x) && Steps(INITIAL, x, 52) == S4(0x93aa2577, 0x561e0689, 0xcd85b8cb, 0x1688dc85)
    ensures Steps(INITIAL, x, 56) == S4(0x5625a114, 0x1e77fa61, 0x392ad0d0, 0x3450f42b)
  {
    hide Steps, S4, Pow2, AC, K, S;
    Rotations();
    Table48();
    TurnI(x, 52, 0x93aa2577, 0x561e0689, 0xcd85b8cb, 0x1688dc85, 0x2c001e6a, 0x5625a114, 0x0, 0x655b59c3, 64);
    TurnI(x, 53, 0x1688dc85, 0x5625a114, 0x561e0689, 0xcd85b8cb, 0xc5f78ad4, 0x3450f42b, 0x0, 0x8f0ccc92, 1024);
    TurnI(x, 54, 0xcd85b8cb, 0x3450f42b, 0x5625a114, 0x561e0689, 0xb94a09b3, 0x392ad0d0, 0x0, 0xffeff47d, 32768);
    TurnI(x, 55, 0x561e0689, 0x392ad0d0, 0x3450f42b, 0x5625a114, 0x694c8f2a, 0x1e77fa61, 0x0, 0x85845dd1, 2097152);
  }

  lemma Empty56(x: seq<Word>)
    requires EmptyWords(x) && Steps(INITIAL, x, 56) == S4(0x5625a114, 0x1e77fa61, 0x392ad0d0, 0x3450f42b)
    ensures Steps(INITIAL, x, 60) == S4(0x474a9c8c, 0x30130182, 0x36594b14, 0xdfce00bc)
  {
    hide Steps, S4, Pow2, AC, K, S;
    Rotations();
    Table56();
    TurnI(x, 56, 0x5625a114, 0x1e77fa61, 0x392ad0d0, 0x3450f42b, 0xaca34a88, 0x474a9c8c, 0x0, 0x6fa87e4f, 64);
    TurnI(x, 57, 0x3450f42b, 0x474a9c8c, 0x1e77fa61, 0x392ad0d0, 0x0c2620d9, 0xdfce00bc, 0x0, 0xfe2ce6e0, 1024);
    TurnI(x, 58, 0x392ad0d0, 0xdfce00bc, 0x474a9c8c, 0x1e77fa61, 0x94b0ad16, 0x36594b14, 0x0, 0xa3014314, 32768);
    TurnI(x, 59, 0x1e77fa61, 0x36594b14, 0xdfce00bc, 0x474a9c8c, 0xcdb377cd, 0x30130182, 0x0, 0x4e0811a1, 2097152);
  }

  lemma Empty60(x: seq<Word>)
    requires EmptyWords(x) && Steps(INITIAL, x, 60) == S4(0x474a9c8c, 0x30130182, 0x36594b14, 0xdfce00bc)
    ensures Steps(INITIAL, x, 64) == S4(0x7246fad3, 0x14e45506, 0xff4ea3eb, 0x6e10a476)
  {
    hide Steps, S4, Pow2, AC, K, S;
    Rotations();
    Table56();
    TurnI(x, 60, 0x474a9c8c, 0x30130182, 0x36594b14, 0xdfce00bc, 0x4508cfe5, 0x7246fad3, 0x0, 0xf7537e82, 64);
    TurnI(x, 61, 0xdfce00bc, 0x7246fad3, 0x30130182, 0x36594b14, 0x68fef26a, 0x6e10a476, 0x0, 0xbd3af235, 1024);
    TurnI(x, 62, 0x36594b14, 0x6e10a476, 0x7246fad3, 0x30130182, 0xfeeb227b, 0xff4ea3eb, 0x0, 0x2ad7d2bb, 32768);
    TurnI(x, 63, 0x30130182, 0xff4ea3eb, 0x6e10a476, 0x7246fad3, 0xad88d8ac, 0x14e45506, 0x0, 0xeb86d391, 2097152);
  }

  /** All 64 steps. */
  lemma EmptySteps(x: seq<Word>)
    requires EmptyWords(x) && INITIAL == S4(0x67452301, 0xefcdab89, 0x98badcfe, 0x10325476)
    ensures Steps(INITIAL, x, 64) == S4(0x7246fad3, 0x14e45506, 0xff4ea3eb, 0x6e10a476)
  {
    hide S4, Steps;
    NoSteps(x);
    Empty00(x); Empty04(x); Empty08(x); Empty12(x);
    Empty16(x); Empty20(x); Empty24(x); Empty28(x);
    Empty32(x); Empty36(x); Empty40(x); Empty44(x);
    Empty48(x); Empty52(x); Empty56(x); Empty60(x);
  }

  // ----- "abc"

  predicate AbcWords(x: seq<Word>)
  {
    && |x| == 16
    && x[0] == 0x80636261 && x[1] == 0x0 && x[2] == 0x0 && x[3] == 0x0
    && x[4] == 0x0 && x[5] == 0x0 && x[6] == 0x0 && x[7] == 0x0
    && x[8] == 0x0 && x[9] == 0x0 && x[10] == 0x0 && x[11] == 0x0
    && x[12] == 0x0 && x[13] == 0x0 && x[14] == 0x18 && x[15] == 0x0
  }

  lemma Abc00(x: seq<Word>)
    requires AbcWords(x) && Steps(INITIAL, x, 0) == S4(0x67452301, 0xefcdab89, 0x98badcfe, 0x10325476)
    ensures Steps(INITIAL, x, 4) == S4(0xd6d117b4, 0x7ad956f2, 0x2f6fbd72, 0x344a8432)
  {
    hide Steps, S4, Pow2, AC, K, S;
    Rotations();
    Table00();
    TurnF(x, 0, 0x67452301, 0xefcdab89, 0x98badcfe, 0x10325476, 0x57ce06d8, 0xd6d117b4, 0x80636261, 0xd76aa478, 128);
    TurnF(x, 1, 0x10325476, 0xd6d117b4, 0xefcdab89, 0x98badcfe, 0xc7e5d796, 0x344a8432, 0x0, 0xe8c7b756, 4096);
    TurnF(x, 2, 0x98badcfe, 0x344a8432, 0xd6d117b4, 0xefcdab89, 0x9ca07d92, 0x2f6fbd72, 0x0, 0x242070db, 131072);
    TurnF(x, 3, 0xefcdab89, 0x2f6fbd72, 0x344a8432, 0xd6d117b4, 0xa666012d, 0x7ad956f2, 0x0, 0xc1bdceee, 4194304);
  }

  lemma Abc04(x: seq<Word>)
    requires AbcWords(x) && Steps(INITIAL, x, 4) == S4(0xd6d117b4, 0x7ad956f2, 0x2f6fbd72, 0x344a8432)
    ensures Steps(INITIAL, x, 8) == S4(0xc73741ef, 0x928d99f6, 0x207dc67b, 0x8bac3051)
  {
    hide Steps, S4, Pow2, AC, K, S;
    Rotations();
    Table00();
    TurnF(x, 4, 0xd6d117b4, 0x7ad956f2, 0x2f6fbd72, 0x344a8432, 0xfa98bbd5, 0xc73741ef, 0x0, 0xf57c0faf, 128);
    TurnF(x, 5, 0x344a8432, 0xc73741ef, 0x7ad956f2, 0x2f6fbd72, 0xe62c474e, 0x8bac3051, 0x0, 0x4787c62a, 4096);
    TurnF(x, 6, 0x2f6fbd72, 0x8bac3051, 0xc73741ef, 0x7ad956f2, 0xcb154a68, 0x207dc67b, 0x0, 0xa8304613, 131072);
    TurnF(x, 7, 0x7ad956f2, 0x207dc67b, 0x8bac3051, 0xc73741ef, 0x3f4dedc8, 0x928d99f6, 0x0, 0xfd469501, 4194304);
  }

  lemma Abc08(x: seq<Word>)
    requires AbcWords(x) && Steps(INITIAL, x, 8) == S4(0xc73741ef, 0x928d99f6, 0x207dc67b, 0x8bac3051)
    ensures Steps(INITIAL, x, 12) == S4(0x854b3712, 0x5ed49596, 0x3020401c, 0x74e2f284)
  {
    hide Steps, S4, Pow2, AC, K, S;
    Rotations();
    Table08();
    TurnF(x, 8, 0xc73741ef, 0x928d99f6, 0x207dc67b, 0x8bac3051, 0x39e57b3a, 0x854b3712, 0x0, 0x698098d8, 128);
    TurnF(x, 9, 0x8bac3051, 0x854b3712, 0x928d99f6, 0x207dc67b, 0xb72ef97b, 0x74e2f284, 0x0, 0x8b44f7af, 4096);
    TurnF(x, 10, 0x207dc67b, 0x74e2f284, 0x854b3712, 0x928d99f6, 0xa6cc5d9e, 0x3020401c, 0x0, 0xffff5bb1, 131072);
    TurnF(x, 11, 0x928d99f6, 0x3020401c, 0x74e2f284, 0x854b3712, 0xd155e8ba, 0x5ed49596, 0x0, 0x895cd7be, 4194304);
  }

  lemma Abc12(x: seq<Word>)
    requires AbcWords(x) && Steps(INITIAL, x, 12) == S4(0x854b3712, 0x5ed49596, 0x3020401c, 0x74e2f284)
    ensures Steps(INITIAL, x, 16) == S4(0xdda9b9a6, 0x72aff2e0, 0xe396856b, 0xa1051895)
  {
    hide Steps, S4, Pow2, AC, K, S;
    Rotations();
    Table08();
    TurnF(x, 12, 0x854b3712, 0x5ed49596, 0x3020401c, 0x74e2f284, 0x20fdaa48, 0xdda9b9a6, 0x0, 0x6b901122, 128);
    TurnF(x, 13, 0x74e2f284, 0xdda9b9a6, 0x5ed49596, 0x3020401c, 0xeefc35b5, 0xa1051895, 0x0, 0xfd987193, 4096);
    TurnF(x, 14, 0x3020401c, 0xa1051895, 0xdda9b9a6, 0x5ed49596, 0xb66b2148, 0xe396856b, 0x18, 0xa679438e, 131072);
    TurnF(x, 15, 0x5ed49596, 0xe396856b, 0xa1051895, 0xdda9b9a6, 0x65b5d63c, 0x72aff2e0, 0x0, 0x49b40821, 4194304);
  }

  lemma Abc16(x: seq<Word>)
    requires AbcWords(x) && Steps(INITIAL, x, 16) == S4(0xdda9b9a6, 0x72aff2e0, 0xe396856b, 0xa1051895)
    ensures Steps(INITIAL, x, 20) == S4(0x3e9e9126, 0xb5b204e4, 0xe25e1652, 0x4a1d804e)
  {
    hide Steps, S4, Pow2, AC, K, S;
    Rotations();
    Table16();
    TurnG(x, 16, 0xdda9b9a6, 0x72aff2e0, 0xe396856b, 0xa1051895, 0x365f74f2, 0x3e9e9126, 0x0, 0xf61e2562, 32);
    TurnG(x, 17, 0xa1051895, 0x3e9e9126, 0x72aff2e0, 0xe396856b, 0x9405bf77, 0x4a1d804e, 0x0, 0xc040b340, 512);
    TurnG(x, 18, 0xe396856b, 0x4a1d804e, 0x3e9e9126, 0x72aff2e0, 0x58126102, 0xe25e1652, 0x0, 0x265e5a51, 16384);
    TurnG(x, 19, 0x72aff2e0, 0xe25e1652, 0x4a1d804e, 0x3e9e9126, 0x3ee92d35, 0xb5b204e4, 0x80636261, 0xe9b6c7aa,
          1048576);
  }

  lemma Abc20(x: seq<Word>)
    requires AbcWords(x) && Steps(INITIAL, x, 20) == S4(0x3e9e9126, 0xb5b204e4, 0xe25e1652, 0x4a1d804e)
    ensures Steps(INITIAL, x, 24) == S4(0x59a8ffda, 0x47092c07, 0xabfc7920, 0x6d002f1e)
  {
    hide Steps, S4, Pow2, AC, K, S;
    Rotations();
    Table16();
    TurnG(x, 20, 0x3e9e9126, 0xb5b204e4, 0xe25e1652, 0x4a1d804e, 0xb51fb7d7, 0x59a8ffda, 0x0, 0xd62f105d, 32);
    TurnG(x, 21, 0x4a1d804e, 0x59a8ffda, 0xb5b204e4, 0xe25e1652, 0xa209ab97, 0x6d002f1e, 0x0, 0x02441453, 512);
    TurnG(x, 22, 0xe25e1652, 0x6d002f1e, 0x59a8ffda, 0xb5b204e4, 0x2808fbf1, 0xabfc7920, 0x0, 0xd8a1e681, 16384);
    TurnG(x, 23, 0xb5b204e4, 0xabfc7920, 0x6d002f1e, 0x59a8ffda, 0xcb2e79b0, 0x47092c07, 0x0, 0xe7d3fbc8, 1048576);
  }

  lemma Abc24(x: seq<Word>)
    requires AbcWords(x) && Steps(INITIAL, x, 24) == S4(0x59a8ffda, 0x47092c07, 0xabfc7920, 0x6d002f1e)
    ensures Steps(INITIAL, x, 28) == S4(0xb7f268cf, 0x786acb8f, 0xfe1623b1, 0x09388eff)
  {
    hide Steps, S4, Pow2, AC, K, S;
    Rotations();
    Table24();
    TurnG(x, 24, 0x59a8ffda, 0x47092c07, 0xabfc7920, 0x6d002f1e, 0x438749e6, 0xb7f268cf, 0x0, 0x21e1cde6, 32);
    TurnG(x, 25, 0x6d002f1e, 0xb7f268cf, 0x47092c07, 0xabfc7920, 0x1828a313, 0x09388eff, 0x18, 0xc33707d6, 512);
    TurnG(x, 26, 0xabfc7920, 0x09388eff, 0xb7f268cf, 0x47092c07, 0x52cbd376, 0xfe1623b1, 0x0, 0xf4d50d87, 16384);
    TurnG(x, 27, 0x47092c07, 0xfe1623b1, 0x09388eff, 0xb7f268cf, 0x4a7de7a5, 0x786acb8f, 0x0, 0x455a14ed, 1048576);
  }

  lemma Abc28(x: seq<Word>)
    requires AbcWords(x) && Steps(INITIAL, x, 28) == S4(0xb7f268cf, 0x786acb8f, 0xfe1623b1, 0x09388eff)
    ensures Steps(INITIAL, x, 32) == S4(0x790a77fb, 0x726342d3, 0xa62884aa, 0x9f47e4f8)
  {
    hide Steps, S4, Pow2, AC, K, S;
    Rotations();
    Table24();
    TurnG(x, 28, 0xb7f268cf, 0x786acb8f, 0xfe1623b1, 0x09388eff, 0x6004fd63, 0x790a77fb, 0x0, 0xa9e3e905, 32);
    TurnG(x, 29, 0x09388eff, 0x790a77fb, 0x786acb8f, 0xfe1623b1, 0x7e931eb6, 0x9f47e4f8, 0x0, 0xfcefa3f8, 512);
    TurnG(x, 30, 0xfe1623b1, 0x9f47e4f8, 0x790a77fb, 0x786acb8f, 0x7ec81b82, 0xa62884aa, 0x0, 0x676f02d9, 16384);
    TurnG(x, 31, 0x786acb8f, 0xa62884aa, 0x9f47e4f8, 0x790a77fb, 0xabe29cc3, 0x726342d3, 0x0, 0x8d2a4c8a, 1048576);
  }

  lemma Abc32(x: seq<Word>)
    requires AbcWords(x) && Steps(INITIAL, x, 32) == S4(0x790a77fb, 0x726342d3, 0xa62884aa, 0x9f47e4f8)
    ensures Steps(INITIAL, x, 36) == S4(0xb3707ebf, 0x3b0875c7, 0x8d212ff5, 0x60127b2e)
  {
    hide Steps, S4, Pow2, AC, K, S;
    Rotations();
    Table32();
    TurnH(x, 32, 0x790a77fb, 0x726342d3, 0xa62884aa, 0x9f47e4f8, 0xc410d3be, 0xb3707ebf, 0x0, 0xfffa3942, 16);
    TurnH(x, 33, 0x9f47e4f8, 0xb3707ebf, 0x726342d3, 0xa62884aa, 0x8df5943f, 0x60127b2e, 0x0, 0x8771f681, 2048);
    TurnH(x, 34, 0xa62884aa, 0x60127b2e, 0xb3707ebf, 0x726342d3, 0xb4c72d0e, 0x8d212ff5, 0x0, 0x6d9d6122, 65536);
    TurnH(x, 35, 0x726342d3, 0x8d212ff5, 0x60127b2e, 0xb3707ebf, 0xce8ba55b, 0x3b0875c7, 0x18, 0xfde5380c, 8388608);
  }

  lemma Abc36(x: seq<Word>)
    requires AbcWords(x) && Steps(INITIAL, x, 36) == S4(0xb3707ebf, 0x3b0875c7, 0x8d212ff5, 0x60127b2e)
    ensures Steps(INITIAL, x, 40) == S4(0x21b117b9, 0x5a2f5ea5, 0x3575227e, 0x6e7429d5)
  {
    hide Steps, S4, Pow2, AC, K, S;
    Rotations();
    Table32();
    TurnH(x, 36, 0xb3707ebf, 0x3b0875c7, 0x8d212ff5, 0x60127b2e, 0x2e6a8a1f, 0x21b117b9, 0x0, 0xa4beea44, 16);
    TurnH(x, 37, 0x60127b2e, 0x21b117b9, 0x3b0875c7, 0x8d212ff5, 0x43899862, 0x6e7429d5, 0x0, 0x4bdecfa9, 2048);
    TurnH(x, 38, 0x8d212ff5, 0x6e7429d5, 0x21b117b9, 0x3b0875c7, 0xf8a9c700, 0x3575227e, 0x0, 0xf6bb4b60, 65536);
    TurnH(x, 39, 0x3b0875c7, 0x3575227e, 0x6e7429d5, 0x21b117b9, 0x74784e49, 0x5a2f5ea5, 0x0, 0xbebfbc70, 8388608);
  }

  lemma Abc40(x: seq<Word>)
    requires AbcWords(x) && Steps(INITIAL, x, 40) == S4(0x21b117b9, 0x5a2f5ea5, 0x3575227e, 0x6e7429d5)
    ensures Steps(INITIAL, x, 44) == S4(0x11de1779, 0x4c6124f4, 0x31c465ca, 0xfadcaa38)
  {
    hide Steps, S4, Pow2, AC, K, S;
    Rotations();
    Table40();
    TurnH(x, 40, 0x21b117b9, 0x5a2f5ea5, 0x3575227e, 0x6e7429d5, 0x4b7aeb8d, 0x11de1779, 0x0, 0x289b7ec6, 16);
    TurnH(x, 41, 0x6e7429d5, 0x11de1779, 0x5a2f5ea5, 0x3575227e, 0x57fd1fd2, 0xfadcaa38, 0x80636261, 0xeaa127fa, 2048);
    TurnH(x, 42, 0x3575227e, 0xfadcaa38, 0x11de1779, 0x5a2f5ea5, 0xbb9236e7, 0x31c465ca, 0x0, 0xd4ef3085, 65536);
    TurnH(x, 43, 0x5a2f5ea5, 0x31c465ca, 0xfadcaa38, 0x11de1779, 0x397e5435, 0x4c6124f4, 0x0, 0x04881d05, 8388608);
  }

  lemma Abc44(x: seq<Word>)
    requires AbcWords(x) && Steps(INITIAL, x, 44) == S4(0x11de1779, 0x4c6124f4, 0x31c465ca, 0xfadcaa38)
    ensures Steps(INITIAL, x, 48) == S4(0x7f2e507b, 0x7beb9700, 0x8fae6399, 0x99d9679d)
  {
    hide Steps, S4, Pow2, AC, K, S;
    Rotations();
    Table40();
    TurnH(x, 44, 0x11de1779, 0x4c6124f4, 0x31c465ca, 0xfadcaa38, 0x732cd2b8, 0x7f2e507b, 0x0, 0xd9d4d039, 16);
    TurnH(x, 45, 0xfadcaa38, 0x7f2e507b, 0x4c6124f4, 0x31c465ca, 0xe4435562, 0x99d9679d, 0x0, 0xe6db99e5, 2048);
    TurnH(x, 46, 0x31c465ca, 0x99d9679d, 0x7f2e507b, 0x4c6124f4, 0xfbfcf5d4, 0x8fae6399, 0x0, 0x1fa27cf8, 65536);
    TurnH(x, 47, 0x4c6124f4, 0x8fae6399, 0x99d9679d, 0x7f2e507b, 0x7a66cfd8, 0x7beb9700, 0x0, 0xc4ac5665, 8388608);
  }

  lemma Abc48(x: seq<Word>)
    requires AbcWords(x) && Steps(INITIAL, x, 48) == S4(0x7f2e507b, 0x7beb9700, 0x8fae6399, 0x99d9679d)
    ensures Steps(INITIAL, x, 52) == S4(0x7b201df8, 0x8bf025c4, 0xb298cefd, 0xf4e8e96e)
  {
    hide Steps, S4, Pow2, AC, K, S;
    Rotations();
    Table48();
    TurnI(x, 48, 0x7f2e507b, 0x7beb9700, 0x8fae6399, 0x99d9679d, 0xe3fcd21b, 0x7b201df8, 0x80636261, 0xf4292244, 64);
    TurnI(x, 49, 0x99d9679d, 0x7b201df8, 0x7beb9700, 0x8fae6399, 0xdd9e7232, 0xf4e8e96e, 0x0, 0x432aff97, 1024);
    TurnI(x, 50, 0x8fae6399, 0xf4e8e96e, 0x7b201df8, 0x7beb9700, 0xcb1f7b5f, 0xb298cefd, 0x18, 0xab9423a7, 32768);
    TurnI(x, 51, 0x7beb9700, 0xb298cefd, 0xf4e8e96e, 0x7b201df8, 0xbab63eca, 0x8bf025c4, 0x0, 0xfc93a039, 2097152);
  }

  lemma Abc52(x: seq<Word>)
    requires AbcWords(x) && Steps(INITIAL, x, 52) == S4(0x7b201df8, 0x8bf025c4, 0xb298cefd, 0xf4e8e96e)
    ensures Steps(INITIAL, x, 56) == S4(0x06cc5e8a, 0x3bfa2c27, 0x7d632dd0, 0x5b0d97aa)
  {
    hide Steps, S4, Pow2, AC, K, S;
    Rotations();
    Table48();
    TurnI(x, 52, 0x7b201df8, 0x8bf025c4, 0xb298cefd, 0xf4e8e96e, 0x19eb70e3, 0x06cc5e8a, 0x0, 0x655b59c3, 64);
    TurnI(x, 53, 0xf4e8e96e, 0x06cc5e8a, 0x8bf025c4, 0xb298cefd, 0x4815104e, 0x5b0d97aa, 0x0, 0x8f0ccc92, 1024);
    TurnI(x, 54, 0xb298cefd, 0x5b0d97aa, 0x06cc5e8a, 0x8bf025c4, 0x2c4c44ab, 0x7d632dd0, 0x0, 0xffeff47d, 32768);
    TurnI(x, 55, 0x8bf025c4, 0x7d632dd0, 0x5b0d97aa, 0x06cc5e8a, 0xb7f2bdf4, 0x3bfa2c27, 0x0, 0x85845dd1, 2097152);
  }

  lemma Abc56(x: seq<Word>)
    requires AbcWords(x) && Steps(INITIAL, x, 56) == S4(0x06cc5e8a, 0x3bfa2c27, 0x7d632dd0, 0x5b0d97aa)
    ensures Steps(INITIAL, x, 60) == S4(0x7f81cc35, 0x7327d604, 0x4f9dbe3f, 0x094454ab)
  {
    hide Steps, S4, Pow2, AC, K, S;
    Rotations();
    Table56();
    TurnI(x, 56, 0x06cc5e8a, 0x3bfa2c27, 0x7d632dd0, 0x5b0d97aa, 0x390e1e80, 0x7f81cc35, 0x0, 0x6fa87e4f, 64);
    TurnI(x, 57, 0x5b0d97aa, 0x7f81cc35, 0x3bfa2c27, 0x7d632dd0, 0x1da270a2, 0x094454ab, 0x0, 0xfe2ce6e0, 1024);
    TurnI(x, 58, 0x7d632dd0, 0x094454ab, 0x7f81cc35, 0x3bfa2c27, 0xd3288cb2, 0x4f9dbe3f, 0x0, 0xa3014314, 32768);
    TurnI(x, 59, 0x3bfa2c27, 0x4f9dbe3f, 0x094454ab, 0x7f81cc35, 0x50be291c, 0x7327d604, 0x0, 0x4e0811a1, 2097152);
  }

  lemma Abc60(x: seq<Word>)
    requires AbcWords(x) && Steps(INITIAL, x, 60) == S4(0x7f81cc35, 0x7327d604, 0x4f9dbe3f, 0x094454ab)
    ensures Steps(INITIAL, x, 64) == S4(0x310ade8f, 0xc08226b3, 0xe484b9d8, 0x624d8cb2)
  {
    hide Steps, S4, Pow2, AC, K, S;
    Rotations();
    Table56();
    TurnI(x, 60, 0x7f81cc35, 0x7327d604, 0x4f9dbe3f, 0x094454ab, 0x2ef78c22, 0x310ade8f, 0x0, 0xf7537e82, 64);
    TurnI(x, 61, 0x094454ab, 0x310ade8f, 0x7327d604, 0x4f9dbe3f, 0x88cc50ab, 0x624d8cb2, 0x0, 0xbd3af235, 1024);
    TurnI(x, 62, 0x4f9dbe3f, 0x624d8cb2, 0x310ade8f, 0x7327d604, 0x5a4d046e, 0xe484b9d8, 0x0, 0x2ad7d2bb, 32768);
    TurnI(x, 63, 0x7327d604, 0xe484b9d8, 0x624d8cb2, 0x310ade8f, 0xeb66dedf, 0xc08226b3, 0x0, 0xeb86d391, 2097152);
  }

  /** All 64 steps. */
  lemma AbcSteps(x: seq<Word>)
    requires AbcWords(x) && INITIAL == S4(0x67452301, 0xefcdab89, 0x98badcfe, 0x10325476)
    ensures Steps(INITIAL, x, 64) == S4(0x310ade8f, 0xc08226b3, 0xe484b9d8, 0x624d8cb2)
  {
    hide S4, Steps;
    NoSteps(x);
    Abc00(x); Abc04(x); Abc08(x); Abc12(x);
    Abc16(x); Abc20(x); Abc24(x); Abc28(x);
    Abc32(x); Abc36(x); Abc40(x); Abc44(x);
    Abc48(x); Abc52(x); Abc56(x); Abc60(x);
  }

  // ----- the digests

  lemma SumIs(a: bv32, b: bv32, r: bv32)
    requires W(a) && W(b) && W(r) && r as int == (a as int + b as int) % 0x1_0000_0000
    ensures Add(V(a), V(b)) == V(r)
  {
    hide V;
  }

  lemma InitialWords()
    ensures INITIAL == S4(0x67452301, 0xefcdab89, 0x98badcfe, 0x10325476)
  {
  }

  lemma BytesOut(u: bv32, b: seq<Byte>)
    requires |b| == 4 && W(u)
    requires u as int == b[0] as int + 0x100 * (b[1] as int) + 0x1_0000 * (b[2] as int) + 0x100_0000 * (b[3] as int)
    ensures EncodeWord(V(u)) == b
  {
    hide V, EncodeWord;
    ByteRoundTrip(b);
  }

  lemma StateOut(a: bv32, b: bv32, c: bv32, d: bv32)
    ensures EncodeState(S4(a, b, c, d)) == EncodeWord(V(a)) + EncodeWord(V(b)) + EncodeWord(V(c)) + EncodeWord(V(d))
  {
    hide V, EncodeWord, Encode;
    var one, two, three: seq<Word> := [V(a)], [V(a), V(b)], [V(a), V(b), V(c)];
    NothingToDecode();
    EncodeSnoc([], V(a));
    EncodeSnoc(one, V(b));
    EncodeSnoc(two, V(c));
    EncodeSnoc(three, V(d));
    assert [] + one == one && one + [V(b)] == two && two + [V(c)] == three;
    assert three + [V(d)] == [V(a), V(b), V(c), V(d)];
  }

  lemma {:induction false} DecodeAt(b: seq<Byte>, k: nat)
    requires |b| % 4 == 0 && 4 * k < |b|
    ensures Decode(b)[k] as int
         == b[4 * k] as int + 0x100 * (b[4 * k + 1] as int) + 0x1_0000 * (b[4 * k + 2] as int)
            + 0x100_0000 * (b[4 * k + 3] as int)
  {
    var c := b[..|b| - 4];
    if 4 * k < |c| {
      DecodeAt(c, k);
    }
  }

  lemma LengthBytes(n: nat)
    requires 8 * n < 0x100
    ensures Encode(LengthWords(n)) == [8 * n, 0, 0, 0, 0, 0, 0, 0]
  {
    var w: seq<Word> := [8 * n, 0];
    var low: seq<Byte> := [8 * n, 0, 0, 0];
    assert LengthWords(n) == w;
    NothingToDecode();
    EncodeSnoc([], w[0]);
    EncodeSnoc([w[0]], w[1]);
    assert [] + [w[0]] == [w[0]] && [w[0]] + [w[1]] == w;
    ByteRoundTrip(low);
    ByteRoundTrip([0, 0, 0, 0]);
  }

  /** The padded message, byte by byte. */
  lemma PaddedBytes(m: seq<Byte>)
    requires 8 * |m| < 0x100
    ensures var p, n := Padded(m), |m| + PadLen(|m|);
            && |p| == n + 8 && m <= p && p[|m|] == 0x80
            && p[n] == 8 * |m| && forall i :: |m| < i < |p| && i != n ==> p[i] == 0
  {
    LengthBytes(|m|);
  }

  lemma FoldOne(p: seq<Byte>)
    requires |p| == 64
    ensures Fold(INITIAL, p) == Compress(INITIAL, p)
  {
    hide Compress;
    FoldBlock(INITIAL, [], p);
    assert [] + p == p;
  }

  lemma EmptySums()
    ensures Add(V(0x67452301), V(0x7246fad3)) == V(0xd98c1dd4)
    ensures Add(V(0xefcdab89), V(0x14e45506)) == V(0x04b2008f)
    ensures Add(V(0x98badcfe), V(0xff4ea3eb)) == V(0x980980e9)
    ensures Add(V(0x10325476), V(0x6e10a476)) == V(0x7e42f8ec)
  {
    SumIs(0x67452301, 0x7246fad3, 0xd98c1dd4);
    SumIs(0xefcdab89, 0x14e45506, 0x04b2008f);
    SumIs(0x98badcfe, 0xff4ea3eb, 0x980980e9);
    SumIs(0x10325476, 0x6e10a476, 0x7e42f8ec);
  }

  lemma EmptyCompress(block: seq<Byte>)
    requires |block| == 64 && EmptyWords(Decode(block))
    ensures Compress(INITIAL, block) == S4(0xd98c1dd4, 0x04b2008f, 0x980980e9, 0x7e42f8ec)
  {
    hide Steps, W;
    InitialWords();
    EmptySteps(Decode(block));
    EmptySums();
  }

  lemma EmptyBlock()
    ensures var p := Padded([]); |p| == 64 && EmptyWords(Decode(p))
  {
    hide Padded, Decode;
    PaddedBytes([]);
    var p := Padded([]);
    DecodeAt(p, 0); DecodeAt(p, 1); DecodeAt(p, 2); DecodeAt(p, 3);
    DecodeAt(p, 4); DecodeAt(p, 5); DecodeAt(p, 6); DecodeAt(p, 7);
    DecodeAt(p, 8); DecodeAt(p, 9); DecodeAt(p, 10); DecodeAt(p, 11);
    DecodeAt(p, 12); DecodeAt(p, 13); DecodeAt(p, 14); DecodeAt(p, 15);
  }

  lemma EmptyOut()
    ensures EncodeWord(V(0xd98c1dd4)) == [0xd4, 0x1d, 0x8c, 0xd9]
    ensures EncodeWord(V(0x04b2008f)) == [0x8f, 0x00, 0xb2, 0x04]
    ensures EncodeWord(V(0x980980e9)) == [0xe9, 0x80, 0x09, 0x98]
    ensures EncodeWord(V(0x7e42f8ec)) == [0xec, 0xf8, 0x42, 0x7e]
  {
    hide EncodeWord;
    BytesOut(0xd98c1dd4, [0xd4, 0x1d, 0x8c, 0xd9]);
    BytesOut(0x04b2008f, [0x8f, 0x00, 0xb2, 0x04]);
    BytesOut(0x980980e9, [0xe9, 0x80, 0x09, 0x98]);
    BytesOut(0x7e42f8ec, [0xec, 0xf8, 0x42, 0x7e]);
  }

  /** MD5 ("") = d41d8cd98f00b204e9800998ecf8427e */
  lemma EmptyDigest()
    ensures Digest([])
         == [0xd4, 0x1d, 0x8c, 0xd9, 0x8f, 0x00, 0xb2, 0x04, 0xe9, 0x80, 0x09, 0x98, 0xec, 0xf8, 0x42, 0x7e]
  {
    hide Compress, Padded, EncodeState, Decode, EncodeWord, V, Fold;
    var p := Padded([]);
    EmptyBlock();
    EmptyCompress(p);
    FoldOne(p);
    StateOut(0xd98c1dd4, 0x04b2008f, 0x980980e9, 0x7e42f8ec);
    EmptyOut();
  }

  lemma AbcSums()
    ensures Add(V(0x67452301), V(0x310ade8f)) == V(0x98500190)
    ensures Add(V(0xefcdab89), V(0xc08226b3)) == V(0xb04fd23c)
    ensures Add(V(0x98badcfe), V(0xe484b9d8)) == V(0x7d3f96d6)
    ensures Add(V(0x10325476), V(0x624d8cb2)) == V(0x727fe128)
  {
    SumIs(0x67452301, 0x310ade8f, 0x98500190);
    SumIs(0xefcdab89, 0xc08226b3, 0xb04fd23c);
    SumIs(0x98badcfe, 0xe484b9d8, 0x7d3f96d6);
    SumIs(0x10325476, 0x624d8cb2, 0x727fe128);
  }

  lemma AbcCompress(block: seq<Byte>)
    requires |block| == 64 && AbcWords(Decode(block))
    ensures Compress(INITIAL, block) == S4(0x98500190, 0xb04fd23c, 0x7d3f96d6, 0x727fe128)
  {
    hide Steps, W;
    InitialWords();
    AbcSteps(Decode(block));
    AbcSums();
  }

  lemma AbcBlock()
    ensures var p := Padded([0x61, 0x62, 0x63]); |p| == 64 && AbcWords(Decode(p))
  {
    hide Padded, Decode;
    PaddedBytes([0x61, 0x62, 0x63]);
    var p := Padded([0x61, 0x62, 0x63]);
    DecodeAt(p, 0); DecodeAt(p, 1); DecodeAt(p, 2); DecodeAt(p, 3);
    DecodeAt(p, 4); DecodeAt(p, 5); DecodeAt(p, 6); DecodeAt(p, 7);
    DecodeAt(p, 8); DecodeAt(p, 9); DecodeAt(p, 10); DecodeAt(p, 11);
    DecodeAt(p, 12); DecodeAt(p, 13); DecodeAt(p, 14); DecodeAt(p, 15);
  }

  lemma AbcOut()
    ensures EncodeWord(V(0x98500190)) == [0x90, 0x01, 0x50, 0x98]
    ensures EncodeWord(V(0xb04fd23c)) == [0x3c, 0xd2, 0x4f, 0xb0]
    ensures EncodeWord(V(0x7d3f96d6)) == [0xd6, 0x96, 0x3f, 0x7d]
    ensures EncodeWord(V(0x727fe128)) == [0x28, 0xe1, 0x7f, 0x72]
  {
    hide EncodeWord;
    BytesOut(0x98500190, [0x90, 0x01, 0x50, 0x98]);
    BytesOut(0xb04fd23c, [0x3c, 0xd2, 0x4f, 0xb0]);
    BytesOut(0x7d3f96d6, [0xd6, 0x96, 0x3f, 0x7d]);
    BytesOut(0x727fe128, [0x28, 0xe1, 0x7f, 0x72]);
  }

  /** MD5 ("abc") = 900150983cd24fb0d6963f7d28e17f72 */
  lemma AbcDigest()
    ensures Digest([0x61, 0x62, 0x63])
         == [0x90, 0x01, 0x50, 0x98, 0x3c, 0xd2, 0x4f, 0xb0, 0xd6, 0x96, 0x3f, 0x7d, 0x28, 0xe1, 0x7f, 0x72]
  {
    hide Compress, Padded, EncodeState, Decode, EncodeWord, V, Fold;
    var p := Padded([0x61, 0x62, 0x63]);
    AbcBlock();
    AbcCompress(p);
    FoldOne(p);
    StateOut(0x98500190, 0xb04fd23c, 0x7d3f96d6, 0x727fe128);
    AbcOut();
  }
}
