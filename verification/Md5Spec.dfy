/** The compression function of section 3.4 of RFC 1321 as a table-driven loop,
    its inverse, and what the digest of a message is. */
module Md5Spec {
  import opened Bits
  import opened Words

  datatype State = State(a: Word, b: Word, c: Word, d: Word)

  const INITIAL: State := State(0x67452301, 0xEFCDAB89, 0x98BADCFE, 0x10325476)

  // ----- the step macros

  function F(x: Word, y: Word, z: Word): Word { Or(And(x, y), And(Not(x), z)) }

  function G(x: Word, y: Word, z: Word): Word { Or(And(x, z), And(y, Not(z))) }

  function H(x: Word, y: Word, z: Word): Word { Xor(Xor(x, y), z) }

  function I(x: Word, y: Word, z: Word): Word { Xor(y, Or(x, Not(z))) }

  lemma NotBits(x: Word, k: nat)
    requires k < 32
    ensures BitAt(Not(x), k) <==> !BitAt(x, k)
  {
    hide BitAt, Pow2;
    Sizes();
    FlippedBits(x, 32, k);
  }

  /** Bit k of F is y's where x's is set and z's where it is not. */
  lemma FBits(x: Word, y: Word, z: Word, k: nat)
    requires k < 32
    ensures BitAt(F(x, y, z), k) <==> if BitAt(x, k) then BitAt(y, k) else BitAt(z, k)
  {
    hide BitAt, BitAnd, BitOr;
    OperatorBits(x, y, k);
    NotBits(x, k);
    OperatorBits(Not(x), z, k);
    OperatorBits(And(x, y), And(Not(x), z), k);
  }

  /** Bit k of G is x's where z's is set and y's where it is not. */
  lemma GBits(x: Word, y: Word, z: Word, k: nat)
    requires k < 32
    ensures BitAt(G(x, y, z), k) <==> if BitAt(z, k) then BitAt(x, k) else BitAt(y, k)
  {
    hide BitAt, BitAnd, BitOr;
    OperatorBits(x, z, k);
    NotBits(z, k);
    OperatorBits(y, Not(z), k);
    OperatorBits(And(x, z), And(y, Not(z)), k);
  }

  /** Bit k of H is set where an odd number of x, y and z have it set. */
  lemma HBits(x: Word, y: Word, z: Word, k: nat)
    requires k < 32
    ensures BitAt(H(x, y, z), k) <==> ((BitAt(x, k) != BitAt(y, k)) != BitAt(z, k))
  {
    hide BitAt, BitXor;
    OperatorBits(x, y, k);
    OperatorBits(Xor(x, y), z, k);
  }

  /** Bit k of I is y's, inverted where x has it set or z has not. */
  lemma IBits(x: Word, y: Word, z: Word, k: nat)
    requires k < 32
    ensures BitAt(I(x, y, z), k) <==> (BitAt(y, k) != (BitAt(x, k) || !BitAt(z, k)))
  {
    hide BitAt, BitXor, BitOr;
    NotBits(z, k);
    OperatorBits(x, Not(z), k);
    OperatorBits(y, Or(x, Not(z)), k);
  }

  /** What FF, GG, HH and II do to their first argument, given the mixed word f. */
  function Mix(a: Word, b: Word, f: Word, x: Word, s: nat, ac: Word): Word
    requires 1 <= s < 32
  {
    Add(RotL(Add(a, Add(Add(f, x), ac)), s), b)
  }

  function FF(a: Word, b: Word, c: Word, d: Word, x: Word, s: nat, ac: Word): Word
    requires 1 <= s < 32
  { Mix(a, b, F(b, c, d), x, s, ac) }

  function GG(a: Word, b: Word, c: Word, d: Word, x: Word, s: nat, ac: Word): Word
    requires 1 <= s < 32
  { Mix(a, b, G(b, c, d), x, s, ac) }

  function HH(a: Word, b: Word, c: Word, d: Word, x: Word, s: nat, ac: Word): Word
    requires 1 <= s < 32
  { Mix(a, b, H(b, c, d), x, s, ac) }

  function II(a: Word, b: Word, c: Word, d: Word, x: Word, s: nat, ac: Word): Word
    requires 1 <= s < 32
  { Mix(a, b, I(b, c, d), x, s, ac) }

  // ----- the loop

  /** The table T of RFC 1321: entry i is floor(2^32 * abs(sin(i + 1))). */
  function AC(i: nat): Word
    requires i < 64
  {
    if i < 16 then AC1(i) else if i < 32 then AC2(i) else if i < 48 then AC3(i) else AC4(i)
  }

  function AC1(i: nat): Word
  {
    match i
    case 0 => 0xd76aa478
    case 1 => 0xe8c7b756
    case 2 => 0x242070db
    case 3 => 0xc1bdceee
    case 4 => 0xf57c0faf
    case 5 => 0x4787c62a
    case 6 => 0xa8304613
    case 7 => 0xfd469501
    case 8 => 0x698098d8
    case 9 => 0x8b44f7af
    case 10 => 0xffff5bb1
    case 11 => 0x895cd7be
    case 12 => 0x6b901122
    case 13 => 0xfd987193
    case 14 => 0xa679438e
    case _ => 0x49b40821
  }

  function AC2(i: nat): Word
  {
    match i
    case 16 => 0xf61e2562
    case 17 => 0xc040b340
    case 18 => 0x265e5a51
    case 19 => 0xe9b6c7aa
    case 20 => 0xd62f105d
    case 21 => 0x02441453
    case 22 => 0xd8a1e681
    case 23 => 0xe7d3fbc8
    case 24 => 0x21e1cde6
    case 25 => 0xc33707d6
    case 26 => 0xf4d50d87
    case 27 => 0x455a14ed
    case 28 => 0xa9e3e905
    case 29 => 0xfcefa3f8
    case 30 => 0x676f02d9
    case _ => 0x8d2a4c8a
  }

  function AC3(i: nat): Word
  {
    match i
    case 32 => 0xfffa3942
    case 33 => 0x8771f681
    case 34 => 0x6d9d6122
    case 35 => 0xfde5380c
    case 36 => 0xa4beea44
    case 37 => 0x4bdecfa9
    case 38 => 0xf6bb4b60
    case 39 => 0xbebfbc70
    case 40 => 0x289b7ec6
    case 41 => 0xeaa127fa
    case 42 => 0xd4ef3085
    case 43 => 0x04881d05
    case 44 => 0xd9d4d039
    case 45 => 0xe6db99e5
    case 46 => 0x1fa27cf8
    case _ => 0xc4ac5665
  }

  function AC4(i: nat): Word
  {
    match i
    case 48 => 0xf4292244
    case 49 => 0x432aff97
    case 50 => 0xab9423a7
    case 51 => 0xfc93a039
    case 52 => 0x655b59c3
    case 53 => 0x8f0ccc92
    case 54 => 0xffeff47d
    case 55 => 0x85845dd1
    case 56 => 0x6fa87e4f
    case 57 => 0xfe2ce6e0
    case 58 => 0xa3014314
    case 59 => 0x4e0811a1
    case 60 => 0xf7537e82
    case 61 => 0xbd3af235
    case 62 => 0x2ad7d2bb
    case _ => 0xeb86d391
  }

  /** The index of the message word used in step i. */
  function K(i: nat): (k: nat)
    requires i < 64
    ensures k < 16
  {
    if i < 16 then i else if i < 32 then (5 * i + 1) % 16 else if i < 48 then (3 * i + 5) % 16 else (7 * i) % 16
  }

  /** The word of a step from that of the step before: the rounds begin with words 0, 1, 5 and 0
      and go on by 1, 5, 3 and 7 modulo 16. */
  lemma WordOrder(i: nat)
    requires i < 64
    ensures i % 16 == 0 ==> K(i) == if i == 16 then 1 else if i == 32 then 5 else 0
    ensures i % 16 != 0 ==>
              K(i) == (K(i - 1) + if i < 16 then 1 else if i < 32 then 5 else if i < 48 then 3 else 7) % 16
  {
    if i >= 48 {
      StepMod(7 * (i - 1), 7);
    } else if i >= 32 {
      StepMod(3 * (i - 1) + 5, 3);
    } else if i >= 16 {
      StepMod(5 * (i - 1) + 1, 5);
    }
  }

  lemma StepMod(x: int, d: nat)
    ensures (x % 16 + d) % 16 == (x + d) % 16
  {
    var y := x % 16 + d;
    DivUnique(x + d, 16, x / 16 + y / 16, y % 16);
  }

  function Cycle(r: nat, s0: nat, s1: nat, s2: nat, s3: nat): nat
  {
    if r == 0 then s0 else if r == 1 then s1 else if r == 2 then s2 else s3
  }

  /** The rotation of step i. */
  function S(i: nat): (s: nat)
    requires i < 64
    ensures 1 <= s < 32
  {
    var r := i % 4;
    if i < 16 then Cycle(r, 7, 12, 17, 22)
    else if i < 32 then Cycle(r, 5, 9, 14, 20)
    else if i < 48 then Cycle(r, 4, 11, 16, 23)
    else Cycle(r, 6, 10, 15, 21)
  }

  function MixedWord(i: nat, b: Word, c: Word, d: Word): Word
    requires i < 64
  {
    if i < 16 then F(b, c, d) else if i < 32 then G(b, c, d) else if i < 48 then H(b, c, d) else I(b, c, d)
  }

  /** Step i: mix into a, then rotate the registers. */
  function Step(st: State, x: seq<Word>, i: nat): State
    requires |x| == 16 && i < 64
  {
    State(st.d, Mix(st.a, st.b, MixedWord(i, st.b, st.c, st.d), x[K(i)], S(i), AC(i)), st.b, st.c)
  }

  /** The first n of the 64 steps. */
  function Steps(st: State, x: seq<Word>, n: nat): State
    requires |x| == 16 && n <= 64
    decreases n
  {
    hide Step;
    if n == 0 then st else Step(Steps(st, x, n - 1), x, n - 1)
  }

  /** One block: 64 steps and the feed-forward addition. */
  function Compress(st: State, block: seq<Byte>): State
    requires |block| == 64
  {
    var r := Steps(st, Decode(block), 64);
    State(Add(st.a, r.a), Add(st.b, r.b), Add(st.c, r.c), Add(st.d, r.d))
  }

  // ----- the steps are a bijection on states

  function Unmix(v: Word, b: Word, f: Word, x: Word, s: nat, ac: Word): Word
    requires 1 <= s < 32
  {
    Sub(RotR(Sub(v, b), s), Add(Add(f, x), ac))
  }

  lemma UnmixMix(a: Word, b: Word, f: Word, x: Word, s: nat, ac: Word)
    requires 1 <= s < 32
    ensures Unmix(Mix(a, b, f, x, s, ac), b, f, x, s, ac) == a
    ensures Mix(Unmix(a, b, f, x, s, ac), b, f, x, s, ac) == a
  {
    hide RotL, RotR, Add, Sub;
    var k := Add(Add(f, x), ac);
    SubAdd(RotL(Add(a, k), s), b);
    RotInverse(Add(a, k), s);
    SubAdd(a, k);
    SubAdd(a, b);
    RotInverse(Sub(a, b), s);
    SubAdd(RotR(Sub(a, b), s), k);
  }

  function StepBack(st: State, x: seq<Word>, i: nat): State
    requires |x| == 16 && i < 64
  {
    State(Unmix(st.b, st.c, MixedWord(i, st.c, st.d, st.a), x[K(i)], S(i), AC(i)), st.c, st.d, st.a)
  }

  function StepsBack(st: State, x: seq<Word>, n: nat): State
    requires |x| == 16 && n <= 64
    decreases n
  {
    hide StepBack;
    if n == 0 then st else StepsBack(StepBack(st, x, n - 1), x, n - 1)
  }

  lemma StepInverse(st: State, x: seq<Word>, i: nat)
    requires |x| == 16 && i < 64
    ensures StepBack(Step(st, x, i), x, i) == st && Step(StepBack(st, x, i), x, i) == st
  {
    hide Mix, Unmix, MixedWord, AC, S, K;
    UnmixMix(st.a, st.b, MixedWord(i, st.b, st.c, st.d), x[K(i)], S(i), AC(i));
    UnmixMix(st.b, st.c, MixedWord(i, st.c, st.d, st.a), x[K(i)], S(i), AC(i));
  }

  /** For a fixed block, the first n steps are a bijection on states; n = 64 is the
      whole transform before the feed-forward. */
  lemma {:induction false} StepsInverse(st: State, x: seq<Word>, n: nat)
    requires |x| == 16 && n <= 64
    ensures StepsBack(Steps(st, x, n), x, n) == st
    ensures Steps(StepsBack(st, x, n), x, n) == st
    decreases n
  {
    hide Step, StepBack;
    if n > 0 {
      StepsInverse(st, x, n - 1);
      StepInverse(Steps(st, x, n - 1), x, n - 1);
      StepsInverse(StepBack(st, x, n - 1), x, n - 1);
      StepInverse(st, x, n - 1);
    }
  }

  // ----- messages

  /** The chaining value after the whole blocks of m. */
  function Fold(st: State, m: seq<Byte>): State
    requires |m| % 64 == 0
  {
    if m == [] then st else Compress(Fold(st, m[..|m| - 64]), m[|m| - 64..])
  }

  lemma {:induction false} FoldConcat(st: State, p: seq<Byte>, q: seq<Byte>)
    requires |p| % 64 == 0 && |q| % 64 == 0
    ensures Fold(st, p + q) == Fold(Fold(st, p), q)
    decreases |q|
  {
    hide Compress;
    if q == [] {
      assert p + q == p;
    } else {
      var n := |q| - 64;
      FoldConcat(st, p, q[..n]);
      assert (p + q)[..|p + q| - 64] == p + q[..n];
      assert (p + q)[|p + q| - 64..] == q[n..];
    }
  }

  lemma FoldBlock(st: State, p: seq<Byte>, block: seq<Byte>)
    requires |p| % 64 == 0 && |block| == 64
    ensures Fold(st, p + block) == Compress(Fold(st, p), block)
  {
    hide Compress;
    var m := p + block;
    assert m[..|m| - 64] == p && m[|m| - 64..] == block;
  }

  /** The chaining value after the whole blocks at the start of any byte sequence. */
  function Chained(m: seq<Byte>): State
  {
    Fold(INITIAL, m[..|m| - |m| % 64])
  }

  lemma ChainedBlock(m: seq<Byte>, block: seq<Byte>)
    requires |m| % 64 == 0 && |block| == 64
    ensures Chained(m + block) == Compress(Chained(m), block)
  {
    hide Compress, Fold;
    assert (m + block)[..|m + block|] == m + block && m[..|m|] == m;
    FoldBlock(INITIAL, m, block);
  }

  lemma ChainedTail(m: seq<Byte>, t: seq<Byte>)
    requires |m| % 64 == 0 && |t| < 64
    ensures Chained(m + t) == Chained(m)
  {
    hide Compress, Fold;
    assert (m + t)[..|m|] == m && m[..|m|] == m;
  }

  // ----- padding: sections 3.1 and 3.2 of RFC 1321

  /** The number of padding bytes that MD5Final appends to n message bytes. */
  function PadLen(n: nat): (p: nat)
    ensures 1 <= p <= 64 && (n + p) % 64 == 56
  {
    if n % 64 < 56 then 56 - n % 64 else 120 - n % 64
  }

  function Padding(p: nat): (b: seq<Byte>)
    requires 1 <= p
    ensures |b| == p
  {
    [0x80] + seq(p - 1, _ => 0)
  }

  const COUNT_MODULUS: nat := M * M

  /** The bit length of n bytes, modulo 2^64, as two words. */
  function LengthWords(n: nat): (w: seq<Word>)
    ensures |w| == 2
  {
    LengthSplit(n);
    var bits := (8 * n) % COUNT_MODULUS;
    [bits % M, bits / M]
  }

  lemma LengthSplit(n: nat)
    ensures ((8 * n) % COUNT_MODULUS) / M < M
  {
    var bits := (8 * n) % COUNT_MODULUS;
    assert bits == M * (bits / M) + bits % M;
  }

  lemma WholeLength(n: nat)
    ensures (n + PadLen(n) + 8) % 64 == 0
  {
  }

  function Padded(m: seq<Byte>): (p: seq<Byte>)
    ensures |p| % 64 == 0 && m <= p
  {
    WholeLength(|m|);
    m + Padding(PadLen(|m|)) + Encode(LengthWords(|m|))
  }

  function EncodeState(st: State): (b: seq<Byte>)
    ensures |b| == 16
  {
    Encode([st.a, st.b, st.c, st.d])
  }

  /** The MD5 digest of a message. */
  function Digest(m: seq<Byte>): (d: seq<Byte>)
    ensures |d| == 16
  {
    EncodeState(Fold(INITIAL, Padded(m)))
  }

  /** The last eight bytes of the padded message are its bit length, and the padding is
      as short as it can be. */
  lemma PaddedShape(m: seq<Byte>)
    ensures var p := Padded(m);
            && LittleEndian(p[|p| - 8..]) == (8 * |m|) % COUNT_MODULUS
            && p[|m|] == 0x80 && (forall i :: |m| < i < |p| - 8 ==> p[i] == 0)
            && |p| - 64 < |m| + 9
  {
    var p, w := Padded(m), LengthWords(|m|);
    assert p[|p| - 8..] == Encode(w);
    var bits := (8 * |m|) % COUNT_MODULUS;
    LengthSplit(|m|);
    EncodedValue(w[0], w[1]);
    assert w == [w[0], w[1]];
    assert bits == M * (bits / M) + bits % M;
    var pad := Padding(PadLen(|m|));
    assert p == m + (pad + Encode(w));
    assert forall i :: |m| <= i < |m| + |pad| ==> p[i] == pad[i - |m|];
  }

  /** Padding keeps messages of fewer than 2^61 bytes apart. */
  lemma PaddedInjective(m: seq<Byte>, n: seq<Byte>)
    requires 8 * |m| < COUNT_MODULUS && 8 * |n| < COUNT_MODULUS
    requires Padded(m) == Padded(n)
    ensures m == n
  {
    PaddedShape(m);
    PaddedShape(n);
    var p := Padded(m);
    assert |m| == |n|;
    assert m == p[..|m|] && n == p[..|n|];
  }
}
