/** 32-bit words and bytes: wrapping addition, rotation, and the little-endian
    encoding of MD5Encode and MD5Decode. */
module Words {
  import opened Bits

  const M: int := 0x1_0000_0000

  type Word = x: nat | x < 0x1_0000_0000
  type Byte = x: nat | x < 0x100

  lemma Sizes()
    ensures Pow2(8) == 0x100 && Pow2(16) == 0x1_0000 && Pow2(24) == 0x100_0000 && Pow2(32) == M
  {
    hide Pow2;
    Sixteen();
    Pow2Adds(4, 4);
    Pow2Adds(8, 8);
    Pow2Adds(8, 16);
    Pow2Adds(16, 16);
  }

  lemma Sixteen()
    ensures Pow2(4) == 16
  {
    assert Pow2(4) == 2 * Pow2(3) && Pow2(3) == 2 * Pow2(2);
  }

  // ----- arithmetic

  function Add(x: Word, y: Word): Word { (x + y) % M }

  function Sub(x: Word, y: Word): Word { (x - y) % M }

  /** A sum or difference of two words wraps at most once. */
  lemma WrapsOnce(x: int)
    requires -M < x < 2 * M
    ensures x % M == if x < 0 then x + M else if x < M then x else x - M
  {
    DivUnique(x, M, if x < 0 then -1 else if x < M then 0 else 1, if x < 0 then x + M else if x < M then x else x - M);
  }

  lemma SubAdd(x: Word, y: Word)
    ensures Sub(Add(x, y), y) == x && Add(Sub(x, y), y) == x
  {
    WrapsOnce(x + y);
    WrapsOnce(x - y);
    WrapsOnce(Add(x, y) - y);
    WrapsOnce(Sub(x, y) + y);
  }

  function Not(x: Word): Word { 0xFFFF_FFFF - x }

  function And(x: Word, y: Word): Word { Sizes(); OperatorBounds(x, y, 32); BitAnd(x, y) }

  function Or(x: Word, y: Word): Word { Sizes(); OperatorBounds(x, y, 32); BitOr(x, y) }

  function Xor(x: Word, y: Word): Word { Sizes(); OperatorBounds(x, y, 32); BitXor(x, y) }

  // ----- rotation

  /** ROTATE_LEFT: `(x << n) | (x >> (32 - n))` */
  function RotL(x: Word, n: nat): Word
    requires 1 <= n < 32
  {
    RotParts(x, n);
    Or((x * Pow2(n)) % M, ShiftRight(x, 32 - n))
  }

  function RotR(x: Word, n: nat): Word
    requires 1 <= n < 32
  {
    RotL(x, 32 - n)
  }

  lemma Pow2Split(n: nat)
    requires 1 <= n < 32
    ensures Pow2(n) * Pow2(32 - n) == M
  {
    Sizes();
    Pow2Adds(n, 32 - n);
  }

  /** Rotation moves the high n bits below the low 32 - n bits. */
  lemma RotParts(x: Word, n: nat)
    requires 1 <= n < 32
    ensures var p, q := Pow2(n), Pow2(32 - n);
            var hi, lo := x / q, x % q;
            && hi < p && lo < q
            && (x * p) % M == lo * p
            && ShiftRight(x, 32 - n) == hi
            && BitOr(lo * p, hi) == lo * p + hi < M
  {
    hide BitOr, ShiftRight, Pow2;
    var p, q := Pow2(n), Pow2(32 - n);
    var hi, lo := x / q, x % q;
    Pow2Split(n);
    ShiftIsDiv(x, 32 - n);
    assert x == hi * q + lo;
    HighPart(x, p, q);
    ShiftedPart(x, p, q);
    DisjointOr(lo, hi, n);
  }

  lemma MulMonotone(x: nat, y: nat, q: nat)
    ensures x <= y ==> x * q <= y * q
  {
  }

  lemma QuotientBelow(x: nat, p: nat, q: nat)
    requires 1 <= q && x < p * q
    ensures x / q < p
  {
    var hi := x / q;
    assert hi * q <= x;
    MulMonotone(p, hi, q);
  }

  lemma BelowProduct(hi: nat, lo: nat, p: nat, q: nat)
    requires hi < p && lo < q
    ensures lo * p + hi < p * q
  {
    MulMonotone(lo, q - 1, p);
    assert (q - 1) * p == p * q - p;
  }

  lemma HighPart(x: nat, p: nat, q: nat)
    requires 1 <= q && x < p * q
    ensures x / q < p && (x % q) * p + x / q < p * q
  {
    QuotientBelow(x, p, q);
    BelowProduct(x / q, x % q, p, q);
  }

  lemma Distributes(hi: nat, q: nat, lo: nat, p: nat)
    ensures (hi * q + lo) * p == (p * q) * hi + lo * p && p * q == q * p
  {
    assert (hi * q) * p == hi * (q * p);
  }

  lemma ShiftedPart(x: nat, p: nat, q: nat)
    requires 1 <= p && 1 <= q && x < p * q
    ensures (x * p) % (p * q) == (x % q) * p
  {
    var hi, lo := x / q, x % q;
    assert x == hi * q + lo;
    Distributes(hi, q, lo, p);
    MulMonotone(lo, q - 1, p);
    assert (q - 1) * p == q * p - p;
    DivUnique(x * p, p * q, hi, lo * p);
  }

  /** Rotating right undoes rotating left, and the other way round. */
  lemma RotInverse(x: Word, n: nat)
    requires 1 <= n < 32
    ensures RotR(RotL(x, n), n) == x && RotL(RotR(x, n), n) == x
  {
    RotLRotL(x, n);
    RotLRotL(x, 32 - n);
  }

  lemma RotLValue(x: Word, n: nat)
    requires 1 <= n < 32
    ensures var p, q := Pow2(n), Pow2(32 - n); RotL(x, n) == (x % q) * p + x / q && x / q < p
  {
    RotParts(x, n);
  }

  lemma RotLRotL(x: Word, n: nat)
    requires 1 <= n < 32
    ensures RotL(RotL(x, n), 32 - n) == x
  {
    hide RotL, Pow2;
    var p, q := Pow2(n), Pow2(32 - n);
    RotLValue(x, n);
    RotLValue(RotL(x, n), 32 - n);
    Reassemble(x, p, q);
  }

  lemma Reassemble(x: nat, p: nat, q: nat)
    requires 1 <= p && 1 <= q && x / q < p
    ensures var y := (x % q) * p + x / q; (y % p) * q + y / p == x
  {
    var hi, lo := x / q, x % q;
    var y := lo * p + hi;
    assert y == p * lo + hi;
    DivUnique(y, p, lo, hi);
    assert x == hi * q + lo;
  }

  // ----- the little-endian encoding

  function EncodeWord(w: Word): (b: seq<Byte>)
    ensures |b| == 4
  {
    [w % 0x100, w / 0x100 % 0x100, w / 0x1_0000 % 0x100, w / 0x100_0000]
  }

  function DecodeWord(b: seq<Byte>): Word
    requires |b| == 4
  {
    var b0: nat, b1: nat, b2: nat, b3: nat := b[0], b[1], b[2], b[3];
    b0 + 0x100 * b1 + 0x1_0000 * b2 + 0x100_0000 * b3
  }

  function Encode(ws: seq<Word>): (b: seq<Byte>)
    ensures |b| == 4 * |ws|
  {
    if ws == [] then [] else Encode(ws[..|ws| - 1]) + EncodeWord(ws[|ws| - 1])
  }

  function Decode(b: seq<Byte>): (ws: seq<Word>)
    requires |b| % 4 == 0
    ensures 4 * |ws| == |b|
  {
    if b == [] then [] else Decode(b[..|b| - 4]) + [DecodeWord(b[|b| - 4..])]
  }

  lemma WordRoundTrip(w: Word)
    ensures DecodeWord(EncodeWord(w)) == w
  {
    var q1 := w / 0x100;
    var q2 := q1 / 0x100;
    var low := 0x100 * (q1 % 0x100) + w % 0x100;
    DivUnique(w, 0x1_0000, q2, low);
    DivUnique(w, 0x100_0000, q2 / 0x100, 0x1_0000 * (q2 % 0x100) + low);
  }

  lemma ByteRoundTrip(b: seq<Byte>)
    requires |b| == 4
    ensures EncodeWord(DecodeWord(b)) == b
  {
    var b0: nat, b1: nat, b2: nat, b3: nat := b[0], b[1], b[2], b[3];
    var w := DecodeWord(b);
    DivUnique(w, 0x100, b1 + 0x100 * b2 + 0x1_0000 * b3, b0);
    DivUnique(w / 0x100, 0x100, b2 + 0x100 * b3, b1);
    DivUnique(w, 0x1_0000, b2 + 0x100 * b3, b0 + 0x100 * b1);
    DivUnique(w / 0x1_0000, 0x100, b3, b2);
    DivUnique(w, 0x100_0000, b3, b0 + 0x100 * b1 + 0x1_0000 * b2);
  }

  lemma EncodeSnoc(ws: seq<Word>, w: Word)
    ensures Encode(ws + [w]) == Encode(ws) + EncodeWord(w)
  {
    assert (ws + [w])[..|ws|] == ws;
  }

  lemma DecodeSnoc(b: seq<Byte>, t: seq<Byte>)
    requires |b| % 4 == 0 && |t| == 4
    ensures Decode(b + t) == Decode(b) + [DecodeWord(t)]
  {
    assert (b + t)[..|b|] == b && (b + t)[|b|..] == t;
  }

  lemma NothingToDecode()
    ensures Encode([]) == [] && Decode([]) == []
  {
  }

  lemma {:induction false} DecodeEncode(ws: seq<Word>)
    ensures Decode(Encode(ws)) == ws
  {
    hide Encode, Decode, EncodeWord, DecodeWord;
    NothingToDecode();
    if ws != [] {
      var u, w := ws[..|ws| - 1], ws[|ws| - 1];
      assert ws == u + [w];
      DecodeEncode(u);
      WordRoundTrip(w);
      EncodeSnoc(u, w);
      DecodeSnoc(Encode(u), EncodeWord(w));
    }
  }

  lemma {:induction false} EncodeDecode(b: seq<Byte>)
    requires |b| % 4 == 0
    ensures Encode(Decode(b)) == b
  {
    hide Encode, Decode, EncodeWord, DecodeWord;
    NothingToDecode();
    if b != [] {
      var u, t := b[..|b| - 4], b[|b| - 4..];
      assert b == u + t;
      EncodeDecode(u);
      ByteRoundTrip(t);
      DecodeSnoc(u, t);
      EncodeSnoc(Decode(u), DecodeWord(t));
    }
  }

  /** The number that a byte sequence denotes, least significant byte first. */
  function LittleEndian(b: seq<Byte>): nat
  {
    if b == [] then 0 else b[0] + 0x100 * LittleEndian(b[1..])
  }

  lemma EncodedValue(lo: Word, hi: Word)
    ensures LittleEndian(Encode([lo, hi])) == lo as int + M * hi
  {
    var two, one: seq<Word> := [lo, hi], [lo];
    var b := Encode(two);
    assert two[..1] == one && one[..0] == [];
    assert Encode(one) == Encode([]) + EncodeWord(lo);
    assert b == EncodeWord(lo) + EncodeWord(hi);
    WordValue(lo, EncodeWord(hi));
    WordValue(hi, []);
    assert EncodeWord(hi) + [] == EncodeWord(hi);
  }

  lemma LittleEndianCons(x: Byte, rest: seq<Byte>)
    ensures LittleEndian([x] + rest) == x as int + 0x100 * LittleEndian(rest)
  {
    assert ([x] + rest)[1..] == rest;
  }

  lemma WordValue(w: Word, rest: seq<Byte>)
    ensures LittleEndian(EncodeWord(w) + rest) == w + M * LittleEndian(rest)
  {
    WordRoundTrip(w);
    hide LittleEndian;
    var b := EncodeWord(w);
    LittleEndianCons(b[3], rest);
    LittleEndianCons(b[2], [b[3]] + rest);
    LittleEndianCons(b[1], [b[2]] + ([b[3]] + rest));
    LittleEndianCons(b[0], [b[1]] + ([b[2]] + ([b[3]] + rest)));
    assert b + rest == [b[0]] + ([b[1]] + ([b[2]] + ([b[3]] + rest)));
  }

  /** The byte that MD5Encode stores at offset k: `(w >> 8 * k) & 0xFF`. */
  lemma MaskedByte(w: Word, k: nat)
    requires k < 4
    ensures BitAnd(ShiftRight(w, 8 * k), 0xFF) == EncodeWord(w)[k]
  {
    hide BitAnd, ShiftRight, Pow2;
    Sizes();
    MaskedShift(w, 8 * k, if k == 0 then 1 else if k == 1 then 0x100 else if k == 2 then 0x1_0000 else 0x100_0000) by {
      NoShift();
    }
  }

  lemma ShiftNothing(w: nat)
    ensures ShiftRight(w, 0) == w
  {
  }

  lemma NoShift()
    ensures Pow2(0) == 1
  {
  }

  lemma MaskedShift(w: nat, j: nat, p: nat)
    requires p == Pow2(j)
    ensures 1 <= p && BitAnd(ShiftRight(w, j), 0xFF) == w / p % 0x100
  {
    hide BitAnd, ShiftRight;
    Sizes();
    ShiftIsDiv(w, j);
    MaskIsMod(w / p, 8);
  }

  /** The word that MD5Decode assembles: `b[0] | (b[1] << 8) | (b[2] << 16) | (b[3] << 24)`. */
  lemma OredWord(b0: nat, b1: nat, b2: nat, b3: nat)
    requires b0 < 0x100 && b1 < 0x100 && b2 < 0x100
    ensures BitOr(BitOr(BitOr(b0, b1 * Pow2(8)), b2 * Pow2(16)), b3 * Pow2(24))
         == b0 + 0x100 * b1 + 0x1_0000 * b2 + 0x100_0000 * b3
  {
    Sizes();
    hide BitOr, Pow2;
    OrCommutes(b0, b1 * Pow2(8));
    DisjointOr(b1, b0, 8);
    var w1 := b0 + 0x100 * b1;
    OrCommutes(w1, b2 * Pow2(16));
    DisjointOr(b2, w1, 16);
    var w2 := w1 + 0x1_0000 * b2;
    OrCommutes(w2, b3 * Pow2(24));
    DisjointOr(b3, w2, 24);
  }

  /** One word of MD5Encode. */
  method EncodeOne(output: array<Byte>, w: Word, j: nat)
    requires j + 4 <= output.Length
    modifies output
    ensures output[..j + 4] == old(output[..j]) + EncodeWord(w)
    ensures forall k :: j + 4 <= k < output.Length ==> output[k] == old(output[k])
  {
    hide BitAnd, ShiftRight;
    MaskedByte(w, 0);
    MaskedByte(w, 1);
    MaskedByte(w, 2);
    MaskedByte(w, 3);
    ShiftNothing(w);
    output[j] := BitAnd(w, 0xFF);
    output[j + 1] := BitAnd(ShiftRight(w, 8), 0xFF);
    output[j + 2] := BitAnd(ShiftRight(w, 16), 0xFF);
    output[j + 3] := BitAnd(ShiftRight(w, 24), 0xFF);
    assert output[..j] == old(output[..j]);
  }

  /** MD5Encode */
  method EncodeInto(output: array<Byte>, input: seq<Word>, len: nat)
    requires len == 4 * |input| <= output.Length
    modifies output
    ensures output[..len] == Encode(input)
    ensures forall k :: len <= k < output.Length ==> output[k] == old(output[k])
  {
    hide Encode, EncodeWord;
    var i, j := 0, 0;
    NothingToDecode();
    assert input[..0] == [] && output[..0] == [];
    while j < len
      invariant j == 4 * i <= len
      invariant output[..j] == Encode(input[..i])
      invariant forall k :: j <= k < output.Length ==> output[k] == old(output[k])
      decreases len - j
    {
      EncodeSnoc(input[..i], input[i]);
      EncodeOne(output, input[i], j);
      assert input[..i + 1] == input[..i] + [input[i]];
      i := i + 1;
      j := j + 4;
    }
    assert input[..i] == input;
  }

  /** One word of MD5Decode. */
  method DecodeOne(b: seq<Byte>) returns (w: Word)
    requires |b| == 4
    ensures w == DecodeWord(b)
  {
    hide BitOr, Pow2;
    var b0: nat, b1: nat, b2: nat, b3: nat := b[0], b[1], b[2], b[3];
    OredWord(b0, b1, b2, b3);
    w := BitOr(BitOr(BitOr(b0, b1 * Pow2(8)), b2 * Pow2(16)), b3 * Pow2(24));
  }

  /** MD5Decode */
  method DecodeInto(output: array<Word>, input: seq<Byte>, len: nat)
    requires len == |input| && len % 4 == 0 && len / 4 <= output.Length
    modifies output
    ensures output[..len / 4] == Decode(input)
    ensures output[len / 4..] == old(output[len / 4..])
  {
    hide DecodeWord, Decode;
    var i, j := 0, 0;
    NothingToDecode();
    assert input[..0] == [] && output[..0] == [];
    while j < len
      invariant j == 4 * i <= len
      invariant output[..i] == Decode(input[..j])
      invariant output[i..] == old(output[i..])
      decreases len - j
    {
      DecodeSnoc(input[..j], input[j..j + 4]);
      assert input[..j + 4] == input[..j] + input[j..j + 4];
      ghost var before := output[..i];
      var w := DecodeOne(input[j..j + 4]);
      output[i] := w;
      assert output[..i + 1] == before + [w];
      assert output[i + 1..] == old(output[i..])[1..] == old(output[i + 1..]);
      i := i + 1;
      j := j + 4;
    }
    assert input[..j] == input;
  }
}
