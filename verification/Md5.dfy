/** MD5Transform, MD5Update and MD5Final. */
module Md5 {
  import opened Bits
  import opened Words
  import opened Md5Spec

  lemma FourSteps(st: State, x: seq<Word>, n: nat)
    requires |x| == 16 && n + 4 <= 64
    ensures Steps(st, x, n + 4)
         == Step(Step(Step(Step(Steps(st, x, n), x, n), x, n + 1), x, n + 2), x, n + 3)
  {
    hide Step;
    assert Steps(st, x, n + 4) == Step(Steps(st, x, n + 3), x, n + 3);
    assert Steps(st, x, n + 3) == Step(Steps(st, x, n + 2), x, n + 2);
    assert Steps(st, x, n + 2) == Step(Steps(st, x, n + 1), x, n + 1);
  }

  /** Round 1 of MD5Transform. */
  method Round1(x: seq<Word>, st: State, ghost st0: State) returns (st': State)
    requires |x| == 16 && st == Steps(st0, x, 0)
    ensures st' == Steps(st0, x, 16)
  {
    hide Mix, Steps, AC2, AC3, AC4, F, G, H, I, And, Or, Xor, Not, Add;
    var a, b, c, d := st.a, st.b, st.c, st.d;
    a := FF(a, b, c, d, x[0], 7, 0xd76aa478);
    d := FF(d, a, b, c, x[1], 12, 0xe8c7b756);
    c := FF(c, d, a, b, x[2], 17, 0x242070db);
    b := FF(b, c, d, a, x[3], 22, 0xc1bdceee);
    FourSteps(st0, x, 0);
    assert State(a, b, c, d) == Steps(st0, x, 4);
    a := FF(a, b, c, d, x[4], 7, 0xf57c0faf);
    d := FF(d, a, b, c, x[5], 12, 0x4787c62a);
    c := FF(c, d, a, b, x[6], 17, 0xa8304613);
    b := FF(b, c, d, a, x[7], 22, 0xfd469501);
    FourSteps(st0, x, 4);
    assert State(a, b, c, d) == Steps(st0, x, 8);
    a := FF(a, b, c, d, x[8], 7, 0x698098d8);
    d := FF(d, a, b, c, x[9], 12, 0x8b44f7af);
    c := FF(c, d, a, b, x[10], 17, 0xffff5bb1);
    b := FF(b, c, d, a, x[11], 22, 0x895cd7be);
    FourSteps(st0, x, 8);
    assert State(a, b, c, d) == Steps(st0, x, 12);
    a := FF(a, b, c, d, x[12], 7, 0x6b901122);
    d := FF(d, a, b, c, x[13], 12, 0xfd987193);
    c := FF(c, d, a, b, x[14], 17, 0xa679438e);
    b := FF(b, c, d, a, x[15], 22, 0x49b40821);
    FourSteps(st0, x, 12);
    assert State(a, b, c, d) == Steps(st0, x, 16);
    st' := State(a, b, c, d);
  }

  /** Round 2 of MD5Transform. */
  method Round2(x: seq<Word>, st: State, ghost st0: State) returns (st': State)
    requires |x| == 16 && st == Steps(st0, x, 16)
    ensures st' == Steps(st0, x, 32)
  {
    hide Mix, Steps, AC1, AC3, AC4, F, G, H, I, And, Or, Xor, Not, Add;
    var a, b, c, d := st.a, st.b, st.c, st.d;
    a := GG(a, b, c, d, x[1], 5, 0xf61e2562);
    d := GG(d, a, b, c, x[6], 9, 0xc040b340);
    c := GG(c, d, a, b, x[11], 14, 0x265e5a51);
    b := GG(b, c, d, a, x[0], 20, 0xe9b6c7aa);
    FourSteps(st0, x, 16);
    assert State(a, b, c, d) == Steps(st0, x, 20);
    a := GG(a, b, c, d, x[5], 5, 0xd62f105d);
    d := GG(d, a, b, c, x[10], 9, 0x02441453);
    c := GG(c, d, a, b, x[15], 14, 0xd8a1e681);
    b := GG(b, c, d, a, x[4], 20, 0xe7d3fbc8);
    FourSteps(st0, x, 20);
    assert State(a, b, c, d) == Steps(st0, x, 24);
    a := GG(a, b, c, d, x[9], 5, 0x21e1cde6);
    d := GG(d, a, b, c, x[14], 9, 0xc33707d6);
    c := GG(c, d, a, b, x[3], 14, 0xf4d50d87);
    b := GG(b, c, d, a, x[8], 20, 0x455a14ed);
    FourSteps(st0, x, 24);
    assert State(a, b, c, d) == Steps(st0, x, 28);
    a := GG(a, b, c, d, x[13], 5, 0xa9e3e905);
    d := GG(d, a, b, c, x[2], 9, 0xfcefa3f8);
    c := GG(c, d, a, b, x[7], 14, 0x676f02d9);
    b := GG(b, c, d, a, x[12], 20, 0x8d2a4c8a);
    FourSteps(st0, x, 28);
    assert State(a, b, c, d) == Steps(st0, x, 32);
    st' := State(a, b, c, d);
  }

  /** The message words of round 3. */
  lemma ThirdOrder()
    ensures K(32) == 5 && K(33) == 8 && K(34) == 11 && K(35) == 14
    ensures K(36) == 1 && K(37) == 4 && K(38) == 7 && K(39) == 10
    ensures K(40) == 13 && K(41) == 0 && K(42) == 3 && K(43) == 6
    ensures K(44) == 9 && K(45) == 12 && K(46) == 15 && K(47) == 2
  {
  }

  /** Round 3 of MD5Transform. */
  method Round3(x: seq<Word>, st: State, ghost st0: State) returns (st': State)
    requires |x| == 16 && st == Steps(st0, x, 32)
    ensures st' == Steps(st0, x, 48)
  {
    hide Mix, Steps, K, AC1, AC2, AC4, F, G, H, I, And, Or, Xor, Not, Add;
    ThirdOrder();
    var a, b, c, d := st.a, st.b, st.c, st.d;
    a := HH(a, b, c, d, x[5], 4, 0xfffa3942);
    d := HH(d, a, b, c, x[8], 11, 0x8771f681);
    c := HH(c, d, a, b, x[11], 16, 0x6d9d6122);
    b := HH(b, c, d, a, x[14], 23, 0xfde5380c);
    FourSteps(st0, x, 32);
    assert State(a, b, c, d) == Steps(st0, x, 36);
    a := HH(a, b, c, d, x[1], 4, 0xa4beea44);
    d := HH(d, a, b, c, x[4], 11, 0x4bdecfa9);
    c := HH(c, d, a, b, x[7], 16, 0xf6bb4b60);
    b := HH(b, c, d, a, x[10], 23, 0xbebfbc70);
    FourSteps(st0, x, 36);
    assert State(a, b, c, d) == Steps(st0, x, 40);
    a := HH(a, b, c, d, x[13], 4, 0x289b7ec6);
    d := HH(d, a, b, c, x[0], 11, 0xeaa127fa);
    c := HH(c, d, a, b, x[3], 16, 0xd4ef3085);
    b := HH(b, c, d, a, x[6], 23, 0x04881d05);
    FourSteps(st0, x, 40);
    assert State(a, b, c, d) == Steps(st0, x, 44);
    a := HH(a, b, c, d, x[9], 4, 0xd9d4d039);
    d := HH(d, a, b, c, x[12], 11, 0xe6db99e5);
    c := HH(c, d, a, b, x[15], 16, 0x1fa27cf8);
    b := HH(b, c, d, a, x[2], 23, 0xc4ac5665);
    FourSteps(st0, x, 44);
    assert State(a, b, c, d) == Steps(st0, x, 48);
    st' := State(a, b, c, d);
  }

  /** Round 4 of MD5Transform. */
  method Round4(x: seq<Word>, st: State, ghost st0: State) returns (st': State)
    requires |x| == 16 && st == Steps(st0, x, 48)
    ensures st' == Steps(st0, x, 64)
  {
    hide Mix, Steps, AC1, AC2, AC3, F, G, H, I, And, Or, Xor, Not, Add;
    var a, b, c, d := st.a, st.b, st.c, st.d;
    a := II(a, b, c, d, x[0], 6, 0xf4292244);
    d := II(d, a, b, c, x[7], 10, 0x432aff97);
    c := II(c, d, a, b, x[14], 15, 0xab9423a7);
    b := II(b, c, d, a, x[5], 21, 0xfc93a039);
    FourSteps(st0, x, 48);
    assert State(a, b, c, d) == Steps(st0, x, 52);
    a := II(a, b, c, d, x[12], 6, 0x655b59c3);
    d := II(d, a, b, c, x[3], 10, 0x8f0ccc92);
    c := II(c, d, a, b, x[10], 15, 0xffeff47d);
    b := II(b, c, d, a, x[1], 21, 0x85845dd1);
    FourSteps(st0, x, 52);
    assert State(a, b, c, d) == Steps(st0, x, 56);
    a := II(a, b, c, d, x[8], 6, 0x6fa87e4f);
    d := II(d, a, b, c, x[15], 10, 0xfe2ce6e0);
    c := II(c, d, a, b, x[6], 15, 0xa3014314);
    b := II(b, c, d, a, x[13], 21, 0x4e0811a1);
    FourSteps(st0, x, 56);
    assert State(a, b, c, d) == Steps(st0, x, 60);
    a := II(a, b, c, d, x[4], 6, 0xf7537e82);
    d := II(d, a, b, c, x[11], 10, 0xbd3af235);
    c := II(c, d, a, b, x[2], 15, 0x2ad7d2bb);
    b := II(b, c, d, a, x[9], 21, 0xeb86d391);
    FourSteps(st0, x, 60);
    assert State(a, b, c, d) == Steps(st0, x, 64);
    st' := State(a, b, c, d);
  }

  function StateOf(s: seq<Word>): State
    requires |s| == 4
  {
    State(s[0], s[1], s[2], s[3])
  }

  /** MD5Transform */
  method Transform(state: array<Word>, block: seq<Byte>)
    requires state.Length == 4 && |block| == 64
    modifies state
    ensures StateOf(state[..]) == Compress(old(StateOf(state[..])), block)
  {
    hide Steps, Add;
    var x := new Word[64];
    DecodeInto(x, block, 64);
    var w := x[..16];
    var st := StateOf(state[..]);
    NoSteps(st, w);
    var st' := Round1(w, st, st);
    st' := Round2(w, st', st);
    st' := Round3(w, st', st);
    st' := Round4(w, st', st);
    state[0] := Add(state[0], st'.a);
    state[1] := Add(state[1], st'.b);
    state[2] := Add(state[2], st'.c);
    state[3] := Add(state[3], st'.d);
  }

  lemma NoSteps(st: State, x: seq<Word>)
    requires |x| == 16
    ensures Steps(st, x, 0) == st
  {
  }

  // ----- the bit counter

  /** The two counter words hold 8 * n modulo 2^64. */
  ghost predicate Counts(lo: Word, hi: Word, n: nat)
  {
    lo + M * hi == (8 * n) % COUNT_MODULUS
  }

  lemma IndexBits(lo: nat)
    ensures BitAnd(ShiftRight(lo, 3), 0x3F) == lo / 8 % 64
  {
    hide BitAnd, ShiftRight;
    assert Pow2(3) == 8 && Pow2(6) == 8 * Pow2(3);
    ShiftIsDiv(lo, 3);
    MaskIsMod(lo / 8, 6);
  }

  /** `(count[0] >> 3) & 0x3F` is the number of bytes in the buffer. */
  lemma CountIndex(lo: Word, hi: Word, n: nat)
    requires Counts(lo, hi, n)
    ensures BitAnd(ShiftRight(lo, 3), 0x3F) == n % 64
  {
    hide BitAnd, ShiftRight;
    IndexBits(lo);
    var u := M * ((8 * n) / COUNT_MODULUS) + hi;
    assert 8 * n == M * u + lo;
    LowBits(lo, n, 0x80_0000 * u);
  }

  /** The index depends only on the low word: 512 divides 2^32. */
  lemma LowBits(lo: nat, n: nat, t: nat)
    requires 8 * n == 512 * t + lo
    ensures lo / 8 % 64 == n % 64
  {
    assert n == 64 * t + lo / 8;
  }

  /** The carry test: an unsigned sum wrapped exactly when it is below an operand. */
  lemma CarryTest(lo: Word, bits: Word)
    ensures var lo' := (lo + bits) % M; lo + bits == lo' + M * (if lo' < bits then 1 else 0)
  {
    WrapsOnce(lo + bits);
  }

  lemma CountSum(n: nat, k: nat, lo: int, hi: int, bits: int, top: int, carry: int, lo': int, hi': int, over: int)
    requires 0 <= lo' < M && 0 <= hi' < M
    requires (8 * n) % COUNT_MODULUS == lo + M * hi
    requires 8 * k == bits + M * top && lo + bits == lo' + M * carry && hi + carry + top == hi' + M * over
    ensures (8 * (n + k)) % COUNT_MODULUS == lo' + M * hi'
  {
    var q := (8 * n) / COUNT_MODULUS;
    assert 8 * n == COUNT_MODULUS * q + lo + M * hi;
    DivUnique(8 * (n + k), COUNT_MODULUS, q + over, lo' + M * hi');
  }

  lemma HighBits(k: Word)
    ensures 8 * k == (8 * k) % M + M * (k / 0x2000_0000)
  {
    DivUnique(8 * k, M, k / 0x2000_0000, 8 * (k % 0x2000_0000));
  }

  /** The 32-bit additions, with the carry test, add 8 * k to the 64-bit counter. */
  lemma CountAdd(lo: Word, hi: Word, n: nat, k: Word)
    requires Counts(lo, hi, n)
    ensures var bits := (8 * k) % M;
            var lo' := (lo + bits) % M;
            var carried := if lo' < bits then (hi + 1) % M else hi;
            Counts(lo', (carried + k / 0x2000_0000) % M, n + k)
  {
    var bits := (8 * k) % M;
    var lo' := (lo + bits) % M;
    var carry := if lo' < bits then 1 else 0;
    HighBits(k);
    var carried := (hi + carry) % M;
    var top := k / 0x2000_0000;
    WrapsOnce(hi + carry);
    WrapsOnce(carried + top);
    CarryTest(lo, bits);
    CountSum(n, k, lo, hi, bits, top, carry, lo', (carried + top) % M,
             (if hi + carry < M then 0 else 1) + if carried + top < M then 0 else 1);
  }

  /** The condition under which `i + 64 <= inputlen` in MD5Update never wraps around. */
  predicate NoWrap(index: nat, n: nat)
    requires index < 64
  {
    n < 64 - index || n - (index + n) % 64 + 64 < M
  }

  /** MD5Update stays inside its input exactly under that condition: the loop takes every
      i = 64 - index + 64 * k for which the guard, computed in 32 bits, holds. */
  lemma UpdateInBoundsIff(index: nat, n: Word)
    requires index < 64
    ensures (forall k: nat :: var i := 64 - index + 64 * k; i <= n && (i + 64) % M <= n ==> i + 64 <= n)
       <==> NoWrap(index, n)
  {
    if NoWrap(index, n) {
      forall k: nat | 64 - index + 64 * k <= n && (64 - index + 64 * k + 64) % M <= n
        ensures 64 - index + 64 * k + 64 <= n
      {
        LastBlock(index, n, 64 - index + 64 * k);
      }
    } else {
      var i0 := n - (index + n) % 64;
      var k := (index + i0) / 64 - 1;
      assert i0 == 64 - index + 64 * k;
      assert i0 <= n && (i0 + 64) % M <= n && i0 + 64 > n;
    }
  }

  lemma LastBlock(index: nat, n: nat, i: nat)
    requires index < 64 && i <= n && (index + i) % 64 == 0
    ensures i <= n - (index + n) % 64
    ensures NoWrap(index, n) && 64 - index <= n ==> i + 64 < M
  {
  }

  class Context {
    const count: array<Word>
    const state: array<Word>
    const buffer: array<Byte>
    ghost var message: seq<Byte>      // everything given to MD5Update so far

    ghost predicate Valid()
      reads this, count, state, buffer
    {
      && count.Length == 2 && state.Length == 4 && buffer.Length == 64 && count != state
      && Counts(count[0], count[1], |message|)
      && Represents(message)
    }

    /** The state has taken in the whole blocks of m, and the buffer holds the rest. */
    ghost predicate Represents(m: seq<Byte>)
      reads state, buffer
    {
      && state.Length == 4 && buffer.Length == 64
      && StateOf(state[..]) == Chained(m)
      && var r := |m| % 64; buffer[..r] == m[|m| - r..]
    }

    /** MD5Init */
    constructor ()
      ensures Valid() && message == [] && fresh(count) && fresh(state) && fresh(buffer)
    {
      count := new Word[2](_ => 0);
      state := new Word[4](i => if i == 0 then 0x67452301 else if i == 1 then 0xEFCDAB89
                                else if i == 2 then 0x98BADCFE else 0x10325476);
      buffer := new Byte[64](_ => 0);
      message := [];
    }

    /** The counter part of MD5Update. */
    method AddCount(inputlen: Word, ghost n: nat)
      requires count.Length == 2 && Counts(count[0], count[1], n)
      modifies count
      ensures Counts(count[0], count[1], n + inputlen)
    {
      hide Pow2, Counts, ShiftRight;
      ShiftBy29(inputlen);
      CountAdd(count[0], count[1], n, inputlen);
      var bits: Word := (8 * inputlen) % M;
      count[0] := (count[0] + bits) % M;
      if count[0] < bits {
        count[1] := (count[1] + 1) % M;
      }
      count[1] := (count[1] + ShiftRight(inputlen, 29)) % M;
    }

    lemma ShiftBy29(k: Word)
      ensures ShiftRight(k, 29) == k / 0x2000_0000
    {
      ShiftIsDiv(k, 29);
      Pow2Of29();
    }

    lemma Pow2Of29()
      ensures Pow2(29) == 0x2000_0000
    {
      Sizes();
      Pow2Adds(24, 5);
      assert Pow2(5) == 32;
    }

    /** MD5Update's first block: what the buffer holds, filled up from the input. */
    method FillBuffer(input: seq<Byte>, index: nat, ghost m: seq<Byte>)
      requires buffer.Length == 64 && state.Length == 4 && index < 64 && |input| >= 64 - index
      requires |m| % 64 == 0 && StateOf(state[..]) == Chained(m)
      modifies buffer, state
      ensures StateOf(state[..]) == Chained(m + old(buffer[..index]) + input[..64 - index])
    {
      hide Compress, Chained;
      ghost var tail := buffer[..index];
      forall k | 0 <= k < 64 - index {
        buffer[index + k] := input[k];
      }
      ghost var block := tail + input[..64 - index];
      assert buffer[..] == block;
      Transform(state, buffer[..]);
      ChainedBlock(m, block);
      assert m + tail + input[..64 - index] == m + block;
    }

    /** MD5Update's loop over whole blocks of the input; m is the message up to input[..i0]. */
    method WholeBlocks(input: seq<Byte>, index: nat, ghost m: seq<Byte>) returns (i: nat)
      requires state.Length == 4 && index < 64 && 64 - index <= |input| < M
      requires NoWrap(index, |input|)
      requires |m| % 64 == 0 && StateOf(state[..]) == Chained(m)
      modifies state
      ensures 64 - index <= i <= |input| < i + 64 && (index + i) % 64 == 0
      ensures var m' := m + input[64 - index..i]; |m'| % 64 == 0 && StateOf(state[..]) == Chained(m')
    {
      hide Compress, Chained, NoWrap;
      i := 64 - index;
      ghost var i0 := i;
      assert m + input[i0..i] == m;
      LastBlock(index, |input|, i);
      while (i + 64) % M <= |input|
        invariant i0 <= i <= |input| && (index + i) % 64 == 0 && i + 64 < M
        invariant |m + input[i0..i]| % 64 == 0 && StateOf(state[..]) == Chained(m + input[i0..i])
        decreases |input| - i
      {
        WrapsOnce(i + 64);
        NextBlock(index, |input|, i);
        OneMoreBlock(m, input, i0, i);
        Transform(state, input[i..i + 64]);
        i := (i + 64) % M;
      }
      WrapsOnce(i + 64);
    }

    lemma NextBlock(index: nat, n: nat, i: nat)
      requires index < 64 && NoWrap(index, n) && 64 - index <= n && i + 64 <= n && (index + i) % 64 == 0
      ensures (index + i + 64) % 64 == 0 && i + 128 < M
    {
      LastBlock(index, n, i + 64);
    }

    lemma OneMoreBlock(m: seq<Byte>, input: seq<Byte>, i0: nat, i: nat)
      requires i0 <= i && i + 64 <= |input| && |m + input[i0..i]| % 64 == 0
      ensures |m + input[i0..i + 64]| % 64 == 0
      ensures Chained(m + input[i0..i + 64]) == Compress(Chained(m + input[i0..i]), input[i..i + 64])
    {
      hide Compress, Chained;
      var block := input[i..i + 64];
      ChainedBlock(m + input[i0..i], block);
      assert m + input[i0..i] + block == m + input[i0..i + 64];
    }

    /** MD5Update's last memcpy. */
    method KeepRest(input: seq<Byte>, index: nat, i: nat)
      requires buffer.Length == 64 && i <= |input| && index + (|input| - i) < 64
      modifies buffer
      ensures buffer[..index + (|input| - i)] == old(buffer[..index]) + input[i..]
    {
      forall k | 0 <= k < |input| - i {
        buffer[index + k] := input[i + k];
      }
    }

    /** MD5Update */
    method Update(input: seq<Byte>)
      requires Valid() && |input| < M && NoWrap(|message| % 64, |input|)
      modifies this, count, state, buffer
      ensures Valid() && message == old(message) + input
    {
      hide Represents, Counts, BitAnd, ShiftRight, NoWrap;
      CountIndex(count[0], count[1], |message|);
      var index := BitAnd(ShiftRight(count[0], 3), 0x3F);
      var partlen := 64 - index;
      AddCount(|input|, |message|);
      if |input| >= partlen {
        UpdateBlocks(input, index, message);
      } else {
        UpdateBuffer(input, index, message);
      }
      message := message + input;
    }

    /** MD5Update when the input completes at least one block. */
    method UpdateBlocks(input: seq<Byte>, index: nat, ghost m: seq<Byte>)
      requires Represents(m) && index == |m| % 64 && 64 - index <= |input| < M && NoWrap(index, |input|)
      modifies state, buffer
      ensures Represents(m + input)
    {
      hide Compress, Chained, NoWrap;
      ghost var whole, tail := m[..|m| - index], m[|m| - index..];
      assert m == whole + tail;
      ChainedTail(whole, tail);
      FillBuffer(input, index, whole);
      ghost var m1 := whole + tail + input[..64 - index];
      var i := WholeBlocks(input, index, m1);
      KeepRest(input, 0, i);
      ghost var m2 := m1 + input[64 - index..i];
      assert m + input == m2 + input[i..];
      TailOf(m2, input[i..]);
    }

    /** MD5Update when the input fits the buffer. */
    method UpdateBuffer(input: seq<Byte>, index: nat, ghost m: seq<Byte>)
      requires Represents(m) && index == |m| % 64 && |input| < 64 - index
      modifies buffer
      ensures Represents(m + input)
    {
      hide Compress, Chained;
      KeepRest(input, index, 0);
      assert input[0..] == input;
      TailGrows(m, input);
    }

    lemma TailGrows(m: seq<Byte>, t: seq<Byte>)
      requires |m| % 64 + |t| < 64
      ensures var w, r := m + t, |m| % 64;
              |w| % 64 == r + |t| && w[|w| - (r + |t|)..] == m[|m| - r..] + t && Chained(w) == Chained(m)
    {
      hide Compress, Chained;
      var r := |m| % 64;
      var whole, tail := m[..|m| - r], m[|m| - r..];
      assert m == whole + tail && m + t == whole + (tail + t);
      ChainedTail(whole, tail);
      TailOf(whole, tail + t);
    }

    lemma TailOf(m: seq<Byte>, t: seq<Byte>)
      requires |m| % 64 == 0 && |t| < 64
      ensures var w := m + t; |w| % 64 == |t| && w[|w| - |t|..] == t && Chained(w) == Chained(m)
    {
      hide Compress, Chained;
      ChainedTail(m, t);
    }

    /** MD5Final */
    method Final() returns (digest: array<Byte>)
      requires Valid()
      modifies this, count, state, buffer
      ensures fresh(digest) && digest[..] == Digest(old(message))
    {
      hide Counts, BitAnd, ShiftRight, Encode, NoWrap, LengthWords, Padded, Chained, Fold;
      ghost var m := message;
      CountIndex(count[0], count[1], |m|);
      var index := BitAnd(ShiftRight(count[0], 3), 0x3F);
      var padlen := if index < 56 then 56 - index else 120 - index;
      var bits := new Byte[8];
      CountWords(count[..], |m|);
      EncodeInto(bits, count[..], 8);
      AppendPadding(padlen, bits[..8]);
      WholeMessage(message);
      digest := new Byte[16];
      EncodeInto(digest, state[..], 16);
      assert [state[0], state[1], state[2], state[3]] == state[..];
      assert digest[..16] == digest[..];
    }

    /** MD5Final's two calls of MD5Update. */
    method AppendPadding(padlen: nat, length: seq<Byte>)
      requires Valid() && padlen == PadLen(|message|) && length == Encode(LengthWords(|message|))
      modifies this, count, state, buffer
      ensures Valid() && message == Padded(old(message))
    {
      hide Valid, Encode, LengthWords, Padding;
      FewFit(|message| % 64);
      FewFit((|message| + padlen) % 64);
      PaddingPrefix(padlen);
      Update(PADDING[..padlen]);
      Update(length);
    }

    lemma FewFit(index: nat)
      requires index < 64
      ensures forall n: nat :: n <= 64 ==> NoWrap(index, n)
    {
    }

    lemma CountWords(c: seq<Word>, n: nat)
      requires |c| == 2 && Counts(c[0], c[1], n)
      ensures c == LengthWords(n)
    {
      LengthSplit(n);
      DivUnique((8 * n) % COUNT_MODULUS, M, c[1], c[0]);
    }
  }

  /** The PADDING array. */
  const PADDING: seq<Byte> := [0x80] + seq(63, _ => 0)

  lemma PaddingPrefix(p: nat)
    requires 1 <= p <= 64
    ensures PADDING[..p] == Padding(p)
  {
  }

  lemma WholeMessage(m: seq<Byte>)
    requires |m| % 64 == 0
    ensures Chained(m) == Fold(INITIAL, m)
  {
    assert m[..|m|] == m;
  }

  /** Chunking does not matter: contexts that were given the same bytes, in whatever
      pieces, agree on everything that later calls read. */
  lemma SameMessageSameContext(x: Context, y: Context)
    requires x.Valid() && y.Valid() && x.message == y.message
    ensures x.count[..] == y.count[..] && x.state[..] == y.state[..]
    ensures var r := |x.message| % 64; x.buffer[..r] == y.buffer[..r]
  {
    hide Chained, Counts, LengthWords;
    x.CountWords(x.count[..], |x.message|);
    y.CountWords(y.count[..], |y.message|);
    assert StateOf(x.state[..]) == StateOf(y.state[..]);
  }
}
