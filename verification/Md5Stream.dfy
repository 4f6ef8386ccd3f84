/** The streaming MD5 of md5c.c: a context updated in place, proved against Md5Spec. */
module Md5Stream {
  import opened Bytes
  import opened Md5Spec

  // ---------- the four step macros, on the variable they assign ----------

  function FF(a: word32, b: word32, c: word32, d: word32, x: word32, s: nat, ac: word32): word32
    requires 0 < s < 32
  {
    Add(RotateLeft(Add(a, Add(Add(F(b, c, d), x), ac)), s), b)
  }

  function GG(a: word32, b: word32, c: word32, d: word32, x: word32, s: nat, ac: word32): word32
    requires 0 < s < 32
  {
    Add(RotateLeft(Add(a, Add(Add(G(b, c, d), x), ac)), s), b)
  }

  function HH(a: word32, b: word32, c: word32, d: word32, x: word32, s: nat, ac: word32): word32
    requires 0 < s < 32
  {
    Add(RotateLeft(Add(a, Add(Add(H(b, c, d), x), ac)), s), b)
  }

  function II(a: word32, b: word32, c: word32, d: word32, x: word32, s: nat, ac: word32): word32
    requires 0 < s < 32
  {
    Add(RotateLeft(Add(a, Add(Add(I(b, c, d), x), ac)), s), b)
  }

  /** The macro of the round that operation i belongs to. */
  function Macro(i: nat, a: word32, b: word32, c: word32, d: word32, x: word32, s: nat, ac: word32): word32
    requires 0 < s < 32
  {
    if i < 16 then FF(a, b, c, d, x, s, ac)
    else if i < 32 then GG(a, b, c, d, x, s, ac)
    else if i < 48 then HH(a, b, c, d, x, s, ac)
    else II(a, b, c, d, x, s, ac)
  }

  /** Assigning a macro to its first variable, with the word, shift and constant of the table, is one
      operation; the variables then change roles. */
  lemma Step(s: Chain, x: seq<word32>, i: nat, k: nat, shift: nat, sine: word32, end: nat)
    requires |x| == 16 && i < end <= 64 && k == WordIndex(i) && shift == Shift(i) && sine == Sine(i)
    ensures Operations(s, x, i, end)
         == Operations(Chain(s.d, Macro(i, s.a, s.b, s.c, s.d, x[k], shift, sine), s.b, s.c), x, i + 1, end)
  {
    hide Add, RotateLeft, F, G, H, I;
  }

  /** Round 1 of MD5Transform: its sixteen steps are operations 0 to 15. */
  method Round1(s: Chain, x: seq<word32>) returns (a: word32, b: word32, c: word32, d: word32)
    requires |x| == 16
    ensures Chain(a, b, c, d) == Operations(s, x, 0, 16)
  {
    hide FF, GG, HH, II, Operation;
    ghost var end := 16;
    a, b, c, d := s.a, s.b, s.c, s.d;
    Step(Chain(a, b, c, d), x, 0, 0, 7, 0xd76aa478, end);
    a := FF(a, b, c, d, x[0], 7, 0xd76aa478);
    Step(Chain(d, a, b, c), x, 1, 1, 12, 0xe8c7b756, end);
    d := FF(d, a, b, c, x[1], 12, 0xe8c7b756);
    Step(Chain(c, d, a, b), x, 2, 2, 17, 0x242070db, end);
    c := FF(c, d, a, b, x[2], 17, 0x242070db);
    Step(Chain(b, c, d, a), x, 3, 3, 22, 0xc1bdceee, end);
    b := FF(b, c, d, a, x[3], 22, 0xc1bdceee);
    Step(Chain(a, b, c, d), x, 4, 4, 7, 0xf57c0faf, end);
    a := FF(a, b, c, d, x[4], 7, 0xf57c0faf);
    Step(Chain(d, a, b, c), x, 5, 5, 12, 0x4787c62a, end);
    d := FF(d, a, b, c, x[5], 12, 0x4787c62a);
    Step(Chain(c, d, a, b), x, 6, 6, 17, 0xa8304613, end);
    c := FF(c, d, a, b, x[6], 17, 0xa8304613);
    Step(Chain(b, c, d, a), x, 7, 7, 22, 0xfd469501, end);
    b := FF(b, c, d, a, x[7], 22, 0xfd469501);
    Step(Chain(a, b, c, d), x, 8, 8, 7, 0x698098d8, end);
    a := FF(a, b, c, d, x[8], 7, 0x698098d8);
    Step(Chain(d, a, b, c), x, 9, 9, 12, 0x8b44f7af, end);
    d := FF(d, a, b, c, x[9], 12, 0x8b44f7af);
    Step(Chain(c, d, a, b), x, 10, 10, 17, 0xffff5bb1, end);
    c := FF(c, d, a, b, x[10], 17, 0xffff5bb1);
    Step(Chain(b, c, d, a), x, 11, 11, 22, 0x895cd7be, end);
    b := FF(b, c, d, a, x[11], 22, 0x895cd7be);
    Step(Chain(a, b, c, d), x, 12, 12, 7, 0x6b901122, end);
    a := FF(a, b, c, d, x[12], 7, 0x6b901122);
    Step(Chain(d, a, b, c), x, 13, 13, 12, 0xfd987193, end);
    d := FF(d, a, b, c, x[13], 12, 0xfd987193);
    Step(Chain(c, d, a, b), x, 14, 14, 17, 0xa679438e, end);
    c := FF(c, d, a, b, x[14], 17, 0xa679438e);
    Step(Chain(b, c, d, a), x, 15, 15, 22, 0x49b40821, end);
    b := FF(b, c, d, a, x[15], 22, 0x49b40821);
  }

  /** Round 2 of MD5Transform: its sixteen steps are operations 16 to 31. */
  method Round2(s: Chain, x: seq<word32>) returns (a: word32, b: word32, c: word32, d: word32)
    requires |x| == 16
    ensures Chain(a, b, c, d) == Operations(s, x, 16, 32)
  {
    hide FF, GG, HH, II, Operation;
    ghost var end := 32;
    a, b, c, d := s.a, s.b, s.c, s.d;
    Step(Chain(a, b, c, d), x, 16, 1, 5, 0xf61e2562, end);
    a := GG(a, b, c, d, x[1], 5, 0xf61e2562);
    Step(Chain(d, a, b, c), x, 17, 6, 9, 0xc040b340, end);
    d := GG(d, a, b, c, x[6], 9, 0xc040b340);
    Step(Chain(c, d, a, b), x, 18, 11, 14, 0x265e5a51, end);
    c := GG(c, d, a, b, x[11], 14, 0x265e5a51);
    Step(Chain(b, c, d, a), x, 19, 0, 20, 0xe9b6c7aa, end);
    b := GG(b, c, d, a, x[0], 20, 0xe9b6c7aa);
    Step(Chain(a, b, c, d), x, 20, 5, 5, 0xd62f105d, end);
    a := GG(a, b, c, d, x[5], 5, 0xd62f105d);
    Step(Chain(d, a, b, c), x, 21, 10, 9, 0x2441453, end);
    d := GG(d, a, b, c, x[10], 9, 0x2441453);
    Step(Chain(c, d, a, b), x, 22, 15, 14, 0xd8a1e681, end);
    c := GG(c, d, a, b, x[15], 14, 0xd8a1e681);
    Step(Chain(b, c, d, a), x, 23, 4, 20, 0xe7d3fbc8, end);
    b := GG(b, c, d, a, x[4], 20, 0xe7d3fbc8);
    Step(Chain(a, b, c, d), x, 24, 9, 5, 0x21e1cde6, end);
    a := GG(a, b, c, d, x[9], 5, 0x21e1cde6);
    Step(Chain(d, a, b, c), x, 25, 14, 9, 0xc33707d6, end);
    d := GG(d, a, b, c, x[14], 9, 0xc33707d6);
    Step(Chain(c, d, a, b), x, 26, 3, 14, 0xf4d50d87, end);
    c := GG(c, d, a, b, x[3], 14, 0xf4d50d87);
    Step(Chain(b, c, d, a), x, 27, 8, 20, 0x455a14ed, end);
    b := GG(b, c, d, a, x[8], 20, 0x455a14ed);
    Step(Chain(a, b, c, d), x, 28, 13, 5, 0xa9e3e905, end);
    a := GG(a, b, c, d, x[13], 5, 0xa9e3e905);
    Step(Chain(d, a, b, c), x, 29, 2, 9, 0xfcefa3f8, end);
    d := GG(d, a, b, c, x[2], 9, 0xfcefa3f8);
    Step(Chain(c, d, a, b), x, 30, 7, 14, 0x676f02d9, end);
    c := GG(c, d, a, b, x[7], 14, 0x676f02d9);
    Step(Chain(b, c, d, a), x, 31, 12, 20, 0x8d2a4c8a, end);
    b := GG(b, c, d, a, x[12], 20, 0x8d2a4c8a);
  }

  /** Round 3 of MD5Transform: its sixteen steps are operations 32 to 47. */
  method Round3(s: Chain, x: seq<word32>) returns (a: word32, b: word32, c: word32, d: word32)
    requires |x| == 16
    ensures Chain(a, b, c, d) == Operations(s, x, 32, 48)
  {
    hide FF, GG, HH, II, Operation;
    ghost var end := 48;
    a, b, c, d := s.a, s.b, s.c, s.d;
    Step(Chain(a, b, c, d), x, 32, 5, 4, 0xfffa3942, end);
    a := HH(a, b, c, d, x[5], 4, 0xfffa3942);
    Step(Chain(d, a, b, c), x, 33, 8, 11, 0x8771f681, end);
    d := HH(d, a, b, c, x[8], 11, 0x8771f681);
    Step(Chain(c, d, a, b), x, 34, 11, 16, 0x6d9d6122, end);
    c := HH(c, d, a, b, x[11], 16, 0x6d9d6122);
    Step(Chain(b, c, d, a), x, 35, 14, 23, 0xfde5380c, end);
    b := HH(b, c, d, a, x[14], 23, 0xfde5380c);
    Step(Chain(a, b, c, d), x, 36, 1, 4, 0xa4beea44, end);
    a := HH(a, b, c, d, x[1], 4, 0xa4beea44);
    Step(Chain(d, a, b, c), x, 37, 4, 11, 0x4bdecfa9, end);
    d := HH(d, a, b, c, x[4], 11, 0x4bdecfa9);
    Step(Chain(c, d, a, b), x, 38, 7, 16, 0xf6bb4b60, end);
    c := HH(c, d, a, b, x[7], 16, 0xf6bb4b60);
    Step(Chain(b, c, d, a), x, 39, 10, 23, 0xbebfbc70, end);
    b := HH(b, c, d, a, x[10], 23, 0xbebfbc70);
    Step(Chain(a, b, c, d), x, 40, 13, 4, 0x289b7ec6, end);
    a := HH(a, b, c, d, x[13], 4, 0x289b7ec6);
    Step(Chain(d, a, b, c), x, 41, 0, 11, 0xeaa127fa, end);
    d := HH(d, a, b, c, x[0], 11, 0xeaa127fa);
    Step(Chain(c, d, a, b), x, 42, 3, 16, 0xd4ef3085, end);
    c := HH(c, d, a, b, x[3], 16, 0xd4ef3085);
    Step(Chain(b, c, d, a), x, 43, 6, 23, 0x4881d05, end);
    b := HH(b, c, d, a, x[6], 23, 0x4881d05);
    Step(Chain(a, b, c, d), x, 44, 9, 4, 0xd9d4d039, end);
    a := HH(a, b, c, d, x[9], 4, 0xd9d4d039);
    Step(Chain(d, a, b, c), x, 45, 12, 11, 0xe6db99e5, end);
    d := HH(d, a, b, c, x[12], 11, 0xe6db99e5);
    Step(Chain(c, d, a, b), x, 46, 15, 16, 0x1fa27cf8, end);
    c := HH(c, d, a, b, x[15], 16, 0x1fa27cf8);
    Step(Chain(b, c, d, a), x, 47, 2, 23, 0xc4ac5665, end);
    b := HH(b, c, d, a, x[2], 23, 0xc4ac5665);
  }

  /** Round 4 of MD5Transform: its sixteen steps are operations 48 to 63. */
  method Round4(s: Chain, x: seq<word32>) returns (a: word32, b: word32, c: word32, d: word32)
    requires |x| == 16
    ensures Chain(a, b, c, d) == Operations(s, x, 48, 64)
  {
    hide FF, GG, HH, II, Operation;
    ghost var end := 64;
    a, b, c, d := s.a, s.b, s.c, s.d;
    Step(Chain(a, b, c, d), x, 48, 0, 6, 0xf4292244, end);
    a := II(a, b, c, d, x[0], 6, 0xf4292244);
    Step(Chain(d, a, b, c), x, 49, 7, 10, 0x432aff97, end);
    d := II(d, a, b, c, x[7], 10, 0x432aff97);
    Step(Chain(c, d, a, b), x, 50, 14, 15, 0xab9423a7, end);
    c := II(c, d, a, b, x[14], 15, 0xab9423a7);
    Step(Chain(b, c, d, a), x, 51, 5, 21, 0xfc93a039, end);
    b := II(b, c, d, a, x[5], 21, 0xfc93a039);
    Step(Chain(a, b, c, d), x, 52, 12, 6, 0x655b59c3, end);
    a := II(a, b, c, d, x[12], 6, 0x655b59c3);
    Step(Chain(d, a, b, c), x, 53, 3, 10, 0x8f0ccc92, end);
    d := II(d, a, b, c, x[3], 10, 0x8f0ccc92);
    Step(Chain(c, d, a, b), x, 54, 10, 15, 0xffeff47d, end);
    c := II(c, d, a, b, x[10], 15, 0xffeff47d);
    Step(Chain(b, c, d, a), x, 55, 1, 21, 0x85845dd1, end);
    b := II(b, c, d, a, x[1], 21, 0x85845dd1);
    Step(Chain(a, b, c, d), x, 56, 8, 6, 0x6fa87e4f, end);
    a := II(a, b, c, d, x[8], 6, 0x6fa87e4f);
    Step(Chain(d, a, b, c), x, 57, 15, 10, 0xfe2ce6e0, end);
    d := II(d, a, b, c, x[15], 10, 0xfe2ce6e0);
    Step(Chain(c, d, a, b), x, 58, 6, 15, 0xa3014314, end);
    c := II(c, d, a, b, x[6], 15, 0xa3014314);
    Step(Chain(b, c, d, a), x, 59, 13, 21, 0x4e0811a1, end);
    b := II(b, c, d, a, x[13], 21, 0x4e0811a1);
    Step(Chain(a, b, c, d), x, 60, 4, 6, 0xf7537e82, end);
    a := II(a, b, c, d, x[4], 6, 0xf7537e82);
    Step(Chain(d, a, b, c), x, 61, 11, 10, 0xbd3af235, end);
    d := II(d, a, b, c, x[11], 10, 0xbd3af235);
    Step(Chain(c, d, a, b), x, 62, 2, 15, 0x2ad7d2bb, end);
    c := II(c, d, a, b, x[2], 15, 0x2ad7d2bb);
    Step(Chain(b, c, d, a), x, 63, 9, 21, 0xeb86d391, end);
    b := II(b, c, d, a, x[9], 21, 0xeb86d391);
  }

  // ---------- words in arrays ----------

  function ChainOf(words: seq<word32>): Chain
    requires |words| == 4
  {
    Chain(words[0], words[1], words[2], words[3])
  }

  lemma {:induction false} EncodeWordsAppend(left: seq<word32>, right: seq<word32>)
    ensures EncodeWords(left + right) == EncodeWords(left) + EncodeWords(right)
  {
    if left == [] {
      assert left + right == right;
    } else {
      assert (left + right)[0] == left[0] && (left + right)[1..] == left[1..] + right;
      EncodeWordsAppend(left[1..], right);
    }
  }

  lemma {:induction false} DecodeWordsAppend(left: seq<byte>, right: seq<byte>)
    requires |left| % 4 == 0 && |right| % 4 == 0
    ensures DecodeWords(left + right) == DecodeWords(left) + DecodeWords(right)
    decreases |left|
  {
    hide FromLittleEndian32;
    if left == [] {
      assert left + right == right;
    } else {
      assert (left + right)[..4] == left[..4] && (left + right)[4..] == left[4..] + right;
      DecodeWordsAppend(left[4..], right);
    }
  }

  lemma EncodeNone()
    ensures EncodeWords([]) == []
  {
  }

  lemma EncodeOne(w: word32)
    ensures EncodeWords([w]) == LittleEndian32(w)
  {
  }

  method Encode(input: array<word32>) returns (output: array<byte>)
    ensures fresh(output) && output[..] == EncodeWords(input[..])
  {
    hide EncodeWords;
    EncodeNone();
    output := new byte[4 * input.Length];
    var i, j := 0, 0;
    while j < output.Length
      invariant j == 4 * i && 0 <= i <= input.Length
      invariant output[..j] == EncodeWords(input[..i])
    {
      var w: int := input[i];
      output[j] := w % 0x100;
      output[j + 1] := w / 0x100 % 0x100;
      output[j + 2] := w / 0x1_0000 % 0x100;
      output[j + 3] := w / 0x100_0000 % 0x100;
      EncodeOne(input[i]);
      assert output[..j + 4] == output[..j] + LittleEndian32(input[i]);
      assert input[..i + 1] == input[..i] + [input[i]];
      EncodeWordsAppend(input[..i], [input[i]]);
      i, j := i + 1, j + 4;
    }
    assert input[..i] == input[..] && output[..j] == output[..];
  }

  method Decode(output: array<word32>, input: seq<byte>)
    requires |input| == 4 * output.Length
    modifies output
    ensures output[..] == DecodeWords(input)
  {
    var i, j := 0, 0;
    while j < |input|
      invariant j == 4 * i && 0 <= i <= output.Length
      invariant output[..i] == DecodeWords(input[..j])
    {
      var b0: int, b1: int, b2: int, b3: int := input[j], input[j + 1], input[j + 2], input[j + 3];
      output[i] := b0 + 0x100 * b1 + 0x1_0000 * b2 + 0x100_0000 * b3;
      var four := input[j..j + 4];
      assert four[..4] == four && four[4..] == [];
      assert DecodeWords(four) == [output[i]];
      assert input[..j + 4] == input[..j] + four;
      DecodeWordsAppend(input[..j], four);
      i, j := i + 1, j + 4;
    }
    assert output[..i] == output[..] && input[..j] == input;
  }

  method Transform(state: array<word32>, block: Block)
    requires state.Length == 4
    modifies state
    ensures ChainOf(state[..]) == Compress(ChainOf(old(state[..])), block)
  {
    hide Add, Operation, Operations;
    var x := new word32[16];
    Decode(x, block);
    ghost var s := ChainOf(state[..]);
    var a, b, c, d := Round1(ChainOf(state[..]), x[..]);
    a, b, c, d := Round2(Chain(a, b, c, d), x[..]);
    a, b, c, d := Round3(Chain(a, b, c, d), x[..]);
    a, b, c, d := Round4(Chain(a, b, c, d), x[..]);
    OperationsSplit(s, x[..], 0, 16, 32);
    OperationsSplit(s, x[..], 0, 32, 48);
    OperationsSplit(s, x[..], 0, 48, 64);
    state[0] := Add(state[0], a);
    state[1] := Add(state[1], b);
    state[2] := Add(state[2], c);
    state[3] := Add(state[3], d);
  }

  // ---------- the context ----------

  /** How many of n bytes make whole blocks. */
  function Whole(n: nat): nat { n - n % 64 }

  lemma WholeParts(n: nat)
    ensures Whole(n) <= n < Whole(n) + 64 && Whole(n) % 64 == 0
  {
    Multiple64(n / 64);
    assert Whole(n) == 64 * (n / 64);
  }

  lemma Multiple64(k: nat)
    ensures 64 * k % 64 == 0
  {
  }

  lemma WholeIs(n: nat, w: nat)
    requires w <= n < w + 64 && w % 64 == 0
    ensures Whole(n) == w && n % 64 == n - w
  {
    assert n == 64 * (w / 64) + (n - w);
  }

  /** The state after the whole blocks of `data`. */
  function Hashed(data: seq<byte>): Chain {
    WholeParts(|data|);
    CompressAll(INITIAL, Blocks(data[..Whole(|data|)]))
  }

  lemma HashedIgnoresTail(data: seq<byte>, tail: seq<byte>)
    requires |data| % 64 == 0 && |tail| < 64
    ensures Hashed(data + tail) == Hashed(data)
  {
    hide CompressAll, Blocks;
    WholeIs(|data + tail|, |data|);
    assert (data + tail)[..|data|] == data == data[..|data|];
  }

  lemma HashedWhole(data: seq<byte>)
    requires |data| % 64 == 0
    ensures Hashed(data) == CompressAll(INITIAL, Blocks(data))
  {
    hide CompressAll, Blocks;
    WholeIs(|data|, |data|);
    assert data[..|data|] == data;
  }

  lemma HashedSnoc(data: seq<byte>, block: Block)
    requires |data| % 64 == 0
    ensures Hashed(data + block) == Compress(Hashed(data), block)
  {
    hide Compress, CompressAll, Blocks, Hashed;
    HashedWhole(data);
    HashedWhole(data + block);
    BlocksAppend(data, block);
    BlocksOne(block);
    CompressAllAppend(INITIAL, Blocks(data), [block]);
    CompressOne(Hashed(data), block);
  }

  /** The count after an update by `len` bytes: the carry and the high bits of the length. */
  function Advance(lo: word32, hi: word32, len: word32): (word32, word32) {
    var bits := len as int * 8 % 0x1_0000_0000;
    var lo' := (lo as int + bits) % 0x1_0000_0000;
    var hi' := if lo' < bits then (hi as int + 1) % 0x1_0000_0000 else hi;
    (lo', (hi' as int + len as int / 0x2000_0000) % 0x1_0000_0000)
  }

  lemma SameRemainder(n: int, m: int, t: int)
    requires m == n - 64 * t
    ensures m % 64 == n % 64
  {
  }

  lemma Eighth(x: int, m: int)
    requires x == 8 * m
    ensures x / 8 == m
  {
  }

  lemma CountIndex(lo: word32, hi: word32, n: nat)
    requires (lo, hi) == BitLength(n)
    ensures lo as int / 8 % 64 == n % 64
  {
    var q := 8 * n / 0x1_0000_0000_0000_0000;
    var t := 0x80_0000_0000_0000 * q + 0x80_0000 * hi as int;
    assert lo as int == 8 * (n - 64 * t);
    Eighth(lo as int, n - 64 * t);
    SameRemainder(n, n - 64 * t, t);
  }

  lemma AdvanceAdds(lo: word32, hi: word32, len: word32) returns (k: nat)
    ensures var (lo', hi') := Advance(lo, hi, len);
      lo as int + 0x1_0000_0000 * hi as int + 8 * len as int
      == lo' as int + 0x1_0000_0000 * hi' as int + 0x1_0000_0000_0000_0000 * k
  {
    var l: int, h: int, n: int := lo, hi, len;
    var bits, high := n * 8 % 0x1_0000_0000, n / 0x2000_0000;
    var carry := if (l + bits) % 0x1_0000_0000 < bits then 1 else 0;
    assert n * 8 == 0x1_0000_0000 * high + bits;
    assert (l + bits) % 0x1_0000_0000 == l + bits - 0x1_0000_0000 * carry;
    var h1 := (h + carry) % 0x1_0000_0000;
    k := (h + carry) / 0x1_0000_0000 + (h1 + high) / 0x1_0000_0000;
  }

  lemma BitLengthUnique(n: nat, lo: word32, hi: word32, k: nat)
    requires 8 * n == lo as int + 0x1_0000_0000 * hi as int + 0x1_0000_0000_0000_0000 * k
    ensures BitLength(n) == (lo, hi)
  {
    var value := lo as int + 0x1_0000_0000 * hi as int;
    assert 8 * n % 0x1_0000_0000_0000_0000 == value;
    assert value % 0x1_0000_0000 == lo as int && value / 0x1_0000_0000 == hi as int;
  }

  lemma CountAdvances(lo: word32, hi: word32, n: nat, len: word32)
    requires (lo, hi) == BitLength(n)
    ensures Advance(lo, hi, len) == BitLength(n + len as int)
  {
    hide Advance, BitLength;
    var k := AdvanceAdds(lo, hi, len);
    var (lo', hi') := Advance(lo, hi, len);
    var q := 8 * n / 0x1_0000_0000_0000_0000;
    BitLengthUnique(n + len as int, lo', hi', k + q);
  }

  /** `i + 63` on 32-bit words. */
  function Plus63(i: int): int { (i + 63) % 0x1_0000_0000 }

  /** Where the block loop of an update may stand: n bytes came before the update. */
  predicate AtBlock(i: int, n: nat, len: nat) { 0 <= i <= len && (n + i) % 64 == 0 }

  /** The last place of the loop, if there is one at all, is not beyond 2^32 - 64. */
  predicate UpdateFits(n: nat, len: nat) {
    len < 0x1_0000_0000 && (n % 64 + len < 64 || len - (n + len) % 64 <= MAX_UPDATE)
  }

  lemma LastBlock(i: int, n: nat, len: nat)
    requires AtBlock(i, n, len)
    ensures i <= len - (n + len) % 64
  {
    var q := (n + i) / 64;
    assert n + len == 64 * q + (len - i);
  }

  lemma LastIsBlock(n: nat, len: nat)
    requires n % 64 + len >= 64
    ensures AtBlock(len - (n + len) % 64, n, len)
  {
  }

  lemma Wraps(i: int, len: nat)
    requires 0 <= i <= len < 0x1_0000_0000
    ensures (Plus63(i) < len <==> i + 63 < len) <==> i <= MAX_UPDATE || i + 63 < len
  {
    if i > MAX_UPDATE {
      assert Plus63(i) == i + 63 - 0x1_0000_0000;
    }
  }

  lemma NextBlock(i: nat, n: nat)
    requires (n + i) % 64 == 0
    ensures (n + (i + 64)) % 64 == 0
  {
  }

  /** The first block ends where the buffer is full. */
  lemma NextPlace(n: nat, i: nat)
    requires i == 64 - n % 64
    ensures (n + i) % 64 == 0
  {
    assert n + i == 64 * (n / 64 + 1);
    Multiple64(n / 64 + 1);
  }

  /** An update is safe exactly when the loop test `i + 63 < inputLen` on 32-bit words means what it says
      wherever the loop may stand, and every update of at most MAX_UPDATE bytes is. */
  lemma LoopTestIff(n: nat, len: nat)
    requires len < 0x1_0000_0000 && n % 64 + len >= 64
    ensures UpdateFits(n, len)
       <==> forall i :: AtBlock(i, n, len) ==> (Plus63(i) < len <==> i + 63 < len)
    ensures len <= MAX_UPDATE ==> UpdateFits(n, len)
  {
    hide AtBlock, Plus63;
    var last := len - (n + len) % 64;
    LastIsBlock(n, len);
    assert last + 63 >= len;
    Wraps(last, len);
    forall i | AtBlock(i, n, len) && last <= MAX_UPDATE
      ensures Plus63(i) < len <==> i + 63 < len
    {
      LastBlock(i, n, len);
      BlockBounds(i, n, len);
      Wraps(i, len);
    }
    BlockBounds(last, n, len);
  }

  lemma BlockBounds(i: int, n: nat, len: nat)
    requires AtBlock(i, n, len)
    ensures 0 <= i <= len
  {
  }

  lemma PaddingCount(n: nat, padLen: nat)
    requires padLen == if n % 64 < 56 then 56 - n % 64 else 120 - n % 64
    ensures padLen - 1 == (55 - n) % 64
  {
  }

  /** The two updates of MD5Pad make up the padding. */
  lemma PadIs(m: seq<byte>, padLen: nat, bits: seq<byte>)
    requires padLen == if |m| % 64 < 56 then 56 - |m| % 64 else 120 - |m| % 64
    requires bits == LengthField(|m|)
    ensures m + ([0x80] + seq(padLen - 1, _ => 0)) + bits == Pad(m)
  {
    hide LengthField;
    PaddingCount(|m|, padLen);
    var zeros: seq<byte> := seq(padLen - 1, _ => 0);
    assert m + ([0x80] + zeros) + bits == m + [0x80] + zeros + bits;
  }

  /** Largest update the loop test `i + 63 < inputLen` handles without wrapping around. */
  const MAX_UPDATE := 0xffff_ffc0

  class Context {
    const state: array<word32>
    const count: array<word32>
    const buffer: array<byte>
    ghost var absorbed: seq<byte>

    /** The count is the bit length modulo 2^64, the state hashes the whole blocks, and the buffer
        holds the bytes after them. */
    ghost predicate Valid()
      reads this, state, count, buffer
    {
      && state.Length == 4 && count.Length == 2 && buffer.Length == 64 && state != count
      && (count[0], count[1]) == BitLength(|absorbed|)
      && ChainOf(state[..]) == Hashed(absorbed)
      && buffer[..|absorbed| % 64] == absorbed[Whole(|absorbed|)..]
    }

    constructor Init()
      ensures Valid() && fresh(state) && fresh(count) && fresh(buffer)
      ensures absorbed == []
    {
      state := new word32[] [0x67452301, 0xefcdab89, 0x98badcfe, 0x10325476];
      count := new word32[] [0, 0];
      buffer := new byte[64];
      absorbed := [];
    }

    /** The two statements that advance the bit count by an update of `len` bytes. */
    method AddLength(len: word32)
      requires count.Length == 2
      modifies count
      ensures (count[0], count[1]) == Advance(old(count[0]), old(count[1]), len)
    {
      var bits := len as int * 8 % 0x1_0000_0000;
      count[0] := (count[0] as int + bits) % 0x1_0000_0000;
      if count[0] < bits {
        count[1] := (count[1] as int + 1) % 0x1_0000_0000;
      }
      count[1] := (count[1] as int + len as int / 0x2000_0000) % 0x1_0000_0000;
    }

    method CopyToBuffer(index: nat, source: seq<byte>)
      requires index + |source| <= buffer.Length
      modifies buffer
      ensures buffer[..index + |source|] == old(buffer[..index]) + source
    {
      forall j | 0 <= j < |source| {
        buffer[index + j] := source[j];
      }
    }

    /** Compresses the buffer, completed from the front of `input`. */
    method CompleteBlock(input: seq<byte>, index: nat, ghost before: seq<byte>)
      requires state.Length == 4 && buffer.Length == 64
      requires index == |before| % 64 && 64 - index <= |input|
      requires buffer[..index] == before[Whole(|before|)..]
      requires ChainOf(state[..]) == Hashed(before)
      modifies state, buffer
      ensures ChainOf(state[..]) == Hashed(before + input[..64 - index])
    {
      hide Compress, Hashed;
      WholeParts(|before|);
      ghost var front, kept := before[..Whole(|before|)], before[Whole(|before|)..];
      ghost var block := kept + input[..64 - index];
      assert before == front + kept;
      HashedIgnoresTail(front, kept);
      CopyToBuffer(index, input[..64 - index]);
      assert buffer[..64] == buffer[..] == block;
      Transform(state, buffer[..]);
      HashedSnoc(front, block);
      assert front + block == before + input[..64 - index];
    }

    /** Completes the buffered block and compresses the whole blocks of `input` that follow it. */
    method TransformBlocks(input: seq<byte>, index: nat, ghost before: seq<byte>) returns (i: nat)
      requires state.Length == 4 && buffer.Length == 64 && UpdateFits(|before|, |input|)
      requires index == |before| % 64 && 64 - index <= |input|
      requires buffer[..index] == before[Whole(|before|)..]
      requires ChainOf(state[..]) == Hashed(before)
      modifies state, buffer
      ensures i <= |input| < i + 64 && (|before| + i) % 64 == 0
      ensures ChainOf(state[..]) == Hashed(before + input[..i])
    {
      hide Compress, Hashed, Plus63, Whole;
      CompleteBlock(input, index, before);
      i := 64 - index;
      LoopTestIff(|before|, |input|);
      NextPlace(|before|, i);
      while Plus63(i) < |input|
        invariant AtBlock(i, |before|, |input|)
        invariant ChainOf(state[..]) == Hashed(before + input[..i])
        decreases |input| - i
      {
        assert i + 63 < |input|;
        Transform(state, input[i..i + 64]);
        HashedSnoc(before + input[..i], input[i..i + 64]);
        assert before + input[..i] + input[i..i + 64] == before + input[..i + 64];
        NextBlock(i, |before|);
        i := i + 64;
      }
    }

    method Update(input: seq<byte>)
      requires Valid() && UpdateFits(|absorbed|, |input|)
      modifies this, state, count, buffer
      ensures Valid() && absorbed == old(absorbed) + input
    {
      hide Hashed, BitLength, Advance;
      CountIndex(count[0], count[1], |absorbed|);
      CountAdvances(count[0], count[1], |absorbed|, |input|);
      var index := count[0] as int / 8 % 64;
      AddLength(|input|);
      var i := 0;
      WholeParts(|absorbed|);
      ghost var whole, kept := absorbed[..Whole(|absorbed|)], absorbed[Whole(|absorbed|)..];
      assert absorbed == whole + kept;
      HashedIgnoresTail(whole, kept);
      if |input| >= 64 - index {
        i := TransformBlocks(input, index, absorbed);
        index := 0;
        whole, kept := absorbed + input[..i], [];
      }
      assert buffer[..index] == kept && absorbed + input == whole + (kept + input[i..]);
      StoreRest(input[i..], index, whole, absorbed + input);
    }

    /** What is left of the input goes into the buffer. */
    method StoreRest(rest: seq<byte>, index: nat, ghost whole: seq<byte>, ghost all: seq<byte>)
      requires state.Length == 4 && count.Length == 2 && buffer.Length == 64 && state != count
      requires (count[0], count[1]) == BitLength(|all|)
      requires |whole| % 64 == 0 && index + |rest| < 64
      requires ChainOf(state[..]) == Hashed(whole)
      requires all == whole + (buffer[..index] + rest)
      modifies this`absorbed, buffer
      ensures Valid() && absorbed == all
    {
      hide Hashed, BitLength;
      HashedIgnoresTail(whole, buffer[..index] + rest);
      WholeIs(|all|, |whole|);
      CopyToBuffer(index, rest);
      absorbed := all;
    }

    /** Feeds the padding of section 3.1 and 3.2 of RFC 1321. */
    method PadOut()
      requires Valid()
      modifies this, state, count, buffer
      ensures Valid() && absorbed == Pad(old(absorbed))
    {
      hide Hashed, BitLength, EncodeWords, Pad;
      ghost var m := absorbed;
      CountIndex(count[0], count[1], |m|);
      var bits := Encode(count);
      assert count[..] == [BitLength(|m|).0, BitLength(|m|).1];
      var index := count[0] as int / 8 % 64;
      var padLen := if index < 56 then 56 - index else 120 - index;
      PadIs(m, padLen, bits[..]);
      Update([0x80] + seq(padLen - 1, _ => 0));
      Update(bits[..]);
    }

    method Final() returns (digest: array<byte>)
      requires Valid()
      modifies this, state, count, buffer
      ensures fresh(digest) && digest[..] == Md5(old(absorbed))
      ensures forall i :: 0 <= i < 4 ==> state[i] == 0
      ensures forall i :: 0 <= i < 2 ==> count[i] == 0
      ensures forall i :: 0 <= i < 64 ==> buffer[i] == 0
    {
      hide CompressAll, Blocks, Pad, EncodeWords;
      ghost var m := absorbed;
      PadOut();
      PadLength(m);
      WholeIs(|absorbed|, |absorbed|);
      assert absorbed[..|absorbed|] == Pad(m);
      digest := Encode(state);
      assert state[..] == [state[0], state[1], state[2], state[3]];
      forall i | 0 <= i < 4 {
        state[i] := 0;
      }
      forall i | 0 <= i < 2 {
        count[i] := 0;
      }
      forall i | 0 <= i < 64 {
        buffer[i] := 0;
      }
      absorbed := [];
    }
  }

  /** How much comes before update number i. */
  function Before(pieces: seq<seq<byte>>, i: nat): nat
    requires i <= |pieces|
  {
    |Flatten(pieces[..i])|
  }

  /** However a message is cut into updates that are safe, the digest is the one of the whole message. */
  method DigestInPieces(pieces: seq<seq<byte>>) returns (digest: seq<byte>)
    requires forall i :: 0 <= i < |pieces| ==> UpdateFits(Before(pieces, i), |pieces[i]|)
    ensures digest == Md5(Flatten(pieces))
  {
    hide Md5, Hashed, BitLength, UpdateFits;
    var context := new Context.Init();
    for i := 0 to |pieces|
      invariant context.Valid() && fresh(context)
      invariant fresh(context.state) && fresh(context.count) && fresh(context.buffer)
      invariant context.absorbed == Flatten(pieces[..i])
    {
      assert UpdateFits(Before(pieces, i), |pieces[i]|);
      context.Update(pieces[i]);
      assert pieces[..i + 1] == pieces[..i] + [pieces[i]];
      FlattenAppend(pieces[..i], [pieces[i]]);
      assert Flatten([pieces[i]]) == pieces[i] + [];
    }
    assert pieces[..|pieces|] == pieces;
    var d := context.Final();
    digest := d[..];
  }

  /** Updates of at most 2^32 - 64 bytes are always safe. */
  lemma ShortUpdatesFit(n: nat, len: nat)
    requires len <= MAX_UPDATE
    ensures UpdateFits(n, len)
  {
  }
}
