/** MD5 as section 3 of RFC 1321 defines it, on byte strings of any length. */
module Md5Spec {
  import opened Bytes

  datatype Chain = Chain(a: word32, b: word32, c: word32, d: word32)

  type Block = b: seq<byte> | |b| == 64 witness seq(64, _ => 0)

  function Blocks(data: seq<byte>): seq<Block>
    requires |data| % 64 == 0
    decreases |data|
  {
    if data == [] then [] else [data[..64]] + Blocks(data[64..])
  }

  const INITIAL := Chain(0x67452301, 0xefcdab89, 0x98badcfe, 0x10325476)

  // ---------- 32-bit words ----------

  function Add(x: word32, y: word32): word32 { (x as int + y as int) % 0x1_0000_0000 }

  function FromBits(b: bv32): word32 { b as int }

  function Bits(x: word32): bv32 { x as bv32 }

  function F(x: word32, y: word32, z: word32): word32 {
    FromBits((Bits(x) & Bits(y)) | (!Bits(x) & Bits(z)))
  }

  function G(x: word32, y: word32, z: word32): word32 {
    FromBits((Bits(x) & Bits(z)) | (Bits(y) & !Bits(z)))
  }

  function H(x: word32, y: word32, z: word32): word32 {
    FromBits(Bits(x) ^ Bits(y) ^ Bits(z))
  }

  function I(x: word32, y: word32, z: word32): word32 {
    FromBits(Bits(y) ^ (Bits(x) | !Bits(z)))
  }

  function Power(n: nat): (p: nat)
    ensures p > 0
  {
    if n == 0 then 1 else 2 * Power(n - 1)
  }

  lemma {:induction false} PowerAdds(m: nat, n: nat)
    ensures Power(m + n) == Power(m) * Power(n)
  {
    if m > 0 {
      PowerAdds(m - 1, n);
      assert Power(m + n) == 2 * (Power(m - 1) * Power(n)) == Power(m) * Power(n);
    }
  }

  lemma Power32()
    ensures Power(32) == 0x1_0000_0000
  {
    assert Power(8) == 0x100;
    hide Power;
    PowerAdds(8, 8);
    PowerAdds(16, 16);
  }

  lemma MulMonotone(a: nat, b: nat, c: nat)
    requires a <= b
    ensures a * c <= b * c
  {
  }

  lemma Quotient(a: nat, b: nat, c: nat, q: nat)
    requires a == b * q + c && c < q
    ensures a / q == b && a % q == c
  {
    if a / q < b {
      MulMonotone(a / q + 1, b, q);
    } else if a / q > b {
      MulMonotone(b + 1, a / q, q);
    }
  }

  /** A number of 32 bits in two parts, and what a multiplication does to it. */
  lemma Product(a: nat, b: nat, c: nat, p: nat, q: nat)
    requires a == b * q + c && c < q && p * q == 0x1_0000_0000 && a < 0x1_0000_0000
    ensures b < p && c * p + p <= 0x1_0000_0000 && a * p == 0x1_0000_0000 * b + c * p
  {
    if b >= p {
      MulMonotone(p, b, q);
    }
    MulMonotone(c + 1, q, p);
    Regroup(a, b, c, p, q);
  }

  lemma Regroup(a: nat, b: nat, c: nat, p: nat, q: nat)
    requires a == b * q + c
    ensures a * p == b * (p * q) + c * p && (c + 1) * p == c * p + p && q * p == p * q
  {
  }

  function Turned(x: nat, p: nat, q: nat): nat
    requires q > 0
  {
    x * p % 0x1_0000_0000 + x / q
  }

  lemma TurnedSum(x: nat, p: nat, q: nat, high: nat, rest: nat)
    requires q > 0 && x / q == high && x * p % 0x1_0000_0000 == rest
    ensures Turned(x, p, q) == rest + high
  {
  }

  lemma Remainder(a: nat, b: nat, c: nat)
    requires a == 0x1_0000_0000 * b + c && c < 0x1_0000_0000
    ensures a % 0x1_0000_0000 == c
  {
  }

  lemma ProductParts(x: nat, p: nat, q: nat, high: nat, low: nat)
    requires x == high * q + low && low < q && p * q == 0x1_0000_0000 && x < 0x1_0000_0000
    ensures high < p && low * p + high < 0x1_0000_0000 && x * p % 0x1_0000_0000 == low * p
  {
    Product(x, high, low, p, q);
    Remainder(x * p, high, low * p);
  }

  lemma TurnedParts(x: word32, n: nat, high: nat, low: nat)
    requires 0 < n < 32 && x as int == high * Power(32 - n) + low && low < Power(32 - n)
    ensures high < Power(n) && low * Power(n) + high < 0x1_0000_0000
    ensures Turned(x, Power(n), Power(32 - n)) == low * Power(n) + high
  {
    PowerAdds(n, 32 - n);
    Power32();
    hide Power, Turned;
    ProductParts(x, Power(n), Power(32 - n), high, low);
    Quotient(x, high, low, Power(32 - n));
    TurnedSum(x, Power(n), Power(32 - n), high, low * Power(n));
  }

  lemma Division(x: nat, q: nat)
    requires q > 0
    ensures x == x / q * q + x % q && x % q < q
  {
  }

  lemma TurnedInRange(x: word32, n: nat)
    requires 0 < n < 32
    ensures Turned(x, Power(n), Power(32 - n)) < 0x1_0000_0000
  {
    hide Power, Turned;
    Division(x, Power(32 - n));
    TurnedParts(x, n, x as int / Power(32 - n), x as int % Power(32 - n));
  }

  /** `(x << n) | (x >> (32 - n))` on 32-bit words: a shift to the left multiplies and drops the overflow, a shift
      to the right divides, and the two results have no bit in common. */
  function RotateLeft(x: word32, n: nat): word32
    requires 0 < n < 32
  {
    TurnedInRange(x, n);
    Turned(x, Power(n), Power(32 - n))
  }

  /** Rotating moves the low bits up by n places and brings the n high bits in below them. */
  lemma RotationMoves(x: word32, n: nat, high: nat, low: nat)
    requires 0 < n < 32 && x as int == high * Power(32 - n) + low && low < Power(32 - n)
    ensures high < Power(n) && RotateLeft(x, n) as int == low * Power(n) + high
  {
    hide Power, Turned;
    TurnedParts(x, n, high, low);
  }

  // ---------- the compression of one block, table driven ----------

  /** The integer part of 2^32 times |sin(i + 1)|. */
  function Sine(i: nat): word32
    requires i < 64
  {
    if i < 16 then Sine1(i) else if i < 32 then Sine2(i - 16) else if i < 48 then Sine3(i - 32) else Sine4(i - 48)
  }

  function Sine1(i: nat): word32
    requires i < 16
  {
    match i
    case 0 => 0xd76aa478 case 1 => 0xe8c7b756 case 2 => 0x242070db case 3 => 0xc1bdceee
    case 4 => 0xf57c0faf case 5 => 0x4787c62a case 6 => 0xa8304613 case 7 => 0xfd469501
    case 8 => 0x698098d8 case 9 => 0x8b44f7af case 10 => 0xffff5bb1 case 11 => 0x895cd7be
    case 12 => 0x6b901122 case 13 => 0xfd987193 case 14 => 0xa679438e case 15 => 0x49b40821
  }

  function Sine2(i: nat): word32
    requires i < 16
  {
    match i
    case 0 => 0xf61e2562 case 1 => 0xc040b340 case 2 => 0x265e5a51 case 3 => 0xe9b6c7aa
    case 4 => 0xd62f105d case 5 => 0x02441453 case 6 => 0xd8a1e681 case 7 => 0xe7d3fbc8
    case 8 => 0x21e1cde6 case 9 => 0xc33707d6 case 10 => 0xf4d50d87 case 11 => 0x455a14ed
    case 12 => 0xa9e3e905 case 13 => 0xfcefa3f8 case 14 => 0x676f02d9 case 15 => 0x8d2a4c8a
  }

  function Sine3(i: nat): word32
    requires i < 16
  {
    match i
    case 0 => 0xfffa3942 case 1 => 0x8771f681 case 2 => 0x6d9d6122 case 3 => 0xfde5380c
    case 4 => 0xa4beea44 case 5 => 0x4bdecfa9 case 6 => 0xf6bb4b60 case 7 => 0xbebfbc70
    case 8 => 0x289b7ec6 case 9 => 0xeaa127fa case 10 => 0xd4ef3085 case 11 => 0x04881d05
    case 12 => 0xd9d4d039 case 13 => 0xe6db99e5 case 14 => 0x1fa27cf8 case 15 => 0xc4ac5665
  }

  function Sine4(i: nat): word32
    requires i < 16
  {
    match i
    case 0 => 0xf4292244 case 1 => 0x432aff97 case 2 => 0xab9423a7 case 3 => 0xfc93a039
    case 4 => 0x655b59c3 case 5 => 0x8f0ccc92 case 6 => 0xffeff47d case 7 => 0x85845dd1
    case 8 => 0x6fa87e4f case 9 => 0xfe2ce6e0 case 10 => 0xa3014314 case 11 => 0x4e0811a1
    case 12 => 0xf7537e82 case 13 => 0xbd3af235 case 14 => 0x2ad7d2bb case 15 => 0xeb86d391
  }

  function Mixed(i: nat, b: word32, c: word32, d: word32): word32 {
    if i < 16 then F(b, c, d) else if i < 32 then G(b, c, d) else if i < 48 then H(b, c, d) else I(b, c, d)
  }

  function WordIndex(i: nat): nat {
    if i < 16 then i else if i < 32 then (5 * i + 1) % 16 else if i < 48 then (3 * i + 5) % 16 else 7 * i % 16
  }

  function Shift(i: nat): (n: nat)
    ensures 0 < n < 32
  {
    var column := i % 4;
    if i < 16 then if column == 0 then 7 else if column == 1 then 12 else if column == 2 then 17 else 22
    else if i < 32 then if column == 0 then 5 else if column == 1 then 9 else if column == 2 then 14 else 20
    else if i < 48 then if column == 0 then 4 else if column == 1 then 11 else if column == 2 then 16 else 23
    else if column == 0 then 6 else if column == 1 then 10 else if column == 2 then 15 else 21
  }

  /** Operation i (from 0) on [abcd]: a := b + ((a + mixed + word + sine) <<< shift); the next one
      works on [dabc]. */
  function Operation(s: Chain, x: seq<word32>, i: nat): Chain
    requires |x| == 16 && i < 64
  {
    var sum := Add(s.a, Add(Add(Mixed(i, s.b, s.c, s.d), x[WordIndex(i)]), Sine(i)));
    Chain(s.d, Add(RotateLeft(sum, Shift(i)), s.b), s.b, s.c)
  }

  /** Operations `first` to `end - 1`, one after the other. */
  function Operations(s: Chain, x: seq<word32>, first: nat, end: nat): Chain
    requires |x| == 16 && first <= end <= 64
    decreases end - first
  {
    if first == end then s else Operations(Operation(s, x, first), x, first + 1, end)
  }

  lemma {:induction false} OperationsSplit(s: Chain, x: seq<word32>, first: nat, mid: nat, end: nat)
    requires |x| == 16 && first <= mid <= end <= 64
    ensures Operations(s, x, first, end) == Operations(Operations(s, x, first, mid), x, mid, end)
    decreases mid - first
  {
    hide Operation;
    if first < mid {
      OperationsSplit(Operation(s, x, first), x, first + 1, mid, end);
    }
  }

  function DecodeWords(s: seq<byte>): (words: seq<word32>)
    requires |s| % 4 == 0
    ensures |words| == |s| / 4
  {
    if s == [] then [] else [FromLittleEndian32(s[..4])] + DecodeWords(s[4..])
  }

  function EncodeWords(words: seq<word32>): (s: seq<byte>)
    ensures |s| == 4 * |words|
  {
    if words == [] then [] else LittleEndian32(words[0]) + EncodeWords(words[1..])
  }

  function Compress(s: Chain, block: Block): Chain {
    var x := DecodeWords(block);
    var t := Operations(s, x, 0, 4 * |x|);
    Chain(Add(s.a, t.a), Add(s.b, t.b), Add(s.c, t.c), Add(s.d, t.d))
  }

  function CompressAll(s: Chain, blocks: seq<Block>): Chain
    decreases |blocks|
  {
    if blocks == [] then s else CompressAll(Compress(s, blocks[0]), blocks[1..])
  }

  // ---------- padding and digest ----------

  /** The length in bits modulo 2^64, as two words, low word first. */
  function BitLength(n: nat): (w: (word32, word32))
    ensures w.0 + 0x1_0000_0000 * w.1 as int == 8 * n % 0x1_0000_0000_0000_0000
  {
    var bits := 8 * n % 0x1_0000_0000_0000_0000;
    (bits % 0x1_0000_0000, bits / 0x1_0000_0000)
  }

  function LengthField(n: nat): (s: seq<byte>)
    ensures |s| == 8
  {
    EncodeWords([BitLength(n).0, BitLength(n).1])
  }

  /** One bit 1, then zeros up to 56 mod 64 octets, then the bit length modulo 2^64. */
  function Pad(m: seq<byte>): seq<byte> {
    m + [0x80] + seq((55 - |m|) % 64, _ => 0) + LengthField(|m|)
  }

  lemma PadLength(m: seq<byte>)
    ensures |Pad(m)| % 64 == 0
    ensures |m| + 9 <= |Pad(m)| < |m| + 73
  {
    var zeros := (55 - |m|) % 64;
    assert (|m| + 9 + zeros) % 64 == 0;
  }

  function Md5(m: seq<byte>): (digest: seq<byte>)
    ensures |digest| == 16
  {
    PadLength(m);
    var t := CompressAll(INITIAL, Blocks(Pad(m)));
    EncodeWords([t.a, t.b, t.c, t.d])
  }

  lemma {:induction false} CompressAllAppend(s: Chain, left: seq<Block>, right: seq<Block>)
    ensures CompressAll(s, left + right) == CompressAll(CompressAll(s, left), right)
    decreases |left|
  {
    hide Compress;
    if left == [] {
      assert left + right == right;
    } else {
      assert (left + right)[0] == left[0] && (left + right)[1..] == left[1..] + right;
      CompressAllAppend(Compress(s, left[0]), left[1..], right);
    }
  }

  lemma BlocksUnfold(data: seq<byte>)
    requires |data| % 64 == 0 && data != []
    ensures |data| >= 64 && Blocks(data) == [data[..64]] + Blocks(data[64..])
  {
  }

  lemma BlocksNone()
    ensures Blocks([]) == []
  {
  }

  lemma {:induction false} BlocksAppend(left: seq<byte>, right: seq<byte>)
    requires |left| % 64 == 0 && |right| % 64 == 0
    ensures Blocks(left + right) == Blocks(left) + Blocks(right)
    decreases |left|
  {
    hide Blocks;
    if left == [] {
      BlocksNone();
      assert left + right == right;
    } else {
      BlocksUnfold(left);
      BlocksUnfold(left + right);
      assert (left + right)[..64] == left[..64] && (left + right)[64..] == left[64..] + right;
      BlocksAppend(left[64..], right);
    }
  }

  lemma BlocksOne(block: Block)
    ensures Blocks(block) == [block]
  {
    assert block[..64] == block && block[64..] == [];
  }

  lemma CompressOne(s: Chain, block: Block)
    ensures CompressAll(s, [block]) == Compress(s, block)
  {
    hide Compress;
    assert [block][1..] == [];
  }

  lemma {:induction false} DecodeEncodeWords(words: seq<word32>)
    ensures DecodeWords(EncodeWords(words)) == words
  {
    if words != [] {
      LittleEndian32RoundTrip(words[0]);
      DecodeEncodeWords(words[1..]);
      var s := EncodeWords(words);
      assert s[..4] == LittleEndian32(words[0]) && s[4..] == EncodeWords(words[1..]);
    }
  }

  lemma EncodeWordsInjective(ws: seq<word32>, vs: seq<word32>)
    requires EncodeWords(ws) == EncodeWords(vs)
    ensures ws == vs
  {
    DecodeEncodeWords(ws);
    DecodeEncodeWords(vs);
  }

  lemma Eightfold(m: nat)
    ensures 8 * m % 0x1_0000_0000_0000_0000 == 8 * (m % 0x2000_0000_0000_0000)
  {
    var p, r := m / 0x2000_0000_0000_0000, m % 0x2000_0000_0000_0000;
    assert 8 * m == 0x1_0000_0000_0000_0000 * p + 8 * r;
  }

  lemma EightfoldCongruent(m: nat, n: nat)
    requires 8 * m % 0x1_0000_0000_0000_0000 == 8 * n % 0x1_0000_0000_0000_0000
    ensures m % 0x2000_0000_0000_0000 == n % 0x2000_0000_0000_0000
  {
    Eightfold(m);
    Eightfold(n);
  }

  lemma LengthFieldInjective(m: nat, n: nat)
    requires LengthField(m) == LengthField(n)
    ensures m % 0x2000_0000_0000_0000 == n % 0x2000_0000_0000_0000
  {
    var p, q := BitLength(m), BitLength(n);
    EncodeWordsInjective([p.0, p.1], [q.0, q.1]);
    assert [p.0, p.1][0] == [q.0, q.1][0] && [p.0, p.1][1] == [q.0, q.1][1];
    EightfoldCongruent(m, n);
  }

  /** Padding loses nothing: no two messages have the same padded form. */
  lemma PadInjective(m: seq<byte>, n: seq<byte>)
    requires Pad(m) == Pad(n)
    ensures m == n
  {
    hide LengthField;
    PadLength(m);
    PadLength(n);
    var end := |Pad(m)|;
    assert Pad(m)[end - 8..] == LengthField(|m|) && Pad(n)[end - 8..] == LengthField(|n|);
    LengthFieldInjective(|m|, |n|);
    assert |m| == |n|;
    assert Pad(m)[..|m|] == m && Pad(n)[..|n|] == n;
  }
}
