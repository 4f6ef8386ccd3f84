/** Base64 as base64.c computes it, proved against the digits of 24-bit groups of section 4 of RFC 4648. */
module Base64 {
  import opened Bytes

  type Digit = d: int | 0 <= d < 64

  const NUL := 0 as char

  /** The alphabet `basis_64`. */
  function Basis(d: Digit): char {
    if d < 26 then ('A' as int + d) as char
    else if d < 52 then ('a' as int + d - 26) as char
    else if d < 62 then ('0' as int + d - 52) as char
    else if d == 62 then '+' else '/'
  }

  /** The table `pr2six`: the digit of a character, or 64. */
  function Pr2Six(c: char): (d: int)
    ensures 0 <= d <= 64
  {
    if 'A' <= c <= 'Z' then c as int - 'A' as int
    else if 'a' <= c <= 'z' then c as int - 'a' as int + 26
    else if '0' <= c <= '9' then c as int - '0' as int + 52
    else if c == '+' then 62 else if c == '/' then 63 else 64
  }

  /** Table 1 of RFC 4648 in ASCII codes; every other character ends the digits. */
  lemma AlphabetIs(d: Digit, c: char)
    ensures Basis(d) as int ==
            if d < 26 then 65 + d as int else if d < 52 then 71 + d as int else if d < 62 then d as int - 4
            else if d == 62 then 43 else 47
    ensures Pr2Six(c) < 64 <==>
            65 <= c as int <= 90 || 97 <= c as int <= 122 || 48 <= c as int <= 57 || c as int == 43 || c as int == 47
  {
  }

  lemma AlphabetInverse(d: Digit)
    ensures Pr2Six(Basis(d)) == d
  {
  }

  // ---------- the reference: digits of a number ----------

  /** The four base-64 digits of a 24-bit number. */
  function Quad(v: nat): (cs: string)
    requires v < 0x100_0000
    ensures |cs| == 4
  {
    [Basis(v / 262144), Basis(v / 4096 % 64), Basis(v / 64 % 64), Basis(v % 64)]
  }

  /** Three octets are a number of 24 bits; a last group of one or two octets is that number with zeros
      added on the right, less the digits that hold only such zeros, padded with "=". */
  function Encode(s: seq<byte>): string {
    if s == [] then ""
    else if |s| == 1 then Quad(s[0] as int * 0x1_0000)[..2] + "=="
    else if |s| == 2 then Quad(s[0] as int * 0x1_0000 + s[1] as int * 0x100)[..3] + "="
    else Quad(s[0] as int * 0x1_0000 + s[1] as int * 0x100 + s[2] as int) + Encode(s[3..])
  }

  predicate Digits(cs: string) { forall i :: 0 <= i < |cs| ==> Pr2Six(cs[i]) < 64 }

  /** The number whose base-64 digits these are, the missing ones being zero. */
  function Number(cs: string): (v: nat)
    requires Digits(cs) && |cs| <= 4
    ensures v < 0x100_0000
  {
    var d := (i: nat) => if i < |cs| then Pr2Six(cs[i]) else 0;
    d(0) * 262144 + d(1) * 4096 + d(2) * 64 + d(3)
  }

  /** The three octets of a 24-bit number. */
  function Octets(v: nat): (s: seq<byte>)
    requires v < 0x100_0000
    ensures |s| == 3
  {
    [v / 0x1_0000, v / 0x100 % 0x100, v % 0x100]
  }

  /** Four digits are a number of 24 bits; a last group of n digits gives n - 1 octets. */
  function Decode(cs: string): seq<byte>
    requires Digits(cs)
  {
    if |cs| < 2 then []
    else if |cs| < 4 then Octets(Number(cs))[..|cs| - 1]
    else Octets(Number(cs[..4])) + Decode(cs[4..])
  }

  /** How many characters from the start are digits: the scan both decoders begin with. */
  function CodedLength(coded: string): (n: nat)
    ensures n <= |coded| && Digits(coded[..n])
    ensures n < |coded| ==> Pr2Six(coded[n]) == 64
  {
    if coded == [] || Pr2Six(coded[0]) == 64 then 0 else 1 + CodedLength(coded[1..])
  }

  lemma {:induction false} CodedLengthIs(coded: string, n: nat)
    requires n < |coded| && Digits(coded[..n]) && Pr2Six(coded[n]) == 64
    ensures CodedLength(coded) == n
  {
    if n > 0 {
      assert Pr2Six(coded[..n][0]) < 64 && coded[1..][..n - 1] == coded[..n][1..];
      CodedLengthIs(coded[1..], n - 1);
    }
  }

  // ---------- the code ----------

  function EncodeLen(len: nat): nat { (len + 2) / 3 * 4 + 1 }

  function DecodeLen(coded: string): nat { (CodedLength(coded) + 3) / 4 * 3 + 1 }

  /** Three octets for each group of four digits that was begun, and one more. */
  lemma DecodeLenIs(coded: string, groups: nat, left: nat)
    requires CodedLength(coded) == 4 * groups + left && left < 4
    ensures DecodeLen(coded) == if left == 0 then 3 * groups + 1 else 3 * groups + 4
  {
  }

  lemma {:induction false} EncodeSize(s: seq<byte>)
    ensures |Encode(s)| + 1 == EncodeLen(|s|)
  {
    hide Quad;
    if |s| > 2 {
      EncodeSize(s[3..]);
    }
  }

  /** The quotients and remainders of a number given by its base-64 digits. */
  lemma DigitsOf(a: Digit, b: Digit, c: Digit, d: Digit)
    ensures var v := a as int * 262144 + b as int * 4096 + c as int * 64 + d as int;
      && v / 262144 == a as int && v / 4096 % 64 == b as int
      && v / 64 % 64 == c as int && v % 64 == d as int
  {
    var a': int, b': int, c': int, d': int := a, b, c, d;
    var v := a' * 262144 + b' * 4096 + c' * 64 + d';
    assert v / 64 == a' * 4096 + b' * 64 + c';
    assert v / 4096 == a' * 64 + b';
  }

  /** The shifts and masks of the code pick the digits of the group's number. */
  lemma QuadOfOctets(s0: byte, s1: byte, s2: byte)
    ensures Quad(s0 as int * 0x1_0000 + s1 as int * 0x100 + s2 as int)
         == [Basis(s0 as int / 4), Basis(s0 as int % 4 * 16 + s1 as int / 16),
             Basis(s1 as int % 16 * 4 + s2 as int / 64), Basis(s2 as int % 64)]
  {
    hide Basis;
    var x: int, y: int, z: int := s0, s1, s2;
    DigitsOf(x / 4, x % 4 * 16 + y / 16, y % 16 * 4 + z / 64, z % 64);
    assert x == x / 4 * 4 + x % 4 && y == y / 16 * 16 + y % 16 && z == z / 64 * 64 + z % 64;
  }

  /** The body of the loop: one whole group. */
  method EncodeGroup(encoded: array<char>, p: nat, s0: byte, s1: byte, s2: byte)
    requires p + 4 <= encoded.Length
    modifies encoded
    ensures encoded[..p + 4] == old(encoded[..p]) + Quad(s0 as int * 0x1_0000 + s1 as int * 0x100 + s2 as int)
  {
    hide Basis, Quad;
    QuadOfOctets(s0, s1, s2);
    encoded[p] := Basis(s0 as int / 4);
    encoded[p + 1] := Basis(s0 as int % 4 * 16 + s1 as int / 16);
    encoded[p + 2] := Basis(s1 as int % 16 * 4 + s2 as int / 64);
    encoded[p + 3] := Basis(s2 as int % 64);
  }

  /** What follows the loop: a group of one or two octets, padded. */
  method EncodeTail(encoded: array<char>, p: nat, s: seq<byte>)
    requires 1 <= |s| <= 2 && p + 4 <= encoded.Length
    modifies encoded
    ensures encoded[..p + 4] == old(encoded[..p]) + Encode(s)
  {
    hide Basis, Quad;
    ghost var before := encoded[..p];
    encoded[p] := Basis(s[0] as int / 4);
    if |s| == 1 {
      QuadOfOctets(s[0], 0, 0);
      encoded[p + 1] := Basis(s[0] as int % 4 * 16);
      encoded[p + 2] := '=';
    } else {
      QuadOfOctets(s[0], s[1], 0);
      encoded[p + 1] := Basis(s[0] as int % 4 * 16 + s[1] as int / 16);
      encoded[p + 2] := Basis(s[1] as int % 16 * 4);
    }
    encoded[p + 3] := '=';
    assert encoded[p..p + 4] == Encode(s);
    assert encoded[..p + 4] == before + encoded[p..p + 4];
  }

  /** Encodes and appends a null character; returns how much was written, that included. */
  method EncodeBinary(encoded: array<char>, s: seq<byte>) returns (written: nat)
    requires encoded.Length >= EncodeLen(|s|)
    modifies encoded
    ensures written == EncodeLen(|s|) && encoded[..written] == Encode(s) + [0 as char]
  {
    hide Quad, Encode, EncodeLen;
    EncodeSize(s);
    var i, p := 0, 0;
    assert s[0..] == s;
    while i < |s| - 2
      invariant 0 <= i <= |s| && 0 <= p && p + |Encode(s[i..])| == |Encode(s)|
      invariant encoded[..p] + Encode(s[i..]) == Encode(s)
    {
      assert s[i..][3..] == s[i + 3..];
      EncodeFirst(s[i..]);
      EncodeGroup(encoded, p, s[i], s[i + 1], s[i + 2]);
      i, p := i + 3, p + 4;
    }
    EncodeLast(s[i..]);
    if i < |s| {
      EncodeTail(encoded, p, s[i..]);
      p := p + 4;
    }
    assert encoded[..p] == Encode(s);
    encoded[p] := NUL;
    written := p + 1;
  }

  lemma EncodeLast(s: seq<byte>)
    ensures s == [] ==> Encode(s) == ""
    ensures 1 <= |s| <= 2 ==> |Encode(s)| == 4
  {
  }

  lemma OctetsOf(s0: byte, s1: byte, s2: byte)
    ensures Octets(s0 as int * 0x1_0000 + s1 as int * 0x100 + s2 as int) == [s0, s1, s2]
  {
    var v := s0 as int * 0x1_0000 + s1 as int * 0x100 + s2 as int;
    assert v / 0x100 == s0 as int * 0x100 + s1 as int;
  }

  /** The three octets of a group of digits, as shifts and masks compute them. */
  lemma OctetsOfDigits(a: Digit, b: Digit, c: Digit, d: Digit)
    ensures Octets(a as int * 262144 + b as int * 4096 + c as int * 64 + d as int)
         == [a as int * 4 + b as int / 16, b as int % 16 * 16 + c as int / 4, c as int % 4 * 64 + d as int]
  {
    hide Octets;
    var w: int, x: int, y: int, z: int := a, b, c, d;
    OctetsOf(w * 4 + x / 16, x % 16 * 16 + y / 4, y % 4 * 64 + z);
    assert w * 262144 + x * 4096 + y * 64 + z
        == (w * 4 + x / 16) * 0x1_0000 + (x % 16 * 16 + y / 4) * 0x100 + (y % 4 * 64 + z);
  }

  lemma {:induction false} DecodeSize(cs: string)
    requires Digits(cs)
    ensures |Decode(cs)| == |cs| / 4 * 3 + if |cs| % 4 == 0 then 0 else |cs| % 4 - 1
  {
    hide Octets, Number;
    if |cs| >= 4 {
      DecodeSize(cs[4..]);
    }
  }

  /** The loop over the characters that are digits. */
  method ScanDigits(coded: string) returns (n: nat)
    requires CodedLength(coded) < |coded|
    ensures n == CodedLength(coded)
  {
    n := 0;
    while Pr2Six(coded[n]) <= 63
      invariant n <= CodedLength(coded) && Digits(coded[..n])
      decreases |coded| - n
    {
      n := n + 1;
    }
    CodedLengthIs(coded, n);
  }

  /** The octets of one group of two to four digits. */
  method DecodeGroup(bufplain: array<byte>, p: nat, cs: string)
    requires 2 <= |cs| <= 4 && Digits(cs) && p + |cs| - 1 <= bufplain.Length
    modifies bufplain
    ensures bufplain[..p + |cs| - 1] == old(bufplain[..p]) + Octets(Number(cs))[..|cs| - 1]
  {
    hide Octets, Pr2Six;
    var a: int, b: int := Pr2Six(cs[0]), Pr2Six(cs[1]);
    var c: int := if |cs| > 2 then Pr2Six(cs[2]) else 0;
    var d: int := if |cs| > 3 then Pr2Six(cs[3]) else 0;
    OctetsOfDigits(a, b, c, d);
    bufplain[p] := a * 4 + b / 16;
    if |cs| > 2 {
      bufplain[p + 1] := b % 16 * 16 + c / 4;
    }
    if |cs| > 3 {
      bufplain[p + 2] := c % 4 * 64 + d;
    }
  }

  /** The loop over whole groups; the last group, even a whole one, is left over. */
  method DecodeGroups(bufplain: array<byte>, all: string) returns (out: nat, left: nat)
    requires Digits(all) && |Decode(all)| <= bufplain.Length
    modifies bufplain
    ensures left <= 4 && left <= |all| && (left > 0 || all == "") && (|all| - left) % 4 == 0
    ensures out + |Decode(all[|all| - left..])| == |Decode(all)|
    ensures bufplain[..out] + Decode(all[|all| - left..]) == Decode(all)
  {
    hide Octets, Number, Decode, Digits;
    var i: nat := 0;
    out, left := 0, |all|;
    assert all[0..] == all;
    while left > 4
      invariant i + left == |all| && (left > 0 || all == "")
      invariant i % 4 == 0 && Digits(all[i..])
      invariant out + |Decode(all[i..])| == |Decode(all)|
      invariant bufplain[..out] + Decode(all[i..]) == Decode(all)
      decreases left
    {
      assert all[i..][..4] == all[i..i + 4] && all[i..][4..] == all[i + 4..];
      DigitsOfSlice(all, i);
      DigitsOfSlice(all, i + 4);
      FirstGroup(all[i..]);
      DecodeGroup(bufplain, out, all[i..i + 4]);
      out, i, left := out + 3, i + 4, left - 4;
    }
  }

  /** Decodes the digits that head `coded`, up to its terminator or padding; returns the octet count. */
  method DecodeBinary(bufplain: array<byte>, coded: string) returns (decoded: nat)
    requires CodedLength(coded) < |coded| && bufplain.Length >= DecodeLen(coded)
    modifies bufplain
    ensures decoded == |Decode(coded[..CodedLength(coded)])| < DecodeLen(coded)
    ensures bufplain[..decoded] == Decode(coded[..CodedLength(coded)])
  {
    hide Octets, Number, Decode, CodedLength, DecodeLen, Digits, Count;
    var n := ScanDigits(coded);
    var all := coded[..n];
    DecodedFits(coded);
    var out, left := DecodeGroups(bufplain, all);
    var last := all[n - left..];
    DigitsOfSlice(all, n - left);
    DecodedCount(all, left);
    ghost var before := bufplain[..out];
    if left > 1 {
      LastGroup(last);
      DecodeGroup(bufplain, out, last);
    } else {
      NoTail(last);
    }
    decoded := Count(n, left);
    assert bufplain[..decoded] == before + Decode(last);
  }

  lemma DigitsOfSlice(cs: string, i: nat)
    requires Digits(cs) && i <= |cs|
    ensures Digits(cs[i..]) && (i + 4 <= |cs| ==> Digits(cs[i..i + 4]))
  {
  }

  /** What the code computes as the count, from n digits and those left over for the last group. */
  function Count(n: nat, left: nat): int { (n + 3) / 4 * 3 - (4 - left) % 4 }

  lemma DecodedCount(cs: string, left: nat)
    requires Digits(cs) && left <= 4 && left <= |cs| && (left > 0 || cs == "") && (|cs| - left) % 4 == 0
    ensures Count(|cs|, left) == |Decode(cs)|
  {
    hide Digits, Decode;
    DecodeSize(cs);
    var q := (|cs| - left) / 4;
    assert |cs| == 4 * q + left;
  }

  lemma DecodedFits(coded: string)
    ensures |Decode(coded[..CodedLength(coded)])| < DecodeLen(coded)
  {
    hide Digits, Decode, CodedLength;
    DecodeSize(coded[..CodedLength(coded)]);
  }

  lemma NoTail(cs: string)
    requires |cs| < 2 && Digits(cs)
    ensures Decode(cs) == []
  {
  }

  lemma FirstGroup(cs: string)
    requires Digits(cs) && |cs| >= 4
    ensures Decode(cs) == Octets(Number(cs[..4])) + Decode(cs[4..])
  {
  }

  lemma LastGroup(cs: string)
    requires Digits(cs) && 2 <= |cs| <= 4
    ensures Decode(cs) == Octets(Number(cs))[..|cs| - 1] && |Decode(cs)| == |cs| - 1
  {
    hide Octets, Number;
    if |cs| == 4 {
      assert cs[..4] == cs && cs[4..] == "";
    }
  }

  // ---------- examples ----------

  /** The digits of a group of one, two or three octets, and its padding. */
  lemma GroupIs(x: byte, y: byte, z: byte)
    ensures var a, b := Basis(x as int / 4), Basis(x as int % 4 * 16 + y as int / 16);
      var c, d := Basis(y as int % 16 * 4 + z as int / 64), Basis(z as int % 64);
      && Encode([x]) == [a, Basis(x as int % 4 * 16), '=', '=']
      && Encode([x, y]) == [a, b, Basis(y as int % 16 * 4), '=']
      && Encode([x, y, z]) == [a, b, c, d]
  {
    hide Quad, Basis;
    QuadOfOctets(x, 0, 0);
    QuadOfOctets(x, y, 0);
    QuadOfOctets(x, y, z);
    assert [x, y, z][3..] == [];
  }

  lemma {:induction false} EncodeGroupFirst(s: seq<byte>, t: seq<byte>)
    requires |s| == 3
    ensures Encode(s + t) == Encode(s) + Encode(t)
  {
    hide Quad;
    if t == [] {
      assert s + t == s;
    } else {
      EncodeFirst(s + t);
      EncodeFirst(s);
      assert (s + t)[3..] == t && s[3..] == [];
    }
  }

  /** The test vectors of section 10 of RFC 4648. */
  lemma Vectors()
    ensures Encode([]) == ""
    ensures Encode([0x66]) == "Zg==" && Encode([0x66, 0x6f]) == "Zm8=" && Encode([0x66, 0x6f, 0x6f]) == "Zm9v"
    ensures Encode([0x66, 0x6f, 0x6f] + [0x62]) == "Zm9vYg=="
    ensures Encode([0x66, 0x6f, 0x6f] + [0x62, 0x61]) == "Zm9vYmE="
    ensures Encode([0x66, 0x6f, 0x6f] + [0x62, 0x61, 0x72]) == "Zm9vYmFy"
  {
    EncodeLast([]);
    hide Encode;
    GroupIs(0x66, 0x6f, 0x6f);
    GroupIs(0x62, 0x61, 0x72);
    EncodeGroupFirst([0x66, 0x6f, 0x6f], [0x62]);
    EncodeGroupFirst([0x66, 0x6f, 0x6f], [0x62, 0x61]);
    EncodeGroupFirst([0x66, 0x6f, 0x6f], [0x62, 0x61, 0x72]);
  }

  // ---------- what comes back ----------

  lemma QuadNumber(v: nat)
    requires v < 0x100_0000
    ensures Digits(Quad(v)) && Number(Quad(v)) == v
  {
    hide Basis, Pr2Six;
    AlphabetInverse(v / 262144);
    AlphabetInverse(v / 4096 % 64);
    AlphabetInverse(v / 64 % 64);
    AlphabetInverse(v % 64);
    assert v / 4096 == v / 64 / 64 && v / 262144 == v / 4096 / 64;
  }

  /** Dropping digits that are zero does not change the number. */
  lemma ShortQuadNumber(v: nat, n: nat)
    requires v < 0x100_0000 && 2 <= n <= 3
    requires if n == 2 then v % 4096 == 0 else v % 64 == 0
    ensures Digits(Quad(v)[..n]) && Number(Quad(v)[..n]) == v
  {
    hide Basis, Pr2Six;
    QuadNumber(v);
    AlphabetInverse(v / 262144);
    AlphabetInverse(v / 4096 % 64);
    AlphabetInverse(v / 64 % 64);
    if n == 2 {
      var q := v / 4096;
      assert v / 64 == 64 * q && v / 262144 == q / 64;
    } else {
      var q := v / 64;
      assert v / 4096 == q / 64 && v / 262144 == q / 4096 && q / 4096 == q / 64 / 64;
    }
  }

  lemma DigitsConcat(left: string, right: string)
    requires Digits(left) && Digits(right)
    ensures Digits(left + right)
  {
  }

  /** The digits of `coded` are the first n characters, and they stand for `s`. */
  ghost predicate Stands(coded: string, n: nat, s: seq<byte>) {
    n < |coded| && Digits(coded[..n]) && Pr2Six(coded[n]) == 64 && Decode(coded[..n]) == s
  }

  lemma OneStands(s: seq<byte>)
    requires |s| == 1
    ensures Stands(Encode(s) + [NUL], 2, s)
  {
    hide Octets, Number, Quad;
    var coded, v: nat := Encode(s) + [NUL], s[0] as int * 0x1_0000;
    ShortQuadNumber(v, 2);
    assert coded[..2] == Quad(v)[..2] && coded[2] == '=';
    OctetsOf(s[0], 0, 0);
    assert [s[0]] == s;
  }

  lemma TwoStand(s: seq<byte>)
    requires |s| == 2
    ensures Stands(Encode(s) + [NUL], 3, s)
  {
    hide Octets, Number, Quad;
    var coded, v: nat := Encode(s) + [NUL], s[0] as int * 0x1_0000 + s[1] as int * 0x100;
    ShortQuadNumber(v, 3);
    assert coded[..3] == Quad(v)[..3] && coded[3] == '=';
    OctetsOf(s[0], s[1], 0);
    assert [s[0], s[1]] == s;
  }

  lemma EncodeFirst(s: seq<byte>)
    requires |s| > 2
    ensures Encode(s) == Quad(s[0] as int * 0x1_0000 + s[1] as int * 0x100 + s[2] as int) + Encode(s[3..])
  {
  }

  lemma GroupStands(s: seq<byte>, n: nat)
    requires |s| > 2 && Stands(Encode(s[3..]) + [NUL], n, s[3..])
    ensures Stands(Encode(s) + [NUL], n + 4, s)
  {
    hide Octets, Number, Quad, Pr2Six, Encode, Decode;
    var v: nat := s[0] as int * 0x1_0000 + s[1] as int * 0x100 + s[2] as int;
    EncodeFirst(s);
    var coded, rest := Encode(s) + [NUL], Encode(s[3..]) + [NUL];
    QuadNumber(v);
    OctetsOf(s[0], s[1], s[2]);
    assert coded == Quad(v) + rest && coded[n + 4] == rest[n];
    assert coded[..n + 4] == Quad(v) + rest[..n];
    DigitsConcat(Quad(v), rest[..n]);
    FirstGroup(coded[..n + 4]);
    assert coded[..n + 4][..4] == Quad(v) && coded[..n + 4][4..] == rest[..n];
    assert [s[0], s[1], s[2]] + s[3..] == s;
  }

  /** In the encoding of any byte string the digits are followed by padding or the terminator, and
      decoding them gives the byte string. */
  lemma {:induction false} EncodingStands(s: seq<byte>)
    ensures Stands(Encode(s) + [NUL], CodedLength(Encode(s) + [NUL]), s)
  {
    hide Encode, Decode, CodedLength;
    var coded := Encode(s) + [NUL];
    if s == [] {
      NothingStands();
    } else if |s| == 1 {
      OneStands(s);
      CodedLengthIs(coded, 2);
    } else if |s| == 2 {
      TwoStand(s);
      CodedLengthIs(coded, 3);
    } else {
      EncodingStands(s[3..]);
      var n := CodedLength(Encode(s[3..]) + [NUL]);
      GroupStands(s, n);
      CodedLengthIs(coded, n + 4);
    }
  }

  lemma NothingStands()
    ensures Stands(Encode([]) + [NUL], CodedLength(Encode([]) + [NUL]), [])
  {
  }

  /** Encoding a byte string and decoding the result gives the byte string, octet for octet and with
      the exact count, within the sizes the two length functions announce. */
  method RoundTrip(s: seq<byte>) returns (plain: seq<byte>)
    ensures plain == s
  {
    hide Encode, Decode;
    var encoded := new char[EncodeLen(|s|)];
    var written := EncodeBinary(encoded, s);
    var coded := encoded[..];
    assert coded == encoded[..written];
    EncodingStands(s);
    var bufplain := new byte[DecodeLen(coded)];
    var n := DecodeBinary(bufplain, coded);
    plain := bufplain[..n];
  }
}
