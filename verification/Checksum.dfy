/** The Internet checksum of net_cksm.c, against the one's complement sum of section 1 of RFC 1071. */
module Checksum {
  import opened Bytes

  const MAX_INT := 0x7fff_ffff

  /** The 16-bit words of a little-endian host; a last single octet is a word of its own. */
  function Words(data: seq<byte>): seq<word16> {
    if data == [] then []
    else if |data| == 1 then [data[0]]
    else [data[0] as int + 0x100 * data[1] as int] + Words(data[2..])
  }

  function Sum(ws: seq<word16>): nat {
    if ws == [] then 0 else ws[0] as int + Sum(ws[1..])
  }

  /** One's complement addition: the carry out of the top bit is added at the bottom. */
  function OnesAdd(x: word16, y: word16): word16 {
    if x as int + y as int > 0xffff then x as int + y as int - 0xffff else x as int + y as int
  }

  function OnesSum(acc: word16, ws: seq<word16>): word16
    decreases |ws|
  {
    if ws == [] then acc else OnesSum(OnesAdd(acc, ws[0]), ws[1..])
  }

  function Checksum(data: seq<byte>): word16 { 0xffff - OnesSum(0, Words(data)) }

  /** The example of section 3 of RFC 1071, with the words of a little-endian host, and an odd octet at the end. */
  lemma Example()
    ensures Checksum([0x00, 0x01, 0xf2, 0x03, 0xf4, 0xf5, 0xf6, 0xf7]) == 0x0d22
    ensures Checksum([0x00, 0x01, 0xf2]) == 0xfe0d
  {
    var w: seq<byte> := [0x00, 0x01, 0xf2, 0x03, 0xf4, 0xf5, 0xf6, 0xf7];
    assert w[2..] == [0xf2, 0x03, 0xf4, 0xf5, 0xf6, 0xf7];
    assert w[2..][2..] == [0xf4, 0xf5, 0xf6, 0xf7] && w[2..][2..][2..] == [0xf6, 0xf7];
    assert w[2..][2..][2..][2..] == [];
    assert Words(w) == [0x0100, 0x03f2, 0xf5f4, 0xf7f6];
    var odd: seq<byte> := [0x00, 0x01, 0xf2];
    assert odd[2..] == [0xf2] && Words(odd) == [0x0100, 0xf2];
  }

  /** The residue modulo 2^16 - 1 that is zero only for zero. */
  function Residue(s: nat): (r: word16)
    ensures r == 0 <==> s == 0
  {
    if s == 0 then 0 else (s - 1) % 0xffff + 1
  }

  lemma {:induction false} OnesSumIsResidue(acc: nat, ws: seq<word16>)
    ensures OnesSum(Residue(acc), ws) == Residue(acc + Sum(ws))
    decreases |ws|
  {
    if ws != [] {
      assert OnesAdd(Residue(acc), ws[0]) == Residue(acc + ws[0] as int);
      OnesSumIsResidue(acc + ws[0] as int, ws[1..]);
    }
  }

  /** Two folds of a sum below 2^31 give its residue, whatever carries the first one leaves. */
  lemma TwoFolds(s: nat)
    requires s <= MAX_INT
    ensures var f := s / 0x1_0000 + s % 0x1_0000; (f + f / 0x1_0000) % 0x1_0000 == Residue(s) as int
  {
    var q := s / 0x1_0000;
    var f := q + s % 0x1_0000;
    assert s == 0xffff * q + f;
    if f < 0x1_0000 {
      if f > 0 {
        assert (s - 1) % 0xffff == (f - 1) % 0xffff;
      }
    } else {
      assert s - 1 == 0xffff * (q + 1) + (f - 0x1_0000);
    }
  }

  lemma {:induction false} SumAppend(left: seq<word16>, right: seq<word16>)
    ensures Sum(left + right) == Sum(left) + Sum(right)
  {
    if left == [] {
      assert left + right == right;
    } else {
      assert (left + right)[0] == left[0] && (left + right)[1..] == left[1..] + right;
      SumAppend(left[1..], right);
    }
  }

  lemma {:induction false} SumBound(data: seq<byte>)
    ensures Sum(Words(data)) <= |data| / 2 * 0xffff + |data| % 2 * 0xff
  {
    if |data| > 1 {
      SumBound(data[2..]);
    }
  }

  /** 65537 octets never overflow the int accumulator; longer data may. */
  lemma ShortDataFit(data: seq<byte>)
    requires |data| <= 0x1_0001
    ensures Sum(Words(data)) <= 0x7fff_ffff
  {
    SumBound(data);
  }

  /** The words still to be added at an even position. */
  lemma RestOfWords(data: seq<byte>, w: nat)
    requires w <= |data|
    ensures |data| - w >= 2 ==>
      Sum(Words(data[w..])) == data[w] as int + 0x100 * data[w + 1] as int + Sum(Words(data[w + 2..]))
    ensures |data| - w == 1 ==> Sum(Words(data[w..])) == data[w] as int
    ensures |data| - w == 0 ==> Sum(Words(data[w..])) == 0
  {
    if |data| - w >= 2 {
      assert data[w..][2..] == data[w + 2..];
    }
  }

  /** Two folds and a complement of the sum are the checksum. */
  lemma FoldsAreChecksum(data: seq<byte>)
    requires Sum(Words(data)) <= MAX_INT
    ensures var f := Sum(Words(data)) / 0x1_0000 + Sum(Words(data)) % 0x1_0000;
      0xffff - (f + f / 0x1_0000) % 0x1_0000 == Checksum(data) as int
  {
    hide Sum, Words, OnesSum, Residue;
    TwoFolds(Sum(Words(data)));
    OnesSumIsResidue(0, Words(data));
    assert Residue(0) == 0;
  }

  /** The code adds into an int, so the sum of the words has to fit one. */
  method InCksum(addr: seq<byte>, len: nat) returns (answer: word16)
    requires len == |addr| && Sum(Words(addr)) <= 0x7fff_ffff
    ensures answer == Checksum(addr)
  {
    hide Sum, Words, Checksum;
    var nleft, sum, w := len, 0, 0;
    assert addr[0..] == addr;
    while nleft > 1
      invariant w + nleft == len && 0 <= w && nleft >= 0
      invariant sum + Sum(Words(addr[w..])) == Sum(Words(addr)) && 0 <= sum <= MAX_INT
    {
      RestOfWords(addr, w);
      sum := sum + (addr[w] as int + 0x100 * addr[w + 1] as int);
      w, nleft := w + 2, nleft - 2;
    }
    RestOfWords(addr, w);
    if nleft == 1 {
      sum := sum + addr[w] as int;
    }
    assert sum == Sum(Words(addr)) <= MAX_INT;
    FoldsAreChecksum(addr);
    sum := sum / 0x1_0000 + sum % 0x1_0000;
    sum := sum + sum / 0x1_0000;
    answer := 0xffff - sum % 0x1_0000;
  }

  // ---------- what the checksum is good for ----------

  /** Where the bound comes from: 65538 octets of ones overflow a signed 32-bit sum. */
  lemma {:induction false} OnesFillSum(n: nat)
    ensures Sum(Words(seq(2 * n, _ => 0xff))) == 0xffff * n
    ensures n > 0x8000 ==> Sum(Words(seq(2 * n, _ => 0xff))) > 0x7fff_ffff
  {
    if n > 0 {
      OnesFillSum(n - 1);
      assert seq(2 * n, _ => 0xff as byte)[2..] == seq(2 * (n - 1), _ => 0xff as byte);
    }
  }

  lemma TakeOut(vs: seq<word16>, i: nat)
    requires i < |vs|
    ensures var rest := vs[..i] + vs[i + 1..];
      && Sum(vs) == vs[i] as int + Sum(rest)
      && multiset(vs) == multiset{vs[i]} + multiset(rest)
  {
    SumAppend(vs[..i], vs[i + 1..]);
    SumAppend(vs[..i], vs[i..]);
    assert vs == vs[..i] + vs[i..] && vs[i..] == [vs[i]] + vs[i + 1..];
  }

  lemma {:induction false} SumOfMultiset(ws: seq<word16>, vs: seq<word16>)
    requires multiset(ws) == multiset(vs)
    ensures Sum(ws) == Sum(vs)
    decreases |ws|
  {
    if ws == [] {
      assert |multiset(ws)| == |multiset(vs)| == |vs|;
    } else {
      assert ws[0] in multiset(vs);
      var i :| 0 <= i < |vs| && vs[i] == ws[0];
      MatchRest(ws, vs, i);
      SumOfMultiset(ws[1..], vs[..i] + vs[i + 1..]);
    }
  }

  lemma MatchRest(ws: seq<word16>, vs: seq<word16>, i: nat)
    requires multiset(ws) == multiset(vs) && i < |vs| && 0 < |ws| && vs[i] == ws[0]
    ensures var rest := vs[..i] + vs[i + 1..];
      && multiset(ws[1..]) == multiset(rest)
      && Sum(ws) == ws[0] as int + Sum(ws[1..])
      && Sum(vs) == ws[0] as int + Sum(rest)
  {
    TakeOut(vs, i);
    assert ws == [ws[0]] + ws[1..];
    hide Sum;
    var rest := vs[..i] + vs[i + 1..];
    assert multiset(ws) == multiset{ws[0]} + multiset(ws[1..]);
    assert multiset(ws[1..]) == multiset(ws) - multiset{ws[0]};
    assert multiset(rest) == multiset(vs) - multiset{ws[0]};
  }

  /** The order of the 16-bit words does not matter. */
  lemma OrderOfWordsIsFree(data: seq<byte>, other: seq<byte>)
    requires multiset(Words(data)) == multiset(Words(other))
    ensures Checksum(data) == Checksum(other)
  {
    hide Sum, Words, OnesSum;
    SumOfMultiset(Words(data), Words(other));
    OnesSumIsResidue(0, Words(data));
    OnesSumIsResidue(0, Words(other));
  }

  /** `data` with a word stored at the aligned position 2 * k. */
  function Stored(data: seq<byte>, k: nat, w: word16): seq<byte>
    requires 2 * k + 1 < |data|
  {
    data[2 * k := w % 0x100][2 * k + 1 := w / 0x100]
  }

  lemma {:induction false} StoredSum(data: seq<byte>, k: nat, w: word16)
    requires 2 * k + 1 < |data| && data[2 * k] == 0 && data[2 * k + 1] == 0
    ensures Sum(Words(Stored(data, k, w))) == Sum(Words(data)) + w as int
  {
    var stored := Stored(data, k, w);
    if k == 0 {
      assert stored[2..] == data[2..];
    } else {
      StoredSum(data[2..], k - 1, w);
      assert stored[2..] == Stored(data[2..], k - 1, w);
    }
  }

  lemma ChecksumZero(data: seq<byte>)
    ensures Checksum(data) == 0 <==> Sum(Words(data)) > 0 && Sum(Words(data)) % 0xffff == 0
  {
    OnesSumIsResidue(0, Words(data));
    var s := Sum(Words(data));
    if s > 0 {
      assert s == 0xffff * ((s - 1) / 0xffff) + (s - 1) % 0xffff + 1;
    }
  }

  /** Storing the checksum of data whose checksum field is zero makes the checksum of the whole zero,
      and no other word does, except that all zeros and all ones stand for each other. */
  lemma StoredChecksumVerifies(data: seq<byte>, k: nat, w: word16)
    requires 2 * k + 1 < |data| && data[2 * k] == 0 && data[2 * k + 1] == 0
    ensures Checksum(Stored(data, k, Checksum(data))) == 0
    ensures Checksum(Stored(data, k, w)) == 0 <==>
      w as int % 0xffff == Checksum(data) as int % 0xffff && (Sum(Words(data)) > 0 || w > 0)
  {
    hide Sum, Words, OnesSum, Stored, Residue;
    var s, c := Sum(Words(data)), Checksum(data);
    assert c as int == 0xffff - Residue(s) as int by {
      OnesSumIsResidue(0, Words(data));
    }
    hide Checksum;
    StoredSum(data, k, c);
    StoredSum(data, k, w);
    ChecksumZero(Stored(data, k, c));
    ChecksumZero(Stored(data, k, w));
    ComplementCancels(s, w);
    ComplementCancels(s, c);
  }

  lemma ComplementCancels(s: nat, w: word16)
    ensures var c := 0xffff - Residue(s) as int;
      && (s + c) % 0xffff == 0 && s + c > 0
      && ((s + w as int) % 0xffff == 0 <==> w as int % 0xffff == c % 0xffff)
  {
    var r: int := Residue(s);
    var q := if s == 0 then 0 else (s - 1) / 0xffff;
    assert s == 0xffff * q + r;
  }
}
