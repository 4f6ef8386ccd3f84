/** The digests of two messages of section A.5 of RFC 1321, one operation at a time. They pin the tables, the start
    values, the padding and the order of octets. */
module Md5Vectors {
  import opened Bytes
  import opened Md5Spec

  lemma WholeTurns(q: nat, z: nat)
    ensures (0x1_0000_0000 * q + z) % 0x1_0000_0000 == z % 0x1_0000_0000
  {
  }

  lemma AddMod(x: nat, y: nat)
    ensures (x % 0x1_0000_0000 + y) % 0x1_0000_0000 == (x + y) % 0x1_0000_0000
  {
    WholeTurns(x / 0x1_0000_0000, x % 0x1_0000_0000 + y);
  }

  lemma SumOfFour(a: word32, f: word32, w: word32, sine: word32)
    ensures Add(a, Add(Add(f, w), sine)) as int == (a as int + f as int + w as int + sine as int) % 0x1_0000_0000
  {
    AddMod(f as int + w as int, sine as int);
    AddMod(f as int + w as int + sine as int, a as int);
  }

  lemma Sum(x: word32, y: word32, z: word32)
    requires z as int == (x as int + y as int) % 0x1_0000_0000
    ensures Add(x, y) == z
  {
  }

  /** Operation i with its table entries: `sum` is what is rotated and `b` the new word. */
  lemma Op(
    s: Chain, x: seq<word32>, i: nat, end: nat, k: nat, shift: nat, sine: word32, sum: word32, b: word32)
    returns (t: Chain)
    requires |x| == 16 && k < 16 && i < end <= 64 && k == WordIndex(i) && shift == Shift(i) && sine == Sine(i)
    requires sum as int == (s.a as int + Mixed(i, s.b, s.c, s.d) as int + x[k] as int + sine as int) % 0x1_0000_0000
    requires b as int == (RotateLeft(sum, shift) as int + s.b as int) % 0x1_0000_0000
    ensures t == Chain(s.d, b, s.b, s.c) && Operations(s, x, i, end) == Operations(t, x, i + 1, end)
  {
    hide Mixed, RotateLeft, Sine, Shift, WordIndex;
    SumOfFour(s.a, Mixed(i, s.b, s.c, s.d), x[k], sine);
    t := Operation(s, x, i);
    Sum(RotateLeft(sum, shift), s.b, b);
  }

  lemma Powers()
    ensures Power(4) == 0x10 && Power(28) == 0x10000000
    ensures Power(5) == 0x20 && Power(27) == 0x8000000
    ensures Power(6) == 0x40 && Power(26) == 0x4000000
    ensures Power(7) == 0x80 && Power(25) == 0x2000000
    ensures Power(9) == 0x200 && Power(23) == 0x800000
    ensures Power(10) == 0x400 && Power(22) == 0x400000
    ensures Power(11) == 0x800 && Power(21) == 0x200000
    ensures Power(12) == 0x1000 && Power(20) == 0x100000
    ensures Power(14) == 0x4000 && Power(18) == 0x40000
    ensures Power(15) == 0x8000 && Power(17) == 0x20000
    ensures Power(16) == 0x10000 && Power(16) == 0x10000
    ensures Power(8) == 0x100
  {
  }

  lemma NoOps(s: Chain, x: seq<word32>, end: nat)
    requires |x| == 16 && end <= 64
    ensures Operations(s, x, end, end) == s
  {
  }

  // ---------- the empty message ----------

  ghost predicate EmptyWords(x: seq<word32>) {
    |x| == 16 && x[0] == 0x80 && forall k :: 0 <= k < 16 && k != 0 ==> x[k] == 0
  }

  lemma EmptyBits0()
    ensures F(0xefcdab89, 0x98badcfe, 0x10325476) == 0x98badcfe && F(0xa5202774, 0xefcdab89, 0x98badcfe) == 0xbd9afb8a
    ensures F(0xf59592dd, 0xa5202774, 0xefcdab89) == 0xaf482b54 && F(0xe7f06b23, 0xf59592dd, 0xa5202774) == 0xe5900655
    ensures F(0x1b163203, 0xe7f06b23, 0xf59592dd) == 0xe791a2df && F(0x32033344, 0x1b163203, 0xe7f06b23) == 0xd7f27a23
    ensures F(0x2f35d494, 0x32033344, 0x1b163203) == 0x32033207 && F(0xf5b158db, 0x2f35d494, 0x32033344) == 0x27337394
    ensures F(0x9bc13ce9, 0xf5b158db, 0x2f35d494) == 0xb5b5d8dd && F(0x3893b991, 0x9bc13ce9, 0xf5b158db) == 0xdda178cb
    ensures F(0xfce4a312, 0x3893b991, 0x9bc13ce9) == 0x3b81bdf9 && F(0xe1ef0576, 0xfce4a312, 0x3893b991) == 0xf8f4b993
    ensures F(0x70768a29, 0xe1ef0576, 0xfce4a312) == 0xece62132 && F(0xf56c7cf1, 0x70768a29, 0xe1ef0576) == 0x70e70927
    ensures F(0x374943a7, 0xf56c7cf1, 0x70768a29) == 0x757ec8a9 && F(0x5aa53f75, 0x374943a7, 0xf56c7cf1) == 0xb74943a5
  {
  }

  lemma EmptyTurns0()
    ensures RotateLeft(0xd76aa4f7, 7) == 0xb5527beb && RotateLeft(0xb6950756, 12) == 0x50756b69
    ensures RotateLeft(0x6c23792d, 17) == 0xf25ad846 && RotateLeft(0x971b80cc, 22) == 0x3325c6e0
    ensures RotateLeft(0x822dda02, 7) == 0x16ed0141 && RotateLeft(0x150fd32a, 12) == 0xfd32a150
    ensures RotateLeft(0xc223e33d, 17) == 0xc67b8447 && RotateLeft(0x3f903a98, 22) == 0xa60fe40e
    ensures RotateLeft(0x5139a4f9, 7) == 0x9cd27ca8 && RotateLeft(0x981c450e, 12) == 0xc450e981
    ensures RotateLeft(0x31327285, 17) == 0xe50a6264 && RotateLeft(0x1e12ce3a, 22) == 0x8e8784b3
    ensures RotateLeft(0x9109ebe5, 7) == 0x84f5f2c8 && RotateLeft(0x6b641dcc, 12) == 0x41dcc6b6
    ensures RotateLeft(0xfde711ad, 17) == 0x235bfbce && RotateLeft(0x7173d5ef, 22) == 0x7bdc5cf5
  {
    hide Power;
    Powers();
  }

  lemma EmptyBits16()
    ensures G(0xd6819c6a, 0x5aa53f75, 0x374943a7) == 0x5ea53c72 && G(0x1c7d7513, 0xd6819c6a, 0x5aa53f75) == 0x9c25b51b
    ensures G(0x7bd57a3a, 0x1c7d7513, 0xd6819c6a) == 0x5afd793b && G(0xc095f13a, 0x7bd57a3a, 0x1c7d7513) == 0x63957b3a
    ensures G(0xbd782e17, 0xc095f13a, 0x7bd57a3a) == 0xb950ab12 && G(0x3d1e3e6c, 0xbd782e17, 0xc095f13a) == 0x3d7c3e2d
    ensures G(0x68b7b3e3, 0x3d1e3e6c, 0xbd782e17) == 0x2836326b && G(0xeb41643e, 0x68b7b3e3, 0x3d1e3e6c) == 0x69a1a5af
    ensures G(0xe422531a, 0xeb41643e, 0x68b7b3e3) == 0xe362571e && G(0x306ec122, 0xe422531a, 0xeb41643e) == 0x24625322
    ensures G(0xd28c77c2, 0x306ec122, 0xe422531a) == 0xd04cd322 && G(0xa3c663da, 0xd28c77c2, 0x306ec122) == 0xe2c677c2
    ensures G(0xa0572807, 0xa3c663da, 0xd28c77c2) == 0xa146201a && G(0x13707036, 0xa0572807, 0xa3c663da) == 0x03516817
    ensures G(0xae7813db, 0x13707036, 0xa0572807) == 0xb3705033 && G(0x1c31c384, 0xae7813db, 0x13707036) == 0xbc3843cd
  {
  }

  lemma EmptyTurns16()
    ensures RotateLeft(0x4a2fdec5, 5) == 0x45fbd8a9 && RotateLeft(0x93afac02, 9) == 0x5f580527
    ensures RotateLeft(0xdc011301, 14) == 0x44c07700 && RotateLeft(0x23cddfce, 20) == 0xfce23cdd
    ensures RotateLeft(0xabfd3082, 5) == 0x7fa61055 && RotateLeft(0xbb95ccba, 9) == 0x2b997577
    ensures RotateLeft(0xc16e0a26, 14) == 0x8289b05b && RotateLeft(0x0eedcf8e, 20) == 0xf8e0eedc
    ensures RotateLeft(0x42626370, 5) == 0x4c4c6e08 && RotateLeft(0x50510edb, 9) == 0xa21db6a0
    ensures RotateLeft(0xb06344e7, 14) == 0xd139ec18 && RotateLeft(0x0c42dfc9, 20) == 0xfc90c42d
    ensures RotateLeft(0x7b98ca41, 5) == 0x7319482f && RotateLeft(0xd2cd83d1, 9) == 0x9b07a3a5
    ensures RotateLeft(0xbea5b6e6, 14) == 0x6db9afa9 && RotateLeft(0xe9b9b85e, 20) == 0x85ee9b9b
  {
    hide Power;
    Powers();
  }

  lemma EmptyBits32()
    ensures H(0xa2205f1f, 0x1c31c384, 0xae7813db) == 0x10698f40 && H(0xdf63eaa1, 0xa2205f1f, 0x1c31c384) == 0x6172763a
    ensures H(0xc3689f5b, 0xdf63eaa1, 0xa2205f1f) == 0xbe2b2ae5 && H(0x12f3e755, 0xc3689f5b, 0xdf63eaa1) == 0x0ef892af
    ensures H(0x004b6669, 0x12f3e755, 0xc3689f5b) == 0xd1d01e67 && H(0x5f7a9b2e, 0x004b6669, 0x12f3e755) == 0x4dc21a12
    ensures H(0xabc34e16, 0x5f7a9b2e, 0x004b6669) == 0xf4f2b351 && H(0x91ca4cb7, 0xabc34e16, 0x5f7a9b2e) == 0x6573998f
    ensures H(0xc5dc8c15, 0x91ca4cb7, 0xabc34e16) == 0xffd58eb4 && H(0x4497169d, 0xc5dc8c15, 0x91ca4cb7) == 0x1081d63f
    ensures H(0x76fd93d4, 0x4497169d, 0xc5dc8c15) == 0xf7b6095c && H(0xfd95f243, 0x76fd93d4, 0x4497169d) == 0xcfff770a
    ensures H(0x0fe32453, 0xfd95f243, 0x76fd93d4) == 0x848b45c4 && H(0x3f55edfd, 0x0fe32453, 0xfd95f243) == 0xcd233bed
    ensures H(0x22a31f54, 0x3f55edfd, 0x0fe32453) == 0x1215d6fa && H(0x68d84ea2, 0x22a31f54, 0x3f55edfd) == 0x752ebc0b
  {
  }

  lemma EmptyTurns32()
    ensures RotateLeft(0x23d438b8, 4) == 0x3d438b82 && RotateLeft(0x975c8096, 11) == 0xe404b4ba
    ensures RotateLeft(0x47fa4f8b, 16) == 0x4f8b47fa && RotateLeft(0xaefe29da, 23) == 0xed577f14
    ensures RotateLeft(0x55f2f34c, 4) == 0x5f2f34c5 && RotateLeft(0x5d098916, 11) == 0x4c48b2e8
    ensures RotateLeft(0xfea1e606, 16) == 0xe606fea1 && RotateLeft(0x247ebc68, 23) == 0x34123f5e
    ensures RotateLeft(0x87eba8a8, 4) == 0x7eba8a88 && RotateLeft(0xa6e64ccf, 11) == 0x32667d37
    ensures RotateLeft(0x5e6f8698, 16) == 0x86985e6f && RotateLeft(0x9a642024, 23) == 0x124d3210
    ensures RotateLeft(0xa2f72c9a, 4) == 0x2f72c9aa && RotateLeft(0x2afc69a6, 11) == 0xe34d3157
    ensures RotateLeft(0x2f4e4635, 16) == 0x46352f4e && RotateLeft(0x49be36c3, 23) == 0x61a4df1b
  {
    hide Power;
    Powers();
  }

  lemma EmptyBits48()
    ensures I(0xca7d2dbd, 0x68d84ea2, 0x22a31f54) == 0xb7a5a31d && I(0x93aa2577, 0xca7d2dbd, 0x68d84ea2) == 0x5dd298c2
    ensures I(0x1688dc85, 0x93aa2577, 0xca7d2dbd) == 0xa420fbb0 && I(0xcd85b8cb, 0x1688dc85, 0x93aa2577) == 0xfb5d264e
    ensures I(0x561e0689, 0xcd85b8cb, 0x1688dc85) == 0x32fa9f30 && I(0x5625a114, 0x561e0689, 0xcd85b8cb) == 0x2061e1bd
    ensures I(0x3450f42b, 0x5625a114, 0x561e0689) == 0xebd45c6b && I(0x392ad0d0, 0x3450f42b, 0x5625a114) == 0x8daa2ad0
    ensures I(0x1e77fa61, 0x392ad0d0, 0x3450f42b) == 0xe6d52b25 && I(0x474a9c8c, 0x1e77fa61, 0x392ad0d0) == 0xd9a845ce
    ensures I(0xdfce00bc, 0x474a9c8c, 0x1e77fa61) == 0xb8849932 && I(0x36594b14, 0xdfce00bc, 0x474a9c8c) == 0x61336bcb
    ensures I(0x30130182, 0x36594b14, 0xdfce00bc) == 0x066ab4d7 && I(0x7246fad3, 0x30130182, 0x36594b14) == 0xcbf5ff79
    ensures I(0x6e10a476, 0x7246fad3, 0x30130182) == 0x9dba04ac && I(0xff4ea3eb, 0x6e10a476, 0x7246fad3) == 0x91ef0399
  {
  }

  lemma EmptyTurns48()
    ensures RotateLeft(0xeb24b3de, 6) == 0xc92cf7ba && RotateLeft(0xc3a0b7ad, 10) == 0x82deb70e
    ensures RotateLeft(0xb88d6df9, 15) == 0xb6fcdc46 && RotateLeft(0xc26df444, 21) == 0x88984dbe
    ensures RotateLeft(0x2c001e6a, 6) == 0x00079a8b && RotateLeft(0xc5f78ad4, 10) == 0xde2b5317
    ensures RotateLeft(0xb94a09b3, 15) == 0x04d9dca5 && RotateLeft(0x694c8f2a, 21) == 0xe54d2991
    ensures RotateLeft(0xaca34a88, 6) == 0x28d2a22b && RotateLeft(0x0c2620d9, 10) == 0x98836430
    ensures RotateLeft(0x94b0ad16, 15) == 0x568b4a58 && RotateLeft(0xcdb377cd, 21) == 0xf9b9b66e
    ensures RotateLeft(0x4508cfe5, 6) == 0x4233f951 && RotateLeft(0x68fef26a, 10) == 0xfbc9a9a3
    ensures RotateLeft(0xfeeb227b, 15) == 0x913dff75 && RotateLeft(0xad88d8ac, 21) == 0x1595b11b
  {
    hide Power;
    Powers();
  }

  lemma EmptyOps0(x: seq<word32>)
    requires EmptyWords(x)
    ensures Operations(Chain(0x67452301, 0xefcdab89, 0x98badcfe, 0x10325476), x, 0, 8)
         == Chain(0x32033344, 0x9bc13ce9, 0xf5b158db, 0x2f35d494)
  {
    hide Operation, Operations, F, G, H, I, RotateLeft;
    ghost var end := 8;
    EmptyBits0();
    EmptyTurns0();
    var s := Chain(0x67452301, 0xefcdab89, 0x98badcfe, 0x10325476);
    s := Op(s, x, 0, end, 0, 7, 0xd76aa478, 0xd76aa4f7, 0xa5202774);
    s := Op(s, x, 1, end, 1, 12, 0xe8c7b756, 0xb6950756, 0xf59592dd);
    s := Op(s, x, 2, end, 2, 17, 0x242070db, 0x6c23792d, 0xe7f06b23);
    s := Op(s, x, 3, end, 3, 22, 0xc1bdceee, 0x971b80cc, 0x1b163203);
    s := Op(s, x, 4, end, 4, 7, 0xf57c0faf, 0x822dda02, 0x32033344);
    s := Op(s, x, 5, end, 5, 12, 0x4787c62a, 0x150fd32a, 0x2f35d494);
    s := Op(s, x, 6, end, 6, 17, 0xa8304613, 0xc223e33d, 0xf5b158db);
    s := Op(s, x, 7, end, 7, 22, 0xfd469501, 0x3f903a98, 0x9bc13ce9);
    NoOps(s, x, end);
  }

  lemma EmptyOps8(x: seq<word32>)
    requires EmptyWords(x)
    ensures Operations(Chain(0x32033344, 0x9bc13ce9, 0xf5b158db, 0x2f35d494), x, 8, 16)
         == Chain(0xf56c7cf1, 0xd6819c6a, 0x5aa53f75, 0x374943a7)
  {
    hide Operation, Operations, F, G, H, I, RotateLeft;
    ghost var end := 16;
    EmptyBits0();
    EmptyTurns0();
    var s := Chain(0x32033344, 0x9bc13ce9, 0xf5b158db, 0x2f35d494);
    s := Op(s, x, 8, end, 8, 7, 0x698098d8, 0x5139a4f9, 0x3893b991);
    s := Op(s, x, 9, end, 9, 12, 0x8b44f7af, 0x981c450e, 0xfce4a312);
    s := Op(s, x, 10, end, 10, 17, 0xffff5bb1, 0x31327285, 0xe1ef0576);
    s := Op(s, x, 11, end, 11, 22, 0x895cd7be, 0x1e12ce3a, 0x70768a29);
    s := Op(s, x, 12, end, 12, 7, 0x6b901122, 0x9109ebe5, 0xf56c7cf1);
    s := Op(s, x, 13, end, 13, 12, 0xfd987193, 0x6b641dcc, 0x374943a7);
    s := Op(s, x, 14, end, 14, 17, 0xa679438e, 0xfde711ad, 0x5aa53f75);
    s := Op(s, x, 15, end, 15, 22, 0x49b40821, 0x7173d5ef, 0xd6819c6a);
    NoOps(s, x, end);
  }

  lemma EmptyOps16(x: seq<word32>)
    requires EmptyWords(x)
    ensures Operations(Chain(0xf56c7cf1, 0xd6819c6a, 0x5aa53f75, 0x374943a7), x, 16, 24)
         == Chain(0x3d1e3e6c, 0xe422531a, 0xeb41643e, 0x68b7b3e3)
  {
    hide Operation, Operations, F, G, H, I, RotateLeft;
    ghost var end := 24;
    EmptyBits16();
    EmptyTurns16();
    var s := Chain(0xf56c7cf1, 0xd6819c6a, 0x5aa53f75, 0x374943a7);
    s := Op(s, x, 16, end, 1, 5, 0xf61e2562, 0x4a2fdec5, 0x1c7d7513);
    s := Op(s, x, 17, end, 6, 9, 0xc040b340, 0x93afac02, 0x7bd57a3a);
    s := Op(s, x, 18, end, 11, 14, 0x265e5a51, 0xdc011301, 0xc095f13a);
    s := Op(s, x, 19, end, 0, 20, 0xe9b6c7aa, 0x23cddfce, 0xbd782e17);
    s := Op(s, x, 20, end, 5, 5, 0xd62f105d, 0xabfd3082, 0x3d1e3e6c);
    s := Op(s, x, 21, end, 10, 9, 0x02441453, 0xbb95ccba, 0x68b7b3e3);
    s := Op(s, x, 22, end, 15, 14, 0xd8a1e681, 0xc16e0a26, 0xeb41643e);
    s := Op(s, x, 23, end, 4, 20, 0xe7d3fbc8, 0x0eedcf8e, 0xe422531a);
    NoOps(s, x, end);
  }

  lemma EmptyOps24(x: seq<word32>)
    requires EmptyWords(x)
    ensures Operations(Chain(0x3d1e3e6c, 0xe422531a, 0xeb41643e, 0x68b7b3e3), x, 24, 32)
         == Chain(0x13707036, 0xa2205f1f, 0x1c31c384, 0xae7813db)
  {
    hide Operation, Operations, F, G, H, I, RotateLeft;
    ghost var end := 32;
    EmptyBits16();
    EmptyTurns16();
    var s := Chain(0x3d1e3e6c, 0xe422531a, 0xeb41643e, 0x68b7b3e3);
    s := Op(s, x, 24, end, 9, 5, 0x21e1cde6, 0x42626370, 0x306ec122);
    s := Op(s, x, 25, end, 14, 9, 0xc33707d6, 0x50510edb, 0xd28c77c2);
    s := Op(s, x, 26, end, 3, 14, 0xf4d50d87, 0xb06344e7, 0xa3c663da);
    s := Op(s, x, 27, end, 8, 20, 0x455a14ed, 0x0c42dfc9, 0xa0572807);
    s := Op(s, x, 28, end, 13, 5, 0xa9e3e905, 0x7b98ca41, 0x13707036);
    s := Op(s, x, 29, end, 2, 9, 0xfcefa3f8, 0xd2cd83d1, 0xae7813db);
    s := Op(s, x, 30, end, 7, 14, 0x676f02d9, 0xbea5b6e6, 0x1c31c384);
    s := Op(s, x, 31, end, 12, 20, 0x8d2a4c8a, 0xe9b9b85e, 0xa2205f1f);
    NoOps(s, x, end);
  }

  lemma EmptyOps32(x: seq<word32>)
    requires EmptyWords(x)
    ensures Operations(Chain(0x13707036, 0xa2205f1f, 0x1c31c384, 0xae7813db), x, 32, 40)
         == Chain(0x5f7a9b2e, 0xc5dc8c15, 0x91ca4cb7, 0xabc34e16)
  {
    hide Operation, Operations, F, G, H, I, RotateLeft;
    ghost var end := 40;
    EmptyBits32();
    EmptyTurns32();
    var s := Chain(0x13707036, 0xa2205f1f, 0x1c31c384, 0xae7813db);
    s := Op(s, x, 32, end, 5, 4, 0xfffa3942, 0x23d438b8, 0xdf63eaa1);
    s := Op(s, x, 33, end, 8, 11, 0x8771f681, 0x975c8096, 0xc3689f5b);
    s := Op(s, x, 34, end, 11, 16, 0x6d9d6122, 0x47fa4f8b, 0x12f3e755);
    s := Op(s, x, 35, end, 14, 23, 0xfde5380c, 0xaefe29da, 0x004b6669);
    s := Op(s, x, 36, end, 1, 4, 0xa4beea44, 0x55f2f34c, 0x5f7a9b2e);
    s := Op(s, x, 37, end, 4, 11, 0x4bdecfa9, 0x5d098916, 0xabc34e16);
    s := Op(s, x, 38, end, 7, 16, 0xf6bb4b60, 0xfea1e606, 0x91ca4cb7);
    s := Op(s, x, 39, end, 10, 23, 0xbebfbc70, 0x247ebc68, 0xc5dc8c15);
    NoOps(s, x, end);
  }

  lemma EmptyOps40(x: seq<word32>)
    requires EmptyWords(x)
    ensures Operations(Chain(0x5f7a9b2e, 0xc5dc8c15, 0x91ca4cb7, 0xabc34e16), x, 40, 48)
         == Chain(0x3f55edfd, 0xca7d2dbd, 0x68d84ea2, 0x22a31f54)
  {
    hide Operation, Operations, F, G, H, I, RotateLeft;
    ghost var end := 48;
    EmptyBits32();
    EmptyTurns32();
    var s := Chain(0x5f7a9b2e, 0xc5dc8c15, 0x91ca4cb7, 0xabc34e16);
    s := Op(s, x, 40, end, 13, 4, 0x289b7ec6, 0x87eba8a8, 0x4497169d);
    s := Op(s, x, 41, end, 0, 11, 0xeaa127fa, 0xa6e64ccf, 0x76fd93d4);
    s := Op(s, x, 42, end, 3, 16, 0xd4ef3085, 0x5e6f8698, 0xfd95f243);
    s := Op(s, x, 43, end, 6, 23, 0x04881d05, 0x9a642024, 0x0fe32453);
    s := Op(s, x, 44, end, 9, 4, 0xd9d4d039, 0xa2f72c9a, 0x3f55edfd);
    s := Op(s, x, 45, end, 12, 11, 0xe6db99e5, 0x2afc69a6, 0x22a31f54);
    s := Op(s, x, 46, end, 15, 16, 0x1fa27cf8, 0x2f4e4635, 0x68d84ea2);
    s := Op(s, x, 47, end, 2, 23, 0xc4ac5665, 0x49be36c3, 0xca7d2dbd);
    NoOps(s, x, end);
  }

  lemma EmptyOps48(x: seq<word32>)
    requires EmptyWords(x)
    ensures Operations(Chain(0x3f55edfd, 0xca7d2dbd, 0x68d84ea2, 0x22a31f54), x, 48, 56)
         == Chain(0x5625a114, 0x1e77fa61, 0x392ad0d0, 0x3450f42b)
  {
    hide Operation, Operations, F, G, H, I, RotateLeft;
    ghost var end := 56;
    EmptyBits48();
    EmptyTurns48();
    var s := Chain(0x3f55edfd, 0xca7d2dbd, 0x68d84ea2, 0x22a31f54);
    s := Op(s, x, 48, end, 0, 6, 0xf4292244, 0xeb24b3de, 0x93aa2577);
    s := Op(s, x, 49, end, 7, 10, 0x432aff97, 0xc3a0b7ad, 0x1688dc85);
    s := Op(s, x, 50, end, 14, 15, 0xab9423a7, 0xb88d6df9, 0xcd85b8cb);
    s := Op(s, x, 51, end, 5, 21, 0xfc93a039, 0xc26df444, 0x561e0689);
    s := Op(s, x, 52, end, 12, 6, 0x655b59c3, 0x2c001e6a, 0x5625a114);
    s := Op(s, x, 53, end, 3, 10, 0x8f0ccc92, 0xc5f78ad4, 0x3450f42b);
    s := Op(s, x, 54, end, 10, 15, 0xffeff47d, 0xb94a09b3, 0x392ad0d0);
    s := Op(s, x, 55, end, 1, 21, 0x85845dd1, 0x694c8f2a, 0x1e77fa61);
    NoOps(s, x, end);
  }

  lemma EmptyOps56(x: seq<word32>)
    requires EmptyWords(x)
    ensures Operations(Chain(0x5625a114, 0x1e77fa61, 0x392ad0d0, 0x3450f42b), x, 56, 64)
         == Chain(0x7246fad3, 0x14e45506, 0xff4ea3eb, 0x6e10a476)
  {
    hide Operation, Operations, F, G, H, I, RotateLeft;
    ghost var end := 64;
    EmptyBits48();
    EmptyTurns48();
    var s := Chain(0x5625a114, 0x1e77fa61, 0x392ad0d0, 0x3450f42b);
    s := Op(s, x, 56, end, 8, 6, 0x6fa87e4f, 0xaca34a88, 0x474a9c8c);
    s := Op(s, x, 57, end, 15, 10, 0xfe2ce6e0, 0x0c2620d9, 0xdfce00bc);
    s := Op(s, x, 58, end, 6, 15, 0xa3014314, 0x94b0ad16, 0x36594b14);
    s := Op(s, x, 59, end, 13, 21, 0x4e0811a1, 0xcdb377cd, 0x30130182);
    s := Op(s, x, 60, end, 4, 6, 0xf7537e82, 0x4508cfe5, 0x7246fad3);
    s := Op(s, x, 61, end, 11, 10, 0xbd3af235, 0x68fef26a, 0x6e10a476);
    s := Op(s, x, 62, end, 2, 15, 0x2ad7d2bb, 0xfeeb227b, 0xff4ea3eb);
    s := Op(s, x, 63, end, 9, 21, 0xeb86d391, 0xad88d8ac, 0x14e45506);
    NoOps(s, x, end);
  }

  lemma EmptyOperations(x: seq<word32>)
    requires EmptyWords(x)
    ensures Operations(INITIAL, x, 0, 64) == Chain(0x7246fad3, 0x14e45506, 0xff4ea3eb, 0x6e10a476)
  {
    hide Operation, Operations;
    EmptyOps0(x);
    EmptyOps8(x);
    EmptyOps16(x);
    EmptyOps24(x);
    EmptyOps32(x);
    EmptyOps40(x);
    EmptyOps48(x);
    EmptyOps56(x);
    OperationsSplit(INITIAL, x, 0, 8, 16);
    OperationsSplit(INITIAL, x, 0, 16, 24);
    OperationsSplit(INITIAL, x, 0, 24, 32);
    OperationsSplit(INITIAL, x, 0, 32, 40);
    OperationsSplit(INITIAL, x, 0, 40, 48);
    OperationsSplit(INITIAL, x, 0, 48, 56);
    OperationsSplit(INITIAL, x, 0, 56, 64);
  }

  // ---------- the message of three letters ----------

  ghost predicate AbcWords(x: seq<word32>) {
    |x| == 16 && x[0] == 0x80636261 && x[14] == 0x18 && forall k :: 0 <= k < 16 && k != 0 && k != 14 ==> x[k] == 0
  }

  lemma AbcBits0()
    ensures F(0xefcdab89, 0x98badcfe, 0x10325476) == 0x98badcfe && F(0xd6d117b4, 0xefcdab89, 0x98badcfe) == 0xceebcbca
    ensures F(0x344a8432, 0xd6d117b4, 0xefcdab89) == 0xdfc52fb9 && F(0x2f6fbd72, 0x344a8432, 0xd6d117b4) == 0xf4da86b6
    ensures F(0x7ad956f2, 0x2f6fbd72, 0x344a8432) == 0x2e4b9472 && F(0xc73741ef, 0x7ad956f2, 0x2f6fbd72) == 0x6a59fcf2
    ensures F(0x8bac3051, 0xc73741ef, 0x7ad956f2) == 0xf37546e3 && F(0x207dc67b, 0x8bac3051, 0xc73741ef) == 0xc72e01d5
    ensures F(0x928d99f6, 0x207dc67b, 0x8bac3051) == 0x092da073 && F(0x854b3712, 0x928d99f6, 0x207dc67b) == 0xa03dd17b
    ensures F(0x74e2f284, 0x854b3712, 0x928d99f6) == 0x864f3b72 && F(0x3020401c, 0x74e2f284, 0x854b3712) == 0xb56b7706
    ensures F(0x5ed49596, 0x3020401c, 0x74e2f284) == 0x30226214 && F(0xdda9b9a6, 0x5ed49596, 0x3020401c) == 0x7c80d19e
    ensures F(0xa1051895, 0xdda9b9a6, 0x5ed49596) == 0xdfd19d86 && F(0xe396856b, 0xa1051895, 0xdda9b9a6) == 0xbd2d3885
  {
  }

  lemma AbcTurns0()
    ensures RotateLeft(0x57ce06d8, 7) == 0xe7036c2b && RotateLeft(0xc7e5d796, 12) == 0x5d796c7e
    ensures RotateLeft(0x9ca07d92, 17) == 0xfb253940 && RotateLeft(0xa666012d, 22) == 0x4b699980
    ensures RotateLeft(0xfa98bbd5, 7) == 0x4c5deafd && RotateLeft(0xe62c474e, 12) == 0xc474ee62
    ensures RotateLeft(0xcb154a68, 17) == 0x94d1962a && RotateLeft(0x3f4dedc8, 22) == 0x720fd37b
    ensures RotateLeft(0x39e57b3a, 7) == 0xf2bd9d1c && RotateLeft(0xb72ef97b, 12) == 0xef97bb72
    ensures RotateLeft(0xa6cc5d9e, 17) == 0xbb3d4d98 && RotateLeft(0xd155e8ba, 22) == 0x2eb4557a
    ensures RotateLeft(0x20fdaa48, 7) == 0x7ed52410 && RotateLeft(0xeefc35b5, 12) == 0xc35b5eef
    ensures RotateLeft(0xb66b2148, 17) == 0x42916cd6 && RotateLeft(0x65b5d63c, 22) == 0x8f196d75
  {
    hide Power;
    Powers();
  }

  lemma AbcBits16()
    ensures G(0x72aff2e0, 0xe396856b, 0xa1051895) == 0x629795ea && G(0x3e9e9126, 0x72aff2e0, 0xe396856b) == 0x32bff3a2
    ensures G(0x4a1d804e, 0x3e9e9126, 0x72aff2e0) == 0x4e1d8146 && G(0xe25e1652, 0x4a1d804e, 0x3e9e9126) == 0x621f104a
    ensures G(0xb5b204e4, 0xe25e1652, 0x4a1d804e) == 0xa0521654 && G(0x59a8ffda, 0xb5b204e4, 0xe25e1652) == 0x55a816f6
    ensures G(0x6d002f1e, 0x59a8ffda, 0xb5b204e4) == 0x6d08ff1e && G(0xabfc7920, 0x6d002f1e, 0x59a8ffda) == 0x2da87904
    ensures G(0x47092c07, 0xabfc7920, 0x6d002f1e) == 0xc7fc7c26 && G(0xb7f268cf, 0x47092c07, 0xabfc7920) == 0xe7f16c07
    ensures G(0x09388eff, 0xb7f268cf, 0x47092c07) == 0xb1fa4ccf && G(0xfe1623b1, 0x09388eff, 0xb7f268cf) == 0xbe1aa6b1
    ensures G(0x786acb8f, 0xfe1623b1, 0x09388eff) == 0xfe2eab8f && G(0x790a77fb, 0x786acb8f, 0xfe1623b1) == 0x786aebbf
    ensures G(0x9f47e4f8, 0x790a77fb, 0x786acb8f) == 0x1942f4f8 && G(0xa62884aa, 0x9f47e4f8, 0x790a77fb) == 0xa64d84aa
  {
  }

  lemma AbcTurns16()
    ensures RotateLeft(0x365f74f2, 5) == 0xcbee9e46 && RotateLeft(0x9405bf77, 9) == 0x0b7eef28
    ensures RotateLeft(0x58126102, 14) == 0x98409604 && RotateLeft(0x3ee92d35, 20) == 0xd353ee92
    ensures RotateLeft(0xb51fb7d7, 5) == 0xa3f6faf6 && RotateLeft(0xa209ab97, 9) == 0x13572f44
    ensures RotateLeft(0x2808fbf1, 14) == 0x3efc4a02 && RotateLeft(0xcb2e79b0, 20) == 0x9b0cb2e7
    ensures RotateLeft(0x438749e6, 5) == 0x70e93cc8 && RotateLeft(0x1828a313, 9) == 0x51462630
    ensures RotateLeft(0x52cbd376, 14) == 0xf4dd94b2 && RotateLeft(0x4a7de7a5, 20) == 0x7a54a7de
    ensures RotateLeft(0x6004fd63, 5) == 0x009fac6c && RotateLeft(0x7e931eb6, 9) == 0x263d6cfd
    ensures RotateLeft(0x7ec81b82, 14) == 0x06e09fb2 && RotateLeft(0xabe29cc3, 20) == 0xcc3abe29
  {
    hide Power;
    Powers();
  }

  lemma AbcBits32()
    ensures H(0x726342d3, 0xa62884aa, 0x9f47e4f8) == 0x4b0c2281 && H(0xb3707ebf, 0x726342d3, 0xa62884aa) == 0x673bb8c6
    ensures H(0x60127b2e, 0xb3707ebf, 0x726342d3) == 0xa1014742 && H(0x8d212ff5, 0x60127b2e, 0xb3707ebf) == 0x5e432a64
    ensures H(0x3b0875c7, 0x8d212ff5, 0x60127b2e) == 0xd63b211c && H(0x21b117b9, 0x3b0875c7, 0x8d212ff5) == 0x97984d8b
    ensures H(0x6e7429d5, 0x21b117b9, 0x3b0875c7) == 0x74cd4bab && H(0x3575227e, 0x6e7429d5, 0x21b117b9) == 0x7ab01c12
    ensures H(0x5a2f5ea5, 0x3575227e, 0x6e7429d5) == 0x012e550e && H(0x11de1779, 0x5a2f5ea5, 0x3575227e) == 0x7e846ba2
    ensures H(0xfadcaa38, 0x11de1779, 0x5a2f5ea5) == 0xb12de3e4 && H(0x31c465ca, 0xfadcaa38, 0x11de1779) == 0xdac6d88b
    ensures H(0x4c6124f4, 0x31c465ca, 0xfadcaa38) == 0x8779eb06 && H(0x7f2e507b, 0x4c6124f4, 0x31c465ca) == 0x028b1145
    ensures H(0x99d9679d, 0x7f2e507b, 0x4c6124f4) == 0xaa961312 && H(0x8fae6399, 0x99d9679d, 0x7f2e507b) == 0x6959547f
  {
  }

  lemma AbcTurns32()
    ensures RotateLeft(0xc410d3be, 4) == 0x410d3bec && RotateLeft(0x8df5943f, 11) == 0xaca1fc6f
    ensures RotateLeft(0xb4c72d0e, 16) == 0x2d0eb4c7 && RotateLeft(0xce8ba55b, 23) == 0xade745d2
    ensures RotateLeft(0x2e6a8a1f, 4) == 0xe6a8a1f2 && RotateLeft(0x43899862, 11) == 0x4cc3121c
    ensures RotateLeft(0xf8a9c700, 16) == 0xc700f8a9 && RotateLeft(0x74784e49, 23) == 0x24ba3c27
    ensures RotateLeft(0x4b7aeb8d, 4) == 0xb7aeb8d4 && RotateLeft(0x57fd1fd2, 11) == 0xe8fe92bf
    ensures RotateLeft(0xbb9236e7, 16) == 0x36e7bb92 && RotateLeft(0x397e5435, 23) == 0x1a9cbf2a
    ensures RotateLeft(0x732cd2b8, 4) == 0x32cd2b87 && RotateLeft(0xe4435562, 11) == 0x1aab1722
    ensures RotateLeft(0xfbfcf5d4, 16) == 0xf5d4fbfc && RotateLeft(0x7a66cfd8, 23) == 0xec3d3367
  {
    hide Power;
    Powers();
  }

  lemma AbcBits48()
    ensures I(0x7beb9700, 0x8fae6399, 0x99d9679d) == 0xf041fcfb && I(0x7b201df8, 0x7beb9700, 0x8fae6399) == 0x009a0afe
    ensures I(0xf4e8e96e, 0x7b201df8, 0x7beb9700) == 0x8fdcf407 && I(0xb298cefd, 0xf4e8e96e, 0x7b201df8) == 0x42370791
    ensures I(0x8bf025c4, 0xb298cefd, 0xf4e8e96e) == 0x396ff928 && I(0x06cc5e8a, 0x8bf025c4, 0xb298cefd) == 0xc41f5a4e
    ensures I(0x5b0d97aa, 0x06cc5e8a, 0x8bf025c4) == 0x79c38131 && I(0x7d632dd0, 0x5b0d97aa, 0x06cc5e8a) == 0xa67e3a5f
    ensures I(0x3bfa2c27, 0x7d632dd0, 0x5b0d97aa) == 0xc29941a7 && I(0x7f81cc35, 0x3bfa2c27, 0x7d632dd0) == 0xc467f218
    ensures I(0x094454ab, 0x7f81cc35, 0x3bfa2c27) == 0xb2c41bce && I(0x4f9dbe3f, 0x094454ab, 0x7f81cc35) == 0xc6bbeb54
    ensures I(0x7327d604, 0x4f9dbe3f, 0x094454ab) == 0xb822416b && I(0x310ade8f, 0x7327d604, 0x4f9dbe3f) == 0xc24d09cb
    ensures I(0x624d8cb2, 0x310ade8f, 0x7327d604) == 0xdfd77374 && I(0xe484b9d8, 0x624d8cb2, 0x310ade8f) == 0x8cb8354a
  {
  }

  lemma AbcTurns48()
    ensures RotateLeft(0xe3fcd21b, 6) == 0xff3486f8 && RotateLeft(0xdd9e7232, 10) == 0x79c8cb76
    ensures RotateLeft(0xcb1f7b5f, 15) == 0xbdafe58f && RotateLeft(0xbab63eca, 21) == 0xd95756c7
    ensures RotateLeft(0x19eb70e3, 6) == 0x7adc38c6 && RotateLeft(0x4815104e, 10) == 0x54413920
    ensures RotateLeft(0x2c4c44ab, 15) == 0x22559626 && RotateLeft(0xb7f2bdf4, 21) == 0xbe96fe57
    ensures RotateLeft(0x390e1e80, 6) == 0x4387a00e && RotateLeft(0x1da270a2, 10) == 0x89c28876
    ensures RotateLeft(0xd3288cb2, 15) == 0x46596994 && RotateLeft(0x50be291c, 21) == 0x238a17c5
    ensures RotateLeft(0x2ef78c22, 6) == 0xbde3088b && RotateLeft(0x88cc50ab, 10) == 0x3142ae23
    ensures RotateLeft(0x5a4d046e, 15) == 0x82372d26 && RotateLeft(0xeb66dedf, 21) == 0xdbfd6cdb
  {
    hide Power;
    Powers();
  }

  lemma AbcOps0(x: seq<word32>)
    requires AbcWords(x)
    ensures Operations(Chain(0x67452301, 0xefcdab89, 0x98badcfe, 0x10325476), x, 0, 8)
         == Chain(0xc73741ef, 0x928d99f6, 0x207dc67b, 0x8bac3051)
  {
    hide Operation, Operations, F, G, H, I, RotateLeft;
    ghost var end := 8;
    AbcBits0();
    AbcTurns0();
    var s := Chain(0x67452301, 0xefcdab89, 0x98badcfe, 0x10325476);
    s := Op(s, x, 0, end, 0, 7, 0xd76aa478, 0x57ce06d8, 0xd6d117b4);
    s := Op(s, x, 1, end, 1, 12, 0xe8c7b756, 0xc7e5d796, 0x344a8432);
    s := Op(s, x, 2, end, 2, 17, 0x242070db, 0x9ca07d92, 0x2f6fbd72);
    s := Op(s, x, 3, end, 3, 22, 0xc1bdceee, 0xa666012d, 0x7ad956f2);
    s := Op(s, x, 4, end, 4, 7, 0xf57c0faf, 0xfa98bbd5, 0xc73741ef);
    s := Op(s, x, 5, end, 5, 12, 0x4787c62a, 0xe62c474e, 0x8bac3051);
    s := Op(s, x, 6, end, 6, 17, 0xa8304613, 0xcb154a68, 0x207dc67b);
    s := Op(s, x, 7, end, 7, 22, 0xfd469501, 0x3f4dedc8, 0x928d99f6);
    NoOps(s, x, end);
  }

  lemma AbcOps8(x: seq<word32>)
    requires AbcWords(x)
    ensures Operations(Chain(0xc73741ef, 0x928d99f6, 0x207dc67b, 0x8bac3051), x, 8, 16)
         == Chain(0xdda9b9a6, 0x72aff2e0, 0xe396856b, 0xa1051895)
  {
    hide Operation, Operations, F, G, H, I, RotateLeft;
    ghost var end := 16;
    AbcBits0();
    AbcTurns0();
    var s := Chain(0xc73741ef, 0x928d99f6, 0x207dc67b, 0x8bac3051);
    s := Op(s, x, 8, end, 8, 7, 0x698098d8, 0x39e57b3a, 0x854b3712);
    s := Op(s, x, 9, end, 9, 12, 0x8b44f7af, 0xb72ef97b, 0x74e2f284);
    s := Op(s, x, 10, end, 10, 17, 0xffff5bb1, 0xa6cc5d9e, 0x3020401c);
    s := Op(s, x, 11, end, 11, 22, 0x895cd7be, 0xd155e8ba, 0x5ed49596);
    s := Op(s, x, 12, end, 12, 7, 0x6b901122, 0x20fdaa48, 0xdda9b9a6);
    s := Op(s, x, 13, end, 13, 12, 0xfd987193, 0xeefc35b5, 0xa1051895);
    s := Op(s, x, 14, end, 14, 17, 0xa679438e, 0xb66b2148, 0xe396856b);
    s := Op(s, x, 15, end, 15, 22, 0x49b40821, 0x65b5d63c, 0x72aff2e0);
    NoOps(s, x, end);
  }

  lemma AbcOps16(x: seq<word32>)
    requires AbcWords(x)
    ensures Operations(Chain(0xdda9b9a6, 0x72aff2e0, 0xe396856b, 0xa1051895), x, 16, 24)
         == Chain(0x59a8ffda, 0x47092c07, 0xabfc7920, 0x6d002f1e)
  {
    hide Operation, Operations, F, G, H, I, RotateLeft;
    ghost var end := 24;
    AbcBits16();
    AbcTurns16();
    var s := Chain(0xdda9b9a6, 0x72aff2e0, 0xe396856b, 0xa1051895);
    s := Op(s, x, 16, end, 1, 5, 0xf61e2562, 0x365f74f2, 0x3e9e9126);
    s := Op(s, x, 17, end, 6, 9, 0xc040b340, 0x9405bf77, 0x4a1d804e);
    s := Op(s, x, 18, end, 11, 14, 0x265e5a51, 0x58126102, 0xe25e1652);
    s := Op(s, x, 19, end, 0, 20, 0xe9b6c7aa, 0x3ee92d35, 0xb5b204e4);
    s := Op(s, x, 20, end, 5, 5, 0xd62f105d, 0xb51fb7d7, 0x59a8ffda);
    s := Op(s, x, 21, end, 10, 9, 0x02441453, 0xa209ab97, 0x6d002f1e);
    s := Op(s, x, 22, end, 15, 14, 0xd8a1e681, 0x2808fbf1, 0xabfc7920);
    s := Op(s, x, 23, end, 4, 20, 0xe7d3fbc8, 0xcb2e79b0, 0x47092c07);
    NoOps(s, x, end);
  }

  lemma AbcOps24(x: seq<word32>)
    requires AbcWords(x)
    ensures Operations(Chain(0x59a8ffda, 0x47092c07, 0xabfc7920, 0x6d002f1e), x, 24, 32)
         == Chain(0x790a77fb, 0x726342d3, 0xa62884aa, 0x9f47e4f8)
  {
    hide Operation, Operations, F, G, H, I, RotateLeft;
    ghost var end := 32;
    AbcBits16();
    AbcTurns16();
    var s := Chain(0x59a8ffda, 0x47092c07, 0xabfc7920, 0x6d002f1e);
    s := Op(s, x, 24, end, 9, 5, 0x21e1cde6, 0x438749e6, 0xb7f268cf);
    s := Op(s, x, 25, end, 14, 9, 0xc33707d6, 0x1828a313, 0x09388eff);
    s := Op(s, x, 26, end, 3, 14, 0xf4d50d87, 0x52cbd376, 0xfe1623b1);
    s := Op(s, x, 27, end, 8, 20, 0x455a14ed, 0x4a7de7a5, 0x786acb8f);
    s := Op(s, x, 28, end, 13, 5, 0xa9e3e905, 0x6004fd63, 0x790a77fb);
    s := Op(s, x, 29, end, 2, 9, 0xfcefa3f8, 0x7e931eb6, 0x9f47e4f8);
    s := Op(s, x, 30, end, 7, 14, 0x676f02d9, 0x7ec81b82, 0xa62884aa);
    s := Op(s, x, 31, end, 12, 20, 0x8d2a4c8a, 0xabe29cc3, 0x726342d3);
    NoOps(s, x, end);
  }

  lemma AbcOps32(x: seq<word32>)
    requires AbcWords(x)
    ensures Operations(Chain(0x790a77fb, 0x726342d3, 0xa62884aa, 0x9f47e4f8), x, 32, 40)
         == Chain(0x21b117b9, 0x5a2f5ea5, 0x3575227e, 0x6e7429d5)
  {
    hide Operation, Operations, F, G, H, I, RotateLeft;
    ghost var end := 40;
    AbcBits32();
    AbcTurns32();
    var s := Chain(0x790a77fb, 0x726342d3, 0xa62884aa, 0x9f47e4f8);
    s := Op(s, x, 32, end, 5, 4, 0xfffa3942, 0xc410d3be, 0xb3707ebf);
    s := Op(s, x, 33, end, 8, 11, 0x8771f681, 0x8df5943f, 0x60127b2e);
    s := Op(s, x, 34, end, 11, 16, 0x6d9d6122, 0xb4c72d0e, 0x8d212ff5);
    s := Op(s, x, 35, end, 14, 23, 0xfde5380c, 0xce8ba55b, 0x3b0875c7);
    s := Op(s, x, 36, end, 1, 4, 0xa4beea44, 0x2e6a8a1f, 0x21b117b9);
    s := Op(s, x, 37, end, 4, 11, 0x4bdecfa9, 0x43899862, 0x6e7429d5);
    s := Op(s, x, 38, end, 7, 16, 0xf6bb4b60, 0xf8a9c700, 0x3575227e);
    s := Op(s, x, 39, end, 10, 23, 0xbebfbc70, 0x74784e49, 0x5a2f5ea5);
    NoOps(s, x, end);
  }

  lemma AbcOps40(x: seq<word32>)
    requires AbcWords(x)
    ensures Operations(Chain(0x21b117b9, 0x5a2f5ea5, 0x3575227e, 0x6e7429d5), x, 40, 48)
         == Chain(0x7f2e507b, 0x7beb9700, 0x8fae6399, 0x99d9679d)
  {
    hide Operation, Operations, F, G, H, I, RotateLeft;
    ghost var end := 48;
    AbcBits32();
    AbcTurns32();
    var s := Chain(0x21b117b9, 0x5a2f5ea5, 0x3575227e, 0x6e7429d5);
    s := Op(s, x, 40, end, 13, 4, 0x289b7ec6, 0x4b7aeb8d, 0x11de1779);
    s := Op(s, x, 41, end, 0, 11, 0xeaa127fa, 0x57fd1fd2, 0xfadcaa38);
    s := Op(s, x, 42, end, 3, 16, 0xd4ef3085, 0xbb9236e7, 0x31c465ca);
    s := Op(s, x, 43, end, 6, 23, 0x04881d05, 0x397e5435, 0x4c6124f4);
    s := Op(s, x, 44, end, 9, 4, 0xd9d4d039, 0x732cd2b8, 0x7f2e507b);
    s := Op(s, x, 45, end, 12, 11, 0xe6db99e5, 0xe4435562, 0x99d9679d);
    s := Op(s, x, 46, end, 15, 16, 0x1fa27cf8, 0xfbfcf5d4, 0x8fae6399);
    s := Op(s, x, 47, end, 2, 23, 0xc4ac5665, 0x7a66cfd8, 0x7beb9700);
    NoOps(s, x, end);
  }

  lemma AbcOps48(x: seq<word32>)
    requires AbcWords(x)
    ensures Operations(Chain(0x7f2e507b, 0x7beb9700, 0x8fae6399, 0x99d9679d), x, 48, 56)
         == Chain(0x06cc5e8a, 0x3bfa2c27, 0x7d632dd0, 0x5b0d97aa)
  {
    hide Operation, Operations, F, G, H, I, RotateLeft;
    ghost var end := 56;
    AbcBits48();
    AbcTurns48();
    var s := Chain(0x7f2e507b, 0x7beb9700, 0x8fae6399, 0x99d9679d);
    s := Op(s, x, 48, end, 0, 6, 0xf4292244, 0xe3fcd21b, 0x7b201df8);
    s := Op(s, x, 49, end, 7, 10, 0x432aff97, 0xdd9e7232, 0xf4e8e96e);
    s := Op(s, x, 50, end, 14, 15, 0xab9423a7, 0xcb1f7b5f, 0xb298cefd);
    s := Op(s, x, 51, end, 5, 21, 0xfc93a039, 0xbab63eca, 0x8bf025c4);
    s := Op(s, x, 52, end, 12, 6, 0x655b59c3, 0x19eb70e3, 0x06cc5e8a);
    s := Op(s, x, 53, end, 3, 10, 0x8f0ccc92, 0x4815104e, 0x5b0d97aa);
    s := Op(s, x, 54, end, 10, 15, 0xffeff47d, 0x2c4c44ab, 0x7d632dd0);
    s := Op(s, x, 55, end, 1, 21, 0x85845dd1, 0xb7f2bdf4, 0x3bfa2c27);
    NoOps(s, x, end);
  }

  lemma AbcOps56(x: seq<word32>)
    requires AbcWords(x)
    ensures Operations(Chain(0x06cc5e8a, 0x3bfa2c27, 0x7d632dd0, 0x5b0d97aa), x, 56, 64)
         == Chain(0x310ade8f, 0xc08226b3, 0xe484b9d8, 0x624d8cb2)
  {
    hide Operation, Operations, F, G, H, I, RotateLeft;
    ghost var end := 64;
    AbcBits48();
    AbcTurns48();
    var s := Chain(0x06cc5e8a, 0x3bfa2c27, 0x7d632dd0, 0x5b0d97aa);
    s := Op(s, x, 56, end, 8, 6, 0x6fa87e4f, 0x390e1e80, 0x7f81cc35);
    s := Op(s, x, 57, end, 15, 10, 0xfe2ce6e0, 0x1da270a2, 0x094454ab);
    s := Op(s, x, 58, end, 6, 15, 0xa3014314, 0xd3288cb2, 0x4f9dbe3f);
    s := Op(s, x, 59, end, 13, 21, 0x4e0811a1, 0x50be291c, 0x7327d604);
    s := Op(s, x, 60, end, 4, 6, 0xf7537e82, 0x2ef78c22, 0x310ade8f);
    s := Op(s, x, 61, end, 11, 10, 0xbd3af235, 0x88cc50ab, 0x624d8cb2);
    s := Op(s, x, 62, end, 2, 15, 0x2ad7d2bb, 0x5a4d046e, 0xe484b9d8);
    s := Op(s, x, 63, end, 9, 21, 0xeb86d391, 0xeb66dedf, 0xc08226b3);
    NoOps(s, x, end);
  }

  lemma AbcOperations(x: seq<word32>)
    requires AbcWords(x)
    ensures Operations(INITIAL, x, 0, 64) == Chain(0x310ade8f, 0xc08226b3, 0xe484b9d8, 0x624d8cb2)
  {
    hide Operation, Operations;
    AbcOps0(x);
    AbcOps8(x);
    AbcOps16(x);
    AbcOps24(x);
    AbcOps32(x);
    AbcOps40(x);
    AbcOps48(x);
    AbcOps56(x);
    OperationsSplit(INITIAL, x, 0, 8, 16);
    OperationsSplit(INITIAL, x, 0, 16, 24);
    OperationsSplit(INITIAL, x, 0, 24, 32);
    OperationsSplit(INITIAL, x, 0, 32, 40);
    OperationsSplit(INITIAL, x, 0, 40, 48);
    OperationsSplit(INITIAL, x, 0, 48, 56);
    OperationsSplit(INITIAL, x, 0, 56, 64);
  }

  // ---------- the digests ----------

  lemma WordsUnfold(s: seq<byte>)
    requires |s| % 4 == 0 && |s| >= 4
    ensures DecodeWords(s) == [FromLittleEndian32(s[..4])] + DecodeWords(s[4..])
  {
    hide FromLittleEndian32;
  }

  lemma FirstWord(s: seq<byte>)
    requires |s| % 4 == 0 && s != []
    ensures |s| >= 4 && DecodeWords(s)[0] == FromLittleEndian32(s[..4]) && DecodeWords(s)[1..] == DecodeWords(s[4..])
  {
    hide FromLittleEndian32, DecodeWords;
    WordsUnfold(s);
  }

  lemma LaterWord(s: seq<byte>, k: nat)
    requires 0 < k && 4 * k + 4 <= |s|
    ensures s[4..][4 * (k - 1)..4 * (k - 1) + 4] == s[4 * k..4 * k + 4]
  {
  }

  lemma {:induction false} WordAt(s: seq<byte>, k: nat)
    requires |s| % 4 == 0 && 4 * k + 4 <= |s|
    ensures DecodeWords(s)[k] == FromLittleEndian32(s[4 * k..4 * k + 4])
  {
    hide FromLittleEndian32, DecodeWords;
    FirstWord(s);
    if k > 0 {
      LaterWord(s, k);
      WordAt(s[4..], k - 1);
      assert DecodeWords(s)[k] == DecodeWords(s)[1..][k - 1];
    }
  }

  lemma {:induction false} WordIs(s: seq<byte>, k: nat, b0: byte, b1: byte, b2: byte, b3: byte)
    requires |s| == 64 && k < 16
    requires s[4 * k] == b0 && s[4 * k + 1] == b1 && s[4 * k + 2] == b2 && s[4 * k + 3] == b3
    ensures |DecodeWords(s)| == 16
    ensures DecodeWords(s)[k] as int == b0 as int + 0x100 * b1 as int + 0x1_0000 * b2 as int + 0x100_0000 * b3 as int
  {
    WordAt(s, k);
    assert s[4 * k..4 * k + 4] == [b0, b1, b2, b3];
  }

  /** The digest of a message of one block whose operations end in `t`. */
  lemma DigestOfOneBlock(m: seq<byte>, t: Chain)
    requires |Pad(m)| == 64 && Operations(INITIAL, DecodeWords(Pad(m)), 0, 64) == t
    ensures Md5(m) == LittleEndian32(Add(INITIAL.a, t.a)) + LittleEndian32(Add(INITIAL.b, t.b))
                      + LittleEndian32(Add(INITIAL.c, t.c)) + LittleEndian32(Add(INITIAL.d, t.d))
  {
    hide Pad, Operations, DecodeWords, Add, LittleEndian32;
    BlocksOne(Pad(m));
    CompressOne(INITIAL, Pad(m));
    var t' := Compress(INITIAL, Pad(m));
    FourWords(t'.a, t'.b, t'.c, t'.d);
  }

  lemma FourWords(a: word32, b: word32, c: word32, d: word32)
    ensures EncodeWords([a, b, c, d])
         == LittleEndian32(a) + LittleEndian32(b) + LittleEndian32(c) + LittleEndian32(d)
  {
    hide LittleEndian32;
    assert [d][1..] == [] && [c, d][1..] == [d] && [b, c, d][1..] == [c, d] && [a, b, c, d][1..] == [b, c, d];
    assert EncodeWords([d]) == LittleEndian32(d);
    assert EncodeWords([c, d]) == LittleEndian32(c) + LittleEndian32(d);
    assert EncodeWords([b, c, d]) == LittleEndian32(b) + LittleEndian32(c) + LittleEndian32(d);
  }

  lemma OctetsOf(w: word32, b0: byte, b1: byte, b2: byte, b3: byte)
    requires w as int == b0 as int + 0x100 * (b1 as int + 0x100 * (b2 as int + 0x100 * b3 as int))
    ensures LittleEndian32(w) == [b0, b1, b2, b3]
  {
    var w1 := b1 as int + 0x100 * (b2 as int + 0x100 * b3 as int);
    var w2 := b2 as int + 0x100 * b3 as int;
    assert w as int / 0x100 == w1 && w as int % 0x100 == b0 as int;
    assert w1 / 0x100 == w2 && w1 % 0x100 == b1 as int;
    assert w2 / 0x100 == b3 as int && w2 % 0x100 == b2 as int;
    assert w as int / 0x1_0000 == w2;
    assert w as int / 0x100_0000 == b3 as int;
  }

  lemma WordOctets(x: word32, y: word32, b0: byte, b1: byte, b2: byte, b3: byte)
    requires (x as int + y as int) % 0x1_0000_0000
          == b0 as int + 0x100 * (b1 as int + 0x100 * (b2 as int + 0x100 * b3 as int))
    ensures LittleEndian32(Add(x, y)) == [b0, b1, b2, b3]
  {
    hide LittleEndian32;
    OctetsOf(Add(x, y), b0, b1, b2, b3);
  }

  lemma LengthOctets(n: nat)
    requires 8 * n < 0x100
    ensures LengthField(n) == [8 * n, 0, 0, 0, 0, 0, 0, 0]
  {
    var low, high := BitLength(n).0, BitLength(n).1;
    assert low as int == 8 * n && high == 0;
    assert [high][1..] == [] && [low, high][1..] == [high];
    assert LittleEndian32(high) == [0, 0, 0, 0] && LittleEndian32(low) == [8 * n, 0, 0, 0];
    assert EncodeWords([high]) == LittleEndian32(high);
  }

  /** The padded form of a message of at most three octets, octet by octet. */
  lemma PadOctets(m: seq<byte>)
    requires |m| <= 3
    ensures |Pad(m)| == 64 && Pad(m)[..|m|] == m && Pad(m)[|m|] == 0x80
    ensures forall i :: |m| < i < 56 ==> Pad(m)[i] == 0
    ensures Pad(m)[56] as int == 8 * |m| && forall i :: 57 <= i < 64 ==> Pad(m)[i] == 0
  {
    LengthOctets(|m|);
    hide LengthField;
    assert (55 - |m|) % 64 == 55 - |m|;
    assert Pad(m)[56..] == LengthField(|m|);
    assert forall i :: 56 <= i < 64 ==> Pad(m)[i] == Pad(m)[56..][i - 56];
  }

  lemma PadWords(m: seq<byte>, k: nat)
    requires |m| <= 3 && 0 < k < 16
    ensures |Pad(m)| == 64 && |DecodeWords(Pad(m))| == 16
    ensures DecodeWords(Pad(m))[k] as int == if k == 14 then 8 * |m| else 0
  {
    hide Pad, DecodeWords;
    PadOctets(m);
    WordIs(Pad(m), k, if k == 14 then 8 * |m| else 0, 0, 0, 0);
  }

  lemma EmptyBlock()
    ensures |Pad([])| == 64 && EmptyWords(DecodeWords(Pad([])))
  {
    hide Pad, DecodeWords;
    var m: seq<byte> := [];
    PadOctets(m);
    assert Pad(m)[..|m|] == m;
    WordIs(Pad(m), 0, 0x80, 0x00, 0x00, 0x00);
    forall k | 0 < k < 16
      ensures DecodeWords(Pad(m))[k] as int == if k == 14 then 8 * |m| else 0
    {
      PadWords(m, k);
    }
  }

  /** The digest of the empty message. */
  lemma EmptyDigest()
    ensures Md5([]) == [
      0xd4, 0x1d, 0x8c, 0xd9, 0x8f, 0x00, 0xb2, 0x04,
      0xe9, 0x80, 0x09, 0x98, 0xec, 0xf8, 0x42, 0x7e]
  {
    hide Pad, Operations, DecodeWords, Md5, Add, LittleEndian32;
    EmptyBlock();
    EmptyOperations(DecodeWords(Pad([])));
    var t := Chain(0x7246fad3, 0x14e45506, 0xff4ea3eb, 0x6e10a476);
    DigestOfOneBlock([], t);
    WordOctets(INITIAL.a, t.a, 0xd4, 0x1d, 0x8c, 0xd9);
    WordOctets(INITIAL.b, t.b, 0x8f, 0x00, 0xb2, 0x04);
    WordOctets(INITIAL.c, t.c, 0xe9, 0x80, 0x09, 0x98);
    WordOctets(INITIAL.d, t.d, 0xec, 0xf8, 0x42, 0x7e);
  }

  lemma AbcBlock()
    ensures |Pad([0x61, 0x62, 0x63])| == 64 && AbcWords(DecodeWords(Pad([0x61, 0x62, 0x63])))
  {
    hide Pad, DecodeWords;
    var m: seq<byte> := [0x61, 0x62, 0x63];
    PadOctets(m);
    assert Pad(m)[..|m|] == m;
    WordIs(Pad(m), 0, 0x61, 0x62, 0x63, 0x80);
    forall k | 0 < k < 16
      ensures DecodeWords(Pad(m))[k] as int == if k == 14 then 8 * |m| else 0
    {
      PadWords(m, k);
    }
  }

  /** The digest of "abc". */
  lemma AbcDigest()
    ensures Md5([0x61, 0x62, 0x63]) == [
      0x90, 0x01, 0x50, 0x98, 0x3c, 0xd2, 0x4f, 0xb0,
      0xd6, 0x96, 0x3f, 0x7d, 0x28, 0xe1, 0x7f, 0x72]
  {
    hide Pad, Operations, DecodeWords, Md5, Add, LittleEndian32;
    AbcBlock();
    AbcOperations(DecodeWords(Pad([0x61, 0x62, 0x63])));
    var t := Chain(0x310ade8f, 0xc08226b3, 0xe484b9d8, 0x624d8cb2);
    DigestOfOneBlock([0x61, 0x62, 0x63], t);
    WordOctets(INITIAL.a, t.a, 0x90, 0x01, 0x50, 0x98);
    WordOctets(INITIAL.b, t.b, 0x3c, 0xd2, 0x4f, 0xb0);
    WordOctets(INITIAL.c, t.c, 0xd6, 0x96, 0x3f, 0x7d);
    WordOctets(INITIAL.d, t.d, 0x28, 0xe1, 0x7f, 0x72);
  }
}
