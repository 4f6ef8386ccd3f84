/** What the four functions of MD5 do, bit by bit: section 3.4 of RFC 1321 describes them as conditionals. */
module Md5Properties {
  import opened Bytes
  import opened Md5Spec

  lemma BitsFromBits(b: bv32)
    ensures Bits(FromBits(b)) == b
  {
  }

  lemma FIs(x: word32, y: word32, z: word32)
    ensures Bits(F(x, y, z)) == (Bits(x) & Bits(y)) | (!Bits(x) & Bits(z))
  {
    hide Bits, FromBits;
    BitsFromBits((Bits(x) & Bits(y)) | (!Bits(x) & Bits(z)));
  }

  lemma GIs(x: word32, y: word32, z: word32)
    ensures Bits(G(x, y, z)) == (Bits(x) & Bits(z)) | (Bits(y) & !Bits(z))
  {
    hide Bits, FromBits;
    BitsFromBits((Bits(x) & Bits(z)) | (Bits(y) & !Bits(z)));
  }

  lemma HIs(x: word32, y: word32, z: word32)
    ensures Bits(H(x, y, z)) == Bits(x) ^ Bits(y) ^ Bits(z)
  {
    hide Bits, FromBits;
    BitsFromBits(Bits(x) ^ Bits(y) ^ Bits(z));
  }

  lemma IIs(x: word32, y: word32, z: word32)
    ensures Bits(I(x, y, z)) == Bits(y) ^ (Bits(x) | !Bits(z))
  {
    hide Bits, FromBits;
    BitsFromBits(Bits(y) ^ (Bits(x) | !Bits(z)));
  }

  lemma Choice(f: bv32, which: bv32, b: bv32, c: bv32)
    requires f == (which & b) | (!which & c)
    ensures f & which == b & which && f & !which == c & !which
  {
  }

  lemma ChoiceByLast(f: bv32, which: bv32, b: bv32, c: bv32)
    requires f == (b & which) | (c & !which)
    ensures f & which == b & which && f & !which == c & !which
  {
  }

  lemma Parity(h: bv32, a: bv32, b: bv32, c: bv32)
    requires h == a ^ b ^ c
    ensures h == (a & b & c) | (a & !b & !c) | (!a & b & !c) | (!a & !b & c)
  {
  }

  lemma Complement(i: bv32, which: bv32, b: bv32)
    requires i == b ^ which
    ensures i & which == !b & which && i & !which == b & !which
  {
  }

  /** Where x has a one, F has the bit of y, and elsewhere that of z. */
  lemma FChooses(x: word32, y: word32, z: word32)
    ensures Bits(F(x, y, z)) & Bits(x) == Bits(y) & Bits(x)
    ensures Bits(F(x, y, z)) & !Bits(x) == Bits(z) & !Bits(x)
  {
    hide Bits, FromBits, F;
    FIs(x, y, z);
    Choice(Bits(F(x, y, z)), Bits(x), Bits(y), Bits(z));
  }

  /** Where z has a one, G has the bit of x, and elsewhere that of y. */
  lemma GChooses(x: word32, y: word32, z: word32)
    ensures Bits(G(x, y, z)) & Bits(z) == Bits(x) & Bits(z)
    ensures Bits(G(x, y, z)) & !Bits(z) == Bits(y) & !Bits(z)
  {
    hide Bits, FromBits, G;
    GIs(x, y, z);
    ChoiceByLast(Bits(G(x, y, z)), Bits(z), Bits(x), Bits(y));
  }

  /** H has a one where an odd number of the three words have one. */
  lemma HIsParity(x: word32, y: word32, z: word32)
    ensures Bits(H(x, y, z)) ==
            (Bits(x) & Bits(y) & Bits(z)) | (Bits(x) & !Bits(y) & !Bits(z))
            | (!Bits(x) & Bits(y) & !Bits(z)) | (!Bits(x) & !Bits(y) & Bits(z))
  {
    hide Bits, FromBits, H;
    HIs(x, y, z);
    Parity(Bits(H(x, y, z)), Bits(x), Bits(y), Bits(z));
  }

  /** Where x has a one or z a zero, I has the complement of y, and elsewhere y itself. */
  lemma IComplements(x: word32, y: word32, z: word32)
    ensures Bits(I(x, y, z)) & (Bits(x) | !Bits(z)) == !Bits(y) & (Bits(x) | !Bits(z))
    ensures Bits(I(x, y, z)) & !(Bits(x) | !Bits(z)) == Bits(y) & !(Bits(x) | !Bits(z))
  {
    hide Bits, FromBits, I;
    IIs(x, y, z);
    Complement(Bits(I(x, y, z)), Bits(x) | !Bits(z), Bits(y));
  }
}
