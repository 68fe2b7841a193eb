/** The substitution boxes that the tables encode, and what each table holds. */
module SBox {
  import opened Gf256
  import opened Tables

  /** The word whose most significant byte is b0. */
  function Word(b0: bv8, b1: bv8, b2: bv8, b3: bv8): bv32 {
    ((b0 as bv32) << 24) ^ ((b1 as bv32) << 16) ^ ((b2 as bv32) << 8) ^ (b3 as bv32)
  }

  /** The S-box of section 5.1.1 of FIPS 197. */
  function S(x: bv8): bv8 {
    (Te4(x) & 0xff) as bv8
  }

  /** The inverse S-box of section 5.3.2 of FIPS 197. */
  function Si(x: bv8): bv8 {
    (Td4(x) & 0xff) as bv8
  }

  /** The affine transformation of section 5.1.1 of FIPS 197. */
  function Affine(y: bv8): bv8 {
    y ^ ((y << 1) | (y >> 7)) ^ ((y << 2) | (y >> 6)) ^ ((y << 3) | (y >> 5)) ^ ((y << 4) | (y >> 4)) ^ 0x63
  }

  function InvAffine(y: bv8): bv8 {
    ((y << 1) | (y >> 7)) ^ ((y << 3) | (y >> 5)) ^ ((y << 6) | (y >> 2)) ^ 0x05
  }

  lemma AffineOfInvAffine(y: bv8)
    ensures Affine(InvAffine(y)) == y
  {
  }

  lemma SOfZero()
    ensures InvAffine(S(0)) == 0
  {
  }

  lemma SOfNonZero(x: bv8)
    requires x != 0
    ensures Mul(InvAffine(S(x)), x) == 1
  {
  }

  /** S is the affine image of the multiplicative inverse, with 0 standing for its own inverse. */
  lemma SIsAffineOfInverse(x: bv8)
    ensures exists y :: S(x) == Affine(y) && if x == 0 then y == 0 else Mul(y, x) == 1
  {
    hide S, Mul, Affine, InvAffine;
    AffineOfInvAffine(S(x));
    if x == 0 {
      SOfZero();
    } else {
      SOfNonZero(x);
    }
  }

  lemma SiOfS(x: bv8)
    ensures Si(S(x)) == x
  {
  }

  lemma SOfSi(x: bv8)
    ensures S(Si(x)) == x
  {
  }

  lemma Te0Entry(x: bv8)
    ensures Te0(x) == Word(Mul(0x02, S(x)), S(x), S(x), Mul(0x03, S(x)))
  {
  }

  lemma Te1Entry(x: bv8)
    ensures Te1(x) == Word(Mul(0x03, S(x)), Mul(0x02, S(x)), S(x), S(x))
  {
  }

  lemma Te2Entry(x: bv8)
    ensures Te2(x) == Word(S(x), Mul(0x03, S(x)), Mul(0x02, S(x)), S(x))
  {
  }

  lemma Te3Entry(x: bv8)
    ensures Te3(x) == Word(S(x), S(x), Mul(0x03, S(x)), Mul(0x02, S(x)))
  {
  }

  lemma Te4Entry(x: bv8)
    ensures Te4(x) == Word(S(x), S(x), S(x), S(x))
  {
  }

  lemma Td0Entry(x: bv8)
    ensures Td0(x) == Word(Mul(0x0e, Si(x)), Mul(0x09, Si(x)), Mul(0x0d, Si(x)), Mul(0x0b, Si(x)))
  {
  }

  lemma Td1Entry(x: bv8)
    ensures Td1(x) == Word(Mul(0x0b, Si(x)), Mul(0x0e, Si(x)), Mul(0x09, Si(x)), Mul(0x0d, Si(x)))
  {
  }

  lemma Td2Entry(x: bv8)
    ensures Td2(x) == Word(Mul(0x0d, Si(x)), Mul(0x0b, Si(x)), Mul(0x0e, Si(x)), Mul(0x09, Si(x)))
  {
  }

  lemma Td3Entry(x: bv8)
    ensures Td3(x) == Word(Mul(0x09, Si(x)), Mul(0x0d, Si(x)), Mul(0x0b, Si(x)), Mul(0x0e, Si(x)))
  {
  }

  lemma Td4Entry(x: bv8)
    ensures Td4(x) == Word(Si(x), Si(x), Si(x), Si(x))
  {
  }
}
