/** Arithmetic in GF(2^8), as section 4 of FIPS 197 defines it. */
module Gf256 {

  /** Addition of field elements, section 4.1 of FIPS 197. */
  function Add(a: bv8, b: bv8): bv8 {
    a ^ b
  }

  /** Multiplication by x, section 4.2.1 of FIPS 197. */
  function XTime(x: bv8): bv8 {
    (x << 1) ^ (if x & 0x80 != 0 then 0x1b else 0)
  }

  /** The product of two field elements, section 4.2 of FIPS 197. */
  function Mul(a: bv8, x: bv8): bv8 {
    var x1 := XTime(x);
    var x2 := XTime(x1);
    var x3 := XTime(x2);
    var x4 := XTime(x3);
    var x5 := XTime(x4);
    var x6 := XTime(x5);
    var x7 := XTime(x6);
    Add(if a & 0x01 != 0 then x else 0,
    Add(if a & 0x02 != 0 then x1 else 0,
    Add(if a & 0x04 != 0 then x2 else 0,
    Add(if a & 0x08 != 0 then x3 else 0,
    Add(if a & 0x10 != 0 then x4 else 0,
    Add(if a & 0x20 != 0 then x5 else 0,
    Add(if a & 0x40 != 0 then x6 else 0, if a & 0x80 != 0 then x7 else 0)))))))
  }

  /** {02}a + {03}b + c + d: one byte of a MixColumns product. */
  function Mix(a: bv8, b: bv8, c: bv8, d: bv8): bv8 {
    Add(Add(Mul(0x02, a), Mul(0x03, b)), Add(c, d))
  }

  /** {0e}a + {0b}b + {0d}c + {09}d: one byte of an InvMixColumns product. */
  function InvMix(a: bv8, b: bv8, c: bv8, d: bv8): bv8 {
    Add(Add(Mul(0x0e, a), Mul(0x0b, b)), Add(Mul(0x0d, c), Mul(0x09, d)))
  }

  lemma XTimeAdditive(x: bv8, y: bv8)
    ensures XTime(Add(x, y)) == Add(XTime(x), XTime(y))
  {
    assert (x ^ y) << 1 == (x << 1) ^ (y << 1);
    if x & 0x80 != 0 {
      if y & 0x80 != 0 {
      } else {
      }
    } else {
      if y & 0x80 != 0 {
      } else {
      }
    }
  }

  lemma AddAssociative(a: bv8, b: bv8, c: bv8)
    ensures Add(Add(a, b), c) == Add(a, Add(b, c))
  {
    assert (a ^ b) ^ c == a ^ (b ^ c);
  }

  lemma AddCommutative(a: bv8, b: bv8)
    ensures Add(a, b) == Add(b, a)
  {
  }

  lemma AddPairs(p: bv8, q: bv8, r: bv8, s: bv8)
    ensures Add(Add(p, q), Add(r, s)) == Add(Add(p, r), Add(q, s))
  {
    hide Add;
    AddAssociative(p, q, Add(r, s));
    AddAssociative(q, r, s);
    AddCommutative(q, r);
    AddAssociative(r, q, s);
    AddAssociative(p, r, Add(q, s));
  }

  lemma AddRotate(p: bv8, q: bv8, r: bv8, s: bv8)
    ensures Add(Add(p, q), Add(r, s)) == Add(Add(s, p), Add(q, r))
  {
    hide Add;
    AddPairs(p, q, r, s);
    AddCommutative(r, s);
    AddCommutative(q, r);
    AddCommutative(s, p);
    AddCommutative(p, r);
    AddPairs(p, q, s, r);
  }

  lemma AddZero(a: bv8)
    ensures Add(a, 0) == a && Add(0, a) == a
  {
  }

  lemma AddSelf(a: bv8, b: bv8)
    ensures Add(a, a) == 0
    ensures Add(Add(b, a), a) == b
  {
    AddAssociative(b, a, a);
  }

  /** The products of MixColumns and InvMixColumns as sums of repeated XTime. */
  lemma SmallProducts(x: bv8)
    ensures Mul(0x02, x) == XTime(x)
    ensures Mul(0x03, x) == Add(x, XTime(x))
    ensures Mul(0x09, x) == Add(x, XTime(XTime(XTime(x))))
    ensures Mul(0x0b, x) == Add(x, Add(XTime(x), XTime(XTime(XTime(x)))))
    ensures Mul(0x0d, x) == Add(x, Add(XTime(XTime(x)), XTime(XTime(XTime(x)))))
    ensures Mul(0x0e, x) == Add(XTime(x), Add(XTime(XTime(x)), XTime(XTime(XTime(x)))))
  {
    hide XTime, Add;
    var x2 := XTime(x);
    var x4 := XTime(x2);
    var x8 := XTime(x4);
    AddZero(0);
    AddZero(x);
    AddZero(x2);
    AddZero(x4);
    AddZero(x8);
    AddZero(Add(x4, x8));
    AddZero(Add(x2, x8));
    AddZero(Add(x2, Add(x4, x8)));
  }

  lemma XPowersAdditive(x: bv8, y: bv8)
    ensures XTime(Add(x, y)) == Add(XTime(x), XTime(y))
    ensures XTime(XTime(Add(x, y))) == Add(XTime(XTime(x)), XTime(XTime(y)))
    ensures XTime(XTime(XTime(Add(x, y)))) == Add(XTime(XTime(XTime(x))), XTime(XTime(XTime(y))))
  {
    hide XTime, Add;
    XTimeAdditive(x, y);
    XTimeAdditive(XTime(x), XTime(y));
    XTimeAdditive(XTime(XTime(x)), XTime(XTime(y)));
  }

  /** Multiplication by each constant distributes over addition. */
  lemma ProductsAdditive(x: bv8, y: bv8)
    ensures Mul(0x02, Add(x, y)) == Add(Mul(0x02, x), Mul(0x02, y))
    ensures Mul(0x03, Add(x, y)) == Add(Mul(0x03, x), Mul(0x03, y))
    ensures Mul(0x09, Add(x, y)) == Add(Mul(0x09, x), Mul(0x09, y))
    ensures Mul(0x0b, Add(x, y)) == Add(Mul(0x0b, x), Mul(0x0b, y))
    ensures Mul(0x0d, Add(x, y)) == Add(Mul(0x0d, x), Mul(0x0d, y))
    ensures Mul(0x0e, Add(x, y)) == Add(Mul(0x0e, x), Mul(0x0e, y))
  {
    hide XTime, Add, Mul;
    SmallProducts(x);
    SmallProducts(y);
    SmallProducts(Add(x, y));
    XPowersAdditive(x, y);
    var x2, y2 := XTime(x), XTime(y);
    var x4, y4 := XTime(x2), XTime(y2);
    var x8, y8 := XTime(x4), XTime(y4);
    AddPairs(x, y, x2, y2);
    AddPairs(x, y, x8, y8);
    AddPairs(x2, y2, x8, y8);
    AddPairs(x4, y4, x8, y8);
    AddPairs(x, y, Add(x2, x8), Add(y2, y8));
    AddPairs(x, y, Add(x4, x8), Add(y4, y8));
    AddPairs(x2, y2, Add(x4, x8), Add(y4, y8));
  }

  lemma MixAdditive(a: bv8, b: bv8, c: bv8, d: bv8, p: bv8, q: bv8, r: bv8, s: bv8)
    ensures Mix(Add(a, p), Add(b, q), Add(c, r), Add(d, s)) == Add(Mix(a, b, c, d), Mix(p, q, r, s))
  {
    hide Add, Mul;
    ProductsAdditive(a, p);
    ProductsAdditive(b, q);
    AddPairs(Mul(0x02, a), Mul(0x02, p), Mul(0x03, b), Mul(0x03, q));
    AddPairs(c, r, d, s);
    AddPairs(Add(Mul(0x02, a), Mul(0x03, b)), Add(Mul(0x02, p), Mul(0x03, q)), Add(c, d), Add(r, s));
  }

  lemma InvMixAdditive(a: bv8, b: bv8, c: bv8, d: bv8, p: bv8, q: bv8, r: bv8, s: bv8)
    ensures InvMix(Add(a, p), Add(b, q), Add(c, r), Add(d, s)) == Add(InvMix(a, b, c, d), InvMix(p, q, r, s))
  {
    hide Add, Mul;
    ProductsAdditive(a, p);
    ProductsAdditive(b, q);
    ProductsAdditive(c, r);
    ProductsAdditive(d, s);
    AddPairs(Mul(0x0e, a), Mul(0x0e, p), Mul(0x0b, b), Mul(0x0b, q));
    AddPairs(Mul(0x0d, c), Mul(0x0d, r), Mul(0x09, d), Mul(0x09, s));
    AddPairs(Add(Mul(0x0e, a), Mul(0x0b, b)), Add(Mul(0x0e, p), Mul(0x0b, q)),
             Add(Mul(0x0d, c), Mul(0x09, d)), Add(Mul(0x0d, r), Mul(0x09, s)));
  }

  /** What one byte of a column contributes after mixing and unmixing, by position. */
  lemma InvMixOfMixUnit(x: bv8)
    ensures InvMix(Mul(0x02, x), x, x, Mul(0x03, x)) == x
  {
    hide Mul;
    SmallProducts(x);
    SmallProducts(XTime(x));
    SmallProducts(Add(x, XTime(x)));
  }

  lemma InvMixOfMixFirst(x: bv8)
    ensures InvMix(Mul(0x03, x), Mul(0x02, x), x, x) == 0
  {
    hide Mul;
    SmallProducts(x);
    SmallProducts(XTime(x));
    SmallProducts(Add(x, XTime(x)));
  }

  lemma InvMixOfMixSecond(x: bv8)
    ensures InvMix(x, Mul(0x03, x), Mul(0x02, x), x) == 0
  {
    hide Mul;
    SmallProducts(x);
    SmallProducts(XTime(x));
    SmallProducts(Add(x, XTime(x)));
  }

  lemma InvMixOfMixThird(x: bv8)
    ensures InvMix(x, x, Mul(0x03, x), Mul(0x02, x)) == 0
  {
    hide Mul;
    SmallProducts(x);
    SmallProducts(XTime(x));
    SmallProducts(Add(x, XTime(x)));
  }

  /** The MixColumns polynomials of section 5.1.3 and 5.3.3 of FIPS 197 are inverse to each other. */
  lemma InvMixOfMix(a: bv8, b: bv8, c: bv8, d: bv8)
    ensures InvMix(Mix(a, b, c, d), Mix(b, c, d, a), Mix(c, d, a, b), Mix(d, a, b, c)) == a
  {
    hide Add, Mul, InvMix;
    var a2, b2, c2, d2 := Mul(0x02, a), Mul(0x02, b), Mul(0x02, c), Mul(0x02, d);
    var a3, b3, c3, d3 := Mul(0x03, a), Mul(0x03, b), Mul(0x03, c), Mul(0x03, d);
    AddRotate(b2, c3, d, a);
    AddCommutative(Add(c2, d3), Add(a, b));
    AddRotate(a3, b, c, d2);
    InvMixOfMixUnit(a);
    InvMixOfMixFirst(b);
    InvMixOfMixSecond(c);
    InvMixOfMixThird(d);
    InvMixAdditive(a2, a, a, a3, b3, b2, b, b);
    InvMixAdditive(c, c3, c2, c, d, d, d3, d2);
    InvMixAdditive(Add(a2, b3), Add(a, b2), Add(a, b), Add(a3, b), Add(c, d), Add(c3, d), Add(c2, d3), Add(c, d2));
    AddZero(0);
    AddZero(a);
  }

  /** The same contributions when unmixing comes first. */
  lemma MixOfInvMixUnit(x: bv8)
    ensures Mix(Mul(0x0e, x), Mul(0x09, x), Mul(0x0d, x), Mul(0x0b, x)) == x
  {
    hide Mul;
    SmallProducts(x);
    SmallProducts(Mul(0x0e, x));
    SmallProducts(Mul(0x09, x));
  }

  lemma MixOfInvMixFirst(x: bv8)
    ensures Mix(Mul(0x0b, x), Mul(0x0e, x), Mul(0x09, x), Mul(0x0d, x)) == 0
  {
    hide Mul;
    SmallProducts(x);
    SmallProducts(Mul(0x0b, x));
    SmallProducts(Mul(0x0e, x));
  }

  lemma MixOfInvMixSecond(x: bv8)
    ensures Mix(Mul(0x0d, x), Mul(0x0b, x), Mul(0x0e, x), Mul(0x09, x)) == 0
  {
    hide Mul;
    SmallProducts(x);
    SmallProducts(Mul(0x0d, x));
    SmallProducts(Mul(0x0b, x));
  }

  lemma MixOfInvMixThird(x: bv8)
    ensures Mix(Mul(0x09, x), Mul(0x0d, x), Mul(0x0b, x), Mul(0x0e, x)) == 0
  {
    hide Mul;
    SmallProducts(x);
    SmallProducts(Mul(0x09, x));
    SmallProducts(Mul(0x0d, x));
  }

  lemma MixOfInvMix(a: bv8, b: bv8, c: bv8, d: bv8)
    ensures Mix(InvMix(a, b, c, d), InvMix(b, c, d, a), InvMix(c, d, a, b), InvMix(d, a, b, c)) == a
  {
    hide Add, Mul, Mix;
    var ae, a9, ad, ab := Mul(0x0e, a), Mul(0x09, a), Mul(0x0d, a), Mul(0x0b, a);
    var be, b9, bd, bb := Mul(0x0e, b), Mul(0x09, b), Mul(0x0d, b), Mul(0x0b, b);
    var ce, c9, cd, cb := Mul(0x0e, c), Mul(0x09, c), Mul(0x0d, c), Mul(0x0b, c);
    var de, d9, dd, db := Mul(0x0e, d), Mul(0x09, d), Mul(0x0d, d), Mul(0x0b, d);
    AddRotate(be, cb, dd, a9);
    AddCommutative(Add(ce, db), Add(ad, b9));
    AddRotate(ab, bd, c9, de);
    MixOfInvMixUnit(a);
    MixOfInvMixFirst(b);
    MixOfInvMixSecond(c);
    MixOfInvMixThird(d);
    MixAdditive(ae, a9, ad, ab, bb, be, b9, bd);
    MixAdditive(cd, cb, ce, c9, d9, dd, db, de);
    MixAdditive(Add(ae, bb), Add(a9, be), Add(ad, b9), Add(ab, bd), Add(cd, d9), Add(cb, dd), Add(ce, db), Add(c9, de));
    AddZero(0);
    AddZero(a);
  }
}
