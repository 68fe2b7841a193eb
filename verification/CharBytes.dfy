/** Characters of the protocol's texts as the bytes that are sent and encrypted. */
module CharBytes {
  import opened Strings

  type Bytes = seq<bv8>

  function Weight(b: bv8, mask: bv8, value: nat): (n: nat)
    ensures n == 0 || n == value
  {
    if b & mask != 0 then value else 0
  }

  function NumberOf(b: bv8): (n: nat)
    ensures n < 256
  {
    Weight(b, 0x80, 128) + Weight(b, 0x40, 64) + Weight(b, 0x20, 32) + Weight(b, 0x10, 16)
    + Weight(b, 8, 8) + Weight(b, 4, 4) + Weight(b, 2, 2) + Weight(b, 1, 1)
  }

  function Bits(a7: bool, a6: bool, a5: bool, a4: bool, a3: bool, a2: bool, a1: bool, a0: bool): bv8 {
    (if a7 then 0x80 else 0) | (if a6 then 0x40 else 0) | (if a5 then 0x20 else 0) | (if a4 then 0x10 else 0)
    | (if a3 then 8 else 0) | (if a2 then 4 else 0) | (if a1 then 2 else 0) | (if a0 then 1 else 0)
  }

  function Half(n: nat): nat {
    n / 2
  }

  predicate Odd(n: nat) {
    n % 2 == 1
  }

  function ByteOfNumber(n: nat): bv8 {
    var h1 := Half(n);
    var h2 := Half(h1);
    var h3 := Half(h2);
    var h4 := Half(h3);
    var h5 := Half(h4);
    var h6 := Half(h5);
    Bits(Odd(Half(h6)), Odd(h6), Odd(h5), Odd(h4), Odd(h3), Odd(h2), Odd(h1), Odd(n))
  }

  lemma NumberOfBits(a7: bool, a6: bool, a5: bool, a4: bool, a3: bool, a2: bool, a1: bool, a0: bool)
    ensures NumberOf(Bits(a7, a6, a5, a4, a3, a2, a1, a0))
         == (if a7 then 128 else 0) + (if a6 then 64 else 0) + (if a5 then 32 else 0) + (if a4 then 16 else 0)
          + (if a3 then 8 else 0) + (if a2 then 4 else 0) + (if a1 then 2 else 0) + (if a0 then 1 else 0)
  {
  }

  lemma Halves(n: nat)
    ensures n == 2 * Half(n) + if Odd(n) then 1 else 0
  {
  }

  lemma NumberOfByte(n: nat)
    requires n < 256
    ensures NumberOf(ByteOfNumber(n)) == n
  {
    hide NumberOf, Bits, Odd, Half;
    var h1 := Half(n);
    var h2 := Half(h1);
    var h3 := Half(h2);
    var h4 := Half(h3);
    var h5 := Half(h4);
    var h6 := Half(h5);
    var h7 := Half(h6);
    Halves(n);
    Halves(h1);
    Halves(h2);
    Halves(h3);
    Halves(h4);
    Halves(h5);
    Halves(h6);
    Halves(h7);
    NumberOfBits(Odd(h7), Odd(h6), Odd(h5), Odd(h4), Odd(h3), Odd(h2), Odd(h1), Odd(n));
  }

  function CharOf(b: bv8): (c: char)
    ensures c as int < 256
  {
    NumberOf(b) as char
  }

  function ByteOf(c: char): bv8 {
    ByteOfNumber(c as int)
  }

  function ToText(bs: Bytes): (s: string)
    ensures |s| == |bs| && forall i :: 0 <= i < |bs| ==> s[i] == CharOf(bs[i])
  {
    seq(|bs|, i requires 0 <= i < |bs| => CharOf(bs[i]))
  }

  function ToBytes(s: string): (bs: Bytes)
    ensures |bs| == |s| && forall i :: 0 <= i < |s| ==> bs[i] == ByteOf(s[i])
  {
    seq(|s|, i requires 0 <= i < |s| => ByteOf(s[i]))
  }

  /** Bytes and characters have the same numbers. */
  lemma NumberIs(b: bv8)
    ensures CharOf(b) as int == b as int
  {
  }

  lemma ByteIs(c: char)
    requires c as int < 256
    ensures ByteOf(c) as int == c as int
  {
    hide NumberOf, ByteOfNumber;
    NumberOfByte(c as int);
    NumberIs(ByteOf(c));
  }

  /** A text of 8-bit characters is recovered from its bytes. */
  lemma TextOfBytes(s: string)
    requires EightBit(s)
    ensures ToText(ToBytes(s)) == s
  {
    hide NumberOf, ByteOfNumber;
    forall i | 0 <= i < |s|
      ensures ToText(ToBytes(s))[i] == s[i]
    {
      assert s[i] in s;
      NumberOfByte(s[i] as int);
    }
  }
}
