/** Decimal numbers as the C library prints and reads them. */
module Numbers {
  import opened Wrappers
  import opened IniText

  predicate IsDigit(c: char) {
    '0' <= c <= '9'
  }

  predicate AllDigits(s: string) {
    forall c :: c in s ==> IsDigit(c)
  }

  // ---------------------------------------------------------------- Printing

  function DigitChar(n: nat): (c: char)
    requires n < 10
    ensures IsDigit(c)
  {
    ('0' as int + n) as char
  }

  /** %u. */
  function Decimal(n: nat): (s: string)
    ensures s != [] && AllDigits(s)
  {
    if n < 10 then [DigitChar(n)] else Decimal(n / 10) + [DigitChar(n % 10)]
  }

  function Zeros(k: nat): (s: string)
    ensures |s| == k && AllDigits(s)
  {
    seq(k, _ => '0')
  }

  /** %0<width>u. */
  function Padded(n: nat, width: nat): (s: string)
    ensures s != [] && AllDigits(s) && |s| >= width
  {
    var d := Decimal(n);
    if |d| < width then Zeros(width - |d|) + d else d
  }

  /** %li. */
  function Signed(n: int): string {
    if n < 0 then "-" + Decimal(-n) else Decimal(n)
  }

  function Pow10(k: nat): (r: nat)
    ensures r >= 1
  {
    if k == 0 then 1 else 10 * Pow10(k - 1)
  }

  /** A number has at most k digits exactly when it is below the k-th power of ten. */
  lemma {:induction false} DecimalLength(n: nat, k: nat)
    requires k >= 1
    ensures |Decimal(n)| <= k <==> n < Pow10(k)
    decreases n
  {
    if n < 10 {
      assert Pow10(k) == 10 * Pow10(k - 1);
    } else if k == 1 {
      assert Pow10(1) == 10 * Pow10(0) == 10;
    } else {
      DecimalLength(n / 10, k - 1);
      assert Pow10(k) == 10 * Pow10(k - 1);
    }
  }

  lemma PaddedLength(n: nat, width: nat)
    requires width >= 1
    ensures |Padded(n, width)| == width <==> n < Pow10(width)
  {
    DecimalLength(n, width);
  }

  /** n without its last k digits. */
  function Without(n: nat, k: nat): nat {
    if k == 0 then n else Without(n / 10, k - 1)
  }

  lemma LastDigit(d: nat)
    requires d < 10
    ensures DigitChar(d) == "0123456789"[d]
  {
  }

  /** Every digit that is printed, counted from the last one. */
  lemma {:induction false} DecimalDigit(n: nat, k: nat)
    requires k < |Decimal(n)|
    ensures Decimal(n)[|Decimal(n)| - 1 - k] == "0123456789"[Without(n, k) % 10]
    decreases k
  {
    LastDigit(n % 10);
    if n >= 10 && k > 0 {
      DecimalDigit(n / 10, k - 1);
    }
  }

  /** A sign in front of negative numbers, zeros up to the width in front of padded ones. */
  lemma PrintedAs(n: nat, width: nat)
    ensures n > 0 ==> Signed(0 - n as int) == "-" + Decimal(n)
    ensures |Decimal(n)| <= width ==>
      |Padded(n, width)| == width && Padded(n, width)[width - |Decimal(n)|..] == Decimal(n)
      && forall i :: 0 <= i < width - |Decimal(n)| ==> Padded(n, width)[i] == '0'
  {
  }

  // ---------------------------------------------------------------- Reading

  function DigitValue(c: char): (n: nat)
    requires IsDigit(c)
    ensures n < 10
  {
    c as int - '0' as int
  }

  function Value(s: string): nat
    requires AllDigits(s)
  {
    if s == [] then 0
    else
      var last := s[|s| - 1];
      assert last in s;
      10 * Value(s[..|s| - 1]) + DigitValue(last)
  }

  /** The number of digits that s begins with. */
  function DigitRun(s: string): (n: nat)
    ensures n <= |s| && AllDigits(s[..n]) && (n < |s| ==> !IsDigit(s[n]))
  {
    if s == [] || !IsDigit(s[0]) then 0
    else
      var n := DigitRun(s[1..]);
      assert s[..1 + n] == [s[0]] + s[1..][..n];
      1 + n
  }

  /** The number strtoll reads in base ten, before it is limited to its range: blanks, a sign, digits. */
  function Number(s: string): int {
    var t := TrimLeft(s);
    var negative := t != [] && t[0] == '-';
    var u := if t != [] && t[0] in {'-', '+'} then t[1..] else t;
    var v: int := Value(u[..DigitRun(u)]);
    if negative then -v else v
  }

  const LONG_MAX := 0x7fff_ffff_ffff_ffff

  /** common_myatoi; nothing when it ends the program because the number is out of range. */
  function Myatoi(s: string): Option<int> {
    var n := Number(s);
    if -LONG_MAX - 1 <= n <= LONG_MAX then Some(n) else None
  }

  /** atol, which limits the number to its range. */
  function Atol(s: string): int {
    var n := Number(s);
    if n > LONG_MAX then LONG_MAX else if n < -LONG_MAX - 1 then -LONG_MAX - 1 else n
  }

  /** The cast from long long to int. */
  function ToInt32(n: int): (r: int)
    ensures -0x8000_0000 <= r < 0x8000_0000
    ensures r == n <==> -0x8000_0000 <= n < 0x8000_0000
  {
    (n + 0x8000_0000) % 0x1_0000_0000 - 0x8000_0000
  }

  lemma {:induction false} ValueOfDecimal(n: nat)
    ensures Value(Decimal(n)) == n
    decreases n
  {
    if n < 10 {
      assert [DigitChar(n)][..0] == [];
      assert Value([]) == 0;
    } else {
      var d := Decimal(n / 10);
      assert Decimal(n)[..|d|] == d;
      ValueOfDecimal(n / 10);
    }
  }

  lemma {:induction false} ValueAfterZeros(k: nat, s: string)
    requires AllDigits(s)
    ensures Value(Zeros(k) + s) == Value(s)
    decreases k + |s|
  {
    if s == [] {
      assert Zeros(k) + s == Zeros(k);
      if k > 0 {
        assert Zeros(k)[..k - 1] == Zeros(k - 1) + [];
        ValueAfterZeros(k - 1, []);
      }
    } else {
      assert (Zeros(k) + s)[..k + |s| - 1] == Zeros(k) + s[..|s| - 1];
      ValueAfterZeros(k, s[..|s| - 1]);
    }
  }

  lemma {:induction false} DigitRunOf(s: string, rest: string)
    requires AllDigits(s) && (rest == [] || !IsDigit(rest[0]))
    ensures DigitRun(s + rest) == |s|
    decreases |s|
  {
    if s == [] {
      assert s + rest == rest;
    } else {
      assert s[0] in s && (s + rest)[1..] == s[1..] + rest;
      DigitRunOf(s[1..], rest);
    }
  }

  /** Digits with any zeros before them are read as their value, up to the first character that is no digit. */
  lemma NumberOfDigits(s: string, rest: string)
    requires s != [] && AllDigits(s) && (rest == [] || !IsDigit(rest[0]))
    ensures Number(s + rest) == Value(s)
  {
    var t := s + rest;
    assert s[0] in s && t[0] == s[0];
    DigitRunOf(s, rest);
    assert t[..|s|] == s;
  }

  lemma NumberOfPadded(n: nat, width: nat)
    ensures Number(Padded(n, width)) == n
  {
    var d := Decimal(n);
    var s := Padded(n, width);
    ValueOfDecimal(n);
    if |d| < width {
      ValueAfterZeros(width - |d|, d);
    }
    assert s + [] == s;
    NumberOfDigits(s, []);
  }

  /** A number that was printed is read back. */
  lemma NumberOfSigned(n: int)
    ensures Number(Signed(n)) == n
  {
    if n < 0 {
      ValueOfDecimal(-n);
      var d := Decimal(-n);
      assert Signed(n)[1..] == d && d + [] == d;
      DigitRunOf(d, []);
      assert d[..|d|] == d;
    } else {
      var d := Decimal(n);
      ValueOfDecimal(n);
      assert d + [] == d;
      NumberOfDigits(d, []);
    }
  }

  /** A number that was printed is read back when it fits 64 bits; otherwise it ends the program, or is limited. */
  lemma ReadBack(n: int)
    ensures Myatoi(Signed(n)) == if -0x8000_0000_0000_0000 <= n <= 0x7fff_ffff_ffff_ffff then Some(n) else None
    ensures Atol(Signed(n)) == if n < -0x8000_0000_0000_0000 then -0x8000_0000_0000_0000
                               else if n > 0x7fff_ffff_ffff_ffff then 0x7fff_ffff_ffff_ffff
                               else n
  {
    hide Number, Signed;
    NumberOfSigned(n);
  }

  /** Blanks in front are skipped. */
  lemma NumberBehind(a: string, t: string)
    requires AllSpace(a) && (t == "" || !IsSpace(t[0]))
    ensures Number(a + t) == Number(t)
  {
    hide Value, DigitRun;
    TrimLeftOf(a, t);
    TrimLeftOf("", t);
    assert "" + t == t;
  }

  lemma DigitsAmong(n: nat, rest: string)
    requires rest == "" || !IsDigit(rest[0])
    ensures var t := Decimal(n) + rest; Value(t[..DigitRun(t)]) == n
  {
    hide Decimal;
    ValueOfDecimal(n);
    DigitRunOf(Decimal(n), rest);
    assert (Decimal(n) + rest)[..|Decimal(n)|] == Decimal(n);
  }

  /** A sign is taken off, and what follows the digits is not looked at. */
  lemma NumberAmong(n: nat, rest: string)
    requires rest == "" || !IsDigit(rest[0])
    ensures Number("+" + (Decimal(n) + rest)) == n
    ensures Number("-" + (Decimal(n) + rest)) == 0 - n
  {
    hide Decimal, Value, DigitRun;
    var t := Decimal(n) + rest;
    DigitsAmong(n, rest);
    assert ("+" + t)[1..] == t && ("-" + t)[1..] == t;
    assert TrimLeft("+" + t) == "+" + t && TrimLeft("-" + t) == "-" + t;
  }
}
