/** Strings as the C program sees them. */
module Strings {

  const NUL := '\0'
  const QUOTE := '\''

  /** A string without a terminator inside. */
  predicate CText(s: string) {
    NUL !in s
  }

  predicate IsByte(c: char) {
    c as int < 256
  }

  predicate EightBit(s: string) {
    forall c :: c in s ==> IsByte(c)
  }

  /** A C string of 8-bit characters. */
  predicate ByteText(s: string) {
    CText(s) && EightBit(s)
  }

  /** Where a scan for the terminator stops. */
  lemma AtTerminator(s: string, n: nat)
    requires CText(s) && n <= |s| && (n < |s| ==> s[n] == NUL)
    ensures n == |s|
  {
  }

  predicate StartsWith(s: string, p: string) {
    |p| <= |s| && s[..|p|] == p
  }

  /** The index of the first c, or the length of s. */
  function Find(s: string, c: char): (n: nat)
    ensures n <= |s| && c !in s[..n] && (n < |s| ==> s[n] == c)
  {
    if s == [] || s[0] == c then 0 else 1 + Find(s[1..], c)
  }

  lemma {:induction false} FindAfter(a: string, c: char, rest: string)
    requires c !in a
    ensures Find(a + rest, c) == |a| + Find(rest, c)
    decreases |a|
  {
    if a == [] {
      assert a + rest == rest;
    } else {
      assert a[0] in a && (a + rest)[1..] == a[1..] + rest;
      FindAfter(a[1..], c, rest);
    }
  }

  lemma FindAt(a: string, c: char, rest: string)
    requires c !in a
    ensures Find(a + [c] + rest, c) == |a|
  {
    assert a + [c] + rest == a + ([c] + rest);
    FindAfter(a, c, [c] + rest);
  }
}
