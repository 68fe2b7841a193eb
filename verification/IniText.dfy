/** What the INI reader is made of: blanks, case, and the scansets of sscanf. */
module IniText {

  const ASCIILINESZ := 1024

  // ---------------------------------------------------------------- Characters and blanks

  predicate IsSpace(c: char) {
    c == ' ' || 9 <= c as int <= 13
  }

  function ToLower(c: char): char {
    if 'A' <= c <= 'Z' then (c as int + 32) as char else c
  }

  /** Exactly the twenty-six capitals have a small letter of their own. */
  lemma ToLowerIs(c: char, i: nat)
    requires i < 26
    ensures ToLower("ABCDEFGHIJKLMNOPQRSTUVWXYZ"[i]) == "abcdefghijklmnopqrstuvwxyz"[i]
    ensures c !in "ABCDEFGHIJKLMNOPQRSTUVWXYZ" ==> ToLower(c) == c
  {
    var capitals := "ABCDEFGHIJKLMNOPQRSTUVWXYZ";
    assert forall k :: 0 <= k < 26 ==> capitals[k] == ('A' as int + k) as char;
    if 'A' <= c <= 'Z' {
      assert capitals[c as int - 'A' as int] == c;
    }
  }

  /** Blank, tab, newline, vertical tab, form feed and carriage return. */
  lemma IsSpaceIs(c: char)
    ensures IsSpace(c) <==> c in {' ', '\t', '\n', '\U{0B}', '\U{0C}', '\r'}
  {
  }

  function LowerAll(s: string): (r: string)
    ensures |r| == |s| && forall i :: 0 <= i < |s| ==> r[i] == ToLower(s[i])
  {
    seq(|s|, i requires 0 <= i < |s| => ToLower(s[i]))
  }

  /** The lower-case copy in a buffer of ASCIILINESZ characters. */
  function Lower(s: string): string {
    LowerAll(if |s| <= ASCIILINESZ then s else s[..ASCIILINESZ])
  }

  /** Character by character, as far as the buffer goes. */
  lemma LowerAt(s: string, i: nat)
    requires i < |s| && i < 1024
    ensures |Lower(s)| == (if |s| <= 1024 then |s| else 1024) && Lower(s)[i] == ToLower(s[i])
  {
  }

  function TrimLeft(s: string): string {
    if s != [] && IsSpace(s[0]) then TrimLeft(s[1..]) else s
  }

  function TrimRight(s: string): string {
    if s != [] && IsSpace(s[|s| - 1]) then TrimRight(s[..|s| - 1]) else s
  }

  function Strip(s: string): string {
    TrimRight(TrimLeft(s))
  }

  predicate AllSpace(s: string) {
    forall c :: c in s ==> IsSpace(c)
  }

  /** Neither end of s is a blank. */
  predicate Trimmed(s: string) {
    s == [] || (!IsSpace(s[0]) && !IsSpace(s[|s| - 1]))
  }

  lemma {:induction false} TrimLeftOf(a: string, s: string)
    requires AllSpace(a) && (s == [] || !IsSpace(s[0]))
    ensures TrimLeft(a + s) == s
    decreases |a|
  {
    if a == [] {
      assert a + s == s;
    } else {
      assert (a + s)[1..] == a[1..] + s;
      TrimLeftOf(a[1..], s);
    }
  }

  lemma {:induction false} TrimRightOf(s: string, b: string)
    requires AllSpace(b) && (s == [] || !IsSpace(s[|s| - 1]))
    ensures TrimRight(s + b) == s
    decreases |b|
  {
    if b == [] {
      assert s + b == s;
    } else {
      assert (s + b)[..|s + b| - 1] == s + b[..|b| - 1];
      TrimRightOf(s, b[..|b| - 1]);
    }
  }

  lemma {:induction false} TrimLeftParts(s: string) returns (a: string)
    ensures s == a + TrimLeft(s) && AllSpace(a)
    ensures TrimLeft(s) == [] || !IsSpace(TrimLeft(s)[0])
    decreases |s|
  {
    if s != [] && IsSpace(s[0]) {
      var a0 := TrimLeftParts(s[1..]);
      a := [s[0]] + a0;
      assert s == [s[0]] + s[1..];
    } else {
      a := [];
    }
  }

  lemma {:induction false} TrimRightParts(s: string) returns (b: string)
    ensures s == TrimRight(s) + b && AllSpace(b)
    ensures TrimRight(s) == [] || !IsSpace(TrimRight(s)[|TrimRight(s)| - 1])
    decreases |s|
  {
    if s != [] && IsSpace(s[|s| - 1]) {
      var b0 := TrimRightParts(s[..|s| - 1]);
      b := b0 + [s[|s| - 1]];
      assert s == s[..|s| - 1] + [s[|s| - 1]];
    } else {
      b := [];
    }
  }

  /** What strstrip computes: s is blanks, a trimmed middle, blanks. */
  lemma StripParts(s: string) returns (a: string, b: string)
    ensures s == a + Strip(s) + b && AllSpace(a) && AllSpace(b)
    ensures Trimmed(Strip(s))
  {
    hide TrimLeft, TrimRight, AllSpace, IsSpace;
    a := TrimLeftParts(s);
    b := TrimRightParts(TrimLeft(s));
    if Strip(s) != [] {
      assert TrimLeft(s)[0] == Strip(s)[0];
    }
  }

  /** The trimmed middle is determined by the string. */
  lemma StripOf(a: string, s: string, b: string)
    requires AllSpace(a) && AllSpace(b) && Trimmed(s)
    ensures Strip(a + s + b) == s
  {
    if s == [] {
      assert AllSpace(a + b) && a + s + b == a + b && a + b == (a + b) + [];
      TrimLeftOf(a + b, []);
    } else {
      assert a + s + b == a + (s + b);
      TrimLeftOf(a, s + b);
      TrimRightOf(s, b);
    }
  }

  lemma StripTrimmed(s: string)
    requires Trimmed(s)
    ensures Strip(s) == s
  {
    StripOf([], s, []);
    assert [] + s + [] == s;
  }

  lemma StripKeeps(s: string)
    ensures |Strip(s)| <= |s| && forall c :: c in Strip(s) ==> c in s
  {
    var a, b := StripParts(s);
  }

  // ---------------------------------------------------------------- The loops behind them

  /** strlwc. */
  method Strlwc(s: string) returns (l: string)
    ensures l == Lower(s)
  {
    l := [];
    var i := 0;
    while i < |s| && i < ASCIILINESZ
      invariant 0 <= i <= |s| && i <= ASCIILINESZ && |l| == i
      invariant forall j :: 0 <= j < i ==> l[j] == ToLower(s[j])
    {
      l := l + [ToLower(s[i])];
      i := i + 1;
    }
  }

  /** strstrip. */
  method Strstrip(s: string) returns (l: string)
    ensures l == Strip(s)
  {
    var i := 0;
    while i < |s| && IsSpace(s[i])
      invariant 0 <= i <= |s| && TrimLeft(s[i..]) == TrimLeft(s)
    {
      i := i + 1;
    }
    l := s[i..];
    var last := |l|;
    assert l[..last] == l;
    while last > 0
      invariant 0 <= last <= |l| && TrimRight(l[..last]) == TrimRight(l)
    {
      if !IsSpace(l[last - 1]) {
        break;
      }
      assert l[..last][..last - 1] == l[..last - 1];
      last := last - 1;
    }
    l := l[..last];
  }

  // ---------------------------------------------------------------- sscanf with scansets

  /** The conversions and other directives of the formats used, section 7.19.6.2 of ISO C99. */
  datatype Directive =
    | Literal(c: char)
    | White
    | OneOf(chars: set<char>)
    | NoneOf(chars: set<char>)

  /** The length of the longest prefix that the scanset matches. */
  function Span(d: Directive, s: string): (n: nat)
    requires d.OneOf? || d.NoneOf?
    ensures n <= |s|
  {
    if s != [] && ((s[0] in d.chars) == d.OneOf?) then 1 + Span(d, s[1..]) else 0
  }

  /** The strings that sscanf assigns; their number is its result when that is positive. */
  function Scan(format: seq<Directive>, s: string): seq<string> {
    if format == [] then
      []
    else
      match format[0]
      case Literal(c) => if s != [] && s[0] == c then Scan(format[1..], s[1..]) else []
      case White => Scan(format[1..], TrimLeft(s))
      case _ =>
        var n := Span(format[0], s);
        if n == 0 then [] else [s[..n]] + Scan(format[1..], s[n..])
  }

  lemma {:induction false} SpanOf(d: Directive, s: string, t: string)
    requires d.OneOf? || d.NoneOf?
    requires forall c :: c in s ==> (c in d.chars) == d.OneOf?
    requires t == [] || (t[0] in d.chars) != d.OneOf?
    ensures Span(d, s + t) == |s|
    decreases |s|
  {
    if s == [] {
      assert s + t == t;
    } else {
      assert (s + t)[1..] == s[1..] + t;
      SpanOf(d, s[1..], t);
    }
  }

  lemma {:induction false} SpanParts(d: Directive, s: string)
    requires d.OneOf? || d.NoneOf?
    ensures forall i :: 0 <= i < Span(d, s) ==> (s[i] in d.chars) == d.OneOf?
    ensures Span(d, s) < |s| ==> (s[Span(d, s)] in d.chars) != d.OneOf?
    decreases |s|
  {
    if s != [] && ((s[0] in d.chars) == d.OneOf?) {
      SpanParts(d, s[1..]);
      assert forall i :: 0 <= i < Span(d, s[1..]) ==> s[i + 1] == s[1..][i];
    }
  }
}
