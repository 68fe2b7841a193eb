/** Backslash escapes of the SQL shell: written by output_c_string, resolved in place by resolve_backslashes. */
module ShellEscapes {
  import opened Strings

  /** isprint in the C locale. */
  predicate IsPrint(c: char) {
    ' ' <= c <= '~'
  }

  predicate IsOctal(c: char) {
    '0' <= c <= '7'
  }

  function Digit(n: nat): (c: char)
    requires n < 8
    ensures IsOctal(c) && c as int - '0' as int == n
  {
    ('0' as int + n) as char
  }

  // ---------------------------------------------------------------- Writing

  /** What output_c_string prints for one character. */
  function Escape(c: char): string
    requires IsByte(c)
  {
    if c == '\\' then "\\\\"
    else if c == '\t' then "\\t"
    else if c == '\n' then "\\n"
    else if c == '\r' then "\\r"
    else if !IsPrint(c) then "\\" + [Digit(c as int / 64), Digit(c as int / 8 % 8), Digit(c as int % 8)]
    else [c]
  }

  /** What is written for each character, in letters. */
  lemma EscapeIs(c: char)
    requires IsByte(c)
    ensures Escape(c)
         == if c == '\\' then "\\\\"
            else if c == '\t' then "\\t"
            else if c == '\n' then "\\n"
            else if c == '\r' then "\\r"
            else if 0x20 <= c as int <= 0x7e then [c]
            else
              var digits := "01234567";
              "\\" + [digits[c as int / 64], digits[c as int / 8 % 8], digits[c as int % 8]]
  {
    var digits := "01234567";
    assert forall n :: 0 <= n < 8 ==> Digit(n) == digits[n];
  }

  function EscapeAll(s: string): string
    requires EightBit(s)
  {
    if s == [] then [] else Escape(s[0]) + EscapeAll(s[1..])
  }

  /** The body that output_c_string writes between its double quotes. */
  method OutputCString(z: string) returns (out: string)
    requires ByteText(z)
    ensures out == "\"" + EscapeAll(z) + "\""
  {
    hide Escape;
    out := "\"";
    var i := 0;
    assert z[0..] == z;
    while i < |z|
      invariant 0 <= i <= |z|
      invariant out + EscapeAll(z[i..]) == "\"" + EscapeAll(z)
    {
      assert z[i..][1..] == z[i + 1..];
      assert out + (Escape(z[i]) + EscapeAll(z[i + 1..])) == out + Escape(z[i]) + EscapeAll(z[i + 1..]);
      out := out + Escape(z[i]);
      i := i + 1;
    }
    assert out + [] == out;
    out := out + "\"";
  }

  // ---------------------------------------------------------------- Resolving

  /** The octal digits, at most three, that s begins with. */
  function OctalRun(s: string): (n: nat)
    ensures n <= |s| && n <= 3 && forall i :: 0 <= i < n ==> IsOctal(s[i])
  {
    if s == [] || !IsOctal(s[0]) then 0
    else if |s| == 1 || !IsOctal(s[1]) then 1
    else if |s| == 2 || !IsOctal(s[2]) then 2
    else 3
  }

  /** The length of the escape or plain character at the start. */
  function Taken(s: string): (n: nat)
    requires s != [] && s != "\\"
    ensures 1 <= n <= |s|
  {
    if s[0] != '\\' then 1 else if IsOctal(s[1]) then 1 + OctalRun(s[1..]) else 2
  }

  function OctalValue(s: string): nat
    requires forall c :: c in s ==> IsOctal(c)
  {
    if s == [] then 0
    else
      var last := s[|s| - 1];
      assert last in s && IsOctal(last) && last >= '0';
      OctalValue(s[..|s| - 1]) * 8 + (last as int - '0' as int)
  }

  /** The character it stands for; an octal value is cut to eight bits. */
  function Denoted(s: string): char
    requires s != [] && s != "\\"
  {
    if s[0] != '\\' then s[0]
    else if s[1] == 'n' then '\n'
    else if s[1] == 't' then '\t'
    else if s[1] == 'r' then '\r'
    else if IsOctal(s[1]) then (OctalValue(s[1..1 + OctalRun(s[1..])]) % 256) as char
    else s[1]
  }

  /** No escape is cut off by the end of the string. */
  predicate Complete(s: string)
    decreases |s|
  {
    s == [] || (s != "\\" && Complete(s[Taken(s)..]))
  }

  function Resolve(s: string): (r: string)
    requires Complete(s)
    ensures |r| <= |s|
    decreases |s|
  {
    if s == [] then [] else [Denoted(s)] + Resolve(s[Taken(s)..])
  }

  lemma OctalOfDigits(n: nat)
    requires n < 256
    ensures OctalValue([Digit(n / 64), Digit(n / 8 % 8), Digit(n % 8)]) == n
  {
    var a, b, c := Digit(n / 64), Digit(n / 8 % 8), Digit(n % 8);
    assert [a][..0] == [] && [a, b][..1] == [a] && [a, b, c][..2] == [a, b];
    assert OctalValue([a]) == n / 64;
    assert OctalValue([a, b]) == n / 64 * 8 + n / 8 % 8 == n / 8;
  }

  lemma EscapeResolves(c: char, rest: string)
    requires IsByte(c)
    ensures var s := Escape(c) + rest; s != "\\" && Denoted(s) == c && Taken(s) == |Escape(c)| && s[Taken(s)..] == rest
  {
    var s, e := Escape(c) + rest, Escape(c);
    var n := c as int;
    assert s[0] == e[0] && s[|e|..] == rest;
    if c in {'\\', '\t', '\n', '\r'} {
      assert s[1] == e[1];
    } else if !IsPrint(c) {
      var d := [Digit(n / 64), Digit(n / 8 % 8), Digit(n % 8)];
      assert s[0] == '\\' && s[1] == d[0] && s[2] == d[1] && s[3] == d[2];
      assert s[1..1 + 3] == d && OctalRun(s[1..]) == 3;
      OctalOfDigits(n);
    }
  }

  lemma EscapeSome(c: char)
    requires IsByte(c)
    ensures Escape(c) != [] && forall d :: d in Escape(c) ==> IsPrint(d)
  {
  }

  /** Resolving what was written gives back every C string. */
  lemma {:induction false} ResolveOfEscape(s: string)
    requires ByteText(s)
    ensures Complete(EscapeAll(s)) && Resolve(EscapeAll(s)) == s
    decreases |s|
  {
    hide Escape, Denoted, Taken;
    if s != [] {
      assert s == [s[0]] + s[1..];
      ResolveOfEscape(s[1..]);
      EscapeResolves(s[0], EscapeAll(s[1..]));
      EscapeSome(s[0]);
    }
  }

  /** Only printable characters are written, so the body is a C string again. */
  lemma {:induction false} EscapePrintable(s: string)
    requires ByteText(s)
    ensures forall c :: c in EscapeAll(s) ==> IsPrint(c)
    decreases |s|
  {
    hide Escape;
    if s != [] {
      EscapePrintable(s[1..]);
      EscapeSome(s[0]);
    }
  }

  lemma EscapeSteps(c: char, s: string)
    requires IsByte(c) && EightBit(s)
    ensures EightBit([c] + s) && EscapeAll([c] + s) == Escape(c) + EscapeAll(s)
  {
    hide Escape;
    assert ([c] + s)[1..] == s;
  }

  lemma EscapeNothing()
    ensures EscapeAll("") == ""
  {
  }

  lemma EscapeExample()
    ensures EscapeAll("a\n\U{01}\\") == "a" + ("\\n" + ("\\001" + ("\\\\" + "")))
  {
    hide EscapeAll, Escape;
    EscapeSteps('\\', "");
    EscapeSteps('\U{01}', "\\");
    EscapeSteps('\n', "\U{01}\\");
    EscapeSteps('a', "\n\U{01}\\");
    EscapeIs('\\');
    EscapeIs('\U{01}');
    EscapeIs('\n');
    EscapeIs('a');
    EscapeNothing();
    assert ['a'] + "\n\U{01}\\" == "a\n\U{01}\\" && ['\n'] + "\U{01}\\" == "\n\U{01}\\";
    assert ['\U{01}'] + "\\" == "\U{01}\\" && ['\\'] + "" == "\\";
  }

  lemma OctalUpTo(d: string)
    requires forall c :: c in d ==> IsOctal(c)
    ensures |d| == 1 ==> OctalValue(d) == d[0] as int - '0' as int
    ensures |d| == 2 ==> OctalValue(d) == (d[0] as int - '0' as int) * 8 + (d[1] as int - '0' as int)
    ensures |d| == 3 ==>
      OctalValue(d) == ((d[0] as int - '0' as int) * 8 + (d[1] as int - '0' as int)) * 8 + (d[2] as int - '0' as int)
  {
    if |d| == 1 {
      assert d[..0] == [];
    } else if |d| == 2 {
      assert d[..1][..0] == [];
    } else if |d| == 3 {
      assert d[..2][..1] == d[..1] && d[..1][..0] == [];
    }
  }

  lemma UnitBefore(u: string, rest: string)
    requires u + rest != "" && u + rest != "\\" && Taken(u + rest) == |u| && Complete(rest)
    ensures Complete(u + rest) && Resolve(u + rest) == [Denoted(u + rest)] + Resolve(rest)
  {
    hide Denoted, Taken;
    assert (u + rest)[|u|..] == rest;
  }

  /** Octal escapes of any one and two digits, before something that is no digit. */
  lemma OctalUnits(a: char, b: char, rest: string)
    requires IsOctal(a) && IsOctal(b) && Complete(rest) && (rest == "" || !IsOctal(rest[0]))
    ensures var n := a as int - '0' as int;
      Complete("\\" + [a] + rest) && Resolve("\\" + [a] + rest) == [n as char] + Resolve(rest)
    ensures var n := 8 * (a as int - '0' as int) + (b as int - '0' as int);
      Complete("\\" + [a, b] + rest) && Resolve("\\" + [a, b] + rest) == [n as char] + Resolve(rest)
  {
    hide Complete, Resolve, OctalValue;
    var s, t := "\\" + [a] + rest, "\\" + [a, b] + rest;
    assert s[1..] == [a] + rest && t[1..] == [a, b] + rest && s[1..2] == [a] && t[1..3] == [a, b];
    OctalUpTo([a]);
    OctalUpTo([a, b]);
    UnitBefore("\\" + [a], rest);
    UnitBefore("\\" + [a, b], rest);
  }

  /** Any other character after a backslash stands for itself, unless it is one of the three letters. */
  lemma OtherUnits(c: char, rest: string)
    requires !IsOctal(c) && Complete(rest)
    ensures Complete("\\" + [c] + rest)
    ensures Resolve("\\" + [c] + rest)
         == [if c == 'n' then '\n' else if c == 't' then '\t' else if c == 'r' then '\r' else c] + Resolve(rest)
  {
    hide Complete, Resolve;
    UnitBefore("\\" + [c], rest);
  }

  /** The body of the loop up to the store: the character and the index of the last one read for it. */
  method ReadUnit(z: array<char>, start: nat, ghost rest: string) returns (c: char, i: nat)
    requires ByteText(rest) && rest != [] && rest != "\\"
    requires start + |rest| < z.Length && z[start + |rest|] == NUL
    requires forall k :: 0 <= k < |rest| ==> z[start + k] == rest[k]
    ensures c == Denoted(rest) && i == start + Taken(rest) - 1
  {
    i := start;
    c := z[i];
    if c == '\\' {
      i := i + 1;
      c := z[i];
      if c == 'n' {
        c := '\n';
      } else if c == 't' {
        c := '\t';
      } else if c == 'r' {
        c := '\r';
      } else if '0' <= c <= '7' {
        ghost var n := OctalRun(rest[1..]);
        ghost var d := rest[1..1 + n];
        var v := c as int - '0' as int;
        if '0' <= z[i + 1] <= '7' {
          i := i + 1;
          v := v * 8 + (z[i] as int - '0' as int);
          if '0' <= z[i + 1] <= '7' {
            i := i + 1;
            v := v * 8 + (z[i] as int - '0' as int);
          }
        }
        OctalUpTo(d);
        c := (v % 256) as char;
      }
    }
  }

  lemma ResolveStep(s: string)
    requires Complete(s) && s != []
    ensures s != "\\" && Complete(s[Taken(s)..]) && Resolve(s) == [Denoted(s)] + Resolve(s[Taken(s)..])
  {
  }

  lemma ResolveNothing()
    ensures Resolve([]) == []
  {
  }

  /** resolve_backslashes: z holds the string s and its terminator, and is rewritten from the left. */
  method ResolveBackslashes(z: array<char>, ghost s: string)
    requires ByteText(s) && Complete(s)
    requires |s| < z.Length && z[..|s|] == s && z[|s|] == NUL
    modifies z
    ensures var n := |Resolve(s)|; z[..n] == Resolve(s) && z[n] == NUL && z[n + 1..] == old(z[n + 1..])
  {
    hide Resolve, Complete, Denoted, Taken, OctalValue;
    var i, j := 0, 0;
    ghost var done: string := [];
    assert s[0..] == s;
    while z[i] != NUL
      invariant 0 <= j <= i <= |s| && |s| < z.Length
      invariant forall k :: j <= k < z.Length ==> z[k] == old(z[k])
      invariant z[..j] == done
      invariant Complete(s[i..]) && done + Resolve(s[i..]) == Resolve(s)
      decreases |s| - i
    {
      assert z[i] == s[i];
      ghost var rest := s[i..];
      ResolveStep(rest);
      var c, last := ReadUnit(z, i, rest);
      assert s[last + 1..] == rest[last + 1 - i..];
      assert done + ([c] + Resolve(s[last + 1..])) == done + [c] + Resolve(s[last + 1..]);
      i := last;
      z[j] := c;
      i := i + 1;
      j := j + 1;
      done := done + [c];
    }
    AtTerminator(s, i);
    ResolveNothing();
    assert s[i..] == [] && done + [] == done;
    z[j] := NUL;
    assert z[..j] == done;
    assert z[j + 1..] == old(z[..])[j + 1..];
  }

  /** Printing a string and resolving the printed body where it stands restores the string. */
  method WriteAndResolve(s: string) returns (z: array<char>)
    requires ByteText(s)
    ensures fresh(z) && |s| < z.Length && z[..|s|] == s && z[|s|] == NUL
  {
    var out := OutputCString(s);
    ResolveOfEscape(s);
    EscapePrintable(s);
    ghost var body := EscapeAll(s);
    var n := |out| - 2;
    z := new char[n + 1](i => if 0 <= i < |out| - 2 then out[i + 1] else NUL);
    assert z[..n] == body;
    ResolveBackslashes(z, body);
  }
}
