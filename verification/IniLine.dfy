/** iniparser_line, and exactly which entries survive being printed and parsed. */
module IniLine {
  import opened IniText

  // ---------------------------------------------------------------- The parser of one line

  /** The outcomes of iniparser_line with the buffers it fills. */
  datatype Line =
    | LineError
    | LineEmpty
    | LineComment
    | LineSection(section: string)
    | LineValue(key: string, value: string)

  const DOUBLE_QUOTE := '\"'
  const SINGLE_QUOTE := '\''

  const FORMAT_SECTION := [Literal('['), NoneOf({']'})]
  const FORMAT_DOUBLE :=
    [NoneOf({'='}), White, Literal('='), White, Literal(DOUBLE_QUOTE), NoneOf({DOUBLE_QUOTE}), Literal(DOUBLE_QUOTE)]
  const FORMAT_SINGLE :=
    [NoneOf({'='}), White, Literal('='), White, Literal(SINGLE_QUOTE), NoneOf({SINGLE_QUOTE}), Literal(SINGLE_QUOTE)]
  const FORMAT_PLAIN := [NoneOf({'='}), White, Literal('='), White, NoneOf({';', '#'})]
  const FORMAT_COMMENT := [NoneOf({'='}), White, Literal('='), White, OneOf({';', '#'})]
  const FORMAT_EMPTY := [NoneOf({'='}), White, OneOf({'='})]

  /** A value with its quotes already taken off by a format, except that a pair of quotes stands for nothing. */
  function Unquoted(value: string): string {
    if value == "\"\"" || value == "\'\'" then "" else value
  }

  /** The last two branches of iniparser_line. */
  function ParseKeyValue(line: string): Line {
    var d, s, p := Scan(FORMAT_DOUBLE, line), Scan(FORMAT_SINGLE, line), Scan(FORMAT_PLAIN, line);
    var c, e := Scan(FORMAT_COMMENT, line), Scan(FORMAT_EMPTY, line);
    if |d| == 2 then LineValue(Lower(Strip(d[0])), Unquoted(Strip(d[1])))
    else if |s| == 2 then LineValue(Lower(Strip(s[0])), Unquoted(Strip(s[1])))
    else if |p| == 2 then LineValue(Lower(Strip(p[0])), Unquoted(Strip(p[1])))
    else if |c| == 2 then LineValue(Lower(Strip(c[0])), "")
    else if |e| == 2 then LineValue(Lower(Strip(e[0])), "")
    else LineError
  }

  /** What iniparser_line makes of a line; section is what its buffer held before. */
  function ParseLine(input: string, section: string): Line {
    var line := Strip(input);
    if line == "" then LineEmpty
    else if line[0] == '#' then LineComment
    else if line[0] == '[' && line[|line| - 1] == ']' then
      var r := Scan(FORMAT_SECTION, line);
      LineSection(Lower(Strip(if r == [] then section else r[0])))
    else ParseKeyValue(line)
  }

  /** A line in brackets, which is taken for a section header. */
  predicate IsHeader(input: string) {
    var line := Strip(input);
    line != "" && line[0] == '[' && line[|line| - 1] == ']'
  }

  lemma ParseKeyValueKind(line: string)
    ensures ParseKeyValue(line).LineValue? || ParseKeyValue(line).LineError?
  {
    hide Scan, Strip, Lower;
  }

  lemma HeaderParsed(input: string, section: string)
    ensures ParseLine(input, section).LineSection? <==> IsHeader(input)
  {
    hide ParseKeyValue, Scan, Strip, Lower;
    ParseKeyValueKind(Strip(input));
  }

  // ---------------------------------------------------------------- What the formats see

  /** The value that is read after the equals sign, blanks skipped. */
  function ReadValue(v: string): string {
    if |v| >= 2 && v[0] == DOUBLE_QUOTE && v[1] != DOUBLE_QUOTE then v[1..1 + Span(NoneOf({DOUBLE_QUOTE}), v[1..])]
    else if |v| >= 2 && v[0] == SINGLE_QUOTE && v[1] != SINGLE_QUOTE then v[1..1 + Span(NoneOf({SINGLE_QUOTE}), v[1..])]
    else v[..Span(NoneOf({';', '#'}), v)]
  }

  lemma ScanLiteral(c: char, rest: seq<Directive>, s: string)
    ensures Scan([Literal(c)] + rest, [c] + s) == Scan(rest, s)
  {
    assert ([Literal(c)] + rest)[1..] == rest && ([c] + s)[1..] == s;
  }

  lemma ScanWhite(rest: seq<Directive>, s: string)
    ensures Scan([White] + rest, s) == Scan(rest, TrimLeft(s))
  {
    assert ([White] + rest)[1..] == rest;
  }

  lemma ScanSet(d: Directive, rest: seq<Directive>, s: string)
    requires d.OneOf? || d.NoneOf?
    ensures var n := Span(d, s); Scan([d] + rest, s) == if n == 0 then [] else [s[..n]] + Scan(rest, s[n..])
  {
    assert ([d] + rest)[1..] == rest;
  }

  /** The opening of every format of a value line reads the key up to the sign and skips blanks around it. */
  lemma ScanKey(rest: seq<Directive>, k: string, r: string)
    requires k != "" && '=' !in k
    ensures Scan([NoneOf({'='}), White, Literal('='), White] + rest, k + "=" + r) == [k] + Scan(rest, TrimLeft(r))
  {
    hide Scan;
    var d, t := NoneOf({'='}), "=" + r;
    var f := [White] + rest;
    assert k + "=" + r == k + t;
    SpanOf(d, k, t);
    assert (k + t)[..|k|] == k && (k + t)[|k|..] == t && t[1..] == r;
    ScanSet(d, [White] + ([Literal('=')] + f), k + t);
    ScanWhite([Literal('=')] + f, t);
    assert TrimLeft(t) == t;
    ScanLiteral('=', f, r);
    ScanWhite(rest, r);
    assert [NoneOf({'='}), White, Literal('='), White] + rest == [d] + ([White] + ([Literal('=')] + f));
  }

  lemma ScanQuoted(q: char, v: string)
    ensures Scan([Literal(q), NoneOf({q}), Literal(q)], v)
         == if |v| >= 2 && v[0] == q && v[1] != q then [v[1..1 + Span(NoneOf({q}), v[1..])]] else []
  {
    var f := [Literal(q), NoneOf({q}), Literal(q)];
    assert f[1..] == [NoneOf({q}), Literal(q)] && f[1..][1..] == [Literal(q)] && [Literal(q)][1..] == [];
    if v != "" && v[0] == q {
      var w := v[1..];
      var n := Span(NoneOf({q}), w);
      assert Scan([Literal(q)], w[n..]) == [];
      assert w[..n] == v[1..1 + n];
    }
  }

  lemma ScanRest(v: string)
    ensures var n := Span(NoneOf({';', '#'}), v); Scan([NoneOf({';', '#'})], v) == if n == 0 then [] else [v[..n]]
    ensures |Scan([OneOf({';', '#'})], v)| == if v != "" && v[0] in {';', '#'} then 1 else 0
  {
    assert [NoneOf({';', '#'})][1..] == [] && [OneOf({';', '#'})][1..] == [];
  }

  lemma ScanNothing(s: string)
    ensures Scan([], s) == []
  {
  }

  lemma ScanEmpty(k: string, r: string)
    requires k != "" && '=' !in k
    ensures |Scan(FORMAT_EMPTY, k + "=" + r)| == 2 && Scan(FORMAT_EMPTY, k + "=" + r)[0] == k
  {
    hide Scan;
    var d, e, t := NoneOf({'='}), OneOf({'='}), "=" + r;
    assert k + "=" + r == k + t;
    SpanOf(d, k, t);
    assert (k + t)[..|k|] == k && (k + t)[|k|..] == t;
    ScanSet(d, [White] + ([e] + []), k + t);
    ScanWhite([e] + [], t);
    assert TrimLeft(t) == t;
    ScanSet(e, [], t);
    ScanNothing(t[Span(e, t)..]);
    assert FORMAT_EMPTY == [d] + ([White] + ([e] + []));
  }

  /** A line with a key before its first equals sign is a value line, whatever follows the sign. */
  lemma ParseKeyValueOf(k: string, r: string)
    requires k != "" && '=' !in k
    ensures ParseKeyValue(k + "=" + r) == LineValue(Lower(Strip(k)), Unquoted(Strip(ReadValue(TrimLeft(r)))))
  {
    hide Lower, Strip, TrimLeft;
    var s, v := k + "=" + r, TrimLeft(r);
    var quoted := [Literal(DOUBLE_QUOTE), NoneOf({DOUBLE_QUOTE}), Literal(DOUBLE_QUOTE)];
    var single := [Literal(SINGLE_QUOTE), NoneOf({SINGLE_QUOTE}), Literal(SINGLE_QUOTE)];
    ScanKey(quoted, k, r);
    ScanKey(single, k, r);
    ScanKey([NoneOf({';', '#'})], k, r);
    ScanKey([OneOf({';', '#'})], k, r);
    ScanEmpty(k, r);
    ScanQuoted(DOUBLE_QUOTE, v);
    ScanQuoted(SINGLE_QUOTE, v);
    ScanRest(v);
    assert FORMAT_DOUBLE == [NoneOf({'='}), White, Literal('='), White] + quoted;
    assert FORMAT_SINGLE == [NoneOf({'='}), White, Literal('='), White] + single;
    assert FORMAT_PLAIN == [NoneOf({'='}), White, Literal('='), White] + [NoneOf({';', '#'})];
    assert FORMAT_COMMENT == [NoneOf({'='}), White, Literal('='), White] + [OneOf({';', '#'})];
    StripTrimmed("");
  }

  lemma ScanAtEnd(e: Directive, rest: seq<Directive>)
    requires e == Literal('=') || e == OneOf({'='})
    ensures Scan([e] + rest, "") == []
  {
  }

  lemma ScanNoKey(e: Directive, rest: seq<Directive>, line: string)
    requires e == Literal('=') || e == OneOf({'='})
    requires Span(NoneOf({'='}), line) in {0, |line|}
    ensures |Scan([NoneOf({'='}), White, e] + rest, line)| < 2
  {
    hide Scan;
    var d := NoneOf({'='});
    ScanSet(d, [White] + ([e] + rest), line);
    ScanWhite([e] + rest, "");
    ScanAtEnd(e, rest);
    assert [d, White, e] + rest == [d] + ([White] + ([e] + rest));
    assert line[|line|..] == "";
  }

  /** A line without a key before an equals sign is a syntax error. */
  lemma ParseKeyValueError(line: string)
    requires Span(NoneOf({'='}), line) in {0, |line|}
    ensures ParseKeyValue(line) == LineError
  {
    hide Scan;
    var d := NoneOf({'='});
    ScanNoKey(Literal('='), FORMAT_DOUBLE[3..], line);
    ScanNoKey(Literal('='), FORMAT_SINGLE[3..], line);
    ScanNoKey(Literal('='), FORMAT_PLAIN[3..], line);
    ScanNoKey(Literal('='), FORMAT_COMMENT[3..], line);
    ScanNoKey(OneOf({'='}), [], line);
    assert FORMAT_DOUBLE == [d, White, Literal('=')] + FORMAT_DOUBLE[3..];
    assert FORMAT_SINGLE == [d, White, Literal('=')] + FORMAT_SINGLE[3..];
    assert FORMAT_PLAIN == [d, White, Literal('=')] + FORMAT_PLAIN[3..];
    assert FORMAT_COMMENT == [d, White, Literal('=')] + FORMAT_COMMENT[3..];
    assert FORMAT_EMPTY == [d, White, OneOf({'='})] + [];
  }

  // ---------------------------------------------------------------- Names and values that survive

  /** Neither lower-casing nor stripping nor the buffer size changes s. */
  predicate Canonical(s: string) {
    Trimmed(s) && |s| <= ASCIILINESZ && forall c :: c in s ==> ToLower(c) == c
  }

  /** A name that can be read from a header. */
  predicate SectionShape(s: string) {
    Canonical(s) && ']' !in s
  }

  predicate GoodSection(s: string) {
    s != "" && SectionShape(s)
  }

  predicate GoodKey(k: string) {
    k != "" && Canonical(k) && '=' !in k && k[0] != '#'
  }

  /** v is a quotation that the reader would take apart, or the pair of quotes that stands for nothing. */
  predicate Quoted(v: string, q: char) {
    |v| >= 2 && v[0] == q && (v[1] != q || |v| == 2)
  }

  predicate GoodValue(v: string) {
    Trimmed(v) && ';' !in v && '#' !in v && !Quoted(v, DOUBLE_QUOTE) && !Quoted(v, SINGLE_QUOTE)
  }

  /** The entry is not mistaken for a section header either. */
  predicate GoodEntry(k: string, v: string) {
    GoodKey(k) && GoodValue(v) && !(k[0] == '[' && v != "" && v[|v| - 1] == ']')
  }

  lemma LowerFixed(s: string)
    ensures Lower(s) == s <==> |s| <= ASCIILINESZ && forall c :: c in s ==> ToLower(c) == c
  {
    if Lower(s) == s {
      forall c | c in s
        ensures ToLower(c) == c
      {
        var i :| 0 <= i < |s| && s[i] == c;
        assert Lower(s)[i] == ToLower(s[i]);
      }
    }
  }

  lemma LowerShorter(s: string)
    ensures |Lower(Strip(s))| <= |Strip(s)| <= |s|
  {
    StripKeeps(s);
  }

  lemma CanonicalFixed(s: string)
    ensures Lower(Strip(s)) == s <==> Canonical(s)
  {
    hide Lower, Strip, Trimmed;
    var a, b := StripParts(s);
    LowerFixed(s);
    LowerShorter(s);
    assert |Strip(s)| == |s| ==> Strip(s) == s;
    if Trimmed(s) {
      StripTrimmed(s);
    }
  }

  /** Reading a trimmed value gives it back exactly when it is a good one. */
  lemma ValueFixed(v: string)
    requires Trimmed(v)
    ensures Unquoted(Strip(ReadValue(v))) == v <==> GoodValue(v)
  {
    hide Strip;
    var d := NoneOf({';', '#'});
    StripTrimmed(v);
    StripKeeps(ReadValue(v));
    SpanParts(d, v);
    if ';' !in v && '#' !in v {
      SpanOf(d, v, "");
      assert v + "" == v;
    }
  }

  lemma UnquotedTrimmed(s: string)
    ensures Trimmed(Unquoted(Strip(s)))
  {
    var a, b := StripParts(s);
  }

  // ---------------------------------------------------------------- Section headers

  lemma SectionSpan(s: string)
    ensures var n := Span(NoneOf({']'}), s + "]");
      && (n == 0 <==> s == "" || s[0] == ']')
      && (if ']' in s then n < |s| else (s + "]")[..n] == s)
  {
    var d := NoneOf({']'});
    SpanParts(d, s + "]");
    if ']' in s {
      var i :| 0 <= i < |s| && s[i] == ']';
      assert (s + "]")[i] == ']';
    } else {
      SpanOf(d, s, "]");
    }
  }

  /** A header [s] reads back as the section s exactly when s is a good name, or was the section already. */
  lemma SectionSurvives(s: string, before: string)
    ensures ParseLine("[" + s + "]", before) == LineSection(s)
       <==> GoodSection(s) || ((s == "" || s[0] == ']') && Lower(Strip(before)) == s)
  {
    hide Lower, Strip, Span, ParseKeyValue;
    var line, d := "[" + s + "]", NoneOf({']'});
    StripTrimmed(line);
    assert line == ['['] + (s + "]") && line[|line| - 1] == ']';
    assert FORMAT_SECTION == [Literal('[')] + ([d] + []);
    ScanLiteral('[', [d] + [], s + "]");
    ScanSet(d, [], s + "]");
    var n := Span(d, s + "]");
    ScanNothing((s + "]")[n..]);
    SectionSpan(s);
    CanonicalFixed(s);
    LowerShorter((s + "]")[..n]);
  }

  lemma LowerCanonical(s: string)
    requires |s| <= ASCIILINESZ
    ensures Canonical(Lower(Strip(s)))
    ensures ']' !in s ==> ']' !in Lower(Strip(s))
  {
    hide TrimLeft, TrimRight;
    var a, b := StripParts(s);
    StripKeeps(s);
  }

  /** Whatever header it comes from, a section that was read can never be one of the bad ones. */
  lemma ReadSection(input: string, section: string)
    requires ParseLine(input, section).LineSection? && |input| <= ASCIILINESZ && SectionShape(section)
    ensures SectionShape(ParseLine(input, section).section)
  {
    hide ParseKeyValue, Lower, Strip, Scan, Canonical;
    var line, d := Strip(input), NoneOf({']'});
    HeaderParsed(input, section);
    assert line == ['['] + line[1..];
    assert FORMAT_SECTION == [Literal('[')] + ([d] + []);
    ScanLiteral('[', [d] + [], line[1..]);
    ScanSet(d, [], line[1..]);
    var n := Span(d, line[1..]);
    ScanNothing(line[1..][n..]);
    SpanParts(d, line[1..]);
    StripKeeps(input);
    CanonicalFixed(section);
    LowerCanonical(line[1..][..n]);
  }

  // ---------------------------------------------------------------- Entries

  /** %-30s. */
  function PadRight(k: string): (r: string)
    ensures |r| == if |k| < 30 then 30 else |k|
  {
    if |k| < 30 then k + seq(30 - |k|, _ => ' ') else k
  }

  /** An entry as iniparser_dump_ini prints it under its section, without the newline. */
  function EntryLine(k: string, v: string): (r: string)
    ensures |r| == |PadRight(k)| + 3 + |v|
  {
    PadRight(k) + " = " + v
  }

  /** A key, blanks, the sign and a value, once stripped: the rest after the sign leads to the stripped value. */
  lemma EntryStripped(k: string, blanks: string, v: string) returns (r: string)
    requires k != "" && !IsSpace(k[0]) && AllSpace(blanks)
    ensures Strip(k + blanks + " = " + v) == (k + blanks + " ") + "=" + r
    ensures TrimLeft(r) == Strip(v) && (r == "" <==> Strip(v) == "")
    ensures r != "" ==> r[|r| - 1] == Strip(v)[|Strip(v)| - 1]
  {
    hide Strip;
    var a, b := StripParts(v);
    var w, line, padded := Strip(v), k + blanks + " = " + v, k + blanks + " ";
    if w == "" {
      r := "";
      var core := padded + "=" + r;
      assert core[0] == k[0] && core[|core| - 1] == '=';
      assert AllSpace(" " + a + b);
      assert line == [] + core + (" " + a + b);
      StripOf([], core, " " + a + b);
    } else {
      r := " " + a + w;
      var core := padded + "=" + r;
      assert core[0] == k[0] && core[|core| - 1] == w[|w| - 1];
      assert line == [] + core + b;
      StripOf([], core, b);
      assert AllSpace(" " + a);
      TrimLeftOf(" " + a, w);
    }
  }

  lemma PaddedKeyStripped(k: string, blanks: string)
    requires k != "" && !IsSpace(k[0]) && AllSpace(blanks)
    ensures Strip(k + blanks + " ") == Strip(k)
  {
    var b := TrimRightParts(k);
    var w := Strip(k);
    assert k[0] in k;
    assert AllSpace(b + (blanks + " "));
    assert k + blanks + " " == [] + w + (b + (blanks + " "));
    StripOf([], w, b + (blanks + " "));
  }

  /** The blanks that %-30s puts behind a key. */
  function Padding(k: string): (blanks: string)
    ensures AllSpace(blanks) && PadRight(k) == k + blanks
  {
    var blanks := if |k| < 30 then seq(30 - |k|, _ => ' ') else "";
    assert k + "" == k;
    blanks
  }

  lemma LowerOfStripped(k: string)
    requires k != "" && !IsSpace(k[0]) && k[0] != '#' && '=' !in k
    ensures var l := Lower(Strip(k));
      l != "" && !IsSpace(l[0]) && l[0] != '#' && '=' !in l && forall c :: c in l ==> ToLower(c) == c
    ensures |k| <= ASCIILINESZ ==> GoodKey(Lower(Strip(k)))
  {
    var b := TrimRightParts(k);
    var w := Strip(k);
    assert k[0] in k;
    assert w[0] == k[0] && forall c :: c in w ==> c in k;
  }

  /** Whatever line it comes from, a key that was read can never be one of the bad ones. */
  lemma ReadKey(input: string, section: string)
    requires ParseLine(input, section).LineValue?
    ensures var k := ParseLine(input, section).key;
      k != "" && !IsSpace(k[0]) && k[0] != '#' && '=' !in k && forall c :: c in k ==> ToLower(c) == c
    ensures |input| <= ASCIILINESZ ==> GoodKey(ParseLine(input, section).key)
  {
    hide ParseKeyValue, Lower, TrimLeft, TrimRight, GoodKey;
    var line, d := Strip(input), NoneOf({'='});
    var a, b := StripParts(input);
    var n := Span(d, line);
    SpanParts(d, line);
    if n == 0 || n == |line| {
      ParseKeyValueError(line);
    } else {
      var k := line[..n];
      assert line == k + "=" + line[n + 1..];
      ParseKeyValueOf(k, line[n + 1..]);
      LowerOfStripped(k);
    }
  }

  /** A character that lower-casing neither makes nor changes. */
  predicate Caseless(c: char) {
    ToLower(c) == c && !('a' <= c <= 'z')
  }

  lemma LowerKept(k: string, c: char)
    requires Caseless(c)
    ensures c in Lower(Strip(k)) ==> c in k
  {
    StripKeeps(k);
    var s := Strip(k);
    if c in Lower(s) {
      var i :| 0 <= i < |Lower(s)| && Lower(s)[i] == c;
      assert s[i] in s;
    }
  }

  lemma ValueKept(v: string)
    ensures |Unquoted(Strip(ReadValue(v)))| <= |v| && forall c :: c in Unquoted(Strip(ReadValue(v))) ==> c in v
  {
    hide Strip;
    StripKeeps(ReadValue(v));
  }

  /** A character that is read, unless lower-casing makes it, comes from the line. */
  lemma ReadKept(input: string, section: string, c: char)
    requires ParseLine(input, section).LineValue? && Caseless(c)
    ensures c in ParseLine(input, section).key || c in ParseLine(input, section).value ==> c in input
  {
    hide ParseKeyValue, Lower, TrimLeft, TrimRight, ReadValue, Unquoted, Caseless;
    var line, d := Strip(input), NoneOf({'='});
    var a, b := StripParts(input);
    var n := Span(d, line);
    SpanParts(d, line);
    if n == 0 || n == |line| {
      ParseKeyValueError(line);
    } else {
      var k, r := line[..n], line[n + 1..];
      assert line == k + "=" + r;
      ParseKeyValueOf(k, r);
      LowerKept(k, c);
      var e := TrimLeftParts(r);
      ValueKept(TrimLeft(r));
    }
  }

  /** The same for a section, which may be the one before. */
  lemma SectionKept(input: string, section: string, c: char)
    requires ParseLine(input, section).LineSection? && Caseless(c)
    ensures c in ParseLine(input, section).section ==> c in input || c in section
  {
    hide ParseKeyValue, Lower, Strip, Scan, Caseless;
    var line, d := Strip(input), NoneOf({']'});
    HeaderParsed(input, section);
    assert line == ['['] + line[1..];
    assert FORMAT_SECTION == [Literal('[')] + ([d] + []);
    ScanLiteral('[', [d] + [], line[1..]);
    ScanSet(d, [], line[1..]);
    var n := Span(d, line[1..]);
    ScanNothing(line[1..][n..]);
    StripKeeps(input);
    LowerKept(section, c);
    LowerKept(line[1..][..n], c);
  }

  /** What is read for a value that is printed behind a sign. */
  function ValueRead(v: string): string {
    Unquoted(Strip(ReadValue(Strip(v))))
  }

  lemma NoSign(k: string, blanks: string)
    requires k != "" && '=' !in k && AllSpace(blanks)
    ensures var p := k + blanks + " "; p != "" && p[0] == k[0] && '=' !in p
  {
    assert !IsSpace('=');
  }

  /** A key that is not empty, with blanks behind it: the value and key that the line gives, unless it is a header. */
  lemma PaddedReads(k: string, blanks: string, v: string, section: string)
    requires k != "" && !IsSpace(k[0]) && k[0] != '#' && '=' !in k && AllSpace(blanks)
    ensures var line := k + blanks + " = " + v;
      !IsHeader(line) ==> ParseLine(line, section) == LineValue(Lower(Strip(k)), ValueRead(v))
  {
    hide ParseKeyValue, Lower, Strip, TrimLeft, ReadValue, Unquoted;
    var r := EntryStripped(k, blanks, v);
    var padded := k + blanks + " ";
    NoSign(k, blanks);
    ParseKeyValueOf(padded, r);
    PaddedKeyStripped(k, blanks);
  }

  /** A printed entry with a good key gives that key, unless it is taken for a header. */
  lemma EntryReads(k: string, v: string, section: string)
    requires GoodKey(k) && !IsHeader(EntryLine(k, v))
    ensures ParseLine(EntryLine(k, v), section) == LineValue(k, ValueRead(v))
  {
    hide ParseLine, IsHeader, ValueRead, Lower, Strip;
    CanonicalFixed(k);
    PaddedReads(k, Padding(k), v, section);
  }

  /** An entry that is printed reads back as itself exactly when it is a good one. */
  lemma EntrySurvives(k: string, v: string, section: string)
    ensures ParseLine(EntryLine(k, v), section) == LineValue(k, v) <==> GoodEntry(k, v)
  {
    hide ParseKeyValue, Lower, Strip, TrimLeft, ReadValue, Unquoted;
    if ParseLine(EntryLine(k, v), section) == LineValue(k, v) {
      ReadKey(EntryLine(k, v), section);
    }
    if k != "" && !IsSpace(k[0]) && k[0] != '#' && '=' !in k {
      var r := EntryStripped(k, Padding(k), v);
      PaddedReads(k, Padding(k), v, section);
      CanonicalFixed(k);
      UnquotedTrimmed(ReadValue(Strip(v)));
      if Trimmed(v) {
        StripTrimmed(v);
        ValueFixed(v);
      }
      var line := Strip(EntryLine(k, v));
      assert line[0] == k[0];
      assert line[|line| - 1] == if r == "" then '=' else r[|r| - 1];
    }
  }
}
