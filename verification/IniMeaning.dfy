/** What the lines of an INI file mean, told by their characters. */
module IniMeaning {
  import opened Wrappers
  import opened IniText
  import opened IniLine
  import opened IniLoad
  import opened IniDump
  import opened IniRoundTrip
  import opened IniJoin
  import opened Dictionary

  // ---------------------------------------------------------------- Which line is what

  lemma KeyValueKinds(t: string)
    requires t != ""
    ensures var l := ParseKeyValue(t); if '=' in t && t[0] != '=' then l.LineValue? else l.LineError?
  {
    hide Strip, Scan, ParseKeyValue, Lower, Unquoted, ReadValue;
    var d := NoneOf({'='});
    var n := Span(d, t);
    SpanParts(d, t);
    if n == 0 || n == |t| {
      ParseKeyValueError(t);
    } else {
      assert t == t[..n] + "=" + t[n + 1..];
      ParseKeyValueOf(t[..n], t[n + 1..]);
    }
  }

  /** The kind of a line is decided by its first and last characters and by its first equals sign. */
  lemma LineKinds(a: string, t: string, b: string, section: string)
    requires AllSpace(a) && AllSpace(b) && Trimmed(t)
    ensures var l := ParseLine(a + t + b, section);
      if t == "" then l.LineEmpty?
      else if t[0] == '#' then l.LineComment?
      else if t[0] == '[' && t[|t| - 1] == ']' then l.LineSection?
      else if '=' in t && t[0] != '=' then l.LineValue?
      else l.LineError?
  {
    hide Strip, Scan, ParseKeyValue, Lower;
    StripOf(a, t, b);
    if t != "" {
      KeyValueKinds(t);
    }
  }

  /** A line is a syntax error exactly when it is no comment and no header, and has no key before an equals sign. */
  lemma ErrorExactly(a: string, t: string, b: string)
    requires AllSpace(a) && AllSpace(b) && Trimmed(t)
    ensures IsError(a + t + b) <==>
      t != "" && t[0] != '#' && !(t[0] == '[' && t[|t| - 1] == ']') && ('=' !in t || t[0] == '=')
    ensures IsStored(a + t + b) <==>
      t != "" && t[0] != '#' && ((t[0] == '[' && t[|t| - 1] == ']') || ('=' in t && t[0] != '='))
  {
    hide ParseLine;
    LineKinds(a, t, b, "");
  }

  // ---------------------------------------------------------------- Comments

  /** A comment changes nothing, whatever was read before. */
  lemma CommentIgnored(r: Reading, blanks: string, rest: string)
    requires AllSpace(blanks)
    ensures Step(r, blanks + "#" + rest) == r
  {
    hide ParseLine, TrimRight;
    var c := "#" + rest;
    var b := TrimRightParts(c);
    var t := TrimRight(c);
    assert c[0] == '#' && !IsSpace('#') && c[0] in c;
    assert t == "" ==> t + b == b;
    assert t[0] == c[0];
    assert blanks + "#" + rest == blanks + c && blanks + t + b == blanks + (t + b);
    LineKinds(blanks, t, b, r.section);
  }

  lemma {:induction false} LogicalBehind(ls: seq<string>, rest: string)
    requires AllPrintable(ls)
    ensures Logical(Unlines(ls) + rest, "") == Prepend(TrimLines(ls), Logical(rest, ""))
    decreases |ls|
  {
    hide Logical, Printable, TrimRight;
    var tail := Logical(rest, "");
    if ls == [] {
      assert Unlines(ls) + rest == rest && [] + tail.lines == tail.lines;
    } else {
      var l, more := ls[0], ls[1..];
      assert ls == [l] + more && Printable(l);
      UnlinesPrepend(l, more);
      LogicalBehind(more, rest);
      PrintableSplits(l, Unlines(more) + rest);
      assert Unlines(ls) + rest == l + "\n" + (Unlines(more) + rest);
      assert [TrimRight(l)] + (TrimLines(more) + tail.lines) == TrimLines(ls) + tail.lines;
    }
  }

  /** A file with a comment line anywhere among lines that fit and are not continued loads as the file without it. */
  lemma CommentLine(ls: seq<string>, blanks: string, rest: string, text: string)
    requires AllPrintable(ls) && AllSpace(blanks) && Printable(blanks + "#" + rest)
    ensures LoadText(Unlines(ls) + (blanks + "#" + rest + "\n" + text)) == LoadText(Unlines(ls) + text)
  {
    hide Logical, Printable, TrimRight, Step, Fold, Unlines;
    var l := blanks + "#" + rest;
    var tail := Logical(text, "");
    LogicalBehind(ls, l + "\n" + text);
    LogicalBehind(ls, text);
    PrintableSplits(l, text);
    var before := Fold(START, TrimLines(ls));
    FoldAppend(START, TrimLines(ls), [TrimRight(l)] + tail.lines);
    FoldAppend(START, TrimLines(ls), tail.lines);
    FoldFirst(before, TrimRight(l), tail.lines);
    StepTrimmed(before, l);
    CommentIgnored(before, blanks, rest);
  }

  // ---------------------------------------------------------------- Lines that are continued or too long

  lemma TrimMarked(a: string)
    ensures TrimRight(a + "\\") == a + "\\"
  {
    assert !IsSpace('\\');
  }

  /** A backslash at the end of a line joins the next one to it. */
  lemma ContinuedLine(a: string, b: string, text: string)
    requires '\n' !in a && '\n' !in b && |a| + |b| < 1022
    ensures LoadText(a + "\\\n" + b + "\n" + text) == LoadText(a + b + "\n" + text)
  {
    hide Logical, TrimRight, Fold;
    var more := b + "\n" + text;
    assert a + "\\\n" + b + "\n" + text == (a + "\\") + "\n" + more;
    TrimMarked(a);
    assert "" + (a + "\\") == a + "\\" && (a + "\\")[..|a|] == a && "" + (a + b) == a + b;
    ShortLine(a + "\\", more, "");
    ShortLine(b, text, a);
    ShortLine(a + b, text, "");
  }

  /** A line that is continued at the end of the file is lost. */
  lemma LostLine(a: string)
    requires '\n' !in a && |a| < 1022
    ensures LoadText(a + "\\\n") == Loaded(map[])
  {
    hide Logical, TrimRight;
    TrimMarked(a);
    ShortLine(a + "\\", "", "");
    assert "" + (a + "\\") == a + "\\" && (a + "\\")[..|a|] == a;
    assert (a + "\\") + "\n" + "" == a + "\\\n";
    AllSeen([], a, true);
  }

  /** Nothing is loaded from a file whose first line has 1023 characters or more. */
  lemma TooLong(l: string, text: string)
    requires '\n' !in l && |l| >= 1023
    ensures LoadText(l + "\n" + text) == Failed
  {
    hide Logical;
    LongLine(l, text, "");
  }

  // ---------------------------------------------------------------- Values

  lemma SpanStops(c: char, v: string, rest: string)
    requires c !in v
    ensures Span(NoneOf({c}), v + [c] + rest) == |v|
  {
    assert v + [c] + rest == v + ([c] + rest);
    SpanOf(NoneOf({c}), v, [c] + rest);
  }

  predicate KeyPart(k: string) {
    k != "" && '=' !in k && !IsSpace(k[0]) && k[0] != '#' && k[0] != '['
  }

  lemma KeyLine(k: string, r: string, section: string)
    requires KeyPart(k)
    ensures ParseLine(k + "=" + r, section)
         == LineValue(Lower(Strip(k)), Unquoted(Strip(ReadValue(TrimLeft(TrimRight(r))))))
  {
    hide Lower, Unquoted, ReadValue, ParseKeyValue, TrimLeft, TrimRight;
    var l, t := k + "=" + r, TrimRight(r);
    var b := TrimRightParts(r);
    assert l == "" + (k + "=" + t) + b;
    assert t == "" ==> (k + "=" + t)[|k + "=" + t| - 1] == '=' && !IsSpace('=');
    StripOf("", k + "=" + t, b);
    ParseKeyValueOf(k, t);
  }

  lemma TrimBoth(a: string, t: string, b: string)
    requires AllSpace(a) && AllSpace(b) && Trimmed(t)
    ensures TrimLeft(TrimRight(a + t + b)) == t
  {
    hide TrimLeft, TrimRight;
    if t == "" {
      assert a + t + b == "" + (a + b) && AllSpace(a + b);
      TrimRightOf("", a + b);
      TrimLeftOf("", "");
      assert "" + "" == "";
    } else {
      TrimRightOf(a + t, b);
      TrimLeftOf(a, t);
    }
  }

  /** A line with a value that its format reads to the end or up to a comment. */
  lemma ValueLine(k: string, blanks: string, t: string, b: string, section: string)
    requires KeyPart(k) && AllSpace(blanks) && AllSpace(b) && Trimmed(t)
    ensures ParseLine(k + "=" + (blanks + t + b), section) == LineValue(Lower(Strip(k)), Unquoted(Strip(ReadValue(t))))
  {
    hide Lower, Unquoted, ReadValue, ParseLine, TrimLeft, TrimRight, Strip, KeyPart;
    KeyLine(k, blanks + t + b, section);
    TrimBoth(blanks, t, b);
  }

  lemma QuotedRead(q: char, v: string, rest: string)
    requires q in {'\"', '\''} && v != "" && q !in v
    ensures ReadValue([q] + v + [q] + rest) == v
  {
    var t := [q] + v + [q] + rest;
    assert t[1..] == v + [q] + rest;
    SpanStops(q, v, rest);
    assert v[0] in v && t[1..1 + |v|] == v;
  }

  /** A value between double or single quotes is taken as it stands, but for blanks at its ends. */
  lemma QuotedValue(k: string, blanks: string, q: char, v: string, rest: string, section: string)
    requires KeyPart(k) && AllSpace(blanks) && q in {'\"', '\''}
    requires v != "" && q !in v && v != "\"\"" && v != "\'\'" && Trimmed(v)
    ensures ParseLine(k + "=" + (blanks + [q] + v + [q] + rest), section) == LineValue(Lower(Strip(k)), v)
  {
    hide Lower, TrimLeft, TrimRight, ParseLine, ReadValue, KeyPart, Strip;
    var b := TrimRightParts(rest);
    var tr := TrimRight(rest);
    var t := [q] + v + [q] + tr;
    assert blanks + [q] + v + [q] + rest == blanks + t + b;
    assert t[0] == q && t[|t| - 1] == if tr == "" then q else tr[|tr| - 1];
    ValueLine(k, blanks, t, b, section);
    QuotedRead(q, v, tr);
    StripTrimmed(v);
  }

  /** A pair of quotes with nothing in between or behind is the empty value. */
  lemma EmptyQuotes(k: string, blanks: string, q: char, section: string)
    requires KeyPart(k) && AllSpace(blanks) && q in {'\"', '\''}
    ensures ParseLine(k + "=" + (blanks + [q, q]), section) == LineValue(Lower(Strip(k)), "")
  {
    hide Lower, TrimLeft, TrimRight, ParseLine, KeyPart, Strip;
    ValueLine(k, blanks, [q, q], "", section);
    assert blanks + [q, q] + "" == blanks + [q, q];
    SpanOf(NoneOf({';', '#'}), [q, q], "");
    assert [q, q] + "" == [q, q] && [q, q][..2] == [q, q];
    StripTrimmed([q, q]);
    assert [q, q] == if q == '\"' then "\"\"" else "\'\'";
  }

  lemma PlainRead(v: string, more: string, rest: string)
    requires Trimmed(v) && ';' !in v && '#' !in v && (v == "" || v[0] !in {'\"', '\''}) && AllSpace(more)
    requires rest == "" || rest[0] in {';', '#'}
    ensures v != "" || more == "" ==> Unquoted(Strip(ReadValue(v + more + rest))) == v
  {
    hide TrimLeft, TrimRight;
    if v != "" || more == "" {
      var t := v + more + rest;
      assert t != "" ==> t[0] == if v == "" then rest[0] else v[0];
      SpanOf(NoneOf({';', '#'}), v + more, rest);
      assert t[..|v + more|] == v + more;
      assert "" + v + more == v + more;
      StripOf("", v, more);
    }
  }

  /** Any other value ends where a comment begins, or with the line. */
  lemma PlainValue(k: string, blanks: string, v: string, more: string, rest: string, section: string)
    requires KeyPart(k) && AllSpace(blanks) && AllSpace(more)
    requires Trimmed(v) && ';' !in v && '#' !in v && (rest == "" || rest[0] in {';', '#'})
    requires v == "" || v[0] !in {'\"', '\''}
    ensures ParseLine(k + "=" + (blanks + v + more + rest), section) == LineValue(Lower(Strip(k)), v)
  {
    hide Lower, TrimLeft, TrimRight, ParseLine, ReadValue, KeyPart, Strip, Unquoted;
    var b := TrimRightParts(rest);
    var tr := TrimRight(rest);
    assert rest != "" ==> rest[0] in rest && !IsSpace(rest[0]) && tr != "" && tr[0] == rest[0] by {
      assert tr == "" ==> tr + b == b;
    }
    if rest == "" {
      assert blanks + v + more + rest == blanks + v + more && v + "" + "" == v;
      ValueLine(k, blanks, v, more, section);
      PlainRead(v, "", "");
    } else if v == "" {
      assert blanks + v + more + rest == (blanks + more) + tr + b && "" + "" + tr == tr;
      ValueLine(k, blanks + more, tr, b, section);
      PlainRead("", "", tr);
    } else {
      assert blanks + v + more + rest == blanks + (v + more + tr) + b;
      assert (v + more + tr)[0] == v[0] && (v + more + tr)[|v + more + tr| - 1] == tr[|tr| - 1];
      ValueLine(k, blanks, v + more + tr, b, section);
      PlainRead(v, more, tr);
    }
  }

  /** A header names its section up to the first closing bracket, in lower case and without blanks at its ends. */
  lemma HeaderLine(s: string, rest: string, section: string)
    requires s != "" && ']' !in s && (rest == "" || rest[|rest| - 1] == ']')
    ensures ParseLine("[" + s + "]" + rest, section) == LineSection(Lower(Strip(s)))
  {
    hide Lower, Strip, Scan, ParseKeyValue;
    var line, d, t := "[" + s + "]" + rest, NoneOf({']'}), s + "]" + rest;
    assert line == ['['] + t && line[|line| - 1] == ']';
    assert t == s + ([']'] + rest) && t[..|s|] == s;
    StripTrimmed(line);
    assert FORMAT_SECTION == [Literal('[')] + ([d] + []);
    ScanLiteral('[', [d] + [], t);
    ScanSet(d, [], t);
    SpanStops(']', s, rest);
    ScanNothing(t[|s|..]);
  }

  // ---------------------------------------------------------------- Buffers that overflow

  lemma EntryNoHeader(k: string, v: string)
    requires GoodKey(k) && k[0] != '['
    ensures !IsHeader(EntryLine(k, v))
  {
    hide TrimRight;
    var l := EntryLine(k, v);
    assert l[0] == k[0] && TrimLeft(l) == l;
    TrimPrefix(l);
  }

  /** A section with one entry: loaded while section, colon and key have 1024 characters at most, an overrun beyond. */
  lemma OneEntry(s: string, k: string, v: string)
    requires GoodSection(s) && GoodKey(k) && k[0] != '['
    requires Printable("[" + s + "]") && Printable(EntryLine(k, v))
    ensures LoadText("[" + s + "]" + "\n" + (EntryLine(k, v) + "\n"))
         == if |s| + 1 + |k| > 1024 then Overrun else Loaded(map[s := None, s + ":" + k := Some(ValueRead(v))])
  {
    hide ParseLine, Printable, GoodSection, GoodKey, IsHeader, EntryLine, ValueRead, Unlines, LoadText;
    var h, l := "[" + s + "]", EntryLine(k, v);
    UnlinesNone();
    UnlinesPrepend(h, [l]);
    UnlinesPrepend(l, []);
    assert [h] + [l] == [h, l] && [l] + [] == [l] && l + "\n" + "" == l + "\n";
    LoadOfUnlines([h, l]);
    FoldTwo(START, h, l);
    StepHeader(START, s);
    EntryNoHeader(k, v);
    EntryReads(k, v, s);
  }

  /** The writer's buffer takes section names of 1023 characters. */
  lemma NamesFitWhen(ks: Slots)
    ensures NamesFit(ks) <==> forall s :: Some(s) in ks && ':' !in s ==> |s| <= 1023
  {
    hide Names;
    NamesOf(ks);
  }

  /** Without sections an entry is printed as it stands, and a NULL value as the C library shows it. */
  lemma PlainEntry(k: string, v: Option<string>)
    requires ':' in k
    ensures DumpText([Some(k)], [v]) == k + " = " + (if v.Some? then v.value else "(null)") + "\n"
  {
    hide Unlines;
    var ks, vs: Slots := [Some(k)], [v];
    assert ks[..0] == [] && vs[..0] == [] && Names([]) == [] && PlainLines([], []) == [];
    var l := k + " = " + if v.Some? then v.value else "(null)";
    assert Names(ks) == [] && PlainLines(ks, vs) == [l];
    UnlinesNone();
    UnlinesOne([], l);
    assert [] + [l] == [l] && "" + l + "\n" == l + "\n";
  }
}
