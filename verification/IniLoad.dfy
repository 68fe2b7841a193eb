/** iniparser_load: physical lines joined into logical ones, and a dictionary filled line by line. */
module IniLoad {
  import opened Wrappers
  import opened IniText
  import opened IniLine
  import opened Dictionary

  // ---------------------------------------------------------------- From text to logical lines

  /** What fgets reads into room for that many characters: up to and including a newline. */
  function ChunkLength(text: string, room: nat): (n: nat)
    ensures n <= |text| && n <= room
    ensures text != "" && room > 0 ==> n > 0
    ensures forall i :: 0 <= i < n - 1 ==> text[i] != '\n'
    ensures n < |text| && n < room ==> n > 0 && text[n - 1] == '\n'
  {
    if text == "" || room == 0 then 0 else if text[0] == '\n' then 1 else 1 + ChunkLength(text[1..], room - 1)
  }

  /** Whether a line, its blanks trimmed, goes on in the next one. */
  predicate Continues(t: string) {
    t != "" && t[|t| - 1] == '\\'
  }

  lemma TrimRightShorter(line: string)
    requires line != "" && line[|line| - 1] == '\n'
    ensures |TrimRight(line)| < |line|
  {
    var b := TrimRightParts(line[..|line| - 1]);
  }

  /** Logical lines, up to one that does not end in time. */
  datatype Lines = Lines(lines: seq<string>, ended: bool)

  function Prepend(a: seq<string>, ls: Lines): Lines {
    Lines(a + ls.lines, ls.ended)
  }

  /** The logical lines of a text; pending is what was continued so far. */
  function Logical(text: string, pending: string): Lines
    requires |pending| < ASCIILINESZ - 2
    decreases |text|
  {
    if text == "" then
      Lines([], true)
    else
      var n := ChunkLength(text, ASCIILINESZ - 1 - |pending|);
      var line := pending + text[..n];
      if line[|line| - 1] != '\n' then
        Lines([], false)
      else
        var t := TrimRight(line);
        TrimRightShorter(line);
        if Continues(t) then Logical(text[n..], t[..|t| - 1]) else Prepend([t], Logical(text[n..], ""))
  }

  lemma PrependLines(a: seq<string>, ls: Lines)
    ensures Prepend(a, ls).lines == a + ls.lines
  {
  }

  lemma PrependTwice(a: seq<string>, b: seq<string>, ls: Lines)
    ensures Prepend(a, Prepend(b, ls)) == Prepend(a + b, ls)
  {
    assert a + (b + ls.lines) == (a + b) + ls.lines;
  }

  // ---------------------------------------------------------------- From logical lines to entries

  /** The state that iniparser_load carries from line to line; overrun when it has written behind its buffer tmp. */
  datatype Reading = Reading(section: string, entries: Entries, errs: nat, overrun: bool)

  const START := Reading("", map[], 0, false)

  /** Whether section, colon and key fit into a buffer of ASCIILINESZ + 1 characters with their terminator. */
  predicate KeyFits(section: string, key: string) {
    |section| + 1 + |key| <= ASCIILINESZ
  }

  /** One logical line. A line that is stored overwrites the error count with the result of the store. */
  function Step(r: Reading, line: string): Reading {
    if r.overrun then r
    else
      match ParseLine(line, r.section)
      case LineError => r.(errs := r.errs + 1)
      case LineEmpty => r
      case LineComment => r
      case LineSection(s) => Reading(s, r.entries[s := None], 0, false)
      case LineValue(k, v) =>
        if KeyFits(r.section, k) then Reading(r.section, r.entries[r.section + ":" + k := Some(v)], 0, false)
        else r.(overrun := true)
  }

  function Fold(r: Reading, ls: seq<string>): Reading {
    if ls == [] then r else Step(Fold(r, ls[..|ls| - 1]), ls[|ls| - 1])
  }

  /** What loading comes to: entries, NULL, or memory overwritten behind tmp, after which nothing is known. */
  datatype Loading = Loaded(entries: Entries) | Failed | Overrun

  function LoadText(text: string): Loading {
    var ls := Logical(text, "");
    var r := Fold(START, ls.lines);
    if r.overrun then Overrun else if ls.ended && r.errs == 0 then Loaded(r.entries) else Failed
  }

  lemma {:induction false} FoldAppend(r: Reading, a: seq<string>, b: seq<string>)
    ensures Fold(r, a + b) == Fold(Fold(r, a), b)
    decreases |b|
  {
    hide Step;
    if b == [] {
      assert a + b == a;
    } else {
      assert (a + b)[..|a + b| - 1] == a + b[..|b| - 1];
      FoldAppend(r, a, b[..|b| - 1]);
    }
  }

  // ---------------------------------------------------------------- When loading fails

  predicate IsError(line: string) {
    ParseLine(line, "").LineError?
  }

  /** The line is stored, which clears the count of errors before it. */
  predicate IsStored(line: string) {
    ParseLine(line, "").LineSection? || ParseLine(line, "").LineValue?
  }

  lemma StatusOfLine(line: string, section: string)
    ensures IsError(line) <==> ParseLine(line, section).LineError?
    ensures IsStored(line) <==> ParseLine(line, section).LineSection? || ParseLine(line, section).LineValue?
  {
  }

  /** Some line is an error, and no line after it is stored. */
  ghost predicate ErrorAtEnd(ls: seq<string>) {
    exists i :: 0 <= i < |ls| && IsError(ls[i]) && forall j :: i < j < |ls| ==> !IsStored(ls[j])
  }

  lemma ErrorAtEndStep(ls: seq<string>)
    requires ls != []
    ensures var n := |ls| - 1;
      ErrorAtEnd(ls) <==> IsError(ls[n]) || (!IsStored(ls[n]) && ErrorAtEnd(ls[..n]))
  {
    hide IsError, IsStored;
    var n := |ls| - 1;
    var before := ls[..n];
    if ErrorAtEnd(ls) && !IsError(ls[n]) {
      var i :| 0 <= i < |ls| && IsError(ls[i]) && forall j :: i < j < |ls| ==> !IsStored(ls[j]);
      assert before[i] == ls[i] && forall j :: i < j < n ==> before[j] == ls[j];
    }
    if !IsStored(ls[n]) && ErrorAtEnd(before) {
      var i :| 0 <= i < n && IsError(before[i]) && forall j :: i < j < n ==> !IsStored(before[j]);
      assert ls[i] == before[i] && forall j :: i < j < n ==> ls[j] == before[j];
    }
  }

  lemma NoErrorYet()
    ensures !ErrorAtEnd([])
  {
  }

  lemma ErrorNotStored(line: string)
    ensures !(IsError(line) && IsStored(line))
  {
  }

  /** Without an overrun, an error is remembered exactly when no line after it is stored. */
  lemma {:induction false} ErrorsRemembered(r: Reading, ls: seq<string>)
    requires r.errs == 0 && !Fold(r, ls).overrun
    ensures Fold(r, ls).errs > 0 <==> ErrorAtEnd(ls)
    decreases |ls|
  {
    hide IsError, IsStored, ErrorAtEnd;
    if ls == [] {
      NoErrorYet();
    } else {
      var n := |ls| - 1;
      ErrorsRemembered(r, ls[..n]);
      ErrorAtEndStep(ls);
      StatusOfLine(ls[n], Fold(r, ls[..n]).section);
      ErrorNotStored(ls[n]);
    }
  }

  /** Loading returns NULL exactly when a line is too long or a syntax error has no stored line after it. */
  lemma LoadFailsWhen(text: string)
    requires !LoadText(text).Overrun?
    ensures LoadText(text).Failed? <==> !Logical(text, "").ended || ErrorAtEnd(Logical(text, "").lines)
  {
    hide ErrorAtEnd;
    ErrorsRemembered(START, Logical(text, "").lines);
  }

  /** The line is a value whose key does not fit behind its section. */
  predicate IsOverlong(line: string, section: string) {
    ParseLine(line, section).LineValue? && !KeyFits(section, ParseLine(line, section).key)
  }

  /** Some line is overlong for the section that it is read in. */
  ghost predicate SomeOverlong(ls: seq<string>) {
    exists i :: 0 <= i < |ls| && IsOverlong(ls[i], Fold(START, ls[..i]).section)
  }

  lemma SomeOverlongStep(ls: seq<string>)
    requires ls != []
    ensures var n := |ls| - 1;
      SomeOverlong(ls) <==> SomeOverlong(ls[..n]) || IsOverlong(ls[n], Fold(START, ls[..n]).section)
  {
    hide IsOverlong, Fold;
    var n := |ls| - 1;
    assert forall i :: 0 <= i < n ==> ls[..n][i] == ls[i] && ls[..n][..i] == ls[..i];
    if SomeOverlong(ls[..n]) {
      var i :| 0 <= i < n && IsOverlong(ls[..n][i], Fold(START, ls[..n][..i]).section);
      assert IsOverlong(ls[i], Fold(START, ls[..i]).section);
    }
  }

  lemma StepOverruns(r: Reading, line: string)
    ensures Step(r, line).overrun <==> r.overrun || IsOverlong(line, r.section)
  {
    hide ParseLine, KeyFits;
  }

  lemma NoneOverlong()
    ensures !SomeOverlong([])
  {
  }

  /** Memory is overwritten exactly when some line is overlong. */
  lemma {:induction false} OverrunWhen(ls: seq<string>)
    ensures Fold(START, ls).overrun <==> SomeOverlong(ls)
    decreases |ls|
  {
    hide Step, IsOverlong, SomeOverlong;
    if ls == [] {
      NoneOverlong();
    } else {
      var n := |ls| - 1;
      OverrunWhen(ls[..n]);
      SomeOverlongStep(ls);
      StepOverruns(Fold(START, ls[..n]), ls[n]);
    }
  }

  // ---------------------------------------------------------------- Single physical lines

  lemma {:induction false} ChunkOfLine(line: string, rest: string, room: nat)
    requires '\n' !in line && |line| < room
    ensures ChunkLength(line + "\n" + rest, room) == |line| + 1
    decreases |line|
  {
    if line == "" {
      assert (line + "\n" + rest)[0] == '\n';
    } else {
      assert (line + "\n" + rest)[1..] == line[1..] + "\n" + rest;
      ChunkOfLine(line[1..], rest, room - 1);
    }
  }

  lemma TrimNewline(line: string)
    ensures TrimRight(line + "\n") == TrimRight(line)
  {
    assert (line + "\n")[..|line + "\n"| - 1] == line;
  }

  /** A short line that is not continued is a logical line of its own. */
  lemma SplitLine(line: string, rest: string)
    requires '\n' !in line && |line| < ASCIILINESZ - 1 && !Continues(TrimRight(line))
    ensures Logical(line + "\n" + rest, "") == Prepend([TrimRight(line)], Logical(rest, ""))
  {
    hide TrimRight;
    var text := line + "\n" + rest;
    ChunkOfLine(line, rest, ASCIILINESZ - 1);
    assert text[..|line| + 1] == line + "\n" && text[|line| + 1..] == rest;
    assert "" + (line + "\n") == line + "\n";
    TrimNewline(line);
  }

  lemma BadLine()
    ensures ParseLine("oops", "") == LineError
  {
    StripTrimmed("oops");
    SpanOf(NoneOf({'='}), "oops", "");
    assert "oops" + "" == "oops";
    ParseKeyValueError("oops");
  }

  lemma NoLines()
    ensures Logical("", "") == Lines([], true)
  {
  }

  lemma TwoSteps(a: string, b: string)
    ensures Fold(START, [a, b]) == Step(Step(START, a), b)
  {
    hide Step;
    assert [a][..0] == [] && Fold(START, []) == START;
    assert Fold(START, [a]) == Step(START, a);
    assert [a, b][..1] == [a];
  }

  /** A file with a syntax error that loads all the same: the section header after it hides the error. */
  lemma ErrorForgotten()
    ensures IsError("oops") && LoadText("oops\n[a]\n") == Loaded(map["a" := None])
  {
    hide ParseKeyValue, Logical, ParseLine;
    BadLine();
    SectionSurvives("a", "");
    assert GoodSection("a") && "[" + "a" + "]" == "[a]";
    assert TrimRight("oops") == "oops" && TrimRight("[a]") == "[a]";
    SplitLine("oops", "[a]\n");
    SplitLine("[a]", "");
    NoLines();
    assert "oops" + "\n" + "[a]\n" == "oops\n[a]\n" && "[a]" + "\n" + "" == "[a]\n";
    assert ["oops"] + (["[a]"] + []) == ["oops", "[a]"];
    TwoSteps("oops", "[a]");
  }

  // ---------------------------------------------------------------- The loops

  /** iniparser_line, with the strings it writes to the caller's buffers. */
  method IniparserLine(input: string, section: string) returns (line: Line)
    ensures line == ParseLine(input, section)
  {
    hide Lower, Strip;
    var text := Strstrip(input);
    if text == "" {
      return LineEmpty;
    } else if text[0] == '#' {
      return LineComment;
    } else if text[0] == '[' && text[|text| - 1] == ']' {
      var r := Scan(FORMAT_SECTION, text);
      var s := Strstrip(if r == [] then section else r[0]);
      s := Strlwc(s);
      return LineSection(s);
    }
    var r := Scan(FORMAT_DOUBLE, text);
    if |r| != 2 {
      r := Scan(FORMAT_SINGLE, text);
    }
    if |r| != 2 {
      r := Scan(FORMAT_PLAIN, text);
    }
    if |r| == 2 {
      var key := Strstrip(r[0]);
      key := Strlwc(key);
      var value := Strstrip(r[1]);
      if value == "\"\"" || value == "\'\'" {
        value := "";
      }
      return LineValue(key, value);
    }
    r := Scan(FORMAT_COMMENT, text);
    if |r| != 2 {
      r := Scan(FORMAT_EMPTY, text);
    }
    if |r| == 2 {
      var key := Strstrip(r[0]);
      key := Strlwc(key);
      return LineValue(key, "");
    }
    return LineError;
  }

  /** fgets: the position after the characters read. */
  method Fgets(text: string, pos: nat, room: nat) returns (end: nat)
    requires pos <= |text|
    ensures end == pos + ChunkLength(text[pos..], room)
  {
    end := pos;
    while end < |text| && end - pos < room
      invariant pos <= end <= |text| && end - pos <= room
      invariant ChunkLength(text[pos..], room) == end - pos + ChunkLength(text[end..], room - (end - pos))
    {
      end := end + 1;
      if text[end - 1] == '\n' {
        return;
      }
    }
  }

  /** The switch of iniparser_load: one logical line stored, counted or ignored, or memory overwritten. */
  method StoreLine(dict: Dictionary, line: string, section: string, errs: nat)
    returns (section': string, errs': int, overrun: bool)
    requires dict.Valid()
    modifies dict, dict.key, dict.val, dict.hash
    ensures dict.Valid() && errs' >= 0
    ensures (dict.key == old(dict.key) || fresh(dict.key)) && (dict.val == old(dict.val) || fresh(dict.val))
    ensures dict.hash == old(dict.hash) || fresh(dict.hash)
    ensures Reading(section', dict.Contents, errs', overrun)
         == Step(Reading(section, old(dict.Contents), errs, false), line)
  {
    hide ParseLine;
    section', errs', overrun := section, errs, false;
    var parsed := IniparserLine(line, section);
    match parsed
    case LineEmpty =>
    case LineComment =>
    case LineSection(s) =>
      section' := s;
      errs' := dict.Set(Some(s), None);
    case LineValue(key, value) =>
      if KeyFits(section, key) {
        errs' := dict.Set(Some(section + ":" + key), Some(value));
      } else {
        overrun := true;
      }
    case LineError =>
      errs' := errs + 1;
  }

  /** The loop of iniparser_load that cuts the newline and the blanks off the end of a line. */
  method TrimEnd(line: string) returns (t: string)
    ensures t == TrimRight(line)
  {
    t := line;
    while t != "" && (t[|t| - 1] == '\n' || IsSpace(t[|t| - 1]))
      invariant TrimRight(t) == TrimRight(line)
      decreases |t|
    {
      t := t[..|t| - 1];
    }
  }

  /** One turn of the reading loop. */
  lemma LogicalStep(text: string, pending: string)
    requires text != "" && |pending| < ASCIILINESZ - 2
    ensures ChunkLength(text, ASCIILINESZ - 1 - |pending|) > 0
    ensures var n := ChunkLength(text, ASCIILINESZ - 1 - |pending|);
      var line := pending + text[..n];
      if line[|line| - 1] != '\n' then
        Logical(text, pending) == Lines([], false)
      else
        && |TrimRight(line)| < |line| < ASCIILINESZ
        && Logical(text, pending)
        == if Continues(TrimRight(line)) then Logical(text[n..], TrimRight(line)[..|TrimRight(line)| - 1])
           else Prepend([TrimRight(line)], Logical(text[n..], ""))
  {
    hide TrimRight;
    var n := ChunkLength(text, ASCIILINESZ - 1 - |pending|);
    var line := pending + text[..n];
    if line[|line| - 1] == '\n' {
      TrimRightShorter(line);
    }
  }

  lemma AllSeen(seen: seq<string>, pending: string, ended: bool)
    requires |pending| < ASCIILINESZ - 2
    ensures Prepend(seen, Lines([], ended)) == Lines(seen, ended)
    ensures Logical("", pending) == Lines([], true)
  {
    assert seen + [] == seen;
  }

  lemma NothingSeen(text: string)
    ensures Logical(text, "") == Prepend([], Logical(text, "")) && Fold(START, []) == START
  {
    hide Logical;
    var ls := Logical(text, "");
    assert [] + ls.lines == ls.lines;
  }

  lemma FoldOne(r: Reading, ls: seq<string>, line: string)
    ensures Fold(r, ls + [line]) == Step(Fold(r, ls), line)
  {
    hide Step;
    assert (ls + [line])[..|ls|] == ls;
  }

  /** Once memory is overwritten nothing else matters. */
  lemma {:induction false} OverrunStays(r: Reading, ls: seq<string>)
    requires r.overrun
    ensures Fold(r, ls) == r
    decreases |ls|
  {
    if ls != [] {
      OverrunStays(r, ls[..|ls| - 1]);
    }
  }

  lemma ChunkSlices(text: string, pos: nat, end: nat)
    requires pos <= end <= |text|
    ensures text[pos..end] == text[pos..][..end - pos] && text[end..] == text[pos..][end - pos..]
  {
  }

  /** iniparser_load: no file when it cannot be opened; overrun when memory behind a buffer is overwritten. */
  method IniparserLoad(file: Option<string>) returns (dict: Dictionary?, overrun: bool)
    ensures file.None? ==> dict == null && !overrun
    ensures file.Some? ==> overrun == LoadText(file.value).Overrun?
    ensures file.Some? && LoadText(file.value).Failed? ==> dict == null
    ensures file.Some? && LoadText(file.value).Loaded? ==>
      dict != null && fresh(dict) && dict.Valid() && dict.Contents == LoadText(file.value).entries
  {
    hide Step, TrimRight, ChunkLength, Logical, Prepend, Fold;
    dict, overrun := null, false;
    if file.None? {
      return;
    }
    var text := file.value;
    dict := new Dictionary(0);
    var pos, line, last, errs, section := 0, "", 0, 0, "";
    ghost var seen: seq<string> := [];
    assert text[0..] == text;
    NothingSeen(text);
    while pos < |text|
      invariant 0 <= pos <= |text| && 0 <= last <= |line| && last < ASCIILINESZ - 2 && 0 <= errs && !overrun
      invariant dict != null && fresh(dict) && dict.Valid() && fresh(dict.key) && fresh(dict.val) && fresh(dict.hash)
      invariant Logical(text, "") == Prepend(seen, Logical(text[pos..], line[..last]))
      invariant Fold(START, seen) == Reading(section, dict.Contents, errs, false)
      decreases |text| - pos
    {
      ghost var rest, pending := text[pos..], line[..last];
      var end := Fgets(text, pos, ASCIILINESZ - 1 - last);
      line := line[..last] + text[pos..end];
      ChunkSlices(text, pos, end);
      LogicalStep(rest, pending);
      pos := end;
      if line[|line| - 1] != '\n' {
        AllSeen(seen, "", false);
        return null, false;
      }
      TrimRightShorter(line);
      line := TrimEnd(line);
      if Continues(line) {
        last := |line| - 1;
        continue;
      }
      last := 0;
      PrependTwice(seen, [line], Logical(text[pos..], ""));
      FoldOne(START, seen, line);
      seen := seen + [line];
      section, errs, overrun := StoreLine(dict, line, section, errs);
      if overrun {
        PrependLines(seen, Logical(text[pos..], ""));
        FoldAppend(START, seen, Logical(text[pos..], "").lines);
        OverrunStays(Fold(START, seen), Logical(text[pos..], "").lines);
        return;
      }
    }
    AllSeen(seen, line[..last], true);
    assert text[pos..] == "";
    if errs != 0 {
      dict := null;
    }
  }
}
