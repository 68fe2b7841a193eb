/** How runs end, told by what was typed: raw SQL, a missing parameter, or the end of the line. */
module TokenizerEndings {
  import opened Strings
  import opened Tokenizer
  import opened TokenizerRoundTrip
  import opened TokenizerExact

  // ---------------------------------------------------------------- Raw SQL

  lemma StartsAfter(s: string, w: string)
    requires s != "" && w != "" && s[0] == w[0]
    ensures StartsWith(s, w) <==> StartsWith(s[1..], w[1..])
  {
    if StartsWith(s, w) {
      assert s[1..][..|w| - 1] == s[..|w|][1..];
    }
    if StartsWith(s[1..], w[1..]) {
      assert s[..|w|] == [s[0]] + s[1..][..|w| - 1] && w == [w[0]] + w[1..];
    }
  }

  lemma StartsDifferent(s: string, w: string)
    requires s != "" && w != "" && s[0] != w[0]
    ensures !StartsWith(s, w)
  {
    if |w| <= |s| {
      assert s[..|w|][0] == s[0];
    }
  }

  /** Preparation keeps a beginning without blanks and commas, and makes none. */
  lemma {:induction false} PreparedStart(s: string, w: string, flagfirst: bool)
    requires ' ' !in w && ',' !in w
    ensures StartsWith(Prepared(s, flagfirst), w) <==> StartsWith(s, w)
    decreases |w|
  {
    hide Prepared;
    if w == "" {
      assert s[..0] == "" && Prepared(s, flagfirst)[..0] == "";
    } else if s == "" {
      PreparedNothing(flagfirst);
    } else {
      PreparedStep(s, flagfirst);
      assert w[0] in w;
      var p := Prepared(s, flagfirst);
      if s[0] == w[0] {
        assert Consumed(s) == 1 && p == [s[0]] + Prepared(s[1..], flagfirst);
        PreparedStart(s[1..], w[1..], flagfirst);
        StartsAfter(s, w);
        StartsAfter(p, w);
        assert p[1..] == Prepared(s[1..], flagfirst);
      } else {
        assert p[0] == if s[0] == ',' && !flagfirst then ' ' else s[0];
        StartsDifferent(s, w);
        StartsDifferent(p, w);
      }
    }
  }

  /** A beginning does not reach the last character, which is a semicolon or a comma. */
  lemma StartsBefore(p: string, w: string)
    requires p != "" && p[|p| - 1] == ';' && ';' !in w && ',' !in w
    ensures StartsWith(p[..|p| - 1] + ",", w) <==> StartsWith(p, w)
  {
    var t := p[..|p| - 1] + ",";
    if |w| == |p| {
      assert p[..|w|][|p| - 1] == ';' && t[..|w|][|p| - 1] == ',';
      assert w[|w| - 1] in w;
    } else if |w| < |p| {
      assert t[..|w|] == p[..|w|];
    }
  }

  predicate IsSelect(s: string) {
    StartsWith(s, "select") || StartsWith(s, "SELECT")
  }

  lemma SelectLetters(w: string)
    requires w in {"select", "SELECT"}
    ensures ' ' !in w && ',' !in w && ';' !in w
  {
    assert "select" == ['s', 'e', 'l', 'e', 'c', 't'] && "SELECT" == ['S', 'E', 'L', 'E', 'C', 'T'];
  }

  lemma SelectKept(p: string)
    requires p != "" && p[|p| - 1] == ';'
    ensures IsSelect(p[..|p| - 1] + ",") <==> IsSelect(p)
  {
    hide StartsWith;
    SelectLetters("select");
    SelectLetters("SELECT");
    StartsBefore(p, "select");
    StartsBefore(p, "SELECT");
  }

  lemma SelectPrepared(s: string)
    ensures IsSelect(Prepared(s, false)) <==> IsSelect(s)
  {
    hide StartsWith, Prepared;
    SelectLetters("select");
    SelectLetters("SELECT");
    PreparedStart(s, "select", false);
    PreparedStart(s, "SELECT", false);
  }

  lemma RunSelect(s: string)
    ensures var p := Prepared(s, false);
      RunText(s).1.RawSelect? <==> p != "" && p[|p| - 1] == ';' && IsSelect(p[..|p| - 1] + ",")
    ensures RunText(s).1.RawSelect? ==> RunText(s) == ([], RawSelect(Prepared(s, false)))
  {
    hide Prepared, Steps, StartsWith;
    var p := Prepared(s, false);
    if p != "" {
      StepsEnding(p[..|p| - 1] + ",");
    }
  }

  /** A statement is raw SQL exactly when it ends with a semicolon and begins with a select in letters of one case. */
  lemma SelectExactly(s: string)
    ensures RunText(s).1.RawSelect? <==>
      s != "" && s[|s| - 1] == ';' && (StartsWith(s, "select") || StartsWith(s, "SELECT"))
    ensures RunText(s).1.RawSelect? ==> RunText(s) == ([], RawSelect(Prepared(s, false)))
  {
    hide Prepared, RunText, StartsWith;
    RunSelect(s);
    if s == "" {
      PreparedNothing(false);
    } else {
      LastKept(s, false);
      SelectPrepared(s);
      var p := Prepared(s, false);
      if p[|p| - 1] == ';' {
        SelectKept(p);
      }
    }
  }

  /** Without commas, raw SQL is handed on as it was typed exactly when no two blanks stand in a row. */
  lemma SelectAsTyped(s: string)
    requires ',' !in s && (StartsWith(s, "select") || StartsWith(s, "SELECT"))
    ensures RunText(s + ";") == ([], RawSelect(s + ";")) <==> SingleBlanks(s)
  {
    hide Prepared, RunText, StartsWith;
    if StartsWith(s, "select") {
      PrefixLonger(s, ";", "select");
    } else {
      PrefixLonger(s, ";", "SELECT");
    }
    SelectExactly(s + ";");
    PreparedExact(s, false);
  }

  /** A line of SQL, and not a command called SELECT. */
  lemma SelectExample()
    ensures RunText("SELECT a;") == ([], RawSelect("SELECT a;"))
  {
    hide RunText;
    assert "SELECT a" + ";" == "SELECT a;" && "SELECT" + " a" == "SELECT a";
    assert StartsWith("SELECT", "SELECT");
    PrefixLonger("SELECT", " a", "SELECT");
    SelectAsTyped("SELECT a");
  }

  // ---------------------------------------------------------------- Missing parameters

  lemma BlankFound(s: string)
    ensures Find(s, ' ') == |s| <==> ' ' !in s
  {
    if Find(s, ' ') == |s| {
      assert s[..|s|] == s;
    }
  }

  lemma CommaMissing(s: string)
    requires ',' !in s
    ensures Find(s, ',') == |s|
  {
  }

  /** A step fails for its parameter exactly when no blank stands before the first comma. */
  lemma NoParameterExactly(a: string, rest: string)
    requires ',' !in a
    ensures StepOf(a + "," + rest) == NoParameter <==> ' ' !in a
    ensures StepOf(a) != NoParameter
  {
    hide Find, Arguments;
    var go := a + "," + rest;
    FindAt(a, ',', rest);
    assert a + [','] + rest == go && go[..|a| + 1] == a + ",";
    assert ' ' in a + "," <==> ' ' in a;
    BlankFound(a + ",");
    CommaMissing(a);
  }

  lemma StepsOfStep(go: string)
    ensures StepOf(go).Finished? <==> go == ""
    ensures Steps(go) == match StepOf(go)
                         case Finished => ([], Done)
                         case NoParameter => ([], MissingParameter)
                         case Undefined => ([], Crashed)
                         case Stepped(c, rest) => ([c] + Steps(rest).0, Steps(rest).1)
  {
    hide Find, Arguments;
    if StepOf(go).Stepped? {
      StepShorter(go);
    }
  }

  /** A step sees nothing behind its comma. */
  lemma StepOfFirst(a: string, rest: string)
    requires ',' !in a
    ensures StepOf(a + "," + rest)
         == if StepOf(a + ",").Stepped? then StepOf(a + ",").(rest := rest) else StepOf(a + ",")
    ensures StepOf(a + ",").Stepped? ==> StepOf(a + ",").rest == ""
  {
    hide Find, Arguments;
    var go, t, n := a + "," + rest, a + ",", |a|;
    FindAt(a, ',', rest);
    FindAt(a, ',', "");
    assert go == a + [','] + rest && t == a + [','] + "";
    assert go[..n + 1] == t && go[n + 1..] == rest && t[..n + 1] == t && t[n + 1..] == "";
  }

  lemma FindSplit(s: string, c: char)
    requires Find(s, c) < |s|
    ensures var n := Find(s, c);
      c !in s[..n] && s == s[..n] + [c] + s[n + 1..] && s[..n] + [c] == s[..n + 1]
  {
    hide Find;
  }

  lemma StepRest(go: string)
    requires StepOf(go).Stepped?
    ensures Find(go, ',') < |go| && StepOf(go).rest == go[Find(go, ',') + 1..]
  {
    hide Find, Arguments;
  }

  lemma StepSplit(go: string)
    requires StepOf(go).Stepped?
    ensures var n := Find(go, ',');
      && n < |go| && ',' !in go[..n] && go == go[..n] + "," + go[n + 1..] && go[..n] + "," == go[..n + 1]
      && StepOf(go).rest == go[n + 1..]
  {
    hide Find, StepOf;
    StepRest(go);
    FindSplit(go, ',');
  }

  lemma StepLonger(go: string, x: string)
    requires StepOf(go).Stepped?
    ensures StepOf(go + x) == StepOf(go).(rest := StepOf(go).rest + x)
  {
    hide StepOf, Find;
    StepSplit(go);
    var n := Find(go, ',');
    StepOfFirst(go[..n], go[n + 1..]);
    StepOfFirst(go[..n], go[n + 1..] + x);
    assert go + x == go[..n] + "," + (go[n + 1..] + x);
  }

  lemma StepNoComma(a: string)
    requires ',' !in a && a != ""
    ensures StepOf(a) == Undefined
  {
    CommaMissing(a);
  }

  lemma QuoteMissing(s: string)
    requires QUOTE !in s
    ensures Find(s, QUOTE) == |s|
  {
  }

  /** A step leaves its buffers when there is no comma, and when a quote is not closed before it. */
  lemma UndefinedSteps(name: string, a: string, rest: string)
    requires ' ' !in name && ',' !in name && ',' !in a && QUOTE !in a
    ensures a != "" ==> StepOf(a) == Undefined
    ensures StepOf(name + " " + ([QUOTE] + a) + "," + rest) == Undefined
  {
    hide StepOf;
    if a != "" {
      StepNoComma(a);
    }
    var t := [QUOTE] + a + ",";
    StepText(name, [QUOTE] + a, rest);
    assert t[1..] == a + ",";
    QuoteMissing(a + ",");
  }

  /** Nothing at all is no statement: the character before the buffer is looked at. */
  lemma EmptyStatement()
    ensures RunText("") == ([], Crashed)
  {
    PreparedNothing(false);
  }

  /** After commands that were all read, a text is stepped through as if it stood alone. */
  lemma {:induction false} StepsBehind(before: string, x: string)
    requires Steps(before).1 == Done
    ensures Steps(before + x) == (Steps(before).0 + Steps(x).0, Steps(x).1)
    decreases |before|
  {
    hide StepOf;
    StepsOfStep(before);
    if before == "" {
      assert before + x == x && Steps(before).0 + Steps(x).0 == Steps(x).0;
    } else {
      StepLonger(before, x);
      StepShorter(before);
      var r := StepOf(before);
      StepsBehind(r.rest, x);
      StepsOfStep(before + x);
      assert [r.command] + (Steps(r.rest).0 + Steps(x).0) == ([r.command] + Steps(r.rest).0) + Steps(x).0;
    }
  }

  /** The text before a is stepped through, and a is a command without a blank. */
  ghost predicate StopsAt(go: string, before: string, a: string, rest: string) {
    go == before + (a + "," + rest) && ',' !in a && ' ' !in a && Steps(before).1 == Done
  }

  lemma StepUndefined(go: string)
    requires ',' !in go
    ensures !StepOf(go).Stepped?
  {
    CommaMissing(go);
  }

  lemma CommaIn(go: string)
    ensures ',' in go ==> Find(go, ',') < |go|
  {
    if Find(go, ',') == |go| {
      assert go[..|go|] == go;
    }
  }

  lemma StepTaken(go: string)
    requires StepOf(go).Stepped?
    ensures var n := Find(go, ',');
      && n < |go| && StepOf(go).rest == go[n + 1..]
      && Steps(go[..n + 1]) == ([StepOf(go).command], Done)
  {
    hide Find, StepOf, Steps;
    StepSplit(go);
    var n := Find(go, ',');
    StepOfFirst(go[..n], go[n + 1..]);
    StepsOfStep(go[..n + 1]);
    StepsOfStep("");
    assert [StepOf(go).command] + [] == [StepOf(go).command];
  }

  lemma {:induction false} StopIn(go: string) returns (before: string, a: string, rest: string)
    requires Steps(go).1 == MissingParameter
    ensures StopsAt(go, before, a, rest)
    decreases |go|
  {
    hide Steps, StepOf, Find;
    StepsOfStep(go);
    StepsOfStep("");
    var n := Find(go, ',');
    if ',' !in go {
      NoParameterExactly(go, "");
      StepUndefined(go);
    }
    CommaIn(go);
    a, rest := go[..n], go[n + 1..];
    assert go == a + "," + rest;
    NoParameterExactly(a, rest);
    if ' ' !in a {
      before := "";
      assert go == before + (a + "," + rest);
    } else {
      var r := StepOf(go);
      StepShorter(go);
      StepTaken(go);
      var b, a', rest' := StopIn(r.rest);
      before, a, rest := go[..n + 1] + b, a', rest';
      StepsBehind(go[..n + 1], b);
      assert go == go[..n + 1] + (b + (a + "," + rest));
    }
  }

  /**
    * A run of steps ends for a missing parameter exactly when some command has no blank and all before it are read;
    * exactly those are handed over.
    */
  lemma MissingExactly(go: string)
    ensures Steps(go).1 == MissingParameter <==> exists before, a, rest :: StopsAt(go, before, a, rest)
    ensures forall before, a, rest :: StopsAt(go, before, a, rest) ==> Steps(go).0 == Steps(before).0
  {
    hide Steps, StepOf;
    forall before, a, rest | StopsAt(go, before, a, rest)
      ensures Steps(go) == (Steps(before).0, MissingParameter)
    {
      NoParameterExactly(a, rest);
      StepsOfStep(a + "," + rest);
      StepsBehind(before, a + "," + rest);
      assert Steps(before).0 + [] == Steps(before).0;
    }
    if Steps(go).1 == MissingParameter {
      var before, a, rest := StopIn(go);
    }
  }

  // ---------------------------------------------------------------- Typed lines

  /** A command that is typed without an argument, and is not the first of several. */
  predicate Lacking(cs: seq<Typed>, extra: bool) {
    exists i :: 0 <= i < |cs| && cs[i].arguments == [] && !(i == 0 && extra)
  }

  predicate GoodWordsAll(cs: seq<Typed>, extra: bool) {
    && cs != [] && (forall c :: c in cs ==> GoodCommand(c))
    && |cs[0].arguments| + (if extra then 1 else 0) <= MAX_ARGUMENTS
  }

  lemma StepLacking(c: Typed, rest: string)
    requires GoodCommand(c) && c.arguments == []
    ensures Steps(Body(c) + "," + rest) == ([], MissingParameter)
  {
    hide StepOf, Steps;
    LedNothing();
    assert Body(c) == c.name;
    NoParameterExactly(c.name, rest);
    StepsOfStep(c.name + "," + rest);
  }

  lemma StepGood(c: Typed, extra: bool, rest: string)
    requires GoodCommand(c) && (extra || c.arguments != []) && |c.arguments| + (if extra then 1 else 0) <= MAX_ARGUMENTS
    ensures Steps(Body(c) + (if extra then " " else "") + "," + rest).1 == Steps(rest).1
  {
    hide StepOf, Steps, Body, GoodCommand;
    StepBody(c, extra, rest);
    StepsOfStep(Body(c) + (if extra then " " else "") + "," + rest);
  }

  lemma LackingMore(cs: seq<Typed>, extra: bool)
    requires cs != []
    ensures Lacking(cs, extra) <==> (cs[0].arguments == [] && !extra) || Lacking(cs[1..], false)
  {
    if Lacking(cs[1..], false) {
      var i :| 0 <= i < |cs[1..]| && cs[1..][i].arguments == [];
      assert cs[i + 1].arguments == [];
    }
    if Lacking(cs, extra) && !(cs[0].arguments == [] && !extra) {
      var i :| 0 <= i < |cs| && cs[i].arguments == [] && !(i == 0 && extra);
      assert cs[1..][i - 1].arguments == [];
    }
  }

  lemma NothingLacks()
    ensures !Lacking([], false) && Steps("").1 == Done
  {
  }

  lemma FewArguments(c: Typed)
    requires GoodCommand(c)
    ensures |c.arguments| <= MAX_ARGUMENTS && Word(c.name)
  {
  }

  /** The prepared text of the first command and what follows its comma. */
  lemma ReadyFront(c: Typed, more: seq<Typed>, gap: string, flagfirst: bool)
    requires GoodCommand(c) && IsGap(gap) && forall d :: d in more ==> GoodCommand(d)
    ensures Ready(Body(c) + Others(more, gap), flagfirst)
         == Body(c) + (if !flagfirst && more != [] then " " else "") + ","
            + if more == [] then "" else Ready(Body(more[0]) + Others(more[1..], gap), true)
  {
    hide Ready, Body, GoodCommand, SingleBlanks;
    forall d | d in more
      ensures Word(d.name)
    {
      FewArguments(d);
    }
    if more == [] {
      BodyShape(c);
      ReadyClean(Body(c), "", flagfirst);
      ReadyNothing(flagfirst);
      assert Body(c) + Others(more, gap) == Body(c) + "" && Body(c) + "" + "," + "" == Body(c) + ",";
    } else {
      ReadyGood(c, more, gap, flagfirst);
    }
  }

  /** The text of good commands, from the first on, is stepped through to its end, or to one that lacks an argument. */
  lemma {:induction false} StepsMissing(cs: seq<Typed>, gap: string, flagfirst: bool, extra: bool)
    requires GoodWordsAll(cs, extra) && IsGap(gap) && (extra <==> !flagfirst && |cs| > 1)
    ensures Steps(Ready(Body(cs[0]) + Others(cs[1..], gap), flagfirst)).1
         == if Lacking(cs, extra) then MissingParameter else Done
    decreases |cs|
  {
    hide Ready, Steps, Body, GoodCommand, Lacking;
    var c, more := cs[0], cs[1..];
    assert c in cs && forall d :: d in more ==> d in cs;
    LackingMore(cs, extra);
    ReadyFront(c, more, gap, flagfirst);
    var rest := if more == [] then "" else Ready(Body(more[0]) + Others(more[1..], gap), true);
    if c.arguments == [] && !extra {
      StepLacking(c, rest);
      assert Body(c) + "" == Body(c);
    } else {
      StepGood(c, extra, rest);
      if more == [] {
        NothingLacks();
      } else {
        assert more[0] in cs && |more[0].arguments| <= MAX_ARGUMENTS by {
          FewArguments(more[0]);
        }
        StepsMissing(more, gap, true, false);
      }
    }
  }

  lemma NotSelect(c: Typed, blank: string, rest: string)
    requires blank in {"", " "} && GoodCommand(c) && !IsSelect(c.name)
    ensures !IsSelect(Body(c) + blank + "," + rest)
  {
    hide Body, StartsWith, GoodCommand;
    SelectLetters("select");
    SelectLetters("SELECT");
    var text := Body(c) + blank + "," + rest;
    if StartsWith(text, "select") {
      StartOfLine(c, blank, rest, "select");
    }
    if StartsWith(text, "SELECT") {
      StartOfLine(c, blank, rest, "SELECT");
    }
  }

  lemma LineReady(cs: seq<Typed>, gap: string)
    requires GoodWordsAll(cs, |cs| > 1) && IsGap(gap) && !IsSelect(cs[0].name)
    ensures RunText(Line(cs, gap)) == Steps(Ready(Body(cs[0]) + Others(cs[1..], gap), false))
  {
    hide Steps, GoodCommand, Body, Others, StartsWith, Prepared;
    var x := Body(cs[0]) + Others(cs[1..], gap);
    assert Line(cs, gap) == x + ";" && (x + ";")[|x|] == ';' && cs[0] in cs;
    LastKept(x + ";", false);
    ReadyFront(cs[0], cs[1..], gap, false);
    NotSelect(cs[0], if cs[1..] != [] then " " else "",
              if cs[1..] == [] then "" else Ready(Body(cs[1..][0]) + Others(cs[1..][1..], gap), true));
  }

  /**
    * A typed line of good commands ends for a missing parameter exactly when some command has no argument, unless it is
    * the first of several.
    */
  lemma MissingOfLine(cs: seq<Typed>, gap: string)
    requires GoodWordsAll(cs, |cs| > 1) && IsGap(gap) && !IsSelect(cs[0].name)
    ensures RunText(Line(cs, gap)).1 == MissingParameter <==>
      exists i :: 0 <= i < |cs| && cs[i].arguments == [] && (i > 0 || |cs| == 1)
    ensures RunText(Line(cs, gap)).1 in {MissingParameter, Done}
  {
    hide RunText, Ready, Steps, GoodCommand, Body, Others, StartsWith;
    StepsMissing(cs, gap, false, |cs| > 1);
    assert cs[0] in cs;
    LineReady(cs, gap);
  }

  const TYPED := [Typed("list", [InQuotes("a b"), Plain("c")]), Typed("top", [Plain("5")])]

  lemma TypedGood()
    ensures GoodLine(TYPED)
  {
    assert "list" == ['l', 'i', 's', 't'] && "top" == ['t', 'o', 'p'] && "a b" == ['a', ' ', 'b'];
    assert "c" == ['c'] && "5" == ['5'];
    assert "list"[0] != "select"[0] && "list"[0] != "SELECT"[0];
  }

  lemma TypedLine()
    ensures Line(TYPED, " ") == "list \'a b\' c, top 5;"
  {
  }

  lemma TypedMeant()
    ensures AsInterpreted(TYPED) == [Command("list", ["a b", "c", ""]), Command("top", ["5"])]
  {
    assert Texts(TYPED[0].arguments) == ["a b", "c"] && Texts(TYPED[1].arguments) == ["5"];
    assert AllMeant(TYPED[1..]) == [Command("top", ["5"])];
    assert ["a b", "c"] + [""] == ["a b", "c", ""];
  }

  /** Two commands with quoted and plain arguments: the first gets an empty argument more. */
  lemma RunExample()
    ensures RunText("list \'a b\' c, top 5;")
         == ([Command("list", ["a b", "c", ""]), Command("top", ["5"])], Done)
  {
    hide RunText, Line, GoodLine, AsInterpreted;
    TypedGood();
    TypedLine();
    TypedMeant();
    RunOfLine(TYPED, " ");
  }
}
