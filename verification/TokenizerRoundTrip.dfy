/** Typing commands and tokenizing what was typed. */
module TokenizerRoundTrip {
  import opened Wrappers
  import opened Strings
  import opened Tokenizer

  // ---------------------------------------------------------------- How commands are typed

  datatype Argument = Plain(text: string) | InQuotes(text: string)

  datatype Typed = Typed(name: string, arguments: seq<Argument>)

  /** No two blanks in a row. */
  predicate SingleBlanks(s: string) {
    forall i :: 0 <= i < |s| - 1 ==> !(s[i] == ' ' && s[i + 1] == ' ')
  }

  predicate Word(s: string) {
    s != [] && CText(s) && ' ' !in s && ',' !in s
  }

  predicate GoodArgument(a: Argument) {
    match a
    case Plain(s) => Word(s) && s[0] != QUOTE
    case InQuotes(s) => CText(s) && ',' !in s && QUOTE !in s && SingleBlanks(s)
  }

  predicate GoodWords(c: Typed) {
    Word(c.name) && forall a :: a in c.arguments ==> GoodArgument(a)
  }

  predicate GoodCommand(c: Typed) {
    GoodWords(c) && |c.arguments| <= MAX_ARGUMENTS
  }

  /** Commands that can be typed in one line; only the first of several may be without an argument. */
  predicate GoodLine(cs: seq<Typed>) {
    && cs != []
    && (forall c :: c in cs ==> GoodCommand(c))
    && (forall i :: 0 < i < |cs| ==> cs[i].arguments != [])
    && (if |cs| == 1 then cs[0].arguments != [] else |cs[0].arguments| < MAX_ARGUMENTS)
    && !StartsWith(cs[0].name, "select") && !StartsWith(cs[0].name, "SELECT")
  }

  function ArgumentText(a: Argument): string {
    match a
    case Plain(s) => s
    case InQuotes(s) => [QUOTE] + s + [QUOTE]
  }

  /** Every argument after a blank. */
  function Led(arguments: seq<Argument>): string {
    if arguments == [] then [] else " " + ArgumentText(arguments[0]) + Led(arguments[1..])
  }

  function Body(c: Typed): string {
    c.name + Led(c.arguments)
  }

  /** Commands after the first: each after a comma and a gap. */
  function Others(cs: seq<Typed>, gap: string): string {
    if cs == [] then [] else "," + gap + Body(cs[0]) + Others(cs[1..], gap)
  }

  function Line(cs: seq<Typed>, gap: string): string
    requires cs != []
  {
    Body(cs[0]) + Others(cs[1..], gap) + ";"
  }

  function Texts(arguments: seq<Argument>): (r: seq<string>)
    ensures |r| == |arguments| && forall i :: 0 <= i < |arguments| ==> r[i] == arguments[i].text
  {
    seq(|arguments|, i requires 0 <= i < |arguments| => arguments[i].text)
  }

  function Meant(c: Typed): Command {
    Command(c.name, Texts(c.arguments))
  }

  function AllMeant(cs: seq<Typed>): (r: seq<Command>)
    ensures |r| == |cs|
  {
    seq(|cs|, i requires 0 <= i < |cs| => Meant(cs[i]))
  }

  // ---------------------------------------------------------------- Preparing

  lemma SingleBlanksTail(a: string)
    requires a != [] && SingleBlanks(a)
    ensures SingleBlanks(a[1..])
  {
    var t := a[1..];
    assert forall i :: 0 <= i < |t| ==> t[i] == a[i + 1];
  }

  /** Without commas and doubled blanks nothing changes. */
  lemma {:induction false} PrepareClean(a: string, rest: string, flagfirst: bool)
    requires ',' !in a && SingleBlanks(a)
    requires a == [] || a[|a| - 1] != ' '
    ensures Prepared(a + rest, flagfirst) == a + Prepared(rest, flagfirst)
    decreases |a|
  {
    hide Prepared;
    if a == [] {
      assert a + rest == rest && [] + Prepared(rest, flagfirst) == Prepared(rest, flagfirst);
    } else {
      var s, t := a + rest, a[1..];
      assert a[0] in a && s[0] == a[0] && (|a| > 1 ==> s[1] == a[1]);
      assert Consumed(s) == 1;
      assert s[1..] == t + rest;
      SingleBlanksTail(a);
      PreparedStep(s, flagfirst);
      PrepareClean(t, rest, flagfirst);
      assert "" + [a[0]] + (t + Prepared(rest, flagfirst)) == a + Prepared(rest, flagfirst);
    }
  }

  predicate IsGap(gap: string) {
    gap in {"", " ", "  "}
  }

  lemma PrepareComma(gap: string, rest: string, flagfirst: bool)
    requires IsGap(gap) && rest != [] && rest[0] != ' '
    ensures Prepared("," + gap + rest, flagfirst) == (if flagfirst then "," else " ,") + Prepared(rest, true)
  {
    hide Prepared;
    var s := "," + gap + rest;
    PreparedStep(s, flagfirst);
    assert Consumed(s) == 1 + |gap|;
    assert s[1 + |gap|..] == rest;
  }

  lemma ArgumentShape(a: Argument)
    requires GoodArgument(a)
    ensures var t := ArgumentText(a);
      t != [] && t[0] != ' ' && t[|t| - 1] != ' ' && ',' !in t && SingleBlanks(t) && CText(t)
  {
    var t := ArgumentText(a);
    if a.Plain? {
      assert t[0] in t && t[|t| - 1] in t;
      assert forall i :: 0 <= i < |t| - 1 ==> t[i] in t;
    } else {
      assert forall i :: 0 < i < |t| - 1 ==> t[i] == a.text[i - 1];
    }
  }

  lemma SingleBlanksJoin(a: string, b: string)
    requires SingleBlanks(a) && SingleBlanks(b) && (a == [] || a[|a| - 1] != ' ')
    ensures SingleBlanks(a + b)
  {
    var s := a + b;
    forall i | 0 <= i < |s| - 1
      ensures !(s[i] == ' ' && s[i + 1] == ' ')
    {
      if i + 1 < |a| {
        assert s[i] == a[i] && s[i + 1] == a[i + 1];
      } else if i >= |a| {
        assert s[i] == b[i - |a|] && s[i + 1] == b[i + 1 - |a|];
      }
    }
  }

  ghost predicate Clean(s: string) {
    ',' !in s && SingleBlanks(s) && CText(s)
  }

  lemma NoBlanks()
    ensures SingleBlanks([])
  {
  }

  lemma OneBlank(t: string)
    requires SingleBlanks(t) && t != [] && t[0] != ' '
    ensures SingleBlanks(" " + t)
  {
    assert forall i :: 0 < i < |t| ==> (" " + t)[i] == t[i - 1] && (" " + t)[i + 1] == t[i];
  }

  lemma {:induction false} LedShape(arguments: seq<Argument>)
    requires forall a :: a in arguments ==> GoodArgument(a)
    ensures Clean(Led(arguments)) && (arguments != [] ==> Led(arguments) != [] && Led(arguments)[0] == ' ')
    ensures arguments != [] ==> Led(arguments)[|Led(arguments)| - 1] != ' '
    decreases |arguments|
  {
    hide SingleBlanks, GoodArgument, ArgumentText;
    if arguments == [] {
      NoBlanks();
    } else {
      var t, more := ArgumentText(arguments[0]), Led(arguments[1..]);
      ArgumentShape(arguments[0]);
      LedShape(arguments[1..]);
      OneBlank(t);
      SingleBlanksJoin(" " + t, more);
    }
  }

  lemma LedNothing()
    ensures Led([]) == []
  {
  }

  lemma WordsShape(c: Typed)
    requires GoodWords(c)
    ensures var b := Body(c); Clean(b) && b != [] && b[0] == c.name[0] != ' ' && b[|b| - 1] != ' '
  {
    hide Led;
    var n := c.name;
    assert n[0] in n && n[|n| - 1] in n;
    assert forall i :: 0 <= i < |n| ==> n[i] in n;
    LedShape(c.arguments);
    SingleBlanksJoin(n, Led(c.arguments));
    if c.arguments == [] {
      LedNothing();
      assert Body(c) == n;
    }
  }

  lemma BodyShape(c: Typed)
    requires GoodCommand(c)
    ensures var b := Body(c); Clean(b) && b != [] && b[0] == c.name[0] != ' ' && b[|b| - 1] != ' '
  {
    hide GoodWords, Body, Clean;
    WordsShape(c);
  }

  lemma MoveBlank(flagfirst: bool, b: string, more: string)
    ensures (if flagfirst then "," else " ,") + (b + ("" + more + ";"))
         == (if flagfirst then "" else " ") + ("," + "" + b + more) + ";"
  {
  }

  lemma PrepareSemicolon(flagfirst: bool)
    ensures Prepared(";", flagfirst) == ";"
  {
    PreparedStep(";", flagfirst);
  }

  /** What preparation makes of the commands after the first, up to and including the semicolon. */
  lemma {:induction false} PrepareOthers(cs: seq<Typed>, gap: string, flagfirst: bool)
    requires IsGap(gap) && forall c :: c in cs ==> GoodCommand(c)
    ensures Prepared(Others(cs, gap) + ";", flagfirst)
         == (if cs == [] || flagfirst then "" else " ") + Others(cs, "") + ";"
    decreases |cs|
  {
    hide Prepared, GoodCommand, SingleBlanks, Body, CText, IsGap;
    if cs == [] {
      PrepareSemicolon(flagfirst);
      assert [] + ";" == ";" && "" + [] + ";" == ";";
    } else {
      var b, more := Body(cs[0]), Others(cs[1..], gap) + ";";
      BodyShape(cs[0]);
      PrepareOthers(cs[1..], gap, true);
      assert Others(cs, gap) + ";" == "," + gap + (b + more);
      PrepareComma(gap, b + more, flagfirst);
      PrepareClean(b, more, true);
      MoveBlank(flagfirst, b, Others(cs[1..], ""));
    }
  }

  /** The first body, a blank when others follow, the others without gaps. */
  function PreparedLine(cs: seq<Typed>): string
    requires cs != []
  {
    Body(cs[0]) + (if |cs| == 1 then "" else " ") + Others(cs[1..], "")
  }

  lemma PrepareLine(cs: seq<Typed>, gap: string)
    requires GoodLine(cs) && IsGap(gap)
    ensures Prepared(Line(cs, gap), false) == PreparedLine(cs) + ";"
  {
    hide Prepared, GoodCommand, SingleBlanks, Body, Others;
    var b, more := Body(cs[0]), Others(cs[1..], gap) + ";";
    BodyShape(cs[0]);
    PrepareOthers(cs[1..], gap, false);
    PrepareClean(b, more, false);
    assert Line(cs, gap) == b + more;
  }

  /** Two blanks in a row become one, within quotes as well: a quoted argument loses one of them. */
  lemma BlanksHalved(a: string, rest: string, flagfirst: bool)
    requires ',' !in a && SingleBlanks(a) && (a == [] || a[|a| - 1] != ' ')
    ensures Prepared(a + "  " + rest, flagfirst) == a + " " + Prepared(rest, flagfirst)
  {
    hide Prepared, SingleBlanks;
    var s := "  " + rest;
    assert a + "  " + rest == a + s;
    PrepareClean(a, s, flagfirst);
    PreparedStep(s, flagfirst);
    assert Consumed(s) == 2 && s[2..] == rest;
    assert a + ("" + [' '] + Prepared(rest, flagfirst)) == a + " " + Prepared(rest, flagfirst);
  }

  /** Preparation keeps a final semicolon, and makes none. */
  lemma {:induction false} LastKept(s: string, flagfirst: bool)
    requires s != []
    ensures var p := Prepared(s, flagfirst); p != [] && (p[|p| - 1] == ';' <==> s[|s| - 1] == ';')
    decreases |s|
  {
    hide Prepared;
    PreparedStep(s, flagfirst);
    var rest, flag := s[Consumed(s)..], flagfirst || s[0] == ',';
    if rest == [] {
      PreparedNothing(flag);
    } else {
      LastKept(rest, flag);
    }
  }

  lemma {:induction false} StepsEnding(go: string)
    ensures Steps(go).1 in {Done, MissingParameter, Crashed}
    decreases |go|
  {
    hide StepOf;
    if StepOf(go).Stepped? {
      StepShorter(go);
      StepsEnding(StepOf(go).rest);
    }
  }

  /** A statement is refused for its missing semicolon exactly when its last character is something else. */
  lemma SemicolonRequired(s: string)
    ensures RunText(s).1 == MissingSemicolon <==> s != [] && s[|s| - 1] != ';'
  {
    hide Prepared, Steps, StartsWith;
    if s == [] {
      PreparedNothing(false);
    } else {
      LastKept(s, false);
      var p := Prepared(s, false);
      StepsEnding(p[..|p| - 1] + ",");
    }
  }

  // ---------------------------------------------------------------- Stepping

  lemma NoBlankBefore(s: string)
    requires ' ' !in s
    ensures Find(s, ' ') == |s|
  {
  }

  /** One argument and the blank or final comma after it. */
  lemma ReadArgument(a: Argument, sep: char, rest: string)
    requires GoodArgument(a) && sep in {' ', ','} && (sep == ',' ==> rest == [])
    ensures Arguments(ArgumentText(a) + [sep] + rest) == Preceded(a.text, Arguments(rest))
  {
    hide Find;
    var s := a.text;
    if a.Plain? {
      var bn := s + [sep] + rest;
      assert bn[0] == s[0];
      assert bn[..|s|] == s && bn[|s| + 1..] == rest;
      FindAt(s, sep, rest);
      if sep == ',' {
        NoBlankBefore(s + [sep] + rest);
      }
    } else {
      var bn := [QUOTE] + s + [QUOTE] + [sep] + rest;
      assert bn[1..] == s + [QUOTE] + ([sep] + rest);
      FindAt(s, QUOTE, [sep] + rest);
      assert bn[1..1 + |s|] == s && bn[1 + |s| + 2..] == rest;
    }
  }

  /** What ends a command, and what is read there: a blank before the comma gives an empty argument. */
  function Stop(extra: bool): string {
    if extra then " ," else ","
  }

  function Surplus(extra: bool): seq<string> {
    if extra then [""] else []
  }

  lemma LedFirst(arguments: seq<Argument>)
    requires arguments != []
    ensures Led(arguments) != [] && Led(arguments)[1..] == ArgumentText(arguments[0]) + Led(arguments[1..])
  {
    hide ArgumentText;
  }

  lemma ReadNext(a: Argument, led: string, stop: string)
    requires GoodArgument(a) && led != [] && led[0] == ' '
    ensures Arguments(ArgumentText(a) + led + stop) == Preceded(a.text, Arguments(led[1..] + stop))
  {
    hide Arguments, GoodArgument, ArgumentText;
    assert ArgumentText(a) + led + stop == ArgumentText(a) + [' '] + (led[1..] + stop);
    ReadArgument(a, ' ', led[1..] + stop);
  }

  lemma ReadEnd()
    ensures Arguments("") == Some([]) && Arguments(",") == Some([""])
  {
    assert Find(",", ' ') == 1 && Find(",", ',') == 0;
    assert ","[1..] == "" && ","[..0] == "";
    assert Arguments("") == Some([]);
    assert [""] + [] == [""];
  }

  lemma ReadLast(a: Argument, extra: bool)
    requires GoodArgument(a)
    ensures Arguments(ArgumentText(a) + Stop(extra)) == Some([a.text] + Surplus(extra))
  {
    hide Arguments, GoodArgument, ArgumentText;
    var t := ArgumentText(a);
    ReadEnd();
    if extra {
      assert t + " ," == t + [' '] + ",";
      ReadArgument(a, ' ', ",");
    } else {
      assert t + "," == t + [','] + "";
      ReadArgument(a, ',', "");
    }
  }

  lemma TextsFirst(arguments: seq<Argument>)
    requires arguments != []
    ensures Texts(arguments) == [arguments[0].text] + Texts(arguments[1..]) && Texts([]) == []
  {
  }

  lemma Regroup<T>(a: seq<T>, b: seq<T>, c: seq<T>)
    ensures a + (b + c) == (a + b) + c
  {
  }

  /** The arguments of a command, after its first blank. */
  lemma {:induction false} ReadLed(arguments: seq<Argument>, extra: bool)
    requires arguments != [] && forall a :: a in arguments ==> GoodArgument(a)
    ensures Led(arguments) != []
    ensures Arguments(Led(arguments)[1..] + Stop(extra)) == Some(Texts(arguments) + Surplus(extra))
    decreases |arguments|
  {
    hide Arguments, GoodArgument, ArgumentText, SingleBlanks, CText, Texts, Stop, Surplus, Led;
    var a, more := arguments[0], arguments[1..];
    TextsFirst(arguments);
    LedFirst(arguments);
    if more == [] {
      LedNothing();
      ReadLast(a, extra);
      assert ArgumentText(a) + [] == ArgumentText(a) && [a.text] + [] == [a.text];
    } else {
      ReadLed(more, extra);
      LedShape(more);
      ReadNext(a, Led(more), Stop(extra));
      Regroup([a.text], Texts(more), Surplus(extra));
    }
  }

  function WithEmpty(c: Command): Command {
    c.(arguments := c.arguments + [""])
  }

  /** A step over a name, a blank, and text up to a comma: a hundred arguments are read, for more there is no room. */
  lemma StepText(name: string, tail: string, rest: string)
    requires ' ' !in name && ',' !in name && ',' !in tail
    ensures StepOf(name + " " + tail + "," + rest)
         == match Arguments(tail + ",")
            case None => Undefined
            case Some(arguments) =>
              if |arguments| > 100 then Undefined else Stepped(Command(name, arguments), rest)
  {
    hide Arguments, Find;
    var b, n := name + " " + tail, |name|;
    var go, res := b + "," + rest, b + ",";
    FindAt(b, ',', rest);
    assert go[..|b| + 1] == res && go[|b| + 1..] == rest;
    FindAt(name, ' ', tail + ",");
    assert res == name + [' '] + (tail + ",") && res[n + 1..] == tail + "," && res[..n] == name;
  }

  /** A step over one body and its comma, with or without the blank that preparation put before it. */
  lemma StepWords(c: Typed, extra: bool, rest: string)
    requires GoodWords(c) && (extra || c.arguments != [])
    ensures StepOf(Body(c) + (if extra then " " else "") + "," + rest)
         == if |c.arguments| + (if extra then 1 else 0) > 100 then Undefined
            else Stepped(if extra then WithEmpty(Meant(c)) else Meant(c), rest)
  {
    hide Arguments, StepOf, Led, GoodArgument, SingleBlanks;
    var blank := if extra then " " else "";
    LedNothing();
    if c.arguments == [] {
      StepText(c.name, "", rest);
      assert Body(c) + blank == c.name + " " + "" && "" + "," == ",";
      ReadEnd();
      assert Texts(c.arguments) + [""] == [""];
    } else {
      LedShape(c.arguments);
      var led := Led(c.arguments);
      StepText(c.name, led[1..] + blank, rest);
      assert Body(c) + blank == c.name + " " + (led[1..] + blank);
      assert led[1..] + blank + "," == led[1..] + Stop(extra);
      ReadLed(c.arguments, extra);
      assert Texts(c.arguments) + [] == Texts(c.arguments);
    }
  }

  /** The step over a command with room for its arguments. */
  lemma StepBody(c: Typed, extra: bool, rest: string)
    requires GoodCommand(c) && (extra || c.arguments != []) && |c.arguments| + (if extra then 1 else 0) <= MAX_ARGUMENTS
    ensures StepOf(Body(c) + (if extra then " " else "") + "," + rest)
         == Stepped(if extra then WithEmpty(Meant(c)) else Meant(c), rest)
  {
    hide GoodWords, StepOf, Body;
    StepWords(c, extra, rest);
  }

  lemma StepNothing()
    ensures StepOf("") == Finished && Steps("") == ([], Done) && AllMeant([]) == []
  {
  }

  lemma AllMeantFirst(cs: seq<Typed>)
    requires cs != []
    ensures AllMeant(cs) == [Meant(cs[0])] + AllMeant(cs[1..])
  {
  }

  /** The commands after the first, each with its comma behind it instead of before. */
  lemma {:induction false} StepOthers(cs: seq<Typed>)
    requires forall c :: c in cs ==> GoodCommand(c) && c.arguments != []
    ensures cs != [] ==> Steps((Others(cs, "") + ",")[1..]) == (AllMeant(cs), Done)
    decreases |cs|
  {
    hide Body, Word, GoodArgument, StepOf, AllMeant;
    if cs != [] {
      var c, more := cs[0], cs[1..];
      var rest := (Others(more, "") + ",")[1..];
      assert (Others(cs, "") + ",")[1..] == Body(c) + (Others(more, "") + ",");
      assert Others(more, "") + "," == "," + rest by {
        if more == [] {
          assert Others(more, "") + "," == ",";
        }
      }
      StepBody(c, false, rest);
      assert Body(c) + "" + "," + rest == Body(c) + ("," + rest);
      StepOthers(more);
      AllMeantFirst(cs);
      if more == [] {
        assert rest == "";
        StepNothing();
      }
    }
  }

  /** The commands that a line hands over: as they were meant, but the first of several with an empty argument more. */
  function AsInterpreted(cs: seq<Typed>): seq<Command>
    requires cs != []
  {
    if |cs| == 1 then AllMeant(cs) else [WithEmpty(Meant(cs[0]))] + AllMeant(cs[1..])
  }

  /** A prefix without the separator ends before it. */
  lemma PrefixBefore(n: string, sep: char, rest: string, p: string)
    requires StartsWith(n + [sep] + rest, p) && sep !in p
    ensures StartsWith(n, p)
  {
    var t := n + [sep] + rest;
    assert forall i :: 0 <= i < |p| ==> t[i] == t[..|p|][i] && p[i] in p;
    assert t[|n|] == sep;
    assert n[..|p|] == t[..|p|];
  }

  /** A line is taken for raw SQL only when its first word is. */
  lemma StartOfText(c: Typed, rest: string, p: string)
    requires ' ' !in p && ',' !in p && StartsWith(Body(c) + "," + rest, p) && GoodCommand(c)
    ensures StartsWith(c.name, p)
  {
    hide Led, StartsWith;
    PrefixBefore(Body(c), ',', rest, p);
    LedShape(c.arguments);
    if c.arguments == [] {
      LedNothing();
      assert Body(c) == c.name;
    } else {
      var led := Led(c.arguments);
      assert Body(c) == c.name + [' '] + led[1..];
      PrefixBefore(c.name, ' ', led[1..], p);
    }
  }

  lemma PrefixLonger(s: string, t: string, p: string)
    requires StartsWith(s, p)
    ensures StartsWith(s + t, p)
  {
    assert (s + t)[..|p|] == s[..|p|];
  }

  lemma StartOfLine(c: Typed, blank: string, rest: string, p: string)
    requires blank in {"", " "} && ' ' !in p && ',' !in p && GoodCommand(c)
    requires StartsWith(Body(c) + blank + "," + rest, p)
    ensures StartsWith(c.name, p)
  {
    hide Body, StartsWith;
    if blank == "" {
      assert Body(c) + "" == Body(c);
      StartOfText(c, rest, p);
    } else {
      assert Body(c) + blank + "," + rest == Body(c) + [' '] + ("," + rest);
      PrefixBefore(Body(c), ' ', "," + rest, p);
      PrefixLonger(Body(c), "," + rest, p);
      assert Body(c) + ("," + rest) == Body(c) + "," + rest;
      StartOfText(c, rest, p);
    }
  }

  lemma OthersStart(cs: seq<Typed>)
    ensures var s := Others(cs, "") + ","; s != [] && s[0] == ',' && (cs == [] ==> s == ",")
  {
  }

  /** Running a typed line interprets its commands. */
  lemma RunOfLine(cs: seq<Typed>, gap: string)
    requires GoodLine(cs) && IsGap(gap)
    ensures RunText(Line(cs, gap)) == (AsInterpreted(cs), Done)
  {
    hide Prepared, StepOf, Body, Word, GoodArgument, Others, StartsWith, AllMeant;
    var c, more, several := cs[0], cs[1..], |cs| > 1;
    PrepareLine(cs, gap);
    var others := Others(more, "") + ",";
    var blank := if several then " " else "";
    var text := PreparedLine(cs) + ",";
    OthersStart(more);
    var rest := others[1..];
    assert others == "," + rest;
    assert text == Body(c) + blank + "," + rest;
    if StartsWith(text, "select") {
      StartOfLine(c, blank, rest, "select");
    }
    if StartsWith(text, "SELECT") {
      StartOfLine(c, blank, rest, "SELECT");
    }
    StepBody(c, several, rest);
    StepOthers(more);
    AllMeantFirst(cs);
    StepNothing();
    if !several {
      assert more == [] && rest == "";
    }
  }

  lemma {:induction false} OthersText(cs: seq<Typed>, gap: string)
    requires IsGap(gap) && forall c :: c in cs ==> GoodCommand(c)
    ensures CText(Others(cs, gap))
    decreases |cs|
  {
    hide GoodCommand, Body;
    if cs != [] {
      BodyShape(cs[0]);
      OthersText(cs[1..], gap);
    }
  }

  lemma LineText(cs: seq<Typed>, gap: string)
    requires GoodLine(cs) && IsGap(gap)
    ensures CText(Line(cs, gap))
  {
    hide GoodCommand, Body, Others, IsGap, SingleBlanks;
    BodyShape(cs[0]);
    OthersText(cs[1..], gap);
  }

  /** The loop run on a typed line hands over exactly the commands that were meant. */
  method InterpretTyped(line: string, ghost cs: seq<Typed>, ghost gap: string)
    returns (interpreted: seq<Command>, ending: Ending)
    requires GoodLine(cs) && IsGap(gap) && line == Line(cs, gap)
    ensures interpreted == AsInterpreted(cs) && ending == Done
  {
    hide GoodLine, IsGap, RunText, Line, AsInterpreted;
    LineText(cs, gap);
    RunOfLine(cs, gap);
    interpreted, ending := InterpreterRun(line);
  }
}
