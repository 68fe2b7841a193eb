/** Exactly which typed lines hand over the commands that were meant. */
module TokenizerExact {
  import opened Wrappers
  import opened Strings
  import opened Tokenizer
  import opened TokenizerRoundTrip

  // ---------------------------------------------------------------- What preparation keeps

  lemma BlanksStep(s: string)
    requires s != [] && ',' !in s
    ensures Consumed(s) == 1 ==> (SingleBlanks(s) <==> SingleBlanks(s[1..]))
    ensures Consumed(s) != 1 ==> !SingleBlanks(s)
  {
    assert s[0] in s;
    assert forall i :: 0 <= i < |s| - 1 ==> s[1..][i] == s[i + 1];
    if SingleBlanks(s[1..]) && Consumed(s) == 1 {
      forall i | 0 <= i < |s| - 1
        ensures !(s[i] == ' ' && s[i + 1] == ' ')
      {
        if i > 0 {
          assert s[1..][i - 1] == s[i] && s[1..][i] == s[i + 1];
        }
      }
    }
    if SingleBlanks(s) {
      SingleBlanksTail(s);
    }
  }

  /** Without commas preparation only drops blanks, and none exactly when no two stand in a row. */
  lemma {:induction false} Shrinks(s: string, flagfirst: bool)
    requires ',' !in s
    ensures var p := Prepared(s, flagfirst);
      && |p| <= |s| && (|p| == |s| <==> SingleBlanks(s)) && forall c :: c in p ==> c in s
    decreases |s|
  {
    hide Prepared;
    if s == [] {
      PreparedNothing(flagfirst);
    } else {
      assert s[0] in s;
      PreparedStep(s, flagfirst);
      Shrinks(s[Consumed(s)..], flagfirst);
      BlanksStep(s);
    }
  }

  lemma BlanksBefore(s: string)
    requires SingleBlanks(s)
    ensures SingleBlanks(s + ";")
  {
    assert forall i :: 0 <= i < |s| ==> (s + ";")[i] == s[i];
  }

  lemma BlanksWithin(s: string, t: string)
    requires !SingleBlanks(s)
    ensures !SingleBlanks(s + t)
  {
    var i :| 0 <= i < |s| - 1 && s[i] == ' ' && s[i + 1] == ' ';
    assert (s + t)[i] == ' ' && (s + t)[i + 1] == ' ';
  }

  /** A statement without commas is handed on as it stands exactly when no two blanks stand in a row. */
  lemma PreparedExact(s: string, flagfirst: bool)
    requires ',' !in s
    ensures Prepared(s + ";", flagfirst) == s + ";" <==> SingleBlanks(s)
  {
    hide Prepared;
    Shrinks(s + ";", flagfirst);
    if SingleBlanks(s) {
      BlanksBefore(s);
      PrepareClean(s + ";", "", flagfirst);
      PreparedNothing(flagfirst);
      assert s + ";" + "" == s + ";";
    } else {
      BlanksWithin(s, ";");
    }
  }

  /** Preparation works on either side of a character that is no blank. */
  lemma {:induction false} PrepareSplit(s: string, rest: string, flagfirst: bool)
    requires ',' !in s && rest != [] && rest[0] != ' '
    ensures Prepared(s + rest, flagfirst) == Prepared(s, flagfirst) + Prepared(rest, flagfirst)
    decreases |s|
  {
    hide Prepared;
    if s == [] {
      PreparedNothing(flagfirst);
      assert s + rest == rest && [] + Prepared(rest, flagfirst) == Prepared(rest, flagfirst);
    } else {
      var n := Consumed(s);
      assert s[0] in s && (s + rest)[0] == s[0] && (|s| > 1 ==> (s + rest)[1] == s[1]);
      assert Consumed(s + rest) == n && (s + rest)[n..] == s[n..] + rest;
      PreparedStep(s, flagfirst);
      PreparedStep(s + rest, flagfirst);
      PrepareSplit(s[n..], rest, flagfirst);
    }
  }

  // ---------------------------------------------------------------- The text that is stepped through

  /** The prepared statement with its semicolon replaced. */
  function Ready(x: string, flagfirst: bool): string {
    var p := Prepared(x + ";", flagfirst);
    if p == [] then [] else p[..|p| - 1] + ","
  }

  lemma ReadyClean(a: string, x: string, flagfirst: bool)
    requires ',' !in a && SingleBlanks(a) && (a == [] || a[|a| - 1] != ' ')
    ensures Ready(a + x, flagfirst) == a + Ready(x, flagfirst)
  {
    hide Prepared, SingleBlanks;
    assert a + x + ";" == a + (x + ";");
    PrepareClean(a, x + ";", flagfirst);
    LastKept(x + ";", flagfirst);
    var p := Prepared(x + ";", flagfirst);
    assert (a + p)[..|a + p| - 1] + "," == a + (p[..|p| - 1] + ",");
  }

  /** One turn of preparation in front of more text. */
  lemma ReadyStep(x: string, flagfirst: bool)
    requires x != [] && !(x[0] == ',' && !flagfirst)
    ensures var n := Consumed(x + ";"); n <= |x| && Ready(x, flagfirst) == [x[0]] + Ready(x[n..], flagfirst)
  {
    hide Prepared;
    var s := x + ";";
    var n := Consumed(s);
    assert s[|x|] == ';';
    assert s[n..] == x[n..] + ";";
    PreparedStep(s, flagfirst);
    LastKept(s[n..], flagfirst);
    var p := Prepared(s[n..], flagfirst);
    assert "" + [s[0]] + p == [x[0]] + p;
    assert ([x[0]] + p)[..|p|] + "," == [x[0]] + (p[..|p| - 1] + ",");
  }

  lemma ReadyNothing(flagfirst: bool)
    ensures Ready("", flagfirst) == ","
  {
    PrepareSemicolon(flagfirst);
    assert "" + ";" == ";" && ";"[..0] == "";
  }

  lemma AtLeastTwo(x: string, flagfirst: bool)
    requires x != []
    ensures |Prepared(x + ";", flagfirst)| >= 2
  {
    hide Prepared;
    var s := x + ";";
    var n := Consumed(s);
    assert s[|x|] == ';';
    PreparedStep(s, flagfirst);
    LastKept(s[n..], flagfirst || s[0] == ',');
  }

  /** What it begins with: the first character, or the blank before the first comma. */
  lemma ReadyFirst(x: string, flagfirst: bool)
    ensures Ready(x, flagfirst) != []
    ensures Ready(x, flagfirst)[0] == if x == [] then ',' else if x[0] == ',' && !flagfirst then ' ' else x[0]
  {
    hide Prepared;
    if x == [] {
      ReadyNothing(flagfirst);
      assert x == "";
    } else {
      PreparedStep(x + ";", flagfirst);
      LastKept(x + ";", flagfirst);
      var p := Prepared(x + ";", flagfirst);
      LastKept((x + ";")[1..], flagfirst);
      AtLeastTwo(x, flagfirst);
      assert p[..|p| - 1][0] == p[0];
    }
  }

  /** The part of a text before its first comma. */
  function Before(w: string): (t: string)
    ensures ',' !in t && |t| <= |w| && t == w[..|t|]
  {
    w[..Find(w, ',')]
  }

  // ---------------------------------------------------------------- The first argument that is read

  lemma FirstQuoted(bn: string)
    requires bn != [] && bn[0] == QUOTE
    ensures var r, n := Arguments(bn), Find(bn[1..], QUOTE);
      r.Some? && r.value != [] ==> n + 3 <= |bn| && r.value[0] == bn[1..1 + n]
  {
    hide Find;
  }

  lemma FirstPlain(bn: string)
    requires bn == [] || bn[0] != QUOTE
    ensures var r, n := Arguments(bn), if Find(bn, ' ') < |bn| then Find(bn, ' ') else Find(bn, ',');
      r.Some? && r.value != [] ==> r.value[0] == bn[..n]
  {
    hide Find;
  }

  lemma QuotedCut(t: string)
    requires ',' !in t && t != [] && t[0] == QUOTE
    ensures var bn := t + ",";
      var n := Find(bn[1..], QUOTE);
      n + 3 <= |bn| ==> var a := bn[1..1 + n]; ',' !in a && QUOTE !in a && StartsWith(t[1..], a + [QUOTE])
  {
    hide Find;
    var bn := t + ",";
    var n := Find(bn[1..], QUOTE);
    if n + 3 <= |bn| {
      var a := bn[1..1 + n];
      assert a == bn[1..][..n] == t[1..][..n];
      assert t[1..][n] == bn[1..][n] == QUOTE;
      assert t[1..][..n + 1] == a + [QUOTE];
    }
  }

  lemma PlainCut(t: string)
    requires ',' !in t
    ensures var bn := t + ",";
      var n := if Find(bn, ' ') < |bn| then Find(bn, ' ') else Find(bn, ',');
      ',' !in bn[..n] && ' ' !in bn[..n]
  {
    hide Find;
    var bn := t + ",";
    if Find(bn, ' ') < |bn| {
      assert bn[|t|] == ',' && bn[..Find(bn, ' ')] == t[..Find(bn, ' ')];
    } else {
      FindAt(t, ',', "");
      assert t + [','] + "" == bn && bn[..|t|] == t && bn[..Find(bn, ' ')] == bn;
      assert forall c :: c in t ==> c in bn;
    }
  }

  /** It has no comma; a quoted one ends at the next quote, and any other has no blank. */
  lemma FirstRead(t: string)
    requires ',' !in t
    ensures var r := Arguments(t + ",");
      r.Some? && r.value != [] ==>
        var a := r.value[0];
        && ',' !in a
        && if t != [] && t[0] == QUOTE then QUOTE !in a && StartsWith(t[1..], a + [QUOTE]) else ' ' !in a
  {
    hide Find, Arguments, StartsWith;
    var bn := t + ",";
    assert bn[0] == if t == [] then ',' else t[0];
    if t != [] && t[0] == QUOTE {
      FirstQuoted(bn);
      QuotedCut(t);
    } else {
      FirstPlain(bn);
      PlainCut(t);
    }
  }

  /** A text that is cut by its first quote in one place only. */
  lemma SameCut(w: string, a: string, b: string)
    requires QUOTE !in a && QUOTE !in b && StartsWith(w, a + [QUOTE]) && StartsWith(w, b + [QUOTE])
    ensures |a| == |b|
  {
    var u, v := w[|a| + 1..], w[|b| + 1..];
    assert w == a + [QUOTE] + u && w == b + [QUOTE] + v;
    FindAt(a, QUOTE, u);
    FindAt(b, QUOTE, v);
  }

  lemma ReadySplit(s: string, q: string, flagfirst: bool)
    requires ',' !in s && q != [] && q[0] != ' '
    ensures Ready(s + q, flagfirst) == Prepared(s, flagfirst) + Ready(q, flagfirst)
  {
    hide Prepared;
    var p := Prepared(s, flagfirst);
    assert s + q + ";" == s + (q + ";");
    PrepareSplit(s, q + ";", flagfirst);
    LastKept(q + ";", flagfirst);
    var z := Prepared(q + ";", flagfirst);
    assert (p + z)[..|p + z| - 1] + "," == p + (z[..|z| - 1] + ",");
  }

  lemma PrefixTail(w: string, t: string, a: string)
    requires t != [] && |t| <= |w| && t == w[..|t|] && StartsWith(t[1..], a)
    ensures StartsWith(w[1..], a)
  {
    assert w[1..][..|a|] == t[1..][..|a|];
  }

  lemma QuoteFirst(w: string)
    requires w != [] && w[0] == QUOTE
    ensures Before(w) != [] && Before(w)[0] == QUOTE
  {
  }

  /** A quoted argument with a comma, a quote or two blanks in a row is never read as it was typed. */
  lemma BadQuoted(s: string, tail: string, flagfirst: bool)
    requires CText(s) && !GoodArgument(InQuotes(s))
    ensures var r := Arguments(Before([QUOTE] + Ready(s + [QUOTE] + tail, flagfirst)) + ",");
      r.Some? && r.value != [] ==> r.value[0] != s
  {
    hide Prepared, Arguments, Find, SingleBlanks, Ready, Before;
    var x := s + [QUOTE] + tail;
    var w := [QUOTE] + Ready(x, flagfirst);
    var t := Before(w);
    ReadyFirst(x, flagfirst);
    QuoteFirst(w);
    FirstRead(t);
    var r := Arguments(t + ",");
    if r.Some? && r.value != [] && r.value[0] == s {
      Shrinks(s, flagfirst);
      var p, q := Prepared(s, flagfirst), [QUOTE] + tail;
      assert x == s + q;
      ReadySplit(s, q, flagfirst);
      ReadyFirst(q, flagfirst);
      var u := Ready(x, flagfirst);
      assert u[..|p| + 1] == p + [QUOTE];
      assert w[1..] == u;
      PrefixTail(w, t, s + [QUOTE]);
      SameCut(u, s, p);
    }
  }

  lemma BeforeFirst(w: string)
    requires w != []
    ensures if w[0] == ',' then Before(w) == [] else Before(w) != [] && Before(w)[0] == w[0]
  {
  }

  /** A plain argument with a comma, a blank or a quote in front is never read as it was typed. */
  lemma BadPlain(s: string, tail: string, flagfirst: bool)
    requires CText(s) && s != [] && !GoodArgument(Plain(s)) && (tail == [] || tail[0] in {' ', ','})
    ensures var u := Ready(" " + s + tail, flagfirst); u != [] && u == " " + u[1..]
    ensures var r := Arguments(Before(Ready(" " + s + tail, flagfirst)[1..]) + ",");
      r.Some? && r.value != [] ==> r.value[0] != s
  {
    hide Prepared, Arguments, Find, Ready;
    var x := " " + s + tail;
    assert x[0] == ' ' && x[1] == s[0];
    ReadyFirst(x, flagfirst);
    ReadyStep(x, flagfirst);
    var n := Consumed(x + ";");
    var rest := x[n..];
    var w := Ready(rest, flagfirst);
    assert Ready(x, flagfirst) == [' '] + w && Ready(x, flagfirst)[1..] == w;
    ReadyFirst(rest, flagfirst);
    var t := Before(w);
    FirstRead(t);
    BeforeFirst(w);
    assert (x + ";")[0] == ' ' && (x + ";")[1] == s[0];
    assert s[0] in s;
    if s[0] == ' ' {
      assert n == 2 && rest == s[1..] + tail;
      assert |s| > 1 ==> rest[0] == s[1] && s[1] in s;
      assert |s| == 1 ==> rest == tail;
    } else {
      assert n == 1 && rest == s + tail;
    }
  }

  // ---------------------------------------------------------------- One command

  /** What a user can type as an argument: any text between quotes, any text that is not empty without them. */
  predicate TypableArgument(a: Argument) {
    CText(a.text) && (a.Plain? ==> a.text != [])
  }

  predicate TypableCommand(c: Typed) {
    Word(c.name) && |c.arguments| <= MAX_ARGUMENTS && forall a :: a in c.arguments ==> TypableArgument(a)
  }

  lemma {:induction false} LedAppend(a: seq<Argument>, b: seq<Argument>)
    ensures Led(a + b) == Led(a) + Led(b)
    decreases |a|
  {
    hide ArgumentText;
    if a == [] {
      LedNothing();
      assert a + b == b;
    } else {
      assert (a + b)[0] == a[0] && (a + b)[1..] == a[1..] + b;
      LedAppend(a[1..], b);
    }
  }

  lemma FollowingFirst(a: string, ss: seq<string>, r: Option<seq<string>>)
    ensures Preceded(a, Following(ss, r)) == Following([a] + ss, r)
  {
    if r.Some? {
      assert [a] + (ss + r.value) == ([a] + ss) + r.value;
    }
  }

  /** Good arguments are read, whatever comes behind them. */
  lemma {:induction false} ReadGood(good: seq<Argument>, x: string)
    requires good != [] && forall a :: a in good ==> GoodArgument(a)
    ensures Led(good) != []
    ensures Arguments(Led(good)[1..] + " " + x) == Following(Texts(good), Arguments(x))
    decreases |good|
  {
    hide Arguments, GoodArgument, ArgumentText, Texts, Led, SingleBlanks, CText;
    var a, more := good[0], good[1..];
    TextsFirst(good);
    LedFirst(good);
    if more == [] {
      LedNothing();
      assert ArgumentText(a) + [] == ArgumentText(a) && [a.text] + [] == [a.text];
      ReadArgument(a, ' ', x);
      assert ArgumentText(a) + " " + x == ArgumentText(a) + [' '] + x;
    } else {
      ReadGood(more, x);
      LedShape(more);
      ReadNext(a, Led(more), " " + x);
      assert ArgumentText(a) + Led(more) + (" " + x) == ArgumentText(a) + Led(more) + " " + x;
      assert Led(more)[1..] + (" " + x) == Led(more)[1..] + " " + x;
      FollowingFirst(a.text, Texts(more), Arguments(x));
    }
  }

  lemma CommaFound(a: string, w: string)
    requires ',' !in a
    ensures var go := a + w;
      Find(go, ',') == |a| + |Before(w)| && (Find(go, ',') < |go| ==> go[..Find(go, ',') + 1] == a + Before(w) + ",")
  {
    FindAfter(a, ',', w);
    var n := Find(w, ',');
    if n < |w| {
      assert w[..n + 1] == w[..n] + ",";
    }
  }

  /** A step over a name, good arguments and anything else. */
  lemma StepPrefix(name: string, good: seq<Argument>, w: string)
    requires Word(name) && forall a :: a in good ==> GoodArgument(a)
    ensures var r := StepOf(name + Led(good) + " " + w);
      r.Stepped? ==>
        var x := Arguments(Before(w) + ",");
        x.Some? && r.command.arguments == Texts(good) + x.value
  {
    hide Arguments, Find, Led, GoodArgument, SingleBlanks;
    var go, t := name + Led(good) + " " + w, Before(w);
    LedShape(good);
    var a := name + Led(good) + " ";
    if Find(go, ',') < |go| {
      CommaFound(a, w);
      var res := a + t + ",";
      var n := |name|;
      if good == [] {
        LedNothing();
        assert res == name + [' '] + (t + ",");
        FindAt(name, ' ', t + ",");
        assert res[n + 1..] == t + ",";
        assert Texts(good) == [];
        NothingRead(Arguments(t + ","));
      } else {
        var led := Led(good);
        assert res == name + [' '] + (led[1..] + " " + (t + ","));
        FindAt(name, ' ', led[1..] + " " + (t + ","));
        assert res[n + 1..] == led[1..] + " " + (t + ",");
        ReadGood(good, t + ",");
      }
    }
  }

  lemma BodySplit(c: Typed, i: nat)
    requires i < |c.arguments|
    ensures Body(c) == c.name + Led(c.arguments[..i]) + " " + ArgumentText(c.arguments[i]) + Led(c.arguments[i + 1..])
  {
    hide ArgumentText;
    var rest := c.arguments[i..];
    assert c.arguments == c.arguments[..i] + rest && rest[0] == c.arguments[i] && rest[1..] == c.arguments[i + 1..];
    LedAppend(c.arguments[..i], rest);
  }

  lemma WordBlanks(s: string)
    requires Word(s)
    ensures SingleBlanks(s)
  {
    assert forall i :: 0 <= i < |s| ==> s[i] in s;
  }

  lemma FrontClean(name: string, good: seq<Argument>)
    requires Word(name) && forall a :: a in good ==> GoodArgument(a)
    ensures var f := name + Led(good); ',' !in f && SingleBlanks(f) && f != [] && f[|f| - 1] != ' '
  {
    hide GoodArgument, SingleBlanks, Led;
    LedShape(good);
    LedNothing();
    assert name[|name| - 1] in name;
    WordBlanks(name);
    SingleBlanksJoin(name, Led(good));
  }

  lemma OneQuote(f: string)
    requires ',' !in f && SingleBlanks(f) && f != [] && f[|f| - 1] != ' '
    ensures var g := f + " " + [QUOTE]; ',' !in g && SingleBlanks(g) && g != [] && g[|g| - 1] != ' '
  {
    assert forall i :: 0 <= i < |f| ==> (f + " " + [QUOTE])[i] == f[i];
  }

  lemma AfterFirst(more: seq<Argument>, tail: string)
    requires tail == [] || tail[0] == ','
    ensures var after := Led(more) + tail; after == [] || after[0] in {' ', ','}
  {
    hide ArgumentText;
    if more == [] {
      LedNothing();
    }
  }

  lemma QuotedText(front: string, s: string, after: string)
    ensures front + " " + ArgumentText(InQuotes(s)) + after == (front + " " + [QUOTE]) + (s + [QUOTE] + after)
  {
  }

  lemma BadQuotedCommand(front: string, name: string, good: seq<Argument>, s: string, after: string, flagfirst: bool)
    requires Word(name) && (forall x :: x in good ==> GoodArgument(x)) && front == name + Led(good)
    requires CText(s) && !GoodArgument(InQuotes(s))
    ensures var r := StepOf(Ready(front + " " + ArgumentText(InQuotes(s)) + after, flagfirst));
      r.Stepped? ==> |r.command.arguments| <= |good| || r.command.arguments[|good|] != s
  {
    hide Ready, Arguments, StepOf, GoodArgument, SingleBlanks, Led, Before, ArgumentText, Word, CText;
    FrontClean(name, good);
    OneQuote(front);
    var g, x := front + " " + [QUOTE], s + [QUOTE] + after;
    QuotedText(front, s, after);
    ReadyClean(g, x, flagfirst);
    var u := Ready(x, flagfirst);
    Regroup(front + " ", [QUOTE], u);
    BadQuoted(s, after, flagfirst);
    StepPrefix(name, good, [QUOTE] + u);
  }

  lemma BadPlainCommand(front: string, name: string, good: seq<Argument>, s: string, after: string, flagfirst: bool)
    requires Word(name) && (forall x :: x in good ==> GoodArgument(x)) && front == name + Led(good)
    requires CText(s) && s != [] && !GoodArgument(Plain(s)) && (after == [] || after[0] in {' ', ','})
    ensures var r := StepOf(Ready(front + " " + ArgumentText(Plain(s)) + after, flagfirst));
      r.Stepped? ==> |r.command.arguments| <= |good| || r.command.arguments[|good|] != s
  {
    hide Ready, Arguments, StepOf, GoodArgument, SingleBlanks, Led, Before;
    FrontClean(name, good);
    var x := " " + s + after;
    assert front + " " + ArgumentText(Plain(s)) + after == front + x;
    ReadyClean(front, x, flagfirst);
    BadPlain(s, after, flagfirst);
    var u := Ready(x, flagfirst);
    assert front + u == front + " " + u[1..];
    StepPrefix(name, good, u[1..]);
  }

  /** A command with a bad argument is read with something else in its place. */
  lemma BadCommand(c: Typed, tail: string, flagfirst: bool, i: nat)
    requires TypableCommand(c) && i < |c.arguments| && (tail == [] || tail[0] == ',')
    requires (forall j :: 0 <= j < i ==> GoodArgument(c.arguments[j])) && !GoodArgument(c.arguments[i])
    ensures var r := StepOf(Ready(Body(c) + tail, flagfirst));
      r.Stepped? ==> |r.command.arguments| <= i || r.command.arguments[i] != c.arguments[i].text
  {
    hide Ready, StepOf, GoodArgument, Led, ArgumentText, Body;
    var good, a, more := c.arguments[..i], c.arguments[i], c.arguments[i + 1..];
    assert a in c.arguments && forall x :: x in good ==> GoodArgument(x);
    var front, after := c.name + Led(good), Led(more) + tail;
    BodySplit(c, i);
    AfterFirst(more, tail);
    assert Body(c) + tail == front + " " + ArgumentText(a) + after;
    match a
    case InQuotes(s) => BadQuotedCommand(front, c.name, good, s, after, flagfirst);
    case Plain(s) => BadPlainCommand(front, c.name, good, s, after, flagfirst);
  }

  // ---------------------------------------------------------------- Whole lines

  predicate GoodArguments(c: Typed) {
    forall a :: a in c.arguments ==> GoodArgument(a)
  }

  /** The first bad argument, or the number of arguments. */
  function FirstBad(arguments: seq<Argument>): (i: nat)
    ensures i <= |arguments| && forall j :: 0 <= j < i ==> GoodArgument(arguments[j])
    ensures i < |arguments| ==> !GoodArgument(arguments[i])
  {
    if arguments == [] || !GoodArgument(arguments[0]) then 0 else 1 + FirstBad(arguments[1..])
  }

  /** What can be typed in one line; only the first of several commands may be without an argument. */
  predicate Typable(cs: seq<Typed>) {
    && cs != []
    && (forall c :: c in cs ==> TypableCommand(c))
    && (forall i :: 0 < i < |cs| ==> cs[i].arguments != [])
    && (if |cs| == 1 then cs[0].arguments != [] else |cs[0].arguments| < MAX_ARGUMENTS)
    && !StartsWith(cs[0].name, "select") && !StartsWith(cs[0].name, "SELECT")
  }

  function Wanted(c: Typed, extra: bool): Command {
    if extra then WithEmpty(Meant(c)) else Meant(c)
  }

  lemma StepShorterIf(go: string)
    ensures StepOf(go).Stepped? ==> |StepOf(go).rest| < |go|
  {
    if StepOf(go).Stepped? {
      StepShorter(go);
    }
  }

  lemma StepsFirst(go: string, c: Command, more: seq<Command>)
    requires Steps(go) == ([c] + more, Done)
    ensures StepOf(go).Stepped? && StepOf(go).command == c && Steps(StepOf(go).rest) == (more, Done)
  {
    hide StepOf;
    StepShorterIf(go);
    assert ([c] + more)[0] == c && ([c] + more)[1..] == more;
    if StepOf(go).Stepped? {
      var r := Steps(StepOf(go).rest);
      assert ([StepOf(go).command] + r.0)[0] == StepOf(go).command && ([StepOf(go).command] + r.0)[1..] == r.0;
    }
  }

  lemma ReadyComma(gap: string, x: string, flagfirst: bool)
    requires IsGap(gap) && x != [] && x[0] != ' '
    ensures Ready("," + gap + x, flagfirst) == (if flagfirst then "," else " ,") + Ready(x, true)
  {
    hide Prepared;
    var s, mark := x + ";", if flagfirst then "," else " ,";
    assert "," + gap + x + ";" == "," + gap + s;
    PrepareComma(gap, s, flagfirst);
    LastKept(s, true);
    var p := Prepared(s, true);
    assert (mark + p)[..|mark + p| - 1] + "," == mark + (p[..|p| - 1] + ",");
  }

  lemma NameFirst(cs: seq<Typed>, x: string)
    requires cs != [] && (forall d :: d in cs ==> Word(d.name)) && StartsWith(x, Body(cs[0]))
    ensures x != [] && x[0] != ' '
  {
    hide Led;
    var n := cs[0].name;
    assert cs[0] in cs && n[0] in n;
    assert x[0] == Body(cs[0])[0] == n[0];
  }

  /** The text for one command, good in its arguments, and the commands behind it. */
  lemma ReadyGood(c: Typed, more: seq<Typed>, gap: string, flagfirst: bool)
    requires GoodCommand(c) && IsGap(gap) && more != [] && forall d :: d in more ==> Word(d.name)
    ensures Ready(Body(c) + Others(more, gap), flagfirst)
         == Body(c) + (if flagfirst then "" else " ") + "," + Ready(Body(more[0]) + Others(more[1..], gap), true)
  {
    hide Ready, GoodCommand, SingleBlanks, Led, CText, IsGap;
    var x := Body(more[0]) + Others(more[1..], gap);
    BodyShape(c);
    ReadyClean(Body(c), Others(more, gap), flagfirst);
    assert Others(more, gap) == "," + gap + x;
    NameFirst(more, x);
    ReadyComma(gap, x, flagfirst);
    assert Body(c) + ((if flagfirst then "," else " ,") + Ready(x, true))
        == Body(c) + (if flagfirst then "" else " ") + "," + Ready(x, true);
  }

  lemma OthersFirst(cs: seq<Typed>, gap: string)
    ensures Others(cs, gap) == [] || Others(cs, gap)[0] == ','
  {
  }

  lemma WantedAt(c: Typed, extra: bool, i: nat)
    requires i < |c.arguments|
    ensures i < |Wanted(c, extra).arguments| && Wanted(c, extra).arguments[i] == c.arguments[i].text
  {
  }

  lemma GoodNow(c: Typed)
    requires TypableCommand(c) && FirstBad(c.arguments) == |c.arguments|
    ensures GoodCommand(c) && GoodArguments(c)
  {
    hide GoodArgument, FirstBad;
    forall a | a in c.arguments
      ensures GoodArgument(a)
    {
      var j :| 0 <= j < |c.arguments| && c.arguments[j] == a;
    }
  }

  lemma NamesOfTyped(cs: seq<Typed>)
    requires forall c :: c in cs ==> TypableCommand(c)
    ensures forall c :: c in cs ==> Word(c.name)
  {
  }

  /** When the steps hand over what was meant, every argument was a good one. */
  lemma {:induction false} StepsExact(cs: seq<Typed>, gap: string, flagfirst: bool, extra: bool)
    requires cs != [] && IsGap(gap) && (forall c :: c in cs ==> TypableCommand(c))
    requires extra <==> !flagfirst && |cs| > 1
    requires (forall i :: 0 < i < |cs| ==> cs[i].arguments != []) && (extra || cs[0].arguments != [])
    requires |cs[0].arguments| + (if extra then 1 else 0) <= MAX_ARGUMENTS
    requires Steps(Ready(Body(cs[0]) + Others(cs[1..], gap), flagfirst))
          == ([Wanted(cs[0], extra)] + AllMeant(cs[1..]), Done)
    ensures forall c :: c in cs ==> GoodArguments(c)
    decreases |cs|
  {
    hide Ready, StepOf, Steps, Body, GoodArgument, TypableArgument, Word, AllMeant, Texts;
    var c, more := cs[0], cs[1..];
    var go := Ready(Body(c) + Others(more, gap), flagfirst);
    assert c in cs && forall d :: d in cs ==> d == c || d in more;
    StepsFirst(go, Wanted(c, extra), AllMeant(more));
    var i := FirstBad(c.arguments);
    if i < |c.arguments| {
      OthersFirst(more, gap);
      BadCommand(c, Others(more, gap), flagfirst, i);
      WantedAt(c, extra, i);
    } else {
      GoodNow(c);
      if more != [] {
        NamesOfTyped(more);
        ReadyGood(c, more, gap, flagfirst);
        var rest := Ready(Body(more[0]) + Others(more[1..], gap), true);
        StepBody(c, extra, rest);
        assert Body(c) + (if flagfirst then "" else " ") == Body(c) + (if extra then " " else "");
        AllMeantFirst(more);
        assert more[0] in cs;
        StepsExact(more, gap, true, false);
      }
    }
  }

  lemma StepsOfRun(cs: seq<Typed>, gap: string)
    requires cs != [] && RunText(Line(cs, gap)) == (AsInterpreted(cs), Done)
    ensures Steps(Ready(Body(cs[0]) + Others(cs[1..], gap), false))
         == ([Wanted(cs[0], |cs| > 1)] + AllMeant(cs[1..]), Done)
  {
    hide Prepared, Steps, Body, Others, AllMeant, StartsWith;
    AllMeantFirst(cs);
    if |cs| == 1 {
      assert cs[1..] == [];
    }
  }

  lemma TypableSteps(cs: seq<Typed>, gap: string)
    requires Typable(cs) && IsGap(gap)
    requires Steps(Ready(Body(cs[0]) + Others(cs[1..], gap), false))
          == ([Wanted(cs[0], |cs| > 1)] + AllMeant(cs[1..]), Done)
    ensures forall c :: c in cs ==> GoodArguments(c)
  {
    hide Ready, Steps, Body, Others, AllMeant, Wanted, GoodArguments, TypableArgument, Word, StartsWith, IsGap;
    assert cs[0] in cs;
    StepsExact(cs, gap, false, |cs| > 1);
  }

  lemma TypableGood(cs: seq<Typed>)
    requires Typable(cs) && forall c :: c in cs ==> GoodArguments(c)
    ensures GoodLine(cs)
  {
    hide Word, StartsWith, GoodArgument, TypableArgument;
  }

  /** A line that can be typed is interpreted as it was meant exactly when all its arguments are good ones. */
  lemma LineExact(cs: seq<Typed>, gap: string)
    requires Typable(cs) && IsGap(gap)
    ensures RunText(Line(cs, gap)) == (AsInterpreted(cs), Done) <==> forall c :: c in cs ==> GoodArguments(c)
  {
    hide RunText, Line, AsInterpreted, GoodArguments, TypableCommand, StartsWith, Steps, Ready, Body, Others;
    if forall c :: c in cs ==> GoodArguments(c) {
      TypableGood(cs);
      RunOfLine(cs, gap);
    }
    if RunText(Line(cs, gap)) == (AsInterpreted(cs), Done) {
      StepsOfRun(cs, gap);
      TypableSteps(cs, gap);
    }
  }

  /** A single quoted argument comes through exactly when it has no comma, no quote and no two blanks in a row. */
  lemma QuotedExact(name: string, s: string)
    requires Word(name) && !StartsWith(name, "select") && !StartsWith(name, "SELECT") && CText(s)
    ensures RunText(Line([Typed(name, [InQuotes(s)])], "")) == ([Command(name, [s])], Done)
       <==> GoodArgument(InQuotes(s))
  {
    hide RunText, Line, GoodArgument, Word, StartsWith;
    var c := Typed(name, [InQuotes(s)]);
    LineExact([c], "");
    assert InQuotes(s) in c.arguments && c in [c];
    assert Texts(c.arguments) == [s];
    assert AsInterpreted([c]) == [Command(name, [s])];
  }

  lemma SameRun(s: string, t: string)
    requires Prepared(s, false) == Prepared(t, false)
    ensures RunText(s) == RunText(t)
  {
  }

  lemma BlankKept(a: string, rest: string)
    requires ',' !in a && SingleBlanks(a) && a != [] && a[|a| - 1] != ' ' && rest != [] && rest[0] != ' '
    ensures Prepared(a + " " + rest, false) == a + " " + Prepared(rest, false)
  {
    hide Prepared;
    assert a + " " + rest == a + (" " + rest);
    PrepareClean(a, " " + rest, false);
    PreparedStep(" " + rest, false);
    assert Consumed(" " + rest) == 1 && (" " + rest)[1..] == rest;
    assert a + ("" + [' '] + Prepared(rest, false)) == a + " " + Prepared(rest, false);
  }

  /** A line on which it fails: one of the two blanks is lost. */
  lemma QuotedBlankLost()
    ensures RunText("f \'a  b\';") == ([Command("f", ["a b"])], Done)
  {
    hide RunText, Prepared;
    var c := Typed("f", [InQuotes("a b")]);
    BlanksHalved("f \'a", "b\';", false);
    BlankKept("f \'a", "b\';");
    assert "f \'a" + "  " + "b\';" == "f \'a  b\';" && "f \'a" + " " + "b\';" == "f \'a b\';";
    SameRun("f \'a  b\';", "f \'a b\';");
    assert Led([InQuotes("a b")]) == " " + ([QUOTE] + "a b" + [QUOTE]) + Led([]);
    LedNothing();
    assert Line([c], "") == "f \'a b\';";
    RunOfLine([c], "");
    assert Texts(c.arguments) == ["a b"] && AsInterpreted([c]) == [Command("f", ["a b"])];
  }
}
