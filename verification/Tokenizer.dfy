/** The command tokenizer of the query tool: preparation of a statement, single steps, and whole runs. */
module Tokenizer {
  import opened Wrappers
  import opened Strings

  // ---------------------------------------------------------------- interpreter_prepare_statement

  /** How many characters one turn of the copying loop consumes. */
  function Consumed(s: string): (n: nat)
    requires s != []
    ensures 1 <= n <= |s|
  {
    var x := if |s| >= 2 && s[0] == ',' && s[1] == ' ' then 1 else 0;
    if |s| >= x + 2 && s[x] == ' ' && s[x + 1] == ' ' then x + 2 else x + 1
  }

  /** A blank before the first comma, blanks dropped after commas, doubled blanks halved. */
  function Prepared(s: string, flagfirst: bool): (r: string)
    ensures |r| <= |s| + if flagfirst then 0 else 1
  {
    if s == [] then []
    else if s[0] == ',' && !flagfirst then " ," + Prepared(s[Consumed(s)..], true)
    else [s[0]] + Prepared(s[Consumed(s)..], flagfirst)
  }

  lemma PreparedStep(s: string, flagfirst: bool)
    requires s != []
    ensures Prepared(s, flagfirst) == (if s[0] == ',' && !flagfirst then " " else "") + [s[0]]
                                   + Prepared(s[Consumed(s)..], flagfirst || s[0] == ',')
  {
    assert " " + [','] == " ," && "" + [s[0]] == [s[0]];
  }

  lemma PreparedNothing(flagfirst: bool)
    ensures Prepared([], flagfirst) == []
  {
  }

  /** The end of the loop body: where the next turn goes on. */
  method SkipBlanks(data: string, x0: nat) returns (x: nat)
    requires x0 < |data|
    ensures x == x0 + Consumed(data[x0..])
  {
    x := x0;
    if data[x] == ',' && x + 1 < |data| && data[x + 1] == ' ' {
      x := x + 1;
    }
    if data[x] == ' ' && x + 1 < |data| && data[x + 1] == ' ' {
      x := x + 1;
    }
    x := x + 1;
  }

  /** interpreter_prepare_statement: the buffer holds two characters more than the string. */
  method InterpreterPrepareStatement(data: string) returns (output: array<char>)
    ensures fresh(output) && output.Length == |data| + 2
    ensures var p := Prepared(data, false); |p| < output.Length && output[..|p|] == p && output[|p|] == NUL
  {
    hide Consumed, Prepared, CText;
    var t := |data|;
    output := new char[t + 2];
    var x, y, flagfirst := 0, 0, false;
    ghost var done: string := [];
    assert data[0..] == data;
    while x < t
      invariant 0 <= x <= t && y == |done| <= x + (if flagfirst then 1 else 0)
      invariant output[..y] == done
      invariant done + Prepared(data[x..], flagfirst) == Prepared(data, false)
      decreases t - x
    {
      ghost var rest := data[x..];
      ghost var opening := if data[x] == ',' && !flagfirst then " " else "";
      PreparedStep(rest, flagfirst);
      ghost var before := done;
      if data[x] == ',' && !flagfirst {
        output[y] := ' ';
        y := y + 1;
        flagfirst := true;
      }
      output[y] := data[x];
      y := y + 1;
      done := before + opening + [data[x]];
      var x' := SkipBlanks(data, x);
      assert data[x'..] == rest[x' - x..];
      assert before + (opening + [rest[0]] + Prepared(data[x'..], flagfirst)) == done + Prepared(data[x'..], flagfirst);
      x := x';
    }
    PreparedNothing(flagfirst);
    assert data[x..] == [] && done + [] == done;
    output[y] := NUL;
  }

  // ---------------------------------------------------------------- interpreter_step

  /** The arguments that fit into a command. */
  const MAX_ARGUMENTS := 100

  /** A command with its arguments, as interpreter_step stores it. */
  datatype Command = Command(name: string, arguments: seq<string>)

  /** Undefined: the C code follows a null pointer, or stores beyond its array of arguments. */
  datatype Stepped = Finished | NoParameter | Undefined | Stepped(command: Command, rest: string)

  function Preceded(a: string, r: Option<seq<string>>): Option<seq<string>> {
    if r.None? then None else Some([a] + r.value)
  }

  /** The arguments in the text from bn on, which ends with the comma of its command. */
  function Arguments(bn: string): Option<seq<string>> {
    if bn != [] && bn[0] == QUOTE then
      var n := 1 + Find(bn[1..], QUOTE);
      if n + 2 > |bn| then None else Preceded(bn[1..n], Arguments(bn[n + 2..]))
    else
      var n := if Find(bn, ' ') < |bn| then Find(bn, ' ') else Find(bn, ',');
      if n == |bn| then Some([]) else Preceded(bn[..n], Arguments(bn[n + 1..]))
  }

  function StepOf(go: string): Stepped {
    var n := Find(go, ',');
    if go == [] then Finished
    else if n == |go| then Undefined
    else
      var res := go[..n + 1];
      var m := Find(res, ' ');
      if m == |res| then NoParameter
      else
        match Arguments(res[m + 1..])
        case None => Undefined
        case Some(arguments) =>
          if |arguments| > MAX_ARGUMENTS then Undefined else Stepped(Command(res[..m], arguments), go[n + 1..])
  }

  function Following(read: seq<string>, r: Option<seq<string>>): Option<seq<string>> {
    if r.None? then None else Some(read + r.value)
  }

  lemma FollowingTwice(read: seq<string>, a: string, r: Option<seq<string>>)
    ensures Following(read, Preceded(a, r)) == Following(read + [a], r)
  {
    if r.Some? {
      assert read + ([a] + r.value) == read + [a] + r.value;
    }
  }

  /** One turn of that loop. */
  lemma ArgumentsStep(bn: string, read: seq<string>)
    ensures Following(read, Arguments(bn)) ==
      if bn != [] && bn[0] == QUOTE then
        var n := 1 + Find(bn[1..], QUOTE);
        if n + 2 > |bn| then None else Following(read + [bn[1..n]], Arguments(bn[n + 2..]))
      else
        var n := if Find(bn, ' ') < |bn| then Find(bn, ' ') else Find(bn, ',');
        if n == |bn| then Some(read) else Following(read + [bn[..n]], Arguments(bn[n + 1..]))
  {
    hide Find;
    if bn != [] && bn[0] == QUOTE {
      var n := 1 + Find(bn[1..], QUOTE);
      if n + 2 <= |bn| {
        FollowingTwice(read, bn[1..n], Arguments(bn[n + 2..]));
      }
    } else {
      var n := if Find(bn, ' ') < |bn| then Find(bn, ' ') else Find(bn, ',');
      if n < |bn| {
        FollowingTwice(read, bn[..n], Arguments(bn[n + 1..]));
      } else {
        assert read + [] == read;
      }
    }
  }

  lemma NothingRead(r: Option<seq<string>>)
    ensures Following([], r) == r
  {
    if r.Some? {
      assert [] + r.value == r.value;
    }
  }

  /** The loop of interpreter_step. */
  method ReadArguments(text: string) returns (arguments: Option<seq<string>>)
    ensures arguments == Arguments(text)
  {
    hide Find, Arguments, Following;
    var read, bn := [], text;
    NothingRead(Arguments(bn));
    while true
      invariant Arguments(text) == Following(read, Arguments(bn))
      decreases |bn|
    {
      ArgumentsStep(bn, read);
      if bn != [] && bn[0] == QUOTE {
        var en := 1 + Find(bn[1..], QUOTE);
        if en + 2 > |bn| {
          return None;
        }
        read := read + [bn[1..en]];
        bn := bn[en + 2..];
        continue;
      }
      var en := Find(bn, ' ');
      if en == |bn| {
        en := Find(bn, ',');
        if en == |bn| {
          return Some(read);
        }
      }
      read := read + [bn[..en]];
      bn := bn[en + 1..];
    }
  }

  /** interpreter_step, on the string that go_through points to. */
  method InterpreterStep(goThrough: string) returns (r: Stepped)
    ensures r == StepOf(goThrough)
  {
    hide Find;
    var en := Find(goThrough, ',');
    if |goThrough| == 0 {
      return Finished;
    }
    if en == |goThrough| {
      return Undefined;
    }
    var backup, res := goThrough[en + 1..], goThrough[..en + 1];
    en := Find(res, ' ');
    if en == |res| {
      return NoParameter;
    }
    var arguments := ReadArguments(res[en + 1..]);
    if arguments.None? || |arguments.value| > MAX_ARGUMENTS {
      return Undefined;
    }
    return Stepped(Command(res[..en], arguments.value), backup);
  }

  // ---------------------------------------------------------------- interpreter_run

  /** How a run ends: after the last command, or by a message, or with a statement handed on as raw SQL. */
  datatype Ending = Done | MissingSemicolon | RawSelect(sql: string) | MissingParameter | Crashed

  lemma StepShorter(go: string)
    requires StepOf(go).Stepped?
    ensures |StepOf(go).rest| < |go|
  {
  }

  /** The commands that are interpreted, in order, and how the run ends. */
  function Steps(go: string): (r: (seq<Command>, Ending))
    decreases |go|
  {
    match StepOf(go)
    case Finished => ([], Done)
    case NoParameter => ([], MissingParameter)
    case Undefined => ([], Crashed)
    case Stepped(command, rest) =>
      StepShorter(go);
      var (commands, ending) := Steps(rest);
      ([command] + commands, ending)
  }

  function RunText(commands: string): (seq<Command>, Ending) {
    var p := Prepared(commands, false);
    if p == [] then ([], Crashed)
    else if p[|p| - 1] != ';' then ([], MissingSemicolon)
    else
      var text := p[..|p| - 1] + ",";
      if StartsWith(text, "select") || StartsWith(text, "SELECT") then ([], RawSelect(p)) else Steps(text)
  }

  /** The loop of interpreter_run. */
  method RunSteps(text: string) returns (interpreted: seq<Command>, ending: Ending)
    ensures (interpreted, ending) == Steps(text)
  {
    hide StepOf;
    interpreted := [];
    var goThrough := text;
    assert interpreted + Steps(text).0 == Steps(text).0;
    while true
      invariant Steps(text) == (interpreted + Steps(goThrough).0, Steps(goThrough).1)
      decreases |goThrough|
    {
      var r := InterpreterStep(goThrough);
      match r
      case Finished =>
        assert interpreted + [] == interpreted;
        return interpreted, Done;
      case NoParameter =>
        assert interpreted + [] == interpreted;
        return interpreted, MissingParameter;
      case Undefined =>
        assert interpreted + [] == interpreted;
        return interpreted, Crashed;
      case Stepped(command, rest) =>
        StepShorter(goThrough);
        assert interpreted + ([command] + Steps(rest).0) == interpreted + [command] + Steps(rest).0;
        interpreted := interpreted + [command];
        goThrough := rest;
    }
  }

  lemma {:induction false} PreparedText(s: string, flagfirst: bool)
    requires CText(s)
    ensures CText(Prepared(s, flagfirst))
    decreases |s|
  {
    hide Consumed, Prepared;
    if s == [] {
      PreparedNothing(flagfirst);
    } else {
      PreparedStep(s, flagfirst);
      PreparedText(s[Consumed(s)..], flagfirst || s[0] == ',');
      assert s[0] in s;
    }
  }

  /** strlen of a buffer that holds s and its terminator; s has no terminator inside. */
  method StrLen(buf: array<char>, ghost s: string) returns (n: nat)
    requires |s| < buf.Length && (forall k :: 0 <= k < |s| ==> buf[k] == s[k]) && buf[|s|] == NUL && CText(s)
    ensures n == |s|
  {
    n := 0;
    while buf[n] != NUL
      invariant n <= |s|
      decreases |s| - n
    {
      n := n + 1;
    }
    AtTerminator(s, n);
  }

  /** interpreter_run: the statement prepared in a buffer, its semicolon replaced there, and step after step. */
  method InterpreterRun(commands: string) returns (interpreted: seq<Command>, ending: Ending)
    requires CText(commands)
    ensures (interpreted, ending) == RunText(commands)
  {
    hide Prepared, Steps, StartsWith;
    var output := InterpreterPrepareStatement(commands);
    ghost var p := Prepared(commands, false);
    PreparedText(commands, false);
    var end := StrLen(output, p);
    if end == 0 {
      return [], Crashed;
    }
    if output[end - 1] == ';' {
      output[end - 1] := ',';
    } else {
      return [], MissingSemicolon;
    }
    var goThrough := output[..end];
    assert goThrough == p[..|p| - 1] + ",";
    if StartsWith(goThrough, "select") || StartsWith(goThrough, "SELECT") {
      output[end - 1] := ';';
      assert output[..end] == p;
      return [], RawSelect(output[..end]);
    }
    interpreted, ending := RunSteps(goThrough);
  }
}
