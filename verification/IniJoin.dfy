/** Lines that are continued: what the reader makes of any lines that are printed one below the other. */
module IniJoin {
  import opened Wrappers
  import opened IniText
  import opened IniLine
  import opened IniLoad
  import opened IniDump
  import opened IniRoundTrip
  import opened Dictionary

  // ---------------------------------------------------------------- Nothing that is loaded has a newline

  predicate Unbroken(ls: seq<string>) {
    forall l :: l in ls ==> '\n' !in l
  }

  lemma TrimmedUnbroken(line: string)
    requires '\n' !in line[..if line == "" then 0 else |line| - 1]
    ensures '\n' !in TrimRight(line)
  {
    var b := TrimRightParts(line);
    var t := TrimRight(line);
    forall i | 0 <= i < |t|
      ensures t[i] != '\n'
    {
      assert t[i] == line[i];
      if i < |line| - 1 {
        assert line[..|line| - 1][i] == line[i];
      } else {
        assert IsSpace('\n') && !IsSpace(t[|t| - 1]);
      }
    }
  }

  lemma {:induction false} LogicalUnbroken(text: string, pending: string)
    requires |pending| < ASCIILINESZ - 2 && '\n' !in pending
    ensures Unbroken(Logical(text, pending).lines)
    decreases |text|
  {
    hide TrimRight, ChunkLength;
    if text != "" {
      LogicalStep(text, pending);
      var n := ChunkLength(text, ASCIILINESZ - 1 - |pending|);
      var line := pending + text[..n];
      if line[|line| - 1] == '\n' {
        assert forall i :: 0 <= i < n - 1 ==> text[i] != '\n';
        assert line[..|line| - 1] == pending + text[..n - 1];
        TrimmedUnbroken(line);
        var t := TrimRight(line);
        if Continues(t) {
          LogicalUnbroken(text[n..], t[..|t| - 1]);
        } else {
          LogicalUnbroken(text[n..], "");
        }
      }
    }
  }

  ghost predicate UnbrokenEntries(m: Entries) {
    forall k :: k in m ==> '\n' !in k && (m[k].Some? ==> '\n' !in m[k].value)
  }

  lemma StepUnbroken(r: Reading, l: string)
    requires UnbrokenEntries(r.entries) && '\n' !in r.section && '\n' !in l
    ensures UnbrokenEntries(Step(r, l).entries) && '\n' !in Step(r, l).section
  {
    hide ParseLine, KeyFits;
    match ParseLine(l, r.section)
    case LineSection(s) => SectionKept(l, r.section, '\n');
    case LineValue(k, v) => ReadKept(l, r.section, '\n');
    case _ =>
  }

  lemma NothingUnbroken()
    ensures UnbrokenEntries(START.entries)
  {
  }

  lemma {:induction false} FoldUnbroken(ls: seq<string>)
    requires Unbroken(ls)
    ensures UnbrokenEntries(Fold(START, ls).entries) && '\n' !in Fold(START, ls).section
    decreases |ls|
  {
    hide Step, UnbrokenEntries;
    if ls == [] {
      NothingUnbroken();
    } else {
      FoldUnbroken(ls[..|ls| - 1]);
      StepUnbroken(Fold(START, ls[..|ls| - 1]), ls[|ls| - 1]);
    }
  }

  // ---------------------------------------------------------------- Lines joined

  /** The logical lines of printed lines; a line that is continued past the last one is lost. */
  function Join(ls: seq<string>, pending: string): seq<string>
    decreases |ls|
  {
    if ls == [] then []
    else
      var t := TrimRight(pending + ls[0]);
      if Continues(t) then Join(ls[1..], t[..|t| - 1]) else [t] + Join(ls[1..], "")
  }

  lemma {:induction false} ChunkOfLong(line: string, rest: string, room: nat)
    requires '\n' !in line && |line| >= room
    ensures ChunkLength(line + rest, room) == room
    decreases room
  {
    if room > 0 {
      assert (line + rest)[0] == line[0] && line[0] in line;
      assert (line + rest)[1..] == line[1..] + rest;
      ChunkOfLong(line[1..], rest, room - 1);
    }
  }

  /** A first physical line that is too long. */
  lemma LongLine(l: string, rest: string, pending: string)
    requires '\n' !in l && |pending| < ASCIILINESZ - 2 && |pending| + |l| >= ASCIILINESZ - 1
    ensures Logical(l + "\n" + rest, pending) == Lines([], false)
  {
    hide TrimRight, Logical;
    var text, room := l + "\n" + rest, ASCIILINESZ - 1 - |pending|;
    LogicalStep(text, pending);
    assert text == l + ("\n" + rest);
    ChunkOfLong(l, "\n" + rest, room);
    assert text[..room] == l[..room];
    var line := pending + text[..room];
    assert line[|line| - 1] == l[room - 1] && l[room - 1] in l;
  }

  /** A first physical line that ends in time. */
  lemma ShortLine(l: string, rest: string, pending: string)
    requires '\n' !in l && |pending| + |l| < ASCIILINESZ - 1 && |pending| < ASCIILINESZ - 2
    ensures var t := TrimRight(pending + l);
      && |t| < ASCIILINESZ - 1
      && Logical(l + "\n" + rest, pending)
      == if Continues(t) then Logical(rest, t[..|t| - 1]) else Prepend([t], Logical(rest, ""))
  {
    hide TrimRight, Logical;
    var b := TrimRightParts(pending + l);
    var text, n := l + "\n" + rest, |l| + 1;
    LogicalStep(text, pending);
    ChunkOfLine(l, rest, ASCIILINESZ - 1 - |pending|);
    assert text[..n] == l + "\n" && text[n..] == rest;
    assert pending + (l + "\n") == pending + l + "\n";
    TrimNewline(pending + l);
  }

  /** When loading comes to the end of the lines, each of them was short, and they are joined as they stand. */
  lemma {:induction false} LogicalOfLines(ls: seq<string>, pending: string)
    requires Unbroken(ls) && |pending| < ASCIILINESZ - 2 && Logical(Unlines(ls), pending).ended
    ensures Logical(Unlines(ls), pending).lines == Join(ls, pending)
    ensures forall l :: l in ls ==> |l| < ASCIILINESZ - 1
    decreases |ls|
  {
    hide Logical, TrimRight;
    if ls == [] {
      AllSeen([], pending, true);
    } else {
      var l, rest := ls[0], ls[1..];
      assert ls == [l] + rest && l in ls && forall x :: x in rest ==> x in ls;
      UnlinesPrepend(l, rest);
      if |pending| + |l| >= ASCIILINESZ - 1 {
        LongLine(l, Unlines(rest), pending);
      }
      ShortLine(l, Unlines(rest), pending);
      var t := TrimRight(pending + l);
      var b := TrimRightParts(pending + l);
      LogicalOfLines(rest, if Continues(t) then t[..|t| - 1] else "");
    }
  }

  // ---------------------------------------------------------------- What lines weigh

  predicate Blank(l: string) {
    TrimRight(l) == ""
  }

  /** Two ways to count lines: those that are not blank, and those with a closing bracket that are no headers. */
  datatype Measure = Filled | Bracketed

  function Weight(f: Measure, l: string): nat {
    match f
    case Filled => if Blank(l) then 0 else 1
    case Bracketed => if ']' in l && !IsHeader(l) then 1 else 0
  }

  function Weigh(f: Measure, ls: seq<string>): nat {
    if ls == [] then 0 else Weigh(f, ls[..|ls| - 1]) + Weight(f, ls[|ls| - 1])
  }

  lemma WeighOne(f: Measure, ls: seq<string>, l: string)
    ensures Weigh(f, ls + [l]) == Weigh(f, ls) + Weight(f, l)
  {
    assert (ls + [l])[..|ls|] == ls;
  }

  lemma {:induction false} WeighAppend(f: Measure, a: seq<string>, b: seq<string>)
    ensures Weigh(f, a + b) == Weigh(f, a) + Weigh(f, b)
    decreases |b|
  {
    hide Weight;
    if b == [] {
      assert a + b == a;
    } else {
      assert (a + b)[..|a + b| - 1] == a + b[..|b| - 1];
      WeighAppend(f, a, b[..|b| - 1]);
    }
  }

  lemma WeighFirst(f: Measure, l: string, ls: seq<string>)
    ensures Weigh(f, [l] + ls) == Weight(f, l) + Weigh(f, ls)
  {
    hide Weight;
    WeighAppend(f, [l], ls);
    assert [l][..0] == [] && Weigh(f, [l]) == Weigh(f, []) + Weight(f, l);
  }

  lemma {:induction false} BlankBehind(p: string, l: string)
    requires Blank(l)
    ensures TrimRight(p + l) == TrimRight(p)
    decreases |l|
  {
    if l == "" {
      assert p + l == p;
    } else {
      var n := |l| - 1;
      assert IsSpace(l[n]);
      assert (p + l)[..|p + l| - 1] == p + l[..n];
      BlankBehind(p, l[..n]);
    }
  }

  lemma TrimTwice(l: string)
    ensures TrimRight(TrimRight(l)) == TrimRight(l)
  {
    var b := TrimRightParts(l);
  }

  lemma StepBlankLine(r: Reading, l: string)
    requires Blank(l)
    ensures Step(r, l) == r
  {
    hide Step;
    StepTrimmed(r, l);
    StepBlank(r);
  }

  lemma OneMore(m: Entries, k: string, v: Option<string>)
    ensures |m[k := v]| <= |m| + 1
  {
    assert m[k := v].Keys == m.Keys + {k};
  }

  lemma StepOne(r: Reading, l: string)
    ensures |Step(r, l).entries| <= |r.entries| + Weight(Filled, l)
  {
    hide ParseLine, KeyFits;
    if Blank(l) {
      StepBlankLine(r, l);
    } else {
      match ParseLine(l, r.section)
      case LineSection(s) => OneMore(r.entries, s, None);
      case LineValue(k, v) => OneMore(r.entries, r.section + ":" + k, Some(v));
      case _ =>
    }
  }

  /** Every association that is stored takes a line of its own that is not blank. */
  lemma {:induction false} StoredLines(ls: seq<string>)
    ensures |Fold(START, ls).entries| <= Weigh(Filled, ls)
    decreases |ls|
  {
    hide Step, Weight;
    if ls != [] {
      StoredLines(ls[..|ls| - 1]);
      StepOne(Fold(START, ls[..|ls| - 1]), ls[|ls| - 1]);
    }
  }

  // ---------------------------------------------------------------- Lines whose continuation is blank

  lemma TrimPrefix(l: string)
    ensures |TrimRight(l)| <= |l| && TrimRight(l) == l[..|TrimRight(l)|]
  {
    var b := TrimRightParts(l);
  }

  /** A line without its marks of continuation. */
  function Shear(l: string): (r: string)
    ensures |r| <= |l| && r == l[..|r|]
    decreases |l|
  {
    var t := TrimRight(l);
    TrimPrefix(l);
    if Continues(t) then Shear(t[..|t| - 1]) else l
  }

  function ShearAll(ls: seq<string>): (r: seq<string>)
    ensures |r| == |ls|
  {
    seq(|ls|, i requires 0 <= i < |ls| => Shear(ls[i]))
  }

  /** What was continued so far: nothing, or a line that is not blank. */
  predicate Pending(p: string) {
    p == "" || !Blank(p)
  }

  lemma WeightTrimmed(l: string)
    ensures Weight(Filled, TrimRight(l)) == Weight(Filled, l) <= 1
    ensures Continues(TrimRight(l)) ==> Weight(Filled, l) == 1
  {
    TrimTwice(l);
  }

  lemma JoinedWeight(p: string, l: string)
    ensures Weight(Filled, p + l) <= Weight(Filled, p) + Weight(Filled, l)
  {
    if Blank(l) {
      BlankBehind(p, l);
    }
  }

  lemma NoWeight()
    ensures Weight(Filled, "") == 0 && Weigh(Filled, []) == 0
  {
  }

  /** Joining lines makes no more of them. */
  lemma {:induction false} JoinLoses(ls: seq<string>, p: string)
    ensures Weigh(Filled, Join(ls, p)) <= Weigh(Filled, ls) + Weight(Filled, p)
    decreases |ls|
  {
    hide Weight, Weigh, TrimRight;
    NoWeight();
    if ls != [] {
      var l, rest := ls[0], ls[1..];
      var t := TrimRight(p + l);
      assert ls == [l] + rest;
      WeighFirst(Filled, l, rest);
      JoinedWeight(p, l);
      WeightTrimmed(p + l);
      if Continues(t) {
        JoinLoses(rest, t[..|t| - 1]);
        WeightTrimmed(t[..|t| - 1]);
      } else {
        JoinLoses(rest, "");
        WeighFirst(Filled, t, Join(rest, ""));
      }
    }
  }

  lemma ShearStep(l: string)
    ensures var t := TrimRight(l); Shear(l) == if Continues(t) then Shear(t[..|t| - 1]) else l
  {
    TrimPrefix(l);
  }

  /** A line and what was continued before it, when only one of the two is there. */
  lemma StepJoined(r: Reading, p: string, l: string)
    requires p == "" || Blank(l)
    ensures var t := TrimRight(p + l);
      Step(Step(r, Shear(p)), Shear(l)) == Step(r, if Continues(t) then Shear(t[..|t| - 1]) else t)
  {
    hide Step, TrimRight, Shear;
    TrimPrefix("");
    ShearStep(p);
    ShearStep(l);
    StepBlank(r);
    if p == "" {
      assert p + l == l;
      StepTrimmed(r, l);
    } else {
      BlankBehind(p, l);
      StepBlankLine(Step(r, Shear(p)), l);
      StepTrimmed(r, p);
    }
  }

  lemma FoldFirst(r: Reading, l: string, ls: seq<string>)
    ensures Fold(r, [l] + ls) == Fold(Step(r, l), ls)
  {
    hide Step;
    FoldAppend(r, [l], ls);
    assert [l][..0] == [] && Fold(r, [l]) == Step(Fold(r, []), l);
  }

  lemma StartJoining(r: Reading, ls: seq<string>)
    ensures Fold(Step(r, Shear("")), ls) == Fold(r, ls) && ShearAll([]) == []
  {
    hide Step;
    ShearStep("");
    StepBlank(r);
  }

  /** When joining makes no fewer lines either, it only took marks of continuation away. */
  lemma {:induction false} JoinShears(r: Reading, ls: seq<string>, p: string)
    requires Pending(p) && Weigh(Filled, Join(ls, p)) == Weigh(Filled, ls) + Weight(Filled, p)
    ensures Fold(r, Join(ls, p)) == Fold(Step(r, Shear(p)), ShearAll(ls))
    decreases |ls|
  {
    hide Weigh, TrimRight, Fold, Step, Shear;
    NoWeight();
    if ls == [] {
      StartJoining(r, []);
    } else {
      var l, rest := ls[0], ls[1..];
      var t := TrimRight(p + l);
      assert ls == [l] + rest && ShearAll(ls) == [Shear(l)] + ShearAll(rest);
      WeighFirst(Filled, l, rest);
      JoinedWeight(p, l);
      WeightTrimmed(p + l);
      FoldFirst(Step(r, Shear(p)), Shear(l), ShearAll(rest));
      if Continues(t) {
        JoinLoses(rest, t[..|t| - 1]);
        StepJoined(r, p, l);
        JoinShears(r, rest, t[..|t| - 1]);
      } else {
        JoinLoses(rest, "");
        WeighFirst(Filled, t, Join(rest, ""));
        StepJoined(r, p, l);
        JoinShears(Step(r, t), rest, "");
        StartJoining(Step(r, t), ShearAll(rest));
        FoldFirst(r, t, Join(rest, ""));
      }
    }
  }

  /** Lines as many as the associations they load were read one by one, but for their marks of continuation. */
  lemma LoadedLines(ls: seq<string>, m: Entries)
    requires Unbroken(ls) && LoadText(Unlines(ls)) == Loaded(m) && Weigh(Filled, ls) <= |m|
    ensures Fold(START, ShearAll(ls)) == Fold(START, Join(ls, "")) && Fold(START, ShearAll(ls)).entries == m
    ensures !Fold(START, ShearAll(ls)).overrun && Fold(START, ShearAll(ls)).errs == 0
    ensures forall l :: l in ls ==> |l| < ASCIILINESZ - 1
  {
    hide Logical, Fold, Weigh;
    LogicalOfLines(ls, "");
    NoWeight();
    StoredLines(Join(ls, ""));
    JoinLoses(ls, "");
    JoinShears(START, ls, "");
    StartJoining(START, ShearAll(ls));
  }
}
