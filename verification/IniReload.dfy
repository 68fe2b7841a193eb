/** Exactly which dictionaries come back from the text that iniparser_dump_ini writes of them. */
module IniReload {
  import opened Wrappers
  import opened Strings
  import opened IniText
  import opened IniLine
  import opened IniLoad
  import opened IniDump
  import opened IniRoundTrip
  import opened IniJoin
  import opened IniExact
  import opened Dictionary
  import opened DictionaryRuns

  // ---------------------------------------------------------------- Marks of continuation

  lemma {:induction false} TrimBehind(x: string, v: string)
    requires !Blank(v)
    ensures TrimRight(x + v) == x + TrimRight(v)
    decreases |v|
  {
    if v != "" && IsSpace(v[|v| - 1]) {
      assert (x + v)[..|x + v| - 1] == x + v[..|v| - 1];
      TrimBehind(x, v[..|v| - 1]);
    }
  }

  /** A text that ends with the sign of an assignment. */
  predicate Assigning(x: string) {
    |x| >= 3 && x[|x| - 3..] == " = "
  }

  lemma AssigningTrimmed(x: string)
    requires Assigning(x)
    ensures TrimRight(x) == x[..|x| - 1] && !Continues(TrimRight(x))
  {
    assert x[|x| - 3..][1] == '=' && x[|x| - 3..][2] == ' ';
    assert TrimRight(x[..|x| - 1]) == x[..|x| - 1];
  }

  /** Only the value of an assignment can lose marks. */
  lemma {:induction false} ShearValue(x: string, v: string)
    requires Assigning(x)
    ensures Shear(x + v) == x + Shear(v)
    decreases |v|
  {
    hide TrimRight, Shear;
    var t := TrimRight(v);
    ShearStep(x + v);
    ShearStep(v);
    TrimPrefix(v);
    if t == "" {
      BlankBehind(x, v);
      AssigningTrimmed(x);
    } else {
      TrimBehind(x, v);
      assert (x + t)[|x + t| - 1] == t[|t| - 1];
      if Continues(t) {
        assert (x + t)[..|x + t| - 1] == x + t[..|t| - 1];
        ShearValue(x, t[..|t| - 1]);
      }
    }
  }

  lemma ShearHeader(s: string)
    ensures Shear("[" + s + "]") == "[" + s + "]" && Shear("") == "" && Shear("(null)") == "(null)"
  {
    hide Shear;
    ShearStep("[" + s + "]");
    ShearStep("");
    ShearStep("(null)");
  }

  lemma {:induction false} ShearPrintable(l: string)
    requires '\n' !in l && |l| < ASCIILINESZ - 1
    ensures Printable(Shear(l))
    decreases |l|
  {
    hide TrimRight, Shear;
    var t := TrimRight(l);
    ShearStep(l);
    TrimPrefix(l);
    if Continues(t) {
      ShearPrintable(t[..|t| - 1]);
    }
  }

  lemma {:induction false} ShearKeeps(l: string, c: char)
    requires !IsSpace(c) && c != '\\'
    ensures c in Shear(l) <==> c in l
    decreases |l|
  {
    hide TrimRight, Shear;
    var t := TrimRight(l);
    ShearStep(l);
    var b := TrimRightParts(l);
    if Continues(t) {
      assert t == t[..|t| - 1] + [t[|t| - 1]];
      ShearKeeps(t[..|t| - 1], c);
    }
  }

  // ---------------------------------------------------------------- Dictionaries without such marks

  function Sheared(v: Option<string>): Option<string> {
    if v.Some? then Some(Shear(v.value)) else None
  }

  function ShearSlots(vs: Slots): (r: Slots)
    ensures |r| == |vs|
  {
    seq(|vs|, i requires 0 <= i < |vs| => Sheared(vs[i]))
  }

  lemma ShearSlotLine(k: string, v: Option<string>, s: string)
    requires StartsWith(k, s + ":")
    ensures SlotLine(k, Sheared(v), s) == Shear(SlotLine(k, v, s))
  {
    hide Shear, PadRight;
    ShearHeader("");
    var x := PadRight(k[|s| + 1..]) + " = ";
    ShearValue(x, if v.Some? then v.value else "");
  }

  lemma ShearPlainLine(k: string, v: Option<string>)
    ensures PlainLine(k, Sheared(v)) == Shear(PlainLine(k, v))
  {
    hide Shear;
    ShearHeader("");
    ShearValue(k + " = ", if v.Some? then v.value else "(null)");
  }

  lemma ShearAppend(a: seq<string>, b: seq<string>)
    ensures ShearAll(a + b) == ShearAll(a) + ShearAll(b)
  {
    hide Shear;
  }

  lemma {:induction false} ShearEntries(ks: Slots, vs: Slots, s: string)
    requires |ks| == |vs|
    ensures EntryLines(ks, ShearSlots(vs), s) == ShearAll(EntryLines(ks, vs, s))
    decreases |ks|
  {
    hide Shear, SlotLine, Sheared, StartsWith;
    if ks != [] {
      var n := |ks| - 1;
      assert ShearSlots(vs)[..n] == ShearSlots(vs[..n]);
      ShearEntries(ks[..n], vs[..n], s);
      if Belongs(ks[n], s) {
        ShearSlotLine(ks[n].value, vs[n], s);
      }
    }
  }

  lemma {:induction false} ShearSections(ks: Slots, vs: Slots, names: seq<string>)
    requires |ks| == |vs|
    ensures SectionLines(ks, ShearSlots(vs), names) == ShearAll(SectionLines(ks, vs, names))
    decreases |names|
  {
    hide Shear, EntryLines, ShearSlots;
    if names != [] {
      var n, s := |names| - 1, names[|names| - 1];
      ShearSections(ks, vs, names[..n]);
      ShearEntries(ks, vs, s);
      ShearHeader(s);
      var head, lines := ["", "[" + s + "]"], EntryLines(ks, vs, s);
      assert ShearAll(head) == head;
      ShearAppend(head, lines);
      ShearAppend(SectionLines(ks, vs, names[..n]), head + lines);
    }
  }

  lemma {:induction false} ShearPlain(ks: Slots, vs: Slots)
    requires |ks| == |vs|
    ensures PlainLines(ks, ShearSlots(vs)) == ShearAll(PlainLines(ks, vs))
    decreases |ks|
  {
    hide Shear, PlainLine, PlainLines, Sheared;
    if ks == [] {
      NoPlainLine(Filled);
    } else {
      var n := |ks| - 1;
      assert ShearSlots(vs)[..n] == ShearSlots(vs[..n]);
      ShearPlain(ks[..n], vs[..n]);
      PlainStep(ks, vs);
      PlainStep(ks, ShearSlots(vs));
      if ks[n].Some? {
        ShearPlainLine(ks[n].value, vs[n]);
      }
    }
  }

  lemma ShearDump(ks: Slots, vs: Slots)
    requires |ks| == |vs|
    ensures DumpLines(ks, ShearSlots(vs)) == ShearAll(DumpLines(ks, vs))
  {
    hide Shear, SectionLines, PlainLines, ShearSlots, Names;
    if Names(ks) == [] {
      ShearPlain(ks, vs);
    } else {
      ShearSections(ks, vs, Names(ks));
      ShearHeader("");
      ShearAppend(SectionLines(ks, vs, Names(ks)), [""]);
      assert ShearAll([""]) == [""];
    }
  }

  lemma {:induction false} ShearWeights(ks: Slots, vs: Slots)
    requires |ks| == |vs|
    ensures MostWeights(Bracketed, ks, ShearSlots(vs)) == MostWeights(Bracketed, ks, vs)
    decreases |ks|
  {
    hide Shear;
    if ks != [] {
      var n := |ks| - 1;
      assert ShearSlots(vs)[..n] == ShearSlots(vs[..n]);
      ShearWeights(ks[..n], vs[..n]);
      if vs[n].Some? {
        ShearKeeps(vs[n].value, ']');
      }
    }
  }

  // ---------------------------------------------------------------- Printed lines without newlines

  ghost predicate UnbrokenSlots(ks: Slots, vs: Slots)
    requires |ks| == |vs|
  {
    forall i :: 0 <= i < |ks| && ks[i].Some? ==> '\n' !in ks[i].value && (vs[i].Some? ==> '\n' !in vs[i].value)
  }

  lemma {:induction false} EntriesUnbroken(ks: Slots, vs: Slots, s: string)
    requires |ks| == |vs| && UnbrokenSlots(ks, vs)
    ensures Unbroken(EntryLines(ks, vs, s))
    decreases |ks|
  {
    hide StartsWith;
    if ks != [] {
      var n := |ks| - 1;
      assert forall i :: 0 <= i < n ==> ks[..n][i] == ks[i] && vs[..n][i] == vs[i];
      EntriesUnbroken(ks[..n], vs[..n], s);
    }
  }

  lemma {:induction false} SectionsUnbroken(ks: Slots, vs: Slots, names: seq<string>)
    requires |ks| == |vs| && UnbrokenSlots(ks, vs) && forall s :: s in names ==> '\n' !in s
    ensures Unbroken(SectionLines(ks, vs, names))
    decreases |names|
  {
    hide EntryLines, UnbrokenSlots;
    if names != [] {
      SectionsUnbroken(ks, vs, names[..|names| - 1]);
      EntriesUnbroken(ks, vs, names[|names| - 1]);
    }
  }

  lemma {:induction false} PlainUnbroken(ks: Slots, vs: Slots)
    requires |ks| == |vs| && UnbrokenSlots(ks, vs)
    ensures Unbroken(PlainLines(ks, vs))
    decreases |ks|
  {
    if ks != [] {
      var n := |ks| - 1;
      assert forall i :: 0 <= i < n ==> ks[..n][i] == ks[i] && vs[..n][i] == vs[i];
      PlainUnbroken(ks[..n], vs[..n]);
    }
  }

  lemma DumpUnbroken(ks: Slots, vs: Slots, m: Entries)
    requires Holds(ks, vs, m) && UnbrokenEntries(m)
    ensures |ks| == |vs| && Unbroken(DumpLines(ks, vs))
  {
    hide SectionLines, PlainLines, Names;
    if Names(ks) == [] {
      PlainUnbroken(ks, vs);
    } else {
      NamesOf(ks);
      SectionsUnbroken(ks, vs, Names(ks));
    }
  }

  // ---------------------------------------------------------------- Exactly the writable dictionaries

  lemma LoadedUnbroken(text: string)
    requires LoadText(text).Loaded?
    ensures UnbrokenEntries(LoadText(text).entries)
  {
    hide Logical, Fold, UnbrokenEntries;
    LogicalUnbroken(text, "");
    FoldUnbroken(Logical(text, "").lines);
  }

  ghost function ShearEntriesOf(m: Entries): (r: Entries)
    ensures forall k :: k in r <==> k in m
  {
    map k | k in m :: Sheared(m[k])
  }

  lemma ShearHeld(ks: Slots, vs: Slots, m: Entries)
    requires Holds(ks, vs, m)
    ensures Holds(ks, ShearSlots(vs), ShearEntriesOf(m))
  {
    hide Sheared;
  }

  lemma ShearMatches(ks: Slots, vs: Slots, m: Entries)
    requires Holds(ks, vs, m) && Unique(ks)
    ensures Matches(ks, ShearSlots(vs), m)
  {
    hide Unique, MarkedKeys, MostWeights, ShearSlots;
    MarkedHeld(ks, vs, m);
    ShearWeights(ks, vs);
  }

  lemma ShearAllPrintable(ls: seq<string>)
    requires Unbroken(ls) && forall l :: l in ls ==> |l| < ASCIILINESZ - 1
    ensures AllPrintable(ShearAll(ls))
  {
    hide Shear, Printable;
    forall x | x in ShearAll(ls)
      ensures Printable(x)
    {
      var i :| 0 <= i < |ls| && x == Shear(ls[i]);
      ShearPrintable(ls[i]);
    }
  }

  lemma DumpTextLines(ks: Slots, vs: Slots)
    requires |ks| == |vs|
    ensures DumpText(ks, vs) == Unlines(DumpLines(ks, vs))
  {
    hide Unlines, SectionLines, PlainLines, Names;
  }

  /** The slots, relieved of their marks of continuation, load as the same associations. */
  lemma ShearLoads(ks: Slots, vs: Slots, m: Entries)
    requires Holds(ks, vs, m) && Unique(ks) && LoadText(DumpText(ks, vs)) == Loaded(m)
    ensures |ks| == |vs| && Readable(ks, ShearSlots(vs)) && Reread(ShearEntriesOf(m)) == m
  {
    hide Holds, Unique, LoadText, Fold, DumpLines, Readable, UnbrokenEntries, Unbroken, AllPrintable;
    hide Matches, Reread, Weigh, ShearEntriesOf, ShearSlots, ShearAll;
    SameLength(ks, vs, m);
    var ls, ws := DumpLines(ks, vs), ShearSlots(vs);
    DumpTextLines(ks, vs);
    LoadedUnbroken(DumpText(ks, vs));
    DumpUnbroken(ks, vs, m);
    DumpWeight(ks, vs, m);
    LoadedLines(ls, m);
    ShearDump(ks, vs);
    ShearAllPrintable(ls);
    ShearMatches(ks, vs, m);
    LinesReadable(ks, ws, m);
    ShearHeld(ks, vs, m);
    LoadOfReadable(ks, ws, ShearEntriesOf(m));
    DumpTextLines(ks, ws);
    LoadOfUnlines(DumpLines(ks, ws));
  }

  lemma ValueReadShorter(v: string)
    ensures |ValueRead(v)| <= |v|
  {
    hide Strip, ReadValue, Unquoted;
    StripKeeps(v);
    ValueKept(Strip(v));
  }

  /** A value that is read back has no mark of continuation. */
  lemma NoMark(k: string, v: Option<string>)
    requires SlotRead(k, Sheared(v)) == v
    ensures Sheared(v) == v
  {
    hide Shear, ValueRead;
    if v.Some? {
      var w := Shear(v.value);
      ValueReadShorter(w);
      assert |w| == |v.value| && w == v.value[..|w|] == v.value;
    }
  }

  lemma NoMarks(ks: Slots, vs: Slots, m: Entries)
    requires Holds(ks, vs, m) && Reread(ShearEntriesOf(m)) == m && Readable(ks, ShearSlots(vs))
    ensures Readable(ks, vs)
  {
    hide EntryOk, SectionOk, Sheared, SlotRead, Names;
    forall i | 0 <= i < |ks| && ks[i].Some?
      ensures ShearSlots(vs)[i] == vs[i]
    {
      NoMark(ks[i].value, vs[i]);
    }
  }

  /**
    * A dictionary comes back from the text printed of it exactly when it is writable: every section by a name that its
    * header restores and without a value, every entry a good one of a section that is there, its line short and not
    * continued, and no key too long for the buffer that puts it together.
    */
  lemma ReloadExactly(ks: Slots, vs: Slots, m: Entries)
    requires Holds(ks, vs, m) && Unique(ks)
    ensures LoadText(DumpText(ks, vs)) == Loaded(m) <==> Writable(ks, vs)
  {
    hide Holds, Unique, Writable, Readable, LoadText, DumpText, Reread, ShearEntriesOf, ShearSlots;
    SameLength(ks, vs, m);
    if Writable(ks, vs) {
      LoadOfDump(ks, vs, m);
    }
    if LoadText(DumpText(ks, vs)) == Loaded(m) {
      ShearLoads(ks, vs, m);
      NoMarks(ks, vs, m);
      LoadOfReadable(ks, vs, m);
      WritableReadable(ks, vs, m);
    }
  }
}
