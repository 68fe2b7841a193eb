/** Loading what iniparser_dump_ini wrote gives back the same associations. */
module IniRoundTrip {
  import opened Wrappers
  import opened Strings
  import opened IniText
  import opened IniLine
  import opened IniLoad
  import opened IniDump
  import opened Dictionary

  // ---------------------------------------------------------------- Which dictionaries can be written

  /** A line that fgets reads in one piece and that is not continued in the next. */
  predicate Printable(l: string) {
    '\n' !in l && |l| < ASCIILINESZ - 1 && !Continues(TrimRight(l))
  }

  /**
    * A section that its printed header restores: one by a good name, or the empty name before all other sections,
    * where it is read while the section buffer is still empty.
    */
  predicate SectionOk(names: seq<string>, s: string) {
    (GoodSection(s) || (s == "" && names != [] && names[0] == "")) && Printable("[" + s + "]")
  }

  /** The part of a key behind its section, and the line printed for it. */
  function NameOf(k: string): string
    requires ':' in k
  {
    k[Find(k, ':') + 1..]
  }

  function LineOf(k: string, v: Option<string>): string
    requires ':' in k
  {
    EntryLine(NameOf(k), if v.Some? then v.value else "")
  }

  /** An entry that is stored under its own key: its section is in the slots, and its line is that of a good key. */
  predicate EntryOk(ks: Slots, k: string, v: Option<string>)
    requires ':' in k
  {
    && Some(k[..Find(k, ':')]) in ks && |k| <= ASCIILINESZ
    && GoodKey(NameOf(k)) && !IsHeader(LineOf(k, v)) && Printable(LineOf(k, v))
  }

  /** Every slot is read back under its own key. */
  predicate Readable(ks: Slots, vs: Slots)
    requires |ks| == |vs|
  {
    forall i :: 0 <= i < |ks| && ks[i].Some? ==>
      if ':' in ks[i].value then EntryOk(ks, ks[i].value, vs[i]) else SectionOk(Names(ks), ks[i].value)
  }

  /** The slot holds a section that is restored, without a value, or a good entry of a section that is in the slots. */
  predicate WritableSlot(ks: Slots, k: string, v: Option<string>) {
    if ':' !in k then
      SectionOk(Names(ks), k) && v.None?
    else
      && Some(k[..Find(k, ':')]) in ks && |k| <= ASCIILINESZ
      && v.Some? && GoodEntry(NameOf(k), v.value) && Printable(EntryLine(NameOf(k), v.value))
  }

  predicate Writable(ks: Slots, vs: Slots) {
    |ks| == |vs| && forall i :: 0 <= i < |ks| && ks[i].Some? ==> WritableSlot(ks, ks[i].value, vs[i])
  }

  /** What is read for the value of a slot. */
  function SlotRead(k: string, v: Option<string>): Option<string> {
    if ':' in k then Some(ValueRead(if v.Some? then v.value else "")) else None
  }

  function SlotsRead(ks: Slots, vs: Slots): (ws: Slots)
    requires |ks| == |vs|
    ensures |ws| == |ks|
  {
    seq(|ks|, i requires 0 <= i < |ks| => if ks[i].Some? then SlotRead(ks[i].value, vs[i]) else None)
  }

  /** The associations after every value has been printed and read. */
  function Reread(m: Entries): (r: Entries)
    ensures forall k :: k in r <==> k in m
  {
    map k | k in m :: SlotRead(k, m[k])
  }

  // ---------------------------------------------------------------- Lines read back

  function TrimLines(ls: seq<string>): (r: seq<string>)
    ensures |r| == |ls|
  {
    seq(|ls|, i requires 0 <= i < |ls| => TrimRight(ls[i]))
  }

  ghost predicate AllPrintable(ls: seq<string>) {
    forall l :: l in ls ==> Printable(l)
  }

  lemma {:induction false} UnlinesPrepend(l: string, ls: seq<string>)
    ensures Unlines([l] + ls) == l + "\n" + Unlines(ls)
    decreases |ls|
  {
    if ls == [] {
      assert [l] + ls == [l] && [l][..0] == [];
      assert Unlines([l]) == Unlines([]) + l + "\n";
      assert Unlines([]) + l == l && l + "\n" + "" == l + "\n";
    } else {
      var n := |ls| - 1;
      assert ([l] + ls)[..n + 1] == [l] + ls[..n];
      UnlinesPrepend(l, ls[..n]);
      assert l + "\n" + Unlines(ls[..n]) + ls[n] + "\n" == l + "\n" + (Unlines(ls[..n]) + ls[n] + "\n");
    }
  }

  lemma PrintableSplits(l: string, rest: string)
    requires Printable(l)
    ensures Logical(l + "\n" + rest, "") == Prepend([TrimRight(l)], Logical(rest, ""))
  {
    SplitLine(l, rest);
  }

  /** Printable lines come back as they were, but for blanks at their ends. */
  lemma {:induction false} LogicalOfUnlines(ls: seq<string>)
    requires AllPrintable(ls)
    ensures Logical(Unlines(ls), "") == Lines(TrimLines(ls), true)
    decreases |ls|
  {
    hide Logical, Printable;
    if ls == [] {
      NoLines();
    } else {
      var l, rest := ls[0], ls[1..];
      assert ls == [l] + rest;
      UnlinesPrepend(l, rest);
      LogicalOfUnlines(rest);
      assert Printable(l);
      PrintableSplits(l, Unlines(rest));
      assert [TrimRight(l)] + TrimLines(rest) == TrimLines(ls);
    }
  }

  lemma StripTrimRight(l: string)
    ensures Strip(TrimRight(l)) == Strip(l)
  {
    hide TrimLeft, TrimRight, IsSpace;
    var b := TrimRightParts(l);
    var t := TrimRight(l);
    var a, c := StripParts(t);
    assert l == a + Strip(t) + (c + b);
    StripOf(a, Strip(t), c + b);
  }

  lemma ParseTrimmed(l: string, section: string)
    ensures ParseLine(TrimRight(l), section) == ParseLine(l, section)
  {
    hide Strip, TrimRight, ParseKeyValue, Scan, Lower;
    StripTrimRight(l);
  }

  lemma StepTrimmed(r: Reading, l: string)
    ensures Step(r, TrimRight(l)) == Step(r, l)
  {
    ParseTrimmed(l, r.section);
  }

  lemma {:induction false} FoldTrimmed(r: Reading, ls: seq<string>)
    ensures Fold(r, TrimLines(ls)) == Fold(r, ls)
    decreases |ls|
  {
    hide Step;
    if ls != [] {
      var n := |ls| - 1;
      assert TrimLines(ls)[..n] == TrimLines(ls[..n]);
      FoldTrimmed(r, ls[..n]);
      StepTrimmed(Fold(r, ls[..n]), ls[n]);
    }
  }

  /** So loading a text of printable lines is folding over the lines. */
  lemma LoadOfUnlines(ls: seq<string>)
    requires AllPrintable(ls)
    ensures LoadText(Unlines(ls))
         == var r := Fold(START, ls); if r.overrun then Overrun else if r.errs == 0 then Loaded(r.entries) else Failed
  {
    hide Logical, Fold;
    LogicalOfUnlines(ls);
    FoldTrimmed(START, ls);
  }

  // ---------------------------------------------------------------- What the lines of a dictionary store

  /** m extended by the associations of section s. */
  function AddEntries(m: Entries, ks: Slots, vs: Slots, s: string): Entries
    requires |ks| == |vs|
  {
    if ks == [] then m
    else
      var n := |ks| - 1;
      var r := AddEntries(m, ks[..n], vs[..n], s);
      if Belongs(ks[n], s) then r[ks[n].value := vs[n]] else r
  }

  function AddSections(m: Entries, ks: Slots, vs: Slots, names: seq<string>): Entries
    requires |ks| == |vs|
  {
    if names == [] then m
    else
      var s := names[|names| - 1];
      AddEntries(AddSections(m, ks, vs, names[..|names| - 1])[s := None], ks, vs, s)
  }

  predicate StorableSlot(k: string, v: Option<string>, s: string)
    requires StartsWith(k, s + ":")
  {
    GoodKey(k[|s| + 1..]) && |k| <= ASCIILINESZ && !IsHeader(SlotLine(k, v, s)) && Printable(SlotLine(k, v, s))
  }

  /** Slots of section s print lines that store them under s. */
  ghost predicate Storable(ks: Slots, vs: Slots, s: string)
    requires |ks| == |vs|
  {
    forall i :: 0 <= i < |ks| && Belongs(ks[i], s) ==> StorableSlot(ks[i].value, vs[i], s)
  }

  lemma StepEntry(r: Reading, k: string, v: Option<string>)
    requires StartsWith(k, r.section + ":") && StorableSlot(k, v, r.section) && !r.overrun
    ensures ':' in k
    ensures Step(r, SlotLine(k, v, r.section)) == Reading(r.section, r.entries[k := SlotRead(k, v)], 0, false)
  {
    hide ParseLine, GoodKey, IsHeader, ValueRead, EntryLine;
    var name := k[|r.section| + 1..];
    EntryReads(name, if v.Some? then v.value else "", r.section);
    assert r.section + ":" + name == k;
    assert (r.section + ":")[|r.section|] == ':' == k[|r.section|];
  }

  lemma StorablePrintable(k: string, v: Option<string>, s: string)
    requires StartsWith(k, s + ":") && StorableSlot(k, v, s)
    ensures Printable(SlotLine(k, v, s))
  {
  }

  lemma {:induction false} FoldEntries(r: Reading, ks: Slots, vs: Slots)
    requires |ks| == |vs| && Storable(ks, vs, r.section) && r.errs == 0 && !r.overrun
    ensures Fold(r, EntryLines(ks, vs, r.section))
         == Reading(r.section, AddEntries(r.entries, ks, SlotsRead(ks, vs), r.section), 0, false)
    ensures AllPrintable(EntryLines(ks, vs, r.section))
    decreases |ks|
  {
    hide Step, StorableSlot, Printable, EntryLine, SlotRead;
    if ks != [] {
      var n, s := |ks| - 1, r.section;
      assert forall i :: 0 <= i < n ==> ks[..n][i] == ks[i] && vs[..n][i] == vs[i];
      FoldEntries(r, ks[..n], vs[..n]);
      assert SlotsRead(ks, vs)[..n] == SlotsRead(ks[..n], vs[..n]);
      var lines := EntryLines(ks[..n], vs[..n], s);
      if Belongs(ks[n], s) {
        FoldOne(r, lines, SlotLine(ks[n].value, vs[n], s));
        StepEntry(Fold(r, lines), ks[n].value, vs[n]);
        StorablePrintable(ks[n].value, vs[n], s);
      } else {
        assert lines + [] == lines;
      }
    }
  }

  lemma StepBlank(r: Reading)
    ensures Step(r, "") == r
  {
  }

  lemma StepHeader(r: Reading, s: string)
    requires (GoodSection(s) || (s == "" && r.section == "")) && !r.overrun
    ensures Step(r, "[" + s + "]") == Reading(s, r.entries[s := None], 0, false)
  {
    hide ParseLine;
    SectionSurvives(s, r.section);
    StripTrimmed("");
  }

  lemma BlankPrintable()
    ensures Printable("")
  {
  }

  lemma FoldTwo(r: Reading, a: string, b: string)
    ensures Fold(r, [a, b]) == Step(Step(r, a), b)
  {
    hide Step;
    assert [a][..0] == [] && Fold(r, []) == r;
    assert Fold(r, [a]) == Step(r, a);
    assert [a, b][..1] == [a];
  }

  /** The empty line, the header and the entries of one section. */
  lemma FoldSection(r: Reading, ks: Slots, vs: Slots, s: string)
    requires |ks| == |vs| && Storable(ks, vs, s) && r.errs == 0 && !r.overrun
    requires (GoodSection(s) || (s == "" && r.section == "")) && Printable("[" + s + "]")
    ensures var lines := ["", "[" + s + "]"] + EntryLines(ks, vs, s);
      && Fold(r, lines) == Reading(s, AddEntries(r.entries[s := None], ks, SlotsRead(ks, vs), s), 0, false)
      && AllPrintable(lines)
  {
    hide GoodSection, EntryLines, AddEntries, Printable, Storable, SlotsRead;
    var header := Reading(s, r.entries[s := None], 0, false);
    StepBlank(r);
    StepHeader(r, s);
    FoldTwo(r, "", "[" + s + "]");
    FoldAppend(r, ["", "[" + s + "]"], EntryLines(ks, vs, s));
    FoldEntries(header, ks, vs);
    BlankPrintable();
  }

  /** The names of sections that their headers restore in this order. */
  predicate Restored(names: seq<string>) {
    forall i :: 0 <= i < |names| ==>
      (GoodSection(names[i]) || (i == 0 && names[0] == "")) && Printable("[" + names[i] + "]")
  }

  lemma {:induction false} FoldSections(ks: Slots, vs: Slots, names: seq<string>)
    requires |ks| == |vs| && Restored(names)
    requires forall s :: s in names ==> Storable(ks, vs, s)
    ensures var lines := SectionLines(ks, vs, names);
      var r := Fold(START, lines);
      && r.errs == 0 && !r.overrun && r.entries == AddSections(map[], ks, SlotsRead(ks, vs), names)
      && AllPrintable(lines)
    decreases |names|
  {
    hide GoodSection, EntryLines, AddEntries, Printable, Storable, Step, SlotsRead;
    if names != [] {
      var n := |names| - 1;
      var s := names[n];
      assert forall i :: 0 <= i < n ==> names[..n][i] == names[i];
      FoldSections(ks, vs, names[..n]);
      var before := SectionLines(ks, vs, names[..n]);
      FoldSection(Fold(START, before), ks, vs, s);
      FoldAppend(START, before, ["", "[" + s + "]"] + EntryLines(ks, vs, s));
    }
  }

  // ---------------------------------------------------------------- What is stored is what the slots hold

  ghost predicate Within(a: Entries, m: Entries) {
    forall k :: k in a ==> k in m && a[k] == m[k]
  }

  lemma {:induction false} AddEntriesWithin(a: Entries, m: Entries, ks: Slots, vs: Slots, s: string)
    requires |ks| == |vs| && Within(a, m)
    requires forall i :: 0 <= i < |ks| && ks[i].Some? ==> ks[i].value in m && m[ks[i].value] == vs[i]
    ensures var r := AddEntries(a, ks, vs, s);
      && Within(r, m)
      && (forall k :: k in a ==> k in r)
      && (forall i :: 0 <= i < |ks| && Belongs(ks[i], s) ==> ks[i].value in r)
    decreases |ks|
  {
    hide StartsWith;
    if ks != [] {
      var n := |ks| - 1;
      assert forall i :: 0 <= i < n ==> ks[..n][i] == ks[i] && vs[..n][i] == vs[i];
      AddEntriesWithin(a, m, ks[..n], vs[..n], s);
    }
  }

  lemma {:induction false} AddSectionsWithin(m: Entries, ks: Slots, vs: Slots, names: seq<string>)
    requires |ks| == |vs|
    requires forall i :: 0 <= i < |ks| && ks[i].Some? ==> ks[i].value in m && m[ks[i].value] == vs[i]
    requires forall s :: s in names ==> s in m && m[s].None?
    ensures var r := AddSections(map[], ks, vs, names);
      && Within(r, m)
      && (forall s :: s in names ==> s in r)
      && (forall i, s :: 0 <= i < |ks| && s in names && Belongs(ks[i], s) ==> ks[i].value in r)
    decreases |names|
  {
    hide Belongs, AddEntries;
    if names != [] {
      var n := |names| - 1;
      var s := names[n];
      AddSectionsWithin(m, ks, vs, names[..n]);
      var a := AddSections(map[], ks, vs, names[..n]);
      AddEntriesWithin(a[s := None], m, ks, vs, s);
      assert forall x :: x in names <==> x in names[..n] || x == s;
    }
  }

  lemma {:induction false} NamesOf(ks: Slots)
    ensures forall s :: s in Names(ks) <==> Some(s) in ks && ':' !in s
    decreases |ks|
  {
    if ks != [] {
      NamesOf(ks[..|ks| - 1]);
      assert forall x :: x in ks <==> x in ks[..|ks| - 1] || x == ks[|ks| - 1];
    }
  }

  lemma {:induction false} NamesDistinct(ks: Slots)
    requires Unique(ks)
    ensures forall i, j :: 0 <= i < j < |Names(ks)| ==> Names(ks)[i] != Names(ks)[j]
    decreases |ks|
  {
    if ks != [] {
      var n := |ks| - 1;
      NamesDistinct(ks[..n]);
      NamesOf(ks[..n]);
      assert ks[n].Some? ==> ks[n] !in ks[..n];
    }
  }

  lemma PrefixIsSection(k: string, s: string)
    requires StartsWith(k, s + ":") && ':' !in s
    ensures Find(k, ':') == |s| && k[..|s|] == s && ':' in k
  {
    assert k[|s|] == (s + ":")[|s|] == ':';
    assert k[..|s|] == (s + ":")[..|s|] == s;
    assert k == s + [':'] + k[|s| + 1..];
    FindAt(s, ':', k[|s| + 1..]);
  }

  lemma SectionIsPrefix(k: string)
    requires ':' in k
    ensures StartsWith(k, k[..Find(k, ':')] + ":") && ':' !in k[..Find(k, ':')]
  {
  }

  lemma ReadableStorable(ks: Slots, vs: Slots, s: string)
    requires |ks| == |vs| && Readable(ks, vs) && ':' !in s
    ensures Storable(ks, vs, s)
  {
    hide GoodKey, GoodSection, Printable, EntryLine, Find, IsHeader;
    forall i | 0 <= i < |ks| && Belongs(ks[i], s)
      ensures StorableSlot(ks[i].value, vs[i], s)
    {
      PrefixIsSection(ks[i].value, s);
    }
  }

  lemma ReadableRestored(ks: Slots, vs: Slots)
    requires |ks| == |vs| && Readable(ks, vs) && Unique(ks)
    ensures Restored(Names(ks))
  {
    hide GoodSection, Printable, EntryOk, Unique;
    var names := Names(ks);
    NamesOf(ks);
    NamesDistinct(ks);
    forall i | 0 <= i < |names|
      ensures (GoodSection(names[i]) || (i == 0 && names[0] == "")) && Printable("[" + names[i] + "]")
    {
      assert names[i] in names;
      var j :| 0 <= j < |ks| && ks[j] == Some(names[i]);
    }
  }

  lemma RereadHeld(ks: Slots, vs: Slots, m: Entries)
    requires Holds(ks, vs, m)
    ensures Holds(ks, SlotsRead(ks, vs), Reread(m))
  {
    hide SlotRead;
  }

  lemma NoValue(s: string, v: Option<string>)
    requires ':' !in s
    ensures SlotRead(s, v) == None
  {
  }

  lemma EntrySection(ks: Slots, k: string, v: Option<string>)
    requires ':' in k && EntryOk(ks, k, v)
    ensures Some(k[..Find(k, ':')]) in ks
  {
  }

  /** What is in the names is a section, and what the sections and their entries store is all there is. */
  lemma StoredAll(ks: Slots, vs: Slots, m: Entries)
    requires Holds(ks, vs, m) && Readable(ks, vs)
    ensures AddSections(map[], ks, SlotsRead(ks, vs), Names(ks)) == Reread(m)
  {
    hide EntryOk, SectionOk, AddEntries, Find, SlotRead;
    var names, ws, w := Names(ks), SlotsRead(ks, vs), Reread(m);
    NamesOf(ks);
    RereadHeld(ks, vs, m);
    forall s | s in names
      ensures s in w && w[s].None?
    {
      var i :| 0 <= i < |ks| && ks[i] == Some(s);
      NoValue(s, vs[i]);
    }
    AddSectionsWithin(w, ks, ws, names);
    var r := AddSections(map[], ks, ws, names);
    forall k | k in w
      ensures k in r
    {
      var i :| 0 <= i < |ks| && ks[i] == Some(k);
      if ':' in k {
        SectionIsPrefix(k);
        EntrySection(ks, k, vs[i]);
        assert Belongs(ks[i], k[..Find(k, ':')]);
      }
    }
    assert r == w;
  }

  /** The lines that are printed. */
  function DumpLines(ks: Slots, vs: Slots): seq<string>
    requires |ks| == |vs|
  {
    if Names(ks) == [] then PlainLines(ks, vs) else SectionLines(ks, vs, Names(ks)) + [""]
  }

  /** A slot that is readable has a section. */
  lemma HasSection(ks: Slots, vs: Slots, i: nat)
    requires |ks| == |vs| && Readable(ks, vs) && i < |ks| && ks[i].Some?
    ensures Names(ks) != []
  {
    hide Find, SectionOk;
    NamesOf(ks);
    var k := ks[i].value;
    if ':' in k {
      EntrySection(ks, k, vs[i]);
      SectionIsPrefix(k);
      assert k[..Find(k, ':')] in Names(ks);
    } else {
      assert k in Names(ks);
    }
  }

  /** Without sections no entry is readable, so there is none. */
  lemma NothingStored(ks: Slots, vs: Slots, m: Entries)
    requires Holds(ks, vs, m) && Readable(ks, vs) && Names(ks) == []
    ensures m == map[] && forall i :: 0 <= i < |ks| ==> ks[i].None?
  {
    hide Readable;
    forall i | 0 <= i < |ks|
      ensures ks[i].None?
    {
      if ks[i].Some? {
        HasSection(ks, vs, i);
      }
    }
  }

  lemma {:induction false} NothingToPrint(ks: Slots, vs: Slots)
    requires |ks| == |vs| && forall i :: 0 <= i < |ks| ==> ks[i].None?
    ensures PlainLines(ks, vs) == []
    decreases |ks|
  {
    if ks != [] {
      var n := |ks| - 1;
      assert forall i :: 0 <= i < n ==> ks[..n][i] == ks[i];
      NothingToPrint(ks[..n], vs[..n]);
      assert PlainLines(ks[..n], vs[..n]) + [] == PlainLines(ks[..n], vs[..n]);
    }
  }

  lemma LoadNothing()
    ensures LoadText("") == Loaded(map[]) && Unlines([]) == ""
  {
  }

  /** Slots that are read back under their own keys load, and yield what is read for their values. */
  lemma LoadOfReadable(ks: Slots, vs: Slots, m: Entries)
    requires Holds(ks, vs, m) && Unique(ks) && Readable(ks, vs)
    ensures AllPrintable(DumpLines(ks, vs)) && LoadText(DumpText(ks, vs)) == Loaded(Reread(m))
  {
    hide EntryOk, SectionOk, AddEntries, AddSections, EntryLines, Storable;
    hide Restored, Printable, Find, LoadText, Fold, Step, Unique;
    var names := Names(ks);
    NamesOf(ks);
    StoredAll(ks, vs, m);
    if names == [] {
      NothingStored(ks, vs, m);
      NothingToPrint(ks, vs);
      LoadNothing();
    } else {
      forall s | s in names
        ensures Storable(ks, vs, s)
      {
        ReadableStorable(ks, vs, s);
      }
      ReadableRestored(ks, vs);
      var lines := SectionLines(ks, vs, names);
      FoldSections(ks, vs, names);
      FoldOne(START, lines, "");
      StepBlank(Fold(START, lines));
      BlankPrintable();
      LoadOfUnlines(lines + [""]);
    }
  }

  /** A writable slot is read back under its own key, with its own value. */
  lemma WritableRead(ks: Slots, k: string, v: Option<string>)
    requires WritableSlot(ks, k, v)
    ensures if ':' in k then EntryOk(ks, k, v) else SectionOk(Names(ks), k)
    ensures SlotRead(k, v) == v
  {
    hide SectionOk, Find, ParseLine, ValueRead, GoodKey, GoodValue, IsHeader, Printable, EntryLine;
    if ':' in k {
      EntrySurvives(NameOf(k), v.value, "");
      HeaderParsed(LineOf(k, v), "");
      EntryReads(NameOf(k), v.value, "");
    }
  }

  /** And the other way round. */
  lemma ReadWritable(ks: Slots, k: string, v: Option<string>)
    requires if ':' in k then EntryOk(ks, k, v) else SectionOk(Names(ks), k)
    requires SlotRead(k, v) == v
    ensures WritableSlot(ks, k, v)
  {
    hide SectionOk, Find, ParseLine, ValueRead, GoodKey, GoodValue, IsHeader, Printable, EntryLine;
    if ':' in k {
      EntryReads(NameOf(k), v.value, "");
      EntrySurvives(NameOf(k), v.value, "");
    }
  }

  lemma WritableReadable(ks: Slots, vs: Slots, m: Entries)
    requires Holds(ks, vs, m)
    ensures Writable(ks, vs) <==> Readable(ks, vs) && Reread(m) == m
  {
    hide WritableSlot, EntryOk, SectionOk, SlotRead;
    forall i | 0 <= i < |ks| && ks[i].Some?
      ensures WritableSlot(ks, ks[i].value, vs[i]) ==>
        && (if ':' in ks[i].value then EntryOk(ks, ks[i].value, vs[i]) else SectionOk(Names(ks), ks[i].value))
        && SlotRead(ks[i].value, vs[i]) == vs[i]
    {
      if WritableSlot(ks, ks[i].value, vs[i]) {
        WritableRead(ks, ks[i].value, vs[i]);
      }
    }
    if Writable(ks, vs) {
      forall k | k in m
        ensures SlotRead(k, m[k]) == m[k]
      {
        var i :| 0 <= i < |ks| && ks[i] == Some(k);
      }
    }
    if Readable(ks, vs) && Reread(m) == m {
      forall i | 0 <= i < |ks| && ks[i].Some?
        ensures WritableSlot(ks, ks[i].value, vs[i])
      {
        assert SlotRead(ks[i].value, vs[i]) == Reread(m)[ks[i].value];
        ReadWritable(ks, ks[i].value, vs[i]);
      }
    }
  }

  lemma ReadableFits(ks: Slots, vs: Slots)
    requires |ks| == |vs| && Readable(ks, vs)
    ensures NamesFit(ks)
  {
    hide EntryOk, GoodSection;
    NamesOf(ks);
    forall s | s in Names(ks)
      ensures |s| + 1 <= ASCIILINESZ
    {
      var i :| 0 <= i < |ks| && ks[i] == Some(s);
      assert SectionOk(Names(ks), s);
    }
  }

  /** The text of a writable dictionary loads, and yields exactly the associations that the slots hold. */
  lemma LoadOfDump(ks: Slots, vs: Slots, m: Entries)
    requires Holds(ks, vs, m) && Unique(ks) && Writable(ks, vs)
    ensures NamesFit(ks) && LoadText(DumpText(ks, vs)) == Loaded(m)
  {
    hide Writable, LoadText, DumpText, Readable, Unique;
    WritableReadable(ks, vs, m);
    LoadOfReadable(ks, vs, m);
    ReadableFits(ks, vs);
  }

  /** The two routines run one after the other. */
  method DumpAndLoad(d: Dictionary) returns (e: Dictionary?, overrun: bool)
    requires d.Valid() && Writable(d.key[..], d.val[..])
    ensures !overrun && e != null && e.Valid() && e.Contents == d.Contents
  {
    hide Writable, LoadText, DumpText, NamesFit;
    LoadOfDump(d.key[..], d.val[..], d.Contents);
    var f;
    f, overrun := IniparserDumpIni(d);
    e, overrun := IniparserLoad(Some(f));
  }
}
