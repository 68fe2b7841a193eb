/** Which slots the lines printed of a dictionary restore, judged by the keys that the lines store. */
module IniExact {
  import opened Wrappers
  import opened Strings
  import opened IniText
  import opened IniLine
  import opened IniLoad
  import opened IniDump
  import opened IniJoin
  import opened IniRoundTrip
  import opened Dictionary
  import opened DictionaryRuns

  // ---------------------------------------------------------------- Closing brackets

  /** The association contains a closing bracket. */
  predicate Marked(k: string, v: Option<string>) {
    ']' in k || (v.Some? && ']' in v.value)
  }

  ghost function MarkedKeys(m: Entries): set<string> {
    set k | k in m && Marked(k, m[k])
  }

  /** What the line that is printed for a slot weighs at most. */
  function MostWeight(f: Measure, k: Option<string>, v: Option<string>): nat {
    if k.Some? && (if f == Filled then ':' in k.value else Marked(k.value, v)) then 1 else 0
  }

  function MostWeights(f: Measure, ks: Slots, vs: Slots): nat
    requires |ks| == |vs|
  {
    if ks == [] then 0
    else
      var n := |ks| - 1;
      MostWeights(f, ks[..n], vs[..n]) + MostWeight(f, ks[n], vs[n])
  }

  lemma SubsetSize<T>(a: set<T>, b: set<T>)
    requires a <= b
    ensures |a| <= |b|
  {
    assert b == a + (b - a);
  }

  lemma LastHeld(ks: Slots, vs: Slots, m: Entries)
    requires Holds(ks, vs, m) && ks != [] && ks[|ks| - 1].Some?
    ensures |ks| == |vs| && ks[|ks| - 1].value in m && m[ks[|ks| - 1].value] == vs[|ks| - 1]
  {
  }

  lemma {:induction false} MarkedHeld(ks: Slots, vs: Slots, m: Entries)
    requires Holds(ks, vs, m) && Unique(ks)
    ensures |ks| == |vs| && MostWeights(Bracketed, ks, vs) <= |MarkedKeys(m)|
    decreases |ks|
  {
    hide Holds, Unique, Marked;
    SameLength(ks, vs, m);
    if ks != [] {
      var n := |ks| - 1;
      HeldButLast(ks, vs, m);
      if ks[n].None? {
        MarkedHeld(ks[..n], vs[..n], m);
      } else {
        var k := ks[n].value;
        MarkedHeld(ks[..n], vs[..n], m - {k});
        LastHeld(ks, vs, m);
        var rest := MarkedKeys(m - {k});
        SubsetSize(rest + (if Marked(k, vs[n]) then {k} else {}), MarkedKeys(m));
      }
    }
  }

  /** m has exactly the keys of the slots, and brackets in as many associations. */
  ghost predicate Matches(ks: Slots, vs: Slots, m: Entries) {
    && |ks| == |vs| && (forall k :: k in m <==> Some(k) in ks)
    && MostWeights(Bracketed, ks, vs) <= |MarkedKeys(m)|
  }

  // ---------------------------------------------------------------- What any short lines store

  predicate Short(ls: seq<string>) {
    forall l :: l in ls ==> |l| <= ASCIILINESZ
  }

  /** The section and every key without a colon could be read from a header, and such a key has no value. */
  ghost predicate Shaped(r: Reading) {
    SectionShape(r.section) && forall k :: k in r.entries && ':' !in k ==> SectionShape(k) && r.entries[k].None?
  }

  lemma MarkedAdded(m: Entries, k: string, v: Option<string>)
    ensures |MarkedKeys(m[k := v])| <= |MarkedKeys(m)| + if Marked(k, v) then 1 else 0
  {
    hide Marked;
    SubsetSize(MarkedKeys(m[k := v]), MarkedKeys(m) + if Marked(k, v) then {k} else {});
  }

  lemma SectionUnmarked(s: string)
    requires SectionShape(s)
    ensures ']' !in s
  {
  }

  lemma StepShaped(r: Reading, l: string)
    requires Shaped(r) && |l| <= ASCIILINESZ
    ensures Shaped(Step(r, l))
    ensures |MarkedKeys(Step(r, l).entries)| <= |MarkedKeys(r.entries)| + Weight(Bracketed, l)
  {
    hide ParseLine, SectionShape, KeyFits, IsHeader, MarkedKeys;
    HeaderParsed(l, r.section);
    match ParseLine(l, r.section)
    case LineSection(s) =>
      ReadSection(l, r.section);
      SectionUnmarked(s);
      MarkedAdded(r.entries, s, None);
    case LineValue(k, v) =>
      ReadKept(l, r.section, ']');
      SectionUnmarked(r.section);
      var key := r.section + ":" + k;
      assert key[|r.section|] == ':';
      MarkedAdded(r.entries, key, Some(v));
    case _ =>
  }

  lemma StartShaped()
    ensures Shaped(START) && MarkedKeys(START.entries) == {}
  {
  }

  lemma {:induction false} FoldShaped(ls: seq<string>)
    requires Short(ls)
    ensures Shaped(Fold(START, ls)) && |MarkedKeys(Fold(START, ls).entries)| <= Weigh(Bracketed, ls)
    decreases |ls|
  {
    hide Step, Shaped, Weight;
    if ls == [] {
      StartShaped();
    } else {
      var n := |ls| - 1;
      FoldShaped(ls[..n]);
      StepShaped(Fold(START, ls[..n]), ls[n]);
    }
  }

  /** The key was stored while the section was s. */
  predicate StoredUnder(k: string, s: string) {
    StartsWith(k, s + ":") && GoodKey(k[|s| + 1..]) && |k| <= ASCIILINESZ
  }

  lemma ValueStored(l: string, s: string)
    requires ParseLine(l, s).LineValue? && |l| <= ASCIILINESZ && KeyFits(s, ParseLine(l, s).key)
    ensures StoredUnder(s + ":" + ParseLine(l, s).key, s)
  {
    hide ParseLine, GoodKey;
    ReadKey(l, s);
    var k := ParseLine(l, s).key;
    assert (s + ":" + k)[|s| + 1..] == k;
    assert (s + ":" + k)[..|s| + 1] == s + ":";
  }

  /** Lines that are no headers store keys of the one section. */
  lemma {:induction false} FoldValues(r: Reading, ls: seq<string>)
    requires Short(ls) && (forall l :: l in ls ==> !IsHeader(l)) && !Fold(r, ls).overrun
    ensures Fold(r, ls).section == r.section && !r.overrun
    ensures forall k :: k in Fold(r, ls).entries ==> k in r.entries || StoredUnder(k, r.section)
    ensures forall k :: k in r.entries ==> k in Fold(r, ls).entries
    decreases |ls|
  {
    hide ParseLine, IsHeader, StoredUnder;
    if ls != [] {
      var n := |ls| - 1;
      var before, l := Fold(r, ls[..n]), ls[n];
      FoldValues(r, ls[..n]);
      HeaderParsed(l, r.section);
      if ParseLine(l, r.section).LineValue? {
        ValueStored(l, r.section);
      }
    }
  }

  lemma {:induction false} LineStores(r: Reading, ls: seq<string>, l: string)
    requires Short(ls) && (forall x :: x in ls ==> !IsHeader(x)) && !Fold(r, ls).overrun
    requires l in ls && ParseLine(l, r.section).LineValue?
    ensures r.section + ":" + ParseLine(l, r.section).key in Fold(r, ls).entries
    decreases |ls|
  {
    hide ParseLine, IsHeader;
    var n := |ls| - 1;
    FoldValues(r, ls);
    FoldValues(r, ls[..n]);
    HeaderParsed(ls[n], r.section);
    if l in ls[..n] {
      LineStores(r, ls[..n], l);
    } else {
      assert l == ls[n];
    }
  }

  // ---------------------------------------------------------------- Entries that are taken for headers

  /** No printed entry is taken for a header. */
  ghost predicate NoFalseHeader(ks: Slots, vs: Slots, names: seq<string>)
    requires |ks| == |vs|
  {
    forall i, s :: 0 <= i < |ks| && s in names && Belongs(ks[i], s) ==> !IsHeader(SlotLine(ks[i].value, vs[i], s))
  }

  predicate Distinct(names: seq<string>) {
    && (forall s :: s in names ==> ':' !in s)
    && (forall i, j :: 0 <= i < j < |names| ==> names[i] != names[j])
  }

  /** What a slot adds to the weight of the given sections. */
  function SlotTotal(f: Measure, k: Option<string>, v: Option<string>, names: seq<string>): nat {
    if names == [] then 0
    else
      var s := names[|names| - 1];
      SlotTotal(f, k, v, names[..|names| - 1]) + if Belongs(k, s) then Weight(f, SlotLine(k.value, v, s)) else 0
  }

  lemma HeaderBracket(l: string)
    requires IsHeader(l)
    ensures ']' in l
  {
    hide Strip;
    StripKeeps(l);
    var t := Strip(l);
    assert t[|t| - 1] in t;
  }

  lemma SlotBracket(k: string, v: Option<string>, s: string)
    requires StartsWith(k, s + ":") && ']' in SlotLine(k, v, s)
    ensures Marked(k, v)
  {
    var name := k[|s| + 1..];
    assert forall c :: c in PadRight(name) ==> c in name || c == ' ';
    assert forall c :: c in name ==> c in k;
  }

  lemma {:induction false} NoneBelongs(f: Measure, k: Option<string>, v: Option<string>, names: seq<string>)
    requires forall s :: s in names ==> !Belongs(k, s)
    ensures SlotTotal(f, k, v, names) == 0
    decreases |names|
  {
    if names != [] {
      NoneBelongs(f, k, v, names[..|names| - 1]);
    }
  }

  lemma OneSection(k: Option<string>, s: string, t: string)
    requires Belongs(k, s) && Belongs(k, t) && ':' !in s && ':' !in t
    ensures s == t
  {
    hide StartsWith;
    PrefixIsSection(k.value, s);
    PrefixIsSection(k.value, t);
  }

  lemma SlotWeight(f: Measure, k: Option<string>, v: Option<string>, s: string)
    requires Belongs(k, s)
    ensures Weight(f, SlotLine(k.value, v, s)) <= MostWeight(f, k, v)
    ensures f == Bracketed && IsHeader(SlotLine(k.value, v, s)) ==>
      Weight(f, SlotLine(k.value, v, s)) == 0 && MostWeight(f, k, v) == 1
  {
    hide IsHeader, SlotLine, Marked, Blank;
    var l := SlotLine(k.value, v, s);
    if f == Filled {
      assert k.value[|s|] == (s + ":")[|s|] == ':';
    } else if ']' in l {
      SlotBracket(k.value, v, s);
    } else if IsHeader(l) {
      HeaderBracket(l);
    }
  }

  /** A slot is printed once at most; it adds a bracket line only when it has a bracket, and none as a header. */
  lemma {:induction false} SlotOnce(f: Measure, k: Option<string>, v: Option<string>, names: seq<string>)
    requires Distinct(names)
    ensures SlotTotal(f, k, v, names) <= MostWeight(f, k, v)
    ensures forall s :: s in names && Belongs(k, s) && f == Bracketed && IsHeader(SlotLine(k.value, v, s)) ==>
      SlotTotal(f, k, v, names) < MostWeight(f, k, v)
    decreases |names|
  {
    hide IsHeader, SlotLine, StartsWith, MostWeight, Weight;
    if names != [] {
      var n := |names| - 1;
      var s := names[n];
      assert forall t :: t in names <==> t in names[..n] || t == s;
      SlotOnce(f, k, v, names[..n]);
      if Belongs(k, s) {
        forall t | t in names[..n]
          ensures !Belongs(k, t)
        {
          if Belongs(k, t) {
            OneSection(k, s, t);
          }
        }
        NoneBelongs(f, k, v, names[..n]);
        SlotWeight(f, k, v, s);
      }
    }
  }

  /** The weight of the entries of all given sections. */
  function Total(f: Measure, ks: Slots, vs: Slots, names: seq<string>): nat
    requires |ks| == |vs|
  {
    if names == [] then 0
    else Total(f, ks, vs, names[..|names| - 1]) + Weigh(f, EntryLines(ks, vs, names[|names| - 1]))
  }

  lemma {:induction false} TotalNone(f: Measure, names: seq<string>)
    ensures Total(f, [], [], names) == 0
    decreases |names|
  {
    if names != [] {
      TotalNone(f, names[..|names| - 1]);
    }
  }

  lemma EntriesStep(f: Measure, ks: Slots, vs: Slots, s: string)
    requires |ks| == |vs| && ks != []
    ensures var n := |ks| - 1;
      Weigh(f, EntryLines(ks, vs, s))
      == Weigh(f, EntryLines(ks[..n], vs[..n], s))
         + if Belongs(ks[n], s) then Weight(f, SlotLine(ks[n].value, vs[n], s)) else 0
  {
    hide Weight, SlotLine, StartsWith;
    var n := |ks| - 1;
    var lines := EntryLines(ks[..n], vs[..n], s);
    if Belongs(ks[n], s) {
      WeighOne(f, lines, SlotLine(ks[n].value, vs[n], s));
    } else {
      assert lines + [] == lines;
    }
  }

  lemma {:induction false} TotalStep(f: Measure, ks: Slots, vs: Slots, names: seq<string>)
    requires |ks| == |vs| && ks != []
    ensures var n := |ks| - 1;
      Total(f, ks, vs, names) == Total(f, ks[..n], vs[..n], names) + SlotTotal(f, ks[n], vs[n], names)
    decreases |names|
  {
    hide Weight, Weigh, EntryLines, SlotLine, StartsWith;
    if names != [] {
      TotalStep(f, ks, vs, names[..|names| - 1]);
      EntriesStep(f, ks, vs, names[|names| - 1]);
    }
  }

  lemma {:induction false} TotalBound(f: Measure, ks: Slots, vs: Slots, names: seq<string>)
    requires |ks| == |vs| && Distinct(names)
    ensures Total(f, ks, vs, names) <= MostWeights(f, ks, vs)
    decreases |ks|
  {
    hide MostWeight, SlotTotal, Distinct, Total;
    if ks == [] {
      TotalNone(f, names);
    } else {
      var n := |ks| - 1;
      TotalBound(f, ks[..n], vs[..n], names);
      TotalStep(f, ks, vs, names);
      SlotOnce(f, ks[n], vs[n], names);
    }
  }

  /** An entry that is taken for a header leaves fewer bracket lines than slots with brackets. */
  lemma {:induction false} TotalBelow(ks: Slots, vs: Slots, names: seq<string>, i: nat, s: string)
    requires |ks| == |vs| && Distinct(names) && s in names
    requires i < |ks| && Belongs(ks[i], s) && IsHeader(SlotLine(ks[i].value, vs[i], s))
    ensures Total(Bracketed, ks, vs, names) < MostWeights(Bracketed, ks, vs)
    decreases |ks|
  {
    hide MostWeight, SlotTotal, Distinct, Total, IsHeader, SlotLine, StartsWith;
    var n := |ks| - 1;
    assert i < n ==> ks[..n][i] == ks[i] && vs[..n][i] == vs[i];
    TotalStep(Bracketed, ks, vs, names);
    SlotOnce(Bracketed, ks[n], vs[n], names);
    if i == n {
      TotalBound(Bracketed, ks[..n], vs[..n], names);
    } else {
      TotalBelow(ks[..n], vs[..n], names, i, s);
    }
  }

  lemma HeaderWeight(f: Measure, s: string)
    ensures Weigh(f, ["", "[" + s + "]"]) == if f == Filled then 1 else 0
  {
    var l := "[" + s + "]";
    StripTrimmed(l);
    assert [""] + [l] == ["", l] && [] + [""] == [""];
    WeighOne(f, [""], l);
    WeighOne(f, [], "");
  }

  lemma NoLine(f: Measure)
    ensures Weigh(f, []) == 0
  {
  }

  lemma {:induction false} SectionsWeigh(f: Measure, ks: Slots, vs: Slots, names: seq<string>)
    requires |ks| == |vs|
    ensures Weigh(f, SectionLines(ks, vs, names)) == Total(f, ks, vs, names) + if f == Filled then |names| else 0
    decreases |names|
  {
    hide Weight, EntryLines, Weigh;
    if names == [] {
      NoLine(f);
    } else {
      var n, s := |names| - 1, names[|names| - 1];
      SectionsWeigh(f, ks, vs, names[..n]);
      HeaderWeight(f, s);
      WeighAppend(f, ["", "[" + s + "]"], EntryLines(ks, vs, s));
      WeighAppend(f, SectionLines(ks, vs, names[..n]), ["", "[" + s + "]"] + EntryLines(ks, vs, s));
    }
  }

  /** The sections' lines store as many associations with brackets as the slots hold: none is a header by mistake. */
  lemma NoneFalse(ks: Slots, vs: Slots, names: seq<string>)
    requires |ks| == |vs| && Distinct(names) && Short(SectionLines(ks, vs, names))
    requires MostWeights(Bracketed, ks, vs) <= |MarkedKeys(Fold(START, SectionLines(ks, vs, names)).entries)|
    ensures NoFalseHeader(ks, vs, names)
  {
    hide Distinct, Fold, Shaped, MarkedKeys;
    hide IsHeader, SlotLine, StartsWith, Total, MostWeights, Weigh;
    FoldShaped(SectionLines(ks, vs, names));
    SectionsWeigh(Bracketed, ks, vs, names);
    forall i, s | 0 <= i < |ks| && s in names && Belongs(ks[i], s)
      ensures !IsHeader(SlotLine(ks[i].value, vs[i], s))
    {
      if IsHeader(SlotLine(ks[i].value, vs[i], s)) {
        TotalBelow(ks, vs, names, i, s);
      }
    }
  }

  // ---------------------------------------------------------------- Sections and keys that are read

  /** An empty header leaves the section as it was. */
  lemma StepEmptyHeader(r: Reading)
    requires SectionShape(r.section) && !r.overrun
    ensures Step(r, "[]") == Reading(r.section, r.entries[r.section := None], 0, false)
  {
    hide Lower, Strip, ParseKeyValue, Canonical;
    StripTrimmed("[]");
    CanonicalFixed(r.section);
    ScanLiteral('[', [NoneOf({']'})], "]");
    assert ['['] + "]" == "[]" && FORMAT_SECTION == [Literal('[')] + [NoneOf({']'})];
  }

  lemma {:induction false} EntryLinesRead(ks: Slots, vs: Slots, s: string)
    requires |ks| == |vs|
    requires forall i :: 0 <= i < |ks| && Belongs(ks[i], s) ==> !IsHeader(SlotLine(ks[i].value, vs[i], s))
    ensures forall l :: l in EntryLines(ks, vs, s) ==> !IsHeader(l)
    ensures forall i :: 0 <= i < |ks| && Belongs(ks[i], s) ==> SlotLine(ks[i].value, vs[i], s) in EntryLines(ks, vs, s)
    decreases |ks|
  {
    hide IsHeader, SlotLine, StartsWith;
    if ks != [] {
      var n := |ks| - 1;
      assert forall i :: 0 <= i < n ==> ks[..n][i] == ks[i] && vs[..n][i] == vs[i];
      EntryLinesRead(ks[..n], vs[..n], s);
    }
  }

  function Block(ks: Slots, vs: Slots, s: string): seq<string>
    requires |ks| == |vs|
  {
    ["", "[" + s + "]"] + EntryLines(ks, vs, s)
  }

  lemma GoodFromShape(s: string)
    requires SectionShape(s)
    ensures s == "" || GoodSection(s)
  {
  }

  /** The section that the lines of section s are read in: s, or the one before when s is empty. */
  lemma BlockRead(r: Reading, ks: Slots, vs: Slots, names: seq<string>, s: string)
    requires |ks| == |vs| && s in names && NoFalseHeader(ks, vs, names)
    requires SectionShape(r.section) && SectionShape(s) && Short(Block(ks, vs, s)) && !Fold(r, Block(ks, vs, s)).overrun
    ensures var t, q := (if s == "" then r.section else s), Fold(r, Block(ks, vs, s));
      && !r.overrun && q.section == t
      && forall k :: k in q.entries ==> k in r.entries || k == t || StoredUnder(k, t)
  {
    hide EntryLines, SectionShape, StoredUnder, IsHeader, SlotLine, Step, StartsWith;
    var head, t := ["", "[" + s + "]"], if s == "" then r.section else s;
    if r.overrun {
      OverrunStays(r, Block(ks, vs, s));
    }
    StepBlank(r);
    FoldTwo(r, "", "[" + s + "]");
    FoldAppend(r, head, EntryLines(ks, vs, s));
    if s == "" {
      StepEmptyHeader(r);
      assert "[" + "" + "]" == "[]";
    } else {
      GoodFromShape(s);
      StepHeader(r, s);
    }
    EntryLinesRead(ks, vs, s);
    assert forall l :: l in EntryLines(ks, vs, s) ==> l in Block(ks, vs, s);
    FoldValues(Fold(r, head), EntryLines(ks, vs, s));
  }

  lemma SectionLinesSplit(ks: Slots, vs: Slots, names: seq<string>)
    requires |ks| == |vs| && names != []
    ensures var n := |names| - 1;
      SectionLines(ks, vs, names) == SectionLines(ks, vs, names[..n]) + Block(ks, vs, names[n])
  {
    hide EntryLines;
  }

  lemma ShortParts(a: seq<string>, b: seq<string>)
    requires Short(a + b)
    ensures Short(a) && Short(b)
  {
    assert forall l :: l in a || l in b ==> l in a + b;
  }

  /** Lines that do not overrun, all of shaped sections, none taken for a header by mistake. */
  ghost predicate Clean(ks: Slots, vs: Slots, names: seq<string>)
    requires |ks| == |vs|
  {
    && NoFalseHeader(ks, vs, names)
    && (forall s :: s in names ==> SectionShape(s))
    && Short(SectionLines(ks, vs, names)) && !Fold(START, SectionLines(ks, vs, names)).overrun
  }

  lemma NoFalseBefore(ks: Slots, vs: Slots, names: seq<string>)
    requires |ks| == |vs| && names != [] && NoFalseHeader(ks, vs, names)
    ensures NoFalseHeader(ks, vs, names[..|names| - 1])
  {
    hide IsHeader, SlotLine, StartsWith;
    forall i, s | 0 <= i < |ks| && s in names[..|names| - 1] && Belongs(ks[i], s)
      ensures !IsHeader(SlotLine(ks[i].value, vs[i], s))
    {
      assert s in names;
    }
  }

  lemma CleanParts(ks: Slots, vs: Slots, names: seq<string>)
    requires |ks| == |vs| && Clean(ks, vs, names) && names != []
    ensures var n := |names| - 1;
      var r := Fold(START, SectionLines(ks, vs, names[..n]));
      && Clean(ks, vs, names[..n]) && SectionShape(r.section)
      && var t, q := (if names[n] == "" then r.section else names[n]), Fold(START, SectionLines(ks, vs, names));
         && q.section == t
         && forall k :: k in q.entries ==> k in r.entries || k == t || StoredUnder(k, t)
  {
    hide EntryLines, SectionShape, StoredUnder, Fold, Short, SectionLines, Block, NoFalseHeader;
    var n := |names| - 1;
    var before := SectionLines(ks, vs, names[..n]);
    NoFalseBefore(ks, vs, names);
    assert names[n] in names && forall s :: s in names[..n] ==> s in names;
    SectionLinesSplit(ks, vs, names);
    FoldAppend(START, before, Block(ks, vs, names[n]));
    ShortParts(before, Block(ks, vs, names[n]));
    FoldShaped(before);
    BlockRead(Fold(START, before), ks, vs, names, names[n]);
  }

  lemma NoSections(ks: Slots, vs: Slots)
    requires |ks| == |vs|
    ensures SectionLines(ks, vs, []) == [] && Fold(START, []) == START
  {
  }

  /** When the first section is not the empty one, the empty name is never read. */
  lemma {:induction false} NoEmptyName(ks: Slots, vs: Slots, names: seq<string>)
    requires |ks| == |vs| && Clean(ks, vs, names) && names != [] && names[0] != ""
    ensures var r := Fold(START, SectionLines(ks, vs, names)); r.section != "" && "" !in r.entries
    decreases |names|
  {
    hide Clean, SectionLines, Fold, GoodKey;
    var n := |names| - 1;
    CleanParts(ks, vs, names);
    if n == 0 {
      NoSections(ks, vs);
      assert names[..n] == [];
    } else {
      NoEmptyName(ks, vs, names[..n]);
    }
  }

  /** The names of the sections are those that their headers restore, in this order. */
  predicate InOrder(names: seq<string>) {
    forall i :: 0 <= i < |names| ==> ':' !in names[i] && (names[i] == "" ==> i == 0)
  }

  /** Every key of an entry was stored in a section of that name. */
  lemma {:induction false} KeysStored(ks: Slots, vs: Slots, names: seq<string>)
    requires |ks| == |vs| && Clean(ks, vs, names) && InOrder(names)
    ensures var r := Fold(START, SectionLines(ks, vs, names));
      && r.section == (if names == [] then "" else names[|names| - 1])
      && forall k :: k in r.entries && ':' in k ==> k[..Find(k, ':')] in names && StoredUnder(k, k[..Find(k, ':')])
    decreases |names|
  {
    hide Clean, SectionLines, Fold, GoodKey, Find, StartsWith;
    if names == [] {
      NoSections(ks, vs);
    } else {
      var n, s := |names| - 1, names[|names| - 1];
      CleanParts(ks, vs, names);
      KeysStored(ks, vs, names[..n]);
      var r, q := Fold(START, SectionLines(ks, vs, names[..n])), Fold(START, SectionLines(ks, vs, names));
      assert q.section == s;
      forall k | k in q.entries && ':' in k
        ensures k[..Find(k, ':')] in names && StoredUnder(k, k[..Find(k, ':')])
      {
        if k !in r.entries {
          PrefixIsSection(k, s);
        }
      }
    }
  }

  lemma {:induction false} LinesIn(ks: Slots, vs: Slots, names: seq<string>, s: string)
    requires |ks| == |vs| && s in names
    ensures forall l :: l in Block(ks, vs, s) ==> l in SectionLines(ks, vs, names)
    decreases |names|
  {
    hide EntryLines;
    var n := |names| - 1;
    if s != names[n] {
      LinesIn(ks, vs, names[..n], s);
    }
  }

  lemma NamesInOrder(names: seq<string>)
    requires names != [] && Distinct(names) && (names[0] == "" || "" !in names)
    ensures InOrder(names)
  {
    assert forall i :: 0 <= i < |names| ==> names[i] in names;
  }

  lemma PrintableShort(ls: seq<string>)
    requires AllPrintable(ls)
    ensures Short(ls)
  {
  }

  lemma HeaderPrintable(ks: Slots, vs: Slots, names: seq<string>, s: string)
    requires |ks| == |vs| && s in names && AllPrintable(SectionLines(ks, vs, names))
    ensures Printable("[" + s + "]")
  {
    hide EntryLines, SectionLines, Printable;
    LinesIn(ks, vs, names, s);
    assert ["", "[" + s + "]"][1] in Block(ks, vs, s);
  }

  lemma SameLine(k: string, v: Option<string>)
    requires ':' in k
    ensures var s := k[..Find(k, ':')]; StartsWith(k, s + ":") && SlotLine(k, v, s) == LineOf(k, v)
  {
    hide EntryLine, Find;
    SectionIsPrefix(k);
  }

  lemma EntryReadable(ks: Slots, vs: Slots, names: seq<string>, i: nat)
    requires |ks| == |vs| && i < |ks| && ks[i].Some? && ':' in ks[i].value
    requires AllPrintable(SectionLines(ks, vs, names)) && NoFalseHeader(ks, vs, names)
    requires forall s :: s in names ==> Some(s) in ks
    requires var k := ks[i].value; k[..Find(k, ':')] in names && StoredUnder(k, k[..Find(k, ':')])
    ensures EntryOk(ks, ks[i].value, vs[i])
  {
    hide IsHeader, EntryLines, SectionLines, GoodKey, Find, Printable, SlotLine, LineOf;
    var k := ks[i].value;
    var s := k[..Find(k, ':')];
    SameLine(k, vs[i]);
    LinesIn(ks, vs, names, s);
    EntryLinesRead(ks, vs, s);
    assert SlotLine(k, vs[i], s) in Block(ks, vs, s);
  }

  /** When the sections' lines store associations that match the slots, every slot is readable. */
  lemma SectionsReadable(ks: Slots, vs: Slots, m: Entries)
    requires Matches(ks, vs, m) && Unique(ks) && Names(ks) != [] && AllPrintable(SectionLines(ks, vs, Names(ks)))
    requires var r := Fold(START, SectionLines(ks, vs, Names(ks))); !r.overrun && r.entries == m
    ensures Readable(ks, vs)
  {
    hide SectionShape, IsHeader, SlotLine, Fold, SectionLines, EntryLines, GoodKey;
    hide Find, Unique, Printable, StartsWith, Block, MostWeights, MarkedKeys;
    var names, lines := Names(ks), SectionLines(ks, vs, Names(ks));
    NamesOf(ks);
    NamesDistinct(ks);
    PrintableShort(lines);
    NoneFalse(ks, vs, names);
    FoldShaped(lines);
    forall s | s in names
      ensures s in m && SectionShape(s) && (s == "" || GoodSection(s))
    {
      var i :| 0 <= i < |ks| && ks[i] == Some(s);
      GoodFromShape(s);
    }
    if names[0] != "" {
      NoEmptyName(ks, vs, names);
    }
    NamesInOrder(names);
    KeysStored(ks, vs, names);
    forall i | 0 <= i < |ks| && ks[i].Some?
      ensures if ':' in ks[i].value then EntryOk(ks, ks[i].value, vs[i]) else SectionOk(names, ks[i].value)
    {
      var k := ks[i].value;
      if ':' in k {
        EntryReadable(ks, vs, names, i);
      } else {
        HeaderPrintable(ks, vs, names, k);
      }
    }
  }

  // ---------------------------------------------------------------- Dictionaries without sections

  function PlainLine(k: string, v: Option<string>): string {
    k + " = " + if v.Some? then v.value else "(null)"
  }

  predicate FalseLine(k: string, v: Option<string>) {
    IsHeader(PlainLine(k, v))
  }

  lemma PlainWeight(f: Measure, k: Option<string>, v: Option<string>)
    requires k.Some? && ':' in k.value
    ensures Weight(f, PlainLine(k.value, v)) <= MostWeight(f, k, v)
    ensures f == Bracketed && IsHeader(PlainLine(k.value, v)) ==>
      Weight(f, PlainLine(k.value, v)) == 0 && MostWeight(f, k, v) == 1
  {
    hide IsHeader, Blank;
    var l := PlainLine(k.value, v);
    if IsHeader(l) {
      HeaderBracket(l);
    }
  }

  lemma PlainStep(ks: Slots, vs: Slots)
    requires |ks| == |vs| && ks != []
    ensures var n := |ks| - 1;
      PlainLines(ks, vs) == PlainLines(ks[..n], vs[..n]) + if ks[n].Some? then [PlainLine(ks[n].value, vs[n])] else []
  {
    var n := |ks| - 1;
    if ks[n].Some? {
      var k := ks[n].value;
      assert k + " = " + (if vs[n].Some? then vs[n].value else "(null)") == PlainLine(k, vs[n]);
    }
  }

  lemma NoPlainLine(f: Measure)
    ensures PlainLines([], []) == [] && Weigh(f, []) == 0
  {
  }

  lemma PlainKey(ks: Slots)
    requires Names(ks) == [] && ks != []
    ensures Names(ks[..|ks| - 1]) == [] && (ks[|ks| - 1].Some? ==> ':' in ks[|ks| - 1].value)
  {
  }

  lemma {:induction false} PlainBound(f: Measure, ks: Slots, vs: Slots)
    requires |ks| == |vs| && Names(ks) == []
    ensures Weigh(f, PlainLines(ks, vs)) <= MostWeights(f, ks, vs)
    decreases |ks|
  {
    hide MostWeight, Weight, PlainLine, PlainLines, Names;
    if ks == [] {
      NoPlainLine(f);
    } else {
      var n := |ks| - 1;
      PlainKey(ks);
      PlainBound(f, ks[..n], vs[..n]);
      PlainStep(ks, vs);
      var lines := PlainLines(ks[..n], vs[..n]);
      if ks[n].Some? {
        WeighOne(f, lines, PlainLine(ks[n].value, vs[n]));
        PlainWeight(f, ks[n], vs[n]);
      } else {
        assert lines + [] == lines;
      }
    }
  }

  lemma {:induction false} PlainBelow(ks: Slots, vs: Slots, i: nat)
    requires |ks| == |vs| && Names(ks) == [] && i < |ks| && ks[i].Some? && IsHeader(PlainLine(ks[i].value, vs[i]))
    ensures Weigh(Bracketed, PlainLines(ks, vs)) < MostWeights(Bracketed, ks, vs)
    decreases |ks|
  {
    hide MostWeight, Weight, PlainLine, PlainLines, IsHeader, Names;
    var n := |ks| - 1;
    PlainKey(ks);
    PlainStep(ks, vs);
    var lines := PlainLines(ks[..n], vs[..n]);
    assert i < n ==> ks[..n][i] == ks[i] && vs[..n][i] == vs[i];
    if ks[n].Some? {
      WeighOne(Bracketed, lines, PlainLine(ks[n].value, vs[n]));
      PlainWeight(Bracketed, ks[n], vs[n]);
    } else {
      assert lines + [] == lines;
    }
    if i == n {
      PlainBound(Bracketed, ks[..n], vs[..n]);
    } else {
      PlainBelow(ks[..n], vs[..n], i);
    }
  }

  lemma {:induction false} PlainIn(ks: Slots, vs: Slots)
    requires |ks| == |vs|
    ensures forall i :: 0 <= i < |ks| && ks[i].Some? ==> PlainLine(ks[i].value, vs[i]) in PlainLines(ks, vs)
    ensures forall l :: l in PlainLines(ks, vs) ==>
      exists i :: 0 <= i < |ks| && ks[i].Some? && l == PlainLine(ks[i].value, vs[i])
    decreases |ks|
  {
    hide PlainLine, PlainLines;
    if ks == [] {
      NoPlainLine(Filled);
    } else {
      var n := |ks| - 1;
      assert forall i :: 0 <= i < n ==> ks[..n][i] == ks[i] && vs[..n][i] == vs[i];
      PlainIn(ks[..n], vs[..n]);
      PlainStep(ks, vs);
      forall l | l in PlainLines(ks, vs)
        ensures exists i :: 0 <= i < |ks| && ks[i].Some? && l == PlainLine(ks[i].value, vs[i])
      {
        if l in PlainLines(ks[..n], vs[..n]) {
          var i :| 0 <= i < n && ks[..n][i].Some? && l == PlainLine(ks[..n][i].value, vs[..n][i]);
          assert ks[i].Some? && l == PlainLine(ks[i].value, vs[i]);
        } else {
          assert ks[n].Some? && l == PlainLine(ks[n].value, vs[n]);
        }
      }
    }
  }

  lemma PlainUnheaded(ks: Slots, vs: Slots, m: Entries)
    requires Matches(ks, vs, m) && Names(ks) == [] && Short(PlainLines(ks, vs))
    requires Fold(START, PlainLines(ks, vs)).entries == m
    ensures forall l :: l in PlainLines(ks, vs) ==> !IsHeader(l)
  {
    hide IsHeader, Fold, PlainLine, PlainLines, MarkedKeys, MostWeights, Weigh, Shaped, Names;
    PlainBound(Bracketed, ks, vs);
    FoldShaped(PlainLines(ks, vs));
    PlainIn(ks, vs);
    forall l | l in PlainLines(ks, vs)
      ensures !IsHeader(l)
    {
      var i :| 0 <= i < |ks| && ks[i].Some? && l == PlainLine(ks[i].value, vs[i]);
      if IsHeader(l) {
        PlainBelow(ks, vs, i);
      }
    }
  }

  lemma ColonKey(k: string)
    requires StoredUnder(k, "")
    ensures GoodKey(k) && k[0] == ':'
  {
    assert "" + ":" == ":";
    var name := k[1..];
    assert k == ":" + name;
    assert k[|k| - 1] == name[|name| - 1];
  }

  lemma PlainReads(k: string, v: Option<string>)
    requires StoredUnder(k, "") && !IsHeader(PlainLine(k, v))
    ensures ParseLine(PlainLine(k, v), "").LineValue? && ParseLine(PlainLine(k, v), "").key == k
  {
    hide IsHeader, ParseLine, Lower, Strip, ValueRead;
    ColonKey(k);
    CanonicalFixed(k);
    assert k + "" == k;
    PaddedReads(k, "", if v.Some? then v.value else "(null)", "");
  }

  lemma KeySlot(ks: Slots, vs: Slots, m: Entries, k: string) returns (i: nat)
    requires Matches(ks, vs, m) && k in m
    ensures i < |ks| == |vs| && ks[i] == Some(k)
  {
    hide MostWeights, MarkedKeys;
    i :| 0 <= i < |ks| && ks[i] == Some(k);
  }

  lemma KeyStored(k: string)
    requires StoredUnder(k, "")
    ensures |k| <= ASCIILINESZ
  {
  }

  /** Without sections, every key that is stored makes one that is longer by a colon. */
  lemma PlainGrows(ks: Slots, vs: Slots, m: Entries, k: string)
    requires Matches(ks, vs, m) && Names(ks) == [] && AllPrintable(PlainLines(ks, vs)) && k in m
    requires var r := Fold(START, PlainLines(ks, vs)); !r.overrun && r.entries == m
    ensures ":" + k in m && |k| <= ASCIILINESZ
  {
    hide IsHeader, Fold, PlainLine, PlainLines, ParseLine, StoredUnder, Matches, Names;
    var i := KeySlot(ks, vs, m, k);
    var lines := PlainLines(ks, vs);
    PrintableShort(lines);
    PlainIn(ks, vs);
    PlainUnheaded(ks, vs, m);
    FoldValues(START, lines);
    assert StoredUnder(k, "");
    KeyStored(k);
    PlainReads(k, vs[i]);
    LineStores(START, lines, PlainLine(k, vs[i]));
    assert "" + ":" + k == ":" + k;
  }

  lemma {:induction false} LongKey(ks: Slots, vs: Slots, m: Entries, k: string, n: nat) returns (l: string)
    requires Matches(ks, vs, m) && Names(ks) == [] && AllPrintable(PlainLines(ks, vs)) && k in m
    requires var r := Fold(START, PlainLines(ks, vs)); !r.overrun && r.entries == m
    ensures l in m && |l| == |k| + n && |l| <= ASCIILINESZ
    decreases n
  {
    hide Matches, AllPrintable, Fold, PlainLines, Names;
    PlainGrows(ks, vs, m, k);
    if n == 0 {
      l := k;
    } else {
      l := LongKey(ks, vs, m, ":" + k, n - 1);
    }
  }

  /** So only the empty dictionary comes back without sections. */
  lemma PlainEmpty(ks: Slots, vs: Slots, m: Entries)
    requires Matches(ks, vs, m) && Names(ks) == [] && AllPrintable(PlainLines(ks, vs))
    requires var r := Fold(START, PlainLines(ks, vs)); !r.overrun && r.entries == m
    ensures Readable(ks, vs)
  {
    hide AllPrintable, Fold, PlainLines, EntryOk, SectionOk, MostWeights, MarkedKeys, Names;
    if k :| k in m {
      var l := LongKey(ks, vs, m, k, ASCIILINESZ + 1);
    }
  }

  // ---------------------------------------------------------------- The lines of a dictionary

  lemma BlankLast(ls: seq<string>)
    ensures Fold(START, ls + [""]) == Fold(START, ls)
    ensures AllPrintable(ls + [""]) ==> AllPrintable(ls)
    ensures Weigh(Filled, ls + [""]) == Weigh(Filled, ls)
  {
    hide Step, Printable;
    FoldOne(START, ls, "");
    StepBlank(Fold(START, ls));
    WeighOne(Filled, ls, "");
    assert forall l :: l in ls ==> l in ls + [""];
  }

  /** When printable lines of a dictionary store associations that match its slots, every slot is readable. */
  lemma LinesReadable(ks: Slots, vs: Slots, m: Entries)
    requires Matches(ks, vs, m) && Unique(ks) && AllPrintable(DumpLines(ks, vs))
    requires var r := Fold(START, DumpLines(ks, vs)); !r.overrun && r.entries == m
    ensures Readable(ks, vs)
  {
    hide Unique, AllPrintable, Readable, Fold, SectionLines, PlainLines, Names, MostWeights, MarkedKeys;
    if Names(ks) == [] {
      PlainEmpty(ks, vs, m);
    } else {
      BlankLast(SectionLines(ks, vs, Names(ks)));
      SectionsReadable(ks, vs, m);
    }
  }

  lemma {:induction false} NamesCounted(ks: Slots, vs: Slots)
    requires |ks| == |vs|
    ensures MostWeights(Filled, ks, vs) + |Names(ks)| == Occupied(ks)
    decreases |ks|
  {
    if ks != [] {
      NamesCounted(ks[..|ks| - 1], vs[..|vs| - 1]);
    }
  }

  /** A dictionary is printed on no more lines that are not blank than it has associations. */
  lemma DumpWeight(ks: Slots, vs: Slots, m: Entries)
    requires Holds(ks, vs, m) && Unique(ks)
    ensures |ks| == |vs| && Weigh(Filled, DumpLines(ks, vs)) <= |m|
  {
    hide Holds, Unique, Weigh, Names, SectionLines, PlainLines, Total, MostWeights, Occupied;
    SameLength(ks, vs, m);
    CountIsSize(ks, vs, m);
    NamesCounted(ks, vs);
    var names := Names(ks);
    if names == [] {
      PlainBound(Filled, ks, vs);
    } else {
      NamesOf(ks);
      NamesDistinct(ks);
      BlankLast(SectionLines(ks, vs, names));
      SectionsWeigh(Filled, ks, vs, names);
      TotalBound(Filled, ks, vs, names);
    }
  }
}
