/** One INI file and one dictionary, written out. */
module IniExample {
  import opened Wrappers
  import opened Strings
  import opened IniText
  import opened IniLine
  import opened IniLoad
  import opened IniDump
  import opened IniRoundTrip
  import opened IniMeaning
  import opened Dictionary

  // ---------------------------------------------------------------- Loading

  lemma Named(a: string, s: string, b: string, name: string)
    requires AllSpace(a) && AllSpace(b) && Trimmed(s) && |name| == |s| <= 1024
    requires forall i :: 0 <= i < |s| ==> name[i] == ToLower(s[i])
    ensures Lower(Strip(a + s + b)) == name
  {
    hide Strip;
    StripOf(a, s, b);
  }

  lemma MainHeader()
    ensures ParseLine("[ Main ]", "") == LineSection("main")
  {
    hide ParseLine, Lower, Strip;
    HeaderLine(" Main ", "", "");
    assert "[" + " Main " + "]" + "" == "[ Main ]" && " " + "Main" + " " == " Main ";
    Named(" ", "Main", " ", "main");
  }

  lemma NameText()
    ensures "Name " + "=" + (" " + ['\"'] + "A B" + ['\"'] + " ; as it was") == "Name = \"A B\" ; as it was"
  {
    assert " " + ['\"'] + "A B" + ['\"'] + " ; as it was" == " \"A B\" ; as it was";
  }

  lemma NameLine()
    ensures ParseLine("Name = \"A B\" ; as it was", "main") == LineValue("name", "A B")
  {
    hide ParseLine, Lower, Strip;
    QuotedValue("Name ", " ", '\"', "A B", " ; as it was", "main");
    NameText();
    assert "" + "Name" + " " == "Name ";
    Named("", "Name", " ", "name");
  }

  lemma PathLine()
    ensures ParseLine("path=/X # old", "main") == LineValue("path", "/X")
  {
    hide ParseLine, Lower, Strip;
    PlainValue("path", "", "/X", " ", "# old", "main");
    assert "" + "/X" + " " + "# old" == "/X # old" && "path" + "=" + "/X # old" == "path=/X # old";
    assert "" + "path" + "" == "path";
    Named("", "path", "", "path");
  }

  lemma EmptyLine()
    ensures ParseLine("Empty =", "b") == LineValue("empty", "")
  {
    hide ParseLine, Lower, Strip;
    PlainValue("Empty ", "", "", "", "", "b");
    assert "" + "" + "" + "" == "" && "Empty " + "=" + "" == "Empty =" && "" + "Empty" + " " == "Empty ";
    Named("", "Empty", " ", "empty");
  }

  lemma NextHeader()
    ensures ParseLine("[b]", "main") == LineSection("b")
  {
    hide ParseLine, Lower, Strip;
    HeaderLine("b", "", "main");
    assert "[" + "b" + "]" + "" == "[b]" && "" + "b" + "" == "b";
    Named("", "b", "", "b");
  }

  const FILE :=
    ["# settings", "[ Main ]", "Name = \"A B\" ; as it was", "path=/X # old", "", "[b]", "Empty ="]

  lemma StepSection(r: Reading, l: string, s: string)
    requires !r.overrun && ParseLine(l, r.section) == LineSection(s)
    ensures Step(r, l) == Reading(s, r.entries[s := None], 0, false)
  {
  }

  lemma StepValue(r: Reading, l: string, k: string, v: string)
    requires !r.overrun && ParseLine(l, r.section) == LineValue(k, v) && |r.section| + 1 + |k| <= 1024
    ensures Step(r, l) == Reading(r.section, r.entries[r.section + ":" + k := Some(v)], 0, false)
  {
  }

  lemma MainLines()
    ensures Fold(START, FILE[..4])
         == Reading("main", map["main" := None, "main:name" := Some("A B"), "main:path" := Some("/X")], 0, false)
  {
    hide ParseLine, Fold, Step;
    assert FILE[..0] == [] && FILE[..1] == [] + [FILE[0]] && FILE[..2] == FILE[..1] + [FILE[1]];
    assert FILE[..3] == FILE[..2] + [FILE[2]] && FILE[..4] == FILE[..3] + [FILE[3]];
    NothingSeen("");
    FoldOne(START, [], FILE[0]);
    FoldOne(START, FILE[..1], FILE[1]);
    FoldOne(START, FILE[..2], FILE[2]);
    FoldOne(START, FILE[..3], FILE[3]);
    CommentIgnored(START, "", " settings");
    assert "" + "#" + " settings" == "# settings";
    MainHeader();
    StepSection(START, FILE[1], "main");
    NameLine();
    var r := Reading("main", map["main" := None], 0, false);
    StepValue(r, FILE[2], "name", "A B");
    PathLine();
    assert "main" + ":" + "name" == "main:name" && "main" + ":" + "path" == "main:path";
    StepValue(r.(entries := map["main" := None, "main:name" := Some("A B")]), FILE[3], "path", "/X");
  }

  lemma AllLines()
    ensures Fold(START, FILE)
         == Reading("b", map["main" := None, "main:name" := Some("A B"), "main:path" := Some("/X"),
                             "b" := None, "b:empty" := Some("")], 0, false)
  {
    hide ParseLine, Fold, Step;
    assert FILE[..5] == FILE[..4] + [FILE[4]] && FILE[..6] == FILE[..5] + [FILE[5]] && FILE == FILE[..6] + [FILE[6]];
    FoldOne(START, FILE[..4], FILE[4]);
    FoldOne(START, FILE[..5], FILE[5]);
    FoldOne(START, FILE[..6], FILE[6]);
    MainLines();
    var r := Fold(START, FILE[..4]);
    StepBlank(r);
    NextHeader();
    StepSection(r, FILE[5], "b");
    EmptyLine();
    assert "b" + ":" + "empty" == "b:empty";
    StepValue(Step(r, FILE[5]), FILE[6], "empty", "");
  }

  lemma PrintableLine(l: string)
    requires '\n' !in l && |l| < 1000 && (l == "" || (!IsSpace(l[|l| - 1]) && l[|l| - 1] != '\\'))
    ensures Printable(l)
  {
  }

  /** A comment, a header with capitals and blanks, quoted, plain and empty values. */
  lemma LoadExample()
    ensures LoadText(Unlines(FILE))
         == Loaded(map["main" := None, "main:name" := Some("A B"), "main:path" := Some("/X"),
                       "b" := None, "b:empty" := Some("")])
  {
    hide Fold, Printable, Unlines, LoadText;
    forall l | l in FILE
      ensures Printable(l)
    {
      PrintableLine(l);
    }
    AllLines();
    LoadOfUnlines(FILE);
  }

  // ---------------------------------------------------------------- Dumping

  lemma NamesOne(ks: Slots, k: Option<string>)
    ensures Names(ks + [k]) == Names(ks) + if IsName(k) then [k.value] else []
  {
    assert (ks + [k])[..|ks|] == ks;
  }

  lemma EntryOne(ks: Slots, vs: Slots, k: Option<string>, v: Option<string>, s: string)
    requires |ks| == |vs|
    ensures EntryLines(ks + [k], vs + [v], s)
         == EntryLines(ks, vs, s) + if Belongs(k, s) then [SlotLine(k.value, v, s)] else []
  {
    hide SlotLine, StartsWith;
    assert (ks + [k])[..|ks|] == ks && (vs + [v])[..|vs|] == vs;
  }

  lemma SectionOne(ks: Slots, vs: Slots, names: seq<string>, s: string)
    requires |ks| == |vs|
    ensures SectionLines(ks, vs, names + [s])
         == SectionLines(ks, vs, names) + (["", "[" + s + "]"] + EntryLines(ks, vs, s))
  {
    hide EntryLines;
    assert (names + [s])[..|names|] == names;
  }

  const KEYS: Slots := [Some("b:k"), Some("b"), Some("a")]
  const VALUES: Slots := [Some("v"), None, None]

  lemma Nothing(s: string)
    ensures Names([]) == [] && EntryLines([], [], s) == [] && SectionLines(KEYS, VALUES, []) == []
  {
  }

  lemma NamesExample()
    ensures Names(KEYS) == ["b", "a"]
  {
    hide Names;
    NamesOne([], KEYS[0]);
    NamesOne([KEYS[0]], KEYS[1]);
    NamesOne([KEYS[0], KEYS[1]], KEYS[2]);
    Nothing("");
    assert "b:k"[1] == ':';
    assert [] + [KEYS[0]] == [KEYS[0]] && [KEYS[0]] + [KEYS[1]] == [KEYS[0], KEYS[1]];
    assert [KEYS[0], KEYS[1]] + [KEYS[2]] == KEYS;
  }

  lemma EntryText()
    ensures SlotLine("b:k", Some("v"), "b") == "k                              = v"
    ensures !Belongs(Some("b:k"), "a")
  {
    assert "b" + ":" == "b:" && "a" + ":" == "a:" && "b:k"[..2] == "b:" && "b:k"[2..] == "k";
    assert "b:k"[..2][0] == 'b' && "a:"[0] == 'a';
    assert PadRight("k") == "k                             ";
  }

  lemma EntryExample(s: string)
    requires s in {"a", "b"}
    ensures EntryLines(KEYS, VALUES, s) == if s == "b" then ["k                              = v"] else []
  {
    hide EntryLines, SlotLine;
    EntryOne([], [], KEYS[0], VALUES[0], s);
    EntryOne([KEYS[0]], [VALUES[0]], KEYS[1], VALUES[1], s);
    EntryOne([KEYS[0], KEYS[1]], [VALUES[0], VALUES[1]], KEYS[2], VALUES[2], s);
    Nothing(s);
    EntryText();
    assert [] + [KEYS[0]] == [KEYS[0]] && [KEYS[0]] + [KEYS[1]] == [KEYS[0], KEYS[1]];
    assert [] + [VALUES[0]] == [VALUES[0]] && [VALUES[0]] + [VALUES[1]] == [VALUES[0], VALUES[1]];
    assert [KEYS[0], KEYS[1]] + [KEYS[2]] == KEYS && [VALUES[0], VALUES[1]] + [VALUES[2]] == VALUES;
  }

  const LINES := ["", "[b]", "k                              = v", "", "[a]", ""]

  lemma LinesExample()
    ensures SectionLines(KEYS, VALUES, ["b", "a"]) + [""] == LINES
  {
    hide EntryLines, SectionLines;
    Nothing("");
    SectionOne(KEYS, VALUES, [], "b");
    SectionOne(KEYS, VALUES, ["b"], "a");
    EntryExample("a");
    EntryExample("b");
    assert [] + ["b"] == ["b"] && ["b"] + ["a"] == ["b", "a"];
    assert "[" + "b" + "]" == "[b]" && "[" + "a" + "]" == "[a]";
    assert [] + (["", "[b]"] + [LINES[2]]) == LINES[..3] && LINES[..3] + (["", "[a]"] + []) == LINES[..5];
  }

  /** Sections in the order of their slots, the name of an entry in thirty columns, an empty line at the end. */
  lemma DumpExample()
    ensures DumpText(KEYS, VALUES)
         == "\n" + ("[b]\n" + ("k                              = v\n" + ("\n" + ("[a]\n" + ("\n" + "")))))
  {
    hide EntryLines, Names, SectionLines, Unlines;
    NamesExample();
    LinesExample();
    UnlinesNone();
    UnlinesPrepend("", LINES[1..]);
    UnlinesPrepend("[b]", LINES[2..]);
    UnlinesPrepend(LINES[2], LINES[3..]);
    UnlinesPrepend("", LINES[4..]);
    UnlinesPrepend("[a]", LINES[5..]);
    UnlinesPrepend("", []);
    assert LINES == [""] + LINES[1..] && LINES[1..] == ["[b]"] + LINES[2..] && LINES[2..] == [LINES[2]] + LINES[3..];
    assert LINES[3..] == [""] + LINES[4..] && LINES[4..] == ["[a]"] + LINES[5..] && LINES[5..] == [""] + [];
  }
}
