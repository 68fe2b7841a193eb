/** iniparser_dump_ini: the sections of a dictionary and the text that is printed of it. */
module IniDump {
  import opened Wrappers
  import opened Strings
  import opened IniText
  import opened IniLine
  import opened Dictionary

  // ---------------------------------------------------------------- What is printed

  predicate IsName(k: Option<string>) {
    k.Some? && ':' !in k.value
  }

  /** The names of the sections, in slot order: the keys without a colon. */
  function Names(ks: Slots): seq<string> {
    if ks == [] then []
    else Names(ks[..|ks| - 1]) + if IsName(ks[|ks| - 1]) then [ks[|ks| - 1].value] else []
  }

  /** The slot holds a key of section s. */
  predicate Belongs(k: Option<string>, s: string) {
    k.Some? && StartsWith(k.value, s + ":")
  }

  /** The line printed for a slot of section s. */
  function SlotLine(k: string, v: Option<string>, s: string): string
    requires StartsWith(k, s + ":")
  {
    EntryLine(k[|s| + 1..], if v.Some? then v.value else "")
  }

  /** The lines of one section, in slot order. */
  function EntryLines(ks: Slots, vs: Slots, s: string): seq<string>
    requires |ks| == |vs|
  {
    if ks == [] then []
    else
      var n := |ks| - 1;
      EntryLines(ks[..n], vs[..n], s) + if Belongs(ks[n], s) then [SlotLine(ks[n].value, vs[n], s)] else []
  }

  /** The lines of the given sections, each after an empty line and its header. */
  function SectionLines(ks: Slots, vs: Slots, names: seq<string>): seq<string>
    requires |ks| == |vs|
  {
    if names == [] then []
    else
      var s := names[|names| - 1];
      SectionLines(ks, vs, names[..|names| - 1]) + (["", "[" + s + "]"] + EntryLines(ks, vs, s))
  }

  /** Without sections every slot is printed as it stands; a NULL value prints as the C library shows it. */
  function PlainLines(ks: Slots, vs: Slots): seq<string>
    requires |ks| == |vs|
  {
    if ks == [] then []
    else
      var n := |ks| - 1;
      PlainLines(ks[..n], vs[..n])
      + if ks[n].Some? then [ks[n].value + " = " + if vs[n].Some? then vs[n].value else "(null)"] else []
  }

  function Unlines(ls: seq<string>): string {
    if ls == [] then "" else Unlines(ls[..|ls| - 1]) + ls[|ls| - 1] + "\n"
  }

  /** Every section name fits, with its colon and terminator, into the ASCIILINESZ + 1 characters of the buffer keym. */
  predicate NamesFit(ks: Slots) {
    forall s :: s in Names(ks) ==> |s| + 1 <= ASCIILINESZ
  }

  /** The text that iniparser_dump_ini writes. */
  function DumpText(ks: Slots, vs: Slots): string
    requires |ks| == |vs|
  {
    if Names(ks) == [] then Unlines(PlainLines(ks, vs))
    else Unlines(SectionLines(ks, vs, Names(ks)) + [""])
  }

  // ---------------------------------------------------------------- The loops

  /** iniparser_getnsec. */
  method IniparserGetNSec(d: Dictionary?) returns (nsec: int)
    requires d != null ==> d.Valid()
    ensures nsec == if d == null then -1 else |Names(d.key[..])|
  {
    if d == null {
      return -1;
    }
    nsec := 0;
    for i := 0 to d.size
      invariant nsec == |Names(d.key[..i])|
    {
      assert d.key[..i + 1][..i] == d.key[..i];
      if d.key[i].Some? {
        if ':' !in d.key[i].value {
          nsec := nsec + 1;
        }
      }
    }
    assert d.key[..d.size] == d.key[..];
  }

  lemma {:induction false} NamesPrefix(ks: Slots, n: nat)
    requires n <= |ks|
    ensures Names(ks[..n]) <= Names(ks)
    decreases |ks|
  {
    if n < |ks| {
      assert ks[..|ks| - 1][..n] == ks[..n];
      NamesPrefix(ks[..|ks| - 1], n);
    } else {
      assert ks[..n] == ks;
    }
  }

  /** iniparser_getsecname: the name of section n, counting from zero in slot order. */
  method IniparserGetSecName(d: Dictionary?, n: int) returns (name: Option<string>)
    requires d != null ==> d.Valid()
    ensures name == if d == null || n < 0 || n >= |Names(d.key[..])| then None else Some(Names(d.key[..])[n])
  {
    if d == null || n < 0 {
      return None;
    }
    var foundsec, i := 0, 0;
    ghost var ks := d.key[..];
    while i < d.size
      invariant 0 <= i <= d.size && foundsec == |Names(ks[..i])| <= n
    {
      assert ks[..i + 1][..i] == ks[..i];
      NamesPrefix(ks, i + 1);
      if d.key[i].Some? {
        if ':' !in d.key[i].value {
          foundsec := foundsec + 1;
          if foundsec > n {
            return d.key[i];
          }
        }
      }
      i := i + 1;
    }
    assert ks[..d.size] == ks;
    return None;
  }

  lemma UnlinesOne(ls: seq<string>, l: string)
    ensures Unlines(ls + [l]) == Unlines(ls) + l + "\n"
  {
    assert (ls + [l])[..|ls|] == ls;
  }

  lemma UnlinesNone()
    ensures Unlines([]) == ""
  {
  }

  /** The loop of iniparser_dump_ini for a dictionary without sections. */
  method DumpPlain(d: Dictionary) returns (f: string)
    requires d.Valid()
    ensures f == Unlines(PlainLines(d.key[..], d.val[..]))
  {
    hide Unlines;
    ghost var ks, vs := d.key[..], d.val[..];
    f := "";
    UnlinesNone();
    for i := 0 to d.size
      invariant f == Unlines(PlainLines(ks[..i], vs[..i]))
    {
      assert ks[..i + 1][..i] == ks[..i] && vs[..i + 1][..i] == vs[..i];
      ghost var lines := PlainLines(ks[..i], vs[..i]);
      assert lines + [] == lines;
      if d.key[i].Some? {
        var line := d.key[i].value + " = " + if d.val[i].Some? then d.val[i].value else "(null)";
        UnlinesOne(lines, line);
        f := f + line + "\n";
      }
    }
    assert ks[..d.size] == ks && vs[..d.size] == vs;
  }

  /** The inner loop of iniparser_dump_ini: the entries of one section. */
  method DumpEntries(d: Dictionary, secname: string, f0: string, ghost before: seq<string>) returns (f: string)
    requires d.Valid() && f0 == Unlines(before)
    ensures f == Unlines(before + EntryLines(d.key[..], d.val[..], secname))
  {
    hide Unlines, EntryLine;
    ghost var ks, vs := d.key[..], d.val[..];
    var keym := secname + ":";
    f := f0;
    assert before + [] == before;
    for j := 0 to d.size
      invariant f == Unlines(before + EntryLines(ks[..j], vs[..j], secname))
    {
      assert ks[..j + 1][..j] == ks[..j] && vs[..j + 1][..j] == vs[..j];
      ghost var lines := EntryLines(ks[..j], vs[..j], secname);
      assert lines + [] == lines;
      if d.key[j].Some? {
        if StartsWith(d.key[j].value, keym) {
          var line := EntryLine(d.key[j].value[|secname| + 1..], if d.val[j].Some? then d.val[j].value else "");
          UnlinesOne(before + lines, line);
          assert before + lines + [line] == before + (lines + [line]);
          f := f + line + "\n";
        }
      }
    }
    assert ks[..d.size] == ks && vs[..d.size] == vs;
  }

  /** iniparser_dump_ini; overrun when memory behind the buffer keym is overwritten, after which nothing is known. */
  method IniparserDumpIni(d: Dictionary?) returns (f: string, overrun: bool)
    requires d != null ==> d.Valid()
    ensures overrun <==> d != null && !NamesFit(d.key[..])
    ensures !overrun ==> f == if d == null then "" else DumpText(d.key[..], d.val[..])
  {
    hide Unlines, EntryLines, PlainLines, Names;
    overrun := false;
    if d == null {
      return "", false;
    }
    ghost var ks, vs := d.key[..], d.val[..];
    f := "";
    UnlinesNone();
    var nsec := IniparserGetNSec(d);
    if nsec < 1 {
      f := DumpPlain(d);
      return;
    }
    ghost var names := Names(ks);
    for i := 0 to nsec
      invariant !overrun && forall j :: 0 <= j < i ==> |names[j]| + 1 <= ASCIILINESZ
      invariant f == Unlines(SectionLines(ks, vs, names[..i]))
    {
      var secname := IniparserGetSecName(d, i);
      ghost var lines := SectionLines(ks, vs, names[..i]);
      UnlinesOne(lines, "");
      UnlinesOne(lines + [""], "[" + names[i] + "]");
      f := f + "\n[" + secname.value + "]\n";
      if |secname.value| + 1 > ASCIILINESZ {
        assert names[i] in names;
        return f, true;
      }
      f := DumpEntries(d, secname.value, f, lines + [""] + ["[" + names[i] + "]"]);
      assert names[..i + 1][..i] == names[..i];
      assert lines + [""] + ["[" + names[i] + "]"] + EntryLines(ks, vs, names[i])
          == lines + (["", "[" + names[i] + "]"] + EntryLines(ks, vs, names[i]));
    }
    assert names[..nsec] == names;
    UnlinesOne(SectionLines(ks, vs, names), "");
    f := f + "\n";
  }
}
