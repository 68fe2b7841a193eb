/** Every sequence of calls on a dictionary, and the calls that iniparser.c makes on behalf of its users. */
module DictionaryRuns {
  import opened Wrappers
  import opened Dictionary
  import opened IniText

  // ---------------------------------------------------------------- Runs

  datatype Call =
    | SetCall(k: Option<string>, v: Option<string>)
    | UnsetCall(k: Option<string>)
    | GetCall(key: string, def: Option<string>)

  datatype Answer = Status(r: int) | Done | Value(v: Option<string>)

  /** What a plain map answers, and what it becomes. */
  function Apply(m: Entries, c: Call): (Entries, Answer) {
    match c
    case SetCall(None, _) => (m, Status(-1))
    case SetCall(Some(k), v) => (m[k := v], Status(0))
    case UnsetCall(None) => (m, Done)
    case UnsetCall(Some(k)) => (m - {k}, Done)
    case GetCall(k, def) => (m, Value(if k in m then m[k] else def))
  }

  function ApplyAll(m: Entries, cs: seq<Call>): (r: (Entries, seq<Answer>))
    ensures |r.1| == |cs|
  {
    if cs == [] then (m, [])
    else
      var (m1, as1) := ApplyAll(m, cs[..|cs| - 1]);
      var (m2, a) := Apply(m1, cs[|cs| - 1]);
      (m2, as1 + [a])
  }

  lemma SameLength(ks: Slots, vs: Slots, m: Entries)
    requires Holds(ks, vs, m)
    ensures |ks| == |vs|
  {
  }

  lemma NothingHeld(vs: Slots, m: Entries)
    requires Holds([], vs, m)
    ensures |m| == 0
  {
    assert m == map[];
  }

  lemma HeldButLast(ks: Slots, vs: Slots, m: Entries)
    requires Holds(ks, vs, m) && Unique(ks) && ks != []
    ensures |ks| == |vs| && Unique(ks[..|ks| - 1])
    ensures var n := |ks| - 1; Holds(ks[..n], vs[..n], if ks[n].Some? then m - {ks[n].value} else m)
    ensures ks[|ks| - 1].Some? ==> ks[|ks| - 1].value in m
  {
    var n := |ks| - 1;
    forall x | x in m && ks[n] != Some(x)
      ensures Some(x) in ks[..n]
    {
      var j :| 0 <= j < |ks| && ks[j] == Some(x);
      assert ks[..n][j] == Some(x);
    }
  }

  /** Distinct keys in the slots: as many as there are associations. */
  lemma {:induction false} CountIsSize(ks: Slots, vs: Slots, m: Entries)
    requires Holds(ks, vs, m) && Unique(ks)
    ensures Occupied(ks) == |m|
    decreases |ks|
  {
    hide Unique, Holds;
    SameLength(ks, vs, m);
    if ks == [] {
      NothingHeld(vs, m);
    } else {
      var n := |ks| - 1;
      HeldButLast(ks, vs, m);
      if ks[n].None? {
        CountIsSize(ks[..n], vs[..n], m);
      } else {
        var rest := m - {ks[n].value};
        CountIsSize(ks[..n], vs[..n], rest);
        assert m.Keys == rest.Keys + {ks[n].value};
      }
    }
  }

  /** A dictionary answers every sequence of calls like a map, and keeps count of its keys. */
  method Run(d: Dictionary, calls: seq<Call>) returns (answers: seq<Answer>)
    requires d.Valid()
    modifies d, d.key, d.val, d.hash
    ensures d.Valid()
    ensures (d.Contents, answers) == ApplyAll(old(d.Contents), calls)
    ensures d.n == |d.Contents|
  {
    answers := [];
    ghost var before := d.Contents;
    for i := 0 to |calls|
      invariant d.Valid() && (d.key == old(d.key) || fresh(d.key)) && (d.val == old(d.val) || fresh(d.val))
      invariant d.hash == old(d.hash) || fresh(d.hash)
      invariant (d.Contents, answers) == ApplyAll(before, calls[..i])
    {
      assert calls[..i + 1][..i] == calls[..i];
      match calls[i]
      case SetCall(k, v) =>
        var r := d.Set(k, v);
        answers := answers + [Status(r)];
      case UnsetCall(k) =>
        d.Unset(k);
        answers := answers + [Done];
      case GetCall(k, def) =>
        var v := d.Get(k, def);
        answers := answers + [Value(v)];
    }
    assert calls[..|calls|] == calls;
    CountIsSize(d.key[..], d.val[..], d.Contents);
  }

  // ---------------------------------------------------------------- iniparser.c

  /** iniparser_getstring: a NULL dictionary or key yields the default. */
  method IniparserGetString(d: Dictionary?, key: Option<string>, def: Option<string>) returns (v: Option<string>)
    requires d != null ==> d.Valid()
    ensures v == if d != null && key.Some? && Lower(key.value) in d.Contents then d.Contents[Lower(key.value)] else def
  {
    if d == null || key.None? {
      return def;
    }
    var lc := Strlwc(key.value);
    v := d.Get(lc, def);
  }

  /** iniparser_set: the entry is stored under its lower-case name, created when it was not there. */
  method IniparserSet(ini: Dictionary?, entry: Option<string>, val: Option<string>) returns (r: int)
    requires ini != null ==> ini.Valid()
    modifies if ini == null then {} else ini.Repr()
    ensures r == if ini == null || entry.None? then -1 else 0
    ensures ini != null ==> ini.Valid()
    ensures ini != null ==>
      ini.Contents == if entry.None? then old(ini.Contents) else old(ini.Contents)[Lower(entry.value) := val]
  {
    var lc := None;
    if entry.Some? {
      var l := Strlwc(entry.value);
      lc := Some(l);
    }
    if ini == null {
      return -1;
    }
    r := ini.Set(lc, val);
  }

  /** iniparser_unset. */
  method IniparserUnset(ini: Dictionary, entry: Option<string>)
    requires ini.Valid()
    modifies ini, ini.key, ini.val, ini.hash
    ensures ini.Valid()
    ensures ini.Contents == if entry.None? then old(ini.Contents) else old(ini.Contents) - {Lower(entry.value)}
  {
    var lc := None;
    if entry.Some? {
      var l := Strlwc(entry.value);
      lc := Some(l);
    }
    ini.Unset(lc);
  }
}
