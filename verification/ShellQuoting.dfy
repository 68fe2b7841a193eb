/** The quoting loops of the SQL shell: one text from three loops, which a reader of SQL strings takes apart again. */
module ShellQuoting {
  import opened Wrappers
  import opened Strings

  // ---------------------------------------------------------------- What quoting means

  /** Every quote character written twice. */
  function Doubled(s: string, q: char): string {
    if s == [] then [] else Doubled(s[..|s| - 1], q) + if s[|s| - 1] == q then [q, q] else [s[|s| - 1]]
  }

  function Quoted(s: string, q: char): string {
    [q] + Doubled(s, q) + [q]
  }

  function Prefixed(c: char, r: Option<(string, string)>): Option<(string, string)> {
    if r.None? then None else Some(([c] + r.value.0, r.value.1))
  }

  /** What a reader makes of text after an opening quote: the string, and what follows its closing quote. */
  function ReadBody(text: string, q: char): Option<(string, string)> {
    if text == [] then
      None
    else if text[0] != q then
      Prefixed(text[0], ReadBody(text[1..], q))
    else if |text| >= 2 && text[1] == q then
      Prefixed(q, ReadBody(text[2..], q))
    else
      Some(([], text[1..]))
  }

  lemma {:induction false} DoubledAppend(a: string, b: string, q: char)
    ensures Doubled(a + b, q) == Doubled(a, q) + Doubled(b, q)
    decreases |b|
  {
    if b == [] {
      assert a + b == a;
    } else {
      assert (a + b)[..|a + b| - 1] == a + b[..|b| - 1];
      DoubledAppend(a, b[..|b| - 1], q);
    }
  }

  lemma {:induction false} DoubledPlain(s: string, q: char)
    requires q !in s
    ensures Doubled(s, q) == s
    decreases |s|
  {
    if s != [] {
      DoubledPlain(s[..|s| - 1], q);
    }
  }

  lemma DoubledOne(c: char, q: char)
    ensures Doubled([c], q) == if c == q then [q, q] else [c]
  {
    assert [c][..0] == [];
  }

  lemma ReadOne(c: char, tail: string, q: char)
    ensures ReadBody((if c == q then [q, q] else [c]) + tail, q) == Prefixed(c, ReadBody(tail, q))
  {
    assert ([q, q] + tail)[2..] == tail && ([c] + tail)[1..] == tail;
  }

  /** The number of quote characters. */
  function Count(s: string, q: char): nat {
    if s == [] then 0 else Count(s[..|s| - 1], q) + if s[|s| - 1] == q then 1 else 0
  }

  lemma DoubledNone(z: string, q: char)
    ensures Doubled(z[..0], q) == [] && Count(z[..0], q) == 0
  {
  }

  lemma {:induction false} ReadDoubled(s: string, rest: string, q: char)
    requires rest == [] || rest[0] != q
    ensures ReadBody(Doubled(s, q) + [q] + rest, q) == Some((s, rest))
    decreases |s|
  {
    hide Doubled;
    if s == [] {
      DoubledNone(s, q);
      assert ([q] + rest)[1..] == rest;
      assert Doubled(s, q) + [q] + rest == [q] + rest;
    } else {
      var c, t := s[0], s[1..];
      assert s == [c] + t;
      assert [c] + t == s;
      DoubledAppend([c], t, q);
      DoubledOne(c, q);
      ReadDoubled(t, rest, q);
      var tail := Doubled(t, q) + [q] + rest;
      assert Doubled(s, q) + [q] + rest == Doubled([c], q) + tail;
      ReadOne(c, tail, q);
    }
  }

  /** A quoted string in any context that does not start with a quote reads back as itself, and the context is left. */
  lemma QuotedReads(s: string, rest: string, q: char)
    requires rest == [] || rest[0] != q
    ensures var text := Quoted(s, q) + rest; text[0] == q && ReadBody(text[1..], q) == Some((s, rest))
  {
    ReadDoubled(s, rest, q);
    assert (Quoted(s, q) + rest)[1..] == Doubled(s, q) + [q] + rest;
  }

  // ---------------------------------------------------------------- output_quoted_string

  lemma DoubledNext(z: string, i: nat, q: char)
    requires i < |z|
    ensures Doubled(z[..i + 1], q) == Doubled(z[..i], q) + if z[i] == q then [q, q] else [z[i]]
    ensures Count(z[..i + 1], q) == Count(z[..i], q) + if z[i] == q then 1 else 0
  {
    assert z[..i + 1][..i] == z[..i];
  }

  /** A run without quotes, and the quote that ends it. */
  lemma DoubledRun(z: string, p: nat, i: nat, q: char)
    requires p + i <= |z| && forall k :: p <= k < p + i ==> z[k] != q
    ensures Doubled(z[..p + i], q) == Doubled(z[..p], q) + z[p..p + i]
    ensures p + i < |z| && z[p + i] == q ==> Doubled(z[..p + i + 1], q) == Doubled(z[..p], q) + z[p..p + i] + [q, q]
  {
    DoubledPlain(z[p..p + i], q);
    DoubledAppend(z[..p], z[p..p + i], q);
    assert z[..p] + z[p..p + i] == z[..p + i];
    if p + i < |z| {
      DoubledNext(z, p + i, q);
    }
  }

  /** The inner loop: the characters before the next quote. */
  method RunLength(z: string, p: nat) returns (i: nat)
    requires p <= |z|
    ensures p + i <= |z| && (forall k :: p <= k < p + i ==> z[k] != QUOTE) && (p + i < |z| ==> z[p + i] == QUOTE)
  {
    i := 0;
    while p + i < |z| && z[p + i] != QUOTE
      invariant p + i <= |z| && forall k :: p <= k < p + i ==> z[k] != QUOTE
    {
      i := i + 1;
    }
  }

  /** The loop of output_quoted_string. */
  method OutputRuns(z: string) returns (out: string)
    ensures out == Quoted(z, QUOTE)
  {
    hide Doubled, Count;
    DoubledNone(z, QUOTE);
    out := [QUOTE];
    var p := 0;
    while p < |z|
      invariant 0 <= p <= |z| && out == [QUOTE] + Doubled(z[..p], QUOTE)
    {
      var i := RunLength(z, p);
      DoubledRun(z, p, i, QUOTE);
      if i == 0 {
        assert z[p..p] == [];
        out := out + [QUOTE, QUOTE];
        p := p + 1;
      } else if p + i < |z| {
        out := out + z[p..p + i] + [QUOTE, QUOTE];
        p := p + i + 1;
      } else {
        out := out + z[p..];
        p := |z|;
      }
    }
    assert z[..p] == z;
    out := out + [QUOTE];
  }

  /** output_quoted_string: whole runs without quotes at a time. */
  method OutputQuotedString(z: string) returns (out: string)
    ensures out == Quoted(z, QUOTE)
  {
    hide Doubled, Count;
    var nSingle := 0;
    for i := 0 to |z|
      invariant nSingle >= 0 && (nSingle == 0 <==> forall k :: 0 <= k < i ==> z[k] != QUOTE)
    {
      if z[i] == QUOTE {
        nSingle := nSingle + 1;
      }
    }
    if nSingle == 0 {
      DoubledPlain(z, QUOTE);
      return [QUOTE] + z + [QUOTE];
    }
    out := OutputRuns(z);
  }

  // ---------------------------------------------------------------- appendText

  lemma {:induction false} DoubledLength(s: string, q: char)
    ensures |Doubled(s, q)| == |s| + Count(s, q)
    decreases |s|
  {
    if s != [] {
      DoubledLength(s[..|s| - 1], q);
    }
  }

  lemma {:induction false} CountPrefix(s: string, i: nat, q: char)
    requires i <= |s|
    ensures Count(s[..i], q) <= Count(s, q)
    decreases |s|
  {
    if i < |s| {
      assert s[..|s| - 1][..i] == s[..i];
      CountPrefix(s[..|s| - 1], i, q);
    } else {
      assert s[..i] == s;
    }
  }

  /** Copies s to the cursor, doubling quotes: the loop that appendText and set_table_name share. */
  method CopyDoubled(buf: array<char>, start: nat, s: string, q: char) returns (cursor: nat)
    requires start + |s| + Count(s, q) <= buf.Length
    modifies buf
    ensures cursor == start + |s| + Count(s, q)
    ensures buf[..cursor] == old(buf[..start]) + Doubled(s, q)
  {
    hide Doubled, Count;
    cursor := start;
    DoubledNone(s, q);
    for i := 0 to |s|
      invariant cursor == start + i + Count(s[..i], q)
      invariant cursor <= buf.Length && buf[..cursor] == old(buf[..start]) + Doubled(s[..i], q)
    {
      DoubledNext(s, i, q);
      CountPrefix(s, i + 1, q);
      buf[cursor] := s[i];
      cursor := cursor + 1;
      if s[i] == q {
        buf[cursor] := q;
        cursor := cursor + 1;
      }
    }
    assert s[..|s|] == s;
  }

  /** realloc: a buffer of len characters that begins with the old text. */
  method Realloc(before: string, len: nat) returns (buf: array<char>)
    requires |before| <= len
    ensures fresh(buf) && buf.Length == len && buf[..|before|] == before
  {
    buf := new char[len](i => if 0 <= i < |before| then before[i] else NUL);
  }

  method AppendPlain(before: string, zAppend: string) returns (buf: array<char>)
    ensures fresh(buf) && buf[..] == before + zAppend + [NUL]
  {
    var nAppend, nIn := |zAppend|, |before|;
    var len := nAppend + nIn + 1;
    buf := Realloc(before, len);
    forall i | 0 <= i < nAppend {
      buf[nIn + i] := zAppend[i];
    }
    buf[len - 1] := NUL;
    assert buf[..nIn] == before && buf[nIn..len - 1] == zAppend;
    assert buf[..] == buf[..nIn] + buf[nIn..len - 1] + [NUL];
  }

  /** The length that appendText computes before it quotes. */
  method QuotedLength(nIn: nat, zAppend: string, quote: char) returns (len: nat)
    ensures len == nIn + |zAppend| + 3 + Count(zAppend, quote)
  {
    hide Count;
    var nAppend := |zAppend|;
    len := nAppend + nIn + 3;
    DoubledNone(zAppend, quote);
    for i := 0 to nAppend
      invariant len == nAppend + nIn + 3 + Count(zAppend[..i], quote)
    {
      DoubledNext(zAppend, i, quote);
      if zAppend[i] == quote {
        len := len + 1;
      }
    }
    assert zAppend[..nAppend] == zAppend;
  }

  method AppendQuoted(before: string, zAppend: string, quote: char) returns (buf: array<char>)
    ensures fresh(buf) && buf[..] == before + Quoted(zAppend, quote) + [NUL]
  {
    hide Doubled, Count;
    var nIn := |before|;
    var len := QuotedLength(nIn, zAppend, quote);
    buf := Realloc(before, len);
    buf[nIn] := quote;
    assert buf[..nIn + 1] == before + [quote];
    var zCsr := CopyDoubled(buf, nIn + 1, zAppend, quote);
    buf[zCsr] := quote;
    zCsr := zCsr + 1;
    assert buf[..zCsr] == buf[..zCsr - 1] + [quote];
    buf[zCsr] := NUL;
    zCsr := zCsr + 1;
    assert zCsr == len;
    assert buf[..] == buf[..zCsr - 1] + [NUL];
    assert before + [quote] + Doubled(zAppend, quote) + [quote] == before + Quoted(zAppend, quote);
  }

  /** appendText: the text so far, then the new text, quoted when a quote is given; the buffer is exactly filled. */
  method AppendText(zIn: Option<string>, zAppend: string, quote: char) returns (buf: array<char>)
    ensures fresh(buf)
    ensures buf[..]
         == (if zIn.Some? then zIn.value else []) + (if quote != NUL then Quoted(zAppend, quote) else zAppend) + [NUL]
  {
    var before := if zIn.Some? then zIn.value else [];
    if quote != NUL {
      buf := AppendQuoted(before, zAppend, quote);
    } else {
      buf := AppendPlain(before, zAppend);
    }
  }

  // ---------------------------------------------------------------- set_table_name

  predicate IsAlpha(c: char) {
    'a' <= c <= 'z' || 'A' <= c <= 'Z'
  }

  predicate IsNameChar(c: char) {
    IsAlpha(c) || '0' <= c <= '9' || c == '_'
  }

  /** A name that SQL takes without quotes. */
  predicate PlainName(s: string) {
    s != [] && (IsAlpha(s[0]) || s[0] == '_') && forall c :: c in s ==> IsNameChar(c)
  }

  const SMALL := "abcdefghijklmnopqrstuvwxyz"
  const CAPITALS := "ABCDEFGHIJKLMNOPQRSTUVWXYZ"

  lemma SmallIs(c: char)
    ensures 'a' <= c <= 'z' <==> c in SMALL
  {
    assert forall k :: 0 <= k < 26 ==> SMALL[k] == ('a' as int + k) as char;
    if 'a' <= c <= 'z' {
      assert SMALL[c as int - 'a' as int] == c;
    }
  }

  lemma CapitalIs(c: char)
    ensures 'A' <= c <= 'Z' <==> c in CAPITALS
  {
    assert forall k :: 0 <= k < 26 ==> CAPITALS[k] == ('A' as int + k) as char;
    if 'A' <= c <= 'Z' {
      assert CAPITALS[c as int - 'A' as int] == c;
    }
  }

  lemma IsDigitIs(c: char)
    ensures '0' <= c <= '9' <==> c in "0123456789"
  {
    assert forall k :: 0 <= k < 10 ==> "0123456789"[k] == ('0' as int + k) as char;
    if '0' <= c <= '9' {
      assert "0123456789"[c as int - '0' as int] == c;
    }
  }

  lemma NameCharIs(c: char)
    ensures IsNameChar(c) <==> c in SMALL || c in CAPITALS || c in "0123456789" || c == '_'
    ensures IsNameChar(c) ==> (IsAlpha(c) || c == '_' <==> c !in "0123456789")
  {
    SmallIs(c);
    CapitalIs(c);
    IsDigitIs(c);
  }

  /** A plain name has letters, digits and underscores only, and does not begin with a digit. */
  lemma PlainNameIs(s: string)
    ensures PlainName(s) <==>
      s != "" && s[0] !in "0123456789"
      && forall c :: c in s ==> c in SMALL || c in CAPITALS || c in "0123456789" || c == '_'
  {
    hide IsAlpha, IsNameChar;
    forall c | c in s
      ensures IsNameChar(c) <==> c in SMALL || c in CAPITALS || c in "0123456789" || c == '_'
    {
      NameCharIs(c);
    }
    if s != "" {
      assert s[0] in s;
      NameCharIs(s[0]);
    }
  }

  lemma QuotedExample()
    ensures Quoted("it\'s", QUOTE) == "\'it\'\'s\'"
  {
    hide Doubled;
    DoubledPlain("it", QUOTE);
    DoubledPlain("s", QUOTE);
    DoubledOne('\'', QUOTE);
    DoubledAppend("it", "\'", QUOTE);
    DoubledAppend("it\'", "s", QUOTE);
    assert "it" + "\'" == "it\'" && "it\'" + "s" == "it\'s" && ['\''] == "\'";
  }

  /** The copying half of set_table_name. */
  method FillName(zName: string, needQuote: bool, size: nat) returns (z: array<char>)
    requires size == |zName| + Count(zName, QUOTE) + if needQuote then 2 else 0
    ensures fresh(z) && z[..] == (if needQuote then Quoted(zName, QUOTE) else Doubled(zName, QUOTE)) + [NUL]
  {
    hide Doubled, Count;
    var n := size;
    z := new char[n + 1];
    n := 0;
    if needQuote {
      z[0] := QUOTE;
      n := 1;
    }
    ghost var opening := z[..n];
    n := CopyDoubled(z, n, zName, QUOTE);
    if needQuote {
      z[n] := QUOTE;
      n := n + 1;
      assert z[..n] == z[..n - 1] + [QUOTE];
    }
    z[n] := NUL;
    assert z[..] == z[..n] + [NUL];
    assert opening == if needQuote then [QUOTE] else [];
  }

  /** The loops of set_table_name: a plain name stays as it is, any other is quoted; the buffer is exactly filled. */
  method TableName(zName: string) returns (z: array<char>)
    requires CText(zName)
    ensures fresh(z) && z[..] == (if PlainName(zName) then zName else Quoted(zName, QUOTE)) + [NUL]
  {
    hide Doubled, Count;
    DoubledNone(zName, QUOTE);
    var needQuote := zName == [] || (!IsAlpha(zName[0]) && zName[0] != '_');
    var n := 0;
    for i := 0 to |zName|
      invariant n == i + Count(zName[..i], QUOTE)
      invariant needQuote <==>
        zName == [] || !(IsAlpha(zName[0]) || zName[0] == '_') || exists j :: 0 <= j < i && !IsNameChar(zName[j])
    {
      DoubledNext(zName, i, QUOTE);
      n := n + 1;
      if !IsNameChar(zName[i]) {
        needQuote := true;
        if zName[i] == QUOTE {
          n := n + 1;
        }
      }
    }
    assert zName[..|zName|] == zName;
    assert needQuote <==> !PlainName(zName);
    DoubledLength(zName, QUOTE);
    if needQuote {
      n := n + 2;
    } else {
      DoubledPlain(zName, QUOTE);
    }
    z := FillName(zName, needQuote, n);
  }

  /** The part of callback_data that names the destination table. */
  class CallbackData {
    var zDestTable: array?<char>

    constructor ()
      ensures zDestTable == null
    {
      zDestTable := null;
    }

    /** set_table_name: the old name is given up, and without a new one there is none. */
    method SetTableName(zName: Option<string>)
      requires zName.Some? ==> CText(zName.value)
      modifies this
      ensures zName.None? ==> zDestTable == null
      ensures zName.Some? ==>
        && zDestTable != null && fresh(zDestTable)
        && zDestTable[..] == (if PlainName(zName.value) then zName.value else Quoted(zName.value, QUOTE)) + [NUL]
    {
      if zDestTable != null {
        zDestTable := null;
      }
      if zName.None? {
        return;
      }
      zDestTable := TableName(zName.value);
    }
  }

  /** The three loops agree on every string: the printed literal, the appended text, the quoted table name. */
  method SameText(s: string) returns (printed: string, appended: array<char>, named: array<char>)
    requires CText(s)
    ensures appended[..] == printed + [NUL]
    ensures !PlainName(s) ==> named[..] == appended[..]
    ensures printed != [] && printed[0] == QUOTE && ReadBody(printed[1..], QUOTE) == Some((s, []))
  {
    printed := OutputQuotedString(s);
    appended := AppendText(None, s, QUOTE);
    var p := new CallbackData();
    p.SetTableName(Some(s));
    named := p.zDestTable;
    QuotedReads(s, [], QUOTE);
    assert printed + [] == printed;
    assert [] + printed + [NUL] == printed + [NUL];
  }
}
