/** The texts of protocol version 2: the header, sub-blocks, and the patterns and messages made of them. */
module Protocol {
  import opened Wrappers
  import opened Numbers
  import opened IniText

  // ---------------------------------------------------------------- Header

  const HEADER_LENGTH := 26

  /** common_create_header: the length is cut to an unsigned int. */
  function Header(stateFlags: string, dataLen: nat): string {
    "V2." + stateFlags + Padded(dataLen % 0x1_0000_0000, 17)
  }

  lemma TrimLeftShorter(s: string)
    ensures |TrimLeft(s)| <= |s|
  {
  }

  lemma {:induction false} ValueBound(s: string, k: nat)
    requires AllDigits(s) && |s| <= k
    ensures Value(s) < Pow10(k)
    decreases k
  {
    if s != [] {
      ValueBound(s[..|s| - 1], k - 1);
    }
  }

  lemma Pow10Of15()
    ensures Pow10(15) == 1_000_000_000_000_000
  {
    assert Pow10(5) == 100_000;
    assert Pow10(10) == 10_000_000_000;
  }

  /** A string of fifteen characters never leaves the range of strtoll. */
  lemma DigitsInRange(s: string)
    requires |s| <= 15
    ensures Myatoi(s).Some?
  {
    var t := TrimLeft(s);
    var u := if t != [] && t[0] in {'-', '+'} then t[1..] else t;
    TrimLeftShorter(s);
    ValueBound(u[..DigitRun(u)], 15);
    Pow10Of15();
  }

  /** common_get_data_block_length: the number from the twelfth character on, cut to an int. */
  function BlockLength(header: string): int
    requires |header| == HEADER_LENGTH
  {
    DigitsInRange(header[11..]);
    ToInt32(Myatoi(header[11..]).value)
  }

  lemma Pow10Of10()
    ensures Pow10(10) == 10_000_000_000
  {
    assert Pow10(5) == 100_000;
  }

  /** A header, letter by letter: the version, the flags, and seventeen digits. */
  lemma HeaderText(flags: string, n: nat)
    requires |flags| == 6 && n < 0x1_0000_0000
    ensures var h := Header(flags, n);
      && |h| == 26 && h[0] == 'V' && h[1] == '2' && h[2] == '.' && h[3..9] == flags
      && AllDigits(h[9..]) && Value(h[9..]) == n
  {
    hide Value, Decimal;
    Pow10Of10();
    DecimalLength(n, 10);
    var d := Decimal(n);
    assert Header(flags, n)[9..] == Zeros(17 - |d|) + d;
    ValueAfterZeros(17 - |d|, d);
    ValueOfDecimal(n);
  }

  /** From the twelfth character on, a header is the length in fifteen digits. */
  lemma HeaderTail(flags: string, n: nat)
    requires |flags| == 6
    ensures |Header(flags, n)| == HEADER_LENGTH && Header(flags, n)[11..] == Padded(n % 0x1_0000_0000, 15)
  {
    hide Decimal;
    var m, h := n % 0x1_0000_0000, Header(flags, n);
    var d := Decimal(m);
    Pow10Of10();
    DecimalLength(m, 10);
    assert h[11..] == Zeros(15 - |d|) + d;
  }

  /** A header has twenty-six characters, and the length is recovered exactly when it fits an int. */
  lemma HeaderRoundTrip(flags: string, n: nat)
    requires |flags| == 6
    ensures |Header(flags, n)| == HEADER_LENGTH
    ensures BlockLength(Header(flags, n)) == ToInt32(n % 0x1_0000_0000)
    ensures BlockLength(Header(flags, n)) == n <==> n < 0x8000_0000
  {
    hide Number, Header, Padded;
    HeaderTail(flags, n);
    NumberOfPadded(n % 0x1_0000_0000, 15);
  }

  // ---------------------------------------------------------------- Sub-blocks

  /** A text after its length in four digits. */
  function Block(s: string): string {
    Padded(|s|, 4) + s
  }

  function Blocks(ss: seq<string>): string {
    if ss == [] then [] else Block(ss[0]) + Blocks(ss[1..])
  }

  /** Null: the length is zero. Overrun: the routine reads or writes outside its buffers. */
  datatype Element = Null | Text(s: string) | Overrun

  /** The length that four characters hold. */
  function BlockSize(bytecount: string): int
    requires |bytecount| == 4
  {
    DigitsInRange(bytecount);
    ToInt32(Myatoi(bytecount).value)
  }

  /** The sub-block that number counts from position pos on. */
  function ElementFrom(data: string, pos: int, number: nat): Element
    decreases number
  {
    if pos < 0 || pos + 4 > |data| then Overrun
    else
      var blocksize := BlockSize(data[pos..pos + 4]);
      if blocksize == 0 then Null
      else if number > 0 then ElementFrom(data, pos + 4 + blocksize, number - 1)
      else if blocksize < 0 || pos + 4 + blocksize > |data| then Overrun
      else Text(data[pos + 4..pos + 4 + blocksize])
  }

  /** result_get_monitor_element. */
  method ResultGetMonitorElement(number: nat, data: string) returns (r: Element)
    ensures r == ElementFrom(data, 0, number)
  {
    hide BlockSize;
    var datcount, c := 0, 0;
    while c <= number
      invariant 0 <= c <= number
      invariant ElementFrom(data, 0, number) == ElementFrom(data, datcount, number - c)
      decreases number - c
    {
      if datcount < 0 || datcount + 4 > |data| {
        return Overrun;
      }
      var bytecount := data[datcount..datcount + 4];
      var blocksize := BlockSize(bytecount);
      if blocksize == 0 {
        return Null;
      }
      if c == number {
        if blocksize < 0 || datcount + 4 + blocksize > |data| {
          return Overrun;
        }
        return Text(data[datcount + 4..datcount + 4 + blocksize]);
      }
      datcount := datcount + 4 + blocksize;
      c := c + 1;
    }
  }

  predicate Fits(s: string) {
    1 <= |s| <= 9999
  }

  /** Exactly the texts whose length is written in four digits, but for the empty one. */
  lemma FitsExactly(s: string)
    ensures Fits(s) <==> s != "" && |Padded(|s|, 4)| == 4
  {
    assert Pow10(4) == 10_000;
    PaddedLength(|s|, 4);
  }

  lemma BlockSizeOf(n: nat)
    requires n <= 9999
    ensures |Padded(n, 4)| == 4 && BlockSize(Padded(n, 4)) == n
  {
    hide Number, Padded;
    assert Pow10(4) == 10_000;
    PaddedLength(n, 4);
    NumberOfPadded(n, 4);
  }

  /** One step over a block. */
  lemma ElementStep(before: string, s: string, rest: string, i: nat)
    requires Fits(s)
    ensures ElementFrom(before + Block(s) + rest, |before|, i) ==
      if i == 0 then Text(s) else ElementFrom((before + Block(s)) + rest, |before + Block(s)|, i - 1)
  {
    hide BlockSize, Padded;
    var data, n := before + Block(s) + rest, |before|;
    BlockSizeOf(|s|);
    assert data == before + (Padded(|s|, 4) + (s + rest));
    assert data[n..n + 4] == Padded(|s|, 4);
    assert data[n + 4..n + 4 + |s|] == s;
  }

  lemma {:induction false} ElementAfter(before: string, ss: seq<string>, rest: string, i: nat)
    requires (forall s :: s in ss ==> Fits(s)) && i <= |ss|
    ensures ElementFrom(before + Blocks(ss) + rest, |before|, i) ==
      if i < |ss| then Text(ss[i]) else ElementFrom(before + Blocks(ss) + rest, |before + Blocks(ss)|, 0)
    decreases |ss|
  {
    hide ElementFrom, Block, Fits;
    if ss == [] {
      assert before + Blocks(ss) == before;
    } else {
      var b := before + Block(ss[0]);
      assert before + Blocks(ss) + rest == before + Block(ss[0]) + (Blocks(ss[1..]) + rest);
      assert before + Blocks(ss) + rest == b + Blocks(ss[1..]) + rest;
      assert b + (Blocks(ss[1..]) + rest) == b + Blocks(ss[1..]) + rest;
      assert before + Blocks(ss) == b + Blocks(ss[1..]);
      ElementStep(before, ss[0], Blocks(ss[1..]) + rest, i);
      if i > 0 {
        ElementAfter(b, ss[1..], rest, i - 1);
      }
    }
  }

  lemma ZeroLength()
    ensures BlockSize("0000") == 0
  {
    BlockSizeOf(0);
    assert Padded(0, 4) == Zeros(3) + Decimal(0) == "0000";
  }

  /** Every sub-block is found by its number, whatever follows; after the last one a zero length ends the list. */
  lemma ElementOfBlocks(ss: seq<string>, rest: string, i: nat)
    requires (forall s :: s in ss ==> Fits(s)) && i <= |ss|
    ensures i < |ss| ==> ElementFrom(Blocks(ss) + rest, 0, i) == Text(ss[i])
    ensures i == |ss| && |rest| >= 4 && rest[..4] == "0000" ==> ElementFrom(Blocks(ss) + rest, 0, i) == Null
  {
    hide Blocks, BlockSize;
    ElementAfter([], ss, rest, i);
    assert [] + Blocks(ss) == Blocks(ss);
    if |rest| >= 4 && rest[..4] == "0000" {
      var n := |Blocks(ss)|;
      assert (Blocks(ss) + rest)[n..n + 4] == rest[..4];
      ZeroLength();
    }
  }

  /** Without four more characters, a number beyond the last sub-block leads out of the data. */
  lemma ElementPastEnd(ss: seq<string>, rest: string)
    requires (forall s :: s in ss ==> Fits(s)) && |rest| < 4
    ensures ElementFrom(Blocks(ss) + rest, 0, |ss|) == Overrun
  {
    hide Blocks, BlockSize;
    ElementAfter([], ss, rest, |ss|);
    assert [] + Blocks(ss) == Blocks(ss);
  }

  /** More memory behind the data does not change what is found. */
  lemma {:induction false} ElementInMore(data: string, more: string, pos: int, i: nat)
    requires ElementFrom(data, pos, i) != Overrun
    ensures ElementFrom(data + more, pos, i) == ElementFrom(data, pos, i)
    decreases i
  {
    hide BlockSize;
    assert (data + more)[pos..pos + 4] == data[pos..pos + 4];
    var n := BlockSize(data[pos..pos + 4]);
    if n != 0 {
      if i > 0 {
        ElementInMore(data, more, pos + 4 + n, i - 1);
      } else {
        assert (data + more)[pos + 4..pos + 4 + n] == data[pos + 4..pos + 4 + n];
      }
    }
  }

  // ---------------------------------------------------------------- Patterns that identify an object

  datatype Object = ObjGlobal | ObjUser | ObjShare | ObjFile | ObjDomain | ObjOther

  /** non_db_simple_identify; nothing when it ends the program. */
  function SimpleIdentify(kind: Object, data: string, qtype: int): Option<string> {
    if qtype == 0 then Some("and 1=1 ")
    else
      match kind
      case ObjGlobal => Some("0001*0001*0001*0001*0001*")
      case ObjUser => Some(Padded(|data|, 4) + data + "0001*0001*0001*0001*")
      case ObjShare => Some("0001*0001*" + Padded(|data|, 4) + data + "0001*0001*")
      case ObjFile => Some("0001*0001*0001*" + Padded(|data|, 4) + data + "0001*")
      case ObjDomain => Some("0001*0001*0001*0001*" + Padded(|data|, 4) + data)
      case ObjOther => None
  }

  /** The place of an object among user, SID, share, file and domain. */
  function Slot(kind: Object): Option<nat> {
    match kind
    case ObjUser => Some(0)
    case ObjShare => Some(2)
    case ObjFile => Some(3)
    case ObjDomain => Some(4)
    case _ => None
  }

  /** Five fields: the name in its own place, a star in every other. */
  function Fields(kind: Object, data: string): (r: seq<string>)
    ensures |r| == 5 && forall k :: 0 <= k < 5 ==> r[k] == if Slot(kind) == Some(k) then data else "*"
  {
    seq(5, k => if Slot(kind) == Some(k) then data else "*")
  }

  lemma StarBlock()
    ensures Block("*") == "0001*"
  {
    assert Decimal(1) == "1" && Padded(1, 4) == Zeros(3) + "1" == "0001";
  }

  lemma BlocksFirst(a: string, ss: seq<string>)
    ensures Blocks([a] + ss) == Block(a) + Blocks(ss)
  {
    assert ([a] + ss)[1..] == ss;
  }

  lemma Regroup(a: string, b: string, c: string, d: string, e: string)
    ensures a + (b + (c + (d + (e + [])))) == a + b + c + d + e
  {
  }

  lemma BlocksOfFive(a: string, b: string, c: string, d: string, e: string)
    ensures Blocks([a, b, c, d, e]) == Block(a) + Block(b) + Block(c) + Block(d) + Block(e)
  {
    hide Block;
    BlocksFirst(a, [b, c, d, e]);
    BlocksFirst(b, [c, d, e]);
    BlocksFirst(c, [d, e]);
    BlocksFirst(d, [e]);
    BlocksFirst(e, []);
    assert [a] + [b, c, d, e] == [a, b, c, d, e] && [b] + [c, d, e] == [b, c, d, e] && [c] + [d, e] == [c, d, e];
    assert [d] + [e] == [d, e] && [e] + [] == [e];
    Regroup(Block(a), Block(b), Block(c), Block(d), Block(e));
  }

  const STAR := "0001*"

  lemma Stars()
    ensures "0001*0001*" == STAR + STAR && "0001*0001*0001*" == STAR + STAR + STAR
    ensures "0001*0001*0001*0001*" == STAR + STAR + STAR + STAR
    ensures "0001*0001*0001*0001*0001*" == STAR + STAR + STAR + STAR + STAR
  {
  }

  /** The block in front of, between and behind stars. */
  lemma AmongStars(p: string, s: string, t: string)
    ensures (p + s) + (t + t + t + t) == (p + s) + t + t + t + t
    ensures (t + t) + p + s + (t + t) == t + t + (p + s) + t + t
    ensures (t + t + t) + p + s + t == t + t + t + (p + s) + t
    ensures (t + t + t + t) + p + s == t + t + t + t + (p + s)
  {
  }

  lemma BlockIs(s: string)
    ensures Block(s) == Padded(|s|, 4) + s
  {
  }

  /** Every pattern is the five fields as sub-blocks. */
  lemma PatternIsFields(kind: Object, data: string, qtype: int)
    requires qtype != 0 && kind != ObjOther
    ensures SimpleIdentify(kind, data, qtype) == Some(Blocks(Fields(kind, data)))
  {
    hide Padded, Blocks, Fields, Block;
    var f := Fields(kind, data);
    assert f == [f[0], f[1], f[2], f[3], f[4]];
    BlocksOfFive(f[0], f[1], f[2], f[3], f[4]);
    StarBlock();
    Stars();
    AmongStars(Padded(|data|, 4), data, STAR);
    assert Block(data) == Padded(|data|, 4) + data by {
      BlockIs(data);
    }
  }

  /** The k-th sub-block of a pattern is the k-th field. */
  lemma PatternDecodes(kind: Object, data: string, qtype: int, rest: string, k: nat)
    requires qtype != 0 && kind != ObjOther && k < 5
    requires kind == ObjGlobal || Fits(data)
    ensures ElementFrom(SimpleIdentify(kind, data, qtype).value + rest, 0, k)
         == Text(if (k == 0 && kind == ObjUser) || (k == 2 && kind == ObjShare) || (k == 3 && kind == ObjFile)
                    || (k == 4 && kind == ObjDomain) then data else "*")
  {
    hide SimpleIdentify, ElementFrom, Blocks;
    PatternIsFields(kind, data, qtype);
    ElementOfBlocks(Fields(kind, data), rest, k);
  }

  /** The pattern for SQL is the same for every object and holds no sub-block. */
  lemma SqlPattern(kind: Object, data: string, rest: string, k: nat)
    ensures SimpleIdentify(kind, data, 0) == Some("and 1=1 ")
    ensures ElementFrom("and 1=1 " + rest, 0, k) == Null
  {
    var t := "and 1=1 " + rest;
    assert t[0..4] == "and ";
    assert "and "[0] == 'a' && !IsSpace('a') && !IsDigit('a');
    assert Number("and ") == 0;
  }

  // ---------------------------------------------------------------- Registration

  /** The message that network_register_monitor sends; the length of the function number is written as a constant. */
  function Registration(func: nat, param: string, pattern: string): string {
    "~~0001" + Decimal(func) + Padded(|param|, 4) + param + pattern
  }

  /** The function number is a sub-block of its own exactly when it has one digit. */
  lemma FunctionBlock(func: nat)
    ensures "0001" + Decimal(func) == Block(Decimal(func)) <==> func < 10
  {
    assert Pow10(1) == 10 * Pow10(0) == 10;
    DecimalLength(func, 1);
    var d := Decimal(func);
    ValueOfDecimal(1);
    NumberOfPadded(|d|, 4);
    NumberOfPadded(1, 4);
    StarBlock();
    assert Block("*")[..4] == "0001";
    assert Padded(1, 4) == "0001";
    if "0001" + d == Padded(|d|, 4) + d {
      assert |Padded(|d|, 4)| == 4;
      assert Padded(|d|, 4) == (Padded(|d|, 4) + d)[..4] == ("0001" + d)[..4] == "0001";
    }
  }

  /** After its two tildes a registration holds function, parameter and the five fields of its object. */
  lemma RegistrationDecodes(func: nat, param: string, kind: Object, data: string, qtype: int, k: nat)
    requires func < 10 && Fits(param) && qtype != 0 && kind != ObjOther && k < 7
    requires kind == ObjGlobal || Fits(data)
    ensures var m := Registration(func, param, SimpleIdentify(kind, data, qtype).value);
      && m[..2] == "~~"
      && ElementFrom(m[2..], 0, k) == Text(([Decimal(func), param] + Fields(kind, data))[k])
  {
    hide SimpleIdentify, ElementFrom, Blocks, Padded;
    var f := Fields(kind, data);
    var all := [Decimal(func), param] + f;
    FunctionBlock(func);
    PatternIsFields(kind, data, qtype);
    BlocksFirst(param, f);
    BlocksFirst(Decimal(func), [param] + f);
    assert [Decimal(func)] + ([param] + f) == all;
    var m := Registration(func, param, Blocks(f));
    assert m[2..] == ("0001" + Decimal(func)) + (Block(param) + Blocks(f));
    assert Blocks(all) + [] == Blocks(all);
    DecimalLength(func, 1);
    assert Pow10(1) == 10 * Pow10(0) == 10;
    ElementOfBlocks(all, [], k);
  }
}
