/** The list of monitors, and what a data block from the server does to it. */
module MonitorList {
  import opened Wrappers
  import opened Strings
  import opened Numbers
  import opened Protocol

  datatype MonitorFn = MONITOR_ADD | MONITOR_SMBTA_LOAD | MONITOR_LOG | MONITOR_READ | MONITOR_WRITE | MONITOR_UNDEFINED

  /** Identifiers and functions of monitors, in the order in which they were added. */
  type Registry = seq<(int, MonitorFn)>

  // ---------------------------------------------------------------- What a data block says

  /** The first monitor of that identifier, or the number of monitors. */
  function FirstWith(reg: Registry, id: int): (k: nat)
    ensures k <= |reg| && (forall i :: 0 <= i < k ==> reg[i].0 != id) && (k < |reg| ==> reg[k].0 == id)
  {
    if reg == [] || reg[0].0 == id then 0 else 1 + FirstWith(reg[1..], id)
  }

  /** The text as a C reader sees it. */
  function UpToNul(s: string): string {
    if s == [] || s[0] == '\0' then [] else [s[0]] + UpToNul(s[1..])
  }

  /** A copy ends before the first NUL. */
  lemma {:induction false} UpToNulIs(s: string, rest: string)
    requires CText(s)
    ensures UpToNul(s + ['\0'] + rest) == s && UpToNul(s) == s
    decreases |s|
  {
    var t := s + ['\0'] + rest;
    if s != "" {
      assert s[0] in s && t[1..] == s[1..] + ['\0'] + rest;
      UpToNulIs(s[1..], rest);
    }
  }

  function IdOf(data: string): Option<int> {
    match ElementFrom(data, 0, 0)
    case Text(s) => if Myatoi(s).Some? then Some(ToInt32(Myatoi(s).value)) else None
    case _ => None
  }

  /** The block has an identifier and a value, and a monitor of that identifier when the value is not zero. */
  predicate Acceptable(reg: Registry, data: string) {
    && IdOf(data).Some?
    && ElementFrom(data, 0, 1).Text?
    && (Atol(ElementFrom(data, 0, 1).s) != 0 ==> FirstWith(reg, IdOf(data).value) < |reg|)
  }

  /** What is passed on for a value of a monitor. */
  function Tag(func: MonitorFn, value: int): string {
    match func
    case MONITOR_READ => "R:" + Signed(value) + "#"
    case MONITOR_WRITE => "W:" + Signed(value) + "#"
    case _ => ""
  }

  /** What is passed on for a data block. */
  function Tagged(reg: Registry, data: string): string
    requires Acceptable(reg, data)
  {
    var value := Atol(ElementFrom(data, 0, 1).s);
    if value == 0 then "" else Tag(reg[FirstWith(reg, IdOf(data).value)].1, value)
  }

  /** The routine looks at no memory behind an acceptable block. */
  lemma MoreMemory(reg: Registry, data: string, more: string)
    requires Acceptable(reg, data)
    ensures Acceptable(reg, data + more) && Tagged(reg, data + more) == Tagged(reg, data)
    ensures ElementFrom(data + more, 0, 1) == ElementFrom(data, 0, 1) && IdOf(data + more) == IdOf(data)
  {
    hide ElementFrom, Myatoi, Atol;
    ElementInMore(data, more, 0, 0);
    ElementInMore(data, more, 0, 1);
  }

  // ---------------------------------------------------------------- The linked list

  class MonitorItem {
    const id: int
    const func: MonitorFn
    var data: Option<string>
    var changed: bool
    var next: MonitorItem?

    constructor (id: int, func: MonitorFn)
      ensures this.id == id && this.func == func && data == None && !changed && next == null
    {
      this.id := id;
      this.func := func;
      data := None;
      changed := false;
      next := null;
    }

    method Keep(value: string)
      modifies this`data, this`changed
      ensures data == Some(value) && changed
    {
      data := Some(value);
      changed := true;
    }
  }

  /** The switch of monitor_list_change_results. */
  method TagText(func: MonitorFn, value: int) returns (str: string)
    ensures str == Tag(func, value)
  {
    match func
    case MONITOR_READ =>
      str := "R:" + Signed(value) + "#";
    case MONITOR_WRITE =>
      str := "W:" + Signed(value) + "#";
    case _ =>
      str := "";
  }

  class MonitorList {
    ghost var Items: seq<MonitorItem>
    var start: MonitorItem?
    var end: MonitorItem?

    ghost predicate Valid()
      reads this, Items
    {
      && (start == if Items == [] then null else Items[0])
      && (Items != [] ==> end == Items[|Items| - 1] && Items[|Items| - 1].next == null)
      && (forall i, j :: 0 <= i < j < |Items| ==> Items[i] != Items[j])
      && (forall i {:trigger Items[i].next} :: 0 <= i < |Items| - 1 ==> Items[i].next == Items[i + 1])
    }

    ghost function Registry(): (reg: Registry)
      reads this
      ensures |reg| == |Items| && forall i :: 0 <= i < |Items| ==> reg[i] == (Items[i].id, Items[i].func)
    {
      seq(|Items|, i requires 0 <= i < |Items| reads this => (Items[i].id, Items[i].func))
    }

    /** monitor_list_init. */
    constructor ()
      ensures Valid() && Items == []
    {
      start := null;
      end := null;
      Items := [];
    }

    /** monitor_list_add: at the end, without a value. */
    method Add(id: int, func: MonitorFn)
      requires Valid()
      modifies this, Items
      ensures Valid() && |Items| == |old(Items)| + 1 && Items[..|old(Items)|] == old(Items)
      ensures Registry() == old(Registry()) + [(id, func)]
      ensures var e := Items[|Items| - 1]; fresh(e) && e.data == None && !e.changed
      ensures forall e :: e in old(Items) ==> e.data == old(e.data) && e.changed == old(e.changed)
    {
      var entry := new MonitorItem(id, func);
      if start == null {
        start := entry;
        end := entry;
      } else {
        end.next := entry;
        end := entry;
      }
      Items := Items + [entry];
    }

    /** monitor_list_get_by_id: the first of that identifier. */
    method GetById(id: int) returns (entry: MonitorItem?)
      requires Valid()
      ensures var k := FirstWith(Registry(), id); entry == if k < |Items| then Items[k] else null
    {
      entry := start;
      ghost var i := 0;
      while entry != null
        invariant 0 <= i <= |Items| && entry == if i < |Items| then Items[i] else null
        invariant forall j :: 0 <= j < i ==> Items[j].id != id
        decreases |Items| - i
      {
        if id == entry.id {
          return;
        }
        entry := entry.next;
        i := i + 1;
      }
    }

    /** monitor_list_change_results: the value is kept with its monitor and passed on; a zero is ignored. */
    method ChangeResults(data: string) returns (sent: string)
      requires Valid() && Acceptable(Registry(), data)
      modifies Items
      ensures Valid()
      ensures sent == Tagged(Registry(), data)
      ensures var value, k := ElementFrom(data, 0, 1).s, FirstWith(Registry(), IdOf(data).value);
        forall i :: 0 <= i < |Items| ==>
          if i == k && Atol(value) != 0 then Items[i].data == Some(UpToNul(value)) && Items[i].changed
          else Items[i].data == old(Items[i].data) && Items[i].changed == old(Items[i].changed)
    {
      hide ElementFrom, Myatoi, Atol, UpToNul, Signed, FirstWith, Tag, ToInt32;
      var tmp := ResultGetMonitorElement(0, data);
      var id := ToInt32(Myatoi(tmp.s).value);
      var entry := GetById(id);
      tmp := ResultGetMonitorElement(1, data);
      if Atol(tmp.s) == 0 {
        return "";
      }
      entry.Keep(UpToNul(tmp.s));
      sent := TagText(entry.func, Atol(tmp.s));
    }
  }

  // ---------------------------------------------------------------- Reports

  /** What is passed on when a monitor reports a value. */
  function Reported(reg: Registry, id: int, value: int): string
    requires value != 0 ==> FirstWith(reg, id) < |reg|
  {
    if value == 0 then "" else Tag(reg[FirstWith(reg, id)].1, value)
  }

  predicate IsLong(n: int) {
    -LONG_MAX - 1 <= n <= LONG_MAX
  }

  /** The data block holds a report in canonical decimals. */
  predicate Reports(data: string, id: int, value: int) {
    StartsWith(data, Blocks([Signed(id), Signed(value)]))
  }

  lemma SignedFits(n: int)
    requires IsLong(n)
    ensures Fits(Signed(n))
  {
    Pow10Of15();
    assert Pow10(16) == 10 * Pow10(15);
    assert Pow10(17) == 10 * Pow10(16);
    assert Pow10(18) == 10 * Pow10(17);
    assert Pow10(19) == 10 * Pow10(18);
    DecimalLength(if n < 0 then -n else n, 19);
  }

  lemma MyatoiOfSigned(n: int)
    requires IsLong(n)
    ensures Myatoi(Signed(n)) == Some(n) && Atol(Signed(n)) == n
  {
    hide Number, Signed;
    NumberOfSigned(n);
  }

  /** A report of a registered monitor is acceptable, and is passed on as its value under its tag. */
  lemma ReportTagged(reg: Registry, data: string, id: int, value: int)
    requires Reports(data, id, value) && -0x8000_0000 <= id < 0x8000_0000 && IsLong(value)
    requires value != 0 ==> FirstWith(reg, id) < |reg|
    ensures Acceptable(reg, data) && Tagged(reg, data) == Reported(reg, id, value)
  {
    hide ElementFrom, Blocks, Signed, Myatoi, Atol, Fits, FirstWith;
    var ss := [Signed(id), Signed(value)];
    var rest := data[|Blocks(ss)|..];
    assert data == Blocks(ss) + rest;
    SignedFits(id);
    SignedFits(value);
    ElementOfBlocks(ss, rest, 0);
    ElementOfBlocks(ss, rest, 1);
    MyatoiOfSigned(id);
    MyatoiOfSigned(value);
  }

  /** With distinct identifiers the tag is that of the function the identifier was added with. */
  lemma FirstIsOnly(reg: Registry, k: nat)
    requires k < |reg| && forall i, j :: 0 <= i < j < |reg| ==> reg[i].0 != reg[j].0
    ensures FirstWith(reg, reg[k].0) == k
  {
  }

  lemma PrintedExample()
    ensures Blocks([Signed(7), Signed(1234)]) == "0001" + "7" + "0004" + "1234"
  {
    assert Decimal(1) == "1" && Decimal(4) == "4" && Decimal(7) == "7";
    assert Decimal(12) == "12" && Decimal(123) == "123" && Decimal(1234) == "1234";
    assert Block("7") == "0001" + "7" && Block("1234") == "0004" + "1234";
    BlocksFirst("7", ["1234"]);
    BlocksFirst("1234", []);
    assert ["7"] + ["1234"] == ["7", "1234"] && ["1234"] + [] == ["1234"];
  }

  /** A report of 1234 bytes for monitor 7, which was registered to watch what is read. */
  lemma ReportExample(more: string)
    ensures var reg, data := [(3, MONITOR_WRITE), (7, MONITOR_READ)], "0001" + "7" + "0004" + "1234" + more;
      Acceptable(reg, data) && Tagged(reg, data) == "R:1234#"
  {
    hide ElementFrom, Blocks, Myatoi, Atol;
    var reg, data := [(3, MONITOR_WRITE), (7, MONITOR_READ)], "0001" + "7" + "0004" + "1234" + more;
    PrintedExample();
    assert reg[1..][0] == (7, MONITOR_READ);
    assert Decimal(12) == "12" && Decimal(123) == "123" && Signed(1234) == "1234";
    ReportTagged(reg, data, 7, 1234);
    assert FirstWith(reg, 7) == 1;
  }
}
