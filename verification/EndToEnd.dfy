/** From reports that a server sends to the text that the monitor's reader gets. */
module EndToEnd {
  import opened Strings
  import opened CommonCrypt
  import opened Numbers
  import opened Protocol
  import opened CharBytes
  import opened Receive
  import opened MonitorList
  import opened Network
  import opened Registration
  import opened Traffic

  /** A frame that reports a value of a monitor. */
  datatype Report = Report(flags: string, body: Bytes, id: int, value: int)

  predicate GoodReport(reg: Registry, key: Key, r: Report) {
    && GoodFlags(r.flags) && GoodBody(r.body)
    && Reports(DataBlock(key, r.body), r.id, r.value)
    && -0x8000_0000 <= r.id < 0x8000_0000 && IsLong(r.value)
    && (r.value != 0 ==> FirstWith(reg, r.id) < |reg|)
  }

  function Frames(rs: seq<Report>): (fs: seq<Sent>)
    ensures |fs| == |rs| && forall i :: 0 <= i < |rs| ==> fs[i] == Sent.Sent(rs[i].flags, rs[i].body)
  {
    seq(|rs|, i requires 0 <= i < |rs| => Sent.Sent(rs[i].flags, rs[i].body))
  }

  /** The values that are not zero, each under the tag of its monitor, in the order of the reports. */
  function Outputs(reg: Registry, key: Key, rs: seq<Report>): string
    requires forall r :: r in rs ==> GoodReport(reg, key, r)
  {
    if rs == [] then ""
    else
      var last := rs[|rs| - 1];
      assert last in rs && GoodReport(reg, key, last);
      Outputs(reg, key, rs[..|rs| - 1]) + Reported(reg, last.id, last.value)
  }

  lemma BlockText(s: string)
    requires forall c :: c in s ==> IsDigit(c) || c == '-'
    ensures ByteText(Block(s))
  {
    forall c | c in Block(s)
      ensures IsDigit(c) || c == '-'
    {
      if c in Padded(|s|, 4) {
        assert IsDigit(c);
      }
    }
  }

  lemma ReportText(id: int, value: int)
    ensures ByteText(Blocks([Signed(id), Signed(value)]))
  {
    BlockText(Signed(id));
    BlockText(Signed(value));
    BlocksFirst(Signed(id), [Signed(value)]);
    BlocksFirst(Signed(value), []);
    assert [Signed(id)] + [Signed(value)] == [Signed(id), Signed(value)] && [Signed(value)] + [] == [Signed(value)];
  }

  /** A sender with the key makes such a frame from the two numbers, whatever else it puts behind them. */
  lemma SealedReports(key: Key, id: int, value: int, more: string, slack: Bytes)
    requires ByteText(more) && |slack| >= 15
    ensures var m := InMemory(Blocks([Signed(id), Signed(value)]) + more, slack);
      Covered(m) <= |m| && Reports(DataBlock(key, Sealed(key, m)), id, value)
  {
    hide Opened, Sealed, InMemory, Blocks, StrLen;
    var report := Blocks([Signed(id), Signed(value)]);
    var text := report + more;
    ReportText(id, value);
    var m := InMemory(text, slack);
    InMemoryString(text, slack);
    OpenedSealed(key, m);
    PrefixText(Opened(key, Sealed(key, m)), text);
    var block := ToText(Opened(key, Sealed(key, m)));
    assert block[..|report|] == block[..|text|][..|report|] == report;
  }

  lemma {:induction false} BodiesOf(fs: seq<Sent>, i: nat)
    requires i < |fs|
    ensures Bodies(fs)[i] == fs[i].body
    decreases |fs|
  {
    if i > 0 {
      BodiesOf(fs[1..], i - 1);
    }
  }

  lemma ReportsAcceptable(reg: Registry, key: Key, rs: seq<Report>)
    requires forall r :: r in rs ==> GoodReport(reg, key, r)
    ensures AllAcceptable(reg, key, Bodies(Frames(rs)))
  {
    hide DataBlock, Acceptable, Reports, GoodFlags, GoodBody, FirstWith;
    var bodies := Bodies(Frames(rs));
    forall i | 0 <= i < |bodies|
      ensures Acceptable(reg, DataBlock(key, bodies[i]))
    {
      BodiesOf(Frames(rs), i);
      assert rs[i] in rs;
      ReportTagged(reg, DataBlock(key, rs[i].body), rs[i].id, rs[i].value);
    }
  }

  lemma {:induction false} BodiesPrefix(fs: seq<Sent>, n: nat)
    requires n <= |fs|
    ensures Bodies(fs)[..n] == Bodies(fs[..n])
    decreases n
  {
    if n > 0 {
      BodiesPrefix(fs[1..], n - 1);
      assert fs[..n][1..] == fs[1..][..n - 1];
    }
  }

  lemma {:induction false} TaggedReports(reg: Registry, key: Key, rs: seq<Report>)
    requires forall r :: r in rs ==> GoodReport(reg, key, r)
    ensures AllAcceptable(reg, key, Bodies(Frames(rs)))
    ensures TaggedAll(reg, key, Bodies(Frames(rs))) == Outputs(reg, key, rs)
    decreases |rs|
  {
    hide DataBlock, Acceptable, Reports, GoodFlags, GoodBody, FirstWith, Tagged, Bodies, AllAcceptable;
    ReportsAcceptable(reg, key, rs);
    if rs != [] {
      var n := |rs| - 1;
      var r := rs[n];
      assert r in rs;
      TaggedReports(reg, key, rs[..n]);
      assert Frames(rs)[..n] == Frames(rs[..n]);
      BodiesPrefix(Frames(rs), n);
      BodiesOf(Frames(rs), n);
      ReportTagged(reg, DataBlock(key, r.body), r.id, r.value);
    }
  }

  lemma FramesGood(reg: Registry, key: Key, rs: seq<Report>)
    requires forall r :: r in rs ==> GoodReport(reg, key, r)
    ensures forall f :: f in Frames(rs) ==> GoodFrame(f)
  {
    hide DataBlock, Reports, GoodFlags, GoodBody, FirstWith;
    forall f | f in Frames(rs)
      ensures GoodFrame(f)
    {
      var i :| 0 <= i < |rs| && Frames(rs)[i] == f;
      assert rs[i] in rs;
    }
  }

  /** What the reports that are not zero say was read or written. */
  function Moves(reg: Registry, rs: seq<Report>): seq<Moved> {
    if rs == [] then []
    else
      var last := rs[|rs| - 1];
      var k := FirstWith(reg, last.id);
      Moves(reg, rs[..|rs| - 1])
      + if last.value != 0 && k < |reg| && reg[k].1 in {MONITOR_READ, MONITOR_WRITE} then [Moved(reg[k].1, last.value)]
        else []
  }

  lemma TextMore(ms: seq<Moved>, m: Moved)
    ensures TextOf(ms + [m]) == TextOf(ms) + Tag(m.func, m.value)
  {
    hide Tag;
    assert (ms + [m])[..|ms|] == ms;
  }

  lemma {:induction false} OutputsText(reg: Registry, key: Key, rs: seq<Report>)
    requires forall r :: r in rs ==> GoodReport(reg, key, r)
    ensures Outputs(reg, key, rs) == TextOf(Moves(reg, rs)) && forall m :: m in Moves(reg, rs) ==> Counted(m)
    decreases |rs|
  {
    hide DataBlock, Reports, GoodFlags, GoodBody, FirstWith, Signed;
    if rs != [] {
      var n := |rs| - 1;
      var r := rs[n];
      assert r in rs;
      OutputsText(reg, key, rs[..n]);
      var ms := Moves(reg, rs[..n]);
      if r.value != 0 {
        TextMore(ms, Moved(reg[FirstWith(reg, r.id)].1, r.value));
      }
      assert ms + [] == ms;
    }
  }

  /**
    * However the stream is cut into pieces, the reader gets the values of all complete reports, tagged and in order,
    * and nothing for the part of a frame that has arrived after them.
    */
  method HandleReports(sock: Socket, monitors: MonitorList, key: Key,
                       ghost rs: seq<Report>, ghost next: Sent, ghost k: nat)
    returns (sent: string, outcome: Outcome)
    requires monitors.Valid() && (forall r :: r in rs ==> GoodReport(monitors.Registry(), key, r))
    requires GoodFrame(next) && k < |Wire(next.flags, next.body)|
    requires sock.incoming == WireAll(Frames(rs)) + Wire(next.flags, next.body)[..k]
    modifies sock`incoming, monitors.Items
    ensures ReadTraffic(sent) == Moves(old(monitors.Registry()), rs)
    ensures outcome == (if sock.closed then STUCK else BLOCKED) && sent == Outputs(old(monitors.Registry()), key, rs)
    ensures monitors.Valid() && monitors.Registry() == old(monitors.Registry())
  {
    hide Outputs, FirstWith, DataBlock, Reports, GoodFlags, GoodBody, Moves, TextOf, ReadTraffic;
    hide TaggedAll, Deliver, Wire, WireAll, AllAcceptable;
    ghost var reg := monitors.Registry();
    FramesGood(reg, key, rs);
    DeliverOfWire(Frames(rs), next, k);
    TaggedReports(reg, key, rs);
    OutputsText(reg, key, rs);
    ReadOfText(Moves(reg, rs));
    sent, outcome := NetworkHandleData(sock, monitors, key);
  }

  /** With distinct identifiers a report is tagged by the function its identifier was added with. */
  lemma TagOfAdded(reg: Registry, k: nat, value: int)
    requires k < |reg| && forall i, j :: 0 <= i < j < |reg| ==> reg[i].0 != reg[j].0
    ensures FirstWith(reg, reg[k].0) == k
    ensures Reported(reg, reg[k].0, value)
         == if value == 0 then ""
            else if reg[k].1 == MONITOR_READ then "R:" + Signed(value) + "#"
            else if reg[k].1 == MONITOR_WRITE then "W:" + Signed(value) + "#"
            else ""
  {
    FirstIsOnly(reg, k);
  }
}
