/** Registering a monitor: one request, one reply, one entry more in the list. */
module Registration {
  import opened Wrappers
  import opened Strings
  import opened CommonCrypt
  import opened Numbers
  import opened Protocol
  import opened CharBytes
  import opened Receive
  import opened MonitorList
  import opened Network

  function StateFlags(key: Key): (flags: string)
    ensures GoodFlags(flags)
  {
    if key.Some? then "00E000" else "000000"
  }

  /** The request that connect_monitor sends for the C string in a buffer. */
  function Request(key: Key, query: Bytes): Bytes
    requires Terminated(query) && Covered(query) <= |query|
  {
    Wire(StateFlags(key), Sealed(key, query))
  }

  /** The first half of connect_monitor: header and query are written. */
  method SendQuery(sock: Socket, query: array<bv8>, key: Key)
    requires Terminated(query[..]) && Covered(query[..]) <= query.Length
    modifies sock`outgoing
    ensures sock.outgoing == old(sock.outgoing) + Request(key, query[..])
  {
    hide StrLen, MapBlocks, Aes.Enciphering, Fips197.ExpandedKeys, Header;
    ghost var sealed := Sealed(key, query[..]);
    if key.Some? {
      var crypt, len := CommonEncrypt(key, query);
      assert query[..][..len] == query[..len];
      assert crypt[..len] == sealed;
      var header := Header("00E000", len);
      sock.Send(ToBytes(header));
      sock.Send(crypt[..len]);
    } else {
      var n := StrLen(query[..]);
      assert query[..n] == query[..][..n] == sealed;
      var header := Header("000000", n);
      sock.Send(ToBytes(header));
      sock.Send(query[..n]);
    }
    assert sock.outgoing == old(sock.outgoing) + (ToBytes(Header(StateFlags(key), |sealed|)) + sealed);
  }

  /** connect_monitor: the memory that is returned begins with the opened body of the first frame that comes back. */
  method ConnectMonitor(sock: Socket, query: array<bv8>, key: Key) returns (outcome: Outcome, data: array<bv8>)
    requires Terminated(query[..]) && Covered(query[..]) <= query.Length
    modifies sock
    ensures sock.outgoing == old(sock.outgoing) + Request(key, query[..])
    ensures var f := NextFrame(old(sock.incoming));
      && outcome == OutcomeOf(f, sock.closed)
      && (f.Received? ==> sock.incoming == f.rest && |Opened(key, f.body)| <= data.Length
                          && data[..|Opened(key, f.body)|] == Opened(key, f.body))
  {
    hide NextFrame, Opened, Request, StrLen;
    SendQuery(sock, query, key);
    var body, dataLength;
    outcome, body, dataLength := ReceiveFrame(sock, SENT);
    data := body;
    if outcome == DATA_RECEIVED {
      data := Open(key, body, dataLength);
    }
  }

  // ---------------------------------------------------------------- network_register_monitor

  function FnNumber(func: MonitorFn): nat {
    match func
    case MONITOR_ADD => 0
    case MONITOR_SMBTA_LOAD => 1
    case MONITOR_LOG => 2
    case MONITOR_READ => 3
    case MONITOR_WRITE => 4
    case MONITOR_UNDEFINED => 255
  }

  /** The number of a function, as it is sent. */
  lemma FnNumberText(func: MonitorFn)
    ensures Decimal(FnNumber(func))
         == match func
            case MONITOR_ADD => "0"
            case MONITOR_SMBTA_LOAD => "1"
            case MONITOR_LOG => "2"
            case MONITOR_READ => "3"
            case MONITOR_WRITE => "4"
            case MONITOR_UNDEFINED => "255"
  {
    if func == MONITOR_UNDEFINED {
      assert Decimal(25) == "25";
    }
  }

  /** The function that a server starts for a number. */
  function FnOf(text: string): Option<MonitorFn> {
    if text == "0" then Some(MONITOR_ADD)
    else if text == "1" then Some(MONITOR_SMBTA_LOAD)
    else if text == "2" then Some(MONITOR_LOG)
    else if text == "3" then Some(MONITOR_READ)
    else if text == "4" then Some(MONITOR_WRITE)
    else None
  }

  /** Every function but the undefined one is known from its number. */
  lemma FnOfNumber(func: MonitorFn)
    ensures FnOf(Decimal(FnNumber(func))) == if func == MONITOR_UNDEFINED then None else Some(func)
  {
    FnNumberText(func);
    assert "0"[0] == '0' && "1"[0] == '1' && "2"[0] == '2' && "3"[0] == '3' && "4"[0] == '4' && |"255"| == 3;
  }

  /** A string in memory: its bytes, the terminator, and whatever lies behind. */
  function InMemory(text: string, slack: Bytes): (m: Bytes)
    ensures Terminated(m)
  {
    var m := ToBytes(text) + [0] + slack;
    assert m[|text|] == 0;
    m
  }

  lemma ByteNotZero(c: char)
    requires c as int < 256 && c != '\0'
    ensures ByteOf(c) != 0
  {
    hide ByteOfNumber;
    NumberOfByte(c as int);
  }

  lemma {:induction false} StrLenIs(m: Bytes, n: nat)
    requires Terminated(m) && n < |m| && m[n] == 0 && forall i :: 0 <= i < n ==> m[i] != 0
    ensures StrLen(m) == n
    decreases n
  {
    if n > 0 {
      assert m[1..][n - 1] == 0;
      StrLenIs(m[1..], n - 1);
    }
  }

  lemma InMemoryString(text: string, slack: Bytes)
    requires ByteText(text) && |slack| >= 15
    ensures var m := InMemory(text, slack);
      StrLen(m) == |text| && CString(m) == ToBytes(text) && Covered(m) <= |m| && Covered(m) <= |text| + 16
  {
    hide ByteOf, StrLen;
    var m := InMemory(text, slack);
    forall i | 0 <= i < |text|
      ensures m[i] != 0
    {
      assert text[i] in text;
      ByteNotZero(text[i]);
    }
    StrLenIs(m, |text|);
    assert m[..|text|] == ToBytes(text);
  }

  /** The identifier in the first sub-block of the reply. */
  method ReadId(data: array<bv8>, key: Key, ghost body: Bytes) returns (id: int)
    requires var o := Opened(key, body); |o| <= data.Length && data[..|o|] == o
    requires IdOf(DataBlock(key, body)).Some?
    ensures id == IdOf(DataBlock(key, body)).value
  {
    hide Opened, ElementFrom, Myatoi, ToInt32;
    ghost var o := Opened(key, body);
    TextOfMemory(data[..], o);
    ElementInMore(DataBlock(key, body), ToText(data[|o|..]), 0, 0);
    var tmp := ResultGetMonitorElement(0, ToText(data[..]));
    id := ToInt32(Myatoi(tmp.s).value);
  }

  lemma RegistrationText(func: nat, param: string, pattern: string)
    requires ByteText(param) && ByteText(pattern)
    ensures ByteText(Registration(func, param, pattern))
  {
    var d, p := Decimal(func), Padded(|param|, 4);
    forall c | c in Registration(func, param, pattern)
      ensures c as int < 256 && c != '\0'
    {
      if c in d || c in p {
        assert IsDigit(c);
      }
    }
  }

  /** network_register_monitor: the request is sent, and the identifier in the reply is added with the function. */
  method NetworkRegisterMonitor(sock: Socket, monitors: MonitorList, func: MonitorFn, param: string, pattern: string,
                                key: Key, slack: Bytes)
    returns (outcome: Outcome)
    requires monitors.Valid() && ByteText(param) && ByteText(pattern) && |slack| >= 15
    requires var f := NextFrame(sock.incoming); f.Received? ==> IdOf(DataBlock(key, f.body)).Some?
    modifies sock, monitors, monitors.Items
    ensures var m := InMemory(Registration(FnNumber(func), param, pattern), slack);
      Covered(m) <= |m| && sock.outgoing == old(sock.outgoing) + Request(key, m)
    ensures monitors.Valid() && outcome == OutcomeOf(NextFrame(old(sock.incoming)), sock.closed)
    ensures var f := NextFrame(old(sock.incoming));
      monitors.Registry()
      == old(monitors.Registry()) + if f.Received? then [(IdOf(DataBlock(key, f.body)).value, func)] else []
  {
    hide NextFrame, Opened, Request, StrLen, InMemory, Registration, IdOf, DataBlock;
    var toSend := Registration(FnNumber(func), param, pattern);
    RegistrationText(FnNumber(func), param, pattern);
    InMemoryString(toSend, slack);
    var bytes := InMemory(toSend, slack);
    var query := new bv8[|bytes|](i requires 0 <= i < |bytes| => bytes[i]);
    assert query[..] == bytes;
    var data;
    ghost var f := NextFrame(sock.incoming);
    outcome, data := ConnectMonitor(sock, query, key);
    if outcome == DATA_RECEIVED {
      var id := ReadId(data, key, f.body);
      monitors.Add(id, func);
    } else {
      assert monitors.Registry() + [] == monitors.Registry();
    }
  }

  // ---------------------------------------------------------------- What the server reads

  lemma SealedLength(key: Key, m: Bytes)
    requires Terminated(m) && Covered(m) <= |m|
    ensures |Sealed(key, m)| == if key.Some? then Covered(m) else StrLen(m)
  {
    hide StrLen, Aes.Enciphering, Fips197.ExpandedKeys;
  }

  lemma PrefixText(o: Bytes, text: string)
    requires EightBit(text) && |text| <= |o| && o[..|text|] == ToBytes(text)
    ensures ToText(o)[..|text|] == text
  {
    hide CharOf, ByteOf;
    TextOfBytes(text);
    assert forall i :: 0 <= i < |text| ==> o[i] == o[..|text|][i];
  }

  lemma PatternText(kind: Object, data: string, qtype: int)
    requires ByteText(data) && kind != ObjOther
    ensures ByteText(SimpleIdentify(kind, data, qtype).value)
  {
    var p := Padded(|data|, 4);
    forall c | c in SimpleIdentify(kind, data, qtype).value
      ensures c as int < 256 && c != '\0'
    {
      if c in p {
        assert IsDigit(c);
      }
    }
  }

  lemma RegistrationLength(func: nat, param: string, kind: Object, data: string, qtype: int)
    requires func < 10 && |param| <= 9999 && |data| <= 9999 && kind != ObjOther
    ensures 2 <= |Registration(func, param, SimpleIdentify(kind, data, qtype).value)| < 100_000
  {
    assert Pow10(1) == 10 * Pow10(0) == 10 && Pow10(4) == 10_000;
    DecimalLength(func, 1);
    PaddedLength(|param|, 4);
    PaddedLength(|data|, 4);
  }

  /**
    * A server with the same key that reads the request from the wire finds, after two tildes, the function, the
    * parameter and the five fields that identify the object.
    */
  lemma ServerReads(key: Key, func: MonitorFn, param: string, kind: Object, data: string, qtype: int, slack: Bytes,
                    k: nat)
    requires FnNumber(func) < 10 && ByteText(param) && Fits(param)
    requires ByteText(data) && |data| <= 9999 && (kind == ObjGlobal || Fits(data))
    requires qtype != 0 && kind != ObjOther && |slack| >= 15 && k < 7
    ensures ByteText(SimpleIdentify(kind, data, qtype).value)
    ensures var m := InMemory(Registration(FnNumber(func), param, SimpleIdentify(kind, data, qtype).value), slack);
      Covered(m) <= |m| && NextFrame(Request(key, m)).Received? &&
      var block := DataBlock(key, NextFrame(Request(key, m)).body);
      && |block| >= 2 && block[..2] == "~~"
      && ElementFrom(block[2..], 0, k) == Text(([Decimal(FnNumber(func)), param] + Fields(kind, data))[k])
  {
    hide NextFrame, Opened, Wire, StrLen, InMemory, Sealed, ElementFrom, SimpleIdentify, Fields, Registration;
    PatternIsFields(kind, data, qtype);
    var pattern := SimpleIdentify(kind, data, qtype).value;
    PatternText(kind, data, qtype);
    RegistrationText(FnNumber(func), param, pattern);
    var text := Registration(FnNumber(func), param, pattern);
    RegistrationLength(FnNumber(func), param, kind, data, qtype);
    var m := InMemory(text, slack);
    InMemoryString(text, slack);
    SealedLength(key, m);
    NextOfWire(StateFlags(key), Sealed(key, m), []);
    assert Request(key, m) + [] == Request(key, m);
    OpenedSealed(key, m);
    var o := Opened(key, Sealed(key, m));
    PrefixText(o, text);
    var block := ToText(o);
    RegistrationDecodes(FnNumber(func), param, kind, data, qtype, k);
    assert block[..2] == block[..|text|][..2] == text[..2];
    assert block[2..] == text[2..] + block[|text|..];
    ElementInMore(text[2..], block[|text|..], 0, k);
  }

  /** So the server starts the very function that was asked for. */
  lemma ServerStarts(key: Key, func: MonitorFn, param: string, kind: Object, data: string, qtype: int, slack: Bytes)
    requires func != MONITOR_UNDEFINED && ByteText(param) && Fits(param)
    requires ByteText(data) && |data| <= 9999 && (kind == ObjGlobal || Fits(data))
    requires qtype != 0 && kind != ObjOther && |slack| >= 15
    ensures ByteText(SimpleIdentify(kind, data, qtype).value)
    ensures var m := InMemory(Registration(FnNumber(func), param, SimpleIdentify(kind, data, qtype).value), slack);
      Covered(m) <= |m| && NextFrame(Request(key, m)).Received? &&
      var block := DataBlock(key, NextFrame(Request(key, m)).body);
      |block| >= 2 && block[..2] == "~~"
      && ElementFrom(block[2..], 0, 0).Text? && FnOf(ElementFrom(block[2..], 0, 0).s) == Some(func)
  {
    hide NextFrame, DataBlock, Request, InMemory, ElementFrom, SimpleIdentify, Fields, Registration, StrLen, FnOf;
    ServerReads(key, func, param, kind, data, qtype, slack, 0);
    FnOfNumber(func);
  }

  // ---------------------------------------------------------------- The request, letter by letter

  /** A request without a key: version, no flags, the length in seventeen digits, and the text. */
  lemma PlainRequest(text: string, slack: Bytes)
    requires ByteText(text) && |slack| >= 15 && |text| < 0x1_0000_0000
    ensures var m := InMemory(text, slack);
      Covered(m) <= |m| && Request(None, m) == ToBytes("V2.000000" + Padded(|text|, 17) + text)
  {
    hide ByteOf, StrLen, InMemory, Padded;
    InMemoryString(text, slack);
    assert "V2." + "000000" == "V2.000000";
    assert Header("000000", |text|) + text == "V2.000000" + Padded(|text|, 17) + text;
  }

  /** With a key: the flag for encryption, and the length of the encrypted blocks. */
  lemma KeyedRequest(key: Key, text: string, slack: Bytes)
    requires key.Some? && ByteText(text) && |slack| >= 15 && |text| < 0xffff_0000
    ensures var m := InMemory(text, slack);
      && Covered(m) <= |m|
      && var n := |text| / 16 * 16 + 16;
         Request(key, m) == ToBytes("V2.00E000" + Padded(n, 17)) + Sealed(key, m) && |Sealed(key, m)| == n
  {
    hide ByteOf, StrLen, InMemory, Padded, Sealed;
    InMemoryString(text, slack);
    SealedLength(key, InMemory(text, slack));
    assert "V2." + "00E000" == "V2.00E000";
  }

  /** A monitor of everything that a user reads. */
  lemma RegistrationExample()
    ensures Registration(FnNumber(MONITOR_READ), "0", SimpleIdentify(ObjUser, "bob", 1).value)
         == "~~00013" + "00010" + "0003bob" + "0001*0001*0001*0001*"
  {
    FnNumberText(MONITOR_READ);
    assert Decimal(1) == "1" && Decimal(3) == "3";
    assert Padded(1, 4) == "0001" && Padded(3, 4) == "0003";
  }
}
