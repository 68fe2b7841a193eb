/** The monitor client: registration, and the loop that turns frames into tagged text. */
module Network {
  import opened Wrappers
  import opened Fips197
  import opened Aes
  import opened CommonCrypt
  import opened CharBytes
  import opened Receive
  import opened MonitorList

  /** A 128-bit key when the client was started with a key file. */
  type Key = k: Option<Bytes> | k.Some? ==> |k.value| >= 16 witness None

  // ---------------------------------------------------------------- Bodies, plain or encrypted

  /** The bytes that a received body stands for. */
  function Opened(key: Key, body: Bytes): Bytes {
    if key.None? then body else MapBlocks(Deciphering(InverseKeys(Keys128(key.value))), body[..|body| / 16 * 16])
  }

  /** The bytes sent for a buffer that holds a C string. */
  function Sealed(key: Key, str: Bytes): Bytes
    requires Terminated(str) && Covered(str) <= |str|
  {
    if key.None? then CString(str) else MapBlocks(Enciphering(Keys128(key.value)), str[..Covered(str)])
  }

  /** What the receiver opens begins with the string that the sender sealed. */
  lemma OpenedSealed(key: Key, str: Bytes)
    requires Terminated(str) && Covered(str) <= |str|
    ensures var o := Opened(key, Sealed(key, str)); |CString(str)| <= |o| && o[..|CString(str)|] == CString(str)
  {
    hide Enciphering, Deciphering, InverseKeys, ExpandedKeys, MapBlocks, StrLen;
    if key.Some? {
      var keys, n := Keys128(key.value), Covered(str);
      var c := Sealed(key, str);
      assert |c| == n && c[..n / 16 * 16] == c;
      DecipheringUndoesEnciphering(keys);
      MapBlocksInverse(Enciphering(keys), Deciphering(InverseKeys(keys)), str[..n]);
    }
  }

  /** The decryption step after a body is complete: the memory that is handed on begins with the opened body. */
  method Open(key: Key, body: array<bv8>, dataLength: nat) returns (data: array<bv8>)
    requires dataLength < body.Length
    ensures var o := Opened(key, body[..dataLength]); |o| <= data.Length && data[..|o|] == o
    ensures data == body || fresh(data)
  {
    hide Enciphering, Deciphering, InverseKeys, ExpandedKeys, MapBlocks;
    if key.Some? {
      var crypted := CommonDecrypt(body, dataLength, key);
      assert body[..dataLength][..dataLength / 16 * 16] == body[..dataLength / 16 * 16];
      return crypted;
    }
    return body;
  }

  // ---------------------------------------------------------------- network_handle_data

  /** The data block in a received body. */
  function DataBlock(key: Key, body: Bytes): string {
    ToText(Opened(key, body))
  }

  predicate AllAcceptable(reg: Registry, key: Key, bodies: seq<Bytes>) {
    forall i :: 0 <= i < |bodies| ==> Acceptable(reg, DataBlock(key, bodies[i]))
  }

  /** What is passed on for a sequence of bodies. */
  function TaggedAll(reg: Registry, key: Key, bodies: seq<Bytes>): string
    requires AllAcceptable(reg, key, bodies)
  {
    if bodies == [] then ""
    else TaggedAll(reg, key, bodies[..|bodies| - 1]) + Tagged(reg, DataBlock(key, bodies[|bodies| - 1]))
  }

  lemma NothingTagged(reg: Registry, key: Key, bodies: seq<Bytes>)
    ensures AllAcceptable(reg, key, bodies[..0]) && TaggedAll(reg, key, bodies[..0]) == "" && bodies[0..] == bodies
  {
  }

  lemma FrameShorter(stream: Bytes)
    requires NextFrame(stream).Received?
    ensures |NextFrame(stream).rest| < |stream|
    ensures Deliver(stream)
         == ([NextFrame(stream).body] + Deliver(NextFrame(stream).rest).0, Deliver(NextFrame(stream).rest).1)
  {
  }

  /** What the front of the stream adds to the bodies already handled. */
  lemma AcceptableNext(reg: Registry, key: Key, bodies: seq<Bytes>, n: nat, stream: Bytes, last: Frame)
    requires AllAcceptable(reg, key, bodies) && n <= |bodies| && Deliver(stream) == (bodies[n..], last)
    ensures var f := NextFrame(stream);
      if f.Received? then
        && |f.rest| < |stream| && n < |bodies| && Deliver(f.rest) == (bodies[n + 1..], last)
        && Acceptable(reg, DataBlock(key, f.body))
        && AllAcceptable(reg, key, bodies[..n + 1]) && AllAcceptable(reg, key, bodies[..n])
        && TaggedAll(reg, key, bodies[..n + 1])
           == TaggedAll(reg, key, bodies[..n]) + Tagged(reg, DataBlock(key, f.body))
      else
        n == |bodies| && f == last
  {
    hide NextFrame, DataBlock, Acceptable, Tagged;
    if NextFrame(stream).Received? {
      FrameShorter(stream);
      var f := NextFrame(stream);
      assert bodies[n..][0] == bodies[n] == f.body && bodies[n..][1..] == bodies[n + 1..];
      assert bodies[..n + 1][..n] == bodies[..n];
    }
  }

  lemma TextOfMemory(memory: Bytes, o: Bytes)
    requires |o| <= |memory| && memory[..|o|] == o
    ensures ToText(memory) == ToText(o) + ToText(memory[|o|..])
  {
    hide CharOf;
    assert memory == o + memory[|o|..];
  }

  /** The call of monitor_list_change_results on the opened body, with whatever memory lies behind it. */
  method Dispatch(monitors: MonitorList, key: Key, data: array<bv8>, ghost body: Bytes) returns (text: string)
    requires monitors.Valid() && Acceptable(monitors.Registry(), DataBlock(key, body))
    requires var o := Opened(key, body); |o| <= data.Length && data[..|o|] == o
    modifies monitors.Items
    ensures monitors.Valid() && text == Tagged(monitors.Registry(), DataBlock(key, body))
  {
    hide Acceptable, Tagged, Opened;
    ghost var o := Opened(key, body);
    ghost var more := ToText(data[|o|..]);
    TextOfMemory(data[..], o);
    MoreMemory(monitors.Registry(), DataBlock(key, body), more);
    text := monitors.ChangeResults(ToText(data[..]));
  }

  /** One turn of the endless loop. */
  method HandleFrame(sock: Socket, monitors: MonitorList, key: Key) returns (outcome: Outcome, text: string)
    requires monitors.Valid()
    requires var f := NextFrame(sock.incoming);
      f.Received? ==> Acceptable(monitors.Registry(), DataBlock(key, f.body))
    modifies sock`incoming, monitors.Items
    ensures monitors.Valid() && monitors.Registry() == old(monitors.Registry())
    ensures outcome == OutcomeOf(NextFrame(old(sock.incoming)), sock.closed)
    ensures var f := NextFrame(old(sock.incoming));
      f.Received? ==> sock.incoming == f.rest && text == Tagged(monitors.Registry(), DataBlock(key, f.body))
  {
    hide NextFrame, DataBlock, Acceptable, Tagged;
    var body, dataLength;
    outcome, body, dataLength := ReceiveFrame(sock, UNSENT);
    if outcome != DATA_RECEIVED {
      return outcome, "";
    }
    var data := Open(key, body, dataLength);
    text := Dispatch(monitors, key, data, body[..dataLength]);
  }

  /** The endless loop of network_handle_data, up to where it waits, or turns for ever, without reading more. */
  method NetworkHandleData(sock: Socket, monitors: MonitorList, key: Key) returns (sent: string, outcome: Outcome)
    requires monitors.Valid() && AllAcceptable(monitors.Registry(), key, Deliver(sock.incoming).0)
    modifies sock`incoming, monitors.Items
    ensures monitors.Valid() && monitors.Registry() == old(monitors.Registry())
    ensures var (bodies, last) := Deliver(old(sock.incoming));
      sent == TaggedAll(monitors.Registry(), key, bodies) && outcome == OutcomeOf(last, sock.closed)
  {
    hide NextFrame, DataBlock, Acceptable, Tagged, Deliver, TaggedAll, AllAcceptable;
    ghost var stream, reg := sock.incoming, monitors.Registry();
    ghost var bodies, last := Deliver(stream).0, Deliver(stream).1;
    ghost var n := 0;
    sent := "";
    NothingTagged(reg, key, bodies);
    while true
      invariant monitors.Valid() && monitors.Registry() == reg
      invariant n <= |bodies| && Deliver(sock.incoming) == (bodies[n..], last)
      invariant AllAcceptable(reg, key, bodies[..n]) && sent == TaggedAll(reg, key, bodies[..n])
      decreases |sock.incoming|
    {
      ghost var before := sock.incoming;
      var text;
      AcceptableNext(reg, key, bodies, n, before, last);
      outcome, text := HandleFrame(sock, monitors, key);
      if outcome != DATA_RECEIVED {
        assert bodies[..n] == bodies;
        return;
      }
      n := n + 1;
      sent := sent + text;
    }
  }
}
