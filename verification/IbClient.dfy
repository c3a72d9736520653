/**
  EClientSocketBase: the object that owns the two buffers and the connection state.  Its methods
  work as the original's do, with a cursor that runs over the receive buffer and buffers that
  are appended to and cut in place; each is proved against the machine of `IbStream`.
*/
module IbClient {
  import opened Sequences
  import opened Wrappers
  import opened Decimal
  import opened IbFields
  import opened IbLayout
  import opened IbStream
  import opened IbProtocol

  // ------------------------------------------------------------------------------------------
  // Outbound bytes, as a function of what was submitted and of what the socket accepted
  // ------------------------------------------------------------------------------------------

  /** One call: a message given to bufferedSend, or a flush when the socket turns writable. */
  datatype SendOp = Submit(message: string, accepts: int) | Flush(accepts: int)

  /** The bytes on the wire so far, and those still in m_outBuffer. */
  datatype Outbound = Outbound(wire: string, outBuffer: string)

  /** What send() reports when it is offered `offered` bytes: an error, nothing, or a count. */
  function Accepted(accepts: int, offered: string): nat {
    if accepts <= 0 then 0 else if accepts < |offered| then accepts else |offered|
  }

  function Transmit(o: Outbound, accepts: int): Outbound {
    var n := Accepted(accepts, o.outBuffer);
    Outbound(o.wire + o.outBuffer[..n], o.outBuffer[n..])
  }

  /** A first message is offered to the socket before it is buffered; a later one afterwards. */
  function OutboundStep(o: Outbound, op: SendOp): Outbound {
    match op
    case Flush(accepts) => Transmit(o, accepts)
    case Submit(message, accepts) => Transmit(Outbound(o.wire, o.outBuffer + message), accepts)
  }

  function OutboundRun(o: Outbound, ops: seq<SendOp>): Outbound
    decreases |ops|
  {
    if ops == [] then o else OutboundRun(OutboundStep(o, ops[0]), ops[1..])
  }

  function SubmittedBytes(ops: seq<SendOp>): string {
    if ops == [] then "" else (if ops[0].Submit? then ops[0].message else "") + SubmittedBytes(ops[1..])
  }

  /** For every pattern of partial sends the bytes come out complete, once, and in order. */
  lemma {:induction false} OutboundConservation(o: Outbound, ops: seq<SendOp>)
    ensures var o' := OutboundRun(o, ops);
      o'.wire + o'.outBuffer == o.wire + o.outBuffer + SubmittedBytes(ops)
    ensures o.wire <= OutboundRun(o, ops).wire
    decreases |ops|
  {
    if ops != [] {
      StepConserves(o, ops[0]);
      OutboundConservation(OutboundStep(o, ops[0]), ops[1..]);
      Assoc(o.wire + o.outBuffer, if ops[0].Submit? then ops[0].message else "", SubmittedBytes(ops[1..]));
    }
  }

  lemma StepConserves(o: Outbound, op: SendOp)
    ensures var o' := OutboundStep(o, op);
      o'.wire + o'.outBuffer == o.wire + o.outBuffer + (if op.Submit? then op.message else "")
  {
  }

  /** What a flush or a later part of a send does with the bytes that wait: the socket takes them from the head. */
  lemma StepSends(o: Outbound, op: SendOp)
    ensures var o', waiting := OutboundStep(o, op), o.outBuffer + (if op.Submit? then op.message else "");
      && (op.accepts <= 0 ==> o'.wire == o.wire && o'.outBuffer == waiting)
      && (0 < op.accepts < |waiting| ==> o'.wire == o.wire + waiting[..op.accepts] && o'.outBuffer == waiting[op.accepts..])
      && (op.accepts > 0 && op.accepts >= |waiting| ==> o'.wire == o.wire + waiting && o'.outBuffer == "")
  {
    assert op.Flush? ==> o.outBuffer + "" == o.outBuffer;
    assert forall s: string :: s[..|s|] == s && s[..0] == "" && s[0..] == s && s[|s|..] == "";
    assert o.wire + "" == o.wire;
  }

  lemma FlushSends(o: Outbound, accepts: int)
    ensures var o' := OutboundStep(o, Flush(accepts));
      && (accepts <= 0 ==> o' == o)
      && (0 < accepts < |o.outBuffer| ==> o' == Outbound(o.wire + o.outBuffer[..accepts], o.outBuffer[accepts..]))
      && (accepts > 0 && accepts >= |o.outBuffer| ==> o' == Outbound(o.wire + o.outBuffer, ""))
  {
    StepSends(o, Flush(accepts));
    assert o.outBuffer + "" == o.outBuffer;
  }

  function Flushes(accepts: seq<int>): seq<SendOp> {
    if accepts == [] then [] else [Flush(accepts[0])] + Flushes(accepts[1..])
  }

  function TotalAccepted(accepts: seq<int>): nat {
    if accepts == [] then 0 else (if accepts[0] > 0 then accepts[0] else 0) + TotalAccepted(accepts[1..])
  }

  lemma TakenFurther(sent: string, s: string, k: nat, n: nat)
    requires k + n <= |s|
    ensures sent + s[..k] + s[k..][..n] == sent + s[..k + n] && s[k..][n..] == s[k + n..]
  {
    assert s[..k + n] == s[..k] + s[k..][..n];
  }

  /** Flushes move the head of what waits to the wire: as many bytes as they accept together. */
  lemma {:induction false} FlushesSend(o: Outbound, accepts: seq<int>)
    ensures var n := if TotalAccepted(accepts) < |o.outBuffer| then TotalAccepted(accepts) else |o.outBuffer|;
      OutboundRun(o, Flushes(accepts)) == Outbound(o.wire + o.outBuffer[..n], o.outBuffer[n..])
    decreases |accepts|
  {
    hide OutboundStep;
    if accepts == [] {
      assert o.wire + o.outBuffer[..0] == o.wire;
    } else {
      var k := if accepts[0] < 0 then 0 else if accepts[0] < |o.outBuffer| then accepts[0] else |o.outBuffer|;
      var o1, m := OutboundStep(o, Flush(accepts[0])), TotalAccepted(accepts[1..]);
      FlushSends(o, accepts[0]);
      assert o1 == Outbound(o.wire + o.outBuffer[..k], o.outBuffer[k..]);
      assert Flushes(accepts)[1..] == Flushes(accepts[1..]);
      FlushesSend(o1, accepts[1..]);
      TakenFurther(o.wire, o.outBuffer, k, if m < |o.outBuffer| - k then m else |o.outBuffer| - k);
    }
  }

  lemma {:induction false} RunsJoin(o: Outbound, a: seq<SendOp>, b: seq<SendOp>)
    ensures OutboundRun(o, a + b) == OutboundRun(OutboundRun(o, a), b)
    decreases |a|
  {
    if a == [] {
      assert a + b == b;
    } else {
      assert (a + b)[1..] == a[1..] + b && (a + b)[0] == a[0];
      RunsJoin(OutboundStep(o, a[0]), a[1..], b);
    }
  }

  /** Once the flushes accept as many bytes as wait, nothing waits and everything submitted is on the wire. */
  lemma EverythingLeaves(o: Outbound, ops: seq<SendOp>, accepts: seq<int>)
    requires TotalAccepted(accepts) >= |OutboundRun(o, ops).outBuffer|
    ensures OutboundRun(o, ops + Flushes(accepts)) == Outbound(o.wire + o.outBuffer + SubmittedBytes(ops), "")
  {
    OutboundConservation(o, ops);
    RunsJoin(o, ops, Flushes(accepts));
    FlushesSend(OutboundRun(o, ops), accepts);
    hide *;
    var out := OutboundRun(o, ops).outBuffer;
    assert out[..|out|] == out && out[|out|..] == "";
  }

  class EClientSocket {
    const protocol: Protocol

    var open: bool
    var connected: bool
    var serverVersion: int
    var twsTime: string
    var clientId: int
    var inBuffer: string
    var outBuffer: string

    /** The callbacks made and the messages submitted, in order. */
    ghost var log: seq<Output>
    /** The bytes that the socket has accepted on this connection. */
    ghost var wire: string
    /** The bytes of all messages submitted on this connection. */
    ghost var submitted: string

    /** While the connection is up, what was submitted is on the wire or in the buffer. */
    ghost predicate Valid()
      reads this
    {
      && (open ==> wire + outBuffer == submitted)
      && (!open ==> State() == Conn(CLOSED, ""))
    }

    ghost function TheLink(): Link
      reads this
    {
      Link(open, connected, serverVersion, twsTime, clientId)
    }

    ghost function State(): Conn
      reads this
    {
      Conn(TheLink(), inBuffer)
    }

    ghost function TheOutbound(): Outbound
      reads this
    {
      Outbound(wire, outBuffer)
    }

    /** A client whose socket has just been connected. */
    constructor (p: Protocol, id: int)
      ensures protocol == p
      ensures Valid()
      ensures State() == Conn(Link(true, false, 0, "", id), "")
      ensures log == []
    {
      protocol := p;
      open, connected, serverVersion, twsTime, clientId := true, false, 0, "", id;
      inBuffer, outBuffer := "", "";
      log, wire, submitted := [], "", "";
    }

    method Disconnect()
      modifies this
      ensures Valid()
      ensures State() == Conn(CLOSED, "") && outBuffer == ""
      ensures log == old(log) && wire == old(wire) && submitted == old(submitted)
    {
      open := false;
      twsTime, serverVersion, connected, clientId := "", 0, false, -1;
      outBuffer := "";
      inBuffer := "";
    }

    // ----------------------------------------------------------------------------------------
    // Sending
    // ----------------------------------------------------------------------------------------

    /** The socket takes as much of what it is offered as it likes, or reports an error. */
    method Send(offered: string, accepts: int) returns (result: int)
      modifies this`wire
      ensures wire == old(wire) + offered[..Accepted(accepts, offered)]
      ensures result <= |offered|
      ensures Accepted(accepts, offered) == if result <= 0 then 0 else result
    {
      var n := Accepted(accepts, offered);
      wire := wire + offered[..n];
      result := if n == 0 then accepts else n;
      if result > 0 && n == 0 {
        result := 0;
      }
    }

    method CleanupOutBuffer(processed: int)
      requires outBuffer == "" || processed <= |outBuffer|
      modifies this`outBuffer
      ensures outBuffer == Unprocessed(old(outBuffer), processed)
    {
      if outBuffer == "" || processed <= 0 {
        return;
      }
      if processed == |outBuffer| {
        outBuffer := "";
      } else {
        outBuffer := outBuffer[processed..];
      }
    }

    method SendBufferedData(accepts: int) returns (result: int)
      requires Valid()
      modifies this`wire, this`outBuffer
      ensures Valid()
      ensures TheOutbound() == OutboundStep(old(TheOutbound()), Flush(accepts))
      ensures accepts <= 0 ==> wire == old(wire) && outBuffer == old(outBuffer)
      ensures 0 < accepts < |old(outBuffer)| ==>
                wire == old(wire) + old(outBuffer)[..accepts] && outBuffer == old(outBuffer)[accepts..]
      ensures accepts > 0 && accepts >= |old(outBuffer)| ==> wire == old(wire) + old(outBuffer) && outBuffer == ""
      ensures result > 0 <==> accepts > 0 && old(outBuffer) != ""
      ensures result > 0 ==> result == |old(outBuffer)| - |outBuffer|
    {
      StepConserves(TheOutbound(), Flush(accepts));
      FlushSends(TheOutbound(), accepts);
      hide OutboundStep, Transmit;
      if outBuffer == "" {
        assert wire + "" == wire;
        return 0;
      }
      result := Send(outBuffer, accepts);
      if result <= 0 {
        assert wire == old(wire) + "";
        return;
      }
      CleanupOutBuffer(result);
    }

    method BufferedSend(message: string, accepts: int) returns (result: int)
      requires Valid() && open
      modifies this`wire, this`outBuffer, this`submitted, this`log
      ensures Valid()
      ensures submitted == old(submitted) + message && log == old(log) + [Submitted(message)]
      ensures TheOutbound() == if message == "" then old(TheOutbound())
                               else OutboundStep(old(TheOutbound()), Submit(message, accepts))
      ensures message == "" || accepts <= 0 ==> wire == old(wire) && outBuffer == old(outBuffer) + message
      ensures message != "" && 0 < accepts < |old(outBuffer) + message| ==>
                wire == old(wire) + (old(outBuffer) + message)[..accepts]
                && outBuffer == (old(outBuffer) + message)[accepts..]
      ensures message != "" && accepts >= |old(outBuffer) + message| ==>
                wire == old(wire) + (old(outBuffer) + message) && outBuffer == ""
      ensures message == "" ==> result == 0
      ensures message != "" ==> (result > 0 <==> accepts > 0)
      ensures result > 0 ==> result == |old(outBuffer)| + |message| - |outBuffer|
    {
      StepConserves(TheOutbound(), Submit(message, accepts));
      StepSends(TheOutbound(), Submit(message, accepts));
      hide OutboundStep, Transmit;
      submitted := submitted + message;
      log := log + [Submitted(message)];
      if message == "" {
        assert submitted == old(submitted);
        return 0;
      }
      if outBuffer != "" {
        outBuffer := outBuffer + message;
        assert wire + outBuffer == submitted;
        result := SendBufferedData(accepts);
      } else {
        result := SendFirst(message, accepts);
      }
    }

    /** The case of bufferedSend in which nothing is waiting yet. */
    method SendFirst(message: string, accepts: int) returns (result: int)
      requires outBuffer == "" && message != ""
      modifies this`wire, this`outBuffer
      ensures TheOutbound() == OutboundStep(old(TheOutbound()), Submit(message, accepts))
      ensures (result > 0 <==> accepts > 0) && (result > 0 ==> result == |message| - |outBuffer|)
    {
      assert outBuffer + message == message;
      result := Send(message, accepts);
      if result < |message| {
        var sent := if result > 0 then result else 0;
        outBuffer := outBuffer + message[sent..];
        assert outBuffer == message[sent..];
      } else {
        assert message[|message|..] == "";
      }
    }

    // ----------------------------------------------------------------------------------------
    // Receiving
    // ----------------------------------------------------------------------------------------

    method BufferedRead(received: string) returns (result: int)
      modifies this`inBuffer
      ensures inBuffer == old(inBuffer) + received && result == |received|
    {
      result := |received|;
      if result > 0 {
        inBuffer := inBuffer + received;
      }
    }

    method CleanupInBuffer(processed: int)
      requires inBuffer == "" || processed <= |inBuffer|
      modifies this`inBuffer
      ensures inBuffer == Unprocessed(old(inBuffer), processed)
    {
      if inBuffer == "" || processed <= 0 {
        return;
      }
      if processed == |inBuffer| {
        inBuffer := "";
      } else {
        inBuffer := inBuffer[processed..];
      }
    }

    /** One read of the socket, and as many whole messages as the buffer now holds. */
    method CheckMessages(received: string, accepts: int) returns (ok: bool)
      requires Valid()
      modifies this
      ensures Valid()
      ensures ok <==> old(open) && received != ""
      ensures var (state, outs) := Feed(TurnsOf(protocol), old(State()), received);
        State() == state && log == old(log) + outs
    {
      if !open {
        assert log == log + [];
        return false;
      }
      var n := BufferedRead(received);
      if n <= 0 {
        assert log == log + [];
        return false;
      }
      var ptr := DrainBuffer(inBuffer, accepts);
      CleanupInBuffer(ptr);
      ok := true;
    }

    /** The loop of checkMessages; the result is where its cursor stops. */
    method DrainBuffer(buffer: string, accepts: int) returns (ptr: nat)
      requires Valid() && open && inBuffer == buffer != ""
      modifies this
      ensures Valid()
      ensures inBuffer == "" || (inBuffer == buffer && ptr <= |buffer|)
      ensures var d := Drain(TurnsOf(protocol), old(TheLink()), buffer);
        && d.conn == Conn(TheLink(), Unprocessed(inBuffer, ptr))
        && log == old(log) + d.outs
    {
      ptr := 0;
      ghost var f := TurnsOf(protocol);
      ghost var target := Prepend(log, Drain(f, TheLink(), buffer));
      assert buffer[0..] == buffer;
      while true
        invariant open && Valid()
        invariant inBuffer == buffer && 0 <= ptr < |buffer|
        invariant target == Prepend(log, Drain(f, TheLink(), buffer[ptr..]))
        decreases |buffer| - ptr
      {
        AfterTurn(f, TheLink(), buffer[ptr..], log);
        var consumed;
        consumed, ptr := ProcessNext(buffer, ptr, accepts);
        if consumed <= 0 || ptr >= |inBuffer| {
          break;
        }
      }
    }

    /** m_connected ? processMsg : processConnectAck */
    method ProcessNext(buffer: string, begin: nat, accepts: int) returns (processed: int, ptr: nat)
      requires Valid() && open && begin < |buffer|
      modifies this
      ensures Valid()
      ensures Processed(TurnsOf(protocol)(old(TheLink()), buffer[begin..]), old(State()), old(log), buffer, begin, processed, ptr)
    {
      hide Message, Ack;
      if connected {
        processed, ptr := ProcessMsg(buffer, begin);
      } else {
        processed, ptr := ProcessConnectAck(buffer, begin, accepts);
      }
    }

    /** DecodeField: the text up to the next NUL, and the cursor behind that NUL. */
    static method DecodeField(buffer: string, begin: nat) returns (found: bool, text: string, ptr: nat)
      requires begin <= |buffer|
      ensures begin <= ptr <= |buffer|
      ensures found ==> NextField(buffer[begin..]) == Some((text, buffer[ptr..]))
      ensures !found ==> NextField(buffer[begin..]) == None && ptr == begin
    {
      text, ptr := "", begin;
      var end := begin;
      while end < |buffer| && buffer[end] != NUL
        invariant begin <= end <= |buffer|
        invariant NoNul(buffer[begin..end])
      {
        NoNulNext(buffer, begin, end);
        end := end + 1;
      }
      hide NextField, NoNul;
      if end == |buffer| {
        assert buffer[begin..end] == buffer[begin..];
        return false, "", begin;
      }
      NextFieldOf(buffer[begin..end], buffer[end + 1..]);
      FieldAt(buffer, begin, end);
      return true, buffer[begin..end], end + 1;
    }

    /** A straight run of DECODE_FIELDs. */
    static method DecodeRun(names: seq<string>, t: Trace, buffer: string, begin: nat)
        returns (found: bool, trace: Trace, ptr: nat)
      requires begin <= |buffer|
      ensures begin <= ptr <= |buffer|
      ensures found ==> ReadAll(names, t, buffer[begin..]) == Got(trace, buffer[ptr..])
      ensures !found ==> ReadAll(names, t, buffer[begin..]) == Short
    {
      found, trace, ptr := true, t, begin;
      var k := 0;
      assert names[0..] == names;
      while k < |names|
        invariant 0 <= k <= |names| && begin <= ptr <= |buffer|
        invariant ReadAll(names, t, buffer[begin..]) == ReadAll(names[k..], trace, buffer[ptr..])
      {
        var text;
        found, text, ptr := DecodeField(buffer, ptr);
        if !found {
          return;
        }
        trace := trace + [Field(names[k], text)];
        assert names[k..][1..] == names[k + 1..];
        k := k + 1;
      }
    }

    /** The body of one case of the switch in processMsg. */
    method DecodeMessage(layout: Layout, t: Trace, buffer: string, begin: nat)
        returns (outcome: Parsed, ptr: nat)
      requires begin <= |buffer|
      ensures begin <= ptr <= |buffer|
      ensures outcome == Parse(layout, serverVersion, t, buffer[begin..])
      ensures outcome.Got? ==> outcome.rest == buffer[ptr..]
      decreases layout
    {
      ptr := begin;
      match layout
      case End =>
        outcome := Got(t, buffer[begin..]);
      case Fields(names, rest) =>
        var found, trace;
        found, trace, ptr := DecodeRun(names, t, buffer, begin);
        if !found {
          return Short, ptr;
        }
        outcome, ptr := DecodeMessage(rest, trace, buffer, ptr);
      case When(test, body, rest) =>
        if Holds(test, serverVersion, t) {
          outcome, ptr := DecodeMessage(body, t, buffer, begin);
          if outcome.Got? {
            outcome, ptr := DecodeMessage(rest, outcome.trace, buffer, ptr);
          }
        } else {
          outcome, ptr := DecodeMessage(rest, t, buffer, begin);
        }
      case Counted(count, names, rest) =>
        var n := IntOf(t, count);
        if n < 0 {
          return Throws, ptr;
        }
        outcome, ptr := DecodeItems(names, n, t, buffer, begin);
        if outcome.Got? {
          outcome, ptr := DecodeMessage(rest, outcome.trace, buffer, ptr);
        }
    }

    /** The loop over the items of a counted message. */
    static method DecodeItems(names: seq<string>, n: nat, t: Trace, buffer: string, begin: nat)
        returns (outcome: Parsed, ptr: nat)
      requires begin <= |buffer|
      ensures begin <= ptr <= |buffer|
      ensures outcome == ReadAll(Repeated(names, n), t, buffer[begin..])
      ensures outcome.Got? ==> outcome.rest == buffer[ptr..]
    {
      hide ReadAll, Repeated, NextField;
      var trace := t;
      ptr := begin;
      var ctr := 0;
      while ctr < n
        invariant 0 <= ctr <= n && begin <= ptr <= |buffer|
        invariant ReadAll(Repeated(names, n), t, buffer[begin..])
               == ReadAll(Repeated(names, n - ctr), trace, buffer[ptr..])
      {
        ItemFirst(names, n - ctr, trace, buffer[ptr..]);
        var found;
        found, trace, ptr := DecodeRun(names, trace, buffer, ptr);
        if !found {
          return Short, ptr;
        }
        ctr := ctr + 1;
      }
      NoItems(names, trace, buffer[ptr..]);
      outcome := Got(trace, buffer[ptr..]);
    }

    static lemma NoItems(names: seq<string>, t: Trace, b: string)
      ensures ReadAll(Repeated(names, 0), t, b) == Got(t, b)
    {
    }

    static lemma ItemFirst(names: seq<string>, n: nat, t: Trace, b: string)
      requires n > 0
      ensures ReadAll(Repeated(names, n), t, b) == ReadOn(ReadAll(names, t, b), Repeated(names, n - 1))
    {
      ReadAllSplit(names, Repeated(names, n - 1), t, b);
    }

    /** One message; the result is the number of bytes consumed, and not positive if none was. */
    method ProcessMsg(buffer: string, begin: nat) returns (processed: int, ptr: nat)
      requires Valid() && open && connected && begin < |buffer|
      modifies this
      ensures Valid()
      ensures Processed(Message(protocol, old(TheLink()), buffer[begin..]), old(State()), old(log), buffer, begin, processed, ptr)
    {
      var found, idText, body := DecodeField(buffer, begin);
      if !found {
        assert log == log + [];
        return 0, begin;
      }
      var msgId := Atoi(idText);
      match protocol.layout(msgId)
      case None =>
        log := log + [Error(msgId, UNKNOWN_ID)];
        Disconnect();
        log := log + [ConnectionClosed];
        assert log == old(log) + [Error(msgId, UNKNOWN_ID), ConnectionClosed];
        ptr := body;
        processed := ptr - begin;
      case Some(layout) =>
        var outcome, end := DecodeMessage(layout, [], buffer, body);
        match outcome
        case Short =>
          assert log == log + [];
          return 0, begin;
        case Throws =>
          log := log + [Error(NO_VALID_ID, SOCKET_EXCEPTION)];
          return 0, begin;
        case Got(trace, _) =>
          log := log + protocol.calls(msgId, trace);
          ptr := end;
          processed := ptr - begin;
    }

    method ProcessConnectAck(buffer: string, begin: nat, accepts: int) returns (processed: int, ptr: nat)
      requires Valid() && open && !connected && begin < |buffer|
      modifies this
      ensures Valid()
      ensures Processed(Ack(old(TheLink()), buffer[begin..]), old(State()), old(log), buffer, begin, processed, ptr)
      ensures !open ==> processed == -1
    {
      var whole, next := DecodeAck(buffer, begin);
      ptr := begin;
      if !whole {
        processed := 0;
        assert log == log + [];
      } else if serverVersion < SERVER_VERSION {
        Disconnect();
        log := log + [Error(NO_VALID_ID, UPDATE_TWS)];
        processed := -1;
      } else {
        Acknowledge(accepts);
        ptr := next;
        processed := ptr - begin;
      }
    }

    method Acknowledge(accepts: int)
      requires Valid() && open && serverVersion >= SERVER_VERSION
      modifies this
      ensures Valid()
      ensures State() == old(State()).(link := old(TheLink()).(connected := true))
      ensures log == old(log) + [Submitted(ClientIdMessage(clientId))]
    {
      if serverVersion >= 3 {
        var _ := BufferedSend(ClientIdMessage(clientId), accepts);
      }
      connected := true;
    }

    /** The fields of the acknowledgement; a partial one may leave its server version behind. */
    method DecodeAck(buffer: string, begin: nat) returns (whole: bool, next: nat)
      requires !connected && begin < |buffer|
      modifies this`serverVersion, this`twsTime
      ensures whole ==> next <= |buffer|
      ensures Ack(old(TheLink()), buffer[begin..]) == if whole then Acknowledged(TheLink(), buffer[next..]) else Wait(TheLink())
      ensures whole ==> begin < next <= |buffer|
    {
      var versionText;
      whole, versionText, next := DecodeField(buffer, begin);
      if !whole {
        return;
      }
      serverVersion := Atoi(versionText);
      if serverVersion >= 20 {
        var time;
        whole, time, next := DecodeField(buffer, next);
        if whole {
          twsTime := time;
        }
      }
    }

    /** The state and the log are those after `turn`, made in state `c` on the unread bytes. */
    ghost predicate Processed(
      turn: Turn, c: Conn, before: seq<Output>, buffer: string, begin: nat, processed: int, ptr: nat)
      reads this
    {
      && log == before + OutsOf(turn)
      && (turn.Take? <==> processed > 0)
      && (turn.Take? ==> begin < ptr <= |buffer| && turn.rest == buffer[ptr..])
      && (!turn.Take? ==> ptr == begin)
      && State() == match turn
                    case Wait(link) => Conn(link, c.inBuffer)
                    case Throw(_) => c
                    case Refuse(_) => Conn(CLOSED, "")
                    case Take(link, _, _) => Conn(link, if link.open then c.inBuffer else "")
    }
  }

  /** CleanupBuffer. */
  function Unprocessed(buffer: string, processed: int): string
    requires buffer == "" || processed <= |buffer|
  {
    if buffer == "" || processed <= 0 then buffer else buffer[processed..]
  }

  lemma {:induction false} ReadAllSplit(names: seq<string>, others: seq<string>, t: Trace, b: string)
    ensures ReadAll(names + others, t, b) == ReadOn(ReadAll(names, t, b), others)
    decreases |names|
  {
    if names == [] {
      assert names + others == others;
    } else if NextField(b).Some? {
      var (text, rest) := NextField(b).value;
      assert (names + others)[1..] == names[1..] + others;
      ReadAllSplit(names[1..], others, t + [Field(names[0], text)], rest);
    }
  }

  function ReadOn(p: Parsed, names: seq<string>): Parsed {
    if p.Got? then ReadAll(names, p.trace, p.rest) else p
  }

  lemma NoNulNext(buffer: string, begin: nat, end: nat)
    requires begin <= end < |buffer| && NoNul(buffer[begin..end]) && buffer[end] != NUL
    ensures NoNul(buffer[begin..end + 1])
  {
    assert buffer[begin..end + 1] == buffer[begin..end] + [buffer[end]];
  }

  lemma FieldAt(buffer: string, begin: nat, end: nat)
    requires begin <= end < |buffer| && buffer[end] == NUL
    ensures buffer[begin..] == buffer[begin..end] + [NUL] + buffer[end + 1..]
  {
  }
}
