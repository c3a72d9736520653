/**
  The turns of the Interactive Brokers client: the connect acknowledgement first, then messages,
  for as long as the connection is up.  The message types come from a `Protocol`, so that what
  is proved holds for any table of layouts; `IbMessages` holds the table of the client.
*/
module IbProtocol {
  import opened Sequences
  import opened Wrappers
  import opened Decimal
  import opened IbFields
  import opened IbLayout
  import opened IbStream

  const SERVER_VERSION: int := 38
  const NO_VALID_ID: int := -1

  /** The error codes the decoder reports to the application. */
  const UPDATE_TWS: int := 503
  const UNKNOWN_ID: int := 505
  const SOCKET_EXCEPTION: int := 509

  datatype Protocol = Protocol(layout: int -> Option<Layout>, calls: (int, Trace) -> seq<Output>)

  function ClientIdMessage(clientId: int): string {
    IntText(clientId) + [NUL]
  }

  function Ack(c: Link, b: string): Turn {
    match NextField(b)
    case None => Wait(c)
    case Some((versionText, b1)) =>
      var c1 := c.(serverVersion := Atoi(versionText));
      if c1.serverVersion >= 20 then
        match NextField(b1)
        case None => Wait(c1)
        case Some((time, b2)) => Acknowledged(c1.(twsTime := time), b2)
      else
        Acknowledged(c1, b1)
  }

  function Acknowledged(c: Link, rest: string): Turn {
    if c.serverVersion < SERVER_VERSION then Refuse([Error(NO_VALID_ID, UPDATE_TWS)])
    else Take(c.(connected := true), rest, [Submitted(ClientIdMessage(c.clientId))])
  }

  function Message(p: Protocol, c: Link, b: string): Turn {
    match NextField(b)
    case None => Wait(c)
    case Some((idText, body)) => MessageOf(p, c, Atoi(idText), body)
  }

  function MessageOf(p: Protocol, c: Link, msgId: int, body: string): Turn {
    match p.layout(msgId)
    case None => Take(CLOSED, body, [Error(msgId, UNKNOWN_ID), ConnectionClosed])
    case Some(l) =>
      match Parse(l, c.serverVersion, [], body)
      case Short => Wait(c)
      case Throws => Throw([Error(NO_VALID_ID, SOCKET_EXCEPTION)])
      case Got(t, rest) => Take(c, rest, p.calls(msgId, t))
  }

  function NextTurn(p: Protocol, c: Link, b: string): (turn: Turn)
    ensures turn.Take? ==> |turn.rest| < |b|
  {
    TurnAdvances(p, c, b);
    if c.connected then Message(p, c, b) else Ack(c, b)
  }

  lemma TurnAdvances(p: Protocol, c: Link, b: string)
    ensures Message(p, c, b).Take? ==> |Message(p, c, b).rest| < |b|
    ensures Ack(c, b).Take? ==> |Ack(c, b).rest| < |b|
  {
    if NextField(b).Some? {
      var (idText, body) := NextField(b).value;
      if p.layout(Atoi(idText)).Some? {
        ParseExact(p.layout(Atoi(idText)).value, c.serverVersion, [], body);
      }
    }
  }

  // ------------------------------------------------------------------------------------------
  // One message at a time
  // ------------------------------------------------------------------------------------------

  /** A verdict on the first message is final: later bytes only queue up behind it. */
  lemma TurnStable(p: Protocol, c: Link, b: string, more: string)
    ensures !NextTurn(p, c, b).Wait? ==>
              NextTurn(p, c, b + more) == ExtendedTurn(NextTurn(p, c, b), more)
  {
    NextFieldStable(b, more);
    if NextField(b).Some? {
      var (text, body) := NextField(b).value;
      if c.connected {
        if p.layout(Atoi(text)).Some? {
          ParseStable(p.layout(Atoi(text)).value, c.serverVersion, [], body, more);
        }
      } else {
        NextFieldStable(body, more);
      }
    }
  }

  /**
    An acknowledgement cut in two may leave the server version behind, but nothing reads it
    before the whole acknowledgement is decoded again.
  */
  lemma WaitIsHarmless(p: Protocol, c: Link, b: string, more: string)
    requires NextTurn(p, c, b).Wait?
    ensures var c1 := NextTurn(p, c, b).link;
      && c1.open == c.open
      && (c1 == c || (NextTurn(p, c1, b + more) == NextTurn(p, c, b + more) && !NextTurn(p, c, b + more).Throw?))
  {
    if !c.connected {
      NextFieldStable(b, more);
      var c1 := Ack(c, b).link;
      assert c1 != c ==> Ack(c1, b + more) == Ack(c, b + more);
    }
  }

  /** The bytes of the fields of a message, after its id. */
  function MessageBody(p: Protocol, c: Link, msgId: int, body: string): string {
    match p.layout(msgId)
    case None => ""
    case Some(l) => Wire(Added(Parse(l, c.serverVersion, [], body), []))
  }

  /** The bytes of the first message of the buffer, when it is whole. */
  function FirstMessage(p: Protocol, c: Link, b: string): string {
    match NextField(b)
    case None => ""
    case Some((text, body)) =>
      text + [NUL] + (
        if c.connected then MessageBody(p, c, Atoi(text), body)
        else if Atoi(text) >= 20 && NextField(body).Some? then NextField(body).value.0 + [NUL] else "")
  }

  lemma FirstMessageEnds(p: Protocol, c: Link, b: string)
    requires NextTurn(p, c, b).Take?
    ensures b == FirstMessage(p, c, b) + NextTurn(p, c, b).rest
  {
    var (text, body) := NextField(b).value;
    if c.connected && p.layout(Atoi(text)).Some? {
      var q := Parse(p.layout(Atoi(text)).value, c.serverVersion, [], body);
      ParseExact(p.layout(Atoi(text)).value, c.serverVersion, [], body);
      Assoc(text + [NUL], Wire(Added(q, [])), q.rest);
    } else if !c.connected {
      Assoc(text + [NUL], NextField(body).value.0 + [NUL], NextField(body).value.1);
    }
  }

  lemma AckAlone(c: Link, b: string, other: string)
    requires Ack(c, b).Take?
    ensures var (text, body) := NextField(b).value;
      Ack(c, text + [NUL] + ((if Atoi(text) >= 20 then NextField(body).value.0 + [NUL] else "") + other))
      == Ack(c, b).(rest := other)
  {
    // an acknowledgement that is taken comes from a server of version 38 or later
    var (text, body) := NextField(b).value;
    var time := NextField(body).value.0;
    NextFieldOf(time, other);
    NextFieldOf(text, time + [NUL] + other);
  }

  lemma MessageAlone(p: Protocol, c: Link, msgId: int, body: string, other: string)
    requires MessageOf(p, c, msgId, body).Take?
    ensures MessageOf(p, c, msgId, MessageBody(p, c, msgId, body) + other)
         == MessageOf(p, c, msgId, body).(rest := other)
  {
    if p.layout(msgId).Some? {
      ParseNoLookahead(p.layout(msgId).value, c.serverVersion, [], body, other);
    } else {
      assert "" + other == other;
    }
  }

  /** What is taken as the first message does not depend on what stands behind it. */
  lemma FirstMessageAlone(p: Protocol, c: Link, b: string, other: string)
    requires NextTurn(p, c, b).Take?
    ensures NextTurn(p, c, FirstMessage(p, c, b) + other) == NextTurn(p, c, b).(rest := other)
  {
    var (text, body) := NextField(b).value;
    if c.connected {
      var tail := MessageBody(p, c, Atoi(text), body);
      assert FirstMessage(p, c, b) + other == text + [NUL] + (tail + other);
      NextFieldOf(text, tail + other);
      MessageAlone(p, c, Atoi(text), body, other);
    } else {
      var tail := if Atoi(text) >= 20 then NextField(body).value.0 + [NUL] else "";
      assert FirstMessage(p, c, b) + other == text + [NUL] + (tail + other);
      AckAlone(c, b, other);
    }
  }

  /**
    All or nothing.  When a turn takes something, it takes one whole message, with the same
    callbacks whatever stands behind it, and every proper prefix of that message makes the
    decoder wait without a callback.
  */
  lemma AllOrNothing(p: Protocol, c: Link, b: string)
    requires NextTurn(p, c, b).Take?
    ensures var turn, first := NextTurn(p, c, b), FirstMessage(p, c, b);
      && first != "" && b == first + turn.rest
      && (forall other :: NextTurn(p, c, first + other) == turn.(rest := other))
      && (forall k :: 0 <= k < |first| ==> NextTurn(p, c, first[..k]).Wait?)
  {
    var turn, first := NextTurn(p, c, b), FirstMessage(p, c, b);
    FirstMessageEnds(p, c, b);
    forall other ensures NextTurn(p, c, first + other) == turn.(rest := other) {
      FirstMessageAlone(p, c, b, other);
    }
    forall k | 0 <= k < |first| ensures NextTurn(p, c, first[..k]).Wait? {
      TurnStable(p, c, first[..k], first[k..]);
      assert first == first[..k] + first[k..] == first + "";
      assert NextTurn(p, c, first + "").rest == "";
    }
  }

  // ------------------------------------------------------------------------------------------
  // The client's stream
  // ------------------------------------------------------------------------------------------

  function TurnsOf(p: Protocol): Turns {
    (c: Link, b: string) => NextTurn(p, c, b)
  }

  lemma ClientIsLawful(p: Protocol)
    ensures Lawful(TurnsOf(p))
  {
    var f := TurnsOf(p);
    forall c, b, more ensures Stable(f, c, b, more) {
      ClientIsStable(p, c, b, more);
    }
    forall c, b, more ensures Patient(f, c, b, more) {
      ClientIsPatient(p, c, b, more);
    }
    forall c, b ensures Honest(f, c, b) {
      assert NextField("").None?;
    }
  }

  lemma ClientIsStable(p: Protocol, c: Link, b: string, more: string)
    ensures Stable(TurnsOf(p), c, b, more)
  {
    TurnStable(p, c, b, more);
  }

  lemma ClientIsPatient(p: Protocol, c: Link, b: string, more: string)
    ensures Patient(TurnsOf(p), c, b, more)
  {
    if NextTurn(p, c, b).Wait? {
      WaitIsHarmless(p, c, b, more);
    }
  }
}
