/**
  The loop of the Interactive Brokers client over a byte stream that arrives in pieces.  One
  call of processConnectAck or processMsg is a `Turn`; the loop is studied for any function
  that computes turns and keeps three laws.  `IbProtocol` proves the laws of the client's own.
*/
module IbStream {

  datatype Field = Field(name: string, text: string)

  /** Everything decoded so far from one message, in wire order. */
  type Trace = seq<Field>

  datatype Arg = IntArg(n: int) | TextArg(text: string) | BoolArg(flag: bool) | RecordArg(fields: Trace)

  /** What the application sees, in the order in which it sees it. */
  datatype Output =
    | Call(callback: string, args: seq<Arg>)
    | Error(id: int, code: int)
    | ConnectionClosed
    | Submitted(message: string)  // handed to bufferedSend

  /** The connection state; `open` says that there is a socket. */
  datatype Link = Link(open: bool, connected: bool, serverVersion: int, twsTime: string, clientId: int)

  /** What eDisconnect leaves behind. */
  const CLOSED: Link := Link(false, false, 0, "", -1)

  /** The connection state with the bytes received and not yet decoded. */
  datatype Conn = Conn(link: Link, inBuffer: string)

  /** The outcome of one call of processConnectAck or processMsg on the unread bytes. */
  datatype Turn =
    | Wait(link: Link)
    | Throw(outs: seq<Output>)
    | Refuse(outs: seq<Output>)
    | Take(link: Link, rest: string, outs: seq<Output>)

  /** One call on the unread bytes of the buffer; a turn that takes something advances. */
  type Turns = f: (Link, string) -> Turn | forall c, b :: f(c, b).Take? ==> |f(c, b).rest| < |b|
    witness (c: Link, b: string) => Wait(c)

  function ExtendedTurn(turn: Turn, more: string): Turn {
    if turn.Take? then turn.(rest := turn.rest + more) else turn
  }

  /** A verdict on the first message is final: later bytes only queue up behind it. */
  ghost predicate Stable(f: Turns, c: Link, b: string, more: string) {
    !f(c, b).Wait? ==> f(c, b + more) == ExtendedTurn(f(c, b), more)
  }

  /** What waiting may leave behind does not show once more bytes are there. */
  ghost predicate Patient(f: Turns, c: Link, b: string, more: string) {
    f(c, b).Wait? ==>
      var c1 := f(c, b).link;
      && c1.open == c.open
      && (c1 == c || (f(c1, b + more) == f(c, b + more) && !f(c, b + more).Throw?))
  }

  /** Without bytes there is no verdict, and an exception does not go unreported. */
  ghost predicate Honest(f: Turns, c: Link, b: string) {
    f(c, "").Wait? && (f(c, b).Throw? ==> f(c, b).outs != [])
  }

  ghost predicate Lawful(f: Turns) {
    && (forall c, b, more :: Stable(f, c, b, more))
    && (forall c, b, more :: Patient(f, c, b, more))
    && (forall c, b :: Honest(f, c, b))
  }

  /** The loop of checkMessages; `stuck` says that it ended on an exception. */
  datatype Drained = Drained(conn: Conn, outs: seq<Output>, stuck: bool)

  function Prepend(outs: seq<Output>, d: Drained): Drained {
    d.(outs := outs + d.outs)
  }

  function Drain(f: Turns, c: Link, b: string): Drained
    decreases |b|
  {
    match f(c, b)
    case Wait(c1) => Drained(Conn(c1, b), [], false)
    case Throw(outs) => Drained(Conn(c, b), outs, true)
    case Refuse(outs) => Drained(Conn(CLOSED, ""), outs, false)
    case Take(c1, rest, outs) =>
      if !c1.open || rest == "" then Drained(Conn(c1, ""), outs, false)
      else Prepend(outs, Drain(f, c1, rest))
  }

  function OutsOf(turn: Turn): seq<Output> {
    if turn.Wait? then [] else turn.outs
  }

  /** What is left of a loop of turns after one of them. */
  lemma AfterTurn(f: Turns, c: Link, b: string, seen: seq<Output>)
    ensures var turn, now := f(c, b), seen + OutsOf(f(c, b));
      Prepend(seen, Drain(f, c, b)) ==
        if turn.Wait? then Drained(Conn(turn.link, b), now, false)
        else if turn.Throw? then Drained(Conn(c, b), now, true)
        else if turn.Refuse? then Drained(Conn(CLOSED, ""), now, false)
        else if !turn.link.open || turn.rest == "" then Drained(Conn(turn.link, ""), now, false)
        else Prepend(now, Drain(f, turn.link, turn.rest))
  {
  }

  /** checkMessages, when receive() delivers `chunk`. */
  function Feed(f: Turns, c: Conn, chunk: string): (Conn, seq<Output>) {
    if !c.link.open || chunk == "" then (c, [])
    else
      var d := Drain(f, c.link, c.inBuffer + chunk);
      (d.conn, d.outs)
  }

  /** checkMessages, once for each chunk. */
  function FeedAll(f: Turns, c: Conn, chunks: seq<string>): (Conn, seq<Output>) {
    if chunks == [] then (c, [])
    else
      var (c1, outs) := FeedAll(f, c, chunks[..|chunks| - 1]);
      var (c2, more) := Feed(f, c1, chunks[|chunks| - 1]);
      (c2, outs + more)
  }

  function Flatten(chunks: seq<string>): string {
    if chunks == [] then "" else Flatten(chunks[..|chunks| - 1]) + chunks[|chunks| - 1]
  }

  /**
    The stream runs into a turn that throws: the decoder leaves the bytes of that turn where they
    are, and will throw again at the next read.
  */
  predicate Stuck(f: Turns, c: Link, b: string) {
    Drain(f, c, b).stuck
  }

  // ------------------------------------------------------------------------------------------
  // Independence from the way the stream is cut
  // ------------------------------------------------------------------------------------------

  /** What draining `a + b` does, given what draining `a` did. */
  function Resume(f: Turns, d: Drained, b: string): Drained {
    if d.stuck then d.(conn := d.conn.(inBuffer := d.conn.inBuffer + b))
    else if !d.conn.link.open then d
    else Prepend(d.outs, Drain(f, d.conn.link, d.conn.inBuffer + b))
  }

  lemma ResumeAfter(f: Turns, outs: seq<Output>, d: Drained, b: string)
    ensures Prepend(outs, Resume(f, d, b)) == Resume(f, Prepend(outs, d), b)
  {
  }

  lemma WaitSplit(f: Turns, c: Link, a: string, b: string)
    requires Lawful(f) && c.open && f(c, a).Wait?
    ensures Drain(f, c, a + b) == Resume(f, Drain(f, c, a), b)
  {
    var c1 := f(c, a).link;
    assert Patient(f, c, a, b);
    var e := Drain(f, c1, a + b);
    assert [] + e.outs == e.outs;
  }

  /** Draining can be interrupted anywhere and resumed when more bytes are there. */
  lemma {:induction false} DrainSplit(f: Turns, c: Link, a: string, b: string)
    requires Lawful(f) && c.open && b != ""
    ensures Drain(f, c, a + b) == Resume(f, Drain(f, c, a), b)
    decreases |a|
  {
    assert Stable(f, c, a, b);
    match f(c, a)
    case Wait(_) =>
      WaitSplit(f, c, a, b);
    case Throw(_) =>
    case Refuse(_) =>
    case Take(c1, rest, outs) =>
      if !c1.open {
      } else if rest == "" {
        assert rest + b == b && "" + b == b;
      } else {
        DrainSplit(f, c1, rest, b);
        ResumeAfter(f, outs, Drain(f, c1, rest), b);
      }
  }

  /** Being stuck is for ever. */
  lemma StuckStable(f: Turns, c: Link, a: string, b: string)
    requires Lawful(f) && c.open && Stuck(f, c, a)
    ensures Stuck(f, c, a + b)
    ensures Drain(f, c, a + b).outs == Drain(f, c, a).outs
  {
    if b == "" {
      assert a + b == a;
    } else {
      DrainSplit(f, c, a, b);
    }
  }

  lemma StuckPrefix(f: Turns, c: Link, s: string, k: nat)
    requires Lawful(f) && c.open && k <= |s| && !Stuck(f, c, s)
    ensures !Stuck(f, c, s[..k])
  {
    assert s[..k] + s[k..] == s;
    if Stuck(f, c, s[..k]) {
      StuckStable(f, c, s[..k], s[k..]);
    }
  }

  /** A stuck decoder reports the same message again. */
  lemma {:induction false} StuckAgain(f: Turns, c: Link, a: string, b: string)
    requires Lawful(f) && c.open && Stuck(f, c, a)
    ensures var d := Drain(f, c, a).conn;
      && d.link.open && d.inBuffer != ""
      && f(d.link, d.inBuffer + b).Throw?
    decreases |a|
  {
    assert Stable(f, c, a, b) && Honest(f, c, a);
    match f(c, a)
    case Take(c1, rest, outs) =>
      StuckAgain(f, c1, rest, b);
    case Throw(outs) =>
    case _ =>
  }

  /** One more chunk behind a stream whose chunks have been shown to add up. */
  lemma OneMoreChunk(f: Turns, c: Link, a: string, last: string)
    requires Lawful(f) && c.open && last != "" && !Stuck(f, c, a)
    ensures var (c1, outs) := Feed(f, Conn(c, ""), a);
      var (c2, more) := Feed(f, c1, last);
      Feed(f, Conn(c, ""), a + last) == (c2, outs + more)
  {
    if a == "" {
      assert a + last == last && "" + last == last;
      var (c2, more) := Feed(f, Conn(c, ""), last);
      assert [] + more == more;
    } else {
      assert "" + a == a && "" + (a + last) == a + last;
      DrainSplit(f, c, a, last);
      var d := Drain(f, c, a);
      assert d.outs + [] == d.outs;
    }
  }

  lemma {:induction false} FeedAllAgrees(f: Turns, c: Link, chunks: seq<string>)
    requires Lawful(f) && c.open
    requires Flatten(chunks) != "" ==> !Stuck(f, c, Flatten(chunks)[..|Flatten(chunks)| - 1])
    ensures FeedAll(f, Conn(c, ""), chunks) == Feed(f, Conn(c, ""), Flatten(chunks))
    decreases |chunks|
  {
    if chunks != [] {
      var init, last := chunks[..|chunks| - 1], chunks[|chunks| - 1];
      var a, s := Flatten(init), Flatten(chunks);
      if last == "" {
        assert s == a;
        FeedAllAgrees(f, c, init);
        var (c1, outs) := FeedAll(f, Conn(c, ""), init);
        assert outs + [] == outs;
      } else {
        var most := s[..|s| - 1];
        assert most[..|a|] == a;
        StuckPrefix(f, c, most, |a|);
        if a != "" {
          assert most[..|a| - 1] == a[..|a| - 1];
          StuckPrefix(f, c, most, |a| - 1);
        }
        FeedAllAgrees(f, c, init);
        OneMoreChunk(f, c, a, last);
      }
    }
  }

  /** A cut that shows the difference, when there is one. */
  lemma StuckChunks(f: Turns, c: Link, s: string)
    requires Lawful(f) && c.open && s != "" && Stuck(f, c, s[..|s| - 1])
    ensures var chunks := [s[..|s| - 1], s[|s| - 1..]];
      Flatten(chunks) == s && FeedAll(f, Conn(c, ""), chunks) != Feed(f, Conn(c, ""), s)
  {
    var a, last := s[..|s| - 1], s[|s| - 1..];
    var chunks := [a, last];
    assert a + last == s && "" + s == s && "" + a == a;
    assert Honest(f, c, a);
    assert chunks[..1] == [a] && [a][..0] == [];
    assert Flatten([a]) == "" + a && Flatten(chunks) == Flatten([a]) + last;
    StuckStable(f, c, a, last);
    StuckAgain(f, c, a, last);
    var d := Drain(f, c, a);
    assert FeedAll(f, Conn(c, ""), [a]) == (d.conn, [] + d.outs);
    assert Honest(f, d.conn.link, d.conn.inBuffer + last);
    assert |FeedAll(f, Conn(c, ""), chunks).1| > |d.outs|;
  }

  /** However the socket cuts the stream, the callbacks, the answers and the final state are those of one read. */
  ghost predicate AllCutsAgree(f: Turns, c: Link, s: string) {
    forall chunks :: Flatten(chunks) == s ==> FeedAll(f, Conn(c, ""), chunks) == Feed(f, Conn(c, ""), s)
  }

  /**
    A fresh connection receives the stream alike however it is cut if and only if the decoder throws
    at none of the bytes before the last one: it would throw again at every later read.
  */
  lemma ChunkingIndependence(f: Turns, c: Link, s: string)
    requires Lawful(f) && c.open && s != ""
    ensures AllCutsAgree(f, c, s) <==> !Stuck(f, c, s[..|s| - 1])
  {
    if Stuck(f, c, s[..|s| - 1]) {
      StuckChunks(f, c, s);
    } else {
      forall chunks | Flatten(chunks) == s
        ensures FeedAll(f, Conn(c, ""), chunks) == Feed(f, Conn(c, ""), s)
      {
        FeedAllAgrees(f, c, chunks);
      }
    }
  }
}
