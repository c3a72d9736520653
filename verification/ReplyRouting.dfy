/**
  The routing of replies to strategies.  A HELO tells the address of a strategy, an order tells the
  strategy of an order id; acknowledgements and execution reports are queued with a strategy id in
  front, which becomes an address only when they are relayed.
*/
module ReplyRouting {
  import opened Wrappers

  type Frame = string
  type Multipart = seq<Frame>

  const HEARTBEAT_ACK: Frame := [0xA1 as char]
  const EXEC_RPT: Frame := [0xB0 as char]
  const STRATEGY_HELO_ACK: Frame := [0xF1 as char]

  /** An order id that is not cached is answered with the empty strategy id. */
  const NO_STRATEGY: Frame := ""

  /** The two connections on which replies come to the message processor. */
  datatype Queue = Admin | Application

  /** What happens, one after the other. */
  datatype Event =
    | Helo(address: Frame, sid: Frame)
    | Heartbeat(address: Frame, sid: Frame)
    | Order(address: Frame, msgType: Frame, sid: Frame, oid: Frame, data: Frame)
    | Dropped(address: Frame)
    | Report(oid: Frame, data: Frame)
    | Relay(queue: Queue)

  // ------------------------------------------------------------------------------------------
  // What a history tells
  // ------------------------------------------------------------------------------------------

  function Init(h: seq<Event>): seq<Event>
    requires h != []
  {
    h[..|h| - 1]
  }

  function Last(h: seq<Event>): Event
    requires h != []
  {
    h[|h| - 1]
  }

  /** The address of the latest HELO of the strategy. */
  function LatestHelo(h: seq<Event>, sid: Frame): Option<Frame> {
    if h == [] then None
    else if Last(h).Helo? && Last(h).sid == sid then Some(Last(h).address)
    else LatestHelo(Init(h), sid)
  }

  /** The strategy that submitted the order id last. */
  function LastSubmitter(h: seq<Event>, oid: Frame): Option<Frame> {
    if h == [] then None
    else if Last(h).Order? && Last(h).oid == oid then Some(Last(h).sid)
    else LastSubmitter(Init(h), oid)
  }

  /** That is the address of a HELO of the strategy with none behind it; there is no address exactly when it never said HELO. */
  lemma {:induction false} LatestHeloIs(h: seq<Event>, sid: Frame)
    ensures match LatestHelo(h, sid)
            case None => forall k :: 0 <= k < |h| ==> !(h[k].Helo? && h[k].sid == sid)
            case Some(address) => exists j :: 0 <= j < |h| && h[j] == Event.Helo(address, sid)
                                              && forall k :: j < k < |h| ==> !(h[k].Helo? && h[k].sid == sid)
  {
    if h != [] && !(Last(h).Helo? && Last(h).sid == sid) {
      LatestHeloIs(Init(h), sid);
      assert forall k :: 0 <= k < |h| - 1 ==> Init(h)[k] == h[k];
    } else if h != [] {
      assert h[|h| - 1] == Event.Helo(Last(h).address, sid);
    }
  }

  /** That is the strategy of an order with that id with none behind it. */
  lemma {:induction false} LastSubmitterIs(h: seq<Event>, oid: Frame)
    ensures match LastSubmitter(h, oid)
            case None => forall k :: 0 <= k < |h| ==> !(h[k].Order? && h[k].oid == oid)
            case Some(sid) => exists j :: 0 <= j < |h| && h[j].Order? && h[j].oid == oid && h[j].sid == sid
                                          && forall k :: j < k < |h| ==> !(h[k].Order? && h[k].oid == oid)
  {
    if h != [] && !(Last(h).Order? && Last(h).oid == oid) {
      LastSubmitterIs(Init(h), oid);
      assert forall k :: 0 <= k < |h| - 1 ==> Init(h)[k] == h[k];
    } else if h != [] {
      assert h[|h| - 1].Order? && h[|h| - 1].oid == oid;
    }
  }

  /** The strategy that a report is meant for, frozen when the report comes. */
  function Addressee(h: seq<Event>, oid: Frame): Frame {
    var sid := LastSubmitter(h, oid);
    if sid.Some? then sid.value else NO_STRATEGY
  }

  /** What an event puts on a connection: the strategy id, the type, and the rest of the frames. */
  function Answer(h: seq<Event>, e: Event, queue: Queue, venue: Frame): seq<Multipart> {
    match (queue, e)
    case (Admin, Helo(_, sid)) => [[sid, STRATEGY_HELO_ACK, venue]]
    case (Admin, Heartbeat(_, sid)) => [[sid, HEARTBEAT_ACK]]
    case (Application, Report(oid, data)) => [[Addressee(h, oid), EXEC_RPT, data]]
    case _ => []
  }

  /** All that was ever queued on a connection. */
  function Queued(h: seq<Event>, queue: Queue, venue: Frame): seq<Multipart> {
    if h == [] then [] else Queued(Init(h), queue, venue) + Answer(Init(h), Last(h), queue, venue)
  }

  function Relays(h: seq<Event>, queue: Queue): nat {
    if h == [] then 0 else Relays(Init(h), queue) + if Last(h) == Relay(queue) then 1 else 0
  }

  /** A reply with the address in the place of the strategy id. */
  function Delivered(h: seq<Event>, reply: Multipart): seq<Multipart> {
    if reply != [] && LatestHelo(h, reply[0]).Some? then [[LatestHelo(h, reply[0]).value] + reply[1..]] else []
  }

  /**
    What a strategy gets: each relay takes the oldest reply of its connection that is left, and sends
    all its frames but the first to the latest address, at that time, of the strategy it is meant for.
  */
  function Sent(h: seq<Event>, venue: Frame): seq<Multipart> {
    if h == [] then []
    else
      Sent(Init(h), venue) +
      if Last(h).Relay? then
        var k, all := Relays(Init(h), Last(h).queue), Queued(Init(h), Last(h).queue, venue);
        if k < |all| then Delivered(Init(h), all[k]) else []
      else []
  }

  /** Every strategy says HELO before anything else, and reports are about order ids that were submitted. */
  predicate WellBehaved(h: seq<Event>) {
    h != [] ==>
      && WellBehaved(Init(h))
      && match Last(h)
         case Heartbeat(_, sid) => LatestHelo(Init(h), sid).Some?
         case Order(_, _, sid, _, _) => LatestHelo(Init(h), sid).Some?
         case Report(oid, _) => LastSubmitter(Init(h), oid).Some?
         case _ => true
  }

  lemma {:induction false} QueuedShape(h: seq<Event>, queue: Queue, venue: Frame, k: nat)
    requires k < |Queued(h, queue, venue)|
    ensures Queued(h, queue, venue)[k] != []
  {
    if k < |Queued(Init(h), queue, venue)| {
      QueuedShape(Init(h), queue, venue, k);
    }
  }

  /** What an event queued stays where it was in the order of the connection. */
  lemma {:induction false} QueuedAt(h: seq<Event>, queue: Queue, venue: Frame, j: nat)
    requires j < |h|
    ensures var k, answer := |Queued(h[..j], queue, venue)|, Answer(h[..j], h[j], queue, venue);
      k + |answer| <= |Queued(h, queue, venue)| && Queued(h, queue, venue)[k..k + |answer|] == answer
  {
    if j < |h| - 1 {
      QueuedAt(Init(h), queue, venue, j);
      assert Init(h)[..j] == h[..j] && Init(h)[j] == h[j];
    }
  }

  /**
    A report is relayed when as many relays of its connection have come before as reports were queued
    before it.  It leaves on the address of the latest HELO, at that time, of the strategy that had
    last submitted its order id when the report came.
  */
  lemma ReportRoute(h: seq<Event>, j: nat, venue: Frame)
    requires WellBehaved(h) && j < |h| && h[j].Report?
    requires Relays(h, Application) == |Queued(h[..j], Application, venue)|
    ensures LastSubmitter(h[..j], h[j].oid).Some?
    ensures var sid := LastSubmitter(h[..j], h[j].oid).value;
      LatestHelo(h, sid).Some?
      && Sent(h + [Relay(Application)], venue) == Sent(h, venue) + [[LatestHelo(h, sid).value, [0xB0 as char], h[j].data]]
  {
    WellBehavedBefore(h, j);
    QueuedAt(h, Application, venue, j);
    var k := Relays(h, Application);
    var reply := Queued(h, Application, venue)[k..k + 1][0];
    assert reply == Queued(h, Application, venue)[k];
    RouteExists(h, Application, venue, k);
    Extended(h, Relay(Application));
    var address := LatestHelo(h, reply[0]).value;
    assert [address] + reply[1..] == [address, EXEC_RPT, h[j].data];
  }

  /** The answer to a HELO leaves on the address of the latest HELO of that strategy, with the name of the venue. */
  lemma HeloRoute(h: seq<Event>, j: nat, venue: Frame)
    requires j < |h| && h[j].Helo?
    requires Relays(h, Admin) == |Queued(h[..j], Admin, venue)|
    ensures LatestHelo(h, h[j].sid).Some?
    ensures Sent(h + [Relay(Admin)], venue) == Sent(h, venue) + [[LatestHelo(h, h[j].sid).value, [0xF1 as char], venue]]
  {
    QueuedAt(h, Admin, venue, j);
    var k := Relays(h, Admin);
    var reply := Queued(h, Admin, venue)[k..k + 1][0];
    assert reply == Queued(h, Admin, venue)[k] == [h[j].sid, STRATEGY_HELO_ACK, venue];
    LatestHeloIs(h, h[j].sid);
    Extended(h, Relay(Admin));
    var address := LatestHelo(h, reply[0]).value;
    assert [address] + reply[1..] == [address, STRATEGY_HELO_ACK, venue];
  }

  /** So does the answer to a heartbeat, once the strategy has said HELO. */
  lemma HeartbeatRoute(h: seq<Event>, j: nat, venue: Frame)
    requires j < |h| && h[j].Heartbeat? && LatestHelo(h, h[j].sid).Some?
    requires Relays(h, Admin) == |Queued(h[..j], Admin, venue)|
    ensures Sent(h + [Relay(Admin)], venue) == Sent(h, venue) + [[LatestHelo(h, h[j].sid).value, [0xA1 as char]]]
  {
    QueuedAt(h, Admin, venue, j);
    var k := Relays(h, Admin);
    var reply := Queued(h, Admin, venue)[k..k + 1][0];
    assert reply == Queued(h, Admin, venue)[k] == [h[j].sid, HEARTBEAT_ACK];
    Extended(h, Relay(Admin));
    var address := LatestHelo(h, reply[0]).value;
    assert [address] + reply[1..] == [address, HEARTBEAT_ACK];
  }

  lemma {:induction false} WellBehavedBefore(h: seq<Event>, j: nat)
    requires WellBehaved(h) && j < |h| && h[j].Report?
    ensures LastSubmitter(h[..j], h[j].oid).Some?
  {
    if j < |h| - 1 {
      WellBehavedBefore(Init(h), j);
      assert Init(h)[..j] == h[..j] && Init(h)[j] == h[j];
    }
  }

  lemma {:induction false} SubmitterSaidHelo(h: seq<Event>, oid: Frame)
    requires WellBehaved(h) && LastSubmitter(h, oid).Some?
    ensures LatestHelo(h, LastSubmitter(h, oid).value).Some?
  {
    if !(Last(h).Order? && Last(h).oid == oid) {
      SubmitterSaidHelo(Init(h), oid);
    }
  }

  /** In a well-behaved run there is a route for every reply that was queued. */
  lemma {:induction false} RouteExists(h: seq<Event>, queue: Queue, venue: Frame, k: nat)
    requires WellBehaved(h) && k < |Queued(h, queue, venue)|
    ensures var m := Queued(h, queue, venue)[k]; m != [] && LatestHelo(h, m[0]).Some?
  {
    if k < |Queued(Init(h), queue, venue)| {
      RouteExists(Init(h), queue, venue, k);
    } else if Last(h).Report? {
      SubmitterSaidHelo(Init(h), Last(h).oid);
    }
  }

  // ------------------------------------------------------------------------------------------
  // The caches and the processor
  // ------------------------------------------------------------------------------------------

  class KStrategyCache {
    var cache: map<Frame, seq<Frame>>

    constructor ()
      ensures cache == map[]
    {
      cache := map[];
    }

    method Add(key: Frame, val: seq<Frame>)
      modifies this
      ensures cache == old(cache)[key := val]
    {
      cache := cache[key := val];
    }

    /** The route of the strategy; one without nodes when there is none. */
    method Get(key: Frame) returns (route: seq<Frame>)
      ensures route == if key in cache then cache[key] else []
    {
      if key in cache {
        return cache[key];
      }
      return [];
    }
  }

  class KOrderCache {
    var cache: map<Frame, Frame>

    constructor ()
      ensures cache == map[]
    {
      cache := map[];
    }

    method Add(key: Frame, val: Frame)
      modifies this
      ensures cache == old(cache)[key := val]
    {
      cache := cache[key := val];
    }

    method Get(key: Frame) returns (sid: Option<Frame>)
      ensures sid == if key in cache then Some(cache[key]) else None
    {
      if key in cache {
        return Some(cache[key]);
      }
      return None;
    }
  }

  class MsgProcessor {
    const venue: Frame
    const scache: KStrategyCache
    const ocache: KOrderCache
    /** The replies that wait on the two connections. */
    var admin: seq<Multipart>
    var application: seq<Multipart>
    /** What left for the strategies, and what went to the order interface. */
    var outgoing: seq<Multipart>
    var dispatched: seq<(Frame, Frame)>
    ghost var history: seq<Event>

    constructor (venue: Frame)
      ensures Valid() && fresh(scache) && fresh(ocache)
      ensures this.venue == venue && history == []
    {
      this.venue, admin, application, outgoing, dispatched, history := venue, [], [], [], [], [];
      scache := new KStrategyCache();
      ocache := new KOrderCache();
    }

    /** The fields are what the history tells. */
    ghost predicate Valid()
      reads this, scache, ocache
    {
      CachesRight() && QueuesRight() && outgoing == Sent(history, venue)
    }

    ghost predicate CachesRight()
      reads this, scache, ocache
    {
      CachesMatch(history, scache.cache, ocache.cache)
    }

    ghost predicate QueuesRight()
      reads this
    {
      && Waiting(history, Admin, venue, admin)
      && Waiting(history, Application, venue, application)
    }

    /** snd_STRATEGY_HELO_ACK and snd_HEARTBEAT_ACK. */
    method SendAdmin(message: Multipart)
      modifies this`admin
      ensures admin == old(admin) + [message]
    {
      admin := admin + [message];
    }

    /** A message from a strategy; nothing else is received here. */
    method HandleIncomingClientMessage(e: Event)
      requires Valid() && !e.Report? && !e.Relay?
      modifies this, scache, ocache
      ensures Valid() && history == old(history) + [e]
      ensures dispatched == old(dispatched) + if e.Order? then [(e.msgType, e.data)] else []
      ensures admin == old(admin) + match e
                                    case Helo(_, sid) => [[sid, [0xF1 as char], venue]]
                                    case Heartbeat(_, sid) => [[sid, [0xA1 as char]]]
                                    case _ => []
      ensures application == old(application) && outgoing == old(outgoing)
    {
      hide Valid, CachesMatch, Waiting, Sent, Delivered, Queued, Relays;
      Parts();
      match e {
        case Helo(address, sid) =>
          var route := [address];
          scache.Add(sid, route);
          SendAdmin([sid, STRATEGY_HELO_ACK, venue]);
        case Heartbeat(_, sid) =>
          SendAdmin([sid, HEARTBEAT_ACK]);
        case Order(_, msgType, sid, oid, data) =>
          ocache.Add(oid, sid);
          dispatched := dispatched + [(msgType, data)];
        case Dropped(_) =>
      }
      Record(e, old(history), old(scache.cache), old(ocache.cache), old(admin), old(application), old(outgoing));
    }

    /** The execution report handler of the FIX application. */
    method OnExecutionReport(oid: Frame, data: Frame)
      requires Valid()
      modifies this
      ensures Valid() && history == old(history) + [Report(oid, data)]
      ensures dispatched == old(dispatched) && admin == old(admin) && outgoing == old(outgoing)
      ensures var sid := LastSubmitter(old(history), oid);
        application == old(application) + [[if sid.Some? then sid.value else "", [0xB0 as char], data]]
    {
      Parts();
      var oinfo := ocache.Get(oid);
      var sid := if oinfo.Some? then oinfo.value else NO_STRATEGY;
      assert SubmitterRight(history, ocache.cache, oid);
      hide Valid, CachesMatch, Waiting, Sent, Delivered, Queued, Relays;
      application := application + [[sid, EXEC_RPT, data]];
      Record(Report(oid, data), old(history), old(scache.cache), old(ocache.cache), old(admin), old(application), old(outgoing));
    }

    /** The event is written down, and the fields are what the longer history tells. */
    ghost method Record(e: Event, h: seq<Event>, sc: map<Frame, seq<Frame>>, oc: map<Frame, Frame>,
                        admin0: seq<Multipart>, application0: seq<Multipart>, outgoing0: seq<Multipart>)
      requires history == h && CachesMatch(h, sc, oc) && Waiting(h, Admin, venue, admin0)
      requires Waiting(h, Application, venue, application0) && outgoing0 == Sent(h, venue)
      requires scache.cache == if e.Helo? then sc[e.sid := [e.address]] else sc
      requires ocache.cache == if e.Order? then oc[e.oid := e.sid] else oc
      requires admin == After(h, e, Admin, venue, admin0) && application == After(h, e, Application, venue, application0)
      requires e.Relay? ==> (if e.queue == Admin then admin0 else application0) != []
      requires outgoing == outgoing0 + if e.Relay? then Delivered(h, (if e.queue == Admin then admin0 else application0)[0]) else []
      modifies this`history
      ensures Valid() && history == h + [e]
    {
      history := h + [e];
      CachesAfter(h, e, sc, oc);
      WaitingAfter(h, e, Admin, venue, admin0);
      WaitingAfter(h, e, Application, venue, application0);
      SentAfter(h, e, venue, if e.Relay? && e.queue == Admin then admin0 else application0);
    }

    /**
      rcv_internal: the oldest reply of a connection leaves with the address of its strategy in front.
      The assertion that there is one holds exactly when the strategy has said HELO by now; when it
      fails the program ends.
    */
    method RcvInternal(queue: Queue) returns (ok: bool)
      requires Valid() && (if queue == Admin then admin else application) != []
      modifies this
      ensures var reply := old(if queue == Admin then admin else application)[0];
        reply != [] && (ok <==> LatestHelo(old(history), reply[0]).Some?)
      ensures WellBehaved(old(history)) ==> ok
      ensures ok ==> Valid() && history == old(history) + [Relay(queue)]
      ensures ok ==>
        var reply := old(if queue == Admin then admin else application)[0];
        && outgoing == old(outgoing) + [[LatestHelo(old(history), reply[0]).value] + reply[1..]]
        && (if queue == Admin then admin else application) == old(if queue == Admin then admin else application)[1..]
        && (if queue == Admin then application else admin) == old(if queue == Admin then application else admin)
      ensures dispatched == old(dispatched)
    {
      hide *;
      ReplyParts(queue);
      Parts();
      var reply := if queue == Admin then admin[0] else application[0];
      var route := scache.Get(reply[0]);
      if |route| == 0 {
        return false;
      }
      var message := Forward(route, reply);
      outgoing := outgoing + [message];
      if queue == Admin {
        admin := admin[1..];
      } else {
        application := application[1..];
      }
      AfterRelay(old(history), queue, venue, old(admin), old(application));
      Record(Relay(queue), old(history), old(scache.cache), old(ocache.cache), old(admin), old(application), old(outgoing));
      ok := true;
    }

    /** The nodes of the route, and then the frames behind the strategy id. */
    method Forward(route: seq<Frame>, reply: Multipart) returns (message: Multipart)
      requires |reply| > 0
      ensures message == route + reply[1..]
    {
      message := [];
      for i := 0 to |route|
        invariant message == route[..i]
      {
        message := message + [route[i]];
      }
      for k := 1 to |reply|
        invariant message == route + reply[1..k]
      {
        message := message + [reply[k]];
      }
    }

    /** A reply that waits has a strategy id in front, and the cache has its route. */
    lemma ReplyParts(queue: Queue)
      requires Valid() && (if queue == Admin then admin else application) != []
      ensures var reply := (if queue == Admin then admin else application)[0];
        && reply != []
        && (LatestHelo(history, reply[0]).Some? <==> reply[0] in scache.cache)
        && (reply[0] in scache.cache ==>
              && scache.cache[reply[0]] == [LatestHelo(history, reply[0]).value]
              && Delivered(history, reply) == [scache.cache[reply[0]] + reply[1..]])
        && (WellBehaved(history) ==> LatestHelo(history, reply[0]).Some?)
    {
      QueuedShape(history, queue, venue, Relays(history, queue));
      var reply := (if queue == Admin then admin else application)[0];
      assert RouteRight(history, scache.cache, reply[0]);
      if WellBehaved(history) {
        RouteExists(history, queue, venue, Relays(history, queue));
      }
    }

    lemma Parts()
      requires Valid()
      ensures CachesMatch(history, scache.cache, ocache.cache) && outgoing == Sent(history, venue)
      ensures Waiting(history, Admin, venue, admin) && Waiting(history, Application, venue, application)
    {
    }
  }

  ghost predicate CachesMatch(h: seq<Event>, sc: map<Frame, seq<Frame>>, oc: map<Frame, Frame>) {
    (forall sid :: RouteRight(h, sc, sid)) && (forall oid :: SubmitterRight(h, oc, oid))
  }

  /** The queue after the event. */
  function After(h: seq<Event>, e: Event, queue: Queue, venue: Frame, waiting: seq<Multipart>): seq<Multipart> {
    if e == Relay(queue) && waiting != [] then waiting[1..] else waiting + Answer(h, e, queue, venue)
  }

  /** The other connection is as it was. */
  lemma AfterRelay(h: seq<Event>, queue: Queue, venue: Frame, admin: seq<Multipart>, application: seq<Multipart>)
    requires (if queue == Admin then admin else application) != []
    ensures After(h, Relay(queue), Admin, venue, admin) == if queue == Admin then admin[1..] else admin
    ensures After(h, Relay(queue), Application, venue, application) == if queue == Admin then application else application[1..]
  {
  }

  lemma CachesAfter(h: seq<Event>, e: Event, sc: map<Frame, seq<Frame>>, oc: map<Frame, Frame>)
    requires CachesMatch(h, sc, oc)
    ensures CachesMatch(h + [e], if e.Helo? then sc[e.sid := [e.address]] else sc, if e.Order? then oc[e.oid := e.sid] else oc)
  {
    var h' := h + [e];
    Extended(h, e);
    var sc' := if e.Helo? then sc[e.sid := [e.address]] else sc;
    var oc' := if e.Order? then oc[e.oid := e.sid] else oc;
    forall sid ensures RouteRight(h', sc', sid) {
      assert RouteRight(h, sc, sid);
    }
    forall oid ensures SubmitterRight(h', oc', oid) {
      assert SubmitterRight(h, oc, oid);
    }
  }

  lemma WaitingAfter(h: seq<Event>, e: Event, queue: Queue, venue: Frame, waiting: seq<Multipart>)
    requires Waiting(h, queue, venue, waiting) && (e == Relay(queue) ==> waiting != [])
    ensures Waiting(h + [e], queue, venue, After(h, e, queue, venue, waiting))
  {
    Extended(h, e);
    var all, k := Queued(h, queue, venue), Relays(h, queue);
    if e == Relay(queue) {
      assert all + [] == all;
      assert all[k..][1..] == all[k + 1..];
    } else {
      assert (all + Answer(h, e, queue, venue))[k..] == all[k..] + Answer(h, e, queue, venue);
    }
  }

  lemma SentAfter(h: seq<Event>, e: Event, venue: Frame, waiting: seq<Multipart>)
    requires e.Relay? ==> Waiting(h, e.queue, venue, waiting) && waiting != []
    ensures Sent(h + [e], venue) == Sent(h, venue) + if e.Relay? then Delivered(h, waiting[0]) else []
  {
    Extended(h, e);
  }

  lemma Extended(h: seq<Event>, e: Event)
    ensures Init(h + [e]) == h && Last(h + [e]) == e
  {
  }

  ghost predicate RouteRight(h: seq<Event>, cache: map<Frame, seq<Frame>>, sid: Frame) {
    match LatestHelo(h, sid)
    case None => sid !in cache
    case Some(address) => sid in cache && cache[sid] == [address]
  }

  ghost predicate SubmitterRight(h: seq<Event>, cache: map<Frame, Frame>, oid: Frame) {
    match LastSubmitter(h, oid)
    case None => oid !in cache
    case Some(sid) => oid in cache && cache[oid] == sid
  }

  /** What waits on a connection is what was queued there and not relayed yet. */
  ghost predicate Waiting(h: seq<Event>, queue: Queue, venue: Frame, waiting: seq<Multipart>) {
    Relays(h, queue) <= |Queued(h, queue, venue)| && waiting == Queued(h, queue, venue)[Relays(h, queue)..]
  }
}
