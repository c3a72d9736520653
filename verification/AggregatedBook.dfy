/**
  The aggregated book: the last quote of each venue for each symbol, and after every update the best
  bid and offer over the venues that have been heard of in the last five seconds.  Times are readings
  of the monotonic clock in nanoseconds.
*/
module AggregatedBook {
  import opened Wrappers

  const INIT_BID: int := -0x8000_0000
  const INIT_ASK: int := 0x7fff_ffff
  const INIT_SIZE: int := -1
  const NULL_VENUE_ID: nat := 0
  const UPDATE_TIMEOUT_MILLIS: nat := 5000

  datatype Quote = Quote(bidPrice: int, askPrice: int, bidSize: int, askSize: int)

  const UNSET: Quote := Quote(INIT_BID, INIT_ASK, INIT_SIZE, INIT_SIZE)

  datatype SingleMarketBBO = SingleMarketBBO(venueId: nat, quote: Quote, lastUpdate: nat)

  /** An update of one venue, as it is received. */
  datatype Update = Update(symbol: string, bidVenue: nat, askVenue: nat, quote: Quote)

  /** What is broadcast. */
  datatype InstrumentBBO = InstrumentBBO(
    symbol: string, bidVenue: nat, bidPrice: int, bidSize: int, askVenue: nat, askPrice: int, askSize: int)

  /** InstrumentBBO_init; the symbol is never filled in after it. */
  const NO_BBO: InstrumentBBO := InstrumentBBO("", NULL_VENUE_ID, INIT_BID, INIT_SIZE, NULL_VENUE_ID, INIT_ASK, INIT_SIZE)

  /** timespec_delta_millis, for times that do not go back. */
  function Millis(start: nat, end: nat): nat {
    if end < start then 0 else (end / 1000 - start / 1000) / 1000
  }

  lemma MillisGrows(start: nat, end: nat, later: nat)
    requires end <= later
    ensures Millis(start, end) <= Millis(start, later)
  {
  }

  // ------------------------------------------------------------------------------------------
  // What the history of updates tells
  // ------------------------------------------------------------------------------------------

  /** An update with the time at which it was taken over. */
  datatype Tick = Tick(update: Update, time: nat)

  /** The last update of that venue for that symbol. */
  function Latest(h: seq<Tick>, symbol: string, venue: nat): Option<Tick> {
    if h == [] then None
    else
      var u := h[|h| - 1].update;
      if u.symbol == symbol && u.bidVenue == venue && u.askVenue == venue then Some(h[|h| - 1])
      else Latest(h[..|h| - 1], symbol, venue)
  }

  /** That is an update with the symbol and with the venue on both sides, and none of these comes behind it. */
  lemma {:induction false} LatestIs(h: seq<Tick>, symbol: string, venue: nat)
    ensures match Latest(h, symbol, venue)
            case None => forall k :: 0 <= k < |h| ==> !IsOf(h[k].update, symbol, venue)
            case Some(tick) => exists j :: 0 <= j < |h| && h[j] == tick && IsOf(tick.update, symbol, venue)
                                           && forall k :: j < k < |h| ==> !IsOf(h[k].update, symbol, venue)
  {
    if h != [] {
      var n := |h| - 1;
      if IsOf(h[n].update, symbol, venue) {
        assert h[n] == Latest(h, symbol, venue).value;
      } else {
        LatestIs(h[..n], symbol, venue);
        assert forall k :: 0 <= k < n ==> h[..n][k] == h[k];
      }
    }
  }

  predicate IsOf(u: Update, symbol: string, venue: nat) {
    u.symbol == symbol && u.bidVenue == venue && u.askVenue == venue
  }

  /** What a venue quotes at some time: its latest update, unless that is too old. */
  function Quoted(latest: Option<Tick>, now: nat): Quote {
    if latest.Some? && Millis(latest.value.time, now) <= UPDATE_TIMEOUT_MILLIS then latest.value.update.quote else UNSET
  }

  /** The quotes of all venues, each at the time at which it is looked at. */
  function AllQuoted(h: seq<Tick>, symbol: string, venueIds: seq<nat>, times: seq<nat>): (quotes: seq<Quote>)
    requires |times| == |venueIds|
    ensures |quotes| == |venueIds|
    ensures forall j :: 0 <= j < |venueIds| ==> quotes[j] == QuotedBy(h, symbol, venueIds[j], times[j])
  {
    seq(|venueIds|, j requires 0 <= j < |venueIds| => QuotedBy(h, symbol, venueIds[j], times[j]))
  }

  /** A slot without a venue quotes nothing. */
  function QuotedBy(h: seq<Tick>, symbol: string, venue: nat, time: nat): Quote {
    if venue == NULL_VENUE_ID then UNSET else Quoted(Latest(h, symbol, venue), time)
  }

  /**
    A quote counts for 5000 whole milliseconds, by clock readings cut to microseconds: always within
    5.000999 seconds, and never from 5.001001 seconds on.  A slot without a venue or without an update
    quotes nothing.
  */
  lemma QuotedUntil(h: seq<Tick>, symbol: string, venue: nat, now: nat)
    ensures var nothing := Quote(-0x8000_0000, 0x7fff_ffff, -1, -1);
      match Latest(h, symbol, venue)
      case None => QuotedBy(h, symbol, venue, now) == nothing
      case Some(tick) =>
        var shown := QuotedBy(h, symbol, venue, now);
        && (venue == 0 ==> shown == nothing)
        && (venue != 0 && tick.time <= now ==>
              && shown == (if now / 1000 - tick.time / 1000 < 5_001_000 then tick.update.quote else nothing)
              && (now - tick.time <= 5_000_999_000 ==> shown == tick.update.quote)
              && (now - tick.time >= 5_001_001_000 ==> shown == nothing))
  {
    hide Latest;
    var latest := Latest(h, symbol, venue);
    if latest.Some? && latest.value.time <= now {
      var micros := now / 1000 - latest.value.time / 1000;
      assert micros / 1000 <= 5000 <==> micros < 5_001_000;
    }
  }

  /** The highest bid above the initial one, of the first slot that has it; nothing when there is none. */
  ghost predicate BestBid(quotes: seq<Quote>, venueIds: seq<nat>, b: InstrumentBBO)
    requires |quotes| == |venueIds|
  {
    if forall j :: 0 <= j < |quotes| ==> quotes[j].bidPrice <= -0x8000_0000 then
      b.bidVenue == 0 && b.bidPrice == -0x8000_0000 && b.bidSize == -1
    else
      exists j :: 0 <= j < |quotes| && b.bidVenue == venueIds[j] && b.bidPrice == quotes[j].bidPrice && b.bidSize == quotes[j].bidSize
                  && b.bidPrice > -0x8000_0000
                  && (forall k :: 0 <= k < |quotes| ==> quotes[k].bidPrice <= b.bidPrice)
                  && (forall k :: 0 <= k < j ==> quotes[k].bidPrice < b.bidPrice)
  }

  ghost predicate BestAsk(quotes: seq<Quote>, venueIds: seq<nat>, b: InstrumentBBO)
    requires |quotes| == |venueIds|
  {
    if forall j :: 0 <= j < |quotes| ==> quotes[j].askPrice >= 0x7fff_ffff then
      b.askVenue == 0 && b.askPrice == 0x7fff_ffff && b.askSize == -1
    else
      exists j :: 0 <= j < |quotes| && b.askVenue == venueIds[j] && b.askPrice == quotes[j].askPrice && b.askSize == quotes[j].askSize
                  && b.askPrice < 0x7fff_ffff
                  && (forall k :: 0 <= k < |quotes| ==> quotes[k].askPrice >= b.askPrice)
                  && (forall k :: 0 <= k < j ==> quotes[k].askPrice > b.askPrice)
  }

  /** What a slot shows at some time: a timed-out quote counts as reset. */
  function Shown(slot: SingleMarketBBO, now: nat): Quote {
    if Millis(slot.lastUpdate, now) > UPDATE_TIMEOUT_MILLIS then UNSET else slot.quote
  }

  /** From `clock` on the slot shows what the history tells. */
  ghost predicate SlotRight(slot: SingleMarketBBO, h: seq<Tick>, symbol: string, clock: nat) {
    if slot.venueId == NULL_VENUE_ID then slot.quote == UNSET
    else forall t :: t >= clock ==> Shown(slot, t) == Quoted(Latest(h, symbol, slot.venueId), t)
  }

  /** Saving a reset changes no later answer. */
  lemma ResetKeeps(slot: SingleMarketBBO, h: seq<Tick>, symbol: string, clock: nat, now: nat)
    requires SlotRight(slot, h, symbol, clock) && clock <= now && Millis(slot.lastUpdate, now) > UPDATE_TIMEOUT_MILLIS
    ensures SlotRight(slot.(quote := UNSET), h, symbol, now)
  {
    forall t | t >= now ensures Shown(slot.(quote := UNSET), t) == Shown(slot, t) {
      MillisGrows(slot.lastUpdate, now, t);
    }
  }

  lemma LaterRight(slot: SingleMarketBBO, h: seq<Tick>, symbol: string, clock: nat, now: nat)
    requires SlotRight(slot, h, symbol, clock) && clock <= now
    ensures SlotRight(slot, h, symbol, now)
  {
  }

  lemma UpdatedRight(slot: SingleMarketBBO, h: seq<Tick>, symbol: string, clock: nat, tick: Tick)
    requires SlotRight(slot, h, symbol, clock)
    ensures var u := tick.update;
      if slot.venueId != NULL_VENUE_ID && u.symbol == symbol && u.bidVenue == slot.venueId && u.askVenue == slot.venueId
      then SlotRight(slot.(quote := u.quote, lastUpdate := tick.time), h + [tick], symbol, clock)
      else SlotRight(slot, h + [tick], symbol, clock)
  {
  }

  // ------------------------------------------------------------------------------------------
  // The aggregator
  // ------------------------------------------------------------------------------------------

  class OrderBookAggregator {
    const symbols: seq<string>
    const venueIds: seq<nat>
    /** instruments[i].venues[j] */
    const venues: array2<SingleMarketBBO>
    ghost var history: seq<Tick>
    ghost var clock: nat

    /** initialize_instrument_info */
    constructor (symbols: seq<string>, venueIds: seq<nat>)
      requires forall i, j :: 0 <= i < j < |symbols| ==> symbols[i] != symbols[j]
      requires forall i, j :: 0 <= i < j < |venueIds| && venueIds[i] != NULL_VENUE_ID ==> venueIds[i] != venueIds[j]
      ensures Valid() && history == [] && this.symbols == symbols && this.venueIds == venueIds
      ensures fresh(venues)
    {
      this.symbols, this.venueIds, history, clock := symbols, venueIds, [], 0;
      venues := new SingleMarketBBO[|symbols|, |venueIds|]((i, j) =>
        SingleMarketBBO(if 0 <= j < |venueIds| then venueIds[j] else NULL_VENUE_ID, UNSET, 0));
    }

    ghost predicate Shape() {
      && venues.Length0 == |symbols| && venues.Length1 == |venueIds|
      && (forall i, j :: 0 <= i < j < |symbols| ==> symbols[i] != symbols[j])
      && (forall i, j :: 0 <= i < j < |venueIds| && venueIds[i] != NULL_VENUE_ID ==> venueIds[i] != venueIds[j])
    }

    /** Every slot shows what the history tells, from now on. */
    ghost predicate Valid()
      reads this, venues
    {
      Shape() && forall i, j :: 0 <= i < |symbols| && 0 <= j < |venueIds| ==>
        venues[i, j].venueId == venueIds[j] && SlotRight(venues[i, j], history, symbols[i], clock)
    }

    /** The inner loop of the first pass: the slot of the venue takes the quote over. */
    method Store(i: nat, u: Update, time: nat) returns (foundVenue: bool)
      requires Shape() && i < |symbols|
      requires forall k, j :: 0 <= k < |symbols| && 0 <= j < |venueIds| ==> venues[k, j].venueId == venueIds[j]
      modifies venues
      ensures foundVenue <==> exists j :: 0 <= j < |venueIds| && Concerns(u, venueIds[j])
      ensures forall k, j :: 0 <= k < |symbols| && 0 <= j < |venueIds| ==>
                venues[k, j] == if k == i && Concerns(u, venueIds[j]) then SingleMarketBBO(venueIds[j], u.quote, time)
                                else old(venues[k, j])
    {
      foundVenue := false;
      for j := 0 to |venueIds|
        invariant !foundVenue
        invariant forall k :: 0 <= k < j ==> !Concerns(u, venueIds[k])
        invariant forall k, l :: 0 <= k < |symbols| && 0 <= l < |venueIds| ==> venues[k, l] == old(venues[k, l])
      {
        var slot := venues[i, j];
        if slot.venueId != NULL_VENUE_ID && slot.venueId == u.bidVenue && slot.venueId == u.askVenue {
          venues[i, j] := slot.(quote := u.quote, lastUpdate := time);
          return true;
        }
      }
    }

    /** A slot that has timed out is reset, for good. */
    method Refresh(i: nat, j: nat, now: nat)
      requires Shape() && i < |symbols| && j < |venueIds| && venues[i, j].venueId == venueIds[j]
      requires SlotRight(venues[i, j], history, symbols[i], clock) && clock <= now
      modifies venues
      ensures forall k, l :: 0 <= k < |symbols| && 0 <= l < |venueIds| && (k != i || l != j) ==> venues[k, l] == old(venues[k, l])
      ensures venues[i, j].venueId == venueIds[j]
      ensures venues[i, j].quote == QuotedBy(history, symbols[i], venueIds[j], now)
      ensures SlotRight(venues[i, j], history, symbols[i], now)
    {
      var slot := venues[i, j];
      LaterRight(slot, history, symbols[i], clock, now);
      assert slot.venueId != NULL_VENUE_ID ==> Shown(slot, now) == Quoted(Latest(history, symbols[i], slot.venueId), now);
      if slot.venueId != NULL_VENUE_ID {
        if Millis(slot.lastUpdate, now) > UPDATE_TIMEOUT_MILLIS {
          ResetKeeps(slot, history, symbols[i], clock, now);
          venues[i, j] := slot.(quote := UNSET);
        }
      }
    }

    /** The inner loop of the second pass: the best bid and offer over the venues of a symbol. */
    method PickBest(i: nat, times: seq<nat>) returns (b: InstrumentBBO)
      requires Valid() && i < |symbols| && |times| == |venueIds|
      requires forall j :: 0 <= j < |times| ==> clock <= times[j]
      modifies venues
      ensures b.symbol == ""
      ensures BestBid(AllQuoted(history, symbols[i], venueIds, times), venueIds, b)
      ensures BestAsk(AllQuoted(history, symbols[i], venueIds, times), venueIds, b)
      ensures forall k, j :: 0 <= k < |symbols| && 0 <= j < |venueIds| ==>
                venues[k, j].venueId == venueIds[j] && SlotRight(venues[k, j], history, symbols[k], if k == i then times[j] else clock)
    {
      hide SlotRight, QuotedBy;
      b := NO_BBO;
      NothingYet(venueIds);
      hide BestBid, BestAsk;
      ghost var quotes := AllQuoted(history, symbols[i], venueIds, times);
      for j := 0 to |venueIds|
        invariant b.symbol == ""
        invariant quotes == AllQuoted(history, symbols[i], venueIds, times)
        invariant BestBid(quotes[..j], venueIds[..j], b) && BestAsk(quotes[..j], venueIds[..j], b)
        invariant forall k, l :: 0 <= k < |symbols| && 0 <= l < |venueIds| ==>
                    venues[k, l].venueId == venueIds[l]
                    && SlotRight(venues[k, l], history, symbols[k], if k == i && l < j then times[l] else clock)
      {
        Refresh(i, j, times[j]);
        assert venues[i, j].quote == quotes[j];
        b := Compare(b, venues[i, j], quotes, j);
      }
      assert quotes[..|venueIds|] == quotes && venueIds[..|venueIds|] == venueIds;
    }

    /** The two comparisons with the quote of a slot. */
    method Compare(b: InstrumentBBO, slot: SingleMarketBBO, ghost quotes: seq<Quote>, ghost j: nat) returns (c: InstrumentBBO)
      requires |quotes| == |venueIds| && j < |quotes| && slot.quote == quotes[j] && slot.venueId == venueIds[j]
      requires BestBid(quotes[..j], venueIds[..j], b) && BestAsk(quotes[..j], venueIds[..j], b)
      ensures c.symbol == b.symbol
      ensures BestBid(quotes[..j + 1], venueIds[..j + 1], c) && BestAsk(quotes[..j + 1], venueIds[..j + 1], c)
    {
      hide BestBid, BestAsk;
      c := b;
      if slot.quote.bidPrice > c.bidPrice {
        c := c.(bidPrice := slot.quote.bidPrice, bidVenue := slot.venueId, bidSize := slot.quote.bidSize);
      }
      if slot.quote.askPrice < c.askPrice {
        c := c.(askPrice := slot.quote.askPrice, askVenue := slot.venueId, askSize := slot.quote.askSize);
      }
      assert quotes[..j + 1][..j] == quotes[..j] && venueIds[..j + 1][..j] == venueIds[..j];
      BestBidNext(quotes[..j + 1], venueIds[..j + 1], b, c);
      BestAskNext(quotes[..j + 1], venueIds[..j + 1], b, c);
    }

    /** The first pass over all symbols. */
    method StoreAll(u: Update, time: nat) returns (foundSymbol: bool, foundVenue: bool)
      requires Valid()
      modifies this`history, venues
      ensures Valid() && history == old(history) + [Tick(u, time)]
      ensures foundSymbol == (u.symbol in symbols)
      ensures foundVenue == (u.symbol in symbols && Known(u))
    {
      foundSymbol, foundVenue := false, false;
      for i := 0 to |symbols|
        invariant history == old(history)
        invariant foundSymbol == (u.symbol in symbols[..i])
        invariant foundVenue == (u.symbol in symbols[..i] && Known(u))
        invariant forall k, j :: 0 <= k < |symbols| && 0 <= j < |venueIds| ==>
                    venues[k, j] == if k < i && symbols[k] == u.symbol && Concerns(u, venueIds[j])
                                    then SingleMarketBBO(venueIds[j], u.quote, time) else old(venues[k, j])
      {
        if u.symbol == symbols[i] {
          foundSymbol := true;
          var found := Store(i, u, time);
          foundVenue := foundVenue || found;
        }
      }
      assert symbols[..|symbols|] == symbols;
      history := history + [Tick(u, time)];
      forall k, j | 0 <= k < |symbols| && 0 <= j < |venueIds|
        ensures SlotRight(venues[k, j], history, symbols[k], clock)
      {
        ghost var slot := old(venues[k, j]);
        assert slot.venueId == venueIds[j];
        UpdatedRight(slot, old(history), symbols[k], clock, Tick(u, time));
        assert venues[k, j] == if symbols[k] == u.symbol && Concerns(u, venueIds[j])
                               then slot.(quote := u.quote, lastUpdate := time) else slot;
      }
    }

    ghost predicate Known(u: Update) {
      exists j :: 0 <= j < |venueIds| && Concerns(u, venueIds[j])
    }

    lemma KnownIs(u: Update)
      ensures Known(u) <==> u.bidVenue == u.askVenue && u.bidVenue != 0 && u.bidVenue in venueIds
    {
      if u.bidVenue in venueIds {
        var j :| 0 <= j < |venueIds| && venueIds[j] == u.bidVenue;
        assert Concerns(u, venueIds[j]) <==> u.bidVenue == u.askVenue && u.bidVenue != 0;
      }
    }

    /**
      An update for a known symbol and venue is taken over and answered by one broadcast: the best bid
      and offer of the venues' latest quotes that are not too old.  Any other update is dropped.
    */
    method UpdateOrderBooks(u: Update, time: nat, times: seq<nat>) returns (broadcast: seq<InstrumentBBO>)
      requires Valid() && clock <= time && |times| == |venueIds|
      requires forall j :: 0 <= j < |times| ==> time <= times[j]
      requires forall j, k :: 0 <= j < k < |times| ==> times[j] <= times[k]
      modifies this, venues
      ensures Valid() && history == old(history) + [Tick(u, time)]
      ensures clock == if times == [] then time else times[|times| - 1]
      ensures if u.symbol in symbols && u.bidVenue == u.askVenue && u.bidVenue != 0 && u.bidVenue in venueIds then
          |broadcast| == 1 && broadcast[0].symbol == ""
          && BestBid(AllQuoted(history, u.symbol, venueIds, times), venueIds, broadcast[0])
          && BestAsk(AllQuoted(history, u.symbol, venueIds, times), venueIds, broadcast[0])
        else broadcast == []
    {
      hide BestBid, BestAsk, SlotRight;
      KnownIs(u);
      broadcast := [];
      var foundSymbol, foundVenue := StoreAll(u, time);
      if foundSymbol && foundVenue {
        for i := 0 to |symbols|
          invariant history == old(history) + [Tick(u, time)] && clock == old(clock)
          invariant if u.symbol in symbols[..i]
                    then |broadcast| == 1 && Answers(u, times, broadcast[0])
                    else broadcast == []
          invariant forall k, j :: 0 <= k < |symbols| && 0 <= j < |venueIds| ==>
                      venues[k, j].venueId == venueIds[j]
                      && SlotRight(venues[k, j], history, symbols[k],
                                   if k < i && symbols[k] == u.symbol then times[j] else clock)
        {
          if u.symbol == symbols[i] {
            assert u.symbol !in symbols[..i];
            var bbo := PickBest(i, times);
            broadcast := broadcast + [bbo];
          }
        }
        assert symbols[..|symbols|] == symbols;
      }
      Catch(u, times, time);
    }

    /** The broadcast answers the history. */
    ghost predicate Answers(u: Update, times: seq<nat>, b: InstrumentBBO)
      reads this
    {
      |times| == |venueIds| && b.symbol == ""
      && BestBid(AllQuoted(history, u.symbol, venueIds, times), venueIds, b)
      && BestAsk(AllQuoted(history, u.symbol, venueIds, times), venueIds, b)
    }

    /** The clock catches up with the last reading. */
    ghost method Catch(u: Update, times: seq<nat>, time: nat)
      requires Shape() && clock <= time && |times| == |venueIds|
      requires forall j :: 0 <= j < |times| ==> time <= times[j]
      requires forall j, k :: 0 <= j < k < |times| ==> times[j] <= times[k]
      requires forall k, j :: 0 <= k < |symbols| && 0 <= j < |venueIds| ==>
                 venues[k, j].venueId == venueIds[j]
                 && (SlotRight(venues[k, j], history, symbols[k], times[j])
                     || SlotRight(venues[k, j], history, symbols[k], clock))
      modifies this`clock
      ensures Valid()
      ensures clock == if times == [] then time else times[|times| - 1]
    {
      ghost var end := if times == [] then time else times[|times| - 1];
      forall k, j | 0 <= k < |symbols| && 0 <= j < |venueIds|
        ensures SlotRight(venues[k, j], history, symbols[k], end)
      {
        if SlotRight(venues[k, j], history, symbols[k], times[j]) {
          LaterRight(venues[k, j], history, symbols[k], times[j], end);
        } else {
          LaterRight(venues[k, j], history, symbols[k], clock, end);
        }
      }
      clock := end;
    }
  }

  lemma NothingYet(ids: seq<nat>)
    ensures forall quotes: seq<Quote> :: |quotes| == |ids| ==> BestBid(quotes[..0], ids[..0], NO_BBO) && BestAsk(quotes[..0], ids[..0], NO_BBO)
  {
  }

  /** One step of the comparison for the bid. */
  lemma BestBidNext(quotes: seq<Quote>, ids: seq<nat>, b: InstrumentBBO, c: InstrumentBBO)
    requires |quotes| == |ids| > 0
    requires var n := |quotes| - 1; BestBid(quotes[..n], ids[..n], b)
    requires var n := |quotes| - 1;
      if quotes[n].bidPrice > b.bidPrice
      then c.bidVenue == ids[n] && c.bidPrice == quotes[n].bidPrice && c.bidSize == quotes[n].bidSize
      else c.bidVenue == b.bidVenue && c.bidPrice == b.bidPrice && c.bidSize == b.bidSize
    ensures BestBid(quotes, ids, c)
  {
    var n := |quotes| - 1;
    assert forall j :: 0 <= j < n ==> quotes[..n][j] == quotes[j] && ids[..n][j] == ids[j];
    assert b.bidPrice >= INIT_BID;
    if quotes[n].bidPrice > b.bidPrice {
      assert c.bidVenue == ids[n];
    } else if b.bidPrice > INIT_BID {
      var j :| 0 <= j < n && b.bidVenue == ids[..n][j] && b.bidPrice == quotes[..n][j].bidPrice
               && b.bidSize == quotes[..n][j].bidSize && (forall k :: 0 <= k < j ==> quotes[..n][k].bidPrice < b.bidPrice);
      assert c.bidVenue == ids[j] && c.bidPrice == quotes[j].bidPrice;
      assert forall k :: 0 <= k < j ==> quotes[k] == quotes[..n][k];
    }
  }

  lemma BestAskNext(quotes: seq<Quote>, ids: seq<nat>, b: InstrumentBBO, c: InstrumentBBO)
    requires |quotes| == |ids| > 0
    requires var n := |quotes| - 1; BestAsk(quotes[..n], ids[..n], b)
    requires var n := |quotes| - 1;
      if quotes[n].askPrice < b.askPrice
      then c.askVenue == ids[n] && c.askPrice == quotes[n].askPrice && c.askSize == quotes[n].askSize
      else c.askVenue == b.askVenue && c.askPrice == b.askPrice && c.askSize == b.askSize
    ensures BestAsk(quotes, ids, c)
  {
    var n := |quotes| - 1;
    assert forall j :: 0 <= j < n ==> quotes[..n][j] == quotes[j] && ids[..n][j] == ids[j];
    assert b.askPrice <= INIT_ASK;
    if quotes[n].askPrice < b.askPrice {
      assert c.askVenue == ids[n];
    } else if b.askPrice < INIT_ASK {
      var j :| 0 <= j < n && b.askVenue == ids[..n][j] && b.askPrice == quotes[..n][j].askPrice
               && b.askSize == quotes[..n][j].askSize && (forall k :: 0 <= k < j ==> quotes[..n][k].askPrice > b.askPrice);
      assert c.askVenue == ids[j] && c.askPrice == quotes[j].askPrice;
      assert forall k :: 0 <= k < j ==> quotes[k] == quotes[..n][k];
    }
  }

  predicate Concerns(u: Update, venue: nat) {
    venue != NULL_VENUE_ID && venue == u.bidVenue && venue == u.askVenue
  }
}
