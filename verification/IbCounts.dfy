/**
  Which streams the client decodes alike however they are cut.  The only message cases that can throw
  are the two with an unguarded item count, and they throw exactly when that count is negative.
*/
module IbCounts {
  import opened Sequences
  import opened Wrappers
  import opened Decimal
  import opened IbFields
  import opened IbLayout
  import opened IbStream
  import opened IbProtocol
  import opened IbMessages
  import opened IbDelivery

  // ------------------------------------------------------------------------------------------
  // Layouts that never throw
  // ------------------------------------------------------------------------------------------

  /** Each count stands behind a test that it is positive. */
  predicate Guarded(l: Layout)
    decreases l
  {
    match l
    case End => true
    case Fields(_, rest) => Guarded(rest)
    case When(test, body, rest) => (Guarded(body) || GuardedLoop(test, body)) && Guarded(rest)
    case Counted(_, _, _) => false
  }

  predicate GuardedLoop(test: Test, body: Layout)
    decreases body
  {
    test.Positive? && body.Counted? && body.count == test.field && Guarded(body.rest)
  }

  lemma {:induction false} ReadAllIsCalm(names: seq<string>, t: Trace, b: string)
    ensures !ReadAll(names, t, b).Throws?
    decreases |names|
  {
    if names != [] && NextField(b).Some? {
      var (text, rest) := NextField(b).value;
      ReadAllIsCalm(names[1..], t + [Field(names[0], text)], rest);
    }
  }

  lemma {:induction false} GuardedIsCalm(l: Layout, sv: int, t: Trace, b: string)
    requires Guarded(l)
    ensures !Parse(l, sv, t, b).Throws?
    decreases l
  {
    match l
    case End =>
    case Fields(names, rest) =>
      ReadAllIsCalm(names, t, b);
      var p := ReadAll(names, t, b);
      if p.Got? {
        GuardedIsCalm(rest, sv, p.trace, p.rest);
      }
    case When(test, body, rest) =>
      if Holds(test, sv, t) {
        if Guarded(body) {
          GuardedIsCalm(body, sv, t, b);
        } else {
          LoopIsCalm(body, sv, t, b);
        }
        var p := Parse(body, sv, t, b);
        assert Parse(l, sv, t, b) == Then(p, rest, sv);
        if p.Got? {
          GuardedIsCalm(rest, sv, p.trace, p.rest);
        }
      } else {
        GuardedIsCalm(rest, sv, t, b);
      }
  }

  lemma {:induction false} LoopIsCalm(l: Layout, sv: int, t: Trace, b: string)
    requires l.Counted? && IntOf(t, l.count) > 0 && Guarded(l.rest)
    ensures !Parse(l, sv, t, b).Throws?
    decreases l
  {
    var names := Repeated(l.names, IntOf(t, l.count));
    ReadAllIsCalm(names, t, b);
    var p := ReadAll(names, t, b);
    if p.Got? {
      GuardedIsCalm(l.rest, sv, p.trace, p.rest);
    }
  }

  lemma FieldsGuarded(l: Layout)
    requires l.Fields? && (l.rest.End? || Guarded(l.rest))
    ensures Guarded(l)
  {
  }

  lemma WhenGuarded(l: Layout)
    requires l.When? && Guarded(l.body) && (l.rest.End? || Guarded(l.rest))
    ensures Guarded(l)
  {
  }

  /** A part that begins with an optional run of fields. */
  lemma OptionalGuarded(l: Layout)
    requires l.When? && l.body.Fields? && l.body.rest.End? && (l.rest.End? || Guarded(l.rest))
    ensures Guarded(l)
  {
  }

  lemma TagValuesGuarded(count: string)
    ensures Guarded(TagValues(count))
  {
    assert GuardedLoop(Positive(count), Counted(count, ["tag", "value"], End));
    assert Guarded(When(Positive(count), Counted(count, ["tag", "value"], End), End));
  }

  lemma OpenOrderGuarded()
    ensures Guarded(OpenOrderLayout())
  {
    hide Guarded;
    var l, v := OpenOrderLayout(), OpenOrderVolatility();
    OpenOrderMiddleGuarded();
    OptionalGuarded(v.rest);
    FieldsGuarded(v);
    OptionalGuarded(l.rest.rest);
    OptionalGuarded(l.rest);
    FieldsGuarded(l);
  }

  lemma OpenOrderMiddleGuarded()
    ensures Guarded(OpenOrderCombo())
  {
    hide Guarded;
    var l, m, h := OpenOrderCombo(), OpenOrderScale(), OpenOrderHedge();
    OpenOrderTailGuarded();
    OptionalGuarded(h.rest.body.rest);
    FieldsGuarded(h.rest.body);
    WhenGuarded(h.rest);
    FieldsGuarded(h);
    OptionalGuarded(m.rest);
    OptionalGuarded(m);
    TagValuesGuarded("smartComboRoutingParamsCount");
    WhenGuarded(l.rest);
    FieldsGuarded(l);
  }

  lemma OpenOrderTailGuarded()
    ensures Guarded(OpenOrderClearing())
  {
    hide Guarded;
    var l, m, a := OpenOrderClearing(), OpenOrderUnderComp(), OpenOrderAlgo();
    FieldsGuarded(a.rest);
    TagValuesGuarded("algoParamsCount");
    WhenGuarded(a.body.rest);
    FieldsGuarded(a.body);
    WhenGuarded(a);
    OptionalGuarded(m.rest.body.rest);
    FieldsGuarded(m.rest.body);
    WhenGuarded(m.rest);
    OptionalGuarded(m);
    FieldsGuarded(l.rest);
    OptionalGuarded(l);
  }

  lemma ContractsGuarded()
    ensures Guarded(ContractLayout()) && Guarded(BondLayout()) && Guarded(ExecutionLayout())
  {
    hide Guarded;
    var c, k, n, b, e := ContractLayout(), ContractCore(), ContractNames(), BondLayout(), ExecutionLayout();
    OptionalGuarded(n.rest);
    OptionalGuarded(n);
    OptionalGuarded(k.rest);
    FieldsGuarded(k);
    OptionalGuarded(c.rest);
    FieldsGuarded(c);
    OptionalGuarded(b.rest.rest.rest);
    FieldsGuarded(b.rest.rest);
    OptionalGuarded(b.rest);
    FieldsGuarded(b);
    OptionalGuarded(e.rest.rest.rest.rest);
    OptionalGuarded(e.rest.rest.rest);
    FieldsGuarded(e.rest.rest);
    OptionalGuarded(e.rest);
    FieldsGuarded(e);
  }

  lemma TicksGuarded()
    ensures Guarded(TickOptionLayout()) && Guarded(PortfolioLayout())
  {
    hide Guarded;
    var t, p := TickOptionLayout(), PortfolioLayout();
    OptionalGuarded(t.rest.rest);
    OptionalGuarded(t.rest);
    FieldsGuarded(t);
    OptionalGuarded(p.rest.rest.rest);
    FieldsGuarded(p.rest.rest);
    OptionalGuarded(p.rest);
    FieldsGuarded(p);
  }

  /** All message cases but HISTORICAL_DATA and SCANNER_DATA. */
  lemma OthersGuarded(msgId: int)
    requires LayoutOf(msgId).Some? && msgId != HISTORICAL_DATA && msgId != SCANNER_DATA
    ensures Guarded(LayoutOf(msgId).value)
  {
    OpenOrderGuarded();
    ContractsGuarded();
    TicksGuarded();
    hide Guarded, OpenOrderLayout, ContractLayout, BondLayout, ExecutionLayout, TickOptionLayout, PortfolioLayout;
    if LayoutOf(msgId).value.Fields? && LayoutOf(msgId).value.rest.End? {
      FieldsGuarded(LayoutOf(msgId).value);
    }
  }

  // ------------------------------------------------------------------------------------------
  // The two that can
  // ------------------------------------------------------------------------------------------

  /** `width` complete fields, the last of which is the text of a negative number. */
  ghost predicate AnnouncesNegative(width: nat, body: string) {
    exists texts, rest :: Negative(width, body, texts, rest)
  }

  ghost predicate Negative(width: nat, body: string, texts: seq<string>, rest: string) {
    |texts| == width && width > 0 && Clean(texts) && body == Bytes(texts) + rest && Atoi(texts[width - 1]) < 0
  }

  /** A header, and then as many items as its last field says. */
  ghost predicate CountedLast(l: Layout) {
    && l.Fields? && l.names != [] && l.rest.Counted? && l.rest.rest.End?
    && l.rest.count == l.names[|l.names| - 1]
    && forall j :: 0 <= j < |l.names| - 1 ==> l.names[j] != l.rest.count
  }

  lemma HeaderRead(l: Layout, sv: int, texts: seq<string>, rest: string)
    requires CountedLast(l) && |texts| == |l.names| && Clean(texts)
    ensures var t := Labelled(l.names, texts);
      && Parse(l, sv, [], Bytes(texts) + rest) == Parse(l.rest, sv, t, rest)
      && IntOf(t, l.rest.count) == Atoi(texts[|texts| - 1])
  {
    hide ReadAll, Lookup, Atoi, Bytes, Labelled;
    var t := Labelled(l.names, texts);
    LabelledFacts(l.names, texts);
    ReadAllOfWire(l.names, texts, [], rest);
    assert [] + t == t;
    LabelledLookup(l.names, texts, [], |texts| - 1);
  }

  lemma ItemsThrowIff(l: Layout, sv: int, t: Trace, rest: string)
    requires l.Counted? && l.rest.End?
    ensures Parse(l, sv, t, rest).Throws? <==> IntOf(t, l.count) < 0
  {
    hide ReadAll, Lookup, Atoi;
    if IntOf(t, l.count) >= 0 {
      var items := Repeated(l.names, IntOf(t, l.count));
      assert Parse(l, sv, t, rest) == Then(ReadAll(items, t, rest), End, sv);
      ReadAllIsCalm(items, t, rest);
    }
  }

  /** Decoding such a message goes by the number that its header announces. */
  lemma CountedBy(l: Layout, sv: int, texts: seq<string>, rest: string)
    requires CountedLast(l) && |texts| == |l.names| && Clean(texts)
    ensures Parse(l, sv, [], Bytes(texts) + rest).Throws? <==> Atoi(texts[|texts| - 1]) < 0
  {
    hide Parse, Lookup, Atoi, Bytes, Labelled, Clean;
    HeaderRead(l, sv, texts, rest);
    ItemsThrowIff(l.rest, sv, Labelled(l.names, texts), rest);
  }

  /** What throws has its header. */
  lemma ThrowsBehindHeader(l: Layout, sv: int, body: string)
    requires l.Fields? && Parse(l, sv, [], body).Throws?
    ensures ReadAll(l.names, [], body).Got?
  {
    ReadAllIsCalm(l.names, [], body);
  }

  lemma ThrowsIffNegative(l: Layout, sv: int, body: string)
    requires CountedLast(l)
    ensures Parse(l, sv, [], body).Throws? <==> AnnouncesNegative(|l.names|, body)
  {
    hide Parse, ReadAll, Bytes, Atoi, Clean;
    if Parse(l, sv, [], body).Throws? {
      ThrowsBehindHeader(l, sv, body);
      var texts := HeaderTexts(l.names, body);
      var rest := ReadAll(l.names, [], body).rest;
      CountedBy(l, sv, texts, rest);
      assert Negative(|l.names|, body, texts, rest);
    }
    if AnnouncesNegative(|l.names|, body) {
      var texts, rest :| Negative(|l.names|, body, texts, rest);
      CountedBy(l, sv, texts, rest);
    }
  }

  /** The texts of fields that were read, as they stand in the stream. */
  lemma HeaderTexts(names: seq<string>, body: string) returns (texts: seq<string>)
    requires ReadAll(names, [], body).Got?
    ensures |texts| == |names| && Clean(texts) && body == Bytes(texts) + ReadAll(names, [], body).rest
  {
    texts := ReadAllAdds(names, [], body);
    ReadAllExact(names, [], body);
    hide ReadAll;
    var p := ReadAll(names, [], body);
    assert [] + Labelled(names, texts) == Labelled(names, texts) && p.trace[0..] == p.trace;
    LabelledFacts(names, texts);
  }

  /** A HISTORICAL_DATA or SCANNER_DATA message with its header complete and a negative count in it. */
  ghost predicate NegativeCountIn(msgId: int, body: string) {
    || (msgId == HISTORICAL_DATA && AnnouncesNegative(5, body))
    || (msgId == SCANNER_DATA && AnnouncesNegative(3, body))
  }

  lemma MessageThrowsIff(msgId: int, sv: int, body: string)
    requires LayoutOf(msgId).Some?
    ensures Parse(LayoutOf(msgId).value, sv, [], body).Throws? <==> NegativeCountIn(msgId, body)
  {
    hide Parse, AnnouncesNegative, Guarded, OpenOrderLayout, ContractLayout, BondLayout, ExecutionLayout, TickOptionLayout,
         PortfolioLayout;
    if msgId == HISTORICAL_DATA {
      ThrowsIffNegative(HistoricalLayout(), sv, body);
    } else if msgId == SCANNER_DATA {
      ThrowsIffNegative(ScannerLayout(), sv, body);
    } else {
      OthersNeverThrow(msgId, sv, body);
    }
  }

  lemma OthersNeverThrow(msgId: int, sv: int, body: string)
    requires LayoutOf(msgId).Some? && msgId != HISTORICAL_DATA && msgId != SCANNER_DATA
    ensures !Parse(LayoutOf(msgId).value, sv, [], body).Throws?
  {
    hide *;
    OthersGuarded(msgId);
    GuardedIsCalm(LayoutOf(msgId).value, sv, [], body);
  }

  /** The stream begins with such a message. */
  ghost predicate BeginsNegative(b: string) {
    NextField(b).Some? && NegativeCountIn(Atoi(NextField(b).value.0), NextField(b).value.1)
  }

  lemma TurnThrowsIff(c: Link, b: string)
    ensures NextTurn(TWS, c, b).Throw? <==> c.connected && BeginsNegative(b)
  {
    hide Parse, NegativeCountIn;
    if c.connected && NextField(b).Some? {
      var (idText, body) := NextField(b).value;
      if LayoutOf(Atoi(idText)).Some? {
        MessageThrowsIff(Atoi(idText), c.serverVersion, body);
      } else if NegativeCountIn(Atoi(idText), body) {
        KnownIds(Atoi(idText), body);
      }
    }
  }

  lemma KnownIds(msgId: int, body: string)
    requires NegativeCountIn(msgId, body)
    ensures LayoutOf(msgId).Some?
  {
    hide AnnouncesNegative, OpenOrderLayout, ContractLayout, BondLayout, ExecutionLayout, TickOptionLayout,
         PortfolioLayout, HistoricalLayout, ScannerLayout;
  }

  // ------------------------------------------------------------------------------------------
  // The stream
  // ------------------------------------------------------------------------------------------

  function Joined(messages: seq<string>): string {
    if messages == [] then "" else messages[0] + Joined(messages[1..])
  }

  /** The messages are whole, one after the other, and lead from one state of an open connection to the other. */
  ghost predicate Leads(c: Link, messages: seq<string>, c': Link)
    decreases |messages|
  {
    if messages == [] then c' == c
    else
      var turn := NextTurn(TWS, c, messages[0]);
      turn.Take? && turn.rest == "" && turn.link.open && Leads(turn.link, messages[1..], c')
  }

  /** After some whole messages comes one that announces a negative number of items. */
  ghost predicate NegativeAhead(c: Link, s: string) {
    exists messages, c', rest :: AheadAt(c, s, messages, c', rest)
  }

  ghost predicate AheadAt(c: Link, s: string, messages: seq<string>, c': Link, rest: string) {
    Leads(c, messages, c') && s == Joined(messages) + rest && c'.connected && BeginsNegative(rest)
  }

  lemma {:induction false} AheadIsStuck(c: Link, s: string, messages: seq<string>, c': Link, rest: string)
    requires AheadAt(c, s, messages, c', rest)
    ensures Stuck(TurnsOf(TWS), c, s)
    decreases |messages|
  {
    hide BeginsNegative, NextTurn;
    if messages == [] {
      assert s == rest;
      TurnThrowsIff(c, s);
    } else {
      var turn, tail := NextTurn(TWS, c, messages[0]), Joined(messages[1..]) + rest;
      WholeFirst(c, messages, rest);
      NotEmpty(rest);
      AheadIsStuck(turn.link, tail, messages[1..], c', rest);
    }
  }

  /** A whole message is taken the same with the rest of the stream behind it. */
  lemma WholeFirst(c: Link, messages: seq<string>, rest: string)
    requires messages != [] && NextTurn(TWS, c, messages[0]).Take? && NextTurn(TWS, c, messages[0]).rest == ""
    ensures var tail := Joined(messages[1..]) + rest;
      NextTurn(TWS, c, Joined(messages) + rest) == NextTurn(TWS, c, messages[0]).(rest := tail)
  {
    hide NextTurn;
    var tail := Joined(messages[1..]) + rest;
    Assoc(messages[0], Joined(messages[1..]), rest);
    TurnStable(TWS, c, messages[0], tail);
    assert "" + tail == tail;
  }

  lemma NotEmpty(b: string)
    requires BeginsNegative(b)
    ensures b != ""
  {
  }

  lemma {:induction false} StuckIsAhead(c: Link, s: string)
    requires Stuck(TurnsOf(TWS), c, s)
    ensures NegativeAhead(c, s)
    decreases |s|
  {
    hide BeginsNegative, NextTurn, FirstMessage;
    var turn := NextTurn(TWS, c, s);
    if turn.Throw? {
      TurnThrowsIff(c, s);
      assert "" + s == s;
      assert AheadAt(c, s, [], c, s);
    } else {
      StuckIsAhead(turn.link, turn.rest);
      var messages, c', rest :| AheadAt(turn.link, turn.rest, messages, c', rest);
      AllOrNothing(TWS, c, s);
      var first := FirstMessage(TWS, c, s);
      assert first + "" == first && NextTurn(TWS, c, first + "") == turn.(rest := "");
      assert ([first] + messages)[1..] == messages;
      Assoc(first, Joined(messages), rest);
      assert AheadAt(c, s, [first] + messages, c', rest);
    }
  }

  /** The decoder is stuck exactly when such a message is ahead. */
  lemma StuckIffNegative(c: Link, s: string)
    ensures Stuck(TurnsOf(TWS), c, s) <==> NegativeAhead(c, s)
  {
    if Stuck(TurnsOf(TWS), c, s) {
      StuckIsAhead(c, s);
    }
    if NegativeAhead(c, s) {
      var messages, c', rest :| AheadAt(c, s, messages, c', rest);
      AheadIsStuck(c, s, messages, c', rest);
    }
  }

  /**
    The point of the client's buffering, and exactly when it is met: no message of the stream with a
    negative item count has its header complete before the last byte.
  */
  lemma ClientChunkingIndependence(c: Link, s: string)
    requires c.open && s != ""
    ensures AllCutsAgree(TurnsOf(TWS), c, s) <==> !NegativeAhead(c, s[..|s| - 1])
  {
    hide *;
    ClientIsLawful(TWS);
    ChunkingIndependence(TurnsOf(TWS), c, s);
    StuckIffNegative(c, s[..|s| - 1]);
  }

  lemma EmptyStream(c: Link)
    requires c.open
    ensures AllCutsAgree(TurnsOf(TWS), c, "")
  {
    hide NegativeAhead, Lawful, TurnsOf, FeedAll, Feed, Stuck;
    ClientIsLawful(TWS);
    NoMessageAhead(c);
    StuckIffNegative(c, "");
    forall chunks | Flatten(chunks) == ""
      ensures FeedAll(TurnsOf(TWS), Conn(c, ""), chunks) == Feed(TurnsOf(TWS), Conn(c, ""), "")
    {
      FeedAllAgrees(TurnsOf(TWS), c, chunks);
    }
  }

  lemma NoMessageAhead(c: Link)
    ensures !NegativeAhead(c, "")
  {
  }

  /** So a stream in which every count that is announced is not negative may be cut anywhere. */
  lemma NonNegativeStream(c: Link, s: string)
    requires c.open && !NegativeAhead(c, s)
    ensures AllCutsAgree(TurnsOf(TWS), c, s)
  {
    hide *;
    if s == "" {
      EmptyStream(c);
    } else {
      ClientIsLawful(TWS);
      StuckIffNegative(c, s);
      StuckPrefix(TurnsOf(TWS), c, s, |s| - 1);
      StuckIffNegative(c, s[..|s| - 1]);
      ClientChunkingIndependence(c, s);
    }
  }

  /** The condition matters: a HISTORICAL_DATA message that announces -1 bars. */
  function NegativeCount(): string {
    MessageBytes(HISTORICAL_DATA, ["3", "1", "", "", IntText(-1)])
  }

  lemma NegativeCountThrows(c: Link, other: string)
    requires c.connected
    ensures NextTurn(TWS, c, NegativeCount() + other) == Throw([Error(-1, 509)])
  {
    hide Parse, Lookup, Atoi, IntText, Bytes, CallsOf, NoNul, Clean, CountedLast;
    var header := ["3", "1", "", "", IntText(-1)];
    IntTextClean(-1);
    CleanFive("3", "1", "", "", IntText(-1));
    HistoricalIsCounted();
    AtoiIntText(-1);
    CountedBy(HistoricalLayout(), c.serverVersion, header, other);
    Assoc(IntText(HISTORICAL_DATA) + [NUL], Bytes(header), other);
    TakesId(HISTORICAL_DATA, Bytes(header) + other);
  }

  lemma HistoricalIsCounted()
    ensures CountedLast(HistoricalLayout()) && |HistoricalLayout().names| == 5
  {
  }

  lemma NegativeFirst(c: Link, s: string)
    requires c.connected && BeginsNegative(s)
    ensures NegativeAhead(c, s)
  {
    assert "" + s == s;
    assert AheadAt(c, s, [], c, s);
  }

  /** With one more byte behind that message, the way in which the stream is cut does show. */
  lemma NegativeCountShowsTheCut(c: Link)
    requires c.open && c.connected
    ensures !AllCutsAgree(TurnsOf(TWS), c, NegativeCount() + "x")
  {
    hide NegativeCount, BeginsNegative, NextTurn, TurnsOf, AllCutsAgree, NegativeAhead;
    var s := NegativeCount() + "x";
    NegativeCountThrows(c, "");
    assert s[..|s| - 1] == NegativeCount() + "" == NegativeCount() == "" + NegativeCount();
    TurnThrowsIff(c, NegativeCount());
    NegativeFirst(c, NegativeCount());
    ClientChunkingIndependence(c, s);
  }
}
