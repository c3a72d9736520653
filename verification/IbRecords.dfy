/**
  From the wire to the application, for the messages whose fields depend on versions and flags: which
  runs of fields there are, under which names their texts reach the application, and the callback.
*/
module IbRecords {
  import opened Sequences
  import opened Wrappers
  import opened Decimal
  import opened IbFields
  import opened IbLayout
  import opened IbStream
  import opened IbProtocol
  import opened IbMessages
  import opened IbDelivery
  import opened IbCallbacks

  /** DELTA_NEUTRAL_VALIDATION, whose callback gets the fields as a record. */
  lemma DeltaNeutralValidationDelivered(
    c: Link, version: string, reqId: int, conId: string, delta: string, price: string, other: string)
    requires c.connected && Clean([version, conId, delta, price]) && IsInt32(reqId)
    ensures NextTurn(TWS, c, MessageBytes(56, [version, IntText(reqId), conId, delta, price]) + other)
         == Take(c, other, [Call("deltaNeutralValidation", [IntArg(reqId), RecordArg(
              Labelled(["version", "reqId", "conId", "delta", "price"], [version, IntText(reqId), conId, delta, price]))])])
  {
    hide NextTurn, Parse, Lookup, Atoi, IntText, Bytes, MessageBytes, Labelled, NoNul, OpenOrderLayout, ContractLayout,
         BondLayout, ExecutionLayout, PortfolioLayout, TickOptionLayout, HistoricalLayout, ScannerLayout,
         HistoricalCalls, ScannerCalls, TickPriceCalls;
    var names: seq<string> := ["version", "reqId", "conId", "delta", "price"];
    var texts := [version, IntText(reqId), conId, delta, price];
    IntTextClean(reqId);
    TakesRun(names, texts, c.serverVersion, other);
    TakesMessage(c, 56, texts, Labelled(names, texts), other);
    LabelledLookup(names, texts, [], 1);
    assert Lookup(Labelled(names, texts), names[1]) == texts[1];
    AtoiIntText(reqId);
  }

  // ------------------------------------------------------------------------------------------
  // Messages whose fields depend on versions and flags
  // ------------------------------------------------------------------------------------------

  /** On top of what is decoded already, that part of a message is made of those texts and adds those fields. */
  ghost predicate Reads(l: Layout, sv: int, t: Trace, texts: seq<string>, added: Trace) {
    forall other :: Parse(l, sv, t, Bytes(texts) + other) == Got(t + added, other)
  }

  lemma ReadsNow(l: Layout, sv: int, texts: seq<string>, added: Trace, other: string)
    requires Reads(l, sv, [], texts, added)
    ensures Parse(l, sv, [], Bytes(texts) + other) == Got(added, other)
  {
    assert [] + added == added;
  }

  lemma ReadsEnd(sv: int, t: Trace)
    ensures Reads(End, sv, t, [], [])
  {
    assert forall other: string :: "" + other == other;
    assert t + [] == t;
  }

  lemma ReadsFields(names: seq<string>, first: seq<string>, rest: Layout, sv: int, t: Trace, texts: seq<string>, added: Trace)
    requires |names| == |first| && Clean(first)
    requires Reads(rest, sv, t + Labelled(names, first), texts, added)
    ensures Reads(Fields(names, rest), sv, t, first + texts, Labelled(names, first) + added)
  {
    var here := Labelled(names, first);
    LabelledFacts(names, first);
    BytesAppend(first, texts);
    hide Labelled, Bytes, ReadAll;
    Assoc(t, here, added);
    forall other ensures Parse(Fields(names, rest), sv, t, Bytes(first + texts) + other) == Got(t + (here + added), other) {
      Assoc(Bytes(first), Bytes(texts), other);
      ReadAllOfWire(names, first, t, Bytes(texts) + other);
    }
  }

  lemma ReadsWhen(test: Test, body: Layout, rest: Layout, sv: int, t: Trace, inner: seq<string>, here: Trace,
                  texts: seq<string>, added: Trace)
    requires if Holds(test, sv, t) then Reads(body, sv, t, inner, here) else inner == [] && here == []
    requires Reads(rest, sv, t + here, texts, added)
    ensures Reads(When(test, body, rest), sv, t, inner + texts, here + added)
  {
    BytesAppend(inner, texts);
    hide Bytes, Holds;
    Assoc(t, here, added);
    if Holds(test, sv, t) {
      forall other ensures Parse(When(test, body, rest), sv, t, Bytes(inner + texts) + other) == Got(t + (here + added), other) {
        Assoc(Bytes(inner), Bytes(texts), other);
        assert Parse(body, sv, t, Bytes(inner) + (Bytes(texts) + other)) == Got(t + here, Bytes(texts) + other);
      }
    } else {
      assert inner + texts == texts && here + added == added && t + here == t;
    }
  }

  /** A run of fields with its texts, there or not. */
  datatype Part = Part(there: bool, names: seq<string>, texts: seq<string>)

  function TextsIn(p: Part): seq<string> {
    if p.there then p.texts else []
  }

  function FieldsIn(p: Part): Trace
    requires |p.names| == |p.texts|
  {
    if p.there then Labelled(p.names, p.texts) else []
  }

  predicate Even(parts: seq<Part>) {
    forall k :: 0 <= k < |parts| ==> |parts[k].names| == |parts[k].texts|
  }

  /** The fields on the wire. */
  function AllTexts(parts: seq<Part>): seq<string> {
    if parts == [] then [] else TextsIn(parts[0]) + AllTexts(parts[1..])
  }

  /** The same fields as a record: each name with its text. */
  function AllFields(parts: seq<Part>): Trace
    requires Even(parts)
  {
    if parts == [] then [] else FieldsIn(parts[0]) + AllFields(parts[1..])
  }

  ghost predicate ReadsParts(l: Layout, sv: int, t: Trace, parts: seq<Part>) {
    Even(parts) && Reads(l, sv, t, AllTexts(parts), AllFields(parts))
  }

  lemma PartsEnd(sv: int, t: Trace)
    ensures ReadsParts(End, sv, t, [])
  {
    ReadsEnd(sv, t);
  }

  lemma OnePart(p: Part, parts: seq<Part>)
    requires |p.names| == |p.texts| && Even(parts)
    ensures Even([p] + parts) && AllTexts([p] + parts) == TextsIn(p) + AllTexts(parts)
    ensures AllFields([p] + parts) == FieldsIn(p) + AllFields(parts)
  {
    assert ([p] + parts)[1..] == parts;
  }

  /** DECODE_FIELDs without a test. */
  lemma PartsFields(l: Layout, sv: int, t: Trace, p: Part, parts: seq<Part>)
    requires l.Fields? && p.there && l.names == p.names && |p.names| == |p.texts| && Clean(p.texts)
    requires ReadsParts(l.rest, sv, t + FieldsIn(p), parts)
    ensures ReadsParts(l, sv, t, [p] + parts)
  {
    hide Reads, Labelled, Clean;
    assert ([p] + parts)[1..] == parts;
    ReadsFields(p.names, p.texts, l.rest, sv, t, AllTexts(parts), AllFields(parts));
  }

  /** DECODE_FIELDs without a test, told in two parts. */
  lemma PartsPair(l: Layout, sv: int, t: Trace, p: Part, q: Part, parts: seq<Part>)
    requires l.Fields? && p.there && q.there && l.names == p.names + q.names
    requires |p.names| == |p.texts| && Clean(p.texts) && |q.names| == |q.texts| && Clean(q.texts)
    requires ReadsParts(l.rest, sv, t + FieldsIn(p) + FieldsIn(q), parts)
    ensures ReadsParts(l, sv, t, [p] + ([q] + parts))
  {
    hide Reads, Labelled;
    var both := Part(true, p.names + q.names, p.texts + q.texts);
    LabelledAppend(p.names, p.texts, q.names, q.texts);
    Assoc(t, FieldsIn(p), FieldsIn(q));
    PartsFields(l, sv, t, both, parts);
    OnePart(both, parts);
    OnePart(q, parts);
    OnePart(p, [q] + parts);
    Assoc(p.texts, q.texts, AllTexts(parts));
    Assoc(FieldsIn(p), FieldsIn(q), AllFields(parts));
  }

  /** DECODE_FIELDs behind a test. */
  lemma PartsOptional(l: Layout, sv: int, t: Trace, p: Part, parts: seq<Part>)
    requires l.When? && l.body == Run(p.names) && |p.names| == |p.texts| && Clean(p.texts)
    requires p.there <==> Holds(l.test, sv, t)
    requires ReadsParts(l.rest, sv, t + FieldsIn(p), parts)
    ensures ReadsParts(l, sv, t, [p] + parts)
  {
    hide Reads, Labelled, Clean, Holds;
    assert ([p] + parts)[1..] == parts;
    if p.there {
      ReadsEnd(sv, t + FieldsIn(p));
      ReadsFields(p.names, p.texts, End, sv, t, [], []);
      assert p.texts + [] == p.texts && FieldsIn(p) + [] == FieldsIn(p);
    }
    ReadsWhen(l.test, l.body, l.rest, sv, t, TextsIn(p), FieldsIn(p), AllTexts(parts), AllFields(parts));
  }

  predicate NoneThere(parts: seq<Part>) {
    forall k :: 0 <= k < |parts| ==> !parts[k].there
  }

  lemma {:induction false} AllAppend(a: seq<Part>, b: seq<Part>)
    requires Even(a) && Even(b)
    ensures Even(a + b) && AllTexts(a + b) == AllTexts(a) + AllTexts(b) && AllFields(a + b) == AllFields(a) + AllFields(b)
  {
    hide Labelled;
    if a == [] {
      assert a + b == b;
    } else {
      var p, rest := a[0], a[1..];
      assert a + b == [p] + (rest + b) && a == [p] + rest;
      AllAppend(rest, b);
      OnePart(p, rest + b);
      OnePart(p, rest);
      hide AllTexts, AllFields, TextsIn, FieldsIn;
      Assoc(TextsIn(p), AllTexts(rest), AllTexts(b));
      Assoc(FieldsIn(p), AllFields(rest), AllFields(b));
    }
  }

  lemma {:induction false} NoneThereIsEmpty(parts: seq<Part>)
    requires Even(parts) && NoneThere(parts)
    ensures AllTexts(parts) == [] && AllFields(parts) == []
  {
    if parts != [] {
      NoneThereIsEmpty(parts[1..]);
    }
  }

  /** Several parts behind one test. */
  lemma PartsNested(l: Layout, sv: int, t: Trace, inner: seq<Part>, parts: seq<Part>)
    requires l.When? && Even(inner)
    requires if Holds(l.test, sv, t) then ReadsParts(l.body, sv, t, inner) else NoneThere(inner)
    requires ReadsParts(l.rest, sv, t + AllFields(inner), parts)
    ensures ReadsParts(l, sv, t, inner + parts)
  {
    hide Reads, Holds, AllTexts, AllFields;
    AllAppend(inner, parts);
    if !Holds(l.test, sv, t) {
      NoneThereIsEmpty(inner);
    }
    ReadsWhen(l.test, l.body, l.rest, sv, t, AllTexts(inner), AllFields(inner), AllTexts(parts), AllFields(parts));
  }

  /** The first field of the message is its version. */
  ghost predicate VersionIs(t: Trace, v: int) {
    IsInt32(v) && t != [] && t[0] == Field("version", IntText(v))
  }

  lemma VersionOf(t: Trace, v: int)
    requires VersionIs(t, v)
    ensures IntOf(t, "version") == v
  {
    hide Atoi, IntText;
    AtoiIntText(v);
  }

  lemma VersionStays(t: Trace, more: Trace, v: int)
    requires VersionIs(t, v)
    ensures VersionIs(t + more, v)
  {
  }

  /** A message that is made of those parts, with its callback. */
  lemma PartsDelivered(c: Link, msgId: int, l: Layout, parts: seq<Part>, other: string)
    requires c.connected && IsInt32(msgId) && LayoutOf(msgId) == Some(l) && ReadsParts(l, c.serverVersion, [], parts)
    ensures NextTurn(TWS, c, MessageBytes(msgId, AllTexts(parts)) + other) == Take(c, other, CallsOf(msgId, AllFields(parts)))
  {
    hide LayoutOf, CallsOf, NextTurn, Parse, Bytes, MessageBytes, Reads;
    ReadsNow(l, c.serverVersion, AllTexts(parts), AllFields(parts), other);
    TakesMessage(c, msgId, AllTexts(parts), AllFields(parts), other);
  }

  /** The part that every message begins with. */
  function VersionPart(v: int): Part {
    Part(true, ["version"], [IntText(v)])
  }

  lemma VersionFirst(v: int)
    requires IsInt32(v)
    ensures VersionIs(FieldsIn(VersionPart(v)), v) && Clean([IntText(v)])
    ensures FieldsIn(VersionPart(v)) == [Field("version", IntText(v))]
  {
    IntTextClean(v);
    OneField("version", IntText(v));
  }

  lemma OneField(name: string, text: string)
    ensures Labelled([name], [text]) == [Field(name, text)]
  {
    assert Labelled([name][1..], [text][1..]) == [];
  }

  lemma CleanOne(s: string)
    requires NoNul(s)
    ensures Clean([s])
  {
  }

  // ------------------------------------------------------------------------------------------
  // CONTRACT_DATA
  // ------------------------------------------------------------------------------------------

  datatype ContractData = ContractData(
    reqId: int, core: seq<string>, underConId: string, names: seq<string>, details: seq<string>)

  ghost predicate GoodContract(d: ContractData) {
    && IsInt32(d.reqId) && |d.core| == 16 && |d.names| == 2 && |d.details| == 7
    && Clean(d.core) && NoNul(d.underConId) && Clean(d.names) && Clean(d.details)
  }

  /** What follows the request id, by message version. */
  function ContractParts(v: int, d: ContractData): seq<Part> {
    [Part(true, ["symbol", "secType", "expiry", "strike", "right", "exchange", "currency", "localSymbol", "marketName",
                 "tradingClass", "conId", "minTick", "multiplier", "orderTypes", "validExchanges", "priceMagnifier"], d.core)]
    + ([Part(v >= 4, ["underConId"], [d.underConId])]
    + ([Part(v >= 5, ["longName", "primaryExchange"], d.names)]
    + ([Part(v >= 6, ["contractMonth", "industry", "category", "subcategory", "timeZoneId", "tradingHours",
                     "liquidHours"], d.details)]
    + [])))
  }

  lemma ContractCoreReads(sv: int, t: Trace, v: int, d: ContractData)
    requires VersionIs(t, v) && GoodContract(d)
    ensures ReadsParts(ContractCore(), sv, t, ContractParts(v, d))
  {
    hide ReadsParts, Labelled, Clean, VersionIs, NoNul;
    var l, parts := ContractCore(), ContractParts(v, d);
    var t1 := t + FieldsIn(parts[0]);
    var t2 := t1 + FieldsIn(parts[1]);
    var t3 := t2 + FieldsIn(parts[2]);
    VersionStays(t, FieldsIn(parts[0]), v);
    VersionStays(t1, FieldsIn(parts[1]), v);
    VersionStays(t2, FieldsIn(parts[2]), v);
    VersionOf(t1, v);
    VersionOf(t2, v);
    VersionOf(t3, v);
    CleanOne(d.underConId);
    PartsEnd(sv, t3 + FieldsIn(parts[3]));
    PartsOptional(l.rest.rest.rest, sv, t3, parts[3], []);
    PartsOptional(l.rest.rest, sv, t2, parts[2], [parts[3]] + []);
    PartsOptional(l.rest, sv, t1, parts[1], [parts[2]] + ([parts[3]] + []));
    PartsFields(l, sv, t, parts[0], [parts[1]] + ([parts[2]] + ([parts[3]] + [])));
  }

  lemma ContractEven(v: int, d: ContractData)
    requires GoodContract(d)
    ensures Even(ContractParts(v, d))
  {
  }

  /** CONTRACT_DATA: the request id is -1 before version 3. */
  lemma ContractDataDelivered(c: Link, v: int, d: ContractData, other: string)
    requires c.connected && IsInt32(v) && GoodContract(d)
    ensures var parts := [VersionPart(v)] + ([Part(v >= 3, ["reqId"], [IntText(d.reqId)])] + ContractParts(v, d));
      && Even(parts)
      && NextTurn(TWS, c, MessageBytes(10, AllTexts(parts)) + other)
         == Take(c, other, [Call("contractDetails", [IntArg(if v >= 3 then d.reqId else -1), RecordArg(AllFields(parts))])])
  {
    hide ReadsParts, Labelled, VersionIs, NoNul, NextTurn, MessageBytes, IntText, Atoi, Lookup, ContractCore, AllTexts,
         AllFields, ContractParts, OpenOrderLayout, BondLayout, ExecutionLayout, PortfolioLayout, TickOptionLayout,
         HistoricalLayout, ScannerLayout, HistoricalCalls, ScannerCalls, TickPriceCalls;
    var l, sv, p := ContractLayout(), c.serverVersion, Part(v >= 3, ["reqId"], [IntText(d.reqId)]);
    var more := ContractParts(v, d);
    ContractEven(v, d);
    VersionFirst(v);
    IntTextClean(d.reqId);
    CleanOne(IntText(d.reqId));
    var t := FieldsIn(VersionPart(v));
    assert [] + t == t;
    VersionOf(t, v);
    VersionStays(t, FieldsIn(p), v);
    ContractCoreReads(sv, t + FieldsIn(p), v, d);
    PartsOptional(l.rest, sv, t, p, more);
    PartsFields(l, sv, [], VersionPart(v), [p] + more);
    PartsDelivered(c, 10, l, [VersionPart(v)] + ([p] + more), other);
    ReqIdOf(v, d.reqId, p.there, more);
  }

  /** The request id stands behind the version, or is not there. */
  lemma ReqIdOf(v: int, reqId: int, there: bool, more: seq<Part>)
    requires IsInt32(v) && IsInt32(reqId) && Even(more)
    ensures var parts := [VersionPart(v)] + ([Part(there, ["reqId"], [IntText(reqId)])] + more);
      Even(parts) && IntOf(AllFields(parts), "version") == v && (there ==> IntOf(AllFields(parts), "reqId") == reqId)
  {
    hide IntText, Atoi;
    var p := Part(there, ["reqId"], [IntText(reqId)]);
    var parts := [VersionPart(v)] + ([p] + more);
    assert parts[1..] == [p] + more && ([p] + more)[1..] == more;
    VersionFirst(v);
    OneField("reqId", IntText(reqId));
    assert AllFields(parts) == [Field("version", IntText(v))] + (FieldsIn(p) + AllFields(more));
    AtoiIntText(v);
    AtoiIntText(reqId);
    LookupAt(AllFields(parts), 0);
    if there {
      LookupAt(AllFields(parts), 1);
    }
  }

  // ------------------------------------------------------------------------------------------
  // BOND_CONTRACT_DATA and EXECUTION_DATA
  // ------------------------------------------------------------------------------------------

  datatype BondData = BondData(reqId: int, core: seq<string>, longName: string)

  ghost predicate GoodBond(d: BondData) {
    IsInt32(d.reqId) && |d.core| == 25 && Clean(d.core) && NoNul(d.longName)
  }

  function BondParts(v: int, d: BondData): seq<Part> {
    [Part(true, ["symbol", "secType", "cusip", "coupon", "maturity", "issueDate", "ratings", "bondType", "couponType",
                 "convertible", "callable", "putable", "descAppend", "exchange", "currency", "marketName", "tradingClass",
                 "conId", "minTick", "orderTypes", "validExchanges", "nextOptionDate", "nextOptionType",
                 "nextOptionPartial", "notes"], d.core)]
    + ([Part(v >= 4, ["longName"], [d.longName])] + [])
  }

  lemma BondCoreReads(sv: int, t: Trace, v: int, d: BondData)
    requires VersionIs(t, v) && GoodBond(d)
    ensures Even(BondParts(v, d)) && ReadsParts(BondLayout().rest.rest, sv, t, BondParts(v, d))
  {
    hide ReadsParts, Labelled, Clean, VersionIs, NoNul;
    var l, parts := BondLayout().rest.rest, BondParts(v, d);
    var t1 := t + FieldsIn(parts[0]);
    VersionStays(t, FieldsIn(parts[0]), v);
    VersionOf(t1, v);
    CleanOne(d.longName);
    PartsEnd(sv, t1 + FieldsIn(parts[1]));
    PartsOptional(l.rest, sv, t1, parts[1], []);
    PartsFields(l, sv, t, parts[0], [parts[1]] + []);
  }

  /** BOND_CONTRACT_DATA: the request id is -1 before version 3. */
  lemma BondContractDataDelivered(c: Link, v: int, d: BondData, other: string)
    requires c.connected && IsInt32(v) && GoodBond(d)
    ensures var parts := [VersionPart(v)] + ([Part(v >= 3, ["reqId"], [IntText(d.reqId)])] + BondParts(v, d));
      && Even(parts)
      && NextTurn(TWS, c, MessageBytes(18, AllTexts(parts)) + other)
         == Take(c, other, [Call("bondContractDetails", [IntArg(if v >= 3 then d.reqId else -1), RecordArg(AllFields(parts))])])
  {
    hide ReadsParts, Labelled, VersionIs, NoNul, NextTurn, MessageBytes, IntText, Atoi, Lookup, AllTexts, AllFields,
         BondParts, OpenOrderLayout, ContractLayout, ExecutionLayout, PortfolioLayout, TickOptionLayout,
         HistoricalLayout, ScannerLayout, HistoricalCalls, ScannerCalls, TickPriceCalls;
    var l, sv, p := BondLayout(), c.serverVersion, Part(v >= 3, ["reqId"], [IntText(d.reqId)]);
    var more := BondParts(v, d);
    VersionFirst(v);
    IntTextClean(d.reqId);
    CleanOne(IntText(d.reqId));
    var t := FieldsIn(VersionPart(v));
    assert [] + t == t;
    VersionOf(t, v);
    VersionStays(t, FieldsIn(p), v);
    BondCoreReads(sv, t + FieldsIn(p), v, d);
    PartsOptional(l.rest, sv, t, p, more);
    PartsFields(l, sv, [], VersionPart(v), [p] + more);
    PartsDelivered(c, 18, l, [VersionPart(v)] + ([p] + more), other);
    ReqIdOf(v, d.reqId, p.there, more);
  }

  datatype ExecutionData = ExecutionData(reqId: int, core: seq<string>, totals: seq<string>, orderRef: string)

  ghost predicate GoodExecution(d: ExecutionData) {
    && IsInt32(d.reqId) && |d.core| == 20 && |d.totals| == 2
    && Clean(d.core) && Clean(d.totals) && NoNul(d.orderRef)
  }

  /** The exchange of the execution is another field than the exchange of the contract. */
  function ExecutionParts(v: int, d: ExecutionData): seq<Part> {
    [Part(true, ["orderId", "conId", "symbol", "secType", "expiry", "strike", "right", "exchange", "currency",
                 "localSymbol", "execId", "time", "acctNumber", "execExchange", "side", "shares", "price", "permId",
                 "clientId", "liquidation"], d.core)]
    + ([Part(v >= 6, ["cumQty", "avgPrice"], d.totals)]
    + ([Part(v >= 8, ["orderRef"], [d.orderRef])] + []))
  }

  lemma ExecutionCoreReads(sv: int, t: Trace, v: int, d: ExecutionData)
    requires VersionIs(t, v) && GoodExecution(d)
    ensures Even(ExecutionParts(v, d)) && ReadsParts(ExecutionLayout().rest.rest, sv, t, ExecutionParts(v, d))
  {
    hide ReadsParts, Labelled, Clean, VersionIs, NoNul;
    var l, parts := ExecutionLayout().rest.rest, ExecutionParts(v, d);
    var t1 := t + FieldsIn(parts[0]);
    var t2 := t1 + FieldsIn(parts[1]);
    VersionStays(t, FieldsIn(parts[0]), v);
    VersionStays(t1, FieldsIn(parts[1]), v);
    VersionOf(t1, v);
    VersionOf(t2, v);
    CleanOne(d.orderRef);
    PartsEnd(sv, t2 + FieldsIn(parts[2]));
    PartsOptional(l.rest.rest, sv, t2, parts[2], []);
    PartsOptional(l.rest, sv, t1, parts[1], [parts[2]] + []);
    PartsFields(l, sv, t, parts[0], [parts[1]] + ([parts[2]] + []));
  }

  /** EXECUTION_DATA: the request id is -1 before version 7. */
  lemma ExecutionDataDelivered(c: Link, v: int, d: ExecutionData, other: string)
    requires c.connected && IsInt32(v) && GoodExecution(d)
    ensures var parts := [VersionPart(v)] + ([Part(v >= 7, ["reqId"], [IntText(d.reqId)])] + ExecutionParts(v, d));
      && Even(parts)
      && NextTurn(TWS, c, MessageBytes(11, AllTexts(parts)) + other)
         == Take(c, other, [Call("execDetails", [IntArg(if v >= 7 then d.reqId else -1), RecordArg(AllFields(parts))])])
  {
    hide ReadsParts, Labelled, VersionIs, NoNul, NextTurn, MessageBytes, IntText, Atoi, Lookup, AllTexts, AllFields,
         ExecutionParts, OpenOrderLayout, ContractLayout, BondLayout, PortfolioLayout, TickOptionLayout,
         HistoricalLayout, ScannerLayout, HistoricalCalls, ScannerCalls, TickPriceCalls;
    var l, sv, p := ExecutionLayout(), c.serverVersion, Part(v >= 7, ["reqId"], [IntText(d.reqId)]);
    var more := ExecutionParts(v, d);
    VersionFirst(v);
    IntTextClean(d.reqId);
    CleanOne(IntText(d.reqId));
    var t := FieldsIn(VersionPart(v));
    assert [] + t == t;
    VersionOf(t, v);
    VersionStays(t, FieldsIn(p), v);
    ExecutionCoreReads(sv, t + FieldsIn(p), v, d);
    PartsOptional(l.rest, sv, t, p, more);
    PartsFields(l, sv, [], VersionPart(v), [p] + more);
    PartsDelivered(c, 11, l, [VersionPart(v)] + ([p] + more), other);
    ReqIdOf(v, d.reqId, p.there, more);
  }

  // ------------------------------------------------------------------------------------------
  // PORTFOLIO_VALUE and TICK_OPTION_COMPUTATION
  // ------------------------------------------------------------------------------------------

  /** No field of that name. */
  ghost predicate Unnamed(t: Trace, name: string) {
    forall k :: 0 <= k < |t| ==> t[k].name != name
  }

  lemma {:induction false} LookupBehind(t: Trace, more: Trace, name: string)
    requires Unnamed(t, name)
    ensures Lookup(t + more, name) == Lookup(more, name)
  {
    if t == [] {
      assert t + more == more;
    } else {
      assert (t + more)[1..] == t[1..] + more;
      LookupBehind(t[1..], more, name);
    }
  }

  lemma LabelledUnnamed(names: seq<string>, texts: seq<string>, name: string)
    requires |names| == |texts| && name !in names
    ensures Unnamed(Labelled(names, texts), name)
  {
    LabelledFacts(names, texts);
  }

  lemma {:induction false} PartsUnnamed(parts: seq<Part>, name: string)
    requires Even(parts) && forall k :: 0 <= k < |parts| ==> name !in parts[k].names
    ensures Unnamed(AllFields(parts), name)
  {
    if parts != [] {
      LabelledUnnamed(parts[0].names, parts[0].texts, name);
      PartsUnnamed(parts[1..], name);
    }
  }

  lemma UnnamedIsEmpty(t: Trace, name: string)
    requires Unnamed(t, name)
    ensures Lookup(t, name) == ""
  {
    LookupBehind(t, [], name);
    assert t + [] == t;
  }

  /** What a name stands for, when it stands in one part and in none before it. */
  lemma LookupIn(before: seq<Part>, p: Part, after: seq<Part>, k: nat)
    requires Even(before) && Even(after) && |p.names| == |p.texts| && p.there && k < |p.names|
    requires forall j :: 0 <= j < k ==> p.names[j] != p.names[k]
    requires forall i :: 0 <= i < |before| ==> p.names[k] !in before[i].names
    ensures Even(before + ([p] + after)) && Lookup(AllFields(before + ([p] + after)), p.names[k]) == p.texts[k]
  {
    hide Labelled, Lookup;
    assert ([p] + after)[1..] == after;
    AllAppend(before, [p] + after);
    PartsUnnamed(before, p.names[k]);
    LookupBehind(AllFields(before), AllFields([p] + after), p.names[k]);
    LabelledLookup(p.names, p.texts, AllFields(after), k);
  }

  datatype Portfolio = Portfolio(
    contract: seq<string>, details: seq<string>, currency: string, localSymbol: string, position: int,
    marketPrice: string, marketValue: string, averageCost: string, unrealizedPNL: string, realizedPNL: string,
    accountName: string, primaryExchange: string)

  function PortfolioValues(d: Portfolio): seq<string> {
    [d.currency, d.localSymbol, IntText(d.position), d.marketPrice, d.marketValue, d.averageCost, d.unrealizedPNL,
     d.realizedPNL, d.accountName]
  }

  ghost predicate GoodPortfolio(d: Portfolio) {
    && |d.contract| == 6 && |d.details| == 2 && IsInt32(d.position)
    && Clean(d.contract) && Clean(d.details) && Clean(PortfolioValues(d)) && NoNul(d.primaryExchange)
  }

  /** The primary exchange comes with version 7, or at the end from a server 39 that sends version 6. */
  function PortfolioParts(sv: int, v: int, d: Portfolio): seq<Part> {
    [Part(true, ["conId", "symbol", "secType", "expiry", "strike", "right"], d.contract)]
    + ([Part(v >= 7, ["multiplier", "primaryExchange"], d.details)]
    + ([Part(true, ["currency", "localSymbol", "position", "marketPrice", "marketValue", "averageCost", "unrealizedPNL",
                    "realizedPNL", "accountName"], PortfolioValues(d))]
    + ([Part(v == 6 && sv == 39, ["primaryExchange"], [d.primaryExchange])] + [])))
  }

  lemma PortfolioReads(sv: int, v: int, d: Portfolio)
    requires IsInt32(v) && GoodPortfolio(d)
    ensures Even(PortfolioParts(sv, v, d)) && ReadsParts(PortfolioLayout(), sv, [], [VersionPart(v)] + PortfolioParts(sv, v, d))
  {
    hide ReadsParts, Labelled, Clean, VersionIs, NoNul, IntText;
    var l, parts := PortfolioLayout(), PortfolioParts(sv, v, d);
    VersionFirst(v);
    var t0 := [] + FieldsIn(VersionPart(v));
    var t1 := t0 + FieldsIn(parts[0]);
    var t2 := t1 + FieldsIn(parts[1]);
    var t3 := t2 + FieldsIn(parts[2]);
    assert t0 == FieldsIn(VersionPart(v));
    VersionStays(t0, FieldsIn(parts[0]), v);
    VersionStays(t1, FieldsIn(parts[1]), v);
    VersionStays(t2, FieldsIn(parts[2]), v);
    VersionOf(t1, v);
    VersionOf(t3, v);
    CleanOne(d.primaryExchange);
    PartsEnd(sv, t3 + FieldsIn(parts[3]));
    PartsOptional(l.rest.rest.rest, sv, t3, parts[3], []);
    PartsFields(l.rest.rest, sv, t2, parts[2], [parts[3]] + []);
    PartsOptional(l.rest, sv, t1, parts[1], [parts[2]] + ([parts[3]] + []));
    PartsPair(l, sv, [], VersionPart(v), parts[0], [parts[1]] + ([parts[2]] + ([parts[3]] + [])));
  }

  /** PORTFOLIO_VALUE. */
  lemma PortfolioValueDelivered(c: Link, v: int, d: Portfolio, other: string)
    requires c.connected && IsInt32(v) && GoodPortfolio(d)
    ensures var parts := [VersionPart(v)] + PortfolioParts(c.serverVersion, v, d);
      && Even(parts)
      && NextTurn(TWS, c, MessageBytes(7, AllTexts(parts)) + other)
         == Take(c, other, [Call("updatePortfolio", [RecordArg(AllFields(parts)), IntArg(d.position),
              TextArg(d.marketPrice), TextArg(d.marketValue), TextArg(d.averageCost), TextArg(d.unrealizedPNL),
              TextArg(d.realizedPNL), TextArg(d.accountName)])])
  {
    hide ReadsParts, Labelled, VersionIs, NoNul, NextTurn, MessageBytes, IntText, Atoi, Lookup, AllTexts, AllFields, Args,
         OpenOrderLayout, ContractLayout, BondLayout, ExecutionLayout, PortfolioLayout, TickOptionLayout,
         HistoricalLayout, ScannerLayout, HistoricalCalls, ScannerCalls, TickPriceCalls, PortfolioParts;
    var sv := c.serverVersion;
    var parts := PortfolioParts(sv, v, d);
    PortfolioReads(sv, v, d);
    PartsDelivered(c, 7, PortfolioLayout(), [VersionPart(v)] + parts, other);
    PortfolioLookups(sv, v, d);
    AtoiIntText(d.position);
    var t := AllFields([VersionPart(v)] + parts);
    var specs := [AsInt("position"), AsText("marketPrice"), AsText("marketValue"), AsText("averageCost"),
                  AsText("unrealizedPNL"), AsText("realizedPNL"), AsText("accountName")];
    ArgsAre(t, specs);
    assert [RecordArg(t)] + Args(t, specs)
        == [RecordArg(t), IntArg(d.position), TextArg(d.marketPrice), TextArg(d.marketValue), TextArg(d.averageCost),
            TextArg(d.unrealizedPNL), TextArg(d.realizedPNL), TextArg(d.accountName)];
  }

  lemma PortfolioLookups(sv: int, v: int, d: Portfolio)
    requires GoodPortfolio(d) && Even([VersionPart(v)] + PortfolioParts(sv, v, d))
    ensures var t := AllFields([VersionPart(v)] + PortfolioParts(sv, v, d));
      && Lookup(t, "position") == IntText(d.position) && Lookup(t, "marketPrice") == d.marketPrice
      && Lookup(t, "marketValue") == d.marketValue && Lookup(t, "averageCost") == d.averageCost
      && Lookup(t, "unrealizedPNL") == d.unrealizedPNL && Lookup(t, "realizedPNL") == d.realizedPNL
      && Lookup(t, "accountName") == d.accountName
  {
    hide Labelled, Lookup, AllFields, IntText, Clean;
    var parts := PortfolioParts(sv, v, d);
    var before, p, after := [VersionPart(v), parts[0], parts[1]], parts[2], [parts[3]];
    assert [VersionPart(v)] + parts == before + ([p] + after);
    forall k | 2 <= k < 9 ensures Lookup(AllFields(before + ([p] + after)), p.names[k]) == p.texts[k] {
      LookupIn(before, p, after, k);
    }
    assert p.names[2] == "position" && p.names[3] == "marketPrice" && p.names[4] == "marketValue";
    assert p.names[5] == "averageCost" && p.names[6] == "unrealizedPNL" && p.names[7] == "realizedPNL";
    assert p.names[8] == "accountName";
  }

  datatype TickOption = TickOption(
    tickerId: int, tickType: int, impliedVol: string, delta: string, optPrice: string, pvDividend: string,
    gamma: string, vega: string, theta: string, undPrice: string)

  ghost predicate GoodTickOption(d: TickOption) {
    && IsInt32(d.tickerId) && IsInt32(d.tickType) && Clean([d.impliedVol, d.delta])
    && Clean([d.optPrice, d.pvDividend]) && Clean([d.gamma, d.vega, d.theta, d.undPrice])
  }

  /** The prices come with version 6 or for the tick type 13, the other greeks with version 6. */
  function TickOptionParts(v: int, d: TickOption): seq<Part> {
    [Part(true, ["tickerId", "tickTypeInt", "impliedVol", "delta"],
          [IntText(d.tickerId), IntText(d.tickType), d.impliedVol, d.delta])]
    + ([Part(v >= 6 || d.tickType == 13, ["optPrice", "pvDividend"], [d.optPrice, d.pvDividend])]
    + ([Part(v >= 6, ["gamma", "vega", "theta", "undPrice"], [d.gamma, d.vega, d.theta, d.undPrice])] + []))
  }

  lemma TickOptionReads(sv: int, v: int, d: TickOption)
    requires IsInt32(v) && GoodTickOption(d)
    ensures Even(TickOptionParts(v, d)) && ReadsParts(TickOptionLayout(), sv, [], [VersionPart(v)] + TickOptionParts(v, d))
  {
    hide ReadsParts, Labelled, VersionIs, NoNul, IntText, Atoi, Lookup;
    var l, parts := TickOptionLayout(), TickOptionParts(v, d);
    VersionFirst(v);
    IntTextClean(d.tickerId);
    IntTextClean(d.tickType);
    var t0 := [] + FieldsIn(VersionPart(v));
    var t1 := t0 + FieldsIn(parts[0]);
    var t2 := t1 + FieldsIn(parts[1]);
    assert t0 == FieldsIn(VersionPart(v));
    VersionStays(t0, FieldsIn(parts[0]), v);
    VersionStays(t1, FieldsIn(parts[1]), v);
    VersionOf(t1, v);
    VersionOf(t2, v);
    TickTypeRead(v, d);
    PartsEnd(sv, t2 + FieldsIn(parts[2]));
    PartsOptional(l.rest.rest, sv, t2, parts[2], []);
    PartsOptional(l.rest, sv, t1, parts[1], [parts[2]] + []);
    PartsPair(l, sv, [], VersionPart(v), parts[0], [parts[1]] + ([parts[2]] + []));
  }

  lemma TickTypeRead(v: int, d: TickOption)
    requires IsInt32(d.tickType) && |TickOptionParts(v, d)[0].names| == |TickOptionParts(v, d)[0].texts|
    ensures IntOf(FieldsIn(VersionPart(v)) + FieldsIn(TickOptionParts(v, d)[0]), "tickTypeInt") == d.tickType
  {
    hide IntText, Atoi;
    var p := TickOptionParts(v, d)[0];
    LookupIn([VersionPart(v)], p, [], 1);
    OnePart(p, []);
    OnePart(VersionPart(v), [p] + []);
    assert FieldsIn(p) + [] == FieldsIn(p);
    AtoiIntText(d.tickType);
  }

  /** TICK_OPTION_COMPUTATION; what did not come stays as it was set up, which the empty text stands for. */
  lemma TickOptionComputationDelivered(c: Link, v: int, d: TickOption, other: string)
    requires c.connected && IsInt32(v) && GoodTickOption(d)
    ensures var parts := [VersionPart(v)] + TickOptionParts(v, d);
      var prices, greeks := v >= 6 || d.tickType == 13, v >= 6;
      && Even(parts)
      && NextTurn(TWS, c, MessageBytes(21, AllTexts(parts)) + other)
         == Take(c, other, [Call("tickOptionComputation", [IntArg(d.tickerId), IntArg(d.tickType), TextArg(d.impliedVol),
              TextArg(d.delta), TextArg(if prices then d.optPrice else ""), TextArg(if prices then d.pvDividend else ""),
              TextArg(if greeks then d.gamma else ""), TextArg(if greeks then d.vega else ""),
              TextArg(if greeks then d.theta else ""), TextArg(if greeks then d.undPrice else "")])])
  {
    hide ReadsParts, Labelled, VersionIs, NoNul, NextTurn, MessageBytes, IntText, Atoi, Lookup, AllTexts, AllFields, Args,
         OpenOrderLayout, ContractLayout, BondLayout, ExecutionLayout, PortfolioLayout, TickOptionLayout,
         HistoricalLayout, ScannerLayout, HistoricalCalls, ScannerCalls, TickPriceCalls, TickOptionParts;
    var parts := TickOptionParts(v, d);
    TickOptionReads(c.serverVersion, v, d);
    assert Even([VersionPart(v)] + parts) by { OnePart(VersionPart(v), parts); }
    var t := AllFields([VersionPart(v)] + parts);
    PartsDelivered(c, 21, TickOptionLayout(), [VersionPart(v)] + parts, other);
    TickOptionLookups(v, d);
    AtoiIntText(d.tickerId);
    AtoiIntText(d.tickType);
    var specs := [AsInt("tickerId"), AsInt("tickTypeInt"), AsText("impliedVol"), AsText("delta"), AsText("optPrice"),
                  AsText("pvDividend"), AsText("gamma"), AsText("vega"), AsText("theta"), AsText("undPrice")];
    ArgsAre(t, specs);
    var prices, greeks := v >= 6 || d.tickType == 13, v >= 6;
    assert Args(t, specs)
        == [IntArg(d.tickerId), IntArg(d.tickType), TextArg(d.impliedVol), TextArg(d.delta),
            TextArg(if prices then d.optPrice else ""), TextArg(if prices then d.pvDividend else ""),
            TextArg(if greeks then d.gamma else ""), TextArg(if greeks then d.vega else ""),
            TextArg(if greeks then d.theta else ""), TextArg(if greeks then d.undPrice else "")];
  }

  lemma TickOptionLookups(v: int, d: TickOption)
    requires Even([VersionPart(v)] + TickOptionParts(v, d))
    ensures var t := AllFields([VersionPart(v)] + TickOptionParts(v, d));
      var prices, greeks := v >= 6 || d.tickType == 13, v >= 6;
      && Lookup(t, "tickerId") == IntText(d.tickerId) && Lookup(t, "tickTypeInt") == IntText(d.tickType)
      && Lookup(t, "impliedVol") == d.impliedVol && Lookup(t, "delta") == d.delta
      && Lookup(t, "optPrice") == (if prices then d.optPrice else "")
      && Lookup(t, "pvDividend") == (if prices then d.pvDividend else "")
      && Lookup(t, "gamma") == (if greeks then d.gamma else "") && Lookup(t, "vega") == (if greeks then d.vega else "")
      && Lookup(t, "theta") == (if greeks then d.theta else "") && Lookup(t, "undPrice") == (if greeks then d.undPrice else "")
  {
    hide Labelled, Lookup, AllFields, IntText;
    var parts, first := TickOptionParts(v, d), VersionPart(v);
    var all := [first] + parts;
    assert all == [first] + ([parts[0]] + parts[1..]);
    forall k | 0 <= k < 4 ensures Lookup(AllFields(all), parts[0].names[k]) == parts[0].texts[k] {
      LookupIn([first], parts[0], parts[1..], k);
    }
    assert parts[0].names[0] == "tickerId" && parts[0].names[1] == "tickTypeInt";
    assert parts[0].names[2] == "impliedVol" && parts[0].names[3] == "delta";
    assert all == [first, parts[0]] + ([parts[1]] + parts[2..]);
    forall k | 0 <= k < 2 ensures Lookup(AllFields(all), parts[1].names[k]) == if parts[1].there then parts[1].texts[k] else "" {
      OptionalLookup([first, parts[0]], parts[1], parts[2..], k);
    }
    assert parts[1].names[0] == "optPrice" && parts[1].names[1] == "pvDividend";
    assert all == [first, parts[0], parts[1]] + ([parts[2]] + []);
    forall k | 0 <= k < 4 ensures Lookup(AllFields(all), parts[2].names[k]) == if parts[2].there then parts[2].texts[k] else "" {
      OptionalLookup([first, parts[0], parts[1]], parts[2], [], k);
    }
    assert parts[2].names[0] == "gamma" && parts[2].names[1] == "vega";
    assert parts[2].names[2] == "theta" && parts[2].names[3] == "undPrice";
  }

  lemma OptionalLookup(before: seq<Part>, p: Part, after: seq<Part>, k: nat)
    requires Even(before) && Even(after) && |p.names| == |p.texts| && k < |p.names|
    requires forall j :: 0 <= j < k ==> p.names[j] != p.names[k]
    requires forall i :: 0 <= i < |before| ==> p.names[k] !in before[i].names
    requires forall i :: 0 <= i < |after| ==> p.names[k] !in after[i].names
    ensures Even(before + ([p] + after))
    ensures Lookup(AllFields(before + ([p] + after)), p.names[k]) == if p.there then p.texts[k] else ""
  {
    if p.there {
      LookupIn(before, p, after, k);
    } else {
      assert ([p] + after)[1..] == after;
      AllAppend(before, [p] + after);
      assert AllFields([p] + after) == [] + AllFields(after) == AllFields(after);
      PartsUnnamed(before, p.names[k]);
      PartsUnnamed(after, p.names[k]);
      LookupBehind(AllFields(before), AllFields(after), p.names[k]);
      UnnamedIsEmpty(AllFields(after), p.names[k]);
    }
  }

  // ------------------------------------------------------------------------------------------
  // OPEN_ORDER
  // ------------------------------------------------------------------------------------------

  /** The contents of the message; which of them are sent depends on the versions and on other contents. */
  datatype OpenOrder = OpenOrder(
    orderId: int, head: seq<string>, exempt: string, middle: seq<string>, deltaNeutralOrderType: string,
    deltaNeutralAuxPrice: string, deltaNeutral: seq<string>, third: seq<string>, combo: seq<seq<string>>,
    scaleSizes: seq<string>, scalePriceIncrement: string, hedgeType: string, hedgeParam: string, optOut: string,
    clearing: seq<string>, notHeld: string, underCompPresent: int, underComp: seq<string>, algoStrategy: string,
    algoParams: seq<seq<string>>, state: seq<string>)

  ghost predicate GoodSizes(o: OpenOrder) {
    && |o.head| == 37 && |o.middle| == 19 && |o.deltaNeutral| == 4 && |o.third| == 6 && |o.scaleSizes| == 2
    && |o.clearing| == 2 && |o.underComp| == 3 && |o.state| == 10 && |o.combo| <= INT_MAX && |o.algoParams| <= INT_MAX
    && IsInt32(o.orderId) && IsInt32(o.underCompPresent)
  }

  ghost predicate GoodTexts(o: OpenOrder) {
    && Clean(o.head) && NoNul(o.exempt) && Clean(o.middle) && Clean([o.deltaNeutralOrderType, o.deltaNeutralAuxPrice])
    && Clean(o.deltaNeutral) && Clean(o.third) && Rows(o.combo, 2) && Clean(o.scaleSizes) && NoNul(o.scalePriceIncrement)
    && NoNul(o.hedgeType) && NoNul(o.hedgeParam) && NoNul(o.optOut) && Clean(o.clearing) && NoNul(o.notHeld)
    && Clean(o.underComp) && NoNul(o.algoStrategy) && Rows(o.algoParams, 2) && Clean(o.state)
  }

  ghost predicate GoodOrder(o: OpenOrder) {
    GoodSizes(o) && GoodTexts(o)
  }

  /** A count, and behind it as many tags with their values. */
  function TagParts(there: bool, count: string, rows: seq<seq<string>>): seq<Part> {
    [Part(there, [count], [IntText(|rows|)])]
    + ([Part(there && |rows| > 0, Repeated(["tag", "value"], |rows|), Concat(rows))] + [])
  }

  function AlgoParts(v: int, o: OpenOrder): seq<Part> {
    [Part(v >= 21, ["algoStrategy"], [o.algoStrategy])]
    + TagParts(v >= 21 && o.algoStrategy != "", "algoParamsCount", o.algoParams)
  }

  function StateParts(o: OpenOrder): seq<Part> {
    [Part(true, ["whatIf", "status", "initMargin", "maintMargin", "equityWithLoan", "commission", "minCommission",
                 "maxCommission", "commissionCurrency", "warningText"], o.state)] + []
  }

  function UnderCompParts(v: int, o: OpenOrder): seq<Part> {
    [Part(v >= 20, ["underCompPresent"], [IntText(o.underCompPresent)])]
    + ([Part(v >= 20 && o.underCompPresent > 0, ["underCompConId", "underCompDelta", "underCompPrice"], o.underComp)] + [])
  }

  function ClearingParts(v: int, o: OpenOrder): seq<Part> {
    [Part(v >= 25, ["optOutSmartRouting"], [o.optOut])]
    + ([Part(true, ["clearingAccount", "clearingIntent"], o.clearing)]
    + ([Part(v >= 22, ["notHeld"], [o.notHeld])]
    + (UnderCompParts(v, o) + (AlgoParts(v, o) + StateParts(o)))))
  }

  function HedgeParts(v: int, o: OpenOrder): seq<Part> {
    [Part(v >= 24, ["hedgeType"], [o.hedgeType])]
    + ([Part(v >= 24 && o.hedgeType != "", ["hedgeParam"], [o.hedgeParam])] + [])
  }

  /** Before version 20 the first size is a number of components that nothing uses, and the second is the initial size. */
  function ScaleParts(v: int, o: OpenOrder): seq<Part> {
    [Part(v >= 20, ["scaleInitLevelSize", "scaleSubsLevelSize"], o.scaleSizes)]
    + ([Part(v < 20, ["notSuppScaleNumComponents", "scaleInitLevelSize"], o.scaleSizes)]
    + ([Part(true, ["scalePriceIncrement"], [o.scalePriceIncrement])]
    + (HedgeParts(v, o) + ClearingParts(v, o))))
  }

  function ComboParts(v: int, o: OpenOrder): seq<Part> {
    [Part(true, ["continuousUpdate", "referencePriceType", "trailStopPrice", "basisPoints", "basisPointsType",
                 "comboLegsDescrip"], o.third)]
    + (TagParts(v >= 26, "smartComboRoutingParamsCount", o.combo) + ScaleParts(v, o))
  }

  function VolatilityParts(v: int, o: OpenOrder): seq<Part> {
    [Part(true, ["auctionStrategy", "startingPrice", "stockRefPrice", "delta", "stockRangeLower", "stockRangeUpper",
                 "displaySize", "blockOrder", "sweepToFill", "allOrNone", "minQty", "ocaType", "eTradeOnly", "firmQuoteOnly",
                 "nbboPriceCap", "parentId", "triggerMethod", "volatility", "volatilityType"], o.middle)]
    + ([Part(true, ["deltaNeutralOrderType", "deltaNeutralAuxPrice"], [o.deltaNeutralOrderType, o.deltaNeutralAuxPrice])]
    + ([Part(v >= 27 && o.deltaNeutralOrderType != "",
             ["deltaNeutralConId", "deltaNeutralSettlingFirm", "deltaNeutralClearingAccount", "deltaNeutralClearingIntent"],
             o.deltaNeutral)]
    + ComboParts(v, o)))
  }

  /** An exempt code goes into the order, but from a server 51 it goes nowhere. */
  function ExemptParts(sv: int, v: int, o: OpenOrder): seq<Part> {
    [Part(sv == 51, ["exemptCodeOld"], [o.exempt])]
    + ([Part(sv != 51 && v >= 23, ["exemptCode"], [o.exempt])]
    + VolatilityParts(v, o))
  }

  function OpenOrderParts(sv: int, v: int, o: OpenOrder): seq<Part> {
    [Part(true, ["orderId", "conId", "symbol", "secType", "expiry", "strike", "right", "exchange", "currency", "localSymbol",
                 "action", "totalQuantity", "orderType", "lmtPrice", "auxPrice", "tif", "ocaGroup", "account", "openClose",
                 "orderOriginInt", "orderRef", "clientId", "permId", "outsideRth", "hidden", "discretionaryAmt",
                 "goodAfterTime", "sharesAllocation", "faGroup", "faMethod", "faPercentage", "faProfile", "goodTillDate",
                 "rule80A", "percentOffset", "settlingFirm", "shortSaleSlot", "designatedLocation"],
          [IntText(o.orderId)] + o.head)]
    + ExemptParts(sv, v, o)
  }

  // The tests of the case look at six fields; what is decoded before such a field has another name.

  const TESTED: seq<string> := ["deltaNeutralOrderType", "smartComboRoutingParamsCount", "hedgeType", "underCompPresent",
                                "algoStrategy", "algoParamsCount"]

  ghost predicate Avoids(t: Trace, from: nat) {
    forall j :: from <= j < 6 ==> Unnamed(t, TESTED[j])
  }

  ghost predicate Clear(names: seq<string>, from: nat) {
    forall j :: from <= j < 6 ==> TESTED[j] !in names
  }

  lemma AvoidsMore(t: Trace, p: Part, from: nat)
    requires |p.names| == |p.texts| && Avoids(t, from) && Clear(p.names, from)
    ensures Avoids(t + FieldsIn(p), from)
  {
    hide Labelled;
    forall j | from <= j < 6 ensures Unnamed(t + FieldsIn(p), TESTED[j]) {
      LabelledUnnamed(p.names, p.texts, TESTED[j]);
      var f := FieldsIn(p);
      assert Unnamed(f, TESTED[j]);
    }
  }

  lemma AvoidsLater(t: Trace, from: nat, later: nat)
    requires Avoids(t, from) && from <= later
    ensures Avoids(t, later)
  {
  }

  lemma LookupTested(t: Trace, from: nat, text: string, more: Trace)
    requires from < 6 && Avoids(t, from)
    ensures Lookup(t + ([Field(TESTED[from], text)] + more), TESTED[from]) == text
    ensures Lookup(t + [Field(TESTED[from], text)], TESTED[from]) == text
  {
    LookupBehind(t, [Field(TESTED[from], text)] + more, TESTED[from]);
    LookupBehind(t, [Field(TESTED[from], text)], TESTED[from]);
  }

  lemma {:induction false} TagsClear(n: nat)
    ensures Clear(Repeated(["tag", "value"], n), 0)
  {
    if n > 0 {
      TagsClear(n - 1);
      forall j | 0 <= j < 6 ensures TESTED[j] !in Repeated(["tag", "value"], n) {
        assert TESTED[j] !in ["tag", "value"];
      }
    }
  }

  lemma {:induction false} AvoidsParts(t: Trace, parts: seq<Part>, from: nat)
    requires Even(parts) && Avoids(t, from) && forall k :: 0 <= k < |parts| ==> Clear(parts[k].names, from)
    ensures Avoids(t + AllFields(parts), from)
    decreases |parts|
  {
    hide Avoids, Clear, Labelled;
    if parts == [] {
      assert t + [] == t;
    } else {
      var here := FieldsIn(parts[0]);
      AvoidsMore(t, parts[0], from);
      AvoidsParts(t + here, parts[1..], from);
      Assoc(t, here, AllFields(parts[1..]));
    }
  }

  /** The loop over tags and values. */
  lemma PartsCounted(count: string, sv: int, t: Trace, rows: seq<seq<string>>)
    requires IntOf(t, count) == |rows| && Rows(rows, 2)
    ensures ReadsParts(Counted(count, ["tag", "value"], End), sv, t,
                       [Part(true, Repeated(["tag", "value"], |rows|), Concat(rows))])
  {
    var names: seq<string> := ["tag", "value"];
    ConcatFacts(names, rows);
    var p := Part(true, Repeated(names, |rows|), Concat(rows));
    hide Labelled, Lookup, Atoi, Clean, Repeated, Concat, Parse;
    OnePart(p, []);
    assert [p] + [] == [p] && p.texts + [] == p.texts && FieldsIn(p) + [] == FieldsIn(p);
    assert AllTexts([p]) == p.texts && AllFields([p]) == FieldsIn(p);
    forall other ensures Parse(Counted(count, names, End), sv, t, Bytes(p.texts) + other) == Got(t + FieldsIn(p), other) {
      TakesRows(names, rows, count, t, sv, other);
    }
  }

  lemma TagEven(there: bool, count: string, rows: seq<seq<string>>)
    requires Rows(rows, 2)
    ensures Even(TagParts(there, count, rows)) && (!there ==> NoneThere(TagParts(there, count, rows)))
  {
    ConcatFacts(["tag", "value"], rows);
    hide Repeated, Concat;
  }

  lemma TagsRead(from: nat, sv: int, t: Trace, rows: seq<seq<string>>)
    requires from < 6 && Avoids(t, from) && Rows(rows, 2) && |rows| <= INT_MAX
    ensures ReadsParts(TagValues(TESTED[from]), sv, t, TagParts(true, TESTED[from], rows))
  {
    hide Labelled, Lookup, Atoi, IntText, Clean, Repeated, Concat, ReadsParts, Avoids, Rows;
    var count, l, n := TESTED[from], TagValues(TESTED[from]), IntText(|rows|);
    TagEven(true, count, rows);
    var parts := TagParts(true, count, rows);
    var t1 := t + FieldsIn(parts[0]);
    OneField(count, n);
    LookupTested(t, from, n, []);
    AtoiIntText(|rows|);
    IntTextClean(|rows|);
    CleanOne(n);
    assert IntOf(t1, count) == |rows|;
    if |rows| > 0 {
      PartsCounted(count, sv, t1, rows);
    }
    var inner := [parts[1]];
    OnePart(parts[1], []);
    assert inner + [] == inner == parts[1..];
    PartsEnd(sv, t1 + AllFields(inner));
    PartsNested(l.rest, sv, t1, inner, []);
    PartsFields(l, sv, t, parts[0], inner);
  }

  lemma StateReads(sv: int, t: Trace, o: OpenOrder)
    requires GoodOrder(o)
    ensures Even(StateParts(o)) && ReadsParts(OpenOrderAlgo().rest, sv, t, StateParts(o))
  {
    hide ReadsParts, Labelled, Clean, NoNul;
    var l, p := OpenOrderAlgo().rest, StateParts(o)[0];
    PartsEnd(sv, t + FieldsIn(p));
    PartsFields(l, sv, t, p, []);
  }

  lemma AlgoEven(v: int, o: OpenOrder)
    requires GoodOrder(o)
    ensures Even(AlgoParts(v, o)) && (v < 21 ==> NoneThere(AlgoParts(v, o)))
  {
    hide Clean, NoNul, Rows, TagParts;
    TagEven(v >= 21 && o.algoStrategy != "", "algoParamsCount", o.algoParams);
  }

  lemma AlgoBodyReads(sv: int, t: Trace, v: int, o: OpenOrder)
    requires Avoids(t, 4) && GoodOrder(o) && v >= 21
    ensures ReadsParts(OpenOrderAlgo().body, sv, t, AlgoParts(v, o))
  {
    hide ReadsParts, Labelled, Clean, Rows, NoNul, Lookup, Avoids, TagParts;
    AlgoEven(v, o);
    var l, p := OpenOrderAlgo().body, AlgoParts(v, o)[0];
    var tags := TagParts(o.algoStrategy != "", "algoParamsCount", o.algoParams);
    var t1 := t + FieldsIn(p);
    OneField("algoStrategy", o.algoStrategy);
    LookupTested(t, 4, o.algoStrategy, []);
    CleanOne(o.algoStrategy);
    AvoidsLater(t, 4, 5);
    assert Clear(p.names, 5);
    AvoidsMore(t, p, 5);
    TagEven(o.algoStrategy != "", "algoParamsCount", o.algoParams);
    if o.algoStrategy != "" {
      TagsRead(5, sv, t1, o.algoParams);
    }
    assert tags + [] == tags;
    PartsEnd(sv, t1 + AllFields(tags));
    PartsNested(l.rest, sv, t1, tags, []);
    PartsFields(l, sv, t, p, tags);
  }

  lemma AlgoReads(sv: int, t: Trace, v: int, o: OpenOrder)
    requires VersionIs(t, v) && Avoids(t, 4) && GoodOrder(o)
    ensures Even(AlgoParts(v, o) + StateParts(o)) && ReadsParts(OpenOrderAlgo(), sv, t, AlgoParts(v, o) + StateParts(o))
  {
    hide ReadsParts, Labelled, Clean, Rows, NoNul, Avoids, AlgoParts, StateParts, VersionIs;
    VersionOf(t, v);
    AlgoEven(v, o);
    StateReads(sv, t + AllFields(AlgoParts(v, o)), o);
    if v >= 21 {
      AlgoBodyReads(sv, t, v, o);
    }
    AllAppend(AlgoParts(v, o), StateParts(o));
    PartsNested(OpenOrderAlgo(), sv, t, AlgoParts(v, o), StateParts(o));
  }

  lemma UnderCompBodyReads(sv: int, t: Trace, v: int, o: OpenOrder)
    requires Avoids(t, 3) && GoodOrder(o) && v >= 20
    ensures Even(UnderCompParts(v, o)) && ReadsParts(OpenOrderUnderComp().rest.body, sv, t, UnderCompParts(v, o))
  {
    hide ReadsParts, Labelled, Clean, Rows, NoNul, Lookup, Avoids, IntText, Atoi;
    var l, parts := OpenOrderUnderComp().rest.body, UnderCompParts(v, o);
    var p := parts[0];
    var t1 := t + FieldsIn(p);
    OneField("underCompPresent", IntText(o.underCompPresent));
    LookupTested(t, 3, IntText(o.underCompPresent), []);
    AtoiIntText(o.underCompPresent);
    IntTextClean(o.underCompPresent);
    CleanOne(IntText(o.underCompPresent));
    PartsEnd(sv, t1 + FieldsIn(parts[1]));
    PartsOptional(l.rest, sv, t1, parts[1], []);
    PartsFields(l, sv, t, p, [parts[1]] + []);
  }

  lemma UnderCompReads(sv: int, t: Trace, v: int, o: OpenOrder)
    requires VersionIs(t, v) && Avoids(t, 3) && GoodOrder(o)
    ensures var parts := UnderCompParts(v, o) + (AlgoParts(v, o) + StateParts(o));
      Even(parts) && ReadsParts(OpenOrderUnderComp().rest, sv, t, parts)
  {
    hide ReadsParts, Labelled, Clean, Rows, NoNul, Avoids, AlgoParts, StateParts, VersionIs, IntText;
    var inner := UnderCompParts(v, o);
    VersionOf(t, v);
    VersionStays(t, AllFields(inner), v);
    AvoidsLater(t, 3, 4);
    assert Clear(inner[0].names, 4) && Clear(inner[1].names, 4);
    AvoidsParts(t, inner, 4);
    AlgoReads(sv, t + AllFields(inner), v, o);
    if v >= 20 {
      UnderCompBodyReads(sv, t, v, o);
    }
    AllAppend(inner, AlgoParts(v, o) + StateParts(o));
    PartsNested(OpenOrderUnderComp().rest, sv, t, inner, AlgoParts(v, o) + StateParts(o));
  }

  lemma ClearingReads(sv: int, t: Trace, v: int, o: OpenOrder)
    requires VersionIs(t, v) && Avoids(t, 3) && GoodOrder(o)
    ensures Even(ClearingParts(v, o)) && ReadsParts(OpenOrderClearing(), sv, t, ClearingParts(v, o))
  {
    hide ReadsParts, Labelled, Clean, Rows, NoNul, Avoids, AlgoParts, StateParts, UnderCompParts, VersionIs, Clear;
    var l, more := OpenOrderClearing(), UnderCompParts(v, o) + (AlgoParts(v, o) + StateParts(o));
    var p, q, r := Part(v >= 25, ["optOutSmartRouting"], [o.optOut]),
                   Part(true, ["clearingAccount", "clearingIntent"], o.clearing), Part(v >= 22, ["notHeld"], [o.notHeld]);
    var t1 := t + FieldsIn(p);
    var t2 := t1 + FieldsIn(q);
    var t3 := t2 + FieldsIn(r);
    VersionStays(t, FieldsIn(p), v);
    VersionStays(t1, FieldsIn(q), v);
    VersionStays(t2, FieldsIn(r), v);
    VersionOf(t, v);
    VersionOf(t2, v);
    ClearingClear();
    AvoidsMore(t, p, 3);
    AvoidsMore(t1, q, 3);
    AvoidsMore(t2, r, 3);
    CleanOne(o.optOut);
    CleanOne(o.notHeld);
    UnderCompReads(sv, t3, v, o);
    PartsOptional(l.rest.rest, sv, t2, r, more);
    PartsFields(l.rest, sv, t1, q, [r] + more);
    PartsOptional(l, sv, t, p, [q] + ([r] + more));
    OnePart(r, more);
    OnePart(q, [r] + more);
    OnePart(p, [q] + ([r] + more));
  }

  lemma ClearingClear()
    ensures Clear(["optOutSmartRouting"], 3) && Clear(["clearingAccount", "clearingIntent"], 3) && Clear(["notHeld"], 3)
  {
  }

  lemma HedgeBodyReads(sv: int, t: Trace, v: int, o: OpenOrder)
    requires Avoids(t, 2) && GoodOrder(o) && v >= 24
    ensures Even(HedgeParts(v, o)) && ReadsParts(OpenOrderHedge().rest.body, sv, t, HedgeParts(v, o))
  {
    hide ReadsParts, Labelled, Clean, Rows, NoNul, Lookup, Avoids;
    var l, parts := OpenOrderHedge().rest.body, HedgeParts(v, o);
    var t1 := t + FieldsIn(parts[0]);
    OneField("hedgeType", o.hedgeType);
    LookupTested(t, 2, o.hedgeType, []);
    CleanOne(o.hedgeType);
    CleanOne(o.hedgeParam);
    PartsEnd(sv, t1 + FieldsIn(parts[1]));
    PartsOptional(l.rest, sv, t1, parts[1], []);
    PartsFields(l, sv, t, parts[0], [parts[1]] + []);
  }

  lemma HedgeReads(sv: int, t: Trace, v: int, o: OpenOrder)
    requires VersionIs(t, v) && Avoids(t, 2) && GoodOrder(o)
    ensures Even(HedgeParts(v, o) + ClearingParts(v, o))
    ensures ReadsParts(OpenOrderHedge().rest, sv, t, HedgeParts(v, o) + ClearingParts(v, o))
  {
    hide ReadsParts, Labelled, Clean, Rows, NoNul, Avoids, ClearingParts, VersionIs;
    var inner := HedgeParts(v, o);
    VersionOf(t, v);
    VersionStays(t, AllFields(inner), v);
    AvoidsLater(t, 2, 3);
    assert Clear(inner[0].names, 3) && Clear(inner[1].names, 3);
    AvoidsParts(t, inner, 3);
    ClearingReads(sv, t + AllFields(inner), v, o);
    if v >= 24 {
      HedgeBodyReads(sv, t, v, o);
    }
    AllAppend(inner, ClearingParts(v, o));
    PartsNested(OpenOrderHedge().rest, sv, t, inner, ClearingParts(v, o));
  }

  lemma ScaleReads(sv: int, t: Trace, v: int, o: OpenOrder)
    requires VersionIs(t, v) && Avoids(t, 2) && GoodOrder(o)
    ensures Even(ScaleParts(v, o)) && ReadsParts(OpenOrderScale(), sv, t, ScaleParts(v, o))
  {
    hide ReadsParts, Labelled, Clean, Rows, NoNul, Avoids, HedgeParts, ClearingParts, VersionIs, Clear;
    var l, more := OpenOrderScale(), HedgeParts(v, o) + ClearingParts(v, o);
    var p, q, r := Part(v >= 20, ["scaleInitLevelSize", "scaleSubsLevelSize"], o.scaleSizes),
                   Part(v < 20, ["notSuppScaleNumComponents", "scaleInitLevelSize"], o.scaleSizes),
                   Part(true, ["scalePriceIncrement"], [o.scalePriceIncrement]);
    var t1 := t + FieldsIn(p);
    var t2 := t1 + FieldsIn(q);
    var t3 := t2 + FieldsIn(r);
    VersionStays(t, FieldsIn(p), v);
    VersionStays(t1, FieldsIn(q), v);
    VersionStays(t2, FieldsIn(r), v);
    VersionOf(t, v);
    VersionOf(t1, v);
    ScaleClear();
    AvoidsMore(t, p, 2);
    AvoidsMore(t1, q, 2);
    AvoidsMore(t2, r, 2);
    CleanOne(o.scalePriceIncrement);
    HedgeReads(sv, t3, v, o);
    PartsFields(l.rest.rest, sv, t2, r, more);
    PartsOptional(l.rest, sv, t1, q, [r] + more);
    PartsOptional(l, sv, t, p, [q] + ([r] + more));
    OnePart(r, more);
    OnePart(q, [r] + more);
    OnePart(p, [q] + ([r] + more));
  }

  lemma ScaleClear()
    ensures Clear(["scaleInitLevelSize", "scaleSubsLevelSize"], 2) && Clear(["scalePriceIncrement"], 2)
    ensures Clear(["notSuppScaleNumComponents", "scaleInitLevelSize"], 2)
  {
  }

  lemma ComboReads(sv: int, t: Trace, v: int, o: OpenOrder)
    requires VersionIs(t, v) && Avoids(t, 1) && GoodOrder(o)
    ensures Even(ComboParts(v, o)) && ReadsParts(OpenOrderCombo(), sv, t, ComboParts(v, o))
  {
    hide ReadsParts, Labelled, Clean, Rows, NoNul, Avoids, TagParts, ScaleParts, VersionIs, Clear;
    var l, p := OpenOrderCombo(), ComboParts(v, o)[0];
    var tags, more := TagParts(v >= 26, "smartComboRoutingParamsCount", o.combo), ScaleParts(v, o);
    var t1 := t + FieldsIn(p);
    TagEven(v >= 26, "smartComboRoutingParamsCount", o.combo);
    var t2 := t1 + AllFields(tags);
    VersionStays(t, FieldsIn(p), v);
    VersionStays(t1, AllFields(tags), v);
    VersionOf(t1, v);
    ComboClear();
    AvoidsMore(t, p, 1);
    AvoidsLater(t1, 1, 2);
    TagPartsClear(v >= 26, o.combo);
    AvoidsParts(t1, tags, 2);
    if v >= 26 {
      TagsRead(1, sv, t1, o.combo);
    }
    ScaleReads(sv, t2, v, o);
    AllAppend(tags, more);
    PartsNested(l.rest, sv, t1, tags, more);
    PartsFields(l, sv, t, p, tags + more);
    OnePart(p, tags + more);
  }

  lemma ComboClear()
    ensures Clear(["continuousUpdate", "referencePriceType", "trailStopPrice", "basisPoints", "basisPointsType",
                   "comboLegsDescrip"], 1)
  {
  }

  lemma TagPartsClear(there: bool, rows: seq<seq<string>>)
    ensures var parts := TagParts(there, "smartComboRoutingParamsCount", rows);
      forall k :: 0 <= k < |parts| ==> Clear(parts[k].names, 2)
  {
    hide Repeated;
    TagsClear(|rows|);
  }

  lemma VolatilityReads(sv: int, t: Trace, v: int, o: OpenOrder)
    requires VersionIs(t, v) && Avoids(t, 0) && GoodOrder(o)
    ensures Even(VolatilityParts(v, o)) && ReadsParts(OpenOrderVolatility(), sv, t, VolatilityParts(v, o))
  {
    hide ReadsParts, Labelled, Clean, Rows, NoNul, Avoids, ComboParts, VersionIs, Clear, Lookup, OpenOrderCombo;
    var l, parts, more := OpenOrderVolatility(), VolatilityParts(v, o), ComboParts(v, o);
    var p, q, r := parts[0], parts[1], parts[2];
    var t1 := t + FieldsIn(p);
    var t2 := t1 + FieldsIn(q);
    var t3 := t2 + FieldsIn(r);
    VersionStays(t, FieldsIn(p), v);
    VersionStays(t1, FieldsIn(q), v);
    VersionStays(t2, FieldsIn(r), v);
    VersionOf(t2, v);
    MiddleClear();
    AvoidsMore(t, p, 0);
    DeltaNeutralLookup(t1, o.deltaNeutralOrderType, o.deltaNeutralAuxPrice);
    AvoidsLater(t1, 0, 1);
    AvoidsMore(t1, q, 1);
    AvoidsMore(t2, r, 1);
    ComboReads(sv, t3, v, o);
    PartsOptional(l.rest, sv, t2, r, more);
    PartsPair(l, sv, t, p, q, [r] + more);
    OnePart(r, more);
    OnePart(q, [r] + more);
    OnePart(p, [q] + ([r] + more));
  }

  lemma DeltaNeutralLookup(t: Trace, orderType: string, auxPrice: string)
    requires Avoids(t, 0)
    ensures Lookup(t + Labelled(["deltaNeutralOrderType", "deltaNeutralAuxPrice"], [orderType, auxPrice]),
                   "deltaNeutralOrderType") == orderType
  {
    hide Lookup, Labelled;
    var names: seq<string> := ["deltaNeutralOrderType", "deltaNeutralAuxPrice"];
    assert TESTED[0] == names[0];
    LookupBehind(t, Labelled(names, [orderType, auxPrice]), names[0]);
    LabelledLookup(names, [orderType, auxPrice], [], 0);
  }

  lemma MiddleClear()
    ensures Clear(["auctionStrategy", "startingPrice", "stockRefPrice", "delta", "stockRangeLower", "stockRangeUpper",
                   "displaySize", "blockOrder", "sweepToFill", "allOrNone", "minQty", "ocaType", "eTradeOnly",
                   "firmQuoteOnly", "nbboPriceCap", "parentId", "triggerMethod", "volatility", "volatilityType"], 0)
    ensures Clear(["deltaNeutralOrderType", "deltaNeutralAuxPrice"], 1)
    ensures Clear(["deltaNeutralConId", "deltaNeutralSettlingFirm", "deltaNeutralClearingAccount",
                   "deltaNeutralClearingIntent"], 1)
  {
  }

  lemma ExemptReads(sv: int, t: Trace, v: int, o: OpenOrder)
    requires VersionIs(t, v) && Avoids(t, 0) && GoodOrder(o)
    ensures Even(ExemptParts(sv, v, o)) && ReadsParts(OpenOrderExempt(), sv, t, ExemptParts(sv, v, o))
  {
    hide ReadsParts, Labelled, Clean, Rows, NoNul, Avoids, VolatilityParts, OpenOrderVolatility, VersionIs, Clear;
    var l, more := OpenOrderExempt(), VolatilityParts(v, o);
    var q, r := Part(sv == 51, ["exemptCodeOld"], [o.exempt]), Part(sv != 51 && v >= 23, ["exemptCode"], [o.exempt]);
    var t1 := t + FieldsIn(q);
    var t2 := t1 + FieldsIn(r);
    VersionStays(t, FieldsIn(q), v);
    VersionStays(t1, FieldsIn(r), v);
    VersionOf(t1, v);
    ExemptClear();
    AvoidsMore(t, q, 0);
    AvoidsMore(t1, r, 0);
    CleanOne(o.exempt);
    VolatilityReads(sv, t2, v, o);
    assert Holds(Not(ServerIs(51)), sv, t1) <==> !Holds(ServerIs(51), sv, t1);
    PartsOptional(l.rest, sv, t1, r, more);
    PartsOptional(l, sv, t, q, [r] + more);
    OnePart(r, more);
    OnePart(q, [r] + more);
  }

  lemma ExemptClear()
    ensures Clear(["exemptCodeOld"], 0) && Clear(["exemptCode"], 0)
  {
  }

  lemma HeadReads(l: Layout, sv: int, v: int, p: Part, o: OpenOrder)
    requires IsInt32(v) && GoodOrder(o) && p.there && |p.names| == |p.texts| && Clean(p.texts) && Clear(p.names, 0)
    requires l.Fields? && l.names == ["version"] + p.names && l.rest == OpenOrderExempt()
    ensures Even(ExemptParts(sv, v, o)) && ReadsParts(l, sv, [], [VersionPart(v)] + ([p] + ExemptParts(sv, v, o)))
  {
    hide ReadsParts, Labelled, Clean, Rows, NoNul, Avoids, ExemptParts, OpenOrderExempt, VersionIs, Clear, IntText;
    var first, more := VersionPart(v), ExemptParts(sv, v, o);
    VersionFirst(v);
    var t0 := [] + FieldsIn(first);
    assert t0 == FieldsIn(first);
    VersionStays(t0, FieldsIn(p), v);
    VersionAvoids(v);
    AvoidsMore(t0, p, 0);
    ExemptReads(sv, t0 + FieldsIn(p), v, o);
    PartsPair(l, sv, [], first, p, more);
  }

  lemma OpenOrderReads(sv: int, v: int, o: OpenOrder)
    requires IsInt32(v) && GoodOrder(o)
    ensures Even(OpenOrderParts(sv, v, o)) && ReadsParts(OpenOrderLayout(), sv, [], [VersionPart(v)] + OpenOrderParts(sv, v, o))
  {
    hide ReadsParts, Clean, Rows, NoNul, ExemptParts, OpenOrderExempt, Clear, IntText, VersionPart, TextsIn, FieldsIn;
    var p := OpenOrderParts(sv, v, o)[0];
    HeadClear(p.names);
    HeadClean(o);
    HeadReads(OpenOrderLayout(), sv, v, p, o);
    OnePart(p, ExemptParts(sv, v, o));
  }

  lemma VersionAvoids(v: int)
    ensures Avoids([Field("version", IntText(v))], 0)
  {
  }

  lemma HeadClean(o: OpenOrder)
    requires GoodOrder(o)
    ensures Clean([IntText(o.orderId)] + o.head)
  {
    IntTextClean(o.orderId);
  }

  lemma FirstHalfClear()
    ensures Clear(["orderId", "conId", "symbol", "secType", "expiry", "strike", "right", "exchange", "currency", "localSymbol",
                   "action", "totalQuantity", "orderType", "lmtPrice", "auxPrice", "tif", "ocaGroup", "account", "openClose"], 0)
  {
  }

  lemma SecondHalfClear()
    ensures Clear(["orderOriginInt", "orderRef", "clientId", "permId", "outsideRth", "hidden", "discretionaryAmt",
                   "goodAfterTime", "sharesAllocation", "faGroup", "faMethod", "faPercentage", "faProfile", "goodTillDate",
                   "rule80A", "percentOffset", "settlingFirm", "shortSaleSlot", "designatedLocation"], 0)
  {
  }

  lemma ClearBoth(a: seq<string>, b: seq<string>, from: nat)
    requires Clear(a, from) && Clear(b, from)
    ensures Clear(a + b, from)
  {
  }

  lemma HeadClear(names: seq<string>)
    requires names ==
      ["orderId", "conId", "symbol", "secType", "expiry", "strike", "right", "exchange", "currency", "localSymbol",
       "action", "totalQuantity", "orderType", "lmtPrice", "auxPrice", "tif", "ocaGroup", "account", "openClose"]
      + ["orderOriginInt", "orderRef", "clientId", "permId", "outsideRth", "hidden", "discretionaryAmt",
       "goodAfterTime", "sharesAllocation", "faGroup", "faMethod", "faPercentage", "faProfile", "goodTillDate",
       "rule80A", "percentOffset", "settlingFirm", "shortSaleSlot", "designatedLocation"]
    ensures Clear(names, 0)
  {
    FirstHalfClear();
    SecondHalfClear();
    ClearBoth(["orderId", "conId", "symbol", "secType", "expiry", "strike", "right", "exchange", "currency", "localSymbol",
              "action", "totalQuantity", "orderType", "lmtPrice", "auxPrice", "tif", "ocaGroup", "account", "openClose"],
              ["orderOriginInt", "orderRef", "clientId", "permId", "outsideRth", "hidden", "discretionaryAmt",
              "goodAfterTime", "sharesAllocation", "faGroup", "faMethod", "faPercentage", "faProfile", "goodTillDate",
              "rule80A", "percentOffset", "settlingFirm", "shortSaleSlot", "designatedLocation"], 0);
  }

  /** OPEN_ORDER. */
  lemma OpenOrderDelivered(c: Link, v: int, o: OpenOrder, other: string)
    requires c.connected && IsInt32(v) && GoodOrder(o)
    ensures var parts := [VersionPart(v)] + OpenOrderParts(c.serverVersion, v, o);
      && Even(parts)
      && NextTurn(TWS, c, MessageBytes(5, AllTexts(parts)) + other)
         == Take(c, other, [Call("openOrder", [IntArg(o.orderId), RecordArg(AllFields(parts))])])
  {
    hide ReadsParts, Labelled, VersionIs, NoNul, NextTurn, MessageBytes, IntText, Atoi, Lookup, AllTexts, AllFields,
         OpenOrderLayout, ContractLayout, BondLayout, ExecutionLayout, PortfolioLayout, TickOptionLayout,
         HistoricalLayout, ScannerLayout, HistoricalCalls, ScannerCalls, TickPriceCalls, OpenOrderParts, GoodOrder;
    var parts := OpenOrderParts(c.serverVersion, v, o);
    OpenOrderReads(c.serverVersion, v, o);
    OnePart(VersionPart(v), parts);
    PartsDelivered(c, 5, OpenOrderLayout(), [VersionPart(v)] + parts, other);
    OrderIdOf(c.serverVersion, v, o);
  }

  lemma OrderIdOf(sv: int, v: int, o: OpenOrder)
    requires GoodOrder(o) && Even(OpenOrderParts(sv, v, o))
    ensures Even([VersionPart(v)] + OpenOrderParts(sv, v, o))
    ensures IntOf(AllFields([VersionPart(v)] + OpenOrderParts(sv, v, o)), "orderId") == o.orderId
  {
    hide Labelled, Lookup, AllFields, IntText, Clean, Rows, NoNul, Atoi, VolatilityParts;
    var parts := OpenOrderParts(sv, v, o);
    assert [VersionPart(v)] + parts == [VersionPart(v)] + ([parts[0]] + parts[1..]);
    LookupIn([VersionPart(v)], parts[0], parts[1..], 0);
    AtoiIntText(o.orderId);
  }
}
