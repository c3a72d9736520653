/**
  From the wire to the application: what each message makes, with the fields and the arguments of
  the callback written out.  An integer stands on the wire as its decimal text; what the client
  decodes with atof is passed on as text.
*/
module IbCallbacks {
  import opened Sequences
  import opened Wrappers
  import opened Decimal
  import opened IbFields
  import opened IbLayout
  import opened IbStream
  import opened IbProtocol
  import opened IbMessages
  import opened IbDelivery

  // ------------------------------------------------------------------------------------------
  // The acknowledgement, and messages that the client does not know
  // ------------------------------------------------------------------------------------------

  /** A server 38 or later is taken with its time, and is sent the client id. */
  lemma AckDelivered(c: Link, version: int, time: string, other: string)
    requires !c.connected && IsInt32(version) && version >= 38 && NoNul(time)
    ensures NextTurn(TWS, c, IntText(version) + [NUL] + (time + [NUL] + other))
         == Take(Link(c.open, true, version, time, c.clientId), other, [Submitted(IntText(c.clientId) + [NUL])])
  {
    hide IntText, Atoi, NextField;
    AtoiIntText(version);
    IntTextClean(version);
    NextFieldOf(IntText(version), time + [NUL] + other);
    NextFieldOf(time, other);
  }

  /** An older server is refused: from version 20 on when its time is there, before that at once. */
  lemma OldServerRefused(c: Link, version: int, time: string, other: string)
    requires !c.connected && IsInt32(version) && version < 38 && NoNul(time)
    ensures NextTurn(TWS, c, IntText(version) + [NUL] + (time + [NUL] + other)) == Refuse([Error(-1, 503)])
    ensures version < 20 ==> NextTurn(TWS, c, IntText(version) + [NUL] + other) == Refuse([Error(-1, 503)])
  {
    hide IntText, Atoi, NextField;
    AtoiIntText(version);
    IntTextClean(version);
    NextFieldOf(IntText(version), time + [NUL] + other);
    NextFieldOf(IntText(version), other);
    NextFieldOf(time, other);
  }

  /** A message of another type is reported and ends the connection. */
  lemma UnknownDelivered(c: Link, msgId: int, other: string)
    requires c.connected && IsInt32(msgId)
    requires msgId < 1 || 21 < msgId < 45 || msgId == 48 || msgId > 58
    ensures NextTurn(TWS, c, IntText(msgId) + [NUL] + other)
         == Take(Link(false, false, 0, "", -1), other, [Error(msgId, 505), ConnectionClosed])
  {
    hide IntText, Atoi, NextField, Parse, OpenOrderLayout, ContractLayout, BondLayout, ExecutionLayout, PortfolioLayout,
         TickOptionLayout, HistoricalLayout, ScannerLayout;
    TakesId(msgId, other);
  }

  // ------------------------------------------------------------------------------------------
  // Messages whose callback gets the fields behind the version, in order
  // ------------------------------------------------------------------------------------------

  datatype Value = N(n: int) | S(s: string)

  function TextOf(v: Value): string {
    if v.N? then IntText(v.n) else v.s
  }

  function ArgOf(v: Value): Arg {
    if v.N? then IntArg(v.n) else TextArg(v.s)
  }

  function SpecOf(name: string, v: Value): ArgSpec {
    if v.N? then AsInt(name) else AsText(name)
  }

  function TextsOf(values: seq<Value>): (texts: seq<string>)
    ensures |texts| == |values| && forall k :: 0 <= k < |values| ==> texts[k] == TextOf(values[k])
  {
    seq(|values|, k requires 0 <= k < |values| => TextOf(values[k]))
  }

  function ArgsOf(values: seq<Value>): (args: seq<Arg>)
    ensures |args| == |values| && forall k :: 0 <= k < |values| ==> args[k] == ArgOf(values[k])
  {
    seq(|values|, k requires 0 <= k < |values| => ArgOf(values[k]))
  }

  function SpecsOf(names: seq<string>, values: seq<Value>): (specs: seq<ArgSpec>)
    requires |names| == |values| + 1
    ensures |specs| == |values| && forall k :: 0 <= k < |values| ==> specs[k] == SpecOf(names[k + 1], values[k])
  {
    seq(|values|, k requires 0 <= k < |values| => SpecOf(names[k + 1], values[k]))
  }

  ghost predicate Int32s(ns: seq<int>) {
    forall n :: n in ns ==> IsInt32(n)
  }

  ghost predicate Sendable(values: seq<Value>) {
    forall k :: 0 <= k < |values| ==> if values[k].N? then IsInt32(values[k].n) else NoNul(values[k].s)
  }

  ghost predicate Different(names: seq<string>) {
    forall j, k :: 0 <= j < k < |names| ==> names[j] != names[k]
  }

  lemma ArgIs(t: Trace, name: string, v: Value)
    requires Lookup(t, name) == TextOf(v) && (v.N? ==> IsInt32(v.n))
    ensures (if SpecOf(name, v).AsInt? then I(t, SpecOf(name, v).name) else X(t, SpecOf(name, v).name)) == ArgOf(v)
  {
    if v.N? {
      AtoiIntText(v.n);
    }
  }

  lemma {:induction false} ArgsAre(t: Trace, specs: seq<ArgSpec>)
    ensures |Args(t, specs)| == |specs|
    ensures forall k :: 0 <= k < |specs| ==>
              Args(t, specs)[k] == if specs[k].AsInt? then I(t, specs[k].name) else X(t, specs[k].name)
  {
    if specs != [] {
      ArgsAre(t, specs[1..]);
    }
  }

  lemma SendableIsClean(version: string, values: seq<Value>)
    requires NoNul(version) && Sendable(values)
    ensures Clean([version] + TextsOf(values))
  {
    forall s | s in [version] + TextsOf(values) ensures NoNul(s) {
      if s != version {
        var k :| 0 <= k < |values| && TextsOf(values)[k] == s;
        if values[k].N? {
          IntTextClean(values[k].n);
        }
      }
    }
  }

  /** Such a message, whatever it is called. */
  lemma InOrder(c: Link, msgId: int, callback: string, names: seq<string>, version: string, values: seq<Value>, other: string)
    requires c.connected && IsInt32(msgId) && NoNul(version) && Sendable(values)
    requires |names| == |values| + 1 && Different(names) && LayoutOf(msgId) == Some(Run(names))
    requires var t := Labelled(names, [version] + TextsOf(values));
      CallsOf(msgId, t) == [Call(callback, Args(t, SpecsOf(names, values)))]
    ensures NextTurn(TWS, c, MessageBytes(msgId, [version] + TextsOf(values)) + other)
         == Take(c, other, [Call(callback, ArgsOf(values))])
  {
    hide LayoutOf, CallsOf, NextTurn, Parse, Lookup, Atoi, IntText, Bytes, MessageBytes, Labelled, Args, Clean;
    var texts := [version] + TextsOf(values);
    var t, specs := Labelled(names, texts), SpecsOf(names, values);
    SendableIsClean(version, values);
    TakesRun(names, texts, c.serverVersion, other);
    TakesMessage(c, msgId, texts, t, other);
    ArgsAre(t, specs);
    forall k | 0 <= k < |values| ensures Args(t, specs)[k] == ArgsOf(values)[k] {
      LabelledLookup(names, texts, [], k + 1);
      ArgIs(t, names[k + 1], values[k]);
    }
    assert Args(t, specs) == ArgsOf(values);
  }

  /** TICK_SIZE. */
  lemma TickSizeDelivered(c: Link, version: string, tickerId: int, tickTypeInt: int, size: int, other: string)
    requires c.connected && Clean([version])
    requires Int32s([tickerId, tickTypeInt, size])
    ensures NextTurn(TWS, c, MessageBytes(2, [version, IntText(tickerId), IntText(tickTypeInt),
      IntText(size)]) + other)
         == Take(c, other, [Call("tickSize", [IntArg(tickerId), IntArg(tickTypeInt), IntArg(size)])])
  {
    hide NextTurn, Parse, Lookup, Atoi, IntText, Bytes, MessageBytes, Labelled, Args, NoNul, OpenOrderLayout,
         ContractLayout, BondLayout, ExecutionLayout, PortfolioLayout, TickOptionLayout, HistoricalLayout, ScannerLayout,
         HistoricalCalls, ScannerCalls, TickPriceCalls, ReqId;
    var names: seq<string> := ["version", "tickerId", "tickTypeInt", "size"];
    var values: seq<Value> := [N(tickerId), N(tickTypeInt), N(size)];
    assert SpecsOf(names, values) == [AsInt("tickerId"), AsInt("tickTypeInt"), AsInt("size")];
    assert [version] + TextsOf(values) == [version, IntText(tickerId), IntText(tickTypeInt), IntText(size)];
    assert ArgsOf(values) == [IntArg(tickerId), IntArg(tickTypeInt), IntArg(size)];
    InOrder(c, 2, "tickSize", names, version, values, other);
  }

  lemma OrderStatusNames()
    ensures Different(["version", "orderId", "status", "filled", "remaining",
      "avgFillPrice", "permId", "parentId", "lastFillPrice", "clientId", "whyHeld"])
  {
  }

  lemma OrderStatusTable(t: Trace)
    ensures LayoutOf(3) == Some(Run(["version", "orderId", "status", "filled", "remaining", "avgFillPrice", "permId",
      "parentId", "lastFillPrice", "clientId", "whyHeld"]))
    ensures CallsOf(3, t) == [Call("orderStatus", Args(t, [AsInt("orderId"), AsText("status"), AsInt("filled"), AsInt("remaining"),
      AsText("avgFillPrice"), AsInt("permId"), AsInt("parentId"), AsText("lastFillPrice"), AsInt("clientId"),
      AsText("whyHeld")]))]
  {
    hide Args, Lookup, Atoi, OpenOrderLayout, ContractLayout, BondLayout, ExecutionLayout, PortfolioLayout, TickOptionLayout,
         HistoricalLayout, ScannerLayout, HistoricalCalls, ScannerCalls, TickPriceCalls, ReqId;
  }

  /** ORDER_STATUS. */
  lemma OrderStatusDelivered(c: Link, version: string, orderId: int, status: string, filled: int, remaining: int,
      avgFillPrice: string, permId: int, parentId: int, lastFillPrice: string, clientId: int, whyHeld: string,
      other: string)
    requires c.connected && Clean([version, status, avgFillPrice, lastFillPrice, whyHeld])
    requires Int32s([orderId, filled, remaining, permId, parentId, clientId])
    ensures NextTurn(TWS, c, MessageBytes(3, [version, IntText(orderId), status, IntText(filled), IntText(remaining),
      avgFillPrice, IntText(permId), IntText(parentId), lastFillPrice, IntText(clientId), whyHeld]) + other)
         == Take(c, other, [Call("orderStatus", [IntArg(orderId), TextArg(status), IntArg(filled), IntArg(remaining),
              TextArg(avgFillPrice), IntArg(permId), IntArg(parentId), TextArg(lastFillPrice), IntArg(clientId),
              TextArg(whyHeld)])])
  {
    hide NextTurn, Parse, Lookup, Atoi, IntText, Bytes, MessageBytes, Labelled, Args, NoNul, Different,
         LayoutOf, CallsOf, Run;
    var names: seq<string> := ["version", "orderId", "status", "filled", "remaining", "avgFillPrice", "permId",
      "parentId", "lastFillPrice", "clientId", "whyHeld"];
    var values: seq<Value> := [N(orderId), S(status), N(filled), N(remaining), S(avgFillPrice), N(permId),
      N(parentId), S(lastFillPrice), N(clientId), S(whyHeld)];
    OrderStatusNames();
    OrderStatusTable(Labelled(names, [version] + TextsOf(values)));
    assert SpecsOf(names, values) == [AsInt("orderId"), AsText("status"), AsInt("filled"), AsInt("remaining"),
      AsText("avgFillPrice"), AsInt("permId"), AsInt("parentId"), AsText("lastFillPrice"), AsInt("clientId"),
      AsText("whyHeld")];
    assert [version] + TextsOf(values) == [version, IntText(orderId), status, IntText(filled), IntText(remaining),
      avgFillPrice, IntText(permId), IntText(parentId), lastFillPrice, IntText(clientId), whyHeld];
    assert ArgsOf(values) == [IntArg(orderId), TextArg(status), IntArg(filled), IntArg(remaining),
      TextArg(avgFillPrice), IntArg(permId), IntArg(parentId), TextArg(lastFillPrice), IntArg(clientId),
      TextArg(whyHeld)];
    InOrder(c, 3, "orderStatus", names, version, values, other);
  }

  /** ERR_MSG. */
  lemma ErrMsgDelivered(c: Link, version: string, id: int, errorCode: int, errorMsg: string, other: string)
    requires c.connected && Clean([version, errorMsg])
    requires Int32s([id, errorCode])
    ensures NextTurn(TWS, c, MessageBytes(4, [version, IntText(id), IntText(errorCode), errorMsg]) + other)
         == Take(c, other, [Call("error", [IntArg(id), IntArg(errorCode), TextArg(errorMsg)])])
  {
    hide NextTurn, Parse, Lookup, Atoi, IntText, Bytes, MessageBytes, Labelled, Args, NoNul, OpenOrderLayout,
         ContractLayout, BondLayout, ExecutionLayout, PortfolioLayout, TickOptionLayout, HistoricalLayout, ScannerLayout,
         HistoricalCalls, ScannerCalls, TickPriceCalls, ReqId;
    var names: seq<string> := ["version", "id", "errorCode", "errorMsg"];
    var values: seq<Value> := [N(id), N(errorCode), S(errorMsg)];
    assert SpecsOf(names, values) == [AsInt("id"), AsInt("errorCode"), AsText("errorMsg")];
    assert [version] + TextsOf(values) == [version, IntText(id), IntText(errorCode), errorMsg];
    assert ArgsOf(values) == [IntArg(id), IntArg(errorCode), TextArg(errorMsg)];
    InOrder(c, 4, "error", names, version, values, other);
  }

  /** ACCT_VALUE. */
  lemma AcctValueDelivered(c: Link, version: string, key: string, val: string, cur: string, accountName: string,
      other: string)
    requires c.connected && Clean([version, key, val, cur, accountName])
    ensures NextTurn(TWS, c, MessageBytes(6, [version, key, val, cur, accountName]) + other)
         == Take(c, other, [Call("updateAccountValue", [TextArg(key), TextArg(val), TextArg(cur),
              TextArg(accountName)])])
  {
    hide NextTurn, Parse, Lookup, Atoi, IntText, Bytes, MessageBytes, Labelled, Args, NoNul, OpenOrderLayout,
         ContractLayout, BondLayout, ExecutionLayout, PortfolioLayout, TickOptionLayout, HistoricalLayout, ScannerLayout,
         HistoricalCalls, ScannerCalls, TickPriceCalls, ReqId;
    var names: seq<string> := ["version", "key", "val", "cur", "accountName"];
    var values: seq<Value> := [S(key), S(val), S(cur), S(accountName)];
    assert SpecsOf(names, values) == [AsText("key"), AsText("val"), AsText("cur"), AsText("accountName")];
    assert [version] + TextsOf(values) == [version, key, val, cur, accountName];
    assert ArgsOf(values) == [TextArg(key), TextArg(val), TextArg(cur), TextArg(accountName)];
    InOrder(c, 6, "updateAccountValue", names, version, values, other);
  }

  /** ACCT_UPDATE_TIME. */
  lemma AcctUpdateTimeDelivered(c: Link, version: string, accountTime: string, other: string)
    requires c.connected && Clean([version, accountTime])
    ensures NextTurn(TWS, c, MessageBytes(8, [version, accountTime]) + other)
         == Take(c, other, [Call("updateAccountTime", [TextArg(accountTime)])])
  {
    hide NextTurn, Parse, Lookup, Atoi, IntText, Bytes, MessageBytes, Labelled, Args, NoNul, OpenOrderLayout,
         ContractLayout, BondLayout, ExecutionLayout, PortfolioLayout, TickOptionLayout, HistoricalLayout, ScannerLayout,
         HistoricalCalls, ScannerCalls, TickPriceCalls, ReqId;
    var names: seq<string> := ["version", "accountTime"];
    var values: seq<Value> := [S(accountTime)];
    assert SpecsOf(names, values) == [AsText("accountTime")];
    assert [version] + TextsOf(values) == [version, accountTime];
    assert ArgsOf(values) == [TextArg(accountTime)];
    InOrder(c, 8, "updateAccountTime", names, version, values, other);
  }

  /** NEXT_VALID_ID. */
  lemma NextValidIdDelivered(c: Link, version: string, orderId: int, other: string)
    requires c.connected && Clean([version])
    requires Int32s([orderId])
    ensures NextTurn(TWS, c, MessageBytes(9, [version, IntText(orderId)]) + other)
         == Take(c, other, [Call("nextValidId", [IntArg(orderId)])])
  {
    hide NextTurn, Parse, Lookup, Atoi, IntText, Bytes, MessageBytes, Labelled, Args, NoNul, OpenOrderLayout,
         ContractLayout, BondLayout, ExecutionLayout, PortfolioLayout, TickOptionLayout, HistoricalLayout, ScannerLayout,
         HistoricalCalls, ScannerCalls, TickPriceCalls, ReqId;
    var names: seq<string> := ["version", "orderId"];
    var values: seq<Value> := [N(orderId)];
    assert SpecsOf(names, values) == [AsInt("orderId")];
    assert [version] + TextsOf(values) == [version, IntText(orderId)];
    assert ArgsOf(values) == [IntArg(orderId)];
    InOrder(c, 9, "nextValidId", names, version, values, other);
  }

  /** MARKET_DEPTH. */
  lemma MarketDepthDelivered(c: Link, version: string, id: int, position: int, operation: int, side: int,
      price: string, size: int, other: string)
    requires c.connected && Clean([version, price])
    requires Int32s([id, position, operation, side, size])
    ensures NextTurn(TWS, c, MessageBytes(12, [version, IntText(id), IntText(position), IntText(operation),
      IntText(side), price, IntText(size)]) + other)
         == Take(c, other, [Call("updateMktDepth", [IntArg(id), IntArg(position), IntArg(operation), IntArg(side),
              TextArg(price), IntArg(size)])])
  {
    hide NextTurn, Parse, Lookup, Atoi, IntText, Bytes, MessageBytes, Labelled, Args, NoNul, OpenOrderLayout,
         ContractLayout, BondLayout, ExecutionLayout, PortfolioLayout, TickOptionLayout, HistoricalLayout, ScannerLayout,
         HistoricalCalls, ScannerCalls, TickPriceCalls, ReqId;
    var names: seq<string> := ["version", "id", "position", "operation", "side", "price", "size"];
    var values: seq<Value> := [N(id), N(position), N(operation), N(side), S(price), N(size)];
    assert SpecsOf(names, values) == [AsInt("id"), AsInt("position"), AsInt("operation"), AsInt("side"),
      AsText("price"), AsInt("size")];
    assert [version] + TextsOf(values) == [version, IntText(id), IntText(position), IntText(operation), IntText(side),
      price, IntText(size)];
    assert ArgsOf(values) == [IntArg(id), IntArg(position), IntArg(operation), IntArg(side), TextArg(price),
      IntArg(size)];
    InOrder(c, 12, "updateMktDepth", names, version, values, other);
  }

  /** MARKET_DEPTH_L2. */
  lemma MarketDepthL2Delivered(c: Link, version: string, id: int, position: int, marketMaker: string, operation: int,
      side: int, price: string, size: int, other: string)
    requires c.connected && Clean([version, marketMaker, price])
    requires Int32s([id, position, operation, side, size])
    ensures NextTurn(TWS, c, MessageBytes(13, [version, IntText(id), IntText(position), marketMaker,
      IntText(operation), IntText(side), price, IntText(size)]) + other)
         == Take(c, other, [Call("updateMktDepthL2", [IntArg(id), IntArg(position), TextArg(marketMaker),
              IntArg(operation), IntArg(side), TextArg(price), IntArg(size)])])
  {
    hide NextTurn, Parse, Lookup, Atoi, IntText, Bytes, MessageBytes, Labelled, Args, NoNul, OpenOrderLayout,
         ContractLayout, BondLayout, ExecutionLayout, PortfolioLayout, TickOptionLayout, HistoricalLayout, ScannerLayout,
         HistoricalCalls, ScannerCalls, TickPriceCalls, ReqId;
    var names: seq<string> := ["version", "id", "position", "marketMaker", "operation", "side", "price", "size"];
    var values: seq<Value> := [N(id), N(position), S(marketMaker), N(operation), N(side), S(price), N(size)];
    assert SpecsOf(names, values) == [AsInt("id"), AsInt("position"), AsText("marketMaker"), AsInt("operation"),
      AsInt("side"), AsText("price"), AsInt("size")];
    assert [version] + TextsOf(values) == [version, IntText(id), IntText(position), marketMaker, IntText(operation),
      IntText(side), price, IntText(size)];
    assert ArgsOf(values) == [IntArg(id), IntArg(position), TextArg(marketMaker), IntArg(operation), IntArg(side),
      TextArg(price), IntArg(size)];
    InOrder(c, 13, "updateMktDepthL2", names, version, values, other);
  }

  /** NEWS_BULLETINS. */
  lemma NewsBulletinsDelivered(c: Link, version: string, msgId: int, msgType: int, newsMessage: string,
      originatingExch: string, other: string)
    requires c.connected && Clean([version, newsMessage, originatingExch])
    requires Int32s([msgId, msgType])
    ensures NextTurn(TWS, c, MessageBytes(14, [version, IntText(msgId), IntText(msgType), newsMessage,
      originatingExch]) + other)
         == Take(c, other, [Call("updateNewsBulletin", [IntArg(msgId), IntArg(msgType), TextArg(newsMessage),
              TextArg(originatingExch)])])
  {
    hide NextTurn, Parse, Lookup, Atoi, IntText, Bytes, MessageBytes, Labelled, Args, NoNul, OpenOrderLayout,
         ContractLayout, BondLayout, ExecutionLayout, PortfolioLayout, TickOptionLayout, HistoricalLayout, ScannerLayout,
         HistoricalCalls, ScannerCalls, TickPriceCalls, ReqId;
    var names: seq<string> := ["version", "msgId", "msgType", "newsMessage", "originatingExch"];
    var values: seq<Value> := [N(msgId), N(msgType), S(newsMessage), S(originatingExch)];
    assert SpecsOf(names, values) == [AsInt("msgId"), AsInt("msgType"), AsText("newsMessage"),
      AsText("originatingExch")];
    assert [version] + TextsOf(values) == [version, IntText(msgId), IntText(msgType), newsMessage, originatingExch];
    assert ArgsOf(values) == [IntArg(msgId), IntArg(msgType), TextArg(newsMessage), TextArg(originatingExch)];
    InOrder(c, 14, "updateNewsBulletin", names, version, values, other);
  }

  /** MANAGED_ACCTS. */
  lemma ManagedAcctsDelivered(c: Link, version: string, accountsList: string, other: string)
    requires c.connected && Clean([version, accountsList])
    ensures NextTurn(TWS, c, MessageBytes(15, [version, accountsList]) + other)
         == Take(c, other, [Call("managedAccounts", [TextArg(accountsList)])])
  {
    hide NextTurn, Parse, Lookup, Atoi, IntText, Bytes, MessageBytes, Labelled, Args, NoNul, OpenOrderLayout,
         ContractLayout, BondLayout, ExecutionLayout, PortfolioLayout, TickOptionLayout, HistoricalLayout, ScannerLayout,
         HistoricalCalls, ScannerCalls, TickPriceCalls, ReqId;
    var names: seq<string> := ["version", "accountsList"];
    var values: seq<Value> := [S(accountsList)];
    assert SpecsOf(names, values) == [AsText("accountsList")];
    assert [version] + TextsOf(values) == [version, accountsList];
    assert ArgsOf(values) == [TextArg(accountsList)];
    InOrder(c, 15, "managedAccounts", names, version, values, other);
  }

  /** RECEIVE_FA. */
  lemma ReceiveFaDelivered(c: Link, version: string, faDataTypeInt: int, cxml: string, other: string)
    requires c.connected && Clean([version, cxml])
    requires Int32s([faDataTypeInt])
    ensures NextTurn(TWS, c, MessageBytes(16, [version, IntText(faDataTypeInt), cxml]) + other)
         == Take(c, other, [Call("receiveFA", [IntArg(faDataTypeInt), TextArg(cxml)])])
  {
    hide NextTurn, Parse, Lookup, Atoi, IntText, Bytes, MessageBytes, Labelled, Args, NoNul, OpenOrderLayout,
         ContractLayout, BondLayout, ExecutionLayout, PortfolioLayout, TickOptionLayout, HistoricalLayout, ScannerLayout,
         HistoricalCalls, ScannerCalls, TickPriceCalls, ReqId;
    var names: seq<string> := ["version", "faDataTypeInt", "cxml"];
    var values: seq<Value> := [N(faDataTypeInt), S(cxml)];
    assert SpecsOf(names, values) == [AsInt("faDataTypeInt"), AsText("cxml")];
    assert [version] + TextsOf(values) == [version, IntText(faDataTypeInt), cxml];
    assert ArgsOf(values) == [IntArg(faDataTypeInt), TextArg(cxml)];
    InOrder(c, 16, "receiveFA", names, version, values, other);
  }

  /** SCANNER_PARAMETERS. */
  lemma ScannerParametersDelivered(c: Link, version: string, xml: string, other: string)
    requires c.connected && Clean([version, xml])
    ensures NextTurn(TWS, c, MessageBytes(19, [version, xml]) + other)
         == Take(c, other, [Call("scannerParameters", [TextArg(xml)])])
  {
    hide NextTurn, Parse, Lookup, Atoi, IntText, Bytes, MessageBytes, Labelled, Args, NoNul, OpenOrderLayout,
         ContractLayout, BondLayout, ExecutionLayout, PortfolioLayout, TickOptionLayout, HistoricalLayout, ScannerLayout,
         HistoricalCalls, ScannerCalls, TickPriceCalls, ReqId;
    var names: seq<string> := ["version", "xml"];
    var values: seq<Value> := [S(xml)];
    assert SpecsOf(names, values) == [AsText("xml")];
    assert [version] + TextsOf(values) == [version, xml];
    assert ArgsOf(values) == [TextArg(xml)];
    InOrder(c, 19, "scannerParameters", names, version, values, other);
  }

  /** TICK_GENERIC. */
  lemma TickGenericDelivered(c: Link, version: string, tickerId: int, tickTypeInt: int, value: string, other: string)
    requires c.connected && Clean([version, value])
    requires Int32s([tickerId, tickTypeInt])
    ensures NextTurn(TWS, c, MessageBytes(45, [version, IntText(tickerId), IntText(tickTypeInt), value]) + other)
         == Take(c, other, [Call("tickGeneric", [IntArg(tickerId), IntArg(tickTypeInt), TextArg(value)])])
  {
    hide NextTurn, Parse, Lookup, Atoi, IntText, Bytes, MessageBytes, Labelled, Args, NoNul, OpenOrderLayout,
         ContractLayout, BondLayout, ExecutionLayout, PortfolioLayout, TickOptionLayout, HistoricalLayout, ScannerLayout,
         HistoricalCalls, ScannerCalls, TickPriceCalls, ReqId;
    var names: seq<string> := ["version", "tickerId", "tickTypeInt", "value"];
    var values: seq<Value> := [N(tickerId), N(tickTypeInt), S(value)];
    assert SpecsOf(names, values) == [AsInt("tickerId"), AsInt("tickTypeInt"), AsText("value")];
    assert [version] + TextsOf(values) == [version, IntText(tickerId), IntText(tickTypeInt), value];
    assert ArgsOf(values) == [IntArg(tickerId), IntArg(tickTypeInt), TextArg(value)];
    InOrder(c, 45, "tickGeneric", names, version, values, other);
  }

  /** TICK_STRING. */
  lemma TickStringDelivered(c: Link, version: string, tickerId: int, tickTypeInt: int, value: string, other: string)
    requires c.connected && Clean([version, value])
    requires Int32s([tickerId, tickTypeInt])
    ensures NextTurn(TWS, c, MessageBytes(46, [version, IntText(tickerId), IntText(tickTypeInt), value]) + other)
         == Take(c, other, [Call("tickString", [IntArg(tickerId), IntArg(tickTypeInt), TextArg(value)])])
  {
    hide NextTurn, Parse, Lookup, Atoi, IntText, Bytes, MessageBytes, Labelled, Args, NoNul, OpenOrderLayout,
         ContractLayout, BondLayout, ExecutionLayout, PortfolioLayout, TickOptionLayout, HistoricalLayout, ScannerLayout,
         HistoricalCalls, ScannerCalls, TickPriceCalls, ReqId;
    var names: seq<string> := ["version", "tickerId", "tickTypeInt", "value"];
    var values: seq<Value> := [N(tickerId), N(tickTypeInt), S(value)];
    assert SpecsOf(names, values) == [AsInt("tickerId"), AsInt("tickTypeInt"), AsText("value")];
    assert [version] + TextsOf(values) == [version, IntText(tickerId), IntText(tickTypeInt), value];
    assert ArgsOf(values) == [IntArg(tickerId), IntArg(tickTypeInt), TextArg(value)];
    InOrder(c, 46, "tickString", names, version, values, other);
  }

  lemma TickEfpNames()
    ensures Different(["version", "tickerId", "tickTypeInt", "basisPoints",
      "formattedBasisPoints", "impliedFuturesPrice", "holdDays", "futureExpiry", "dividendImpact",
      "dividendsToExpiry"])
  {
  }

  lemma TickEfpTable(t: Trace)
    ensures LayoutOf(47) == Some(Run(["version", "tickerId", "tickTypeInt", "basisPoints", "formattedBasisPoints",
      "impliedFuturesPrice", "holdDays", "futureExpiry", "dividendImpact", "dividendsToExpiry"]))
    ensures CallsOf(47, t) == [Call("tickEFP", Args(t, [AsInt("tickerId"), AsInt("tickTypeInt"), AsText("basisPoints"),
      AsText("formattedBasisPoints"), AsText("impliedFuturesPrice"), AsInt("holdDays"), AsText("futureExpiry"),
      AsText("dividendImpact"), AsText("dividendsToExpiry")]))]
  {
    hide Args, Lookup, Atoi, OpenOrderLayout, ContractLayout, BondLayout, ExecutionLayout, PortfolioLayout, TickOptionLayout,
         HistoricalLayout, ScannerLayout, HistoricalCalls, ScannerCalls, TickPriceCalls, ReqId;
  }

  /** TICK_EFP. */
  lemma TickEfpDelivered(c: Link, version: string, tickerId: int, tickTypeInt: int, basisPoints: string,
      formattedBasisPoints: string, impliedFuturesPrice: string, holdDays: int, futureExpiry: string,
      dividendImpact: string, dividendsToExpiry: string, other: string)
    requires c.connected && Clean([version, basisPoints, formattedBasisPoints, impliedFuturesPrice, futureExpiry,
      dividendImpact, dividendsToExpiry])
    requires Int32s([tickerId, tickTypeInt, holdDays])
    ensures NextTurn(TWS, c, MessageBytes(47, [version, IntText(tickerId), IntText(tickTypeInt), basisPoints,
      formattedBasisPoints, impliedFuturesPrice, IntText(holdDays), futureExpiry, dividendImpact,
      dividendsToExpiry]) + other)
         == Take(c, other, [Call("tickEFP", [IntArg(tickerId), IntArg(tickTypeInt), TextArg(basisPoints),
              TextArg(formattedBasisPoints), TextArg(impliedFuturesPrice), IntArg(holdDays), TextArg(futureExpiry),
              TextArg(dividendImpact), TextArg(dividendsToExpiry)])])
  {
    hide NextTurn, Parse, Lookup, Atoi, IntText, Bytes, MessageBytes, Labelled, Args, NoNul, Different,
         LayoutOf, CallsOf, Run;
    var names: seq<string> := ["version", "tickerId", "tickTypeInt", "basisPoints", "formattedBasisPoints",
      "impliedFuturesPrice", "holdDays", "futureExpiry", "dividendImpact", "dividendsToExpiry"];
    var values: seq<Value> := [N(tickerId), N(tickTypeInt), S(basisPoints), S(formattedBasisPoints),
      S(impliedFuturesPrice), N(holdDays), S(futureExpiry), S(dividendImpact), S(dividendsToExpiry)];
    TickEfpNames();
    TickEfpTable(Labelled(names, [version] + TextsOf(values)));
    assert SpecsOf(names, values) == [AsInt("tickerId"), AsInt("tickTypeInt"), AsText("basisPoints"),
      AsText("formattedBasisPoints"), AsText("impliedFuturesPrice"), AsInt("holdDays"), AsText("futureExpiry"),
      AsText("dividendImpact"), AsText("dividendsToExpiry")];
    assert [version] + TextsOf(values) == [version, IntText(tickerId), IntText(tickTypeInt), basisPoints,
      formattedBasisPoints, impliedFuturesPrice, IntText(holdDays), futureExpiry, dividendImpact, dividendsToExpiry];
    assert ArgsOf(values) == [IntArg(tickerId), IntArg(tickTypeInt), TextArg(basisPoints),
      TextArg(formattedBasisPoints), TextArg(impliedFuturesPrice), IntArg(holdDays), TextArg(futureExpiry),
      TextArg(dividendImpact), TextArg(dividendsToExpiry)];
    InOrder(c, 47, "tickEFP", names, version, values, other);
  }

  /** CURRENT_TIME. */
  lemma CurrentTimeDelivered(c: Link, version: string, time: int, other: string)
    requires c.connected && Clean([version])
    requires Int32s([time])
    ensures NextTurn(TWS, c, MessageBytes(49, [version, IntText(time)]) + other)
         == Take(c, other, [Call("currentTime", [IntArg(time)])])
  {
    hide NextTurn, Parse, Lookup, Atoi, IntText, Bytes, MessageBytes, Labelled, Args, NoNul, OpenOrderLayout,
         ContractLayout, BondLayout, ExecutionLayout, PortfolioLayout, TickOptionLayout, HistoricalLayout, ScannerLayout,
         HistoricalCalls, ScannerCalls, TickPriceCalls, ReqId;
    var names: seq<string> := ["version", "time"];
    var values: seq<Value> := [N(time)];
    assert SpecsOf(names, values) == [AsInt("time")];
    assert [version] + TextsOf(values) == [version, IntText(time)];
    assert ArgsOf(values) == [IntArg(time)];
    InOrder(c, 49, "currentTime", names, version, values, other);
  }

  lemma RealTimeBarsNames()
    ensures Different(["version", "reqId", "time", "open", "high", "low", "close",
      "volume", "average", "count"])
  {
  }

  lemma RealTimeBarsTable(t: Trace)
    ensures LayoutOf(50) == Some(Run(["version", "reqId", "time", "open", "high", "low", "close", "volume", "average",
      "count"]))
    ensures CallsOf(50, t) == [Call("realtimeBar", Args(t, [AsInt("reqId"), AsInt("time"), AsText("open"), AsText("high"), AsText("low"),
      AsText("close"), AsInt("volume"), AsText("average"), AsInt("count")]))]
  {
    hide Args, Lookup, Atoi, OpenOrderLayout, ContractLayout, BondLayout, ExecutionLayout, PortfolioLayout, TickOptionLayout,
         HistoricalLayout, ScannerLayout, HistoricalCalls, ScannerCalls, TickPriceCalls, ReqId;
  }

  /** REAL_TIME_BARS. */
  lemma RealTimeBarsDelivered(c: Link, version: string, reqId: int, time: int, open: string, high: string,
      low: string, close: string, volume: int, average: string, count: int, other: string)
    requires c.connected && Clean([version, open, high, low, close, average])
    requires Int32s([reqId, time, volume, count])
    ensures NextTurn(TWS, c, MessageBytes(50, [version, IntText(reqId), IntText(time), open, high, low, close,
      IntText(volume), average, IntText(count)]) + other)
         == Take(c, other, [Call("realtimeBar", [IntArg(reqId), IntArg(time), TextArg(open), TextArg(high),
              TextArg(low), TextArg(close), IntArg(volume), TextArg(average), IntArg(count)])])
  {
    hide NextTurn, Parse, Lookup, Atoi, IntText, Bytes, MessageBytes, Labelled, Args, NoNul, Different,
         LayoutOf, CallsOf, Run;
    var names: seq<string> := ["version", "reqId", "time", "open", "high", "low", "close", "volume", "average",
      "count"];
    var values: seq<Value> := [N(reqId), N(time), S(open), S(high), S(low), S(close), N(volume), S(average),
      N(count)];
    RealTimeBarsNames();
    RealTimeBarsTable(Labelled(names, [version] + TextsOf(values)));
    assert SpecsOf(names, values) == [AsInt("reqId"), AsInt("time"), AsText("open"), AsText("high"), AsText("low"),
      AsText("close"), AsInt("volume"), AsText("average"), AsInt("count")];
    assert [version] + TextsOf(values) == [version, IntText(reqId), IntText(time), open, high, low, close,
      IntText(volume), average, IntText(count)];
    assert ArgsOf(values) == [IntArg(reqId), IntArg(time), TextArg(open), TextArg(high), TextArg(low), TextArg(close),
      IntArg(volume), TextArg(average), IntArg(count)];
    InOrder(c, 50, "realtimeBar", names, version, values, other);
  }

  /** FUNDAMENTAL_DATA. */
  lemma FundamentalDataDelivered(c: Link, version: string, reqId: int, data: string, other: string)
    requires c.connected && Clean([version, data])
    requires Int32s([reqId])
    ensures NextTurn(TWS, c, MessageBytes(51, [version, IntText(reqId), data]) + other)
         == Take(c, other, [Call("fundamentalData", [IntArg(reqId), TextArg(data)])])
  {
    hide NextTurn, Parse, Lookup, Atoi, IntText, Bytes, MessageBytes, Labelled, Args, NoNul, OpenOrderLayout,
         ContractLayout, BondLayout, ExecutionLayout, PortfolioLayout, TickOptionLayout, HistoricalLayout, ScannerLayout,
         HistoricalCalls, ScannerCalls, TickPriceCalls, ReqId;
    var names: seq<string> := ["version", "reqId", "data"];
    var values: seq<Value> := [N(reqId), S(data)];
    assert SpecsOf(names, values) == [AsInt("reqId"), AsText("data")];
    assert [version] + TextsOf(values) == [version, IntText(reqId), data];
    assert ArgsOf(values) == [IntArg(reqId), TextArg(data)];
    InOrder(c, 51, "fundamentalData", names, version, values, other);
  }

  /** CONTRACT_DATA_END. */
  lemma ContractDataEndDelivered(c: Link, version: string, reqId: int, other: string)
    requires c.connected && Clean([version])
    requires Int32s([reqId])
    ensures NextTurn(TWS, c, MessageBytes(52, [version, IntText(reqId)]) + other)
         == Take(c, other, [Call("contractDetailsEnd", [IntArg(reqId)])])
  {
    hide NextTurn, Parse, Lookup, Atoi, IntText, Bytes, MessageBytes, Labelled, Args, NoNul, OpenOrderLayout,
         ContractLayout, BondLayout, ExecutionLayout, PortfolioLayout, TickOptionLayout, HistoricalLayout, ScannerLayout,
         HistoricalCalls, ScannerCalls, TickPriceCalls, ReqId;
    var names: seq<string> := ["version", "reqId"];
    var values: seq<Value> := [N(reqId)];
    assert SpecsOf(names, values) == [AsInt("reqId")];
    assert [version] + TextsOf(values) == [version, IntText(reqId)];
    assert ArgsOf(values) == [IntArg(reqId)];
    InOrder(c, 52, "contractDetailsEnd", names, version, values, other);
  }

  /** OPEN_ORDER_END. */
  lemma OpenOrderEndDelivered(c: Link, version: string, other: string)
    requires c.connected && Clean([version])
    ensures NextTurn(TWS, c, MessageBytes(53, [version]) + other)
         == Take(c, other, [Call("openOrderEnd", [])])
  {
    hide NextTurn, Parse, Lookup, Atoi, IntText, Bytes, MessageBytes, Labelled, NoNul, OpenOrderLayout,
         ContractLayout, BondLayout, ExecutionLayout, PortfolioLayout, TickOptionLayout, HistoricalLayout, ScannerLayout,
         HistoricalCalls, ScannerCalls, TickPriceCalls, ReqId;
    var names: seq<string> := ["version"];
    var values: seq<Value> := [];
    assert SpecsOf(names, values) == [];
    assert [version] + TextsOf(values) == [version];
    assert ArgsOf(values) == [];
    InOrder(c, 53, "openOrderEnd", names, version, values, other);
  }

  /** ACCT_DOWNLOAD_END. */
  lemma AcctDownloadEndDelivered(c: Link, version: string, account: string, other: string)
    requires c.connected && Clean([version, account])
    ensures NextTurn(TWS, c, MessageBytes(54, [version, account]) + other)
         == Take(c, other, [Call("accountDownloadEnd", [TextArg(account)])])
  {
    hide NextTurn, Parse, Lookup, Atoi, IntText, Bytes, MessageBytes, Labelled, Args, NoNul, OpenOrderLayout,
         ContractLayout, BondLayout, ExecutionLayout, PortfolioLayout, TickOptionLayout, HistoricalLayout, ScannerLayout,
         HistoricalCalls, ScannerCalls, TickPriceCalls, ReqId;
    var names: seq<string> := ["version", "account"];
    var values: seq<Value> := [S(account)];
    assert SpecsOf(names, values) == [AsText("account")];
    assert [version] + TextsOf(values) == [version, account];
    assert ArgsOf(values) == [TextArg(account)];
    InOrder(c, 54, "accountDownloadEnd", names, version, values, other);
  }

  /** EXECUTION_DATA_END. */
  lemma ExecutionDataEndDelivered(c: Link, version: string, reqId: int, other: string)
    requires c.connected && Clean([version])
    requires Int32s([reqId])
    ensures NextTurn(TWS, c, MessageBytes(55, [version, IntText(reqId)]) + other)
         == Take(c, other, [Call("execDetailsEnd", [IntArg(reqId)])])
  {
    hide NextTurn, Parse, Lookup, Atoi, IntText, Bytes, MessageBytes, Labelled, Args, NoNul, OpenOrderLayout,
         ContractLayout, BondLayout, ExecutionLayout, PortfolioLayout, TickOptionLayout, HistoricalLayout, ScannerLayout,
         HistoricalCalls, ScannerCalls, TickPriceCalls, ReqId;
    var names: seq<string> := ["version", "reqId"];
    var values: seq<Value> := [N(reqId)];
    assert SpecsOf(names, values) == [AsInt("reqId")];
    assert [version] + TextsOf(values) == [version, IntText(reqId)];
    assert ArgsOf(values) == [IntArg(reqId)];
    InOrder(c, 55, "execDetailsEnd", names, version, values, other);
  }

  /** TICK_SNAPSHOT_END. */
  lemma TickSnapshotEndDelivered(c: Link, version: string, reqId: int, other: string)
    requires c.connected && Clean([version])
    requires Int32s([reqId])
    ensures NextTurn(TWS, c, MessageBytes(57, [version, IntText(reqId)]) + other)
         == Take(c, other, [Call("tickSnapshotEnd", [IntArg(reqId)])])
  {
    hide NextTurn, Parse, Lookup, Atoi, IntText, Bytes, MessageBytes, Labelled, Args, NoNul, OpenOrderLayout,
         ContractLayout, BondLayout, ExecutionLayout, PortfolioLayout, TickOptionLayout, HistoricalLayout, ScannerLayout,
         HistoricalCalls, ScannerCalls, TickPriceCalls, ReqId;
    var names: seq<string> := ["version", "reqId"];
    var values: seq<Value> := [N(reqId)];
    assert SpecsOf(names, values) == [AsInt("reqId")];
    assert [version] + TextsOf(values) == [version, IntText(reqId)];
    assert ArgsOf(values) == [IntArg(reqId)];
    InOrder(c, 57, "tickSnapshotEnd", names, version, values, other);
  }

  /** MARKET_DATA_TYPE. */
  lemma MarketDataTypeDelivered(c: Link, version: string, reqId: int, marketDataType: int, other: string)
    requires c.connected && Clean([version])
    requires Int32s([reqId, marketDataType])
    ensures NextTurn(TWS, c, MessageBytes(58, [version, IntText(reqId), IntText(marketDataType)]) + other)
         == Take(c, other, [Call("marketDataType", [IntArg(reqId), IntArg(marketDataType)])])
  {
    hide NextTurn, Parse, Lookup, Atoi, IntText, Bytes, MessageBytes, Labelled, Args, NoNul, OpenOrderLayout,
         ContractLayout, BondLayout, ExecutionLayout, PortfolioLayout, TickOptionLayout, HistoricalLayout, ScannerLayout,
         HistoricalCalls, ScannerCalls, TickPriceCalls, ReqId;
    var names: seq<string> := ["version", "reqId", "marketDataType"];
    var values: seq<Value> := [N(reqId), N(marketDataType)];
    assert SpecsOf(names, values) == [AsInt("reqId"), AsInt("marketDataType")];
    assert [version] + TextsOf(values) == [version, IntText(reqId), IntText(marketDataType)];
    assert ArgsOf(values) == [IntArg(reqId), IntArg(marketDataType)];
    InOrder(c, 58, "marketDataType", names, version, values, other);
  }

}
