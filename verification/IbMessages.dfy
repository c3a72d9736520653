/**
  The messages of the Interactive Brokers client: the layout of each case of the switch in
  processMsg, and the callbacks that the case makes with what it has decoded.  Numbers that the
  client decodes with atof are passed on as their text.
*/
module IbMessages {
  import opened Wrappers
  import opened Decimal
  import opened IbLayout
  import opened IbStream
  import opened IbProtocol

  /** The message ids that the statements below name. */
  const TICK_PRICE: int := 1
  const HISTORICAL_DATA: int := 17
  const SCANNER_DATA: int := 20

  /** Server version 51 sends an exempt code that later message versions send by themselves. */
  const MIN_SERVER_VER_SSHORTX_OLD: int := 51

  /** The tick types that processMsg tells apart. */
  const BID_SIZE: int := 0
  const BID: int := 1
  const ASK: int := 2
  const ASK_SIZE: int := 3
  const LAST: int := 4
  const LAST_SIZE: int := 5
  const MODEL_OPTION: int := 13

  // ------------------------------------------------------------------------------------------
  // Layouts
  // ------------------------------------------------------------------------------------------

  function Run(names: seq<string>): Layout {
    Fields(names, End)
  }

  const TICK_PRICE_FIELDS: seq<string> :=
    ["version", "tickerId", "tickTypeInt", "price", "size", "canAutoExecute"]

  const HISTORICAL_HEADER: seq<string> := ["version", "reqId", "startDateStr", "endDateStr", "itemCount"]

  const BAR_FIELDS: seq<string> :=
    ["date", "open", "high", "low", "close", "volume", "average", "hasGaps", "barCount"]

  const SCANNER_HEADER: seq<string> := ["version", "tickerId", "numberOfElements"]

  const SCAN_FIELDS: seq<string> :=
    ["rank", "conId", "symbol", "secType", "expiry", "strike", "right", "exchange", "currency",
     "localSymbol", "marketName", "tradingClass", "distance", "benchmark", "projection", "legsStr"]

  function HistoricalLayout(): Layout {
    Fields(HISTORICAL_HEADER, Counted("itemCount", BAR_FIELDS, End))
  }

  function ScannerLayout(): Layout {
    Fields(SCANNER_HEADER, Counted("numberOfElements", SCAN_FIELDS, End))
  }

  function TickOptionLayout(): Layout {
    Fields(["version", "tickerId", "tickTypeInt", "impliedVol", "delta"],
    When(Either(AtLeast("version", 6), Equals("tickTypeInt", MODEL_OPTION)), Run(["optPrice", "pvDividend"]),
    When(AtLeast("version", 6), Run(["gamma", "vega", "theta", "undPrice"]),
    End)))
  }

  function PortfolioLayout(): Layout {
    Fields(["version", "conId", "symbol", "secType", "expiry", "strike", "right"],
    When(AtLeast("version", 7), Run(["multiplier", "primaryExchange"]),
    Fields(["currency", "localSymbol", "position", "marketPrice", "marketValue", "averageCost",
            "unrealizedPNL", "realizedPNL", "accountName"],
    When(Both(Equals("version", 6), ServerIs(39)), Run(["primaryExchange"]),
    End))))
  }

  function ContractLayout(): Layout {
    Fields(["version"], When(AtLeast("version", 3), Run(["reqId"]), ContractCore()))
  }

  function ContractCore(): Layout {
    Fields(["symbol", "secType", "expiry", "strike", "right", "exchange", "currency", "localSymbol",
            "marketName", "tradingClass", "conId", "minTick", "multiplier", "orderTypes",
            "validExchanges", "priceMagnifier"],
    When(AtLeast("version", 4), Run(["underConId"]),
    ContractNames()))
  }

  function ContractNames(): Layout {
    When(AtLeast("version", 5), Run(["longName", "primaryExchange"]),
    When(AtLeast("version", 6), Run(["contractMonth", "industry", "category", "subcategory",
                                     "timeZoneId", "tradingHours", "liquidHours"]),
    End))
  }

  function BondLayout(): Layout {
    Fields(["version"],
    When(AtLeast("version", 3), Run(["reqId"]),
    Fields(["symbol", "secType", "cusip", "coupon", "maturity", "issueDate", "ratings", "bondType",
            "couponType", "convertible", "callable", "putable", "descAppend", "exchange", "currency",
            "marketName", "tradingClass", "conId", "minTick", "orderTypes", "validExchanges",
            "nextOptionDate", "nextOptionType", "nextOptionPartial", "notes"],
    When(AtLeast("version", 4), Run(["longName"]),
    End))))
  }

  function ExecutionLayout(): Layout {
    Fields(["version"],
    When(AtLeast("version", 7), Run(["reqId"]),
    Fields(["orderId", "conId", "symbol", "secType", "expiry", "strike", "right", "exchange",
            "currency", "localSymbol", "execId", "time", "acctNumber", "execExchange", "side",
            "shares", "price", "permId", "clientId", "liquidation"],
    When(AtLeast("version", 6), Run(["cumQty", "avgPrice"]),
    When(AtLeast("version", 8), Run(["orderRef"]),
    End)))))
  }

  const OPEN_ORDER_FIRST: seq<string> :=
    ["version"] +
    ["orderId",
     "conId", "symbol", "secType", "expiry", "strike", "right", "exchange", "currency", "localSymbol",
     "action", "totalQuantity", "orderType", "lmtPrice", "auxPrice", "tif", "ocaGroup", "account",
     "openClose", "orderOriginInt", "orderRef", "clientId", "permId",
     "outsideRth", "hidden", "discretionaryAmt", "goodAfterTime", "sharesAllocation",
     "faGroup", "faMethod", "faPercentage", "faProfile", "goodTillDate",
     "rule80A", "percentOffset", "settlingFirm", "shortSaleSlot", "designatedLocation"]

  const OPEN_ORDER_SECOND: seq<string> :=
    ["auctionStrategy", "startingPrice", "stockRefPrice", "delta", "stockRangeLower",
     "stockRangeUpper", "displaySize", "blockOrder", "sweepToFill", "allOrNone", "minQty", "ocaType",
     "eTradeOnly", "firmQuoteOnly", "nbboPriceCap", "parentId", "triggerMethod",
     "volatility", "volatilityType"] +
    ["deltaNeutralOrderType", "deltaNeutralAuxPrice"]

  const OPEN_ORDER_THIRD: seq<string> :=
    ["continuousUpdate", "referencePriceType", "trailStopPrice", "basisPoints", "basisPointsType",
     "comboLegsDescrip"]

  const OPEN_ORDER_STATE: seq<string> :=
    ["whatIf", "status", "initMargin", "maintMargin", "equityWithLoan", "commission",
     "minCommission", "maxCommission", "commissionCurrency", "warningText"]

  /** for (i < count) { tag, value }, which the source guards against a count below one. */
  function TagValues(count: string): Layout {
    Fields([count], When(Positive(count), Counted(count, ["tag", "value"], End), End))
  }

  // The layout of OPEN_ORDER, cut where the next tests begin.

  function OpenOrderLayout(): Layout {
    Fields(OPEN_ORDER_FIRST, OpenOrderExempt())
  }

  function OpenOrderExempt(): Layout {
    When(ServerIs(MIN_SERVER_VER_SSHORTX_OLD), Run(["exemptCodeOld"]),
    When(Both(Not(ServerIs(MIN_SERVER_VER_SSHORTX_OLD)), AtLeast("version", 23)), Run(["exemptCode"]),
    OpenOrderVolatility()))
  }

  function OpenOrderVolatility(): Layout {
    Fields(OPEN_ORDER_SECOND,
    When(Both(AtLeast("version", 27), NonEmpty("deltaNeutralOrderType")),
         Run(["deltaNeutralConId", "deltaNeutralSettlingFirm", "deltaNeutralClearingAccount",
              "deltaNeutralClearingIntent"]),
    OpenOrderCombo()))
  }

  function OpenOrderCombo(): Layout {
    Fields(OPEN_ORDER_THIRD,
    When(AtLeast("version", 26), TagValues("smartComboRoutingParamsCount"),
    OpenOrderScale()))
  }

  function OpenOrderScale(): Layout {
    When(AtLeast("version", 20), Run(["scaleInitLevelSize", "scaleSubsLevelSize"]),
    When(Not(AtLeast("version", 20)), Run(["notSuppScaleNumComponents", "scaleInitLevelSize"]),
    OpenOrderHedge()))
  }

  function OpenOrderHedge(): Layout {
    Fields(["scalePriceIncrement"],
    When(AtLeast("version", 24), Fields(["hedgeType"], When(NonEmpty("hedgeType"), Run(["hedgeParam"]), End)),
    OpenOrderClearing()))
  }

  function OpenOrderClearing(): Layout {
    When(AtLeast("version", 25), Run(["optOutSmartRouting"]),
    Fields(["clearingAccount", "clearingIntent"],
    OpenOrderUnderComp()))
  }

  function OpenOrderUnderComp(): Layout {
    When(AtLeast("version", 22), Run(["notHeld"]),
    When(AtLeast("version", 20),
         Fields(["underCompPresent"],
         When(Positive("underCompPresent"), Run(["underCompConId", "underCompDelta", "underCompPrice"]), End)),
    OpenOrderAlgo()))
  }

  function OpenOrderAlgo(): Layout {
    When(AtLeast("version", 21),
         Fields(["algoStrategy"], When(NonEmpty("algoStrategy"), TagValues("algoParamsCount"), End)),
    Fields(OPEN_ORDER_STATE,
    End))
  }

  function LayoutOf(msgId: int): Option<Layout> {
    match msgId
    case 1 /* TICK_PRICE */ => Some(Run(TICK_PRICE_FIELDS))
    case 2 /* TICK_SIZE */ => Some(Run(["version", "tickerId", "tickTypeInt", "size"]))
    case 3 /* ORDER_STATUS */ => Some(Run(["version", "orderId", "status", "filled", "remaining", "avgFillPrice", "permId",
                        "parentId", "lastFillPrice", "clientId", "whyHeld"]))
    case 4 /* ERR_MSG */ => Some(Run(["version", "id", "errorCode", "errorMsg"]))
    case 5 /* OPEN_ORDER */ => Some(OpenOrderLayout())
    case 6 /* ACCT_VALUE */ => Some(Run(["version", "key", "val", "cur", "accountName"]))
    case 7 /* PORTFOLIO_VALUE */ => Some(PortfolioLayout())
    case 8 /* ACCT_UPDATE_TIME */ => Some(Run(["version", "accountTime"]))
    case 9 /* NEXT_VALID_ID */ => Some(Run(["version", "orderId"]))
    case 10 /* CONTRACT_DATA */ => Some(ContractLayout())
    case 11 /* EXECUTION_DATA */ => Some(ExecutionLayout())
    case 12 /* MARKET_DEPTH */ => Some(Run(["version", "id", "position", "operation", "side", "price", "size"]))
    case 13 /* MARKET_DEPTH_L2 */ => Some(Run(["version", "id", "position", "marketMaker", "operation", "side", "price", "size"]))
    case 14 /* NEWS_BULLETINS */ => Some(Run(["version", "msgId", "msgType", "newsMessage", "originatingExch"]))
    case 15 /* MANAGED_ACCTS */ => Some(Run(["version", "accountsList"]))
    case 16 /* RECEIVE_FA */ => Some(Run(["version", "faDataTypeInt", "cxml"]))
    case 17 /* HISTORICAL_DATA */ => Some(HistoricalLayout())
    case 18 /* BOND_CONTRACT_DATA */ => Some(BondLayout())
    case 19 /* SCANNER_PARAMETERS */ => Some(Run(["version", "xml"]))
    case 20 /* SCANNER_DATA */ => Some(ScannerLayout())
    case 21 /* TICK_OPTION_COMPUTATION */ => Some(TickOptionLayout())
    case 45 /* TICK_GENERIC */ => Some(Run(["version", "tickerId", "tickTypeInt", "value"]))
    case 46 /* TICK_STRING */ => Some(Run(["version", "tickerId", "tickTypeInt", "value"]))
    case 47 /* TICK_EFP */ => Some(Run(["version", "tickerId", "tickTypeInt", "basisPoints", "formattedBasisPoints",
                         "impliedFuturesPrice", "holdDays", "futureExpiry", "dividendImpact",
                         "dividendsToExpiry"]))
    case 49 /* CURRENT_TIME */ => Some(Run(["version", "time"]))
    case 50 /* REAL_TIME_BARS */ => Some(Run(["version", "reqId", "time", "open", "high", "low", "close", "volume", "average",
                         "count"]))
    case 51 /* FUNDAMENTAL_DATA */ => Some(Run(["version", "reqId", "data"]))
    case 52 /* CONTRACT_DATA_END */ => Some(Run(["version", "reqId"]))
    case 53 /* OPEN_ORDER_END */ => Some(Run(["version"]))
    case 54 /* ACCT_DOWNLOAD_END */ => Some(Run(["version", "account"]))
    case 55 /* EXECUTION_DATA_END */ => Some(Run(["version", "reqId"]))
    case 56 /* DELTA_NEUTRAL_VALIDATION */ => Some(Run(["version", "reqId", "conId", "delta", "price"]))
    case 57 /* TICK_SNAPSHOT_END */ => Some(Run(["version", "reqId"]))
    case 58 /* MARKET_DATA_TYPE */ => Some(Run(["version", "reqId", "marketDataType"]))
    case _ => None
  }

  // ------------------------------------------------------------------------------------------
  // Callbacks
  // ------------------------------------------------------------------------------------------

  function I(t: Trace, name: string): Arg {
    IntArg(IntOf(t, name))
  }

  function X(t: Trace, name: string): Arg {
    TextArg(Lookup(t, name))
  }

  /** The arguments of a callback, each decoded as an integer or passed on as text. */
  datatype ArgSpec = AsInt(name: string) | AsText(name: string)

  function Args(t: Trace, specs: seq<ArgSpec>): seq<Arg> {
    if specs == [] then []
    else [if specs[0].AsInt? then I(t, specs[0].name) else X(t, specs[0].name)] + Args(t, specs[1..])
  }

  function ReqId(t: Trace, since: int): Arg {
    if IntOf(t, "version") >= since then I(t, "reqId") else IntArg(-1)
  }

  function SizeTickType(tickType: int): Option<int> {
    if tickType == BID then Some(BID_SIZE)
    else if tickType == ASK then Some(ASK_SIZE)
    else if tickType == LAST then Some(LAST_SIZE)
    else None
  }

  function TickPriceCalls(t: Trace): seq<Output> {
    var tickType := IntOf(t, "tickTypeInt");
    [Call("tickPrice", [I(t, "tickerId"), IntArg(tickType), X(t, "price"), I(t, "canAutoExecute")])]
    + match SizeTickType(tickType)
      case None => []
      case Some(sizeTickType) => [Call("tickSize", [I(t, "tickerId"), IntArg(sizeTickType), I(t, "size")])]
  }

  /** Behind the header of a message, its `n` items of `width` fields each. */
  function ItemsOf(t: Trace, width: nat, n: nat): (items: seq<Trace>)
    ensures |items| == n
    decreases n
  {
    if n == 0 then []
    else if |t| < width then [t] + ItemsOf([], width, n - 1)
    else [t[..width]] + ItemsOf(t[width..], width, n - 1)
  }

  function ItemCount(t: Trace, count: string): nat {
    if IntOf(t, count) < 0 then 0 else IntOf(t, count)
  }

  function After(t: Trace, header: nat): Trace {
    if |t| < header then [] else t[header..]
  }

  /** The text of the `k`-th field of an item. */
  function Nth(item: Trace, k: nat): string {
    if k < |item| then item[k].text else ""
  }

  /** The arguments of historicalData, by the positions of the fields of a bar on the wire. */
  function BarCall(reqId: Arg, bar: Trace): Output {
    var date, open, high, low, close := Nth(bar, 0), Nth(bar, 1), Nth(bar, 2), Nth(bar, 3), Nth(bar, 4);
    var volume, average, hasGaps, barCount := Atoi(Nth(bar, 5)), Nth(bar, 6), Nth(bar, 7), Atoi(Nth(bar, 8));
    Call("historicalData",
         [reqId, TextArg(date), TextArg(open), TextArg(high), TextArg(low), TextArg(close),
          IntArg(volume), IntArg(barCount), TextArg(average), BoolArg(hasGaps == "true")])
  }

  /** The arguments of scannerData, likewise. */
  function ScanCall(tickerId: Arg, scan: Trace): Output {
    var rank, distance, benchmark, projection, legsStr :=
      Atoi(Nth(scan, 0)), Nth(scan, 12), Nth(scan, 13), Nth(scan, 14), Nth(scan, 15);
    Call("scannerData",
         [tickerId, IntArg(rank), RecordArg(scan), TextArg(distance), TextArg(benchmark),
          TextArg(projection), TextArg(legsStr)])
  }

  function BarCalls(reqId: Arg, bars: seq<Trace>): seq<Output> {
    if bars == [] then [] else [BarCall(reqId, bars[0])] + BarCalls(reqId, bars[1..])
  }

  function ScanCalls(tickerId: Arg, scans: seq<Trace>): seq<Output> {
    if scans == [] then [] else [ScanCall(tickerId, scans[0])] + ScanCalls(tickerId, scans[1..])
  }

  function HistoricalCalls(t: Trace): seq<Output> {
    BarCalls(I(t, "reqId"), ItemsOf(After(t, 5), 9, ItemCount(t, "itemCount")))
    + [HistoricalEnd(I(t, "reqId"), Lookup(t, "startDateStr"), Lookup(t, "endDateStr"))]
  }

  function HistoricalEnd(reqId: Arg, start: string, end: string): Output {
    Call("historicalData",
         [reqId, TextArg("finished-" + start + "-" + end), TextArg("-1"), TextArg("-1"), TextArg("-1"),
          TextArg("-1"), IntArg(-1), IntArg(-1), TextArg("-1"), BoolArg(false)])
  }

  function ScannerCalls(t: Trace): seq<Output> {
    ScanCalls(I(t, "tickerId"), ItemsOf(After(t, 3), 16, ItemCount(t, "numberOfElements")))
    + [Call("scannerDataEnd", [I(t, "tickerId")])]
  }

  function CallsOf(msgId: int, t: Trace): seq<Output> {
    match msgId
    case 1 /* TICK_PRICE */ => TickPriceCalls(t)
    case 2 /* TICK_SIZE */ => [Call("tickSize", Args(t, [AsInt("tickerId"), AsInt("tickTypeInt"), AsInt("size")]))]
    case 3 /* ORDER_STATUS */ => [Call("orderStatus", Args(t, [
                AsInt("orderId"), AsText("status"), AsInt("filled"), AsInt("remaining"),
                AsText("avgFillPrice"), AsInt("permId"), AsInt("parentId"), AsText("lastFillPrice"),
                AsInt("clientId"), AsText("whyHeld")]))]
    case 4 /* ERR_MSG */ => [Call("error", Args(t, [AsInt("id"), AsInt("errorCode"), AsText("errorMsg")]))]
    case 5 /* OPEN_ORDER */ => [Call("openOrder", [I(t, "orderId"), RecordArg(t)])]
    case 6 /* ACCT_VALUE */ => [Call("updateAccountValue", Args(t, [
                AsText("key"), AsText("val"), AsText("cur"), AsText("accountName")]))]
    case 7 /* PORTFOLIO_VALUE */ => [Call("updatePortfolio", [RecordArg(t)] + Args(t, [
                AsInt("position"), AsText("marketPrice"), AsText("marketValue"), AsText("averageCost"),
                AsText("unrealizedPNL"), AsText("realizedPNL"), AsText("accountName")]))]
    case 8 /* ACCT_UPDATE_TIME */ => [Call("updateAccountTime", Args(t, [AsText("accountTime")]))]
    case 9 /* NEXT_VALID_ID */ => [Call("nextValidId", Args(t, [AsInt("orderId")]))]
    case 10 /* CONTRACT_DATA */ => [Call("contractDetails", [ReqId(t, 3), RecordArg(t)])]
    case 11 /* EXECUTION_DATA */ => [Call("execDetails", [ReqId(t, 7), RecordArg(t)])]
    case 12 /* MARKET_DEPTH */ => [Call("updateMktDepth", Args(t, [
                 AsInt("id"), AsInt("position"), AsInt("operation"), AsInt("side"), AsText("price"),
                 AsInt("size")]))]
    case 13 /* MARKET_DEPTH_L2 */ => [Call("updateMktDepthL2", Args(t, [
                 AsInt("id"), AsInt("position"), AsText("marketMaker"), AsInt("operation"), AsInt("side"),
                 AsText("price"), AsInt("size")]))]
    case 14 /* NEWS_BULLETINS */ => [Call("updateNewsBulletin", Args(t, [
                 AsInt("msgId"), AsInt("msgType"), AsText("newsMessage"), AsText("originatingExch")]))]
    case 15 /* MANAGED_ACCTS */ => [Call("managedAccounts", Args(t, [AsText("accountsList")]))]
    case 16 /* RECEIVE_FA */ => [Call("receiveFA", Args(t, [AsInt("faDataTypeInt"), AsText("cxml")]))]
    case 17 /* HISTORICAL_DATA */ => HistoricalCalls(t)
    case 18 /* BOND_CONTRACT_DATA */ => [Call("bondContractDetails", [ReqId(t, 3), RecordArg(t)])]
    case 19 /* SCANNER_PARAMETERS */ => [Call("scannerParameters", Args(t, [AsText("xml")]))]
    case 20 /* SCANNER_DATA */ => ScannerCalls(t)
    case 21 /* TICK_OPTION_COMPUTATION */ => [Call("tickOptionComputation", Args(t, [
                 AsInt("tickerId"), AsInt("tickTypeInt"), AsText("impliedVol"), AsText("delta"),
                 AsText("optPrice"), AsText("pvDividend"), AsText("gamma"), AsText("vega"),
                 AsText("theta"), AsText("undPrice")]))]
    case 45 /* TICK_GENERIC */ => [Call("tickGeneric", Args(t, [AsInt("tickerId"), AsInt("tickTypeInt"), AsText("value")]))]
    case 46 /* TICK_STRING */ => [Call("tickString", Args(t, [AsInt("tickerId"), AsInt("tickTypeInt"), AsText("value")]))]
    case 47 /* TICK_EFP */ => [Call("tickEFP", Args(t, [
                 AsInt("tickerId"), AsInt("tickTypeInt"), AsText("basisPoints"),
                 AsText("formattedBasisPoints"), AsText("impliedFuturesPrice"), AsInt("holdDays"),
                 AsText("futureExpiry"), AsText("dividendImpact"), AsText("dividendsToExpiry")]))]
    case 49 /* CURRENT_TIME */ => [Call("currentTime", Args(t, [AsInt("time")]))]
    case 50 /* REAL_TIME_BARS */ => [Call("realtimeBar", Args(t, [
                 AsInt("reqId"), AsInt("time"), AsText("open"), AsText("high"), AsText("low"),
                 AsText("close"), AsInt("volume"), AsText("average"), AsInt("count")]))]
    case 51 /* FUNDAMENTAL_DATA */ => [Call("fundamentalData", Args(t, [AsInt("reqId"), AsText("data")]))]
    case 52 /* CONTRACT_DATA_END */ => [Call("contractDetailsEnd", Args(t, [AsInt("reqId")]))]
    case 53 /* OPEN_ORDER_END */ => [Call("openOrderEnd", [])]
    case 54 /* ACCT_DOWNLOAD_END */ => [Call("accountDownloadEnd", Args(t, [AsText("account")]))]
    case 55 /* EXECUTION_DATA_END */ => [Call("execDetailsEnd", Args(t, [AsInt("reqId")]))]
    case 56 /* DELTA_NEUTRAL_VALIDATION */ => [Call("deltaNeutralValidation", [I(t, "reqId"), RecordArg(t)])]
    case 57 /* TICK_SNAPSHOT_END */ => [Call("tickSnapshotEnd", Args(t, [AsInt("reqId")]))]
    case 58 /* MARKET_DATA_TYPE */ => [Call("marketDataType", Args(t, [AsInt("reqId"), AsInt("marketDataType")]))]
    case _ => []
  }

  const TWS: Protocol := Protocol(msgId => LayoutOf(msgId), (msgId, t) => CallsOf(msgId, t))
}
