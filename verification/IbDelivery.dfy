/**
  What the client does with messages as a server writes them: from the fields on the wire to
  the callbacks of the application, and what that means for a whole stream.
*/
module IbDelivery {
  import opened Sequences
  import opened Wrappers
  import opened Decimal
  import opened IbFields
  import opened IbLayout
  import opened IbStream
  import opened IbProtocol
  import opened IbMessages

  /** Fields as a server sends them. */
  function Bytes(texts: seq<string>): string {
    if texts == [] then "" else texts[0] + [NUL] + Bytes(texts[1..])
  }

  ghost predicate Clean(texts: seq<string>) {
    forall s :: s in texts ==> NoNul(s)
  }

  lemma IntTextClean(n: int)
    ensures NoNul(IntText(n))
  {
  }

  lemma CleanThree(a: string, b: string, c: string)
    requires NoNul(a) && NoNul(b) && NoNul(c)
    ensures Clean([a, b, c])
  {
  }

  lemma CleanFive(a: string, b: string, c: string, d: string, e: string)
    requires NoNul(a) && NoNul(b) && NoNul(c) && NoNul(d) && NoNul(e)
    ensures Clean([a, b, c, d, e])
  {
  }

  lemma {:induction false} BytesAppend(a: seq<string>, b: seq<string>)
    ensures Bytes(a + b) == Bytes(a) + Bytes(b)
  {
    if a == [] {
      assert a + b == b;
    } else {
      assert (a + b)[1..] == a[1..] + b;
      BytesAppend(a[1..], b);
      Assoc(a[0] + [NUL], Bytes(a[1..]), Bytes(b));
    }
  }

  lemma {:induction false} LabelledFacts(names: seq<string>, texts: seq<string>)
    requires |names| == |texts|
    ensures var t := Labelled(names, texts);
      |t| == |names| && (forall k :: 0 <= k < |names| ==> t[k] == Field(names[k], texts[k]))
      && Wire(t) == Bytes(texts)
  {
    if names != [] {
      LabelledFacts(names[1..], texts[1..]);
    }
  }

  lemma {:induction false} LabelledAppend(
    names: seq<string>, texts: seq<string>, names': seq<string>, texts': seq<string>)
    requires |names| == |texts| && |names'| == |texts'|
    ensures Labelled(names + names', texts + texts') == Labelled(names, texts) + Labelled(names', texts')
    decreases |names|
  {
    if names == [] {
      assert names + names' == names' && texts + texts' == texts';
    } else {
      assert (names + names')[1..] == names[1..] + names' && (texts + texts')[1..] == texts[1..] + texts';
      LabelledAppend(names[1..], texts[1..], names', texts');
      Assoc([Field(names[0], texts[0])], Labelled(names[1..], texts[1..]), Labelled(names', texts'));
    }
  }

  lemma {:induction false} LookupAt(t: Trace, k: nat)
    requires k < |t| && forall j :: 0 <= j < k ==> t[j].name != t[k].name
    ensures Lookup(t, t[k].name) == t[k].text
  {
    if k > 0 {
      assert t[1..][k - 1] == t[k];
      LookupAt(t[1..], k - 1);
    }
  }

  lemma LabelledLookup(names: seq<string>, texts: seq<string>, more: Trace, k: nat)
    requires |names| == |texts| && k < |names|
    requires forall j :: 0 <= j < k ==> names[j] != names[k]
    ensures Lookup(Labelled(names, texts) + more, names[k]) == texts[k]
    ensures Lookup(Labelled(names, texts), names[k]) == texts[k]
  {
    LabelledFacts(names, texts);
    LookupAt(Labelled(names, texts), k);
    LookupAt(Labelled(names, texts) + more, k);
  }

  // ------------------------------------------------------------------------------------------
  // Messages that are one straight run
  // ------------------------------------------------------------------------------------------

  lemma TakesRun(names: seq<string>, texts: seq<string>, sv: int, other: string)
    requires |names| == |texts| && Clean(texts)
    ensures Parse(Run(names), sv, [], Bytes(texts) + other) == Got(Labelled(names, texts), other)
  {
    LabelledFacts(names, texts);
    ReadAllOfWire(names, texts, [], other);
    assert [] + Labelled(names, texts) == Labelled(names, texts);
  }

  lemma TakesId(msgId: int, rest: string)
    requires IsInt32(msgId)
    ensures NextField(IntText(msgId) + [NUL] + rest) == Some((IntText(msgId), rest))
    ensures Atoi(IntText(msgId)) == msgId
  {
    AtoiIntText(msgId);
    IntTextChars(msgId);
    NextFieldOf(IntText(msgId), rest);
  }

  /** The bytes of a message: its id, then its fields. */
  function MessageBytes(msgId: int, texts: seq<string>): string {
    IntText(msgId) + [NUL] + Bytes(texts)
  }

  lemma TakesMessage(c: Link, msgId: int, texts: seq<string>, t: Trace, other: string)
    requires c.connected && IsInt32(msgId) && LayoutOf(msgId).Some?
    requires Parse(LayoutOf(msgId).value, c.serverVersion, [], Bytes(texts) + other) == Got(t, other)
    ensures NextTurn(TWS, c, MessageBytes(msgId, texts) + other) == Take(c, other, CallsOf(msgId, t))
  {
    Assoc(IntText(msgId) + [NUL], Bytes(texts), other);
    TakesId(msgId, Bytes(texts) + other);
  }

  /**
    A TICK_PRICE message makes a tickPrice callback, and for the bid, the ask and the last
    trade a tickSize callback with the size type that belongs to the price type.
  */
  lemma TickPriceDelivered(
    c: Link, version: string, tickerId: int, tickType: int, price: string, size: int, auto: int, other: string)
    requires c.connected && NoNul(version) && NoNul(price)
    requires IsInt32(tickerId) && IsInt32(tickType) && IsInt32(size) && IsInt32(auto)
    ensures
      var sizeType := if tickType == 1 then 0 else if tickType == 2 then 3 else 5;
      NextTurn(TWS, c, MessageBytes(1,
        [version, IntText(tickerId), IntText(tickType), price, IntText(size), IntText(auto)]) + other)
      == Take(c, other,
           [Call("tickPrice", [IntArg(tickerId), IntArg(tickType), TextArg(price), IntArg(auto)])]
           + if tickType in {1, 2, 4}
             then [Call("tickSize", [IntArg(tickerId), IntArg(sizeType), IntArg(size)])] else [])
  {
    hide Labelled, Lookup, Atoi, IntText, Bytes, MessageBytes, NextTurn, Parse;
    var texts := [version, IntText(tickerId), IntText(tickType), price, IntText(size), IntText(auto)];
    forall n { IntTextChars(n); }
    TakesRun(TICK_PRICE_FIELDS, texts, c.serverVersion, other);
    var t := Labelled(TICK_PRICE_FIELDS, texts);
    TakesMessage(c, TICK_PRICE, texts, t, other);
    forall k | 0 <= k < 6 ensures Lookup(t, TICK_PRICE_FIELDS[k]) == texts[k] {
      LabelledLookup(TICK_PRICE_FIELDS, texts, [], k);
    }
    assert Lookup(t, TICK_PRICE_FIELDS[1]) == texts[1] && Lookup(t, TICK_PRICE_FIELDS[2]) == texts[2]
        && Lookup(t, TICK_PRICE_FIELDS[3]) == texts[3] && Lookup(t, TICK_PRICE_FIELDS[4]) == texts[4]
        && Lookup(t, TICK_PRICE_FIELDS[5]) == texts[5];
    AtoiIntText(tickerId);
    AtoiIntText(tickType);
    AtoiIntText(size);
    AtoiIntText(auto);
  }

  // ------------------------------------------------------------------------------------------
  // Messages with items
  // ------------------------------------------------------------------------------------------

  /** Items, each a row of as many texts as there are names. */
  ghost predicate Rows(rows: seq<seq<string>>, width: nat) {
    forall row :: row in rows ==> |row| == width && Clean(row)
  }

  function Concat(rows: seq<seq<string>>): seq<string> {
    if rows == [] then [] else rows[0] + Concat(rows[1..])
  }

  lemma {:induction false} ConcatFacts(names: seq<string>, rows: seq<seq<string>>)
    requires Rows(rows, |names|)
    ensures Clean(Concat(rows)) && |Repeated(names, |rows|)| == |Concat(rows)|
  {
    if rows != [] {
      assert rows[0] in rows;
      ConcatFacts(names, rows[1..]);
    }
  }

  function LabelledRows(names: seq<string>, rows: seq<seq<string>>): seq<Trace>
    requires forall row :: row in rows ==> |row| == |names|
  {
    if rows == [] then [] else [Labelled(names, rows[0])] + LabelledRows(names, rows[1..])
  }

  lemma LabelledNext(names: seq<string>, rows: seq<seq<string>>)
    requires Rows(rows, |names|)
    ensures rows == [] ==> LabelledRows(names, rows) == []
    ensures rows != [] ==>
              && Rows(rows[1..], |names|)
              && LabelledRows(names, rows) != []
              && LabelledRows(names, rows)[0] == Labelled(names, rows[0])
              && LabelledRows(names, rows)[1..] == LabelledRows(names, rows[1..])
  {
    hide Labelled, Clean;
  }

  lemma ConcatNext(names: seq<string>, rows: seq<seq<string>>)
    requires rows != []
    ensures Concat(rows) == rows[0] + Concat(rows[1..]) && Repeated(names, |rows|) == names + Repeated(names, |rows| - 1)
  {
  }

  /** The items of the decoded message are the rows that were sent. */
  lemma {:induction false} ItemsAreRows(names: seq<string>, rows: seq<seq<string>>)
    requires Rows(rows, |names|) && |Repeated(names, |rows|)| == |Concat(rows)|
    ensures ItemsOf(Labelled(Repeated(names, |rows|), Concat(rows)), |names|, |rows|) == LabelledRows(names, rows)
    decreases |rows|
  {
    hide Labelled, Clean, ItemsOf, Concat, Repeated, LabelledRows;
    LabelledNext(names, rows);
    if rows == [] {
      NoItems(names);
    } else {
      assert rows[0] in rows;
      ConcatNext(names, rows);
      ConcatFacts(names, rows[1..]);
      ItemsAreRows(names, rows[1..]);
      var first, others := Labelled(names, rows[0]), Labelled(Repeated(names, |rows| - 1), Concat(rows[1..]));
      LabelledAppend(names, rows[0], Repeated(names, |rows| - 1), Concat(rows[1..]));
      LabelledFacts(names, rows[0]);
      ItemsNext(first, others, |rows| - 1);
      assert [first] + LabelledRows(names, rows[1..]) == LabelledRows(names, rows);
    }
  }

  lemma NoItems(names: seq<string>)
    ensures ItemsOf([], |names|, 0) == [] && Labelled([], []) == [] && Repeated(names, 0) == [] && Concat([]) == []
  {
  }

  lemma ItemsNext(first: Trace, others: Trace, n: nat)
    ensures ItemsOf(first + others, |first|, n + 1) == [first] + ItemsOf(others, |first|, n)
  {
    assert (first + others)[..|first|] == first && (first + others)[|first|..] == others;
  }

  /** A header that announces the rows, and the rows. */
  lemma TakesItems(
    headerNames: seq<string>, header: seq<string>, count: string, names: seq<string>, rows: seq<seq<string>>,
    sv: int, other: string)
    requires |headerNames| == |header| && Clean(header) && Rows(rows, |names|)
    requires |Repeated(names, |rows|)| == |Concat(rows)|
    requires IntOf(Labelled(headerNames, header), count) == |rows|
    ensures Parse(Fields(headerNames, Counted(count, names, End)), sv, [], Bytes(header + Concat(rows)) + other)
         == Got(Labelled(headerNames, header) + Labelled(Repeated(names, |rows|), Concat(rows)), other)
  {
    var h, items := Labelled(headerNames, header), Bytes(Concat(rows)) + other;
    ConcatFacts(names, rows);
    LabelledFacts(headerNames, header);
    LabelledFacts(Repeated(names, |rows|), Concat(rows));
    BytesAppend(header, Concat(rows));
    Assoc(Bytes(header), Bytes(Concat(rows)), other);
    ReadAllOfWire(headerNames, header, [], items);
    assert [] + h == h;
    TakesRows(names, rows, count, h, sv, other);
  }

  lemma TakesRows(names: seq<string>, rows: seq<seq<string>>, count: string, h: Trace, sv: int, other: string)
    requires |Repeated(names, |rows|)| == |Concat(rows)| && Clean(Concat(rows))
    requires IntOf(h, count) == |rows|
    ensures Parse(Counted(count, names, End), sv, h, Bytes(Concat(rows)) + other)
         == Got(h + Labelled(Repeated(names, |rows|), Concat(rows)), other)
  {
    LabelledFacts(Repeated(names, |rows|), Concat(rows));
    ReadAllOfWire(Repeated(names, |rows|), Concat(rows), h, other);
  }

  datatype Bar = Bar(
    date: string, open: string, high: string, low: string, close: string, volume: int, average: string,
    hasGaps: string, barCount: int)

  function BarRow(bar: Bar): seq<string> {
    [bar.date, bar.open, bar.high, bar.low, bar.close, IntText(bar.volume), bar.average, bar.hasGaps,
     IntText(bar.barCount)]
  }

  ghost predicate GoodBar(bar: Bar) {
    Clean(BarRow(bar)) && IsInt32(bar.volume) && IsInt32(bar.barCount)
  }

  /** The callback that a bar makes. */
  function BarOutput(reqId: int, bar: Bar): Output {
    Call("historicalData",
      [IntArg(reqId), TextArg(bar.date), TextArg(bar.open), TextArg(bar.high), TextArg(bar.low),
       TextArg(bar.close), IntArg(bar.volume), IntArg(bar.barCount), TextArg(bar.average),
       BoolArg(bar.hasGaps == "true")])
  }

  lemma BarDelivered(reqId: int, bar: Bar)
    requires GoodBar(bar)
    ensures BarCall(IntArg(reqId), Labelled(BAR_FIELDS, BarRow(bar))) == BarOutput(reqId, bar)
  {
    hide Labelled, Atoi, IntText;
    LabelledFacts(BAR_FIELDS, BarRow(bar));
    AtoiIntText(bar.volume);
    AtoiIntText(bar.barCount);
  }

  function BarRows(bars: seq<Bar>): (rows: seq<seq<string>>)
    ensures |rows| == |bars|
  {
    if bars == [] then [] else [BarRow(bars[0])] + BarRows(bars[1..])
  }

  function BarOutputs(reqId: int, bars: seq<Bar>): seq<Output> {
    if bars == [] then [] else [BarOutput(reqId, bars[0])] + BarOutputs(reqId, bars[1..])
  }

  lemma {:induction false} BarsDelivered(reqId: int, bars: seq<Bar>)
    requires forall bar :: bar in bars ==> GoodBar(bar)
    ensures Rows(BarRows(bars), 9)
    ensures BarCalls(IntArg(reqId), LabelledRows(BAR_FIELDS, BarRows(bars))) == BarOutputs(reqId, bars)
  {
    hide Labelled, BarCall, BarOutput;
    if bars != [] {
      assert bars[0] in bars;
      BarDelivered(reqId, bars[0]);
      BarsDelivered(reqId, bars[1..]);
    }
  }

  lemma EndIs(reqId: int, start: string, end: string)
    ensures HistoricalEnd(IntArg(reqId), start, end)
         == Call("historicalData",
                 [IntArg(reqId), TextArg("finished-" + start + "-" + end), TextArg("-1"), TextArg("-1"), TextArg("-1"),
                  TextArg("-1"), IntArg(-1), IntArg(-1), TextArg("-1"), BoolArg(false)])
  {
  }

  /** A HISTORICAL_DATA message makes one callback for each bar, in order, and one at the end. */
  lemma HistoricalDelivered(
    c: Link, version: string, reqId: int, start: string, end: string, bars: seq<Bar>, other: string)
    requires c.connected && NoNul(version) && NoNul(start) && NoNul(end)
    requires IsInt32(reqId) && |bars| <= INT_MAX && forall bar :: bar in bars ==> GoodBar(bar)
    ensures
      var header := [version, IntText(reqId), start, end, IntText(|bars|)];
      NextTurn(TWS, c, MessageBytes(17, header + Concat(BarRows(bars))) + other)
      == Take(c, other, BarOutputs(reqId, bars)
           + [Call("historicalData",
                   [IntArg(reqId), TextArg("finished-" + start + "-" + end), TextArg("-1"), TextArg("-1"), TextArg("-1"),
                    TextArg("-1"), IntArg(-1), IntArg(-1), TextArg("-1"), BoolArg(false)])])
  {
    EndIs(reqId, start, end);
    hide *;
    var header, rows := [version, IntText(reqId), start, end, IntText(|bars|)], BarRows(bars);
    HistoricalParses(c.serverVersion, version, reqId, start, end, bars, other);
    HistoricalCallsAre(version, reqId, start, end, bars);
    TakesHistorical(c, header + Concat(rows), HistoricalTrace(header, rows), other);
  }

  /** The fields that the client decodes from a HISTORICAL_DATA message. */
  function HistoricalTrace(header: seq<string>, rows: seq<seq<string>>): Trace
    requires |header| == 5 && |Repeated(BAR_FIELDS, |rows|)| == |Concat(rows)|
  {
    Labelled(HISTORICAL_HEADER, header) + Labelled(Repeated(BAR_FIELDS, |rows|), Concat(rows))
  }

  lemma HistoricalParses(
    sv: int, version: string, reqId: int, start: string, end: string, bars: seq<Bar>, other: string)
    requires NoNul(version) && NoNul(start) && NoNul(end)
    requires IsInt32(reqId) && |bars| <= INT_MAX && forall bar :: bar in bars ==> GoodBar(bar)
    ensures
      var header, rows := [version, IntText(reqId), start, end, IntText(|bars|)], BarRows(bars);
      && |Repeated(BAR_FIELDS, |rows|)| == |Concat(rows)|
      && Parse(HistoricalLayout(), sv, [], Bytes(header + Concat(rows)) + other)
         == Got(HistoricalTrace(header, rows), other)
  {
    hide Labelled, Lookup, Atoi, IntText, NoNul, Clean, Parse, Bytes, Concat, Repeated, BarRows, BarCalls, BarOutputs;
    var header, rows := [version, IntText(reqId), start, end, IntText(|bars|)], BarRows(bars);
    IntTextClean(reqId);
    IntTextClean(|bars|);
    CleanFive(version, IntText(reqId), start, end, IntText(|bars|));
    BarsDelivered(reqId, bars);
    ConcatFacts(BAR_FIELDS, rows);
    HistoricalHeader(version, reqId, start, end, |bars|, []);
    TakesItems(HISTORICAL_HEADER, header, "itemCount", BAR_FIELDS, rows, sv, other);
  }

  lemma HistoricalCallsAre(version: string, reqId: int, start: string, end: string, bars: seq<Bar>)
    requires IsInt32(reqId) && |bars| <= INT_MAX && forall bar :: bar in bars ==> GoodBar(bar)
    requires |Repeated(BAR_FIELDS, |BarRows(bars)|)| == |Concat(BarRows(bars))|
    ensures
      var header := [version, IntText(reqId), start, end, IntText(|bars|)];
      HistoricalCalls(HistoricalTrace(header, BarRows(bars)))
      == BarOutputs(reqId, bars) + [HistoricalEnd(IntArg(reqId), start, end)]
  {
    hide Labelled, Lookup, Atoi, IntText, Concat, Repeated, BarRows, BarCalls, BarOutputs;
    var rows := BarRows(bars);
    var items := Labelled(Repeated(BAR_FIELDS, |rows|), Concat(rows));
    BarsDelivered(reqId, bars);
    HistoricalHeader(version, reqId, start, end, |bars|, items);
    ItemsAreRows(BAR_FIELDS, rows);
  }

  lemma TakesHistorical(c: Link, texts: seq<string>, t: Trace, other: string)
    requires c.connected && Parse(HistoricalLayout(), c.serverVersion, [], Bytes(texts) + other) == Got(t, other)
    ensures NextTurn(TWS, c, MessageBytes(17, texts) + other) == Take(c, other, HistoricalCalls(t))
  {
    hide Parse, Bytes, MessageBytes, NextTurn, HistoricalCalls, HistoricalLayout;
    TakesMessage(c, HISTORICAL_DATA, texts, t, other);
  }

  lemma HistoricalHeader(version: string, reqId: int, start: string, end: string, n: nat, items: Trace)
    requires IsInt32(reqId) && IsInt32(n)
    ensures
      var h := Labelled(HISTORICAL_HEADER, [version, IntText(reqId), start, end, IntText(n)]);
      && IntOf(h, "itemCount") == n && ItemCount(h + items, "itemCount") == n
      && IntOf(h + items, "reqId") == reqId
      && Lookup(h + items, "startDateStr") == start && Lookup(h + items, "endDateStr") == end
      && After(h + items, 5) == items
  {
    var header := [version, IntText(reqId), start, end, IntText(n)];
    var h := Labelled(HISTORICAL_HEADER, header);
    LabelledFacts(HISTORICAL_HEADER, header);
    HeaderLookups(HISTORICAL_HEADER, header, items);
    assert Lookup(h, HISTORICAL_HEADER[4]) == header[4];
    assert Lookup(h + items, HISTORICAL_HEADER[1]) == header[1] && Lookup(h + items, HISTORICAL_HEADER[2]) == header[2]
        && Lookup(h + items, HISTORICAL_HEADER[3]) == header[3] && Lookup(h + items, HISTORICAL_HEADER[4]) == header[4];
    AtoiIntText(reqId);
    AtoiIntText(n);
    assert (h + items)[5..] == items;
  }

  lemma HeaderLookups(names: seq<string>, header: seq<string>, more: Trace)
    requires |names| == |header|
    requires forall j, k :: 0 <= j < k < |names| ==> names[j] != names[k]
    ensures forall k :: 0 <= k < |names| ==> Lookup(Labelled(names, header), names[k]) == header[k]
    ensures forall k :: 0 <= k < |names| ==> Lookup(Labelled(names, header) + more, names[k]) == header[k]
  {
    forall k | 0 <= k < |names| {
      LabelledLookup(names, header, more, k);
    }
    forall k | 0 <= k < |names| ensures Lookup(Labelled(names, header) + more, names[k]) == header[k] {
      LabelledLookup(names, header, more, k);
    }
  }

  function ScanOutputs(tickerId: int, rows: seq<seq<string>>): seq<Output>
    requires forall row :: row in rows ==> |row| == 16
  {
    if rows == [] then [] else [ScanOutput(tickerId, rows[0])] + ScanOutputs(tickerId, rows[1..])
  }

  /** The callback that a scanner row makes; its first twelve fields but one describe the contract. */
  function ScanOutput(tickerId: int, row: seq<string>): Output
    requires |row| == 16
  {
    Call("scannerData",
      [IntArg(tickerId), IntArg(Atoi(row[0])), RecordArg(Labelled(
         ["rank", "conId", "symbol", "secType", "expiry", "strike", "right", "exchange", "currency", "localSymbol",
          "marketName", "tradingClass", "distance", "benchmark", "projection", "legsStr"], row)),
       TextArg(row[12]), TextArg(row[13]), TextArg(row[14]), TextArg(row[15])])
  }

  lemma ScanDelivered(tickerId: int, row: seq<string>)
    requires |row| == 16
    ensures ScanCall(IntArg(tickerId), Labelled(SCAN_FIELDS, row)) == ScanOutput(tickerId, row)
  {
    hide Labelled, Atoi;
    LabelledFacts(SCAN_FIELDS, row);
  }

  lemma {:induction false} ScansDelivered(tickerId: int, rows: seq<seq<string>>)
    requires Rows(rows, 16)
    ensures ScanCalls(IntArg(tickerId), LabelledRows(SCAN_FIELDS, rows)) == ScanOutputs(tickerId, rows)
  {
    hide Labelled, LabelledRows, ScanCall, ScanOutput, Clean;
    LabelledNext(SCAN_FIELDS, rows);
    if rows != [] {
      assert rows[0] in rows;
      ScanDelivered(tickerId, rows[0]);
      ScansDelivered(tickerId, rows[1..]);
    }
  }

  /** A SCANNER_DATA message makes one callback for each row, in order, and one at the end. */
  lemma ScannerDelivered(c: Link, version: string, tickerId: int, rows: seq<seq<string>>, other: string)
    requires c.connected && NoNul(version) && IsInt32(tickerId) && |rows| <= INT_MAX && Rows(rows, 16)
    ensures
      var header := [version, IntText(tickerId), IntText(|rows|)];
      NextTurn(TWS, c, MessageBytes(20, header + Concat(rows)) + other)
      == Take(c, other, ScanOutputs(tickerId, rows) + [Call("scannerDataEnd", [IntArg(tickerId)])])
  {
    hide *;
    var header := [version, IntText(tickerId), IntText(|rows|)];
    ScannerParses(c.serverVersion, version, tickerId, rows, other);
    ScannerCallsAre(version, tickerId, rows);
    TakesScanner(c, header + Concat(rows), ScannerTrace(header, rows), other);
  }

  /** The fields that the client decodes from a SCANNER_DATA message. */
  function ScannerTrace(header: seq<string>, rows: seq<seq<string>>): Trace
    requires |header| == 3 && |Repeated(SCAN_FIELDS, |rows|)| == |Concat(rows)|
  {
    Labelled(SCANNER_HEADER, header) + Labelled(Repeated(SCAN_FIELDS, |rows|), Concat(rows))
  }

  lemma ScannerParses(sv: int, version: string, tickerId: int, rows: seq<seq<string>>, other: string)
    requires NoNul(version) && IsInt32(tickerId) && |rows| <= INT_MAX && Rows(rows, 16)
    ensures
      var header := [version, IntText(tickerId), IntText(|rows|)];
      && |Repeated(SCAN_FIELDS, |rows|)| == |Concat(rows)|
      && Parse(ScannerLayout(), sv, [], Bytes(header + Concat(rows)) + other) == Got(ScannerTrace(header, rows), other)
  {
    hide Labelled, Lookup, Atoi, IntText, NoNul, Clean, Parse, Bytes, Concat, Repeated;
    var header := [version, IntText(tickerId), IntText(|rows|)];
    IntTextClean(tickerId);
    IntTextClean(|rows|);
    CleanThree(version, IntText(tickerId), IntText(|rows|));
    ConcatFacts(SCAN_FIELDS, rows);
    ScannerHeader(version, tickerId, |rows|, []);
    TakesItems(SCANNER_HEADER, header, "numberOfElements", SCAN_FIELDS, rows, sv, other);
  }

  lemma ScannerCallsAre(version: string, tickerId: int, rows: seq<seq<string>>)
    requires IsInt32(tickerId) && |rows| <= INT_MAX && Rows(rows, 16)
    requires |Repeated(SCAN_FIELDS, |rows|)| == |Concat(rows)|
    ensures
      var header := [version, IntText(tickerId), IntText(|rows|)];
      ScannerCalls(ScannerTrace(header, rows))
      == ScanOutputs(tickerId, rows) + [Call("scannerDataEnd", [IntArg(tickerId)])]
  {
    hide Labelled, Lookup, Atoi, IntText, Concat, Repeated, ScanCalls, ScanOutputs, ItemsOf, LabelledRows, Clean, After,
         IntOf, ItemCount, Rows;
    var items := Labelled(Repeated(SCAN_FIELDS, |rows|), Concat(rows));
    ScansDelivered(tickerId, rows);
    ScannerHeader(version, tickerId, |rows|, items);
    ItemsAreRows(SCAN_FIELDS, rows);
  }

  lemma TakesScanner(c: Link, texts: seq<string>, t: Trace, other: string)
    requires c.connected && Parse(ScannerLayout(), c.serverVersion, [], Bytes(texts) + other) == Got(t, other)
    ensures NextTurn(TWS, c, MessageBytes(20, texts) + other) == Take(c, other, ScannerCalls(t))
  {
    hide Parse, Bytes, MessageBytes, NextTurn, ScannerCalls, ScannerLayout;
    TakesMessage(c, SCANNER_DATA, texts, t, other);
  }

  lemma ScannerHeader(version: string, tickerId: int, n: nat, items: Trace)
    requires IsInt32(tickerId) && IsInt32(n)
    ensures
      var h := Labelled(SCANNER_HEADER, [version, IntText(tickerId), IntText(n)]);
      && IntOf(h, "numberOfElements") == n && ItemCount(h + items, "numberOfElements") == n
      && IntOf(h + items, "tickerId") == tickerId
      && After(h + items, 3) == items
  {
    var header := [version, IntText(tickerId), IntText(n)];
    var h := Labelled(SCANNER_HEADER, header);
    LabelledFacts(SCANNER_HEADER, header);
    HeaderLookups(SCANNER_HEADER, header, items);
    assert Lookup(h, SCANNER_HEADER[2]) == header[2];
    assert Lookup(h + items, SCANNER_HEADER[1]) == header[1] && Lookup(h + items, SCANNER_HEADER[2]) == header[2];
    AtoiIntText(tickerId);
    AtoiIntText(n);
    assert (h + items)[3..] == items;
  }

  // ------------------------------------------------------------------------------------------
  // Messages whose fields depend on versions
  // ------------------------------------------------------------------------------------------

  function One(b: bool, n: int): int {
    if b then n else 0
  }

  /** How many fields a complete CONTRACT_DATA message has, by its version. */
  lemma ContractSize(sv: int, b: string, t: Trace, rest: string)
    requires Parse(ContractLayout(), sv, [], b) == Got(t, rest)
    ensures var v := IntOf(t, "version");
      |t| == if v < 3 then 17 else if v == 3 then 18 else if v == 4 then 19 else if v == 5 then 21 else 28
  {
    hide Parse, Lookup, Atoi;
    ContractSighted();
    ParseSize(ContractLayout(), sv, [], [], b);
    var l, core, last := ContractLayout(), ContractCore(), ContractNames();
    OptionalSize(last.rest, 7, sv, t);
    OptionalSize(last, 2, sv, t);
    OptionalSize(core.rest, 1, sv, t);
    OptionalSize(l.rest, 1, sv, t);
  }

  /** The size of a part of a layout that begins with an optional run of fields. */
  lemma OptionalSize(l: Layout, n: nat, sv: int, t: Trace)
    requires l.When? && l.body.Fields? && l.body.rest.End? && |l.body.names| == n
    ensures Size(l, sv, t) == One(Holds(l.test, sv, t), n) + Size(l.rest, sv, t)
  {
    assert Size(l.body.rest, sv, t) == 0;
    assert Size(l.body, sv, t) == n;
  }

  lemma OptionalSighted(l: Layout, seen: seq<string>)
    requires l.When? && l.body.Fields? && l.body.rest.End? && Sighted(l.rest, seen)
    requires forall name :: name in TestedNames(l.test) ==> name in seen
    ensures Sighted(l, seen)
  {
  }

  lemma FieldsSighted(l: Layout, seen: seq<string>)
    requires l.Fields? && (Sighted(l.rest, seen) || Sighted(l.rest, seen + l.names))
    ensures Sighted(l, seen)
  {
    if Sighted(l.rest, seen) {
      SightedMore(l.rest, seen, seen + l.names);
    }
  }

  lemma ContractSighted()
    ensures Sighted(ContractLayout(), [])
  {
    hide Sighted;
    var l, core, last := ContractLayout(), ContractCore(), ContractNames();
    var seen := ["version"];
    SightedEnd(seen);
    OptionalSighted(last.rest, seen);
    OptionalSighted(last, seen);
    OptionalSighted(core.rest, seen);
    FieldsSighted(core, seen);
    OptionalSighted(l.rest, seen);
    assert [] + l.names == seen;
    FieldsSighted(l, []);
  }

  lemma SightedEnd(seen: seq<string>)
    ensures Sighted(End, seen)
  {
  }

  /** The extra fields of an OPEN_ORDER message, by its own content. */
  function OpenOrderExtras(sv: int, t: Trace): int {
    var v := IntOf(t, "version");
    // an exempt code, from server 51 or in version 23
    (if sv == 51 || v >= 23 then 1 else 0)
    // a delta neutral order
    + One(v >= 27 && Lookup(t, "deltaNeutralOrderType") != "", 4)
    // smart combo routing parameters
    + (if v >= 26 then 1 + 2 * Pairs(t, "smartComboRoutingParamsCount") else 0)
    // a hedge
    + (if v >= 24 then 1 + One(Lookup(t, "hedgeType") != "", 1) else 0)
    + One(v >= 25, 1)
    + One(v >= 22, 1)
    // an underlying component
    + (if v >= 20 then 1 + One(IntOf(t, "underCompPresent") > 0, 3) else 0)
    // an algorithm and its parameters
    + (if v >= 21 then 1 + (if Lookup(t, "algoStrategy") != "" then 1 + 2 * Pairs(t, "algoParamsCount") else 0)
       else 0)
  }

  function Pairs(t: Trace, count: string): int {
    if IntOf(t, count) > 0 then IntOf(t, count) else 0
  }

  /**
    A complete OPEN_ORDER message has 81 fields behind its id, the one price increment and the
    two scale sizes among them, and then exactly the extras that its versions, its flags and
    its counts announce.
  */
  lemma OpenOrderSize(sv: int, b: string, t: Trace, rest: string)
    requires Parse(OpenOrderLayout(), sv, [], b) == Got(t, rest)
    ensures |t| == 81 + OpenOrderExtras(sv, t)
  {
    hide Parse, Lookup, Atoi, Sighted, Size, OpenOrderVolatility, OpenOrderCombo, OpenOrderHedge, OpenOrderClearing;
    OpenOrderSighted();
    ParseSize(OpenOrderLayout(), sv, [], [], b);
    OpenOrderHead(sv, t);
    OpenOrderMiddle(sv, t);
    OpenOrderTail(sv, t);
    assert |OPEN_ORDER_FIRST| == 39;
    FieldsSize(OpenOrderLayout(), 39, sv, t);
  }

  lemma FieldsSize(l: Layout, n: nat, sv: int, t: Trace)
    requires l.Fields? && |l.names| == n
    ensures Size(l, sv, t) == n + Size(l.rest, sv, t)
  {
  }

  lemma WhenSize(l: Layout, sv: int, t: Trace)
    requires l.When?
    ensures Size(l, sv, t) == (if Holds(l.test, sv, t) then Size(l.body, sv, t) else 0) + Size(l.rest, sv, t)
  {
  }

  lemma TagValuesSize(count: string, sv: int, t: Trace)
    ensures Size(TagValues(count), sv, t) == 1 + 2 * Pairs(t, count)
  {
    hide Lookup, Atoi;
    var l := TagValues(count);
    assert Size(l.rest.body.rest, sv, t) == 0;
    assert Size(l.rest.body, sv, t) == IntOf(t, count) * 2;
    assert Size(l.rest.rest, sv, t) == 0;
  }

  lemma OpenOrderHead(sv: int, t: Trace)
    ensures Size(OpenOrderExempt(), sv, t) ==
      (if sv == 51 || IntOf(t, "version") >= 23 then 1 else 0) + 21
      + One(IntOf(t, "version") >= 27 && Lookup(t, "deltaNeutralOrderType") != "", 4)
      + Size(OpenOrderCombo(), sv, t)
  {
    hide Lookup, Atoi, Size, OpenOrderCombo;
    var l, m := OpenOrderExempt(), OpenOrderVolatility();
    OptionalSize(l, 1, sv, t);
    OptionalSize(l.rest, 1, sv, t);
    FieldsSize(m, 21, sv, t);
    OptionalSize(m.rest, 4, sv, t);
  }

  lemma OpenOrderMiddle(sv: int, t: Trace)
    ensures Size(OpenOrderCombo(), sv, t) ==
      6 + (if IntOf(t, "version") >= 26 then 1 + 2 * Pairs(t, "smartComboRoutingParamsCount") else 0)
      + 2 + 1
      + (if IntOf(t, "version") >= 24 then 1 + One(Lookup(t, "hedgeType") != "", 1) else 0)
      + Size(OpenOrderClearing(), sv, t)
  {
    hide Lookup, Atoi, Size, OpenOrderClearing;
    var l, m, h := OpenOrderCombo(), OpenOrderScale(), OpenOrderHedge();
    FieldsSize(l, 6, sv, t);
    WhenSize(l.rest, sv, t);
    TagValuesSize("smartComboRoutingParamsCount", sv, t);
    OptionalSize(m, 2, sv, t);
    OptionalSize(m.rest, 2, sv, t);
    FieldsSize(h, 1, sv, t);
    WhenSize(h.rest, sv, t);
    FieldsSize(h.rest.body, 1, sv, t);
    OptionalSize(h.rest.body.rest, 1, sv, t);
    EndSize(sv, t);
  }

  lemma EndSize(sv: int, t: Trace)
    ensures Size(End, sv, t) == 0
  {
  }

  lemma OpenOrderTail(sv: int, t: Trace)
    ensures Size(OpenOrderClearing(), sv, t) ==
      One(IntOf(t, "version") >= 25, 1) + 2 + One(IntOf(t, "version") >= 22, 1)
      + (if IntOf(t, "version") >= 20 then 1 + One(IntOf(t, "underCompPresent") > 0, 3) else 0)
      + (if IntOf(t, "version") >= 21
         then 1 + (if Lookup(t, "algoStrategy") != "" then 1 + 2 * Pairs(t, "algoParamsCount") else 0) else 0)
      + 10
  {
    hide Lookup, Atoi, Size;
    var l, m, a := OpenOrderClearing(), OpenOrderUnderComp(), OpenOrderAlgo();
    EndSize(sv, t);
    OptionalSize(l, 1, sv, t);
    FieldsSize(l.rest, 2, sv, t);
    OptionalSize(m, 1, sv, t);
    WhenSize(m.rest, sv, t);
    FieldsSize(m.rest.body, 1, sv, t);
    OptionalSize(m.rest.body.rest, 3, sv, t);
    WhenSize(a, sv, t);
    FieldsSize(a.body, 1, sv, t);
    WhenSize(a.body.rest, sv, t);
    TagValuesSize("algoParamsCount", sv, t);
    FieldsSize(a.rest, 10, sv, t);
  }

  lemma WhenSighted(l: Layout, seen: seq<string>)
    requires l.When? && Sighted(l.body, seen) && Sighted(l.rest, seen)
    requires forall name :: name in TestedNames(l.test) ==> name in seen
    ensures Sighted(l, seen)
  {
  }

  lemma TagValuesSighted(count: string, seen: seq<string>)
    ensures Sighted(TagValues(count), seen)
  {
  }

  lemma OpenOrderSighted()
    ensures Sighted(OpenOrderLayout(), [])
  {
    hide Sighted;
    var seen := ["version"];
    TailSighted(seen);
    MiddleSighted(seen);
    HeadSighted(seen);
    var l := OpenOrderLayout();
    assert OPEN_ORDER_FIRST[0] == "version";
    SightedMore(l.rest, seen, [] + l.names);
    FieldsSighted(l, []);
  }

  lemma HeadSighted(seen: seq<string>)
    requires "version" in seen && Sighted(OpenOrderCombo(), seen)
    ensures Sighted(OpenOrderExempt(), seen)
  {
    hide Sighted, OpenOrderCombo;
    var l, m := OpenOrderExempt(), OpenOrderVolatility();
    SightedMore(OpenOrderCombo(), seen, seen + m.names);
    assert OPEN_ORDER_SECOND[19] == "deltaNeutralOrderType";
    assert "deltaNeutralOrderType" in m.names;
    OptionalSighted(m.rest, seen + m.names);
    FieldsSighted(m, seen);
    OptionalSighted(l.rest, seen);
    OptionalSighted(l, seen);
  }

  lemma MiddleSighted(seen: seq<string>)
    requires "version" in seen && Sighted(OpenOrderClearing(), seen)
    ensures Sighted(OpenOrderCombo(), seen)
  {
    hide Sighted, OpenOrderClearing;
    var l, m, h := OpenOrderCombo(), OpenOrderScale(), OpenOrderHedge();
    SightedEnd(seen + ["hedgeType"]);
    OptionalSighted(h.rest.body.rest, seen + ["hedgeType"]);
    FieldsSighted(h.rest.body, seen);
    WhenSighted(h.rest, seen);
    FieldsSighted(h, seen);
    OptionalSighted(m.rest, seen);
    OptionalSighted(m, seen);
    TagValuesSighted("smartComboRoutingParamsCount", seen);
    WhenSighted(l.rest, seen);
    FieldsSighted(l, seen);
  }

  lemma TailSighted(seen: seq<string>)
    requires "version" in seen
    ensures Sighted(OpenOrderClearing(), seen)
  {
    hide Sighted;
    var l, m, a := OpenOrderClearing(), OpenOrderUnderComp(), OpenOrderAlgo();
    SightedEnd(seen);
    FieldsSighted(a.rest, seen);
    TagValuesSighted("algoParamsCount", seen + ["algoStrategy"]);
    SightedEnd(seen + ["algoStrategy"]);
    WhenSighted(a.body.rest, seen + ["algoStrategy"]);
    FieldsSighted(a.body, seen);
    WhenSighted(a, seen);
    SightedEnd(seen + ["underCompPresent"]);
    OptionalSighted(m.rest.body.rest, seen + ["underCompPresent"]);
    FieldsSighted(m.rest.body, seen);
    WhenSighted(m.rest, seen);
    OptionalSighted(m, seen);
    FieldsSighted(l.rest, seen);
    OptionalSighted(l, seen);
  }
}
