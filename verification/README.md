# Verification of the trading system's stream, book and thread logic

A Dafny model of the parts of the system in which state, arithmetic or concurrency is hard to get
right, with proofs for all inputs, all runs and all interleavings. `dafny verify dfyconfig.toml`
checks everything.

| part | modules | what it is about |
|---|---|---|
| Interactive Brokers client | `IbFields`, `IbStream`, `IbLayout`, `IbProtocol`, `IbClient`, `IbMessages`, `IbDelivery`, `IbCallbacks`, `IbRecords`, `IbCounts` | NUL-terminated fields without message lengths, decoded from whatever the socket delivers |
| ITCH receive path | `RingBuffer`, `ItchSocket`, `ItchPacket` | a growing ring buffer under TLF framing under fixed-width fields |
| Order book v2 and its FIX feed | `BookModel`, `OrderBook`, `FixFeed` | an id map and two trees of levels that share order objects, driven by 35=W and 35=X messages of FIX 4.2 |
| Ring-linked shared pointer | `SharedPtr` | ownership without a counter |
| Pump and dispatcher | `Handoff` | a one-slot handoff between two threads |
| ITCH dispatch pool | `DispatchPool` | a queue, a pool of workers and their shutdown |
| Depth-bounded book v1 | `DepthBook` | two maps over the same entries, trimmed to a depth |
| Reply routing | `ReplyRouting` | order id to strategy to address, across queues |
| Aggregated book | `AggregatedBook` | the best quote over venues with timeouts |

`Wrappers`, `Sequences` and `Decimal` hold the optional value, a few facts about sequences, and the
decimal text of machine integers.

## How the source is represented

- Objects that the source updates in place are classes: the client socket, the ring buffer, orders,
  levels and books, uses and handles, the message processor, the aggregator. Their methods follow the
  source statement by statement, and each is proved against a function or a predicate on values. The
  history of updates or events is a ghost field where the specification needs it.
- The 34 message cases of `processMsg` are tables (`IbMessages`): which fields are decoded, under
  which tests of versions, flags and texts, and which are repeated by a count. `DecodeMessage` walks
  a table with a cursor as the source does; the stability, size and no-lookahead theorems hold for
  every table. For every message id a delivery lemma says, from the bytes to the callback, which text
  of the wire reaches the application in which place.
- Threads are program counters over the shared fields. A step is what one thread does between two
  points at which another can interfere; an interleaving is any sequence of possible steps.
- Unsigned 32-bit volumes are kept modulo 2^32; `atoi` and `strtol` clamp and wrap as they do in C.
- Where the text of the source does not do what its comments say, both are modelled. `RingBuffer`
  names three such lines (64, 78, 180 of `ExpandableRingBuffer.cpp`) and proves exactly in which
  layouts the text as written is right. `KBook.add` and `PriceDepthOrderBook::add` do not check for
  duplicates; `OrderBook.KBook.Add` and `DepthBook.BookSide.Add` say exactly when that is harmless.

## What turned out to be false, and when it is true

- The client's independence from the socket's cuts fails for streams with a negative item count,
  because the exception leaves the message in the buffer and every later read reports it again. It
  holds if and only if no HISTORICAL_DATA or SCANNER_DATA header with a negative count, behind a run
  of whole messages, is complete before the last byte (`IbCounts.ClientChunkingIndependence`).
- The ring buffer loses data when it grows while exactly full at a non-zero offset, or while the
  wrapped part is longer than the added space; its search is right only for unwrapped data or when
  the data length equals the offset (`RingBuffer.KeepsIff`, `RingBuffer.SearchesIff`). Three methods
  come to such a layout from a new buffer by writing and reading alone.
- `SendPacket` reports success although the TLF that it adds was not sent exactly when the packet has
  no TLF at its end, the network takes all of it and then nothing of that one-byte send
  (`ItchSocket.Socket.SendPacket`); it happens (`ItchSocket.EndNotSent`), and the other side then
  takes two packets for one (`ItchSocket.EndMissingMerges`).
- `ReadUntilTLF` answers true and leaves the position at -1 exactly when the packet is empty
  (`ItchPacket.PacketBase.ReadUntilTLF`).
- `ReadLong` takes cells for numbers that are none: exactly those of white space only, those that
  begin with a NUL, and those with a NUL right behind a numeral (`ItchPacket.NonNumbersAccepted`).
- The comment in `Stop` that the dispatch threads do not end before the queue is empty is wrong: one
  message can stay, and never more than one. It can exactly when the flag is set while the server
  worker waits for a message or, with one in its hands, for the mutex, and no worker sleeps at that
  moment or one may wake up by itself (`DispatchPool.LeftIff`).
- `add` of the order book and of the depth book, raw pointers given to two handles, and snapshots and
  refreshes of the feed: the state is sound afterwards exactly for a fresh id, a fit entry, a new
  object and messages that never add under a live id.
- The symbol of a broadcast quote is never filled in (`aggregated_book.cpp:125-126`).

## Model

| member | source | states |
|---|---|---|
| IbFields.RecordRoundTrip | market_data/interactive_brokers/Shared/EClientSocketBaseImpl.h:242-273 | Strings, booleans, 32-bit ints and max ints, encoded in order and decoded in order, come back and are consumed exactly, whatever follows, if and only if no string holds a NUL |
| IbFields.ValueRoundTrip | market_data/interactive_brokers/Shared/EClientSocketBaseImpl.h:297-326 | Each kind of field value that its C++ type can hold is recovered from its text, and only strings can hold a NUL |
| IbFields.WireTexts | market_data/interactive_brokers/Shared/EClientSocketBaseImpl.h:242-326 | On the wire a flag is a 1 or a 0 and is set when the number is positive; the largest 32-bit int is an empty max field, out and in |
| IbFields.NextFieldStable | market_data/interactive_brokers/Shared/EClientSocketBaseImpl.h:286-295 | A field that is found, found short or not found by looking for its NUL is judged the same with more bytes behind it |
| Decimal.IntTextValue | market_data/interactive_brokers/Shared/EClientSocketBaseImpl.h:306-317 | The decimal text of any integer is read back as that integer with nothing left unread |
| Decimal.AtoiIntText | market_data/interactive_brokers/Shared/EClientSocketBaseImpl.h:306-317 | atoi gives every 32-bit integer back from its text |
| Decimal.AtoiWraps | market_data/interactive_brokers/Shared/EClientSocketBaseImpl.h:306-317 | Of the other integers that a long holds atoi keeps the low 32 bits; above them it gives -1 and below them 0 |
| Decimal.DigitsValue | market_data/interactive_brokers/Shared/EClientSocketBaseImpl.h:306-317 | One more digit on the right is ten times the value and the digit |
| IbLayout.ParseExact | market_data/interactive_brokers/Shared/EClientSocketBaseImpl.h:2123-3186 | A decoded message is byte for byte its own fields: nothing is skipped and nothing read twice, through every version test, flag and counted loop |
| IbLayout.ParseStable | market_data/interactive_brokers/Shared/EClientSocketBaseImpl.h:2123-3186 | Prefix stability of every decode case: a verdict other than too few bytes is not changed by bytes that arrive later |
| IbLayout.ParseNoLookahead | market_data/interactive_brokers/Shared/EClientSocketBaseImpl.h:2123-3186 | The verdict on a message depends on the bytes of the message only, so messages form a prefix code |
| IbLayout.ParseSize | market_data/interactive_brokers/Shared/EClientSocketBaseImpl.h:2372-2594 | A decoded message has exactly the number of fields that its own finished content announces, for every layout that tests only what it has decoded |
| IbProtocol.TurnStable | market_data/interactive_brokers/Shared/EClientSocketBaseImpl.h:2070-2200 | One call of processConnectAck or processMsg that is not waiting gives the same result with more bytes behind |
| IbProtocol.WaitIsHarmless | market_data/interactive_brokers/Shared/EClientSocketBaseImpl.h:2080-2084 | The server version that a partial acknowledgement leaves behind never shows once the rest arrives |
| IbProtocol.AllOrNothing | market_data/interactive_brokers/Shared/EClientSocketBaseImpl.h:2123-2200 | A turn consumes exactly one whole message with the same callbacks whatever follows it, and every proper prefix of that message waits without a callback |
| IbProtocol.ClientIsLawful | market_data/interactive_brokers/Shared/EClientSocketBaseImpl.h:2041-2200 | The acknowledgement and every message case together satisfy the laws of a stream decoder |
| IbStream.DrainSplit | market_data/interactive_brokers/Shared/EClientSocketBaseImpl.h:2050-2067 | Draining a buffer is draining its first part and then going on from there with the second, unless an exception ended the first |
| IbStream.FeedAllAgrees | market_data/interactive_brokers/Shared/EClientSocketBaseImpl.h:2041-2068 | Any sequence of reads makes the callbacks and reaches the state of one read of everything, when the decoder throws at none of the bytes before the last one |
| IbStream.ChunkingIndependence | market_data/interactive_brokers/Shared/EClientSocketBaseImpl.h:2041-2068 | For every lawful decoder and every stream, all ways of cutting the stream into reads agree with one read if and only if the decoder throws at none of the bytes before the last one |
| IbCounts.MessageThrowsIff | market_data/interactive_brokers/Shared/EClientSocketBaseImpl.h:2123-3186 | Decoding a message throws if and only if it is HISTORICAL_DATA or SCANNER_DATA, its header is complete and the item count in it is negative; no other message case can throw, whatever its bytes |
| IbCounts.StuckIffNegative | market_data/interactive_brokers/Shared/EClientSocketBaseImpl.h:2041-2068 | The decoder is stuck on a stream if and only if the stream is a run of whole messages and then such a header |
| IbCounts.ClientChunkingIndependence | market_data/interactive_brokers/Shared/EClientSocketBaseImpl.h:2041-2068 | For every stream of this client, all ways of cutting it into reads agree with one read if and only if, without its last byte, it is not a run of whole messages followed by a header that announces a negative number of items |
| IbCounts.NonNegativeStream | market_data/interactive_brokers/Shared/EClientSocketBaseImpl.h:2041-2068 | A stream in which every announced number of items is not negative may be cut anywhere |
| IbCounts.NegativeCountThrows | market_data/interactive_brokers/Shared/EClientSocketBaseImpl.h:2925-2975 | A HISTORICAL_DATA message that announces -1 bars ends in an exception that is reported, whatever follows |
| IbCounts.NegativeCountShowsTheCut | market_data/interactive_brokers/Shared/EClientSocketBaseImpl.h:2925-2975 | With such a message followed by one more byte two ways of cutting the stream give different callbacks |
| IbDelivery.TickPriceDelivered | market_data/interactive_brokers/Shared/EClientSocketBaseImpl.h:2137-2176 | A TICK_PRICE message makes a tickPrice callback and, for bid, ask and last, a tickSize callback with the matching size type, and is consumed exactly |
| IbDelivery.HistoricalDelivered | market_data/interactive_brokers/Shared/EClientSocketBaseImpl.h:2925-2975 | A HISTORICAL_DATA message makes one callback for each bar, in order, and the closing one, and is consumed exactly |
| IbDelivery.ScannerDelivered | market_data/interactive_brokers/Shared/EClientSocketBaseImpl.h:2977-3028 | A SCANNER_DATA message makes one callback for each row, in order, and the closing one, and is consumed exactly |
| IbCallbacks.AckDelivered | market_data/interactive_brokers/Shared/EClientSocketBaseImpl.h:2070-2121 | The acknowledgement of a server that is new enough: version and time are kept and the client id is sent |
| IbCallbacks.OldServerRefused | market_data/interactive_brokers/Shared/EClientSocketBaseImpl.h:2086-2090 | A server older than 38: error 503 and a disconnect |
| IbCallbacks.UnknownDelivered | market_data/interactive_brokers/Shared/EClientSocketBaseImpl.h:3188-3194 | An unknown id: error 505 with the id it had, and a disconnect |
| IbCallbacks.TickSizeDelivered | market_data/interactive_brokers/Shared/EClientSocketBaseImpl.h:2178-2192 | From the bytes to the callback, whatever follows: TICK_SIZE: ticker, field and size |
| IbCallbacks.OrderStatusDelivered | market_data/interactive_brokers/Shared/EClientSocketBaseImpl.h:2323-2354 | From the bytes to the callback, whatever follows: ORDER_STATUS: id, status, filled, remaining and the other six, each in its place |
| IbCallbacks.ErrMsgDelivered | market_data/interactive_brokers/Shared/EClientSocketBaseImpl.h:2356-2370 | From the bytes to the callback, whatever follows: ERR_MSG: id, code and text |
| IbCallbacks.AcctValueDelivered | market_data/interactive_brokers/Shared/EClientSocketBaseImpl.h:2596-2612 | From the bytes to the callback, whatever follows: ACCT_VALUE: key, value, currency and account |
| IbCallbacks.AcctUpdateTimeDelivered | market_data/interactive_brokers/Shared/EClientSocketBaseImpl.h:2665-2675 | From the bytes to the callback, whatever follows: ACCT_UPDATE_TIME: the time stamp |
| IbCallbacks.NextValidIdDelivered | market_data/interactive_brokers/Shared/EClientSocketBaseImpl.h:2677-2687 | From the bytes to the callback, whatever follows: NEXT_VALID_ID: the id, which is kept too |
| IbCallbacks.MarketDepthDelivered | market_data/interactive_brokers/Shared/EClientSocketBaseImpl.h:2833-2853 | From the bytes to the callback, whatever follows: MARKET_DEPTH: position, operation, side, price and size |
| IbCallbacks.MarketDepthL2Delivered | market_data/interactive_brokers/Shared/EClientSocketBaseImpl.h:2855-2879 | From the bytes to the callback, whatever follows: MARKET_DEPTH_L2: the same with the market maker |
| IbCallbacks.NewsBulletinsDelivered | market_data/interactive_brokers/Shared/EClientSocketBaseImpl.h:2881-2897 | From the bytes to the callback, whatever follows: NEWS_BULLETINS: id, type, text and exchange |
| IbCallbacks.ManagedAcctsDelivered | market_data/interactive_brokers/Shared/EClientSocketBaseImpl.h:2899-2909 | From the bytes to the callback, whatever follows: MANAGED_ACCTS: the list |
| IbCallbacks.ReceiveFaDelivered | market_data/interactive_brokers/Shared/EClientSocketBaseImpl.h:2911-2923 | From the bytes to the callback, whatever follows: RECEIVE_FA: the type and the document |
| IbCallbacks.ScannerParametersDelivered | market_data/interactive_brokers/Shared/EClientSocketBaseImpl.h:3030-3040 | From the bytes to the callback, whatever follows: SCANNER_PARAMETERS: the document |
| IbCallbacks.TickGenericDelivered | market_data/interactive_brokers/Shared/EClientSocketBaseImpl.h:2262-2276 | From the bytes to the callback, whatever follows: TICK_GENERIC: ticker, field and value |
| IbCallbacks.TickStringDelivered | market_data/interactive_brokers/Shared/EClientSocketBaseImpl.h:2278-2292 | From the bytes to the callback, whatever follows: TICK_STRING: ticker, field and text |
| IbCallbacks.TickEfpDelivered | market_data/interactive_brokers/Shared/EClientSocketBaseImpl.h:2294-2321 | From the bytes to the callback, whatever follows: TICK_EFP: all nine fields, each in its place |
| IbCallbacks.CurrentTimeDelivered | market_data/interactive_brokers/Shared/EClientSocketBaseImpl.h:3042-3052 | From the bytes to the callback, whatever follows: CURRENT_TIME: the time |
| IbCallbacks.RealTimeBarsDelivered | market_data/interactive_brokers/Shared/EClientSocketBaseImpl.h:3054-3082 | From the bytes to the callback, whatever follows: REAL_TIME_BARS: id, time, open, high, low, close, volume, average and count |
| IbCallbacks.FundamentalDataDelivered | market_data/interactive_brokers/Shared/EClientSocketBaseImpl.h:3084-3096 | From the bytes to the callback, whatever follows: FUNDAMENTAL_DATA: id and document |
| IbCallbacks.ContractDataEndDelivered | market_data/interactive_brokers/Shared/EClientSocketBaseImpl.h:3098-3108 | From the bytes to the callback, whatever follows: CONTRACT_DATA_END: the id |
| IbCallbacks.OpenOrderEndDelivered | market_data/interactive_brokers/Shared/EClientSocketBaseImpl.h:3110-3118 | From the bytes to the callback, whatever follows: OPEN_ORDER_END |
| IbCallbacks.AcctDownloadEndDelivered | market_data/interactive_brokers/Shared/EClientSocketBaseImpl.h:3120-3130 | From the bytes to the callback, whatever follows: ACCT_DOWNLOAD_END: the account |
| IbCallbacks.ExecutionDataEndDelivered | market_data/interactive_brokers/Shared/EClientSocketBaseImpl.h:3132-3142 | From the bytes to the callback, whatever follows: EXECUTION_DATA_END: the id |
| IbCallbacks.TickSnapshotEndDelivered | market_data/interactive_brokers/Shared/EClientSocketBaseImpl.h:3162-3172 | From the bytes to the callback, whatever follows: TICK_SNAPSHOT_END: the id |
| IbCallbacks.MarketDataTypeDelivered | market_data/interactive_brokers/Shared/EClientSocketBaseImpl.h:3174-3186 | From the bytes to the callback, whatever follows: MARKET_DATA_TYPE: the id and the type |
| IbRecords.DeltaNeutralValidationDelivered | market_data/interactive_brokers/Shared/EClientSocketBaseImpl.h:3144-3160 | DELTA_NEUTRAL_VALIDATION: the id and the record with its three fields |
| IbRecords.ContractDataDelivered | market_data/interactive_brokers/Shared/EClientSocketBaseImpl.h:2689-2735 | CONTRACT_DATA, for every version: which text of the wire is which field of the record, which runs are there, and the request id, -1 before version 3 |
| IbRecords.BondContractDataDelivered | market_data/interactive_brokers/Shared/EClientSocketBaseImpl.h:2737-2779 | BOND_CONTRACT_DATA, for every version, in the same way |
| IbRecords.ExecutionDataDelivered | market_data/interactive_brokers/Shared/EClientSocketBaseImpl.h:2781-2831 | EXECUTION_DATA, for every version, in the same way, with the ids where the version has them |
| IbRecords.PortfolioValueDelivered | market_data/interactive_brokers/Shared/EClientSocketBaseImpl.h:2614-2663 | PORTFOLIO_VALUE, for every version of the message and of the server: the contract and the position, price, value, costs, profits and account |
| IbRecords.TickOptionComputationDelivered | market_data/interactive_brokers/Shared/EClientSocketBaseImpl.h:2194-2260 | TICK_OPTION_COMPUTATION, for every version and for the model tick: which of the eight values are on the wire |
| IbRecords.OpenOrderDelivered | market_data/interactive_brokers/Shared/EClientSocketBaseImpl.h:2372-2594 | OPEN_ORDER, for every version of the message and of the server and every flag and count: the order of the texts on the wire and the field of contract, order and state that each of them is |
| IbDelivery.ContractSize | market_data/interactive_brokers/Shared/EClientSocketBaseImpl.h:2689-2735 | How many fields a complete CONTRACT_DATA message has, for every version |
| IbDelivery.OpenOrderSize | market_data/interactive_brokers/Shared/EClientSocketBaseImpl.h:2372-2594 | A complete OPEN_ORDER message has 81 fields and exactly the extras that its versions, flags and counts announce |
| IbClient.OutboundConservation | market_data/interactive_brokers/Shared/EClientSocketBaseImpl.h:1991-2022 | For every pattern of partial sends, bytes sent followed by the outbound buffer are all messages in order, and what was sent is never taken back |
| IbClient.StepConserves | market_data/interactive_brokers/Shared/EClientSocketBaseImpl.h:1991-2022 | One flush or one bufferedSend neither loses nor repeats a byte |
| IbClient.StepSends | market_data/interactive_brokers/Shared/EClientSocketBaseImpl.h:1991-2022 | Of the bytes that wait, those submitted with the call included, nothing moves when the socket takes nothing, the first so many when it takes fewer, and all when it takes as many or more |
| IbClient.FlushesSend | market_data/interactive_brokers/Shared/EClientSocketBaseImpl.h:1991-2002 | A run of flushes moves the head of what waits to the wire, as many bytes as the socket takes in all of them |
| IbClient.EverythingLeaves | market_data/interactive_brokers/Shared/EClientSocketBaseImpl.h:1991-2022 | After any run, once the flushes take as many bytes as wait, nothing waits and the wire is everything submitted, in order |
| IbClient.EClientSocket.CheckMessages | market_data/interactive_brokers/Shared/EClientSocketBaseImpl.h:2041-2068 | The callbacks and the new state are those of the drained stream, from any state, with the cursor arithmetic and the clean-up of the source |
| IbClient.EClientSocket.DrainBuffer | market_data/interactive_brokers/Shared/EClientSocketBaseImpl.h:2050-2059 | The loop stops, and its cursor stands behind exactly the consumed messages, also when a disconnect emptied the buffer on the way |
| IbClient.EClientSocket.ProcessMsg | market_data/interactive_brokers/Shared/EClientSocketBaseImpl.h:2123-3200 | One message is decoded with the callbacks that the delivery lemmas of `IbDelivery`, `IbCallbacks` and `IbRecords` write out for every message, or nothing is consumed and the cursor has not moved; an unknown id disconnects |
| IbClient.EClientSocket.ProcessConnectAck | market_data/interactive_brokers/Shared/EClientSocketBaseImpl.h:2070-2121 | The acknowledgement is taken whole, refused with a disconnect when the server is too old, or waited for |
| IbClient.EClientSocket.DecodeMessage | market_data/interactive_brokers/Shared/EClientSocketBaseImpl.h:2123-3186 | The cursor-passing decoder computes the table of the message, and ends where its fields end |
| IbClient.EClientSocket.DecodeItems | market_data/interactive_brokers/Shared/EClientSocketBaseImpl.h:2925-2975 | The loop over counted items reads the item fields that many times, or runs short |
| IbClient.EClientSocket.DecodeField | market_data/interactive_brokers/Shared/EClientSocketBaseImpl.h:341-353 | The text up to the next NUL and the cursor behind it, or the cursor unmoved |
| IbClient.EClientSocket.BufferedSend | market_data/interactive_brokers/Shared/EClientSocketBaseImpl.h:2004-2022 | What waits and the message go to the wire as far as the socket takes them, the head first, and the rest waits; nothing moves when it takes nothing; what was submitted on this connection is on the wire or in the buffer, in order |
| IbClient.EClientSocket.SendBufferedData | market_data/interactive_brokers/Shared/EClientSocketBaseImpl.h:1991-2002 | Nothing changes when the socket takes nothing; exactly the first bytes that it takes move from the buffer to the wire and the rest waits; all of them, with an empty buffer afterwards, when it takes as many as wait |
| IbClient.EClientSocket.CleanupInBuffer | market_data/interactive_brokers/Shared/EClientSocketBaseImpl.h:387-408 | Exactly the consumed prefix goes |
| IbClient.EClientSocket.Disconnect | market_data/interactive_brokers/Shared/EClientSocketBaseImpl.h:445-453 | A disconnect empties both buffers and forgets the connection |
| RingBuffer.KeepsIff | market_data/itch/ExpandableRingBuffer.cpp:52-84 | Growing as the text is written keeps whatever data is there if and only if the data is not wrapped, or the buffer is not exactly full and the wrapped part fits into the added space |
| RingBuffer.FullLoses | market_data/itch/ExpandableRingBuffer.cpp:64 | Exactly full at a non-zero offset, there are contents that growing as written damages |
| RingBuffer.ShortLoses | market_data/itch/ExpandableRingBuffer.cpp:76-79 | When the wrapped part does not fit into the added space, there are contents that growing as written damages |
| RingBuffer.AsWrittenKeeps | market_data/itch/ExpandableRingBuffer.cpp:52-84 | In the good layouts growing as written keeps every content |
| RingBuffer.CorrectedKeeps | market_data/itch/ExpandableRingBuffer.cpp:52-84 | With lines 64 and 78 doing what their comments say, growing keeps every content in every layout |
| RingBuffer.SearchesIff | market_data/itch/ExpandableRingBuffer.cpp:171-202 | The search as written gives the place of the first such byte, for every content and whatever stands behind the buffer, if and only if the data is not wrapped or its length equals its offset |
| RingBuffer.SearchWrong | market_data/itch/ExpandableRingBuffer.cpp:180 | In every other layout there are contents for which the byte is there and the search says that it is not |
| RingBuffer.AppendedRing | market_data/itch/ExpandableRingBuffer.cpp:89-107 | Copying in one or two pieces puts the input behind the data and moves nothing, in every wrap layout |
| RingBuffer.RingRest | market_data/itch/ExpandableRingBuffer.cpp:145-146 | Advancing the offset leaves exactly the younger bytes |
| RingBuffer.AddedIs | market_data/itch/ExpandableRingBuffer.cpp:36-59 | A write that needs more room than there is makes the buffer the least number of whole blocks that holds everything, and else leaves its size |
| RingBuffer.ExpandableRingBuffer.WriteData | market_data/itch/ExpandableRingBuffer.cpp:28-111 | The buffer then holds its old content and the input: always for the corrected text, and for the text as written whenever growing is not needed or the layout is a good one; otherwise exactly what the unwrapping left, and the input; the offset stays and the buffer grows to whole blocks |
| RingBuffer.ExpandableRingBuffer.Grow | market_data/itch/ExpandableRingBuffer.cpp:56-83 | The steps of growing as a function of the old memory and of what the reallocation adds |
| RingBuffer.ExpandableRingBuffer.ReadData | market_data/itch/ExpandableRingBuffer.cpp:120-154 | The oldest bytes are returned and removed, as many as asked for and there; the offset advances around the end, and goes back to 0 with the last byte |
| RingBuffer.ExpandableRingBuffer.ReadDataUtilByte | market_data/itch/ExpandableRingBuffer.cpp:156-169 | The data up to where the search, as written or corrected, takes the byte to be, within the maximum, is returned and removed; up to its first place where the search is right |
| RingBuffer.ExpandableRingBuffer.OffsetOfByte | market_data/itch/ExpandableRingBuffer.cpp:171-202 | What line 180 as written or corrected finds in the buffer and in whatever lies behind it; the first such byte of the content, or -1, for the corrected text in every layout and for the text as written in the layouts that it searches well |
| RingBuffer.ExpandableRingBuffer.PeekByte | market_data/itch/ExpandableRingBuffer.cpp:113-118 | The oldest byte, or zero |
| RingBuffer.FullQueueLosesByte | market_data/itch/ExpandableRingBuffer.cpp:64 | From a new buffer, by writing and reading alone: the byte that was wrapped in the full buffer is replaced by what realloc left, so the reader gets what was queued exactly when the two happen to be equal |
| RingBuffer.ShortGrowthRepeats | market_data/itch/ExpandableRingBuffer.cpp:76-79 | From a new buffer, by writing and reading alone: of two wrapped blocks the reader gets the first one twice, and so what was queued exactly when they are equal |
| RingBuffer.SearchMissesOldest | market_data/itch/ExpandableRingBuffer.cpp:180 | From a new buffer, by writing and reading alone: reading up to the byte that is the oldest of the data takes more than that byte |
| ItchSocket.CutIsWhole | market_data/itch/Socket.cpp:305-348 | The cut of a stream after each TLF loses nothing: packets end with their only TLF and the rest has none |
| ItchSocket.CutIsUnique | market_data/itch/Socket.cpp:305-348 | There is no other cut of a stream into such packets and such a rest |
| ItchSocket.SentIsReceived | market_data/itch/Socket.cpp:179-192 | Packets without an inner TLF, sent with the TLF that SendPacket adds, are exactly the packets that the other side cuts |
| ItchSocket.TerminatedAt | market_data/itch/Socket.cpp:179-192 | Each packet, in order, goes out with a TLF behind it when it has none at its end, and else as it is |
| ItchSocket.Whole | market_data/itch/Socket.cpp:339-343 | A packet at the head of a stream is its first cut |
| ItchSocket.TakenIs | market_data/itch/Socket.cpp:329-340 | One read from the buffer takes it up to its first TLF when that is within 2048 bytes, and else 2048 bytes or all |
| ItchSocket.Socket.RecvPacket | market_data/itch/Socket.cpp:305-348 | For every splitting by recv the packet is the next cut of buffer and network together and the rest is unchanged; the network is not read, and the socket stays as it was, exactly when the packet is whole within the first 2048 bytes of the buffer; none comes exactly when the stream ends before a TLF, and then the socket is closed. All this for the corrected ring buffer, and for the ring buffer as written if and only if the layout, the data and the chunks to come lead to no layout that it mishandles, which is decided before the call; they lead to none while the stream fits behind the beginning of the data |
| ItchSocket.Socket.RecvMessage | market_data/itch/Socket.cpp:199-253 | On an open socket the answer is true exactly when a TLF is in the buffer afterwards; one chunk is read for each wait that finds something, until one has the TLF, a timeout or the end of the waits, which leave the socket open, or an error of select or of recv, which close it; no byte is lost while waiting, with the ring buffer as written or corrected while it meets no layout that it mishandles |
| ItchSocket.Socket.RecvIntoBuffer | market_data/itch/Socket.cpp:255-303 | A chunk goes from the network to the end of the buffer and the answer tells whether it holds a TLF; failure and orderly shutdown close the socket; the socket stays sound exactly when the write meets a layout in which the ring buffer keeps its data |
| ItchSocket.Socket.RecvAll | market_data/itch/Socket.cpp:305-348 | One call of RecvPacket after the other until none comes gives exactly the packets that the stream is cut into, in order, however it arrives |
| ItchSocket.WriteStaysStraight | market_data/itch/ExpandableRingBuffer.cpp:28-111 | Data that is not wrapped and has room for all that is still to come is never wrapped, and growing as written keeps it |
| ItchSocket.Socket.SendPacket | market_data/itch/Socket.cpp:117-195 | On an open socket: an empty packet is a success; when the network takes less than the packet just that much leaves, with a failure; when it takes the packet and there is a TLF at its end that is all; and else the answer to the TLF that is added decides, where an error is a failure, 0 is a success although the TLF did not leave, and more is a success with it |
| ItchSocket.CapacityIs | market_data/itch/Socket.cpp:134-173 | What the network takes is the sum of its answers up to the first at which the loop gives up |
| ItchSocket.CallsAre | market_data/itch/Socket.cpp:134-173 | A packet uses up answers until their sum reaches its size, and no more |
| ItchSocket.EndNotSent | market_data/itch/Socket.cpp:179-192 | For every packet without a TLF at its end there are answers with which a new socket reports success and does not send the TLF |
| ItchSocket.EndMissingMerges | market_data/itch/Socket.cpp:179-192 | The other side then cuts that packet and the next one as one packet |
| ItchPacket.FieldRoundTrip | market_data/itch/msg/PacketBase.cpp:38-70 | A field that fits its width is recovered from its cell if and only if it is a long, or text without NUL and without white space at its end |
| ItchPacket.RecordRoundTrip | market_data/itch/msg/PacketBase.cpp:130-189 | A list of such fields is read back with the same widths from wherever it stands in a packet, and nothing of what follows it |
| ItchPacket.TrimBlanks | market_data/itch/msg/PacketBase.cpp:45-46 | Trimming takes the padding away and nothing else with it |
| ItchPacket.TrimRightIs | market_data/itch/msg/PacketBase.cpp:45-46 | Trimming leaves the text up to its last character that is no white space |
| ItchPacket.AcceptedIff | market_data/itch/msg/PacketBase.cpp:51-70 | A cell is accepted as a number if and only if what counts of it is empty or a numeral (white space, a sign or none, digits) that a long can hold; what counts is the cell up to its first NUL, or without a NUL the cell trimmed at its end |
| ItchPacket.NonNumbersAccepted | market_data/itch/msg/PacketBase.cpp:51-70 | The cells that are no numbers and are accepted are exactly those of white space only, those that begin with a NUL and those with a NUL right behind a numeral that a long can hold |
| ItchPacket.NumberBeforeJunk | market_data/itch/msg/PacketBase.cpp:51-70 | Every long is read from a cell that holds it, a NUL and anything else, although that cell is no number |
| ItchPacket.BlanksAreZero | market_data/itch/msg/PacketBase.cpp:51-70 | A cell of blanks of any width is read as 0 |
| ItchPacket.SaveLogin | market_data/itch/msg/client/ClientLoginMessage.cpp:18-31 | The login record is appended exactly when name and password fit, and is read back from the packet when they survive trimming; otherwise the fields before the one that does not fit are left in the packet |
| ItchPacket.LoginText | market_data/itch/msg/client/ClientLoginMessage.cpp:18-31 | The bytes of the login: L, name and password padded on the right to 40, the flag T or F, and 0 padded on the left to 9 |
| ItchPacket.PacketBase.WriteString | market_data/itch/msg/PacketBase.cpp:130-156 | The text up to its first NUL and blanks on its right to the width are appended, or nothing at all when the text is too long |
| ItchPacket.PacketBase.WriteLong | market_data/itch/msg/PacketBase.cpp:158-189 | Blanks to the width and the number on their right are appended, or nothing at all when it is too wide |
| ItchPacket.PacketBase.ReadString | market_data/itch/msg/PacketBase.cpp:38-49 | The cell at the position, without the white space at its end if asked for, and the position behind it; or neither |
| ItchPacket.PacketBase.ReadLong | market_data/itch/msg/PacketBase.cpp:51-70 | The number of the cell when all of it is a number in range; a short packet leaves the position alone, a bad cell does not |
| ItchPacket.PacketBase.ReadUntilTLF | market_data/itch/msg/PacketBase.cpp:102-120 | All but the last character from the position on; the position stays within the packet exactly when the packet is not empty, because the size less one wraps around |
| ItchPacket.PacketBase.ReadChar | market_data/itch/msg/PacketBase.cpp:30-36 | The next character, if there is one |
| ItchPacket.PacketBase.ResetReadPosition | market_data/itch/msg/PacketBase.cpp:197-203 | Positions within the packet are taken, others refused |
| BookModel.AddConsistent | order_book/order_book.v2/order_book.cpp:103-152 | Adding a fresh id keeps every live order in exactly the queue of its side and price and nothing else in the queues |
| BookModel.RemoveConsistent | order_book/order_book.v2/order_book.cpp:160-205 | So does removing; no level stays empty |
| BookModel.ModifyConsistent | order_book/order_book.v2/order_book.cpp:207-243 | So does changing a size |
| BookModel.ArrivalOrder | order_book/order_book.v2/limit.cpp:85-102 | Two orders that stay keep their order of arrival when another one leaves |
| BookModel.LevelIffLive | order_book/order_book.v2/order_book.cpp:315-335 | There is a level exactly at the prices of the live orders of a side |
| BookModel.BestBounds | order_book/order_book.v2/order_book.cpp:315-335 | No live bid is above the best one and no live ask below it |
| BookModel.WithoutMembers | order_book/order_book.v2/limit.cpp:85-102 | Removing an id takes that order out of the queue and no other |
| OrderBook.KLimit.EraseAt | order_book/order_book.v2/limit.h:94-106 | The order at a place leaves, the others close up, and the volume stays the sum of the sizes modulo 2^32, also when that sum has wrapped around |
| OrderBook.KLimit.FindOrder | order_book/order_book.v2/limit.cpp:73-83 | The place of the first order of the id, or the end |
| OrderBook.KLimit.AddOrder | order_book/order_book.v2/limit.cpp:22-43 | The order goes to the end and the volume stays the sum of the sizes modulo 2^32; a known id changes nothing and gives 0 |
| OrderBook.KLimit.RemoveOrder | order_book/order_book.v2/limit.cpp:85-102 | The order of the id leaves the list, the others keep their places, the volume follows; 1 for an empty level or a found order |
| OrderBook.KLimit.ModifyOrder | order_book/order_book.v2/limit.cpp:49-59 | The shared order object takes the size, the others do not change, the volume follows |
| OrderBook.KBook.Add | order_book/order_book.v2/order_book.cpp:86-152 | The book is sound afterwards if and only if the id was fresh or there is no side, and is then the old one with the order at the end of its level; with a live id the old object is left behind in its level while the id map holds the new one |
| OrderBook.KBook.Remove | order_book/order_book.v2/order_book.cpp:160-205 | The order leaves the id map and its level, an empty level leaves its tree, and the assertion on removeOk never fails |
| OrderBook.KBook.Modify | order_book/order_book.v2/order_book.cpp:207-243 | The order takes the size and keeps its place; an unknown id changes nothing |
| OrderBook.KBook.Clear | order_book/order_book.v2/order_book.cpp:154-158 | Nothing is left in the map or the trees |
| OrderBook.KBook.GetOrder | order_book/order_book.v2/order_book.cpp:77-84 | The live order of the id, or null |
| OrderBook.KBook.BestPrice | order_book/order_book.v2/order_book.cpp:315-335 | The maximum of all live bids or the minimum of all live asks, or -2^31 and 2^31 - 1 when the side has no order |
| OrderBook.KBook.BestPriceVolume | order_book/order_book.v2/order_book.cpp:310-313 | The sum of the sizes at the best price modulo 2^32, or 0 when the side is empty |
| OrderBook.KBook.GetTotalVolumeAtLimit | order_book/order_book.v2/order_book.cpp:245-277 | The sum of the sizes of the queue at that price modulo 2^32, 0 when there is none |
| OrderBook.KBook.Held | order_book/order_book.v2/order_book.cpp:121-122 | What stands in a level is the very object that the id map holds, and the level is the one of its own side and price, so each live order stands in one level only |
| OrderBook.KBook.LiveIsPlaced | order_book/order_book.v2/order_book.cpp:103-152 | What the id map holds stands in the level of its own side and price |
| OrderBook.KBook.StrayInvalid | order_book/order_book.v2/order_book.cpp:121-122 | A book with an object in a level that the id map does not hold is not sound |
| OrderBook.KBook.LevelFits | order_book/order_book.v2/limit.h:27-28 | In a sound book each level is its queue, with unique ids, and its volume is the sum of its sizes modulo 2^32 |
| FixFeed.Application.IncrementalUpdate | market_data/fix/md_parser_qf.cpp:714-1011 | The whole book afterwards, arrival order in the levels included, and where the handler stops the program are those of the fold of add, remove and modify over the entries; the book is sound unless an entry adds under a live id; without the count field nothing happens, and with a count of 0 the book is untouched and the source uses a null one |
| FixFeed.Application.FullRefresh | market_data/fix/md_parser_qf.cpp:550-652 | The whole book afterwards is the fold of adds from the empty book, sound exactly when the entries with a side have ids of their own; without the count field nothing happens, and with a count of 0 the book is untouched and the source uses a null one |
| FixFeed.Application.Apply | market_data/fix/md_parser_qf.cpp:800-994 | One entry: the book stays sound if and only if the entry does not add under another live id, and is then the old one after the removes and adds of the entry, which decide its place in the queue |
| FixFeed.ReplayOrders | market_data/fix/md_parser_qf.cpp:714-994 | The live orders of the fold over the whole book are those of the fold over a plain map, and both stop at the same entry in the same way |
| FixFeed.SnapshotOrders | market_data/fix/md_parser_qf.cpp:557-652 | The live orders of a snapshot are those of the fold over a plain map |
| FixFeed.CorruptedIff | market_data/fix/md_parser_qf.cpp:800-994 | A message spoils the book if and only if some entry that is reached adds under an id that is live at that moment |
| FixFeed.SnapshotContents | market_data/fix/md_parser_qf.cpp:557-652 | After a snapshot with ids of their own exactly its orders are live, each under its id: a bid for kind 0, an ask for kind 1, with size and price |
| FixFeed.Untouched | market_data/fix/md_parser_qf.cpp:714-994 | An order that no entry of a message names is as it was |
| FixFeed.OnlyRenamesClash | market_data/fix/md_parser_qf.cpp:804-900 | When NEW overwrites, a message without a rename to another id is safe whatever is in the book |
| FixFeed.NewEntry | market_data/fix/md_parser_qf.cpp:788-866 | NEW with kind 0 is a bid and with kind 1 an ask of that id, size and price at the end of its level and nothing else changes; another kind is no order; with a live id the book is spoilt, or the old order goes first when NEW overwrites |
| FixFeed.RenamingEntry | market_data/fix/md_parser_qf.cpp:874-900 | CHANGE with a reference id: that order goes and the bid or ask of the entry joins at the end of its level; with another id that is live the book is spoilt |
| FixFeed.ResizingEntry | market_data/fix/md_parser_qf.cpp:901-949 | CHANGE without a reference id: the order of the id takes the size and keeps side, price and place; an unknown id changes nothing |
| FixFeed.DeletingEntry | market_data/fix/md_parser_qf.cpp:950-996 | DELETE takes the order of the id out or stops at the assertion; any other action exits |
| FixFeed.IncrementalFields | market_data/fix/md_parser_qf.cpp:714-776 | In an incremental refresh an absent action, kind, id or price stands for the last one given, and an absent size for 0 |
| FixFeed.ReplayJoins | market_data/fix/md_parser_qf.cpp:714-994 | A message can be read entry by entry: the first part, and then the rest with the fields that are in force behind it |
| FixFeed.SnapshotHolds | market_data/fix/md_parser_qf.cpp:568-634 | An order is live after a snapshot with ids of their own if and only if some entry says it: kind 0 for a bid and 1 for an ask, the entry id or else the quote id, price and size, each of them the last one given |
| FixFeed.DistinctIff | market_data/fix/md_parser_qf.cpp:568-634 | A snapshot spoils the book if and only if two of its bids and asks name the same id |
| SharedPtr.Use.Insert | market_data/interactive_brokers/Shared/shared_ptr.h:35-40 | The use stands in the ring, right behind the other one, and the links are right both ways |
| SharedPtr.Use.Remove | market_data/interactive_brokers/Shared/shared_ptr.h:42-45 | The others are a ring without it |
| SharedPtr.OnlyIffAlone | market_data/interactive_brokers/Shared/shared_ptr.h:30 | A use finds itself alone exactly in a ring of one |
| SharedPtr.Handles.OnlyIffSole | market_data/interactive_brokers/Shared/shared_ptr.h:59 | A handle finds itself alone exactly when no other handle has its object |
| SharedPtr.Handles.Construct | market_data/interactive_brokers/Shared/shared_ptr.h:57 | A new handle in a ring of its own takes the pointer; objects and handles are sound afterwards if and only if no handle was given that object before |
| SharedPtr.Handles.Copy | market_data/interactive_brokers/Shared/shared_ptr.h:61-65 | The copy joins the ring and shares the object; nothing is deleted |
| SharedPtr.Handles.Assign | market_data/interactive_brokers/Shared/shared_ptr.h:67-73 | The handle leaves its ring and joins the other, within one ring and onto itself as well; its object is deleted exactly when it was the last owner |
| SharedPtr.Handles.Reset | market_data/interactive_brokers/Shared/shared_ptr.h:80-84 | The handle takes the pointer alone, through the temporary use; the old object is deleted exactly when it was the last owner; sound afterwards if and only if no handle was given the new object before |
| SharedPtr.Handles.Destroy | market_data/interactive_brokers/Shared/shared_ptr.h:59 | The handle is gone, and its object is deleted exactly when it was the last owner |
| SharedPtr.Handles.HeldOrDeleted | market_data/interactive_brokers/Shared/shared_ptr.h:57-84 | Over any run of these operations nothing leaks: each object that was given to a handle is held or deleted, never both, and deleted once; without handles all are deleted |
| Handoff.EveryInterleaving | replay_server/msg_pump.cpp:43-83 | In every interleaving, spurious wake-ups included, what was taken is a prefix of the lines, what was dispatched is its even part, the end code comes only after all lines, and outside the lock the flags are opposite |
| Handoff.EveryRunEnds | replay_server/msg_dispatcher.cpp:123-174 | Without spurious wake-ups a run is bounded by a number of steps for each line, and one that cannot go on has taken every line and dispatched exactly the longest even-length prefix |
| Handoff.CompleteRun | replay_server/msg_pump.cpp:32-83 | For every file there is a run without spurious wake-ups, and it ends with every line taken and every pair dispatched |
| Handoff.NoDeadlock | replay_server/msg_pump.cpp:44-63 | In every state that keeps the invariants some thread can step until the dispatcher has taken the end code |
| Handoff.PumpKeeps | replay_server/msg_pump.cpp:57-83 | Every step of the pump keeps mutual exclusion, the flags, the order of lines and the end |
| Handoff.TakerKeeps | replay_server/msg_pump.cpp:43-55 | So does every step of getMsg and of the dispatcher |
| Handoff.SpuriousKeeps | replay_server/msg_pump.cpp:49-62 | So does waking up without a notification |
| Handoff.StepWorks | replay_server/msg_pump.cpp:32-83 | Every step that is not spurious brings the run nearer to its end |
| DispatchPool.EveryInterleaving | market_data/itch/Session.cpp:384-406 | In every interleaving messages are taken in queue order, each once; once a worker has left, everything queued before the flag was set is taken; when Stop returns at most one message is left |
| DispatchPool.EachIsHandled | market_data/itch/Session.cpp:388-410 | In every interleaving what was received is what was queued and the message in the server worker's hands; what a worker took is, in order, what it gave to a handler and the one message in its hands; a worker that has left gave all of them, so when Stop returns each queued message was handled once or is the one left |
| DispatchPool.QueueIsServed | market_data/itch/Session.cpp:384-406 | While a message waits and Stop is not called somebody can step who brings it nearer: no worker sleeps through it |
| DispatchPool.ServerStays | market_data/itch/Session.cpp:460-512 | The server worker ends only when Stop was called or a receive brought nothing because the connection was lost |
| DispatchPool.ServerEnds | market_data/itch/Session.cpp:460-512 | Once the flag is set or the connection is lost, its next receive that brings nothing is its last |
| DispatchPool.LeftIff | market_data/itch/Session.cpp:196-237 | Stop can return with a message in the queue if and only if the flag is set while the server worker waits for a message or, with one in its hands, for the mutex, and, when nobody wakes up by himself, no worker sleeps at that moment |
| DispatchPool.OneCanBeLeft | market_data/itch/Session.cpp:468-508 | From the start some run, without spurious wake-ups, leaves any given message in the queue |
| DispatchPool.NoDeadlock | market_data/itch/Session.cpp:196-237 | After Stop is called somebody can step until it returns |
| DispatchPool.StopReturns | market_data/itch/Session.cpp:196-237 | From then on every interleaving is bounded, so Stop returns |
| DispatchPool.WorkerKeeps | market_data/itch/Session.cpp:388-406 | Every step of a worker keeps exclusion, the FIFO account and what is known of workers that leave |
| DispatchPool.ServerKeeps | market_data/itch/Session.cpp:301-307 | So does every step of the server worker, which queues at most one message after the flag is set |
| DispatchPool.StopKeeps | market_data/itch/Session.cpp:196-237 | So does every step of Stop |
| DepthBook.AddRun | order_book/order_book.v1/price_depth_order_book.cpp:158-188 | After any run of adds to an empty side, with prices and ids of their own, the side is sound and holds entries of the run at exactly the best `depth` of all prices: each bid kept has more ticks than each left out, each offer fewer, and the highest bid and the lowest offer ever added are kept |
| DepthBook.TopIsBest | order_book/order_book.v1/price_depth_order_book.cpp:97-110 | Adding one price after the other and trimming each time leaves exactly the best `depth` of all that were added: the bids with the most ticks, the offers with the fewest |
| DepthBook.BestKept | order_book/order_book.v1/price_depth_order_book.cpp:97-110 | When any price may be kept, the highest of all bids and the lowest of all offers is |
| DepthBook.PutInverse | order_book/order_book.v1/price_depth_order_book.cpp:173-174 | Storing an entry in both maps keeps them inverse if and only if it is new to both or takes the place of one entry in both |
| DepthBook.EraseRepairsNothing | order_book/order_book.v1/price_depth_order_book.cpp:103-109 | The trimming never repairs maps that an unfit entry has spoilt |
| DepthBook.BookSide.TrimMap | order_book/order_book.v1/price_depth_order_book.cpp:97-110 | From any number of prices `depth` stay, the bids with the most ticks and the offers with the fewest; the ids of the entries at the others go with them and no other entry does, and inverse maps stay inverse |
| DepthBook.TrimmedIsBest | order_book/order_book.v1/price_depth_order_book.cpp:97-110 | Taking the last price away until there are no more than `depth` leaves the bids with the most ticks and the offers with the fewest |
| DepthBook.BookSide.Add | order_book/order_book.v1/price_depth_order_book.cpp:158-188 | After trimming the maps are inverse if and only if the entry was fit; the price map holds the best of the old prices and the new one, with the entry at its own and the old entries at the others |
| DepthBook.BookSide.RemoveDuplicateEntries | order_book/order_book.v1/price_depth_order_book.cpp:134-149 | From every sound state the entry of that price and the entry of that id go, no other does, and an entry with both is fit to be added |
| DepthBook.BookSide.Remove | order_book/order_book.v1/price_depth_order_book.cpp:190-207 | The entry of the id leaves both maps, or nothing changes |
| DepthBook.PriceDepthOrderBook.Add | order_book/order_book.v1/price_depth_order_book.cpp:158-188 | The entry goes to its side, bids with the bids, which keeps its best prices; the other side does not change; the book is sound afterwards exactly when the entry was fit there |
| DepthBook.PriceDepthOrderBook.Remove | order_book/order_book.v1/price_depth_order_book.cpp:190-227 | The bid of the id goes, or else the offer |
| DepthBook.PriceDepthOrderBook.ChangeSize | order_book/order_book.v1/price_depth_order_book.cpp:229-242 | The entry takes the size and keeps its place in both maps; no other entry changes |
| ReplyRouting.ReportRoute | order_entry/order-fix/msg_processor.cpp:286-339 | In a well-behaved run a report leaves, with its frames in order, on the address of the latest HELO, when it is relayed, of the strategy that had last submitted its order id when the report came |
| ReplyRouting.HeloRoute | order_entry/order-fix/msg_processor.cpp:286-339 | The answer to a HELO leaves as F1 and the venue on the address of the latest HELO of that strategy |
| ReplyRouting.HeartbeatRoute | order_entry/order-fix/msg_processor.cpp:286-339 | The answer to a heartbeat leaves as A1 on the address of the latest HELO of that strategy |
| ReplyRouting.LatestHeloIs | order_entry/order-fix/msg_cache.h:185-202 | The address of the latest HELO is that of a HELO of the strategy with none behind it; there is none exactly when it never said HELO |
| ReplyRouting.LastSubmitterIs | order_entry/order-fix/msg_cache.h:185-202 | The last submitter is the strategy of an order with that id with none behind it |
| ReplyRouting.RouteExists | order_entry/order-fix/msg_processor.cpp:297-299 | In a well-behaved run there is a route for every reply that was queued, so the assertion never fails |
| ReplyRouting.QueuedAt | order_entry/order-fix/application.cpp:744-774 | What was queued on a connection keeps its place in the order of that connection |
| ReplyRouting.MsgProcessor.HandleIncomingClientMessage | order_entry/order-fix/msg_processor.cpp:200-269 | A HELO is answered with F1 and the venue, a heartbeat with A1, behind what already waits; orders go to the order interface; the caches, the queues and what was sent stay what the history tells |
| ReplyRouting.MsgProcessor.OnExecutionReport | order_entry/order-fix/application.cpp:744-774 | A report is queued as B0 and its data for the strategy that submitted the order id last, or for nobody |
| ReplyRouting.MsgProcessor.RcvInternal | order_entry/order-fix/msg_processor.cpp:273-343 | The oldest reply of the connection leaves with the address of the latest HELO in the place of the strategy id; the assertion on the route holds if and only if its strategy has said HELO by now, and always in a well-behaved run |
| ReplyRouting.MsgProcessor.Forward | order_entry/order-fix/msg_processor.cpp:309-338 | The nodes of the route and then the remaining frames, in order |
| ReplyRouting.CachesAfter | order_entry/order-fix/msg_cache.h:185-202 | One event keeps both caches what the history tells: the strategy cache has the address of the latest HELO of each strategy and of no other, the order cache the last submitter of each order id |
| AggregatedBook.OrderBookAggregator.UpdateOrderBooks | aggregated_book/aggregated_book.cpp:78-202 | An update of a known symbol and venue is answered by one broadcast: the maximum bid and the minimum ask over each venue's latest update that is at most 5000 ms old, ties to the lowest slot; any other update is dropped |
| AggregatedBook.ResetKeeps | aggregated_book/aggregated_book.cpp:154-161 | A reset that is saved changes no answer at any later time |
| AggregatedBook.QuotedUntil | aggregated_book/aggregated_book.cpp:133-161 | A quote counts for 5000 whole milliseconds by readings cut to microseconds: always within 5.000999 seconds and never from 5.001001 seconds on |
| AggregatedBook.LatestIs | aggregated_book/aggregated_book.cpp:91-101 | The latest update of a venue has the symbol and the venue on both sides, and none of these comes behind it |
| AggregatedBook.UpdatedRight | aggregated_book/aggregated_book.cpp:91-101 | After an update a slot shows what the longer history tells |
| AggregatedBook.BestBidNext | aggregated_book/aggregated_book.cpp:188-192 | One comparison carries the best bid, with its first slot, to one slot more |
| AggregatedBook.BestAskNext | aggregated_book/aggregated_book.cpp:193-197 | The same for the ask |
| AggregatedBook.OrderBookAggregator.PickBest | aggregated_book/aggregated_book.cpp:133-198 | Each slot is looked at by its own clock reading, timed-out slots are reset for good, and the best of what is left is picked |
| AggregatedBook.OrderBookAggregator.Store | aggregated_book/aggregated_book.cpp:89-103 | Exactly the slot of the venue takes the quote over |
| AggregatedBook.OrderBookAggregator.constructor | aggregated_book/aggregated_book.cpp:316-343 | Every slot starts unset, as an empty history tells |

## Left out

- Sockets, ZMQ, files, logging, MySQL, protobuf and QuickFIX objects: what they deliver is a parameter (chunks of bytes, answers of send and select, clock readings, groups of a message) and what they are given is a field or a result.
- Prices are integers and sizes are naturals in the books; in the Interactive Brokers client a double is carried as its text, so the `%.10g` encoding and the "not computed" limits of TICK_OPTION_COMPUTATION are not modelled.
- Timestamps of orders, levels and books, crossed-book notices and the broadcasts of the FIX feed.
- Disconnects inside a send call of the Interactive Brokers client, memory exhaustion for huge item counts, the capacity high mark of `CleanupBuffer`, and the request builders.
- The branches under `DONT_USE_RING_BUFFER` in `Socket.cpp`, and the length of the timeout of `RecvMessage`.
- Stop requests of the pump and the dispatcher, the sleep between two dispatches, and parsing of the dispatched lines.
- Errors of the input file of the pump other than its end.
- The client worker, heartbeats and message handlers of the ITCH session.
- Depth book iterators, printing and `replace`.
- Cache files, the ping service and multi-hop routes of the message processor; an unknown message type, at which the source asserts.
- Hash functions: order ids are already hashed, and different ids have different hashes.
- `order_book.v3`, whose operations are stubs; `trade_serializer`; configuration reading, menus, generators.
- FixFeed.Application.IncrementalUpdate: covers one instrument, whose book exists, and stops at the first entry that adds under a live id, where the source goes on with a book that is no longer sound.
- FixFeed.Application.FullRefresh: covers one instrument, whose book exists when the snapshot has entries, and stops at the first repeated id in the same way.
- OrderBook.KBook.Remove: the list entry goes before the map entry, which nothing reads in between; the comparison of an ask iterator with the end of the bid tree at line 188 is not modelled, because the level of a live order is always there.
- RingBuffer.ExpandableRingBuffer.OffsetOfByte: the search as written reads up to one buffer length of foreign memory behind the buffer, which is taken to be readable and to hold anything.
- DepthBook.BookSide.TrimMap: when there are two prices too many the source steps back from an iterator that it has erased; the model takes the price before it.
- ItchSocket.Socket.RecvPacket: gives nothing where the loop of the source goes on forever, once the network has failed and the buffer is empty.
- SharedPtr.Handles.Construct: a pointer that a handle was given before is accepted, as in the source, but the operations after it are described only while objects and handles are sound.
- AggregatedBook.OrderBookAggregator.UpdateOrderBooks: symbols are whole strings, so the two ways of comparing them in the source agree, and the clock does not go back.
- ReplyRouting.MsgProcessor.RcvInternal: when the assertion on the route fails the program ends, and the state is not described further.
