/**
  The FIX market data feed that drives an order book: the snapshot (35=W) and the incremental
  refresh (35=X) of one instrument.  Order ids stand for their hashes.
*/
module FixFeed {
  import opened Wrappers
  import opened BookModel
  import opened OrderBook

  /** One group of a message; a field may be absent. */
  datatype MDEntry = MDEntry(
    action: Option<char>, kind: Option<char>, id: Option<nat>, refId: Option<nat>, quoteId: Option<nat>,
    px: Option<int>, size: Option<nat>)

  /** What the field variables of the handler hold: an absent field leaves the value of the entry before. */
  datatype Fields = Fields(action: char, kind: char, id: Option<nat>, quoteId: Option<nat>, px: int, size: nat)

  /**
    How a message ends: normally, at assert(0), at exit(1), or at a null book.  `Corrupted` is a
    message that adds under a live id: the source goes on with a book that is no longer sound, and
    that is where the model stops.
  */
  datatype Outcome = Done | Aborted | Exited | NullBook | Corrupted

  function OrElse<T>(o: Option<T>, t: T): T {
    if o.Some? then o.value else t
  }

  function Load(f: Fields, e: MDEntry): Fields {
    Fields(OrElse(e.action, f.action), OrElse(e.kind, f.kind), if e.id.Some? then e.id else f.id,
           if e.quoteId.Some? then e.quoteId else f.quoteId, OrElse(e.px, f.px), OrElse(e.size, f.size))
  }

  /** In an incremental refresh an absent size is zero. */
  function LoadIncremental(f: Fields, e: MDEntry): Fields {
    Load(f, e).(size := OrElse(e.size, 0))
  }

  function SideOfKind(kind: char): Side {
    if kind == '0' then BID else if kind == '1' then ASK else NO_SIDE
  }

  /** A bid or an offer. */
  predicate HasSide(f: Fields) {
    f.kind == '0' || f.kind == '1'
  }

  /** What an entry of that kind says: a bid for kind '0', an ask for kind '1', and else nothing. */
  predicate Makes(f: Fields, o: Order) {
    || (f.kind == '0' && o == Order(BID, f.size, f.px))
    || (f.kind == '1' && o == Order(ASK, f.size, f.px))
  }

  function OrderOf(f: Fields): Order {
    Order(SideOfKind(f.kind), f.size, f.px)
  }

  /** The id of an incremental entry; without any id it is the hash of the empty text. */
  function IdOf(f: Fields, emptyHash: nat): nat {
    OrElse(f.id, emptyHash)
  }

  /** In a snapshot the quote id stands in for a missing entry id. */
  function SnapshotId(f: Fields, emptyHash: nat): nat {
    if f.id.Some? then f.id.value else OrElse(f.quoteId, emptyHash)
  }

  // ------------------------------------------------------------------------------------------
  // The feed as a fold over a plain map of live orders
  // ------------------------------------------------------------------------------------------

  function Put(m: map<nat, Order>, id: nat, o: Order): map<nat, Order> {
    if o.side == NO_SIDE then m else m[id := o]
  }

  /** NEW overwrites, CHANGE alters the size, CHANGE with a reference id renames, DELETE removes. */
  function Update(overwrite: bool, m: map<nat, Order>, id: nat, f: Fields, refId: Option<nat>): map<nat, Order> {
    match f.action
    case '0' => Put(if overwrite then m - {id} else m, id, OrderOf(f))
    case '1' =>
      if refId.Some? then Put(m - {refId.value}, id, OrderOf(f))
      else if id in m then m[id := m[id].(size := f.size)]
      else m
    case '2' => m - {id}
    case _ => m
  }

  /** The entry adds an order under an id that is live at that moment. */
  predicate Clash(overwrite: bool, ids: set<nat>, id: nat, f: Fields, refId: Option<nat>) {
    HasSide(f)
    && (   (f.action == '0' && !overwrite && id in ids)
        || (f.action == '1' && refId.Some? && id in ids && id != refId.value))
  }

  /** Where the handler stops the program, or the book is no longer sound. */
  function Verdict(overwrite: bool, ids: set<nat>, id: nat, f: Fields, refId: Option<nat>): Outcome {
    if Clash(overwrite, ids, id, f, refId) then Corrupted
    else if f.action == '2' && id !in ids then Aborted
    else if f.action !in "012" then Exited
    else Done
  }

  function Replay(overwrite: bool, emptyHash: nat, m: map<nat, Order>, f: Fields, entries: seq<MDEntry>)
    : (map<nat, Order>, Outcome)
    decreases |entries|
  {
    if entries == [] then (m, Done)
    else
      var f' := LoadIncremental(f, entries[0]);
      var id := IdOf(f', emptyHash);
      var verdict := Verdict(overwrite, m.Keys, id, f', entries[0].refId);
      if verdict != Done then (m, verdict)
      else Replay(overwrite, emptyHash, Update(overwrite, m, id, f', entries[0].refId), f', entries[1..])
  }

  /** No entry that is reached clashes. */
  predicate WellFormed(overwrite: bool, emptyHash: nat, m: map<nat, Order>, f: Fields, entries: seq<MDEntry>)
    decreases |entries|
  {
    entries != [] ==>
      var f' := LoadIncremental(f, entries[0]);
      var id := IdOf(f', emptyHash);
      && !Clash(overwrite, m.Keys, id, f', entries[0].refId)
      && (Verdict(overwrite, m.Keys, id, f', entries[0].refId) == Done ==>
            WellFormed(overwrite, emptyHash, Update(overwrite, m, id, f', entries[0].refId), f', entries[1..]))
  }

  lemma {:induction false} CorruptedIff(overwrite: bool, emptyHash: nat, m: map<nat, Order>, f: Fields, entries: seq<MDEntry>)
    ensures Replay(overwrite, emptyHash, m, f, entries).1 == Corrupted <==> !WellFormed(overwrite, emptyHash, m, f, entries)
    decreases |entries|
  {
    if entries != [] {
      var f' := LoadIncremental(f, entries[0]);
      var m' := Update(overwrite, m, IdOf(f', emptyHash), f', entries[0].refId);
      CorruptedIff(overwrite, emptyHash, m', f', entries[1..]);
    }
  }

  /** The fields in force at each entry of a snapshot. */
  function Loaded(f: Fields, entries: seq<MDEntry>): (r: seq<Fields>)
    ensures |r| == |entries|
    decreases |entries|
  {
    if entries == [] then [] else [Load(f, entries[0])] + Loaded(Load(f, entries[0]), entries[1..])
  }

  function Snapshot(emptyHash: nat, m: map<nat, Order>, fs: seq<Fields>): map<nat, Order>
    decreases |fs|
  {
    if fs == [] then m
    else Snapshot(emptyHash, Put(m, SnapshotId(fs[0], emptyHash), OrderOf(fs[0])), fs[1..])
  }

  /** The bids and offers have ids of their own. */
  ghost predicate Distinct(emptyHash: nat, fs: seq<Fields>) {
    forall i, j :: 0 <= i < j < |fs| && HasSide(fs[i]) && HasSide(fs[j]) ==>
      SnapshotId(fs[i], emptyHash) != SnapshotId(fs[j], emptyHash)
  }

  /** A snapshot with ids of their own leaves exactly its orders in the book. */
  lemma {:induction false} SnapshotContents(emptyHash: nat, m: map<nat, Order>, fs: seq<Fields>, id: nat, o: Order)
    requires Distinct(emptyHash, fs)
    ensures var r := Snapshot(emptyHash, m, fs);
      id in r && r[id] == o <==>
        || Carries(emptyHash, fs, id, o)
        || (id in m && m[id] == o && forall k :: 0 <= k < |fs| && HasSide(fs[k]) ==> SnapshotId(fs[k], emptyHash) != id)
    decreases |fs|
  {
    hide SnapshotId;
    if fs != [] {
      var id0, o0 := SnapshotId(fs[0], emptyHash), OrderOf(fs[0]);
      SnapshotContents(emptyHash, Put(m, id0, o0), fs[1..], id, o);
      CarriesCons(emptyHash, fs, id, o);
      assert forall k :: 0 < k < |fs| ==> fs[1..][k - 1] == fs[k];
      if o0.side != NO_SIDE && id0 == id {
        assert forall k :: 0 <= k < |fs| - 1 && HasSide(fs[1..][k]) ==> SnapshotId(fs[1..][k], emptyHash) != id;
      }
    }
  }

  /** Some entry has that id and makes that order. */
  ghost predicate Carries(emptyHash: nat, fs: seq<Fields>, id: nat, o: Order) {
    exists k :: 0 <= k < |fs| && SnapshotId(fs[k], emptyHash) == id && Makes(fs[k], o)
  }

  lemma CarriesCons(emptyHash: nat, fs: seq<Fields>, id: nat, o: Order)
    requires fs != []
    ensures Carries(emptyHash, fs, id, o) <==>
              (SnapshotId(fs[0], emptyHash) == id && Makes(fs[0], o))
              || Carries(emptyHash, fs[1..], id, o)
  {
  }

  /** The ids that an incremental entry is about. */
  predicate Names(emptyHash: nat, f: Fields, e: MDEntry, id: nat) {
    IdOf(LoadIncremental(f, e), emptyHash) == id || e.refId == Some(id)
  }

  predicate NamesAny(emptyHash: nat, f: Fields, entries: seq<MDEntry>, id: nat)
    decreases |entries|
  {
    entries != [] && (Names(emptyHash, f, entries[0], id) || NamesAny(emptyHash, LoadIncremental(f, entries[0]), entries[1..], id))
  }

  /** An order that no entry names is as it was. */
  lemma {:induction false} Untouched(overwrite: bool, emptyHash: nat, m: map<nat, Order>, f: Fields, entries: seq<MDEntry>, id: nat)
    requires !NamesAny(emptyHash, f, entries, id)
    ensures var r := Replay(overwrite, emptyHash, m, f, entries).0;
      (id in r <==> id in m) && (id in m ==> r[id] == m[id])
    decreases |entries|
  {
    if entries != [] {
      var f' := LoadIncremental(f, entries[0]);
      var m' := Update(overwrite, m, IdOf(f', emptyHash), f', entries[0].refId);
      Untouched(overwrite, emptyHash, m', f', entries[1..], id);
    }
  }

  /**
    When NEW overwrites, a message can clash only by renaming an order to another id that is live; a
    message whose reference ids are its own entry ids is safe whatever is in the book.
  */
  lemma {:induction false} OnlyRenamesClash(emptyHash: nat, m: map<nat, Order>, f: Fields, entries: seq<MDEntry>)
    requires OwnRefs(emptyHash, f, entries)
    ensures WellFormed(true, emptyHash, m, f, entries)
    decreases |entries|
  {
    if entries != [] {
      var f' := LoadIncremental(f, entries[0]);
      OnlyRenamesClash(emptyHash, Update(true, m, IdOf(f', emptyHash), f', entries[0].refId), f', entries[1..]);
    }
  }

  predicate OwnRefs(emptyHash: nat, f: Fields, entries: seq<MDEntry>)
    decreases |entries|
  {
    entries != [] ==>
      var f' := LoadIncremental(f, entries[0]);
      && (entries[0].refId.Some? ==> entries[0].refId.value == IdOf(f', emptyHash))
      && OwnRefs(emptyHash, f', entries[1..])
  }

  // ------------------------------------------------------------------------------------------
  // The feed as a fold over the whole book, queues included
  // ------------------------------------------------------------------------------------------

  /** A NEW that overwrites and a CHANGE with a reference id lose their place in the queue; a CHANGE of the size keeps it. */
  function UpdateBook(overwrite: bool, b: Book, id: nat, f: Fields, refId: Option<nat>): Book {
    match f.action
    case '0' => BookModel.Add(if overwrite then BookModel.Remove(b, id) else b, id, OrderOf(f))
    case '1' =>
      if refId.Some? then BookModel.Add(BookModel.Remove(b, refId.value), id, OrderOf(f))
      else BookModel.Modify(b, id, f.size)
    case '2' => BookModel.Remove(b, id)
    case _ => b
  }

  function ReplayBook(overwrite: bool, emptyHash: nat, b: Book, f: Fields, entries: seq<MDEntry>): (Book, Outcome)
    decreases |entries|
  {
    if entries == [] then (b, Done)
    else
      var f' := LoadIncremental(f, entries[0]);
      var id := IdOf(f', emptyHash);
      var verdict := Verdict(overwrite, b.orders.Keys, id, f', entries[0].refId);
      if verdict != Done then (b, verdict)
      else ReplayBook(overwrite, emptyHash, UpdateBook(overwrite, b, id, f', entries[0].refId), f', entries[1..])
  }

  function SnapshotBook(emptyHash: nat, b: Book, fs: seq<Fields>): Book
    decreases |fs|
  {
    if fs == [] then b
    else SnapshotBook(emptyHash, BookModel.Add(b, SnapshotId(fs[0], emptyHash), OrderOf(fs[0])), fs[1..])
  }

  lemma UpdateOrders(overwrite: bool, b: Book, id: nat, f: Fields, refId: Option<nat>)
    ensures UpdateBook(overwrite, b, id, f, refId).orders == Update(overwrite, b.orders, id, f, refId)
  {
    hide OrderOf;
  }

  /** The live orders of the book are those of the plain map. */
  lemma {:induction false} ReplayOrders(overwrite: bool, emptyHash: nat, b: Book, f: Fields, entries: seq<MDEntry>)
    ensures var r := ReplayBook(overwrite, emptyHash, b, f, entries);
      (r.0.orders, r.1) == Replay(overwrite, emptyHash, b.orders, f, entries)
    decreases |entries|
  {
    if entries != [] {
      hide Update, UpdateBook, Verdict, IdOf, LoadIncremental;
      var f' := LoadIncremental(f, entries[0]);
      var id := IdOf(f', emptyHash);
      UpdateOrders(overwrite, b, id, f', entries[0].refId);
      ReplayOrders(overwrite, emptyHash, UpdateBook(overwrite, b, id, f', entries[0].refId), f', entries[1..]);
    }
  }

  lemma {:induction false} SnapshotOrders(emptyHash: nat, b: Book, fs: seq<Fields>)
    ensures SnapshotBook(emptyHash, b, fs).orders == Snapshot(emptyHash, b.orders, fs)
    decreases |fs|
  {
    if fs != [] {
      SnapshotOrders(emptyHash, BookModel.Add(b, SnapshotId(fs[0], emptyHash), OrderOf(fs[0])), fs[1..]);
    }
  }

  /** Some entry with a side has that id. */
  ghost predicate Sided(emptyHash: nat, fs: seq<Fields>, id: nat) {
    exists k :: 0 <= k < |fs| && HasSide(fs[k]) && SnapshotId(fs[k], emptyHash) == id
  }

  lemma SidedNext(emptyHash: nat, fs: seq<Fields>, f: Fields, id: nat)
    ensures Sided(emptyHash, fs + [f], id) <==>
              Sided(emptyHash, fs, id) || (HasSide(f) && SnapshotId(f, emptyHash) == id)
  {
    hide SnapshotId, HasSide;
    var all := fs + [f];
    assert all[|fs|] == f;
    if k :| 0 <= k < |fs| && HasSide(fs[k]) && SnapshotId(fs[k], emptyHash) == id {
      assert all[k] == fs[k];
    }
  }

  lemma DistinctNext(emptyHash: nat, fs: seq<Fields>, f: Fields)
    ensures Distinct(emptyHash, fs + [f]) <==>
              Distinct(emptyHash, fs) && (HasSide(f) ==> !Sided(emptyHash, fs, SnapshotId(f, emptyHash)))
  {
    hide SnapshotId, HasSide;
    var all := fs + [f];
    assert all[..|fs|] == fs && all[|fs|] == f;
    if Distinct(emptyHash, all) {
      assert forall k :: 0 <= k < |fs| ==> all[k] == fs[k];
    }
  }

  lemma NoneSided(emptyHash: nat)
    ensures Distinct(emptyHash, []) && forall id :: !Sided(emptyHash, [], id)
  {
  }

  // ------------------------------------------------------------------------------------------
  // What a message says, in the terms of its fields
  // ------------------------------------------------------------------------------------------

  /** A field stands for the last value that an entry gives it, and without any for the one it had before. */
  ghost predicate LastGiven<T(!new)>(given: seq<Option<T>>, before: Option<T>, now: Option<T>) {
    || (now == before && forall j :: 0 <= j < |given| ==> given[j].None?)
    || (now.Some? && exists k :: 0 <= k < |given| && given[k] == now && forall j :: k < j < |given| ==> given[j].None?)
  }

  lemma LastGivenCons<T(!new)>(first: Option<T>, rest: seq<Option<T>>, before: Option<T>, mid: Option<T>, now: Option<T>)
    requires (first.Some? && mid == first) || (first.None? && mid == before)
    requires LastGiven(rest, mid, now)
    ensures LastGiven([first] + rest, before, now)
  {
    var all := [first] + rest;
    assert all[0] == first && forall j :: 0 <= j < |rest| ==> all[j + 1] == rest[j];
    if k :| 0 <= k < |rest| && now.Some? && rest[k] == now && forall j :: k < j < |rest| ==> rest[j].None? {
      assert all[k + 1] == now && forall j :: k + 1 < j < |all| ==> all[j] == rest[j - 1];
    } else {
      assert forall j :: 0 < j < |all| ==> all[j] == rest[j - 1];
    }
  }

  lemma LastGivenUnique<T(!new)>(given: seq<Option<T>>, before: Option<T>, now: Option<T>, other: Option<T>)
    requires LastGiven(given, before, now) && LastGiven(given, before, other)
    ensures now == other
  {
  }

  function Actions(entries: seq<MDEntry>): seq<Option<char>> {
    seq(|entries|, i requires 0 <= i < |entries| => entries[i].action)
  }

  function Kinds(entries: seq<MDEntry>): seq<Option<char>> {
    seq(|entries|, i requires 0 <= i < |entries| => entries[i].kind)
  }

  function Ids(entries: seq<MDEntry>): seq<Option<nat>> {
    seq(|entries|, i requires 0 <= i < |entries| => entries[i].id)
  }

  function QuoteIds(entries: seq<MDEntry>): seq<Option<nat>> {
    seq(|entries|, i requires 0 <= i < |entries| => entries[i].quoteId)
  }

  function Prices(entries: seq<MDEntry>): seq<Option<int>> {
    seq(|entries|, i requires 0 <= i < |entries| => entries[i].px)
  }

  function Sizes(entries: seq<MDEntry>): seq<Option<nat>> {
    seq(|entries|, i requires 0 <= i < |entries| => entries[i].size)
  }

  /** All the fields but the size are the last ones given. */
  ghost predicate InForce(before: Fields, entries: seq<MDEntry>, now: Fields) {
    && LastGiven(Actions(entries), Some(before.action), Some(now.action))
    && LastGiven(Kinds(entries), Some(before.kind), Some(now.kind))
    && LastGiven(Ids(entries), before.id, now.id)
    && LastGiven(QuoteIds(entries), before.quoteId, now.quoteId)
    && LastGiven(Prices(entries), Some(before.px), Some(now.px))
  }

  lemma InForceCons(before: Fields, e: MDEntry, rest: seq<MDEntry>, mid: Fields, now: Fields)
    requires mid == Load(before, e).(size := mid.size) && InForce(mid, rest, now)
    ensures InForce(before, [e] + rest, now)
  {
    var all := [e] + rest;
    assert Actions(all) == [e.action] + Actions(rest);
    assert Kinds(all) == [e.kind] + Kinds(rest);
    assert Ids(all) == [e.id] + Ids(rest);
    assert QuoteIds(all) == [e.quoteId] + QuoteIds(rest);
    assert Prices(all) == [e.px] + Prices(rest);
    hide LastGiven;
    LastGivenCons(e.action, Actions(rest), Some(before.action), Some(mid.action), Some(now.action));
    LastGivenCons(e.kind, Kinds(rest), Some(before.kind), Some(mid.kind), Some(now.kind));
    LastGivenCons(e.id, Ids(rest), before.id, mid.id, now.id);
    LastGivenCons(e.quoteId, QuoteIds(rest), before.quoteId, mid.quoteId, now.quoteId);
    LastGivenCons(e.px, Prices(rest), Some(before.px), Some(mid.px), Some(now.px));
  }

  /** The fields behind some entries of an incremental refresh. */
  function FieldsAfter(f: Fields, entries: seq<MDEntry>): Fields
    decreases |entries|
  {
    if entries == [] then f else FieldsAfter(LoadIncremental(f, entries[0]), entries[1..])
  }

  /** An absent field of an incremental refresh stands for the last one given, but an absent size is 0. */
  lemma {:induction false} IncrementalFields(f: Fields, entries: seq<MDEntry>)
    ensures InForce(f, entries, FieldsAfter(f, entries))
    ensures entries != [] ==>
              FieldsAfter(f, entries).size == match entries[|entries| - 1].size case Some(size) => size case None => 0
    decreases |entries|
  {
    if entries != [] {
      hide InForce;
      var mid := LoadIncremental(f, entries[0]);
      IncrementalFields(mid, entries[1..]);
      InForceCons(f, entries[0], entries[1..], mid, FieldsAfter(f, entries));
      assert [entries[0]] + entries[1..] == entries;
    } else {
      assert InForce(f, [], f);
    }
  }

  /** A message can be read entry by entry: the first part, and then the rest with the fields that are in force behind it. */
  lemma {:induction false} ReplayJoins(overwrite: bool, emptyHash: nat, b: Book, f: Fields, first: seq<MDEntry>, rest: seq<MDEntry>)
    ensures var r := ReplayBook(overwrite, emptyHash, b, f, first);
      ReplayBook(overwrite, emptyHash, b, f, first + rest)
      == if r.1 == Done then ReplayBook(overwrite, emptyHash, r.0, FieldsAfter(f, first), rest) else r
    decreases |first|
  {
    var all := first + rest;
    if first == [] {
      assert all == rest;
    } else {
      hide LoadIncremental, UpdateBook, Verdict, IdOf;
      assert all[0] == first[0] && all[1..] == first[1..] + rest;
      var f' := LoadIncremental(f, first[0]);
      ReplayJoins(overwrite, emptyHash, UpdateBook(overwrite, b, IdOf(f', emptyHash), f', first[0].refId), f', first[1..], rest);
    }
  }

  /** What an entry of an incremental refresh says, with the fields of the entries before for those that it does not give. */
  predicate Says(emptyHash: nat, f: Fields, e: MDEntry, action: char, kind: char, id: nat, px: int, size: nat) {
    && (if e.action.Some? then e.action == Some(action) else f.action == action)
    && (if e.kind.Some? then e.kind == Some(kind) else f.kind == kind)
    && (if e.id.Some? then e.id == Some(id) else f.id == Some(id) || (f.id.None? && id == emptyHash))
    && (if e.px.Some? then e.px == Some(px) else f.px == px)
    && (if e.size.Some? then e.size == Some(size) else size == 0)
  }

  /** The order of that id is new, at the end of its level; nothing else is different. */
  predicate Joined(before: Book, after: Book, id: nat, side: Side, size: nat, px: int) {
    && after.orders == before.orders[id := Order(side, size, px)]
    && after.levels == before.levels[Slot(side, px) := Queue(before, Slot(side, px)) + [Entry(id, size)]]
  }

  /** NEW: kind '0' is a bid and kind '1' an ask of that size and price, and any other kind is no order. */
  lemma NewEntry(emptyHash: nat, b: Book, f: Fields, e: MDEntry, kind: char, id: nat, px: int, size: nat)
    requires Says(emptyHash, f, e, '0', kind, id, px, size)
    ensures var r := ReplayBook(false, emptyHash, b, f, [e]);
      && (kind == '0' && id !in b.orders ==> r.1 == Done && Joined(b, r.0, id, BID, size, px))
      && (kind == '1' && id !in b.orders ==> r.1 == Done && Joined(b, r.0, id, ASK, size, px))
      && (kind != '0' && kind != '1' ==> r == (b, Done))
      && ((kind == '0' || kind == '1') && id in b.orders ==> r == (b, Corrupted))
    ensures var r := ReplayBook(true, emptyHash, b, f, [e]);
      && r.1 == Done
      && (kind == '0' ==> Joined(BookModel.Remove(b, id), r.0, id, BID, size, px))
      && (kind == '1' ==> Joined(BookModel.Remove(b, id), r.0, id, ASK, size, px))
      && (kind != '0' && kind != '1' ==> r.0 == BookModel.Remove(b, id))
  {
    hide BookModel.Remove;
    RemovedOrders(b, id);
    OneEntry(false, emptyHash, b, f, e);
    OneEntry(true, emptyHash, b, f, e);
  }

  /** CHANGE with a reference id: that order goes, and the one that the entry says joins. */
  lemma RenamingEntry(overwrite: bool, emptyHash: nat, b: Book, f: Fields, e: MDEntry, kind: char, id: nat, px: int, size: nat)
    requires Says(emptyHash, f, e, '1', kind, id, px, size) && e.refId.Some?
    ensures var r, without := ReplayBook(overwrite, emptyHash, b, f, [e]), BookModel.Remove(b, e.refId.value);
      && (kind == '0' && id !in without.orders ==> r.1 == Done && Joined(without, r.0, id, BID, size, px))
      && (kind == '1' && id !in without.orders ==> r.1 == Done && Joined(without, r.0, id, ASK, size, px))
      && (kind != '0' && kind != '1' ==> r == (without, Done))
      && ((kind == '0' || kind == '1') && id in without.orders ==> r == (b, Corrupted))
  {
    hide BookModel.Remove;
    RemovedOrders(b, e.refId.value);
    OneEntry(overwrite, emptyHash, b, f, e);
  }

  /** CHANGE without one: the order of the id takes the size and keeps its side, its price and its place. */
  lemma ResizingEntry(overwrite: bool, emptyHash: nat, b: Book, f: Fields, e: MDEntry, kind: char, id: nat, px: int, size: nat)
    requires Says(emptyHash, f, e, '1', kind, id, px, size) && e.refId.None?
    ensures var r := ReplayBook(overwrite, emptyHash, b, f, [e]);
      && r.1 == Done
      && (id !in b.orders ==> r.0 == b)
      && (id in b.orders ==>
            var o := b.orders[id];
            && r.0 == BookModel.Modify(b, id, size)
            && r.0.orders == b.orders[id := Order(o.side, size, o.price)])
  {
    OneEntry(overwrite, emptyHash, b, f, e);
  }

  /** DELETE: the order of the id goes; when there is none the handler stops at its assertion, and for any other action it exits. */
  lemma DeletingEntry(overwrite: bool, emptyHash: nat, b: Book, f: Fields, e: MDEntry, action: char, kind: char, id: nat, px: int, size: nat)
    requires Says(emptyHash, f, e, action, kind, id, px, size) && action != '0' && action != '1'
    ensures var r := ReplayBook(overwrite, emptyHash, b, f, [e]);
      && (action == '2' && id in b.orders ==> r == (BookModel.Remove(b, id), Done) && r.0.orders == b.orders - {id})
      && (action == '2' && id !in b.orders ==> r == (b, Aborted))
      && (action != '2' ==> r == (b, Exited))
  {
    RemovedOrders(b, id);
    hide BookModel.Remove;
    OneEntry(overwrite, emptyHash, b, f, e);
  }

  lemma OneEntry(overwrite: bool, emptyHash: nat, b: Book, f: Fields, e: MDEntry)
    ensures var f' := LoadIncremental(f, e); var id := IdOf(f', emptyHash);
      ReplayBook(overwrite, emptyHash, b, f, [e])
      == var verdict := Verdict(overwrite, b.orders.Keys, id, f', e.refId);
         if verdict != Done then (b, verdict) else (UpdateBook(overwrite, b, id, f', e.refId), Done)
  {
    hide LoadIncremental, IdOf, Verdict, UpdateBook;
    assert [e][1..] == [];
  }

  /** The id of entry k of a snapshot: the last entry id given, or else the last quote id, or else the hash of the empty text. */
  ghost predicate SnapshotNames(emptyHash: nat, f0: Fields, entries: seq<MDEntry>, k: nat, id: nat)
    requires k < |entries|
  {
    var given := entries[..k + 1];
    || LastGiven(Ids(given), f0.id, Some(id))
    || (LastGiven(Ids(given), f0.id, None) && LastGiven(QuoteIds(given), f0.quoteId, Some(id)))
    || (LastGiven(Ids(given), f0.id, None) && LastGiven(QuoteIds(given), f0.quoteId, None) && id == emptyHash)
  }

  /** Entry k of a snapshot has that kind, id, price and size, each of them the last one given. */
  ghost predicate SnapshotSays(emptyHash: nat, f0: Fields, entries: seq<MDEntry>, k: nat, kind: char, id: nat, px: int, size: nat)
    requires k < |entries|
  {
    var given := entries[..k + 1];
    && LastGiven(Kinds(given), Some(f0.kind), Some(kind))
    && SnapshotNames(emptyHash, f0, entries, k, id)
    && LastGiven(Prices(given), Some(f0.px), Some(px))
    && LastGiven(Sizes(given), Some(f0.size), Some(size))
  }

  lemma {:induction false} SnapshotFields(f0: Fields, entries: seq<MDEntry>, k: nat)
    requires k < |entries|
    ensures InForce(f0, entries[..k + 1], Loaded(f0, entries)[k])
    ensures LastGiven(Sizes(entries[..k + 1]), Some(f0.size), Some(Loaded(f0, entries)[k].size))
    decreases |entries|
  {
    hide InForce, LastGiven, Load;
    var e, given, mid, now := entries[0], entries[..k + 1], Load(f0, entries[0]), Loaded(f0, entries)[k];
    var rest := entries[1..][..k];
    assert given == [e] + rest;
    if k == 0 {
      assert rest == [] && now == mid;
      NothingGiven(now);
    } else {
      SnapshotFields(mid, entries[1..], k - 1);
      assert Loaded(mid, entries[1..])[k - 1] == now;
    }
    InForceCons(f0, e, rest, mid, now);
    assert Sizes(given) == [e.size] + Sizes(rest);
    SizeLoaded(f0, e);
    LastGivenCons(e.size, Sizes(rest), Some(f0.size), Some(mid.size), Some(now.size));
  }

  lemma NothingGiven(f: Fields)
    ensures InForce(f, [], f) && LastGiven(Sizes([]), Some(f.size), Some(f.size))
  {
  }

  lemma SizeLoaded(f: Fields, e: MDEntry)
    ensures if e.size.Some? then Some(Load(f, e).size) == e.size else Load(f, e).size == f.size
  {
  }

  lemma SnapshotNamesIs(emptyHash: nat, f0: Fields, entries: seq<MDEntry>, k: nat, id: nat)
    requires k < |entries|
    ensures SnapshotNames(emptyHash, f0, entries, k, id) <==> SnapshotId(Loaded(f0, entries)[k], emptyHash) == id
  {
    hide LastGiven;
    SnapshotFields(f0, entries, k);
    var given, f := entries[..k + 1], Loaded(f0, entries)[k];
    forall x | LastGiven(Ids(given), f0.id, x) ensures x == f.id {
      LastGivenUnique(Ids(given), f0.id, x, f.id);
    }
    forall x | LastGiven(QuoteIds(given), f0.quoteId, x) ensures x == f.quoteId {
      LastGivenUnique(QuoteIds(given), f0.quoteId, x, f.quoteId);
    }
  }

  lemma SnapshotSaysIs(emptyHash: nat, f0: Fields, entries: seq<MDEntry>, k: nat, kind: char, id: nat, px: int, size: nat)
    requires k < |entries|
    ensures var f := Loaded(f0, entries)[k];
      SnapshotSays(emptyHash, f0, entries, k, kind, id, px, size)
      <==> f.kind == kind && SnapshotId(f, emptyHash) == id && f.px == px && f.size == size
  {
    hide LastGiven, SnapshotNames, SnapshotId;
    SnapshotNamesIs(emptyHash, f0, entries, k, id);
    SnapshotFields(f0, entries, k);
    var given, f := entries[..k + 1], Loaded(f0, entries)[k];
    if SnapshotSays(emptyHash, f0, entries, k, kind, id, px, size) {
      LastGivenUnique(Kinds(given), Some(f0.kind), Some(kind), Some(f.kind));
      LastGivenUnique(Prices(given), Some(f0.px), Some(px), Some(f.px));
      LastGivenUnique(Sizes(given), Some(f0.size), Some(size), Some(f.size));
    }
  }

  /** A snapshot with ids of their own leaves the bids of its entries of kind '0', the asks of those of kind '1', and no other order. */
  lemma SnapshotHolds(emptyHash: nat, f0: Fields, entries: seq<MDEntry>, id: nat, side: Side, size: nat, px: int)
    requires Distinct(emptyHash, Loaded(f0, entries))
    ensures var r := SnapshotBook(emptyHash, EMPTY, Loaded(f0, entries));
      id in r.orders && r.orders[id] == Order(side, size, px) <==>
        exists k: nat, kind ::
          && k < |entries| && SnapshotSays(emptyHash, f0, entries, k, kind, id, px, size)
          && ((side == BID && kind == '0') || (side == ASK && kind == '1'))
  {
    hide Loaded, SnapshotSays, SnapshotId, SnapshotBook, Snapshot, Distinct;
    var fs, o := Loaded(f0, entries), Order(side, size, px);
    SnapshotOrders(emptyHash, EMPTY, fs);
    SnapshotContents(emptyHash, map[], fs, id, o);
    forall k: nat, kind | k < |entries|
      ensures SnapshotSays(emptyHash, f0, entries, k, kind, id, px, size)
              <==> fs[k].kind == kind && SnapshotId(fs[k], emptyHash) == id && fs[k].px == px && fs[k].size == size {
      SnapshotSaysIs(emptyHash, f0, entries, k, kind, id, px, size);
    }
    if Carries(emptyHash, fs, id, o) {
      var k :| 0 <= k < |fs| && SnapshotId(fs[k], emptyHash) == id && Makes(fs[k], o);
      assert SnapshotSays(emptyHash, f0, entries, k, fs[k].kind, id, px, size);
    }
    if k: nat, kind :| k < |entries| && SnapshotSays(emptyHash, f0, entries, k, kind, id, px, size)
                       && ((side == BID && kind == '0') || (side == ASK && kind == '1')) {
      assert Makes(fs[k], o);
    }
  }

  /** The ids of a snapshot are its own exactly when no two entries of kind '0' or '1' name the same one. */
  lemma DistinctIff(emptyHash: nat, f0: Fields, entries: seq<MDEntry>)
    ensures !Distinct(emptyHash, Loaded(f0, entries)) <==>
      exists i: nat, j: nat, id ::
        && i < j < |entries|
        && SnapshotNames(emptyHash, f0, entries, i, id) && SnapshotNames(emptyHash, f0, entries, j, id)
        && IsSided(f0, entries, i) && IsSided(f0, entries, j)
  {
    hide SnapshotId, SnapshotNames, Loaded, HasSide, IsSided;
    var fs := Loaded(f0, entries);
    forall k: nat, id | k < |entries|
      ensures SnapshotNames(emptyHash, f0, entries, k, id) <==> SnapshotId(fs[k], emptyHash) == id {
      SnapshotNamesIs(emptyHash, f0, entries, k, id);
    }
    forall k: nat | k < |entries| ensures IsSided(f0, entries, k) <==> HasSide(fs[k]) {
      IsSidedIs(f0, entries, k);
    }
    if !Distinct(emptyHash, fs) {
      var i, j :| 0 <= i < j < |fs| && HasSide(fs[i]) && HasSide(fs[j]) && SnapshotId(fs[i], emptyHash) == SnapshotId(fs[j], emptyHash);
      var id := SnapshotId(fs[i], emptyHash);
      assert SnapshotNames(emptyHash, f0, entries, i, id) && SnapshotNames(emptyHash, f0, entries, j, id);
    }
  }

  /** The kind of entry k, the last one given, is that of a bid or an ask. */
  ghost predicate IsSided(f0: Fields, entries: seq<MDEntry>, k: nat)
    requires k < |entries|
  {
    var kinds := Kinds(entries[..k + 1]);
    LastGiven(kinds, Some(f0.kind), Some('0')) || LastGiven(kinds, Some(f0.kind), Some('1'))
  }

  lemma IsSidedIs(f0: Fields, entries: seq<MDEntry>, k: nat)
    requires k < |entries|
    ensures IsSided(f0, entries, k) <==> HasSide(Loaded(f0, entries)[k])
  {
    hide LastGiven;
    SnapshotFields(f0, entries, k);
    var kinds, f := Kinds(entries[..k + 1]), Loaded(f0, entries)[k];
    forall x | LastGiven(kinds, Some(f0.kind), x) ensures x == Some(f.kind) {
      LastGivenUnique(kinds, Some(f0.kind), x, Some(f.kind));
    }
  }

  // ------------------------------------------------------------------------------------------
  // The handlers
  // ------------------------------------------------------------------------------------------

  class Application {
    const newReplaces: bool
    /** The hash of the empty text. */
    const emptyHash: nat
    const book: KBook

    constructor (newReplaces: bool, emptyHash: nat, book: KBook)
      ensures this.newReplaces == newReplaces && this.emptyHash == emptyHash && this.book == book
    {
      this.newReplaces, this.emptyHash, this.book := newReplaces, emptyHash, book;
    }

    lemma Live(id: nat)
      requires book.Valid()
      ensures id in book.orderMap <==> id in book.book.orders
    {
    }

    /** Removing and adding in one go, as a CHANGE with a reference id and an overwriting NEW do. */
    method Replace(refId: nat, id: nat, o: Order)
      requires book.Valid()
      modifies book.Repr
      ensures fresh(book.Repr - old(book.Repr))
      ensures book.Valid() <==> o.side == NO_SIDE || id !in old(book.book.orders) || id == refId
      ensures book.Valid() ==> book.book == BookModel.Add(BookModel.Remove(old(book.book), refId), id, o)
    {
      hide *;
      var _ := book.Remove(refId);
      Live(id);
      RemovedOrders(old(book.book), refId);
      var _ := book.Add(id, o.side, o.size, o.price);
    }

    method ApplyNew(id: nat, o: Order)
      requires book.Valid()
      modifies book.Repr
      ensures fresh(book.Repr - old(book.Repr))
      ensures book.Valid() <==> newReplaces || o.side == NO_SIDE || id !in old(book.book.orders)
      ensures book.Valid() ==>
                var b := old(book.book); book.book == BookModel.Add(if newReplaces then BookModel.Remove(b, id) else b, id, o)
    {
      hide *;
      if newReplaces {
        Replace(id, id, o);
      } else {
        Live(id);
        var _ := book.Add(id, o.side, o.size, o.price);
      }
    }

    method ApplyChange(id: nat, o: Order, refId: Option<nat>)
      requires book.Valid()
      modifies book.Repr
      ensures fresh(book.Repr - old(book.Repr))
      ensures book.Valid() <==> refId.None? || o.side == NO_SIDE || id !in old(book.book.orders) || id == refId.value
      ensures book.Valid() ==>
                book.book == if refId.Some? then BookModel.Add(BookModel.Remove(old(book.book), refId.value), id, o)
                             else BookModel.Modify(old(book.book), id, o.size)
    {
      hide *;
      if refId.Some? {
        Replace(refId.value, id, o);
      } else {
        var order := book.GetOrder(id);
        if order != null {
          var _ := book.Modify(id, o.size);
        } else {
          NotModified(book.book, id, o.size);
        }
      }
    }

    /** One entry of an incremental refresh, with the fields loaded. */
    method Apply(f: Fields, refId: Option<nat>) returns (outcome: Outcome)
      requires book.Valid()
      modifies book.Repr
      ensures fresh(book.Repr - old(book.Repr))
      ensures outcome == Verdict(newReplaces, old(book.book.orders.Keys), IdOf(f, emptyHash), f, refId)
      ensures book.Valid() <==> outcome != Corrupted
      ensures book.Valid() ==>
                book.book == if outcome == Done then UpdateBook(newReplaces, old(book.book), IdOf(f, emptyHash), f, refId)
                             else old(book.book)
    {
      hide KBook.Valid, IdOf, BookModel.Add, BookModel.Remove, BookModel.Modify;
      var id, o := IdOf(f, emptyHash), OrderOf(f);
      var order := book.GetOrder(id);
      outcome := Done;
      if f.action == '0' {
        outcome := if newReplaces || o.side == NO_SIDE || order == null then Done else Corrupted;
        ApplyNew(id, o);
      } else if f.action == '1' {
        outcome := if refId.None? || o.side == NO_SIDE || order == null || id == refId.value then Done else Corrupted;
        ApplyChange(id, o, refId);
      } else if f.action == '2' {
        if order == null {
          return Aborted;
        }
        var _ := book.Remove(id);
      } else {
        outcome := Exited;
      }
    }

    /** An incremental refresh; without the field that counts its entries nothing happens. */
    method IncrementalUpdate(f0: Fields, groups: Option<seq<MDEntry>>) returns (outcome: Outcome)
      requires book.Valid()
      modifies book.Repr
      ensures fresh(book.Repr - old(book.Repr))
      ensures book.Valid() <==> outcome != Corrupted
      ensures groups.None? ==> outcome == Done
      ensures groups == Some([]) ==> outcome == NullBook
      ensures groups.None? || groups.value == [] ==> book.book == old(book.book)
      ensures groups.Some? && groups.value != [] ==>
                var r := ReplayBook(newReplaces, emptyHash, old(book.book), f0, groups.value);
                outcome == r.1 && (book.Valid() ==> book.book == r.0)
    {
      hide KBook.Valid, IdOf, LoadIncremental, UpdateBook, Verdict;
      if groups.None? {
        return Done;
      }
      var entries := groups.value;
      if |entries| == 0 {
        return NullBook;
      }
      var f := f0;
      for i := 0 to |entries|
        invariant book.Valid() && fresh(book.Repr - old(book.Repr))
        invariant ReplayBook(newReplaces, emptyHash, book.book, f, entries[i..])
               == ReplayBook(newReplaces, emptyHash, old(book.book), f0, entries)
      {
        var e := entries[i];
        assert entries[i..][0] == e && entries[i..][1..] == entries[i + 1..];
        f := LoadIncremental(f, e);
        outcome := Apply(f, e.refId);
        if outcome != Done {
          return;
        }
      }
      outcome := Done;
    }

    /** A snapshot: the book is cleared and filled again. */
    method FullRefresh(f0: Fields, groups: Option<seq<MDEntry>>) returns (outcome: Outcome)
      requires book.Valid()
      modifies book.Repr
      ensures fresh(book.Repr - old(book.Repr))
      ensures book.Valid() <==> outcome != Corrupted
      ensures groups.None? ==> outcome == Done
      ensures groups == Some([]) ==> outcome == NullBook
      ensures groups.None? || groups.value == [] ==> book.book == old(book.book)
      ensures groups.Some? && groups.value != [] ==>
                var fs := Loaded(f0, groups.value);
                && outcome == (if Distinct(emptyHash, fs) then Done else Corrupted)
                && (outcome == Done ==> book.book == SnapshotBook(emptyHash, EMPTY, fs))
    {
      if groups.None? {
        return Done;
      }
      if |groups.value| == 0 {
        return NullBook;
      }
      outcome := Refill(f0, groups.value);
    }

    /** The entries of a snapshot. */
    method Refill(f0: Fields, entries: seq<MDEntry>) returns (outcome: Outcome)
      requires book.Valid()
      modifies book.Repr
      ensures fresh(book.Repr - old(book.Repr))
      ensures outcome == if Distinct(emptyHash, Loaded(f0, entries)) then Done else Corrupted
      ensures book.Valid() <==> outcome != Corrupted
      ensures outcome == Done ==> book.book == SnapshotBook(emptyHash, EMPTY, Loaded(f0, entries))
    {
      hide KBook.Valid, SnapshotId, Load, BookModel.Add, Distinct, Sided;
      book.Clear();
      var f := f0;
      ghost var fs := Loaded(f0, entries);
      NoneSided(emptyHash);
      assert fs[..0] == [] && fs[0..] == fs && entries[0..] == entries;
      for i := 0 to |entries|
        invariant book.Valid() && fresh(book.Repr - old(book.Repr))
        invariant Loaded(f, entries[i..]) == fs[i..]
        invariant Distinct(emptyHash, fs[..i])
        invariant forall id :: id in book.book.orders <==> Sided(emptyHash, fs[..i], id)
        invariant SnapshotBook(emptyHash, book.book, fs[i..]) == SnapshotBook(emptyHash, EMPTY, fs)
      {
        assert entries[i..][0] == entries[i] && entries[i..][1..] == entries[i + 1..];
        f := Load(f, entries[i]);
        assert f == fs[i] && fs[i..][1..] == fs[i + 1..] && fs[..i + 1] == fs[..i] + [f];
        var id, o := SnapshotId(f, emptyHash), OrderOf(f);
        DistinctNext(emptyHash, fs[..i], f);
        forall j ensures Sided(emptyHash, fs[..i] + [f], j) <==> Sided(emptyHash, fs[..i], j) || (o.side != NO_SIDE && id == j) {
          SidedNext(emptyHash, fs[..i], f, j);
        }
        Live(id);
        AddedOrders(book.book, id, o);
        var order := book.GetOrder(id);
        var _ := book.Add(id, o.side, o.size, o.price);
        if order != null && o.side != NO_SIDE {
          DistinctBefore(emptyHash, fs, i + 1);
          return Corrupted;
        }
      }
      assert fs[..|entries|] == fs;
      outcome := Done;
    }
  }

  lemma DistinctBefore(emptyHash: nat, fs: seq<Fields>, i: nat)
    requires i <= |fs| && !Distinct(emptyHash, fs[..i])
    ensures !Distinct(emptyHash, fs)
  {
  }

  lemma RemovedOrders(b: Book, id: nat)
    ensures BookModel.Remove(b, id).orders == b.orders - {id}
  {
  }

  lemma AddedOrders(b: Book, id: nat, o: Order)
    ensures BookModel.Add(b, id, o).orders == Put(b.orders, id, o)
  {
  }

  lemma NotModified(b: Book, id: nat, size: nat)
    requires id !in b.orders
    ensures BookModel.Modify(b, id, size) == b
  {
  }
}
