/**
  The order book: an id map, two trees of price levels, and in each level a list of orders.  The
  map and the levels share the order objects.
*/
module OrderBook {
  import opened BookModel
  import opened Sequences

  class KOrder {
    const orderId: nat
    const side: Side
    const price: int
    var size: nat

    constructor (orderId: nat, side: Side, size: nat, price: int)
      ensures this.orderId == orderId && this.side == side && this.size == size && this.price == price
    {
      this.orderId, this.side, this.size, this.price := orderId, side, size, price;
    }
  }

  ghost function Entries(orders: seq<KOrder>): (level: seq<Entry>)
    reads orders
    ensures |level| == |orders|
    ensures forall k :: 0 <= k < |orders| ==> level[k] == Entry(orders[k].orderId, orders[k].size)
  {
    seq(|orders|, k requires 0 <= k < |orders| reads orders => Entry(orders[k].orderId, orders[k].size))
  }

  ghost function HomeOf(o: KOrder): Slot {
    Slot(o.side, o.price)
  }

  class KLimit {
    const price: int
    /** The tree and the price that the level is made for. */
    ghost const home: Slot
    var orders: seq<KOrder>
    var totalVolume: nat

    constructor (price: int, ghost side: Side)
      ensures this.price == price && home == Slot(side, price)
      ensures orders == [] && totalVolume == 0 && Valid()
    {
      this.price, home, orders, totalVolume := price, Slot(side, price), [], 0;
    }

    ghost function Level(): seq<Entry>
      reads this, orders
    {
      Entries(orders)
    }

    /** Ids are unique in a level, and its volume is the sum of its sizes as far as 32 bits go. */
    ghost predicate Valid()
      reads this, orders
    {
      DistinctIds(Level()) && totalVolume == Wrap(Volume(Level()))
    }

    method AddVolume(vol: nat)
      modifies this`totalVolume
      ensures totalVolume == Wrap(old(totalVolume) + Wrap(vol))
    {
      totalVolume := Wrap(totalVolume + Wrap(vol));
    }

    method RemoveVolume(vol: nat)
      modifies this`totalVolume
      ensures totalVolume == Wrap(old(totalVolume) - Wrap(vol))
    {
      totalVolume := Wrap(totalVolume - Wrap(vol));
    }

    /** The position of the order in the list, or the length of the list. */
    method FindOrder(orderId: nat) returns (k: nat)
      ensures k <= |orders|
      ensures k < |orders| ==> orders[k].orderId == orderId
      ensures forall j :: 0 <= j < k ==> orders[j].orderId != orderId
    {
      k := 0;
      while k < |orders|
        invariant k <= |orders|
        invariant forall j :: 0 <= j < k ==> orders[j].orderId != orderId
      {
        if orders[k].orderId == orderId {
          break;
        }
        k := k + 1;
      }
    }

    method AddOrder(order: KOrder) returns (added: int)
      requires Valid()
      modifies this
      ensures Valid()
      ensures added == if HasId(old(Level()), order.orderId) then 0 else 1
      ensures added == 0 ==> orders == old(orders)
      ensures added == 1 ==> orders == old(orders) + [order]
      ensures added == 1 ==> Level() == old(Level()) + [Entry(order.orderId, order.size)]
    {
      hide Volume, Wrap, DistinctIds;
      var k := FindOrder(order.orderId);
      if k < |orders| {
        assert Level()[k].id == order.orderId;
        return 0;
      }
      ghost var before, entry := Level(), Entry(order.orderId, order.size);
      Appended(before, entry);
      orders := orders + [order];
      AddVolume(order.size);
      assert Level() == before + [entry];
      return 1;
    }

    method RemoveOrder(orderId: nat) returns (removed: int)
      requires Valid()
      modifies this
      ensures Valid()
      ensures orders == Dropped(old(orders), orderId) && Level() == Without(old(Level()), orderId)
      ensures removed == if old(orders) == [] || HasId(old(Level()), orderId) then 1 else 0
    {
      if |orders| == 0 {
        return 1;
      }
      var k := FindOrder(orderId);
      DroppedAt(orders, orderId, k);
      WithoutAt(Level(), orderId, k);
      if k < |orders| {
        assert Level()[k].id == orderId;
        EraseAt(k);
        return 1;
      }
      return 0;
    }

    method EraseAt(k: nat)
      requires Valid() && k < |orders|
      modifies this
      ensures Valid()
      ensures orders == old(orders[..k] + orders[k + 1..])
      ensures Level() == old(Level()[..k] + Level()[k + 1..])
    {
      ghost var before := Level();
      VolumeWithout(before, k);
      DistinctWithout(before, k);
      WrapMinus(Volume(before), orders[k].size);
      RemoveVolume(orders[k].size);
      orders := orders[..k] + orders[k + 1..];
      ghost var after := before[..k] + before[k + 1..];
      assert Level() == after;
    }

    method ModifyOrder(orderId: nat, size: nat) returns (modified: int)
      requires Valid()
      modifies this`totalVolume, orders
      ensures Valid()
      ensures Level() == Resized(old(Level()), orderId, size)
      ensures modified == if HasId(old(Level()), orderId) then 1 else 0
      ensures forall o :: o in orders ==> o.size == if o.orderId == orderId then size else old(o.size)
    {
      hide Volume, Wrap, DistinctIds, Resized;
      var k := FindOrder(orderId);
      if k < |orders| {
        assert Level()[k].id == orderId;
        ResizedAt(Level(), orderId, size, k);
        ResizeAt(k, size);
        return 1;
      }
      ResizedAbsent(Level(), orderId, size);
      return 0;
    }

    method ResizeAt(k: nat, size: nat)
      requires Valid() && k < |orders|
      modifies this`totalVolume, orders
      ensures Valid()
      ensures Level() == old(Level()[k := Entry(orders[k].orderId, size)])
      ensures forall o :: o in orders ==> o.size == if o == orders[k] then size else old(o.size)
      ensures forall o :: o in orders ==> (o.orderId == orders[k].orderId <==> o == orders[k])
    {
      ghost var before := Level();
      ghost var after := before[k := Entry(orders[k].orderId, size)];
      DistinctChanged(before, k, size);
      VolumeResized(before, k, after[k]);
      WrapChange(Volume(before), orders[k].size, size);
      UniqueOrder(k);
      RemoveVolume(orders[k].size);
      orders[k].size := size;
      AddVolume(size);
      assert Level() == after;
    }

    lemma UniqueOrder(k: nat)
      requires DistinctIds(Level()) && k < |orders|
      ensures forall j :: 0 <= j < |orders| && j != k ==> orders[j] != orders[k] && orders[j].orderId != orders[k].orderId
    {
    }
  }

  /** An entry more at the end of a level. */
  lemma Appended(level: seq<Entry>, e: Entry)
    requires DistinctIds(level) && !HasId(level, e.id)
    ensures DistinctIds(level + [e]) && Wrap(Wrap(Volume(level)) + Wrap(e.size)) == Wrap(Volume(level + [e]))
  {
    hide Wrap;
    WrapPlus(Volume(level), e.size);
    assert (level + [e])[..|level|] == level;
    assert forall k :: 0 <= k < |level| ==> level[k].id != e.id;
  }

  lemma WrapPlus(v: int, s: int)
    ensures Wrap(Wrap(v) + Wrap(s)) == Wrap(v + s)
  {
  }

  lemma WrapMinus(v: int, s: int)
    ensures Wrap(Wrap(v) - Wrap(s)) == Wrap(v - s)
  {
  }

  lemma WrapChange(v: int, s: int, t: int)
    ensures Wrap(Wrap(Wrap(v) - Wrap(s)) + Wrap(t)) == Wrap(v - s + t)
  {
  }

  lemma DistinctWithout(level: seq<Entry>, k: nat)
    requires DistinctIds(level) && k < |level|
    ensures DistinctIds(level[..k] + level[k + 1..])
  {
  }

  lemma DistinctChanged(level: seq<Entry>, k: nat, size: nat)
    requires DistinctIds(level) && k < |level|
    ensures DistinctIds(level[k := Entry(level[k].id, size)])
  {
  }

  /** The list without the first order of that id. */
  ghost function Dropped(orders: seq<KOrder>, id: nat): seq<KOrder> {
    if orders == [] then []
    else if orders[0].orderId == id then orders[1..]
    else [orders[0]] + Dropped(orders[1..], id)
  }

  lemma {:induction false} DroppedAt(orders: seq<KOrder>, id: nat, k: nat)
    requires k <= |orders| && (k < |orders| ==> orders[k].orderId == id)
    requires forall j :: 0 <= j < k ==> orders[j].orderId != id
    ensures Dropped(orders, id) == if k < |orders| then orders[..k] + orders[k + 1..] else orders
  {
    if k > 0 {
      DroppedAt(orders[1..], id, k - 1);
      assert orders == [orders[0]] + orders[1..];
      assert orders[..k] == [orders[0]] + orders[1..][..k - 1];
      assert k < |orders| ==> orders[1..][k..] == orders[k + 1..];
    }
  }

  lemma {:induction false} WithoutAt(level: seq<Entry>, id: nat, k: nat)
    requires k <= |level| && (k < |level| ==> level[k].id == id)
    requires forall j :: 0 <= j < k ==> level[j].id != id
    ensures Without(level, id) == if k < |level| then level[..k] + level[k + 1..] else level
  {
    if k > 0 {
      WithoutAt(level[1..], id, k - 1);
      assert level == [level[0]] + level[1..];
      assert level[..k] == [level[0]] + level[1..][..k - 1];
      assert k < |level| ==> level[1..][k..] == level[k + 1..];
    }
  }

  lemma {:induction false} ResizedAt(level: seq<Entry>, id: nat, size: nat, k: nat)
    requires k < |level| && level[k].id == id && forall j :: 0 <= j < k ==> level[j].id != id
    ensures Resized(level, id, size) == level[k := Entry(id, size)]
  {
    if k > 0 {
      ResizedAt(level[1..], id, size, k - 1);
      assert level[k := Entry(id, size)] == [level[0]] + level[1..][k - 1 := Entry(id, size)];
    } else {
      assert level[0 := Entry(id, size)] == [Entry(id, size)] + level[1..];
    }
  }

  lemma {:induction false} ResizedAbsent(level: seq<Entry>, id: nat, size: nat)
    requires forall j :: 0 <= j < |level| ==> level[j].id != id
    ensures Resized(level, id, size) == level
  {
    if level != [] {
      ResizedAbsent(level[1..], id, size);
    }
  }

  lemma {:induction false} VolumeWithout(level: seq<Entry>, k: nat)
    requires k < |level|
    ensures Volume(level) == Volume(level[..k] + level[k + 1..]) + level[k].size
  {
    var n := |level| - 1;
    if k == n {
      assert level[..k] + level[k + 1..] == level[..n];
    } else {
      VolumeWithout(level[..n], k);
      var rest := level[..k] + level[k + 1..];
      assert rest[..|rest| - 1] == level[..n][..k] + level[..n][k + 1..];
      assert rest[|rest| - 1] == level[n];
    }
  }

  lemma VolumeResized(level: seq<Entry>, k: nat, e: Entry)
    requires k < |level|
    ensures Volume(level[k := e]) == Volume(level) - level[k].size + e.size
  {
    VolumeWithout(level, k);
    VolumeWithout(level[k := e], k);
    assert level[k := e][..k] == level[..k] && level[k := e][k + 1..] == level[k + 1..];
  }

  /** The order object is the live order of that id. */
  ghost predicate OrderOk(b: Book, id: nat, o: KOrder)
    reads o
  {
    o.orderId == id && id in b.orders && b.orders[id] == Order(o.side, o.size, o.price)
  }

  /**
    The list of a level is its queue, with the very objects that the id map `m` holds; the volume
    that it keeps is the sum of its sizes, as far as 32 bits go.
  */
  ghost predicate LimitOk(m: map<nat, KOrder>, slot: Slot, limit: KLimit, level: seq<Entry>)
    reads limit
  {
    && limit.home == slot
    && limit.price == slot.price
    && limit.orders == Objects(m, level)
    && limit.totalVolume == Wrap(Volume(level))
  }

  /** The objects that the id map holds for a queue. */
  ghost function Objects(m: map<nat, KOrder>, level: seq<Entry>): seq<KOrder> {
    if level == [] then []
    else (if level[0].id in m then [m[level[0].id]] else []) + Objects(m, level[1..])
  }

  class KBook {
    var orderMap: map<nat, KOrder>
    var bidTree: map<int, KLimit>
    var askTree: map<int, KLimit>

    /** The value of the book, and the levels of both trees. */
    ghost var book: Book
    ghost var limits: map<Slot, KLimit>
    ghost var Repr: set<object>

    /** `limits` is the two trees. */
    ghost predicate Coupled()
      reads `bidTree, `askTree, `limits
    {
      && (forall p :: p in bidTree <==> Slot(BID, p) in limits)
      && (forall p :: p in bidTree ==> limits[Slot(BID, p)] == bidTree[p])
      && (forall p :: p in askTree <==> Slot(ASK, p) in limits)
      && (forall p :: p in askTree ==> limits[Slot(ASK, p)] == askTree[p])
      && (forall slot :: slot in limits ==> slot.side != NO_SIDE)
    }

    /** The objects of the book are its own. */
    ghost predicate Owned()
      reads `Repr, `orderMap, `limits
    {
      && this in Repr
      && (forall id :: id in orderMap ==> orderMap[id] in Repr)
      && (forall slot :: slot in limits ==> limits[slot] in Repr)
    }

    ghost predicate Valid()
      reads this, Repr
      ensures Valid() ==> this in Repr
    {
      && Owned()
      && Coupled()
      && Consistent(book)
      && orderMap.Keys == book.orders.Keys
      && limits.Keys == book.levels.Keys
      && (forall id :: id in orderMap ==> OrderOk(book, id, orderMap[id]))
      && (forall slot :: slot in limits ==> LimitOk(orderMap, slot, limits[slot], book.levels[slot]))
    }

    constructor ()
      ensures Valid() && fresh(Repr)
      ensures book == EMPTY
    {
      orderMap, bidTree, askTree := map[], map[], map[];
      book, limits := EMPTY, map[];
      Repr := {this};
    }

    method Clear()
      requires Valid()
      modifies this
      ensures Valid() && Repr == old(Repr)
      ensures book == EMPTY
    {
      EmptyConsistent();
      hide Consistent, OrderOk, LimitOk, Objects, DistinctIds, Live, Queue;
      orderMap := map[];
      bidTree := map[];
      askTree := map[];
      book, limits := EMPTY, map[];
    }

    /** The level is fit for its methods. */
    lemma LevelFits(slot: Slot)
      requires Valid() && slot in limits
      ensures limits[slot].Valid() && limits[slot].Level() == book.levels[slot]
    {
      var limit, level := limits[slot], book.levels[slot];
      assert LimitOk(orderMap, slot, limit, level);
      ObjectsFacts(orderMap, level);
      forall k | 0 <= k < |level| ensures level[k].id in orderMap && limit.Level()[k] == level[k] {
        assert level[k] in level;
        assert Live(book, slot, level[k]) && OrderOk(book, level[k].id, orderMap[level[k].id]);
      }
      assert limit.Level() == level;
    }

    /** The order stands in its level. */
    ghost predicate Placed(o: KOrder)
      reads this, limits.Values
    {
      HomeOf(o) in limits && o in limits[HomeOf(o)].orders
    }

    lemma StrayInvalid(o: KOrder)
      requires Placed(o) && (o.orderId in orderMap ==> orderMap[o.orderId] != o)
      ensures !Valid()
    {
      if Valid() {
        Held(HomeOf(o), o);
        assert false;
      }
    }

    /** What stands in a level is the very object that the id map holds, in the level of its own side and price. */
    lemma Held(slot: Slot, o: KOrder)
      requires Valid() && slot in limits && o in limits[slot].orders
      ensures o.orderId in orderMap && orderMap[o.orderId] == o && slot == HomeOf(o)
    {
      LevelFits(slot);
      var k :| 0 <= k < |limits[slot].orders| && limits[slot].orders[k] == o;
      var level := book.levels[slot];
      assert LimitOk(orderMap, slot, limits[slot], level);
      forall e | e in level ensures e.id in orderMap { assert Live(book, slot, e); }
      ObjectsFacts(orderMap, level);
      assert OrderOk(book, level[k].id, o) && Live(book, slot, level[k]);
    }

    /** What the id map holds stands in its level. */
    lemma LiveIsPlaced(id: nat)
      requires Valid() && id in orderMap
      ensures Placed(orderMap[id]) && orderMap[id].orderId == id && HomeOf(orderMap[id]) == SlotOf(book.orders[id])
    {
      var slot := SlotOf(book.orders[id]);
      var level := Queue(book, slot);
      assert OrderOk(book, id, orderMap[id]);
      assert Entry(id, book.orders[id].size) in level;
      LevelFits(slot);
      assert LimitOk(orderMap, slot, limits[slot], level);
      forall e | e in level ensures e.id in orderMap { assert Live(book, slot, e); }
      ObjectsFacts(orderMap, level);
    }

    method Add(id: nat, side: Side, size: nat, price: int) returns (added: int)
      requires Valid()
      modifies Repr
      ensures fresh(Repr - old(Repr))
      ensures added == if side == NO_SIDE then 0 else 1
      ensures Valid() <==> id !in old(orderMap) || side == NO_SIDE
      ensures id in old(orderMap) && side != NO_SIDE ==>
                id in orderMap && orderMap[id] != old(orderMap[id]) && Placed(old(orderMap[id]))
      ensures Valid() ==> book == BookModel.Add(old(book), id, Order(side, size, price))
    {
      hide Valid, Placed, Consistent;
      ghost var m := orderMap;
      var order := new KOrder(id, side, size, price);
      if side == NO_SIDE {
        return 0;
      }
      if id in m {
        LiveIsPlaced(id);
      }
      Insert(order);
      if id in m {
        StrayInvalid(m[id]);
      }
      return 1;
    }

    /** addBid and addAsk, on the tree of the order's side. */
    method Insert(order: KOrder)
      requires Valid() && order !in Repr && order.side != NO_SIDE
      modifies Repr
      ensures fresh(Repr - old(Repr) - {order})
      ensures order.orderId !in old(orderMap) ==> Valid()
      ensures order.orderId in old(orderMap) ==> Placed(old(orderMap[order.orderId]))
      ensures orderMap == old(orderMap)[order.orderId := order]
      ensures book == BookModel.Add(old(book), order.orderId, Order(order.side, order.size, order.price))
    {
      hide Consistent, OrderOk, LimitOk, DistinctIds, Volume, Wrap, Objects, BookModel.Add, Entries, HasId,
           KLimit.Valid, KLimit.Level;
      var limit := Enqueue(order);
      FileOrder(limit, order);
    }

    /** The order goes to the end of the list of its level. */
    method Enqueue(order: KOrder) returns (limit: KLimit)
      requires Valid() && order !in Repr && order.side != NO_SIDE
      modifies set slot | slot in limits :: limits[slot]
      ensures limit.home == Slot(order.side, order.price) && limit.price == order.price && limit.Valid()
      ensures if limit.home in limits then limit == limits[limit.home] else fresh(limit)
      ensures Fitting(limit.home)
      ensures order.orderId in orderMap ==> Placed(orderMap[order.orderId])
      ensures order.orderId !in orderMap ==>
                limit.Level() == Queue(book, limit.home) + [Entry(order.orderId, order.size)]
                && limit.orders == Objects(orderMap, Queue(book, limit.home)) + [order]
    {
      hide Consistent, DistinctIds, Volume, Wrap, Objects, Entries, OrderOk, LimitOk, KLimit.Valid;
      LevelsApart();
      limit := LimitFor(order.side, order.price);
      if order.orderId in orderMap {
        LiveIsPlaced(order.orderId);
      }
      NotQueued(book, limit.home, order.orderId);
      var _ := limit.AddOrder(order);
    }

    /** The book is well, one level aside. */
    ghost predicate Fitting(aside: Slot)
      reads this, Repr
    {
      && Owned()
      && Coupled()
      && Consistent(book)
      && orderMap.Keys == book.orders.Keys
      && limits.Keys == book.levels.Keys
      && (forall id :: id in orderMap ==> OrderOk(book, id, orderMap[id]))
      && (forall slot :: slot in limits && slot != aside ==> LimitOk(orderMap, slot, limits[slot], book.levels[slot]))
    }

    lemma SelfOwned()
      requires Owned()
      ensures this in Repr
    {
    }

    lemma Parts()
      requires Valid()
      ensures Owned() && Coupled() && Consistent(book) && orderMap.Keys == book.orders.Keys && limits.Keys == book.levels.Keys
      ensures forall id :: id in orderMap ==> OrderOk(book, id, orderMap[id])
      ensures forall slot :: slot in limits ==> LimitOk(orderMap, slot, limits[slot], book.levels[slot])
    {
    }

    /** A new order at the end of its level, with the rest as it was, is the book with the order added. */
    lemma Inserted(m: map<nat, KOrder>, b: Book, ls: map<Slot, KLimit>, limit: KLimit, order: KOrder)
      requires Owned() && Coupled() && Consistent(b)
      requires m.Keys == b.orders.Keys && ls.Keys == b.levels.Keys && order.orderId !in m
      requires forall j :: j in m ==> OrderOk(b, j, m[j])
      requires limit.home == Slot(order.side, order.price) && limit.price == order.price && order.side != NO_SIDE
      requires forall s :: s in ls && s != limit.home ==> LimitOk(m, s, ls[s], b.levels[s])
      requires limit.Valid() && limit.Level() == Queue(b, limit.home) + [Entry(order.orderId, order.size)]
      requires limit.orders == Objects(m, Queue(b, limit.home)) + [order]
      requires orderMap == m[order.orderId := order] && limits == ls[limit.home := limit]
      requires book == BookModel.Add(b, order.orderId, Order(order.side, order.size, order.price))
      ensures Valid()
    {
      hide Consistent, Wrap, Volume, OrderOk, Entries, DistinctIds, LimitOk, Objects, HasId, Coupled, Owned, Queue,
           KLimit.Valid, KLimit.Level, BookModel.Add;
      var id, slot, o := order.orderId, limit.home, Order(order.side, order.size, order.price);
      AddConsistent(b, id, o);
      AddShape(b, id, o);
      SelfOwned();
      forall j | j in orderMap ensures OrderOk(book, j, orderMap[j]) {
        OrdersKept(b, order, j, orderMap[j]);
      }
      forall s | s in limits ensures LimitOk(orderMap, s, limits[s], book.levels[s]) {
        if s == slot {
          LevelGained(m, b, limit, order);
        } else {
          LevelKept(m, b, s, ls[s], id, order);
        }
      }
    }

    /** The level of that price, or a new one that is not in the tree yet. */
    method LimitFor(side: Side, price: int) returns (limit: KLimit)
      requires Valid() && side != NO_SIDE
      ensures limit.home == Slot(side, price) && limit.price == price && limit.Valid()
      ensures if limit.home in limits then limit == limits[limit.home] else fresh(limit)
      ensures limit.Level() == Queue(book, limit.home)
      ensures limit.orders == Objects(orderMap, Queue(book, limit.home))
    {
      ghost var slot := Slot(side, price);
      if price in (if side == BID then bidTree else askTree) {
        limit := if side == BID then bidTree[price] else askTree[price];
        LevelFits(slot);
        assert LimitOk(orderMap, slot, limit, book.levels[slot]);
      } else {
        limit := new KLimit(price, side);
      }
    }

    /** The level goes into its tree, when it is new, and the order into the id map. */
    method File(limit: KLimit, order: KOrder)
      requires Coupled() && order.side != NO_SIDE
      requires limit.home == Slot(order.side, order.price) && limit.price == order.price
      requires limit.home in limits ==> limit == limits[limit.home]
      modifies this
      ensures Coupled()
      ensures orderMap == old(orderMap)[order.orderId := order]
      ensures limits == old(limits)[limit.home := limit]
      ensures Repr == old(Repr) + {limit, order}
      ensures book == BookModel.Add(old(book), order.orderId, Order(order.side, order.size, order.price))
    {
      if order.price !in (if order.side == BID then bidTree else askTree) {
        Plant(limit, order.side);
      }
      orderMap := orderMap[order.orderId := order];
      Repr := Repr + {limit, order};
      book := BookModel.Add(book, order.orderId, Order(order.side, order.size, order.price));
    }

    /** The same, told of the whole book. */
    method FileOrder(limit: KLimit, order: KOrder)
      requires Fitting(limit.home) && order.side != NO_SIDE
      requires limit.home == Slot(order.side, order.price) && limit.price == order.price && limit.Valid()
      requires limit.home in limits ==> limit == limits[limit.home]
      requires order.orderId !in orderMap ==>
                 limit.Level() == Queue(book, limit.home) + [Entry(order.orderId, order.size)]
                 && limit.orders == Objects(orderMap, Queue(book, limit.home)) + [order]
      modifies this
      ensures Repr == old(Repr) + {limit, order} && Owned()
      ensures orderMap == old(orderMap)[order.orderId := order] && limits == old(limits)[limit.home := limit]
      ensures book == BookModel.Add(old(book), order.orderId, Order(order.side, order.size, order.price))
      ensures order.orderId !in old(orderMap) ==> Valid()
      ensures order.orderId in old(orderMap) && old(Placed(orderMap[order.orderId])) ==> Placed(old(orderMap[order.orderId]))
    {
      hide Consistent, OrderOk, LimitOk, DistinctIds, Volume, Wrap, Objects, BookModel.Add, Entries, HasId,
           KLimit.Valid, KLimit.Level, Valid;
      ghost var m, b, ls := orderMap, book, limits;
      File(limit, order);
      if order.orderId !in m {
        Inserted(m, b, ls, limit, order);
      }
    }

    method Plant(limit: KLimit, side: Side)
      requires Coupled() && side != NO_SIDE && limit.home == Slot(side, limit.price)
      modifies this`bidTree, this`askTree, this`limits, this`Repr
      ensures Coupled() && limits == old(limits)[limit.home := limit] && Repr == old(Repr) + {limit}
    {
      if side == BID {
        bidTree := bidTree[limit.price := limit];
      } else {
        askTree := askTree[limit.price := limit];
      }
      limits := limits[limit.home := limit];
      Repr := Repr + {limit};
    }

    method Remove(id: nat) returns (removed: int)
      requires Valid()
      modifies Repr
      ensures Valid() && Repr == old(Repr)
      ensures removed == if id in old(orderMap) then 1 else 0
      ensures book == BookModel.Remove(old(book), id)
    {
      if id in orderMap {
        var side := orderMap[id].side;
        SideOf(id);
        var limit := Dequeue(id);
        UnfileOrder(limit, id, side);
        return 1;
      }
      return 0;
    }

    lemma LevelsApart()
      requires Valid()
      ensures forall s, t :: s in limits && t in limits && s != t ==> limits[s] != limits[t]
    {
    }

    lemma SideOf(id: nat)
      requires Valid() && id in orderMap
      ensures orderMap[id].side == book.orders[id].side
    {
    }

    /** The level of a live order; the trees never miss it. */
    method LevelOf(id: nat) returns (limit: KLimit)
      requires Valid() && id in orderMap
      ensures limit.home == SlotOf(book.orders[id]) && limit.home in limits && limit == limits[limit.home]
      ensures limit.Valid() && limit.Level() == book.levels[limit.home] && HasId(limit.Level(), id)
      ensures limit.orders == Objects(orderMap, book.levels[limit.home]) && limit.price == limit.home.price
    {
      ghost var slot := SlotOf(book.orders[id]);
      var side, price := orderMap[id].side, orderMap[id].price;
      assert OrderOk(book, id, orderMap[id]);
      ghost var e := Entry(id, book.orders[id].size);
      assert e in Queue(book, slot) && Live(book, slot, e);
      LevelFits(slot);
      if side == BID {
        limit := bidTree[price];
      } else {
        limit := askTree[price];
      }
      assert LimitOk(orderMap, slot, limit, book.levels[slot]);
    }

    /** The order leaves the list of its level. */
    method Dequeue(id: nat) returns (limit: KLimit)
      requires Valid() && id in orderMap
      modifies set slot | slot in limits :: limits[slot]
      ensures limit.home == SlotOf(book.orders[id]) && limit.home in limits && limit == limits[limit.home]
      ensures Fitting(limit.home) && limit.Valid()
      ensures limit.Level() == Without(Queue(book, limit.home), id)
      ensures limit.orders == Dropped(Objects(orderMap, Queue(book, limit.home)), id)
    {
      hide Consistent, DistinctIds, Volume, Wrap, Objects, Entries, HasId, Without, Dropped, OrderOk, LimitOk,
           KLimit.Valid, KLimit.Level;
      LevelsApart();
      limit := LevelOf(id);
      var removeOk := limit.RemoveOrder(id);
      assert removeOk == 1;
    }

    /** The level loses its order, and its place in the tree when it is empty; the id map loses the id. */
    method Unfile(limit: KLimit, id: nat, side: Side)
      requires side == limit.home.side
      requires Coupled() && limit.home in limits && limit == limits[limit.home] && limit.price == limit.home.price
      modifies this`orderMap, this`bidTree, this`askTree, this`limits, this`book
      ensures Coupled()
      ensures orderMap == old(orderMap) - {id}
      ensures limits == if limit.orders == [] then old(limits) - {limit.home} else old(limits)
      ensures book == BookModel.Remove(old(book), id)
    {
      orderMap := orderMap - {id};
      if |limit.orders| == 0 {
        if side == BID {
          bidTree := bidTree - {limit.price};
        } else {
          askTree := askTree - {limit.price};
        }
        limits := limits - {limit.home};
      }
      book := BookModel.Remove(book, id);
    }

    /** The same, told of the whole book. */
    method UnfileOrder(limit: KLimit, id: nat, side: Side)
      requires side == limit.home.side
      requires Fitting(limit.home) && limit.home in limits && limit == limits[limit.home]
      requires id in orderMap && limit.home == SlotOf(book.orders[id])
      requires limit.Valid() && limit.price == limit.home.price
      requires limit.Level() == Without(Queue(book, limit.home), id)
      requires limit.orders == Dropped(Objects(orderMap, Queue(book, limit.home)), id)
      modifies this`orderMap, this`bidTree, this`askTree, this`limits, this`book
      ensures Valid()
      ensures book == BookModel.Remove(old(book), id)
    {
      hide Consistent, OrderOk, LimitOk, DistinctIds, Volume, Wrap, Objects, BookModel.Remove, Entries, HasId,
           KLimit.Valid, KLimit.Level, Valid, Without, Dropped;
      ghost var m, b, ls := orderMap, book, limits;
      Unfile(limit, id, side);
      Withdrawn(m, b, ls, limit, id);
    }

    /** An order out of its level, with the rest as it was, is the book with the order removed. */
    lemma Withdrawn(m: map<nat, KOrder>, b: Book, ls: map<Slot, KLimit>, limit: KLimit, id: nat)
      requires Owned() && Coupled() && Consistent(b)
      requires m.Keys == b.orders.Keys && ls.Keys == b.levels.Keys && id in m
      requires forall j :: j in m ==> OrderOk(b, j, m[j])
      requires limit.home == SlotOf(b.orders[id]) && limit.home in ls && ls[limit.home] == limit
      requires forall s :: s in ls && s != limit.home ==> LimitOk(m, s, ls[s], b.levels[s])
      requires limit.Valid() && limit.price == limit.home.price
      requires limit.Level() == Without(Queue(b, limit.home), id)
      requires limit.orders == Dropped(Objects(m, Queue(b, limit.home)), id)
      requires orderMap == m - {id} && limits == if limit.orders == [] then ls - {limit.home} else ls
      requires book == BookModel.Remove(b, id)
      ensures Valid()
    {
      hide Consistent, OrderOk, LimitOk, DistinctIds, Volume, Wrap, Objects, Entries, HasId,
           KLimit.Valid, KLimit.Level, Without, Dropped, BookModel.Remove;
      var slot := limit.home;
      RemoveConsistent(b, id);
      RemoveShape(b, id);
      assert limit.orders == [] <==> limit.Level() == [] by { LevelEmpty(limit); }
      forall j | j in orderMap ensures OrderOk(book, j, orderMap[j]) {
        OrdersLeft(b, id, j, m[j]);
      }
      forall s | s in limits ensures LimitOk(orderMap, s, limits[s], book.levels[s]) {
        if s == slot {
          LevelShrunk(m, b, limit, id);
        } else {
          LevelLeft(m, b, s, ls[s], id);
        }
      }
    }

    method Modify(id: nat, size: nat) returns (modified: int)
      requires Valid()
      modifies Repr
      ensures Valid() && Repr == old(Repr)
      ensures modified == if id in old(orderMap) then 1 else 0
      ensures book == BookModel.Modify(old(book), id, size)
    {
      if id in orderMap {
        ModifyLive(id, size);
        return 1;
      }
      SameKeys();
      return 0;
    }

    lemma SameKeys()
      requires Valid()
      ensures orderMap.Keys == book.orders.Keys && this in Repr
    {
    }

    method ModifyLive(id: nat, size: nat)
      requires Valid() && id in orderMap
      modifies Repr
      ensures Valid() && Repr == old(Repr)
      ensures book == BookModel.Modify(old(book), id, size)
    {
      hide Consistent, OrderOk, LimitOk, AllButOne, Owned, Coupled, Valid, BookModel.Modify;
      Parts();
      SameKeys();
      var limit := Resize(id, size);
      book := BookModel.Modify(book, id, size);
      Altered(old(book), limit, id, size);
    }

    /** The order takes another size, and the level with it. */
    method Resize(id: nat, size: nat) returns (limit: KLimit)
      requires Valid() && id in orderMap
      modifies Repr - {this}
      ensures AllButOne(book, limit, id, size)
    {
      hide Consistent, LimitOk, DistinctIds, Volume, Wrap, Objects, Entries, HasId,
           KLimit.Valid, KLimit.Level, Resized;
      LevelsApart();
      LiveIsPlaced(id);
      Own(id);
      limit := LevelOf(id);
      var _ := limit.ModifyOrder(id, size);
      forall j | j in orderMap && j != id ensures OrderOk(book, j, orderMap[j]) {
      }
    }

    /** The book is `b`, but that the level holds the order with another size. */
    ghost predicate AllButOne(b: Book, limit: KLimit, id: nat, size: nat)
      reads `orderMap, `limits, orderMap.Values, limits.Values, limit, limit.orders
    {
      && Consistent(b)
      && id in b.orders
      && orderMap.Keys == b.orders.Keys
      && limits.Keys == b.levels.Keys
      && (forall j :: j in orderMap && j != id ==> OrderOk(b, j, orderMap[j]))
      && orderMap[id].orderId == id && HomeOf(orderMap[id]) == limit.home && orderMap[id].size == size
      && limit.home == SlotOf(b.orders[id]) && limit.home in limits && limit == limits[limit.home]
      && (forall s :: s in limits && s != limit.home ==> LimitOk(orderMap, s, limits[s], b.levels[s]))
      && limit.Valid() && limit.price == limit.home.price
      && limit.Level() == Resized(b.levels[limit.home], id, size)
      && limit.orders == Objects(orderMap, b.levels[limit.home])
    }

    /** The orders of a level are live, and the book's own. */
    lemma Own(id: nat)
      requires Valid() && id in orderMap
      ensures SlotOf(book.orders[id]) in limits
      ensures forall o :: o in limits[SlotOf(book.orders[id])].orders ==> o in Repr
    {
      LiveIsPlaced(id);
      var slot := SlotOf(book.orders[id]);
      assert OrderOk(book, id, orderMap[id]);
      forall o | o in limits[slot].orders ensures o in Repr {
        Held(slot, o);
      }
    }

    lemma Altered(b: Book, limit: KLimit, id: nat, size: nat)
      requires Owned() && Coupled() && AllButOne(b, limit, id, size)
      requires book == BookModel.Modify(b, id, size)
      ensures Valid()
    {
      hide Consistent, OrderOk, LimitOk, DistinctIds, Volume, Wrap, Objects, Entries, HasId,
           KLimit.Valid, KLimit.Level, Resized, BookModel.Modify;
      ModifyConsistent(b, id, size);
      ModifyShape(b, id, size);
      forall j | j in orderMap ensures OrderOk(book, j, orderMap[j]) {
        OrderAltered(b, id, size, j, orderMap[j]);
      }
      forall s | s in limits ensures LimitOk(orderMap, s, limits[s], book.levels[s]) {
        if s == limit.home {
          LevelAltered(orderMap, b, limit, id, size);
        }
      }
    }

    method GetOrder(id: nat) returns (order: KOrder?)
      requires Valid()
      ensures order == null <==> id !in book.orders
      ensures order != null ==> book.orders[id] == Order(order.side, order.size, order.price) && order.orderId == id
    {
      if id in orderMap {
        order := orderMap[id];
        assert OrderOk(book, id, order);
      } else {
        order := null;
      }
    }

    /** The highest bid or the lowest ask of all live orders; a sentinel when there is none. */
    method BestPrice(side: Side) returns (price: int)
      requires Valid()
      ensures side == NO_SIDE ==> price == -999_999_999
      ensures side != NO_SIDE && !AnyPrice(book, side) ==> price == if side == BID then -0x8000_0000 else 0x7fff_ffff
      ensures side != NO_SIDE && AnyPrice(book, side) ==> Best(book, side, price)
      ensures side == BID ==> forall id :: id in book.orders && book.orders[id].side == BID ==> book.orders[id].price <= price
      ensures side == ASK ==> forall id :: id in book.orders && book.orders[id].side == ASK ==> price <= book.orders[id].price
    {
      hide *;
      TreesHoldThePrices();
      if side == BID {
        if !exists p :: p in bidTree {
          NoneOfSide(book, BID);
          return -0x8000_0000;
        }
        LastExists(bidTree.Keys, BID);
        price :| Last(bidTree.Keys, BID, price);
        BestIsLast(book, BID, bidTree.Keys, price);
        BestBounds(book, BID, price);
      } else if side == ASK {
        if !exists p :: p in askTree {
          NoneOfSide(book, ASK);
          return 0x7fff_ffff;
        }
        LastExists(askTree.Keys, ASK);
        price :| Last(askTree.Keys, ASK, price);
        BestIsLast(book, ASK, askTree.Keys, price);
        BestBounds(book, ASK, price);
      } else {
        price := -999_999_999;
      }
    }

    lemma TreesHoldThePrices()
      requires Valid()
      ensures forall p :: p in bidTree <==> LivePrice(book, BID, p)
      ensures forall p :: p in askTree <==> LivePrice(book, ASK, p)
      ensures AnyPrice(book, BID) <==> exists p :: p in bidTree
      ensures AnyPrice(book, ASK) <==> exists p :: p in askTree
    {
      forall p ensures p in bidTree <==> LivePrice(book, BID, p) { LevelIffLive(book, BID, p); }
      forall p ensures p in askTree <==> LivePrice(book, ASK, p) { LevelIffLive(book, ASK, p); }
    }

    method GetTotalVolumeAtLimit(side: Side, price: int) returns (volume: nat)
      requires Valid()
      ensures volume == Volume(Queue(book, Slot(side, price))) % 0x1_0000_0000
      ensures Queue(book, Slot(side, price)) == [] ==> volume == 0
    {
      if side == BID && price in bidTree {
        assert LimitOk(orderMap, Slot(BID, price), bidTree[price], book.levels[Slot(BID, price)]);
        return bidTree[price].totalVolume;
      }
      if side == ASK && price in askTree {
        assert LimitOk(orderMap, Slot(ASK, price), askTree[price], book.levels[Slot(ASK, price)]);
        return askTree[price].totalVolume;
      }
      return 0;
    }

    /** The size that stands at the best price, as far as 32 bits go; nothing when the side is empty. */
    method BestPriceVolume(side: Side) returns (volume: nat)
      requires Valid()
      ensures side == NO_SIDE || !AnyPrice(book, side) ==> volume == 0
      ensures side != NO_SIDE && AnyPrice(book, side) ==>
                exists price :: Best(book, side, price) && volume == Volume(Queue(book, Slot(side, price))) % 0x1_0000_0000
    {
      var price := BestPrice(side);
      volume := GetTotalVolumeAtLimit(side, price);
      if Slot(side, price) in limits {
        LevelIffLive(book, side, price);
      }
    }
  }

  lemma AddShape(b: Book, id: nat, o: Order)
    requires o.side != NO_SIDE
    ensures var b' := BookModel.Add(b, id, o);
      && b'.orders.Keys == b.orders.Keys + {id}
      && b'.levels == b.levels[SlotOf(o) := Queue(b, SlotOf(o)) + [Entry(id, o.size)]]
  {
  }

  lemma ModifyShape(b: Book, id: nat, size: nat)
    requires Consistent(b) && id in b.orders
    ensures var b', slot := BookModel.Modify(b, id, size), SlotOf(b.orders[id]);
      && b'.orders.Keys == b.orders.Keys
      && slot in b.levels
      && b'.levels == b.levels[slot := Resized(b.levels[slot], id, size)]
  {
  }

  lemma OrderAltered(b: Book, id: nat, size: nat, j: nat, o: KOrder)
    requires id in b.orders
    requires if j == id then o.orderId == id && HomeOf(o) == SlotOf(b.orders[id]) && o.size == size else OrderOk(b, j, o)
    ensures OrderOk(BookModel.Modify(b, id, size), j, o)
  {
  }

  lemma LevelAltered(m: map<nat, KOrder>, b: Book, limit: KLimit, id: nat, size: nat)
    requires limit.home in b.levels && limit.Valid() && limit.price == limit.home.price
    requires limit.Level() == Resized(b.levels[limit.home], id, size)
    requires limit.orders == Objects(m, b.levels[limit.home])
    ensures LimitOk(m, limit.home, limit, Resized(b.levels[limit.home], id, size))
  {
    ObjectsResized(m, b.levels[limit.home], id, size);
  }

  lemma {:induction false} ObjectsResized(m: map<nat, KOrder>, level: seq<Entry>, id: nat, size: nat)
    ensures Objects(m, Resized(level, id, size)) == Objects(m, level)
  {
    if level != [] {
      ObjectsResized(m, level[1..], id, size);
    }
  }

  lemma LevelEmpty(limit: KLimit)
    ensures limit.orders == [] <==> limit.Level() == []
  {
  }

  lemma RemoveShape(b: Book, id: nat)
    requires id in b.orders && SlotOf(b.orders[id]) in b.levels
    ensures var b', slot, level := BookModel.Remove(b, id), SlotOf(b.orders[id]), Without(Queue(b, SlotOf(b.orders[id])), id);
      && b'.orders.Keys == b.orders.Keys - {id}
      && b'.levels == if level == [] then b.levels - {slot} else b.levels[slot := level]
  {
  }

  lemma OrdersLeft(b: Book, id: nat, j: nat, o: KOrder)
    requires j != id && OrderOk(b, j, o)
    ensures OrderOk(BookModel.Remove(b, id), j, o)
  {
  }

  /** A level that the order is not in. */
  lemma LevelLeft(m: map<nat, KOrder>, b: Book, slot: Slot, limit: KLimit, id: nat)
    requires Consistent(b) && id in b.orders && slot != SlotOf(b.orders[id])
    requires slot in b.levels && LimitOk(m, slot, limit, b.levels[slot])
    ensures LimitOk(m - {id}, slot, limit, b.levels[slot])
  {
    forall e | e in b.levels[slot] ensures e.id != id {
      assert Live(b, slot, e);
    }
    ObjectsElsewhere(m, m - {id}, id, b.levels[slot]);
  }

  /** The level that it was in. */
  lemma LevelShrunk(m: map<nat, KOrder>, b: Book, limit: KLimit, id: nat)
    requires Consistent(b) && m.Keys == b.orders.Keys && limit.home in b.levels
    requires limit.Valid() && limit.price == limit.home.price
    requires limit.Level() == Without(Queue(b, limit.home), id)
    requires limit.orders == Dropped(Objects(m, Queue(b, limit.home)), id)
    requires forall j :: j in m ==> OrderOk(b, j, m[j])
    ensures LimitOk(m - {id}, limit.home, limit, Without(Queue(b, limit.home), id))
  {
    var level := b.levels[limit.home];
    forall e | e in level ensures e.id in m && m[e.id].orderId == e.id {
      assert Live(b, limit.home, e) && OrderOk(b, e.id, m[e.id]);
    }
    ObjectsDropped(m, level, id);
  }

  lemma {:induction false} ObjectsDropped(m: map<nat, KOrder>, level: seq<Entry>, id: nat)
    requires DistinctIds(level) && forall e :: e in level ==> e.id in m && m[e.id].orderId == e.id
    ensures Objects(m - {id}, Without(level, id)) == Dropped(Objects(m, level), id)
  {
    if level != [] {
      assert level[0] in level;
      if level[0].id == id {
        ObjectsElsewhere(m, m - {id}, id, level[1..]);
      } else {
        ObjectsDropped(m, level[1..], id);
      }
    }
  }

  lemma {:induction false} ObjectsFacts(m: map<nat, KOrder>, level: seq<Entry>)
    requires forall e :: e in level ==> e.id in m
    ensures var objects := Objects(m, level);
      |objects| == |level| && forall k :: 0 <= k < |level| ==> objects[k] == m[level[k].id]
  {
    if level != [] {
      assert level[0] in level;
      ObjectsFacts(m, level[1..]);
    }
  }

  lemma {:induction false} ObjectsAppend(m: map<nat, KOrder>, level: seq<Entry>, e: Entry)
    requires e.id in m
    ensures Objects(m, level + [e]) == Objects(m, level) + [m[e.id]]
  {
    if level == [] {
      assert ([] + [e])[1..] == [] && [m[e.id]] + [] == [m[e.id]];
    } else {
      assert (level + [e])[1..] == level[1..] + [e] && (level + [e])[0] == level[0];
      ObjectsAppend(m, level[1..], e);
      Assoc(if level[0].id in m then [m[level[0].id]] else [], Objects(m, level[1..]), [m[e.id]]);
    }
  }

  /** An id that is not live stands in no queue. */
  lemma NotQueued(b: Book, slot: Slot, id: nat)
    requires Consistent(b)
    ensures id !in b.orders ==> forall e :: e in Queue(b, slot) ==> e.id != id
  {
  }

  lemma OrdersKept(b: Book, order: KOrder, id: nat, o: KOrder)
    requires order.side != NO_SIDE && if id == order.orderId then o == order else OrderOk(b, id, o)
    ensures OrderOk(BookModel.Add(b, order.orderId, Order(order.side, order.size, order.price)), id, o)
  {
  }

  /** A level that does not get the new order. */
  lemma LevelKept(m: map<nat, KOrder>, b: Book, slot: Slot, limit: KLimit, id: nat, order: KOrder)
    requires Consistent(b) && id !in b.orders && slot in b.levels && LimitOk(m, slot, limit, b.levels[slot])
    ensures LimitOk(m[id := order], slot, limit, b.levels[slot])
  {
    NotQueued(b, slot, id);
    ObjectsElsewhere(m, m[id := order], id, b.levels[slot]);
  }

  /** The level that gets it. */
  lemma LevelGained(m: map<nat, KOrder>, b: Book, limit: KLimit, order: KOrder)
    requires Consistent(b) && order.orderId !in b.orders && limit.home.price == limit.price
    requires limit.Valid() && limit.Level() == Queue(b, limit.home) + [Entry(order.orderId, order.size)]
    requires limit.orders == Objects(m, Queue(b, limit.home)) + [order]
    ensures LimitOk(m[order.orderId := order], limit.home, limit,
                    Queue(b, limit.home) + [Entry(order.orderId, order.size)])
  {
    var level := Queue(b, limit.home);
    NotQueued(b, limit.home, order.orderId);
    ObjectsElsewhere(m, m[order.orderId := order], order.orderId, level);
    ObjectsAppend(m[order.orderId := order], level, Entry(order.orderId, order.size));
  }

  /** Entries of other ids do not notice a change of the id map. */
  lemma {:induction false} ObjectsElsewhere(m: map<nat, KOrder>, m': map<nat, KOrder>, id: nat, level: seq<Entry>)
    requires forall e :: e in level ==> e.id != id
    requires forall j :: j != id ==> (j in m <==> j in m') && (j in m ==> m[j] == m'[j])
    ensures Objects(m', level) == Objects(m, level)
  {
    if level != [] {
      assert level[0] in level;
      ObjectsElsewhere(m, m', id, level[1..]);
    }
  }
}
