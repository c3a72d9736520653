/**
  What an order book holds, as values: the live orders by id, and on each side the price levels
  with their orders in arrival order.  `OrderBook` refines this model.
*/
module BookModel {

  datatype Side = BID | ASK | NO_SIDE

  datatype Order = Order(side: Side, size: nat, price: int)

  /** One order in the queue of its level. */
  datatype Entry = Entry(id: nat, size: nat)

  /** A price level: a price on one side of the book. */
  datatype Slot = Slot(side: Side, price: int)

  /** The live orders by id, and the queue of each level. */
  datatype Book = Book(orders: map<nat, Order>, levels: map<Slot, seq<Entry>>)

  const EMPTY: Book := Book(map[], map[])

  /** The value of an unsigned 32-bit integer after arithmetic. */
  function Wrap(n: int): (r: nat) {
    n % 0x1_0000_0000
  }

  function SlotOf(o: Order): Slot {
    Slot(o.side, o.price)
  }

  function Queue(b: Book, slot: Slot): seq<Entry> {
    if slot in b.levels then b.levels[slot] else []
  }

  predicate HasId(level: seq<Entry>, id: nat) {
    exists k :: 0 <= k < |level| && level[k].id == id
  }

  function Volume(level: seq<Entry>): nat {
    if level == [] then 0 else Volume(level[..|level| - 1]) + level[|level| - 1].size
  }

  /** The queue without the order; what stood behind it moves up. */
  function Without(level: seq<Entry>, id: nat): seq<Entry> {
    if level == [] then []
    else if level[0].id == id then level[1..]
    else [level[0]] + Without(level[1..], id)
  }

  /** The queue with another size for the order, which keeps its place. */
  function Resized(level: seq<Entry>, id: nat, size: nat): seq<Entry> {
    if level == [] then []
    else if level[0].id == id then [Entry(id, size)] + level[1..]
    else [level[0]] + Resized(level[1..], id, size)
  }

  /** A level goes when its last order goes. */
  function SetLevel<K, T>(levels: map<K, seq<T>>, slot: K, level: seq<T>): map<K, seq<T>> {
    if level == [] then levels - {slot} else levels[slot := level]
  }

  function Add(b: Book, id: nat, o: Order): Book {
    if o.side == NO_SIDE then b
    else Book(b.orders[id := o], b.levels[SlotOf(o) := Queue(b, SlotOf(o)) + [Entry(id, o.size)]])
  }

  function Remove(b: Book, id: nat): Book {
    if id !in b.orders then b
    else
      var slot := SlotOf(b.orders[id]);
      Book(b.orders - {id}, SetLevel(b.levels, slot, Without(Queue(b, slot), id)))
  }

  function Modify(b: Book, id: nat, size: nat): Book {
    if id !in b.orders then b
    else
      var slot := SlotOf(b.orders[id]);
      Book(b.orders[id := b.orders[id].(size := size)],
           SetLevel(b.levels, slot, Resized(Queue(b, slot), id, size)))
  }

  ghost predicate DistinctIds(level: seq<Entry>) {
    forall i, j :: 0 <= i < j < |level| ==> level[i].id != level[j].id
  }

  /** The entry is a live order of that level, with its size. */
  ghost predicate Live(b: Book, slot: Slot, e: Entry) {
    slot.side != NO_SIDE && e.id in b.orders && b.orders[e.id] == Order(slot.side, e.size, slot.price)
  }

  /**
    Each live order stands in exactly one queue, that of its own side and price, and nothing
    else stands in the queues; there are no empty levels.
  */
  ghost predicate Consistent(b: Book) {
    && (forall slot :: slot in b.levels ==> b.levels[slot] != [] && DistinctIds(b.levels[slot]))
    && (forall slot, e :: slot in b.levels && e in b.levels[slot] ==> Live(b, slot, e))
    && (forall id :: id in b.orders ==> Entry(id, b.orders[id].size) in Queue(b, SlotOf(b.orders[id])))
  }

  /** Some live order of that side has that price. */
  ghost predicate LivePrice(b: Book, side: Side, price: int) {
    exists id :: id in b.orders && b.orders[id].side == side && b.orders[id].price == price
  }

  ghost predicate AnyPrice(b: Book, side: Side) {
    exists price :: LivePrice(b, side, price)
  }

  /** The highest price of the live bids, the lowest of the live asks. */
  ghost predicate Best(b: Book, side: Side, price: int) {
    LivePrice(b, side, price) && forall p :: LivePrice(b, side, p) ==> if side == BID then p <= price else price <= p
  }

  /** The end of a sorted set of prices: the last bid, the first ask. */
  predicate Last(prices: set<int>, side: Side, price: int) {
    price in prices && forall p :: p in prices ==> if side == BID then p <= price else price <= p
  }

  lemma {:induction false} LastExists(prices: set<int>, side: Side)
    requires exists p :: p in prices
    ensures exists p :: Last(prices, side, p)
    decreases prices
  {
    var p :| p in prices;
    var rest := prices - {p};
    if q :| q in rest {
      LastExists(rest, side);
      var r :| Last(rest, side, r);
      var best := if (if side == BID then p <= r else r <= p) then r else p;
      forall q | q in prices ensures if side == BID then q <= best else best <= q {
        assert q != p ==> q in rest;
      }
      assert Last(prices, side, best);
    } else {
      forall q | q in prices ensures q == p { assert q != p ==> q in rest; }
      assert Last(prices, side, p);
    }
  }

  lemma BestIsLast(b: Book, side: Side, prices: set<int>, price: int)
    requires forall p :: p in prices <==> LivePrice(b, side, p)
    requires Last(prices, side, price)
    ensures Best(b, side, price)
  {
  }

  /** No live bid is above the best one, no live ask below it. */
  lemma BestBounds(b: Book, side: Side, price: int)
    requires Best(b, side, price)
    ensures forall id :: id in b.orders && b.orders[id].side == side ==>
              if side == BID then b.orders[id].price <= price else price <= b.orders[id].price
  {
    forall id | id in b.orders && b.orders[id].side == side ensures LivePrice(b, side, b.orders[id].price) {
    }
  }

  lemma NoneOfSide(b: Book, side: Side)
    requires !AnyPrice(b, side)
    ensures forall id :: id in b.orders ==> b.orders[id].side != side
  {
    forall id | id in b.orders ensures b.orders[id].side != side {
      assert LivePrice(b, b.orders[id].side, b.orders[id].price);
    }
  }

  /** There is a level exactly at the prices of the live orders. */
  lemma LevelIffLive(b: Book, side: Side, price: int)
    requires Consistent(b)
    ensures Slot(side, price) in b.levels <==> LivePrice(b, side, price)
  {
    var slot := Slot(side, price);
    if slot in b.levels {
      var e := b.levels[slot][0];
      assert Live(b, slot, e);
      assert e.id in b.orders && b.orders[e.id].side == side && b.orders[e.id].price == price;
    }
    if LivePrice(b, side, price) {
      var id :| id in b.orders && b.orders[id].side == side && b.orders[id].price == price;
      assert Entry(id, b.orders[id].size) in Queue(b, slot);
    }
  }

  // ------------------------------------------------------------------------------------------
  // What every operation keeps
  // ------------------------------------------------------------------------------------------

  lemma EmptyConsistent()
    ensures Consistent(EMPTY)
  {
  }

  lemma AddConsistent(b: Book, id: nat, o: Order)
    requires Consistent(b) && id !in b.orders
    ensures Consistent(Add(b, id, o))
    ensures !HasId(Queue(b, SlotOf(o)), id)
  {
    var slot, level := SlotOf(o), Queue(b, SlotOf(o));
    forall k | 0 <= k < |level| ensures level[k].id != id {
      assert Live(b, slot, level[k]);
    }
    if o.side != NO_SIDE {
      var b' := Add(b, id, o);
      forall s, e | s in b'.levels && e in b'.levels[s] ensures Live(b', s, e) {
        if e != Entry(id, o.size) || s != slot {
          assert s in b.levels && e in b.levels[s];
          assert Live(b, s, e);
        }
      }
      forall j | j in b'.orders ensures Entry(j, b'.orders[j].size) in Queue(b', SlotOf(b'.orders[j])) {
        if j == id {
          assert b'.levels[slot][|level|] == Entry(id, o.size);
        }
      }
    }
  }

  lemma {:induction false} WithoutMembers(level: seq<Entry>, id: nat, e: Entry)
    requires DistinctIds(level)
    ensures e in Without(level, id) <==> e in level && e.id != id
  {
    if level != [] {
      assert e in level <==> e == level[0] || e in level[1..];
      if level[0].id == id {
        assert e in level[1..] ==> e.id != level[0].id;
      } else {
        WithoutMembers(level[1..], id, e);
      }
    }
  }

  ghost predicate Precedes(level: seq<Entry>, e: Entry, f: Entry) {
    exists a, b :: 0 <= a < b < |level| && level[a] == e && level[b] == f
  }

  /** Those who stay keep their order of arrival. */
  lemma {:induction false} ArrivalOrder(level: seq<Entry>, id: nat, i: nat, j: nat)
    requires i < j < |level| && level[i].id != id && level[j].id != id
    ensures Precedes(Without(level, id), level[i], level[j])
  {
    var rest := Without(level, id);
    if level[0].id == id {
      assert 0 <= i - 1 < j - 1 < |rest| && rest[i - 1] == level[i] && rest[j - 1] == level[j];
    } else if i == 0 {
      Stays(level[1..], id, j - 1);
      var b :| 0 <= b < |Without(level[1..], id)| && Without(level[1..], id)[b] == level[j];
      assert 0 <= 0 < b + 1 < |rest| && rest[0] == level[i] && rest[b + 1] == level[j];
    } else {
      ArrivalOrder(level[1..], id, i - 1, j - 1);
      var rest' := Without(level[1..], id);
      var a, b :| 0 <= a < b < |rest'| && rest'[a] == level[i] && rest'[b] == level[j];
      assert 0 <= a + 1 < b + 1 < |rest| && rest[a + 1] == level[i] && rest[b + 1] == level[j];
    }
  }

  lemma {:induction false} Stays(level: seq<Entry>, id: nat, j: nat)
    requires j < |level| && level[j].id != id
    ensures level[j] in Without(level, id)
  {
    if level[0].id != id && j > 0 {
      Stays(level[1..], id, j - 1);
    }
  }

  lemma ConsDistinct(e: Entry, level: seq<Entry>)
    requires DistinctIds(level) && forall x :: x in level ==> x.id != e.id
    ensures DistinctIds([e] + level)
  {
  }

  lemma {:induction false} WithoutDistinct(level: seq<Entry>, id: nat)
    requires DistinctIds(level)
    ensures DistinctIds(Without(level, id))
  {
    if level != [] && level[0].id != id {
      WithoutDistinct(level[1..], id);
      forall e | e in Without(level[1..], id) ensures e.id != level[0].id {
        WithoutMembers(level[1..], id, e);
      }
      ConsDistinct(level[0], Without(level[1..], id));
    }
  }

  /** What is left in the queues is still live. */
  lemma RemoveLive(b: Book, id: nat, slot: Slot, e: Entry)
    requires Consistent(b) && id in b.orders && e in Queue(Remove(b, id), slot)
    ensures Live(Remove(b, id), slot, e)
  {
    var level := Queue(b, slot);
    if slot == SlotOf(b.orders[id]) {
      WithoutMembers(level, id, e);
      assert e in level && e.id != id;
    }
    hide DistinctIds, Without;
    assert Live(b, slot, e);
  }

  /** What is left in the id map is still in its queue. */
  lemma RemoveQueued(b: Book, id: nat, j: nat)
    requires Consistent(b) && id in b.orders && j in b.orders && j != id
    ensures Entry(j, b.orders[j].size) in Queue(Remove(b, id), SlotOf(b.orders[j]))
  {
    var slot := SlotOf(b.orders[j]);
    var e, level := Entry(j, b.orders[j].size), Queue(b, slot);
    assert e in level;
    if slot == SlotOf(b.orders[id]) {
      WithoutMembers(level, id, e);
    }
  }

  lemma RemoveConsistent(b: Book, id: nat)
    requires Consistent(b)
    ensures Consistent(Remove(b, id))
  {
    if id in b.orders {
      var b' := Remove(b, id);
      WithoutDistinct(Queue(b, SlotOf(b.orders[id])), id);
      forall slot, e | slot in b'.levels && e in b'.levels[slot] ensures Live(b', slot, e) {
        RemoveLive(b, id, slot, e);
      }
      forall j | j in b'.orders ensures Entry(j, b'.orders[j].size) in Queue(b', SlotOf(b'.orders[j])) {
        RemoveQueued(b, id, j);
      }
      hide DistinctIds, Without, Live;
    }
  }

  lemma {:induction false} ResizedFacts(level: seq<Entry>, id: nat, size: nat)
    ensures var r := Resized(level, id, size);
      && |r| == |level|
      && (forall k :: 0 <= k < |level| ==> r[k].id == level[k].id)
    ensures DistinctIds(level) ==> forall k :: 0 <= k < |level| ==>
              Resized(level, id, size)[k] == if level[k].id == id then Entry(id, size) else level[k]
  {
    if level != [] && level[0].id != id {
      ResizedFacts(level[1..], id, size);
    }
  }

  lemma ModifyLive(b: Book, id: nat, size: nat, slot: Slot, e: Entry)
    requires Consistent(b) && id in b.orders && e in Queue(Modify(b, id, size), slot)
    ensures Live(Modify(b, id, size), slot, e)
  {
    var level := Queue(b, slot);
    if slot == SlotOf(b.orders[id]) {
      ResizedFacts(level, id, size);
      hide Resized;
      var level' := Resized(level, id, size);
      var k :| 0 <= k < |level'| && level'[k] == e;
      assert Live(b, slot, level[k]);
    } else {
      assert Live(b, slot, e);
    }
  }

  lemma ModifyQueued(b: Book, id: nat, size: nat, j: nat)
    requires Consistent(b) && id in b.orders && j in b.orders
    ensures var b' := Modify(b, id, size); Entry(j, b'.orders[j].size) in Queue(b', SlotOf(b'.orders[j]))
  {
    var slot := SlotOf(b.orders[j]);
    var b', level := Modify(b, id, size), Queue(b, slot);
    if slot == SlotOf(b.orders[id]) {
      ResizedFacts(level, id, size);
      hide Resized;
      var k :| 0 <= k < |level| && level[k] == Entry(j, b.orders[j].size);
      assert Resized(level, id, size)[k] == Entry(j, b'.orders[j].size);
    }
  }

  lemma ModifyConsistent(b: Book, id: nat, size: nat)
    requires Consistent(b)
    ensures Consistent(Modify(b, id, size))
  {
    if id in b.orders {
      var b', level := Modify(b, id, size), Queue(b, SlotOf(b.orders[id]));
      ResizedFacts(level, id, size);
      hide Resized, Live;
      forall slot, e | slot in b'.levels && e in b'.levels[slot] ensures Live(b', slot, e) {
        ModifyLive(b, id, size, slot, e);
      }
      forall j | j in b'.orders ensures Entry(j, b'.orders[j].size) in Queue(b', SlotOf(b'.orders[j])) {
        ModifyQueued(b, id, size, j);
      }
    }
  }
}
