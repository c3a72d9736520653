/**
  The depth-bounded order book: on each side a map of entries by id and one by price, which share the
  entries and are trimmed to the best prices.  The check for duplicates in `add` is commented out in
  the source, so it is the caller who has to see to it.
*/
module DepthBook {
  import opened BookModel

  /** Prices in ticks. */
  datatype Price = Price(ticks: int)

  class PriceDepthEntry {
    const id: string
    const side: Side
    const price: Price
    var size: nat

    constructor (id: string, side: Side, price: Price, size: nat)
      ensures this.id == id && this.side == side && this.price == price && this.size == size
    {
      this.id, this.side, this.price, this.size := id, side, price, size;
    }
  }

  /** The order of the maps: bids from the highest price down, offers from the lowest up. */
  predicate Better(side: Side, p: Price, q: Price) {
    if side == BID then p.ticks > q.ticks else p.ticks < q.ticks
  }

  /** The last price of a map: the lowest bid, the highest offer. */
  predicate Worst(side: Side, prices: set<Price>, w: Price) {
    w in prices && forall p :: p in prices && p != w ==> Better(side, p, w)
  }

  lemma {:induction false} WorstExists(side: Side, prices: set<Price>)
    requires prices != {}
    ensures exists w :: Worst(side, prices, w)
  {
    var p :| p in prices;
    var rest := prices - {p};
    if rest == {} {
      assert prices == {p};
      assert Worst(side, prices, p);
    } else {
      WorstExists(side, rest);
      var w :| Worst(side, rest, w);
      assert p != w && (Better(side, p, w) || Better(side, w, p));
      var v := if Better(side, p, w) then w else p;
      forall q | q in prices && q != v ensures Better(side, q, v) {
        assert q != p ==> q in rest;
      }
      assert Worst(side, prices, v);
    }
  }

  /** The prices that are left when there may be `depth` of them: the last one goes until there are no more. */
  ghost function Trimmed(side: Side, depth: nat, prices: set<Price>): (r: set<Price>)
    ensures r <= prices
    decreases |prices|
  {
    if |prices| <= depth then prices
    else
      WorstExists(side, prices);
      var w :| Worst(side, prices, w);
      Trimmed(side, depth, prices - {w})
  }

  lemma TrimmedIs(side: Side, depth: nat, prices: set<Price>, w: Price)
    requires |prices| > depth && Worst(side, prices, w)
    ensures Trimmed(side, depth, prices) == Trimmed(side, depth, prices - {w})
    ensures |prices| == depth + 1 ==> Trimmed(side, depth, prices) == prices - {w}
  {
  }

  lemma TrimmedEnough(side: Side, depth: nat, prices: set<Price>)
    requires |prices| <= depth
    ensures Trimmed(side, depth, prices) == prices
  {
  }

  /** The prices after one add after the other. */
  ghost function TopOf(side: Side, depth: nat, added: seq<Price>): set<Price> {
    if added == [] then {}
    else Trimmed(side, depth, TopOf(side, depth, added[..|added| - 1]) + {added[|added| - 1]})
  }

  function AsSet(added: seq<Price>): set<Price> {
    set p | p in added
  }

  /** The best `depth` of all prices: as many as there may be, and each one kept is above each bid, or below each offer, left out. */
  ghost predicate BestOf(side: Side, depth: nat, all: set<Price>, kept: set<Price>) {
    && kept <= all
    && |kept| <= depth
    && (kept != all ==> |kept| == depth)
    && forall p, q :: p in kept && q in all && q !in kept ==> if side == BID then p.ticks > q.ticks else p.ticks < q.ticks
  }

  /** When any may be kept, the highest of all bids is, and the lowest of all offers. */
  lemma BestKept(side: Side, depth: nat, all: set<Price>, kept: set<Price>, p: Price)
    requires BestOf(side, depth, all, kept) && depth > 0 && p in all
    requires forall q :: q in all ==> if side == BID then q.ticks <= p.ticks else p.ticks <= q.ticks
    ensures p in kept
  {
    if kept != all {
      assert |kept| > 0;
      var x :| x in kept;
      assert x in all && (p in kept || if side == BID then x.ticks > p.ticks else x.ticks < p.ticks);
    }
  }

  lemma BestNext(side: Side, depth: nat, all: set<Price>, kept: set<Price>, p: Price)
    requires BestOf(side, depth, all, kept) && p !in all
    ensures BestOf(side, depth, all + {p}, Trimmed(side, depth, kept + {p}))
  {
    hide Trimmed;
    var more := kept + {p};
    if |more| <= depth {
      TrimmedEnough(side, depth, more);
    } else {
      WorstExists(side, more);
      var w :| Worst(side, more, w);
      TrimmedIs(side, depth, more, w);
      assert |more - {w}| == depth;
      forall x, q | x in more - {w} && q in all + {p} && q !in more - {w} ensures Better(side, x, q) {
        assert q != w ==> q in all && q !in kept && (x == p ==> w in kept && Better(side, w, q));
      }
    }
  }

  lemma BestSays(side: Side, depth: nat, all: set<Price>, kept: set<Price>)
    requires BestOf(side, depth, all, kept)
    ensures side == BID ==> forall p, q :: p in kept && q in all && q !in kept ==> p.ticks > q.ticks
    ensures side != BID ==> forall p, q :: p in kept && q in all && q !in kept ==> p.ticks < q.ticks
  {
  }

  /** What is left are the best of the prices. */
  lemma {:induction false} TrimmedIsBest(side: Side, depth: nat, prices: set<Price>)
    ensures BestOf(side, depth, prices, Trimmed(side, depth, prices))
    decreases |prices|
  {
    if |prices| > depth {
      WorstExists(side, prices);
      var w :| Worst(side, prices, w);
      TrimmedIs(side, depth, prices, w);
      TrimmedIsBest(side, depth, prices - {w});
    }
  }

  ghost predicate AllDistinct(added: seq<Price>) {
    forall i, j :: 0 <= i < j < |added| ==> added[i] != added[j]
  }

  lemma AsSetNext(added: seq<Price>)
    requires added != []
    ensures var n := |added| - 1; AsSet(added) == AsSet(added[..n]) + {added[n]}
    ensures var n := |added| - 1; AllDistinct(added) ==> AllDistinct(added[..n]) && added[n] !in AsSet(added[..n])
  {
  }

  /** After any run of adds with prices of their own, the trimmed book holds exactly the best of all that were added. */
  lemma {:induction false} TopIsBest(side: Side, depth: nat, added: seq<Price>)
    requires AllDistinct(added)
    ensures BestOf(side, depth, AsSet(added), TopOf(side, depth, added))
  {
    if added != [] {
      hide BestOf, Trimmed, AsSet, AllDistinct;
      var n := |added| - 1;
      AsSetNext(added);
      TopIsBest(side, depth, added[..n]);
      BestNext(side, depth, AsSet(added[..n]), TopOf(side, depth, added[..n]), added[n]);
    }
  }

  /** Both maps hold the same entries, each under its own id and its own price. */
  ghost predicate Inverse(ids: map<string, PriceDepthEntry>, prices: map<Price, PriceDepthEntry>) {
    && (forall id :: id in ids ==> ids[id].id == id && ids[id].price in prices && prices[ids[id].price] == ids[id])
    && (forall p :: p in prices ==> prices[p].price == p && prices[p].id in ids && ids[prices[p].id] == prices[p])
  }

  /** An add leaves the maps inverse to each other only if the entry is new to both, or takes the place of one entry in both. */
  ghost predicate Fits(ids: map<string, PriceDepthEntry>, prices: map<Price, PriceDepthEntry>, id: string, price: Price) {
    if id in ids then price in prices && ids[id] == prices[price] else price !in prices
  }

  lemma PutInverse(ids: map<string, PriceDepthEntry>, prices: map<Price, PriceDepthEntry>, e: PriceDepthEntry)
    requires Inverse(ids, prices)
    ensures Inverse(ids[e.id := e], prices[e.price := e]) <==> Fits(ids, prices, e.id, e.price)
  {
    var ids', prices' := ids[e.id := e], prices[e.price := e];
    if !Fits(ids, prices, e.id, e.price) {
      if e.id in ids {
        assert prices'[ids[e.id].price] == ids[e.id] != ids'[e.id];
      } else {
        assert ids'[prices[e.price].id] == prices[e.price] != prices'[e.price];
      }
    }
  }

  /** Erasing what the price map holds at some price keeps the maps inverse, and repairs nothing. */
  lemma EraseInverse(ids: map<string, PriceDepthEntry>, prices: map<Price, PriceDepthEntry>, p: Price)
    requires Inverse(ids, prices) && p in prices
    ensures Inverse(ids - {prices[p].id}, prices - {p})
  {
  }

  lemma {:induction false} EraseRepairsNothing(
      ids: map<string, PriceDepthEntry>, prices: map<Price, PriceDepthEntry>, e: PriceDepthEntry, w: Price)
    requires Inverse(ids, prices) && !Fits(ids, prices, e.id, e.price) && e.price !in prices
    requires var prices' := prices[e.price := e]; w in prices'
    ensures var ids', prices' := ids[e.id := e], prices[e.price := e];
      !Inverse(ids' - {prices'[w].id}, prices' - {w})
  {
    var ids', prices' := ids[e.id := e], prices[e.price := e];
    var a := ids[e.id];
    assert a.price in prices && prices[a.price] == a && a.price != e.price && a.id == e.id;
    var ids'', prices'' := ids' - {prices'[w].id}, prices' - {w};
    if w == a.price {
      assert e.price in prices'' && e.id !in ids'';
    } else if w == e.price {
      assert a.price in prices'' && e.id !in ids'';
    } else {
      assert a.price in prices'' && prices''[a.price] == a;
      assert e.id in ids'' ==> ids''[e.id] == e;
    }
  }

  /** The entries at some prices are gone from the price map, and their ids from the other one; nothing else has changed. */
  ghost predicate Dropped(ids0: map<string, PriceDepthEntry>, prices0: map<Price, PriceDepthEntry>,
                          ids: map<string, PriceDepthEntry>, prices: map<Price, PriceDepthEntry>) {
    && (forall p :: p in prices ==> p in prices0 && prices[p] == prices0[p])
    && (forall id :: id in ids ==> id in ids0 && ids[id] == ids0[id])
    && (forall p :: p in prices0 && p !in prices ==> prices0[p].id !in ids)
    && (forall id :: id in ids0 && id !in ids ==> exists p :: p in prices0 && p !in prices && prices0[p].id == id)
  }

  lemma DroppedNothing(ids: map<string, PriceDepthEntry>, prices: map<Price, PriceDepthEntry>)
    ensures Dropped(ids, prices, ids, prices)
  {
  }

  lemma DroppedIs(ids0: map<string, PriceDepthEntry>, prices0: map<Price, PriceDepthEntry>,
                  ids: map<string, PriceDepthEntry>, prices: map<Price, PriceDepthEntry>)
    requires Dropped(ids0, prices0, ids, prices)
    ensures forall p :: p in prices ==> p in prices0 && prices[p] == prices0[p]
  {
  }

  lemma DroppedNext(ids0: map<string, PriceDepthEntry>, prices0: map<Price, PriceDepthEntry>,
                    ids: map<string, PriceDepthEntry>, prices: map<Price, PriceDepthEntry>, w: Price)
    requires Dropped(ids0, prices0, ids, prices) && w in prices
    ensures Dropped(ids0, prices0, ids - {prices[w].id}, prices - {w})
  {
    var ids', prices' := ids - {prices[w].id}, prices - {w};
    forall id | id in ids0 && id !in ids' ensures exists p :: p in prices0 && p !in prices' && prices0[p].id == id {
      if id == prices[w].id {
        assert w in prices0 && w !in prices' && prices0[w].id == id;
      } else {
        var p :| p in prices0 && p !in prices && prices0[p].id == id;
        assert p !in prices';
      }
    }
  }

  lemma PutSize(prices: map<Price, PriceDepthEntry>, p: Price, e: PriceDepthEntry)
    ensures |prices[p := e]| == if p in prices then |prices| else |prices| + 1
    ensures prices[p := e].Keys == prices.Keys + {p}
  {
  }

  ghost predicate OneDropped(ids0: map<string, PriceDepthEntry>, prices0: map<Price, PriceDepthEntry>,
                             ids: map<string, PriceDepthEntry>, prices: map<Price, PriceDepthEntry>) {
    exists w :: w in prices0 && prices == prices0 - {w} && ids == ids0 - {prices0[w].id}
  }

  /** After an add, and after the trimming when it made one price too many. */
  lemma AddDecides(ids0: map<string, PriceDepthEntry>, prices0: map<Price, PriceDepthEntry>, e: PriceDepthEntry,
                   ids: map<string, PriceDepthEntry>, prices: map<Price, PriceDepthEntry>)
    requires Inverse(ids0, prices0)
    requires var ids', prices' := ids0[e.id := e], prices0[e.price := e];
      || (ids == ids' && prices == prices')
      || (e.price !in prices0 && OneDropped(ids', prices', ids, prices))
    ensures Inverse(ids, prices) <==> Fits(ids0, prices0, e.id, e.price)
  {
    hide Inverse, Fits;
    PutInverse(ids0, prices0, e);
    var ids', prices' := ids0[e.id := e], prices0[e.price := e];
    if !(ids == ids' && prices == prices') {
      var w :| w in prices' && prices == prices' - {w} && ids == ids' - {prices'[w].id};
      if Fits(ids0, prices0, e.id, e.price) {
        EraseInverse(ids', prices', w);
      } else {
        EraseRepairsNothing(ids0, prices0, e, w);
      }
    }
  }

  /** One side of a book. */
  class BookSide {
    const side: Side
    const depth: nat
    var ids: map<string, PriceDepthEntry>
    var prices: map<Price, PriceDepthEntry>

    constructor (side: Side, depth: nat)
      ensures Consistent() && this.side == side && this.depth == depth && prices == map[]
    {
      this.side, this.depth, ids, prices := side, depth, map[], map[];
    }

    ghost predicate Consistent()
      reads this
    {
      Inverse(ids, prices) && |prices| <= depth
    }

    /** trimMap: the last price goes from both maps as long as there are too many. */
    method TrimMap()
      modifies this
      ensures BestOf(side, depth, old(prices).Keys, prices.Keys)
      ensures side == BID ==> forall p, q :: p in prices && q in old(prices) && q !in prices ==> p.ticks > q.ticks
      ensures side != BID ==> forall p, q :: p in prices && q in old(prices) && q !in prices ==> p.ticks < q.ticks
      ensures prices.Keys == Trimmed(side, depth, old(prices).Keys)
      ensures Dropped(old(ids), old(prices), ids, prices)
      ensures |prices| <= depth && forall p :: p in prices ==> p in old(prices) && prices[p] == old(prices)[p]
      ensures old(Inverse(ids, prices)) ==> Inverse(ids, prices)
      ensures |old(prices)| <= depth ==> ids == old(ids) && prices == old(prices)
      ensures |old(prices)| == depth + 1 ==> OneDropped(old(ids), old(prices), ids, prices)
    {
      hide Trimmed, BestOf, Inverse, Dropped;
      DroppedNothing(ids, prices);
      TrimmedIsBest(side, depth, prices.Keys);
      while |prices| > depth
        invariant Trimmed(side, depth, prices.Keys) == Trimmed(side, depth, old(prices).Keys)
        invariant Dropped(old(ids), old(prices), ids, prices)
        invariant old(Inverse(ids, prices)) ==> Inverse(ids, prices)
        invariant (ids == old(ids) && prices == old(prices)) || depth <= |prices| < |old(prices)|
        invariant |old(prices)| == depth + 1 ==> |prices| == depth + 1 || OneDropped(old(ids), old(prices), ids, prices)
        decreases |prices|
      {
        WorstExists(side, prices.Keys);
        var w :| w in prices.Keys && Worst(side, prices.Keys, w);
        TrimmedIs(side, depth, prices.Keys, w);
        Shrinks(prices, w);
        DroppedNext(old(ids), old(prices), ids, prices, w);
        if old(Inverse(ids, prices)) {
          EraseInverse(ids, prices, w);
        }
        ids := ids - {prices[w].id};
        prices := prices - {w};
      }
      TrimmedEnough(side, depth, prices.Keys);
      DroppedIs(old(ids), old(prices), ids, prices);
      BestSays(side, depth, old(prices).Keys, prices.Keys);
    }

    method Add(entry: PriceDepthEntry)
      requires Consistent()
      modifies this
      ensures |prices| <= depth && (Inverse(ids, prices) <==> Fits(old(ids), old(prices), entry.id, entry.price))
      ensures prices.Keys == Trimmed(side, depth, old(prices).Keys + {entry.price})
      ensures BestOf(side, depth, old(prices).Keys + {entry.price}, prices.Keys)
      ensures forall p :: p in prices ==> prices[p] == if p == entry.price then entry else old(prices)[p]
    {
      hide Inverse, Fits, Trimmed, BestOf, Dropped, OneDropped;
      ghost var ids0, prices0 := ids, prices;
      PutSize(prices, entry.price, entry);
      ids := ids[entry.id := entry];
      prices := prices[entry.price := entry];
      TrimMap();
      AddDecides(ids0, prices0, entry, ids, prices);
    }

    /**
      remove_duplicate_entries, which `add` no longer calls: whatever has the price, and then whatever
      has the id, goes.  After it an entry with that id and price is new to both maps.
    */
    method RemoveDuplicateEntries(id: string, price: Price)
      requires Consistent()
      modifies this
      ensures Consistent() && id !in ids && price !in prices && Fits(ids, prices, id, price)
      ensures forall p :: p in prices <==> p in old(prices) && p != price && old(prices)[p].id != id
      ensures forall p :: p in prices ==> prices[p] == old(prices)[p]
    {
      if price in prices {
        Erase(price);
      }
      if id in ids {
        Erase(ids[id].price);
      }
    }

    /** The entry at that price leaves both maps. */
    method Erase(price: Price)
      requires Consistent() && price in prices
      modifies this
      ensures Consistent()
      ensures ids == old(ids) - {old(prices)[price].id} && prices == old(prices) - {price}
    {
      Shrinks(prices, price);
      EraseInverse(ids, prices, price);
      hide Inverse;
      ids := ids - {prices[price].id};
      prices := prices - {price};
    }

    /** The entry of the id leaves both maps. */
    method Remove(id: string) returns (removed: bool)
      requires Consistent()
      modifies this
      ensures Consistent()
      ensures removed == (id in old(ids)) && ids == old(ids) - {id}
      ensures prices == if removed then old(prices) - {old(ids)[id].price} else old(prices)
    {
      if id !in ids {
        return false;
      }
      var entry := ids[id];
      if entry.price !in prices {
        return false;
      }
      Erase(entry.price);
      return true;
    }
  }

  lemma Shrinks(prices: map<Price, PriceDepthEntry>, p: Price)
    requires p in prices
    ensures |prices - {p}| == |prices| - 1
    ensures |prices.Keys| == |prices| && (prices - {p}).Keys == prices.Keys - {p}
  {
    assert |prices - {p}| == |(prices - {p}).Keys|;
  }

  function PricesOf(entries: seq<PriceDepthEntry>): (prices: seq<Price>)
    ensures |prices| == |entries| && forall i :: 0 <= i < |entries| ==> prices[i] == entries[i].price
  {
    seq(|entries|, i requires 0 <= i < |entries| => entries[i].price)
  }

  ghost predicate OwnIds(entries: seq<PriceDepthEntry>) {
    forall i, j :: 0 <= i < j < |entries| ==> entries[i].id != entries[j].id
  }

  /** What a side holds comes from those entries. */
  ghost predicate HeldFrom(prices: map<Price, PriceDepthEntry>, entries: seq<PriceDepthEntry>) {
    forall p :: p in prices ==> prices[p].price == p && prices[p] in entries
  }

  lemma FitsNext(ids: map<string, PriceDepthEntry>, prices: map<Price, PriceDepthEntry>, entries: seq<PriceDepthEntry>, n: nat)
    requires n < |entries| && AllDistinct(PricesOf(entries)) && OwnIds(entries)
    requires Inverse(ids, prices) && HeldFrom(prices, entries[..n])
    ensures Fits(ids, prices, entries[n].id, entries[n].price)
  {
    var all := PricesOf(entries);
    assert all[n] == entries[n].price;
    forall p | p in prices ensures p != entries[n].price && prices[p].id != entries[n].id {
      var i :| 0 <= i < n && entries[i] == prices[p];
      assert all[i] == p;
    }
  }

  lemma HeldNext(before: map<Price, PriceDepthEntry>, after: map<Price, PriceDepthEntry>, entries: seq<PriceDepthEntry>, n: nat)
    requires n < |entries| && HeldFrom(before, entries[..n])
    requires forall p :: p in after ==> p == entries[n].price || p in before
    requires forall p :: p in after ==> after[p] == if p == entries[n].price then entries[n] else before[p]
    ensures HeldFrom(after, entries[..n + 1])
  {
    assert entries[..n + 1][n] == entries[n];
    assert forall e :: e in entries[..n] ==> e in entries[..n + 1];
  }

  lemma NoneHeld(side: Side, depth: nat, entries: seq<PriceDepthEntry>)
    ensures HeldFrom(map[], entries[..0]) && TopOf(side, depth, PricesOf(entries)[..0]) == {}
  {
  }

  lemma TopNext(side: Side, depth: nat, added: seq<Price>, n: nat)
    requires n < |added|
    ensures TopOf(side, depth, added[..n + 1]) == Trimmed(side, depth, TopOf(side, depth, added[..n]) + {added[n]})
  {
    hide Trimmed;
    assert added[..n + 1][..n] == added[..n];
  }

  /** No bid is above those ticks, no offer is below them. */
  ghost predicate Extreme(side: Side, entries: seq<PriceDepthEntry>, ticks: int) {
    forall e :: e in entries ==> if side == BID then e.price.ticks <= ticks else ticks <= e.price.ticks
  }

  lemma RunSays(side: Side, depth: nat, entries: seq<PriceDepthEntry>, kept: set<Price>)
    requires BestOf(side, depth, AsSet(PricesOf(entries)), kept)
    ensures side == BID ==> forall p, e :: p in kept && e in entries && e.price !in kept ==> p.ticks > e.price.ticks
    ensures side != BID ==> forall p, e :: p in kept && e in entries && e.price !in kept ==> p.ticks < e.price.ticks
    ensures depth > 0 ==> forall e :: e in entries && Extreme(side, entries, e.price.ticks) ==> e.price in kept
  {
    hide BestOf;
    var all := PricesOf(entries);
    BestSays(side, depth, AsSet(all), kept);
    forall e | e in entries ensures e.price in AsSet(all) {
      var i :| 0 <= i < |entries| && entries[i] == e;
      assert all[i] == e.price;
    }
    forall e | e in entries && depth > 0 && Extreme(side, entries, e.price.ticks) ensures e.price in kept {
      BestKept(side, depth, AsSet(all), kept, e.price);
    }
  }

  /** A run of adds to an empty side, with prices and ids of their own: what is left are the entries at the best prices. */
  method AddRun(side: Side, depth: nat, entries: seq<PriceDepthEntry>) returns (book: BookSide)
    requires AllDistinct(PricesOf(entries)) && OwnIds(entries)
    ensures fresh(book) && book.side == side && book.depth == depth && book.Consistent()
    ensures BestOf(side, depth, AsSet(PricesOf(entries)), book.prices.Keys)
    ensures HeldFrom(book.prices, entries)
    ensures side == BID ==> forall p, e :: p in book.prices && e in entries && e.price !in book.prices ==> p.ticks > e.price.ticks
    ensures side != BID ==> forall p, e :: p in book.prices && e in entries && e.price !in book.prices ==> p.ticks < e.price.ticks
    ensures depth > 0 ==> forall e :: e in entries && Extreme(side, entries, e.price.ticks) ==> e.price in book.prices
  {
    hide BestOf, Trimmed, AllDistinct, AsSet, Inverse, Fits, OwnIds, HeldFrom, TopOf;
    NoneHeld(side, depth, entries);
    book := new BookSide(side, depth);
    ghost var all := PricesOf(entries);
    for n := 0 to |entries|
      invariant fresh(book) && book.side == side && book.depth == depth && book.Consistent()
      invariant book.prices.Keys == TopOf(side, depth, all[..n])
      invariant HeldFrom(book.prices, entries[..n])
    {
      FitsNext(book.ids, book.prices, entries, n);
      ghost var before := book.prices;
      book.Add(entries[n]);
      TopNext(side, depth, all, n);
      HeldNext(before, book.prices, entries, n);
    }
    assert all[..|entries|] == all && entries[..|entries|] == entries;
    TopIsBest(side, depth, all);
    RunSays(side, depth, entries, book.prices.Keys);
  }

  class PriceDepthOrderBook {
    const bids: BookSide
    const offers: BookSide

    constructor (depth: nat)
      ensures Valid() && bids.prices == map[] && offers.prices == map[] && bids.depth == offers.depth == depth
    {
      bids := new BookSide(BID, depth);
      offers := new BookSide(ASK, depth);
    }

    ghost predicate Valid()
      reads this, bids, offers
    {
      && bids != offers && bids.side == BID && offers.side == ASK
      && bids.Consistent() && offers.Consistent()
    }

    /** Without a check for duplicates: the maps agree afterwards exactly when the entry fits. */
    method Add(entry: PriceDepthEntry)
      requires Valid() && entry.side != NO_SIDE
      modifies if entry.side == BID then bids else offers
      ensures var s := if entry.side == BID then bids else offers;
        && (Valid() <==> old(Fits(s.ids, s.prices, entry.id, entry.price)))
        && BestOf(entry.side, s.depth, old(s.prices).Keys + {entry.price}, s.prices.Keys)
        && s.prices.Keys == Trimmed(entry.side, s.depth, old(s.prices).Keys + {entry.price})
        && forall p :: p in s.prices ==> s.prices[p] == if p == entry.price then entry else old(s.prices)[p]
      ensures var other := if entry.side == BID then offers else bids;
        other.ids == old(other.ids) && other.prices == old(other.prices)
    {
      if entry.side == BID {
        bids.Add(entry);
      } else {
        offers.Add(entry);
      }
    }

    /** The bid of that id, or else the offer. */
    method Remove(id: string) returns (removed: bool)
      requires Valid()
      modifies bids, offers
      ensures Valid()
      ensures removed == (id in old(bids.ids) || id in old(offers.ids))
      ensures bids.ids == old(bids.ids) - {id}
      ensures offers.ids == if id in old(bids.ids) then old(offers.ids) else old(offers.ids) - {id}
    {
      removed := bids.Remove(id);
      if !removed {
        removed := offers.Remove(id);
      }
    }

    function FindEntryById(id: string): PriceDepthEntry?
      reads bids, offers
    {
      if id in bids.ids then bids.ids[id] else if id in offers.ids then offers.ids[id] else null
    }

    /** The entry takes another size and keeps its place in both maps; no other entry changes. */
    method ChangeSize(id: string, size: nat) returns (changed: bool)
      requires Valid()
      modifies bids.ids.Values, offers.ids.Values
      ensures Valid() && changed == (FindEntryById(id) != null)
      ensures changed ==> FindEntryById(id).size == size
      ensures forall e :: e in bids.ids.Values + offers.ids.Values && e != FindEntryById(id) ==> e.size == old(e.size)
    {
      var entry := FindEntryById(id);
      if entry == null {
        return false;
      }
      entry.size := size;
      return true;
    }
  }
}
