/** The report a run prints, and what it says about the live orders. */
module Reports {
  import opened Words
  import opened Orders
  import opened LazyBook
  import opened LazyEager
  import opened IdReuse
  import opened Checksum
  import Eager = EagerBook

  function ReportOf(b: QueueBook): Report {
    Report(ToWord(|b.log|), ToWord(TradedQty(b.log)), |b.orders|, Checksum.Of(b))
  }

  function EagerReport(b: Eager.ListBook): Report {
    Report(ToWord(|b.log|), ToWord(TradedQty(b.log)), |b.bids| + |b.asks|, Checksum.OfEager(b))
  }

  // ------------------------------------------------------------ every live order sits in one queue

  function IdsOf(s: seq<Order>): set<nat> {
    set o | o in s :: o.id
  }

  lemma {:induction false} LiveIds(q: seq<Entry>, orders: map<nat, Resting>)
    requires DistinctIds(q)
    ensures |IdsOf(Live(q, orders))| == |Live(q, orders)|
    ensures forall id :: id in IdsOf(Live(q, orders)) <==> Queued(q, id) && id in orders
  {
    if q != [] {
      var e, t := q[0], q[1..];
      LiveIds(t, orders);
      forall id
        ensures Queued(q, id) <==> id == e.id || Queued(t, id)
      {
        if Queued(t, id) {
          var i :| 0 <= i < |t| && t[i].id == id;
          assert q[i + 1].id == id;
        }
      }
      assert !Queued(t, e.id);
      if e.id in orders {
        var o := Order(e.id, orders[e.id].price, orders[e.id].qty);
        assert IdsOf(Live(q, orders)) == {e.id} + IdsOf(Live(t, orders));
      }
    }
  }

  /** The id store holds exactly the live orders of the two queues, each once. */
  lemma RestingIsLive(b: QueueBook)
    requires WellFormed(b)
    ensures b.orders.Keys == IdsOf(Live(b.bids, b.orders)) + IdsOf(Live(b.asks, b.orders))
    ensures IdsOf(Live(b.bids, b.orders)) !! IdsOf(Live(b.asks, b.orders))
    ensures |b.orders| == |Live(b.bids, b.orders)| + |Live(b.asks, b.orders)|
  {
    LiveIds(b.bids, b.orders);
    LiveIds(b.asks, b.orders);
    var bids, asks := IdsOf(Live(b.bids, b.orders)), IdsOf(Live(b.asks, b.orders));
    assert forall id :: id in b.orders.Keys <==> id in bids + asks;
    assert |b.orders| == |b.orders.Keys|;
  }

  // ------------------------------------------------------------ the checksum sees live orders only

  lemma {:induction false} SortKeeps(q: seq<Entry>, orders: map<nat, Resting>)
    requires PricesAgree(q, orders)
    ensures Sorted(Ask, EntryPrice, SortAscending(EntryPrice, q))
    ensures PricesAgree(SortAscending(EntryPrice, q), orders)
  {
    if q != [] {
      var t, e := q[..|q| - 1], q[|q| - 1];
      SortKeeps(t, orders);
      var s := SortAscending(EntryPrice, t);
      InsertSorted(Ask, EntryPrice, s, e);
      var r := Insert(Ask, EntryPrice, s, e);
      forall i | 0 <= i < |r| && r[i].id in orders
        ensures orders[r[i].id].price == r[i].price
      {
        InsertMembers(Ask, EntryPrice, s, e, r[i]);
      }
    }
  }

  lemma {:induction false} LiveInsertDead(q: seq<Entry>, orders: map<nat, Resting>, e: Entry)
    requires e.id !in orders
    ensures Live(Insert(Ask, EntryPrice, q, e), orders) == Live(q, orders)
  {
    if q != [] && AtLeastAsGood(Ask, q[0].price, e.price) {
      LiveInsertDead(q[1..], orders, e);
    }
  }

  /** Sorting by price and dropping dead ids commute. */
  lemma {:induction false} LiveSorted(q: seq<Entry>, orders: map<nat, Resting>)
    requires PricesAgree(q, orders)
    ensures FoldOrder(q, orders) == SortAscending(OrderPrice, Live(q, orders))
  {
    if q != [] {
      var t, e := q[..|q| - 1], q[|q| - 1];
      LiveSorted(t, orders);
      SortKeeps(t, orders);
      assert q == t + [e];
      LiveConcat(t, [e], orders);
      var s := SortAscending(EntryPrice, t);
      if e.id in orders {
        var o := Order(e.id, e.price, orders[e.id].qty);
        LiveInsert(Ask, s, orders, e);
        assert Live(q, orders) == Live(t, orders) + [o];
        assert Live(q, orders)[..|Live(q, orders)| - 1] == Live(t, orders);
      } else {
        LiveInsertDead(s, orders, e);
        assert Live([e], orders) == [];
        assert Live(t, orders) + [] == Live(t, orders);
      }
    }
  }

  /** The lazy book's report is the report of the book that deletes at once. */
  lemma ReportIsEager(ops: seq<Op>)
    requires SafeStream(ops)
    ensures ReportOf(Run(ops)) == EagerReport(Eager.Run(ops))
  {
    var b := Run(ops);
    SafeStreamTracks(ops, |ops|);
    assert ops[..|ops|] == ops;
    RestingIsLive(b);
    LiveSorted(b.bids, b.orders);
    LiveSorted(b.asks, b.orders);
  }

  // ------------------------------------------------------------ sensitivity of a book's checksum

  lemma {:induction false} LiveChanged(q: seq<Entry>, orders: map<nat, Resting>, id: nat, r: Resting) returns (k: nat)
    requires DistinctIds(q) && id in orders && Queued(q, id)
    ensures k < |Live(q, orders)| && Live(q, orders)[k] == Order(id, orders[id].price, orders[id].qty)
    ensures Live(q, orders[id := r]) == Live(q, orders)[k := Order(id, r.price, r.qty)]
  {
    var orders' := orders[id := r];
    var e, t := q[0], q[1..];
    if e.id == id {
      k := 0;
      assert forall i :: 0 <= i < |t| ==> t[i].id != id;
      LiveFrame(t, orders, orders');
    } else {
      var i :| 0 <= i < |q| && q[i].id == id;
      assert t[i - 1].id == id;
      var j := LiveChanged(t, orders, id, r);
      k := if e.id in orders then j + 1 else j;
    }
  }

  lemma {:induction false} SortKeepsIds(q: seq<Entry>)
    requires DistinctIds(q)
    ensures DistinctIds(SortAscending(EntryPrice, q))
    ensures forall id :: Queued(SortAscending(EntryPrice, q), id) <==> Queued(q, id)
  {
    if q != [] {
      var t, e := q[..|q| - 1], q[|q| - 1];
      SortKeepsIds(t);
      SortKeeps(t, map[]);
      assert !Queued(t, e.id);
      InsertedQueue(Ask, SortAscending(EntryPrice, t), e);
      forall id
        ensures Queued(q, id) <==> id == e.id || Queued(t, id)
      {
        if Queued(t, id) {
          var i :| 0 <= i < |t| && t[i].id == id;
          assert q[i].id == id;
        }
        if Queued(q, id) && id != e.id {
          var i :| 0 <= i < |q| && q[i].id == id;
          assert t[i].id == id;
        }
      }
    }
  }

  /** Two books that differ in one record that the hash tells apart never share a checksum. */
  lemma ChecksumSeesRecord(b: QueueBook, id: nat, r: Resting)
    requires WellFormed(b) && id in b.orders
    requires var o := Order(id, b.orders[id].price, b.orders[id].qty);
             forall acc :: Hash(acc, o) != Hash(acc, Order(id, r.price, r.qty))
    ensures Checksum.Of(b.(orders := b.orders[id := r])) != Checksum.Of(b)
  {
    var orders' := b.orders[id := r];
    var x := Order(id, r.price, r.qty);
    var s, t := FoldOrder(b.bids, b.orders), FoldOrder(b.asks, b.orders);
    var s', t' := FoldOrder(b.bids, orders'), FoldOrder(b.asks, orders');
    SortKeepsIds(b.bids);
    SortKeepsIds(b.asks);
    HashIsInjective();
    if Queued(b.bids, id) {
      var k := LiveChanged(SortAscending(EntryPrice, b.bids), b.orders, id, r);
      FoldSees(Hash, 0, s, k, x);
      var q := SortAscending(EntryPrice, b.asks);
      NotQueued(q, id);
      LiveFrame(q, b.orders, orders');
      FoldInjective(Hash, Fold(Hash, 0, s), Fold(Hash, 0, s'), t);
    } else {
      var k := LiveChanged(SortAscending(EntryPrice, b.asks), b.orders, id, r);
      var q := SortAscending(EntryPrice, b.bids);
      NotQueued(q, id);
      LiveFrame(q, b.orders, orders');
      FoldSees(Hash, Fold(Hash, 0, s), t, k, x);
    }
  }

  /** Two books that differ in the quantity of one live order never share a checksum. */
  lemma ChecksumSeesQuantity(b: QueueBook, id: nat, qty: int)
    requires WellFormed(b) && id in b.orders
    requires ToWord(qty) != ToWord(b.orders[id].qty)
    ensures Checksum.Of(b.(orders := b.orders[id := b.orders[id].(qty := qty)])) != Checksum.Of(b)
  {
    var r := b.orders[id].(qty := qty);
    var o, x := Order(id, b.orders[id].price, b.orders[id].qty), Order(id, r.price, r.qty);
    forall acc
      ensures Hash(acc, o) != Hash(acc, x)
    {
      if Hash(acc, o) == Hash(acc, x) {
        HashInjective(acc, o, acc, x);
      }
    }
    ChecksumSeesRecord(b, id, r);
  }

  /** Nor do two books whose records of one live order differ in the price, from 0 to below 2^44. */
  lemma ChecksumSeesPrice(b: QueueBook, id: nat, price: int)
    requires WellFormed(b) && id in b.orders
    requires 0 <= price < 0x1000_0000_0000 && 0 <= b.orders[id].price < 0x1000_0000_0000
    requires price != b.orders[id].price
    ensures Checksum.Of(b.(orders := b.orders[id := b.orders[id].(price := price)])) != Checksum.Of(b)
  {
    var r := b.orders[id].(price := price);
    var o, x := Order(id, b.orders[id].price, b.orders[id].qty), Order(id, r.price, r.qty);
    forall acc
      ensures Hash(acc, o) != Hash(acc, x)
    {
      HashSeesSmallPrice(acc, o, price);
    }
    ChecksumSeesRecord(b, id, r);
  }
}
