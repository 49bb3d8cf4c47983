/** Lazy cancellation is eager removal, seen through the filter that drops dead ids. */
module LazyEager {
  import opened Orders
  import opened LazyBook
  import Eager = EagerBook

  /** What an observer of the live orders and of the fills can see of a lazy book. */
  function View(b: QueueBook): Eager.ListBook {
    Eager.ListBook(Live(b.bids, b.orders), Live(b.asks, b.orders), b.log)
  }

  function SweepView(t: Sweeping): Eager.Matching {
    Eager.Matching(Live(t.queue, t.orders), t.qty, t.log)
  }

  lemma {:induction false} LiveFrame(q: seq<Entry>, o1: map<nat, Resting>, o2: map<nat, Resting>)
    requires forall i :: 0 <= i < |q| ==> (q[i].id in o1 <==> q[i].id in o2)
    requires forall i :: 0 <= i < |q| && q[i].id in o1 ==> o1[q[i].id] == o2[q[i].id]
    ensures Live(q, o1) == Live(q, o2)
  {
    if q != [] {
      LiveFrame(q[1..], o1, o2);
    }
  }

  lemma {:induction false} LivePositive(q: seq<Entry>, orders: map<nat, Resting>)
    requires Positive(orders)
    ensures Eager.Positive(Live(q, orders))
  {
    if q != [] {
      LivePositive(q[1..], orders);
    }
  }

  /** Every order of the view comes from a queue entry, at the price it is queued at. */
  lemma {:induction false} LiveSource(q: seq<Entry>, orders: map<nat, Resting>, k: nat) returns (i: nat)
    requires PricesAgree(q, orders) && k < |Live(q, orders)|
    ensures i < |q| && q[i].id in orders
    ensures Live(q, orders)[k] == Order(q[i].id, q[i].price, orders[q[i].id].qty)
  {
    if q[0].id in orders && k == 0 {
      i := 0;
    } else {
      var t := q[1..];
      var j := LiveSource(t, orders, if q[0].id in orders then k - 1 else k);
      i := j + 1;
      assert q[i] == t[j];
    }
  }

  lemma LiveHeadNoBetter(side: Side, q: seq<Entry>, orders: map<nat, Resting>)
    requires Sorted(side, EntryPrice, q) && PricesAgree(q, orders)
    ensures Live(q, orders) != [] ==> q != [] && AtLeastAsGood(side, q[0].price, Live(q, orders)[0].price)
  {
    if Live(q, orders) != [] {
      var i := LiveSource(q, orders, 0);
      assert i > 0 ==> AtLeastAsGood(side, EntryPrice(q[0]), EntryPrice(q[i]));
    }
  }

  lemma {:induction false} LiveIsSorted(side: Side, q: seq<Entry>, orders: map<nat, Resting>)
    requires Sorted(side, EntryPrice, q) && PricesAgree(q, orders)
    ensures Sorted(side, OrderPrice, Live(q, orders))
  {
    if q != [] {
      var e, t := q[0], q[1..];
      forall i, j | 0 <= i < j < |t|
        ensures AtLeastAsGood(side, EntryPrice(t[i]), EntryPrice(t[j]))
      {
        assert t[i] == q[i + 1] && t[j] == q[j + 1];
      }
      LiveIsSorted(side, t, orders);
      forall j | 0 <= j < |Live(t, orders)|
        ensures AtLeastAsGood(side, e.price, Live(t, orders)[j].price)
      {
        var i := LiveSource(t, orders, j);
        assert t[i] == q[i + 1];
        assert AtLeastAsGood(side, EntryPrice(q[0]), EntryPrice(q[i + 1]));
      }
    }
  }

  // ------------------------------------------------------------ matching

  ghost predicate CanSweep(taker: Side, t: Sweeping) {
    && Positive(t.orders) && PricesAgree(t.queue, t.orders)
    && Sorted(taker.Opposite(), EntryPrice, t.queue)
  }

  /** The taker would get to an order whose id has a second place further back. */
  ghost predicate FillsTwin(taker: Side, limit: int, qty: int, live: seq<Order>) {
    exists i, j :: 0 <= i < j < |live| && live[i].id == live[j].id &&
                   Crosses(taker, live[i].price, limit) && TotalQty(live[..i]) < qty
  }

  lemma HeadStepKeeps(taker: Side, limit: int, id: nat, t: Sweeping)
    requires CanSweep(taker, t) && !Stops(taker, limit, t)
    ensures CanSweep(taker, HeadStep(id, t))
  {
    SuffixSorted(taker.Opposite(), t.queue, 1);
  }

  /** A live entry of the queue shows in the view. */
  lemma {:induction false} LiveHas(q: seq<Entry>, orders: map<nat, Resting>, i: nat) returns (k: nat)
    requires i < |q| && q[i].id in orders
    ensures k < |Live(q, orders)| && Live(q, orders)[k].id == q[i].id
  {
    if i == 0 {
      k := 0;
    } else {
      k := LiveHas(q[1..], orders, i - 1);
      k := if q[0].id in orders then k + 1 else k;
    }
  }

  lemma HeadIsTwin(taker: Side, limit: int, t: Sweeping, i: nat)
    requires CanSweep(taker, t) && !Stops(taker, limit, t)
    requires 0 < i < |t.queue| && t.queue[i].id == t.queue[0].id && t.queue[0].id in t.orders
    ensures FillsTwin(taker, limit, t.qty, Live(t.queue, t.orders))
  {
    var k := LiveHas(t.queue[1..], t.orders, i - 1);
    var live := Live(t.queue, t.orders);
    assert live[0].id == live[k + 1].id && live[..0] == [];
  }

  /** A dead head is invisible; a live head is filled exactly as the reference book fills it. */
  lemma HeadStepView(taker: Side, limit: int, id: nat, t: Sweeping)
    requires CanSweep(taker, t) && !Stops(taker, limit, t)
    requires t.queue[0].id in t.orders ==> forall i :: 0 < i < |t.queue| ==> t.queue[i].id != t.queue[0].id
    ensures SweepView(HeadStep(id, t)) ==
            if t.queue[0].id in t.orders then Eager.FillHead(id, SweepView(t)) else SweepView(t)
  {
    var e, rest := t.queue[0], t.queue[1..];
    var n := HeadStep(id, t);
    if e.id in t.orders {
      assert forall i :: 0 <= i < |rest| ==> rest[i].id != e.id;
      LiveFrame(rest, t.orders, n.orders);
      assert Live(t.queue, t.orders) == [Order(e.id, e.price, t.orders[e.id].qty)] + Live(rest, t.orders);
      assert Live(t.queue, t.orders)[1..] == Live(rest, t.orders);
    }
  }

  /** A fill of the head leaves the taker as far from any twin further back. */
  lemma FillNearsTwin(taker: Side, limit: int, id: nat, m: Eager.Matching)
    requires Eager.Positive(m.resting) && m.resting != [] && m.qty > 0
    requires FillsTwin(taker, limit, Eager.FillHead(id, m).qty, Eager.FillHead(id, m).resting)
    ensures FillsTwin(taker, limit, m.qty, m.resting)
  {
    var n := Eager.FillHead(id, m);
    var i, j :| 0 <= i < j < |n.resting| && n.resting[i].id == n.resting[j].id &&
                Crosses(taker, n.resting[i].price, limit) && TotalQty(n.resting[..i]) < n.qty;
    Eager.TotalQtyNonNegative(n.resting[..i]);
    assert m.resting[..i + 1] == [m.resting[0]] + n.resting[..i];
    assert m.resting[i + 1] == n.resting[i] && m.resting[j + 1] == n.resting[j];
  }

  lemma {:induction false} SweepSimulates(taker: Side, limit: int, id: nat, t: Sweeping)
    requires CanSweep(taker, t)
    requires Eager.Positive(Live(t.queue, t.orders))
    requires !FillsTwin(taker, limit, t.qty, Live(t.queue, t.orders))
    ensures SweepView(Sweep(taker, limit, id, t)) == Eager.Match(taker, limit, id, SweepView(t))
    decreases |t.queue|, if t.qty > 0 then t.qty else 0
  {
    LiveHeadNoBetter(taker.Opposite(), t.queue, t.orders);
    if !Stops(taker, limit, t) {
      var n := HeadStep(id, t);
      HeadStepKeeps(taker, limit, id, t);
      if i: nat :| 0 < i < |t.queue| && t.queue[i].id == t.queue[0].id && t.queue[0].id in t.orders {
        HeadIsTwin(taker, limit, t, i);
      }
      HeadStepView(taker, limit, id, t);
      LivePositive(n.queue, n.orders);
      if t.queue[0].id in t.orders && FillsTwin(taker, limit, n.qty, Live(n.queue, n.orders)) {
        FillNearsTwin(taker, limit, id, SweepView(t));
      }
      SweepSimulates(taker, limit, id, n);
    }
  }

  /** Every id of the view has its place in the queue, and different orders have different places. */
  lemma {:induction false} DistinctHasNoTwin(taker: Side, limit: int, qty: int,
                                             q: seq<Entry>, orders: map<nat, Resting>)
    requires DistinctIds(q)
    ensures forall i, j :: 0 <= i < j < |Live(q, orders)| ==> Live(q, orders)[i].id != Live(q, orders)[j].id
    ensures forall i :: 0 <= i < |Live(q, orders)| ==> Queued(q, Live(q, orders)[i].id)
    ensures !FillsTwin(taker, limit, qty, Live(q, orders))
  {
    if q != [] {
      var t := q[1..];
      DistinctHasNoTwin(taker, limit, qty, t, orders);
      assert forall id :: Queued(t, id) ==> Queued(q, id) && id != q[0].id by {
        SuffixQueued(q, 1);
        assert forall i :: 0 <= i < |t| ==> t[i] == q[i + 1];
      }
      assert Queued(q, q[0].id);
    }
  }

  // ------------------------------------------------------------ resting and cancelling

  lemma {:induction false} LiveInsert(side: Side, q: seq<Entry>, orders: map<nat, Resting>, e: Entry)
    requires Sorted(side, EntryPrice, q) && PricesAgree(q, orders)
    requires e.id in orders && orders[e.id].price == e.price
    ensures Live(Insert(side, EntryPrice, q, e), orders) ==
            Insert(side, OrderPrice, Live(q, orders), Order(e.id, e.price, orders[e.id].qty))
  {
    if q == [] {
    } else if !AtLeastAsGood(side, q[0].price, e.price) {
      LiveHeadNoBetter(side, q, orders);
    } else {
      var t := q[1..];
      LiveInsert(side, t, orders, e);
      assert Insert(side, EntryPrice, q, e) == [q[0]] + Insert(side, EntryPrice, t, e);
      if q[0].id in orders {
        var h := Order(q[0].id, q[0].price, orders[q[0].id].qty);
        assert Live(q, orders) == [h] + Live(t, orders);
        assert Live(q, orders)[1..] == Live(t, orders);
      }
    }
  }

  lemma {:induction false} LiveWithout(q: seq<Entry>, orders: map<nat, Resting>, id: nat)
    ensures Live(q, orders - {id}) == Eager.Without(Live(q, orders), id)
  {
    if q != [] {
      LiveWithout(q[1..], orders, id);
      if q[0].id in orders {
        var h := Order(q[0].id, orders[q[0].id].price, orders[q[0].id].qty);
        assert Live(q, orders)[1..] == Live(q[1..], orders);
      }
    }
  }

  // ------------------------------------------------------------ one operation

  /** What a sweep leaves behind is consistent, and nothing of the taker's own side has changed. */
  lemma SweepKeepsConsistent(b: QueueBook, side: Side, price: int, qty: int, id: nat)
    requires Consistent(b)
    ensures var t := SweepOf(b, side, price, qty, id);
            var b1 := AfterSweep(b, side, t);
            && Consistent(b1)
            && Live(b.Queue(side), t.orders) == Live(b.Queue(side), b.orders)
            && (forall i :: QueuedIn(b1, i) ==> QueuedIn(b, i))
  {
    var opp, own := b.Queue(side.Opposite()), b.Queue(side);
    var s := Sweeping(opp, b.orders, qty, b.log, b.skips);
    var t := Sweep(side, price, id, s);
    SweepKeepsOrder(b, side, price, qty, id);
    var k := SweepFrame(side, price, id, s);
    forall i | 0 <= i < |own|
      ensures (own[i].id in t.orders <==> own[i].id in b.orders) &&
              (own[i].id in t.orders ==> t.orders[own[i].id] == b.orders[own[i].id])
    {
      assert Queued(own, own[i].id);
    }
    LiveFrame(own, t.orders, b.orders);
    SuffixQueued(opp, k);
    forall i | i in t.orders && Queued(opp, i)
      ensures Queued(t.queue, i)
    {
      SweepKeepsQueued(side, price, id, s, i);
    }
  }

  /** The same with one place for every id; then matching, too, is what the reference book does. */
  lemma SweepKeepsBook(b: QueueBook, side: Side, price: int, qty: int, id: nat)
    requires WellFormed(b)
    ensures var t := SweepOf(b, side, price, qty, id);
            var b1 := AfterSweep(b, side, t);
            && WellFormed(b1)
            && Eager.Positive(Live(b.Queue(side.Opposite()), b.orders))
            && SweepView(t) == Eager.Match(side, price, id,
                 Eager.Matching(Live(b.Queue(side.Opposite()), b.orders), qty, b.log))
            && Live(b.Queue(side), t.orders) == Live(b.Queue(side), b.orders)
            && (forall i :: QueuedIn(b1, i) ==> QueuedIn(b, i))
  {
    var opp := b.Queue(side.Opposite());
    var s := Sweeping(opp, b.orders, qty, b.log, b.skips);
    SweepKeepsConsistent(b, side, price, qty, id);
    LivePositive(opp, b.orders);
    DistinctHasNoTwin(side, price, qty, opp, b.orders);
    SweepSimulates(side, price, id, s);
    var k := SweepFrame(side, price, id, s);
  }

  lemma SuffixQueued(q: seq<Entry>, k: nat)
    requires k <= |q|
    ensures forall i :: Queued(q[k..], i) ==> Queued(q, i)
  {
    forall id | Queued(q[k..], id)
      ensures Queued(q, id)
    {
      var i :| 0 <= i < |q[k..]| && q[k..][i].id == id;
      assert q[i + k].id == id;
    }
  }

  lemma HeadStepKeepsQueued(id: nat, t: Sweeping, i: nat)
    requires t.queue != [] && Queued(t.queue, i) && i in HeadStep(id, t).orders
    ensures Queued(HeadStep(id, t).queue, i)
  {
    var n := HeadStep(id, t);
    var j :| 0 <= j < |t.queue| && t.queue[j].id == i;
    if n.queue != t.queue {
      assert t.queue[0].id !in n.orders;
      assert n.queue[j - 1].id == i;
    }
  }

  /** A live order is never dropped from the queue. */
  lemma {:induction false} SweepKeepsQueued(taker: Side, limit: int, id: nat, t: Sweeping, i: nat)
    requires Positive(t.orders) && Queued(t.queue, i) && i in Sweep(taker, limit, id, t).orders
    ensures Queued(Sweep(taker, limit, id, t).queue, i)
    decreases |t.queue|, if t.qty > 0 then t.qty else 0
  {
    if !Stops(taker, limit, t) {
      var n := HeadStep(id, t);
      var k := SweepFrame(taker, limit, id, n);
      HeadStepKeepsQueued(id, t, i);
      SweepKeepsQueued(taker, limit, id, n, i);
    }
  }

  lemma InsertedQueue(side: Side, q: seq<Entry>, e: Entry)
    requires Sorted(side, EntryPrice, q)
    ensures forall i :: Queued(Insert(side, EntryPrice, q, e), i) <==> i == e.id || Queued(q, i)
    ensures DistinctIds(q) && !Queued(q, e.id) ==> DistinctIds(Insert(side, EntryPrice, q, e))
  {
    var k := InsertPosition(side, EntryPrice, q, e);
    var r := q[..k] + [e] + q[k..];
    forall i | Queued(q, i)
      ensures Queued(r, i)
    {
      var j :| 0 <= j < |q| && q[j].id == i;
      assert r[if j < k then j else j + 1] == q[j];
    }
    assert r[k] == e;
  }

  /** The resting order joins its own queue and no other. */
  lemma RestKeepsSide(b: QueueBook, side: Side, price: int, qty: int, id: nat)
    requires Consistent(b) && !QueuedIn(b, id)
    ensures var q := Insert(side, EntryPrice, b.Queue(side), Entry(id, price));
            var orders := b.orders[id := Resting(price, qty)];
            && Sorted(side, EntryPrice, q) && (DistinctIds(b.Queue(side)) ==> DistinctIds(q)) && PricesAgree(q, orders)
            && (forall i :: Queued(q, i) <==> i == id || Queued(b.Queue(side), i))
            && Live(q, orders) == Insert(side, OrderPrice, Live(b.Queue(side), b.orders), Order(id, price, qty))
  {
    var own, e := b.Queue(side), Entry(id, price);
    var orders := b.orders[id := Resting(price, qty)];
    NotQueued(own, id);
    LiveFrame(own, b.orders, orders);
    InsertSorted(side, EntryPrice, own, e);
    InsertedQueue(side, own, e);
    LiveInsert(side, own, orders, e);
    InsertedPrices(side, own, orders, e);
  }

  ghost predicate RestsUncrossed(b: QueueBook, side: Side, price: int) {
    var opp := b.Queue(side.Opposite());
    opp != [] ==> !Crosses(side, opp[0].price, price)
  }

  lemma RestKeepsConsistent(b: QueueBook, side: Side, price: int, qty: int, id: nat)
    requires Consistent(b) && !QueuedIn(b, id) && qty > 0 && RestsUncrossed(b, side, price)
    ensures Consistent(Rest(b, side, price, qty, id))
    ensures forall i :: QueuedIn(Rest(b, side, price, qty, id), i) ==> i == id || QueuedIn(b, i)
  {
    var opp, r := b.Queue(side.Opposite()), Rest(b, side, price, qty, id);
    RestKeepsSide(b, side, price, qty, id);
    InsertedHead(side, b.Queue(side), Entry(id, price));
    assert r.orders == b.orders[id := Resting(price, qty)];
    assert PricesAgree(opp, r.orders) by {
      NotQueued(opp, id);
    }
  }

  lemma RestKeepsWellFormed(b: QueueBook, side: Side, price: int, qty: int, id: nat)
    requires WellFormed(b) && !QueuedIn(b, id) && qty > 0 && RestsUncrossed(b, side, price)
    ensures WellFormed(Rest(b, side, price, qty, id))
    ensures forall i :: QueuedIn(Rest(b, side, price, qty, id), i) ==> i == id || QueuedIn(b, i)
  {
    RestKeepsConsistent(b, side, price, qty, id);
    RestKeepsSide(b, side, price, qty, id);
  }

  lemma RestView(b: QueueBook, side: Side, price: int, qty: int, id: nat)
    requires Consistent(b) && !QueuedIn(b, id)
    ensures View(Rest(b, side, price, qty, id)) ==
            View(b).WithQueue(side, Insert(side, OrderPrice, View(b).Queue(side), Order(id, price, qty)))
  {
    var opp := b.Queue(side.Opposite());
    RestKeepsSide(b, side, price, qty, id);
    NotQueued(opp, id);
    LiveFrame(opp, b.orders, b.orders[id := Resting(price, qty)]);
  }

  lemma NotQueued(q: seq<Entry>, id: nat)
    requires !Queued(q, id)
    ensures forall i :: 0 <= i < |q| ==> q[i].id != id
  {
  }

  lemma InsertedPrices(side: Side, q: seq<Entry>, orders: map<nat, Resting>, e: Entry)
    requires Sorted(side, EntryPrice, q) && PricesAgree(q, orders)
    requires e.id in orders && orders[e.id].price == e.price
    ensures PricesAgree(Insert(side, EntryPrice, q, e), orders)
  {
    var r := Insert(side, EntryPrice, q, e);
    forall i | 0 <= i < |r| && r[i].id in orders
      ensures orders[r[i].id].price == r[i].price
    {
      InsertMembers(side, EntryPrice, q, e, r[i]);
    }
  }

  /** One limit order: with an id that no queue holds, the view steps as the reference book does. */
  lemma LimitSimulates(b: QueueBook, side: Side, price: int, qty: int, id: nat)
    requires WellFormed(b) && !QueuedIn(b, id)
    ensures WellFormed(Limit(b, side, price, qty, id))
    ensures Eager.PositiveBook(View(b))
    ensures View(Limit(b, side, price, qty, id)) == Eager.Limit(View(b), side, price, qty, id)
    ensures forall i :: QueuedIn(Limit(b, side, price, qty, id), i) ==> i == id || QueuedIn(b, i)
  {
    LivePositive(b.bids, b.orders);
    LivePositive(b.asks, b.orders);
    var t := SweepOf(b, side, price, qty, id);
    var b1 := AfterSweep(b, side, t);
    SweepKeepsBook(b, side, price, qty, id);
    if t.qty > 0 {
      SweepClears(side, price, id, Sweeping(b.Queue(side.Opposite()), b.orders, qty, b.log, b.skips));
      RestKeepsWellFormed(b1, side, price, t.qty, id);
      RestView(b1, side, price, t.qty, id);
    }
  }

  lemma CancelSimulates(b: QueueBook, id: nat)
    requires Consistent(b)
    ensures Consistent(Cancel(b, id)) && (WellFormed(b) ==> WellFormed(Cancel(b, id)))
    ensures Eager.PositiveBook(View(b))
    ensures View(Cancel(b, id)) == Eager.Cancel(View(b), id)
  {
    LivePositive(b.bids, b.orders);
    LivePositive(b.asks, b.orders);
    LiveWithout(b.bids, b.orders, id);
    LiveWithout(b.asks, b.orders, id);
  }

  // ------------------------------------------------------------ whole streams

  /** No two limit orders carry the same id. Cancels may name any id at all. */
  ghost predicate FreshIds(ops: seq<Op>) {
    forall i, j :: 0 <= i < j < |ops| && ops[i].LimitOp? && ops[j].LimitOp? ==> ops[i].id != ops[j].id
  }

  ghost predicate Submitted(ops: seq<Op>, id: nat) {
    exists i :: 0 <= i < |ops| && ops[i].LimitOp? && ops[i].id == id
  }

  /**
   * For every stream with fresh ids, and so after each of its operations, the lazy book shows the
   * live orders and the trades of the book that deletes at once.
   */
  lemma {:induction false} LazyIsEager(ops: seq<Op>)
    requires FreshIds(ops)
    ensures WellFormed(Run(ops))
    ensures View(Run(ops)) == Eager.Run(ops)
    ensures forall id :: QueuedIn(Run(ops), id) ==> Submitted(ops, id)
  {
    if ops != [] {
      var prefix, op := ops[..|ops| - 1], ops[|ops| - 1];
      var b := Run(prefix);
      LazyIsEager(prefix);
      forall id | Submitted(prefix, id)
        ensures Submitted(ops, id)
      {
        var i :| 0 <= i < |prefix| && prefix[i].LimitOp? && prefix[i].id == id;
        assert ops[i] == prefix[i];
      }
      match op
      case LimitOp(side, price, qty, id) =>
        assert ops[|ops| - 1].LimitOp?;
        LimitSimulates(b, side, price, qty, id);
      case CancelOp(id) =>
        CancelSimulates(b, id);
        assert forall i :: QueuedIn(Run(ops), i) <==> QueuedIn(b, i);
    }
  }
}
