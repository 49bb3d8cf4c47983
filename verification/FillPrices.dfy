/** What a fill owes the taker and the orders that rest, in prices alone. */
module FillPrices {
  import opened Orders
  import opened LazyBook
  import Replacing = ReplacingBook
  import Eager = EagerBook
  import IdReuse

  /** A bid never pays more than its limit, an ask never gets less. */
  predicate Affordable(taker: Side, limit: int, price: int) {
    match taker
    case Bid => price <= limit
    case Ask => price >= limit
  }

  /** The taker is no worse off at `p` than at `q`. */
  predicate NoWorse(taker: Side, p: int, q: int) {
    match taker
    case Bid => p <= q
    case Ask => p >= q
  }

  /** An order only adds fills, its own ones, and each within its limit. */
  ghost predicate WithinLimit(taker: Side, limit: int, id: nat, before: seq<Trade>, after: seq<Trade>) {
    && before <= after
    && forall k :: |before| <= k < |after| ==>
         after[k].taker == id && after[k].qty > 0 && Affordable(taker, limit, after[k].price)
  }

  /** The fills after the first `n` go from the best price on, and none is worse than a price that is left. */
  ghost predicate BestFirst(taker: Side, n: nat, log: seq<Trade>, left: seq<int>) {
    && (forall k, l :: n <= k < l < |log| ==> NoWorse(taker, log[k].price, log[l].price))
    && (forall k, i :: n <= k < |log| && 0 <= i < |left| ==> NoWorse(taker, log[k].price, left[i]))
  }

  ghost predicate NoneAffordable(taker: Side, limit: int, left: seq<int>) {
    forall i :: 0 <= i < |left| ==> !Affordable(taker, limit, left[i])
  }

  /** From here on prices only get worse for the taker. */
  ghost predicate Worsening(taker: Side, prices: seq<int>) {
    forall i, j :: 0 <= i < j < |prices| ==> NoWorse(taker, prices[i], prices[j])
  }

  function PricesOf<T>(price: T -> int, s: seq<T>): (p: seq<int>)
    ensures |p| == |s| && forall i :: 0 <= i < |p| ==> p[i] == price(s[i])
  {
    seq(|s|, i requires 0 <= i < |s| => price(s[i]))
  }

  lemma OneMoreFirst(taker: Side, n: nat, log: seq<Trade>, left: seq<int>)
    requires n < |log| && BestFirst(taker, n + 1, log, left)
    requires forall k :: n < k < |log| ==> NoWorse(taker, log[n].price, log[k].price)
    requires forall i :: 0 <= i < |left| ==> NoWorse(taker, log[n].price, left[i])
    ensures BestFirst(taker, n, log, left)
  {
  }

  // ------------------------------------------------------------ the lazy book

  lemma {:induction false} SweepWithinLimit(taker: Side, limit: int, id: nat, t: Sweeping)
    requires Positive(t.orders)
    ensures WithinLimit(taker, limit, id, t.log, Sweep(taker, limit, id, t).log)
    decreases |t.queue|, if t.qty > 0 then t.qty else 0
  {
    if !Stops(taker, limit, t) {
      SweepWithinLimit(taker, limit, id, HeadStep(id, t));
    }
  }

  lemma LimitWithinLimit(b: QueueBook, side: Side, price: int, qty: int, id: nat)
    requires Positive(b.orders)
    ensures WithinLimit(side, price, id, b.log, Limit(b, side, price, qty, id).log)
    ensures WithinLimit(side, price, id, b.log, Replacing.Limit(b, side, price, qty, id).log)
  {
    SweepWithinLimit(side, price, id, Sweeping(b.Queue(side.Opposite()), b.orders, qty, b.log, b.skips));
  }

  /** The fills take the queue's prices in turn, starting no better than its head. */
  lemma {:induction false} SweepBestFirst(taker: Side, limit: int, id: nat, t: Sweeping)
    requires Positive(t.orders) && Worsening(taker, PricesOf(EntryPrice, t.queue))
    ensures var r := Sweep(taker, limit, id, t);
            && t.log <= r.log && BestFirst(taker, |t.log|, r.log, PricesOf(EntryPrice, r.queue))
            && (forall k :: |t.log| <= k < |r.log| ==>
                  t.queue != [] && NoWorse(taker, t.queue[0].price, r.log[k].price))
            && (r.qty > 0 ==> NoneAffordable(taker, limit, PricesOf(EntryPrice, r.queue)))
    decreases |t.queue|, if t.qty > 0 then t.qty else 0
  {
    var p := PricesOf(EntryPrice, t.queue);
    if Stops(taker, limit, t) {
      if t.qty > 0 && t.queue != [] {
        forall i | 0 <= i < |p|
          ensures !Affordable(taker, limit, p[i])
        {
          assert i > 0 ==> NoWorse(taker, p[0], p[i]);
        }
      }
    } else {
      var n := HeadStep(id, t);
      TailWorsens(taker, t.queue, n.queue);
      SweepBestFirst(taker, limit, id, n);
      SweptSuffix(taker, limit, id, t);
    }
  }

  lemma TailWorsens(taker: Side, q: seq<Entry>, r: seq<Entry>)
    requires q != [] && (r == q || r == q[1..]) && Worsening(taker, PricesOf(EntryPrice, q))
    ensures Worsening(taker, PricesOf(EntryPrice, r))
    ensures r != [] ==> NoWorse(taker, q[0].price, r[0].price)
  {
    var p, s := PricesOf(EntryPrice, q), PricesOf(EntryPrice, r);
    var d := if r == q then 0 else 1;
    forall i, j | 0 <= i < j < |s|
      ensures NoWorse(taker, s[i], s[j])
    {
      assert s[i] == p[i + d] && s[j] == p[j + d];
    }
    assert r != [] ==> p[d] == s[0];
  }

  /** Nothing that is left in the queue is better than its head was. */
  lemma SweptSuffix(taker: Side, limit: int, id: nat, t: Sweeping)
    requires Positive(t.orders) && t.queue != [] && Worsening(taker, PricesOf(EntryPrice, t.queue))
    ensures var left := PricesOf(EntryPrice, Sweep(taker, limit, id, t).queue);
            forall i :: 0 <= i < |left| ==> NoWorse(taker, t.queue[0].price, left[i])
  {
    var k := SweepFrame(taker, limit, id, t);
    var p, left := PricesOf(EntryPrice, t.queue), PricesOf(EntryPrice, Sweep(taker, limit, id, t).queue);
    forall i | 0 <= i < |left|
      ensures NoWorse(taker, t.queue[0].price, left[i])
    {
      assert left[i] == p[k + i];
    }
  }

  /** All of this for one limit order; it rests only when no price opposite is one it can afford. */
  ghost predicate FairFills(side: Side, price: int, id: nat, before: QueueBook, after: QueueBook) {
    var left := PricesOf(EntryPrice, after.Queue(side.Opposite()));
    && WithinLimit(side, price, id, before.log, after.log)
    && BestFirst(side, |before.log|, after.log, left)
    && (|after.Queue(side)| > |before.Queue(side)| ==> NoneAffordable(side, price, left))
  }

  lemma SortedWorsens(taker: Side, q: seq<Entry>)
    requires Sorted(taker.Opposite(), EntryPrice, q)
    ensures Worsening(taker, PricesOf(EntryPrice, q))
  {
    forall i, j | 0 <= i < j < |q|
      ensures NoWorse(taker, q[i].price, q[j].price)
    {
      assert AtLeastAsGood(taker.Opposite(), EntryPrice(q[i]), EntryPrice(q[j]));
    }
  }

  /** Either kind of id store, any id, any quantity. */
  lemma LimitIsFair(b: QueueBook, side: Side, price: int, qty: int, id: nat)
    requires Positive(b.orders) && InPriceOrder(b)
    ensures FairFills(side, price, id, b, Limit(b, side, price, qty, id))
    ensures FairFills(side, price, id, b, Replacing.Limit(b, side, price, qty, id))
  {
    var t := Sweeping(b.Queue(side.Opposite()), b.orders, qty, b.log, b.skips);
    SortedWorsens(side, t.queue);
    SweepWithinLimit(side, price, id, t);
    SweepBestFirst(side, price, id, t);
  }

  /** Over every stream: limit orders fill fairly, cancels fill nothing. */
  lemma RunIsFair(ops: seq<Op>, n: nat)
    requires n < |ops|
    ensures var op, b, r := ops[n], Run(ops[..n]), Run(ops[..n + 1]);
            if op.LimitOp? then FairFills(op.side, op.price, op.id, b, r) else r.log == b.log
    ensures var op, b, r := ops[n], Replacing.Run(ops[..n]), Replacing.Run(ops[..n + 1]);
            if op.LimitOp? then FairFills(op.side, op.price, op.id, b, r) else r.log == b.log
  {
    IdReuse.RunNext(ops, n);
    Replacing.RunNext(ops, n);
    RunKeepsOrder(ops[..n]);
    Replacing.RunKeepsOrder(ops[..n]);
    if ops[n].LimitOp? {
      LimitIsFair(Run(ops[..n]), ops[n].side, ops[n].price, ops[n].qty, ops[n].id);
      LimitIsFair(Replacing.Run(ops[..n]), ops[n].side, ops[n].price, ops[n].qty, ops[n].id);
    }
  }

  // ------------------------------------------------------------ the reference book

  ghost predicate FairOrders(side: Side, price: int, id: nat, before: Eager.ListBook, after: Eager.ListBook) {
    var left := PricesOf(OrderPrice, after.Queue(side.Opposite()));
    && WithinLimit(side, price, id, before.log, after.log)
    && BestFirst(side, |before.log|, after.log, left)
    && (|after.Queue(side)| > |before.Queue(side)| ==> NoneAffordable(side, price, left))
  }

  lemma FillKeepsSorted(side: Side, id: nat, m: Eager.Matching)
    requires m.resting != [] && Sorted(side, OrderPrice, m.resting)
    ensures Sorted(side, OrderPrice, Eager.FillHead(id, m).resting)
  {
    var s, r := m.resting, Eager.FillHead(id, m).resting;
    var d := |s| - |r|;
    forall i, j | 0 <= i < j < |r|
      ensures AtLeastAsGood(side, OrderPrice(r[i]), OrderPrice(r[j]))
    {
      assert r[i].price == s[i + d].price && r[j].price == s[j + d].price;
      assert AtLeastAsGood(side, OrderPrice(s[i + d]), OrderPrice(s[j + d]));
    }
  }

  lemma HeadIsBest(taker: Side, s: seq<Order>)
    requires Sorted(taker.Opposite(), OrderPrice, s)
    ensures forall i :: 0 <= i < |s| ==> NoWorse(taker, s[0].price, s[i].price)
  {
    forall i | 0 <= i < |s|
      ensures NoWorse(taker, s[0].price, s[i].price)
    {
      assert i > 0 ==> AtLeastAsGood(taker.Opposite(), OrderPrice(s[0]), OrderPrice(s[i]));
    }
  }

  lemma {:induction false} MatchWithinLimit(taker: Side, limit: int, id: nat, m: Eager.Matching)
    requires Eager.Positive(m.resting)
    ensures WithinLimit(taker, limit, id, m.log, Eager.Match(taker, limit, id, m).log)
    decreases |m.resting|, if m.qty > 0 then m.qty else 0
  {
    if m.qty > 0 && m.resting != [] && Crosses(taker, m.resting[0].price, limit) {
      MatchWithinLimit(taker, limit, id, Eager.FillHead(id, m));
    }
  }

  lemma {:induction false} MatchKeepsSorted(taker: Side, limit: int, id: nat, m: Eager.Matching)
    requires Eager.Positive(m.resting) && Sorted(taker.Opposite(), OrderPrice, m.resting)
    ensures var r := Eager.Match(taker, limit, id, m);
            && Sorted(taker.Opposite(), OrderPrice, r.resting)
            && (r.qty > 0 ==> NoneAffordable(taker, limit, PricesOf(OrderPrice, r.resting)))
            && (forall i :: 0 <= i < |r.resting| ==>
                  m.resting != [] && NoWorse(taker, m.resting[0].price, r.resting[i].price))
    decreases |m.resting|, if m.qty > 0 then m.qty else 0
  {
    HeadIsBest(taker, m.resting);
    if m.qty > 0 && m.resting != [] && Crosses(taker, m.resting[0].price, limit) {
      var n := Eager.FillHead(id, m);
      FillKeepsSorted(taker.Opposite(), id, m);
      assert n.resting != [] ==> NoWorse(taker, m.resting[0].price, n.resting[0].price);
      MatchKeepsSorted(taker, limit, id, n);
    }
  }

  lemma {:induction false} FillsNoBetter(taker: Side, limit: int, id: nat, m: Eager.Matching)
    requires Eager.Positive(m.resting) && Sorted(taker.Opposite(), OrderPrice, m.resting)
    ensures var r := Eager.Match(taker, limit, id, m);
            && m.log <= r.log
            && (forall k :: |m.log| <= k < |r.log| ==>
                  m.resting != [] && NoWorse(taker, m.resting[0].price, r.log[k].price))
    decreases |m.resting|, if m.qty > 0 then m.qty else 0
  {
    HeadIsBest(taker, m.resting);
    if m.qty > 0 && m.resting != [] && Crosses(taker, m.resting[0].price, limit) {
      var n := Eager.FillHead(id, m);
      FillKeepsSorted(taker.Opposite(), id, m);
      assert n.resting != [] ==> NoWorse(taker, m.resting[0].price, n.resting[0].price);
      FillsNoBetter(taker, limit, id, n);
    }
  }

  lemma {:induction false} MatchBestFirst(taker: Side, limit: int, id: nat, m: Eager.Matching)
    requires Eager.Positive(m.resting) && Sorted(taker.Opposite(), OrderPrice, m.resting)
    ensures var r := Eager.Match(taker, limit, id, m);
            BestFirst(taker, |m.log|, r.log, PricesOf(OrderPrice, r.resting))
    decreases |m.resting|, if m.qty > 0 then m.qty else 0
  {
    MatchWithinLimit(taker, limit, id, m);
    if m.qty > 0 && m.resting != [] && Crosses(taker, m.resting[0].price, limit) {
      var n := Eager.FillHead(id, m);
      FillKeepsSorted(taker.Opposite(), id, m);
      FillsNoBetter(taker, limit, id, m);
      FillsNoBetter(taker, limit, id, n);
      MatchKeepsSorted(taker, limit, id, m);
      MatchBestFirst(taker, limit, id, n);
      var r := Eager.Match(taker, limit, id, n);
      assert r.log[|m.log|].price == m.resting[0].price;
      OneMoreFirst(taker, |m.log|, r.log, PricesOf(OrderPrice, r.resting));
    }
  }

  lemma {:induction false} WithoutSorted(side: Side, s: seq<Order>, id: nat)
    requires Sorted(side, OrderPrice, s)
    ensures Sorted(side, OrderPrice, Eager.Without(s, id))
  {
    if s != [] {
      var t := s[1..];
      forall i, j | 0 <= i < j < |t|
        ensures AtLeastAsGood(side, OrderPrice(t[i]), OrderPrice(t[j]))
      {
        assert AtLeastAsGood(side, OrderPrice(s[i + 1]), OrderPrice(s[j + 1]));
      }
      WithoutSorted(side, t, id);
      forall o | o in t
        ensures AtLeastAsGood(side, OrderPrice(s[0]), OrderPrice(o))
      {
        var i :| 0 <= i < |t| && t[i] == o;
        assert AtLeastAsGood(side, OrderPrice(s[0]), OrderPrice(s[i + 1]));
      }
    }
  }

  ghost predicate SortedBook(b: Eager.ListBook) {
    Sorted(Bid, OrderPrice, b.bids) && Sorted(Ask, OrderPrice, b.asks)
  }

  lemma ReferenceIsFair(b: Eager.ListBook, side: Side, price: int, qty: int, id: nat)
    requires Eager.PositiveBook(b) && SortedBook(b)
    ensures var r := Eager.Limit(b, side, price, qty, id);
            FairOrders(side, price, id, b, r) && SortedBook(r)
  {
    var m := Eager.Matching(b.Queue(side.Opposite()), qty, b.log);
    var n := Eager.Match(side, price, id, m);
    MatchWithinLimit(side, price, id, m);
    MatchKeepsSorted(side, price, id, m);
    MatchBestFirst(side, price, id, m);
    InsertSorted(side, OrderPrice, b.Queue(side), Order(id, price, n.qty));
  }

  lemma {:induction false} ReferenceRunSorted(ops: seq<Op>)
    ensures SortedBook(Eager.Run(ops))
  {
    if ops != [] {
      var b, op := Eager.Run(ops[..|ops| - 1]), ops[|ops| - 1];
      ReferenceRunSorted(ops[..|ops| - 1]);
      match op
      case LimitOp(side, price, qty, id) => ReferenceIsFair(b, side, price, qty, id);
      case CancelOp(id) =>
        WithoutSorted(Bid, b.bids, id);
        WithoutSorted(Ask, b.asks, id);
    }
  }

  /** The same over every stream for the book that deletes at once. */
  lemma ReferenceRunIsFair(ops: seq<Op>, n: nat)
    requires n < |ops|
    ensures var op, b, r := ops[n], Eager.Run(ops[..n]), Eager.Run(ops[..n + 1]);
            if op.LimitOp? then FairOrders(op.side, op.price, op.id, b, r) else r.log == b.log
  {
    IdReuse.RunNext(ops, n);
    ReferenceRunSorted(ops[..n]);
    if ops[n].LimitOp? {
      ReferenceIsFair(Eager.Run(ops[..n]), ops[n].side, ops[n].price, ops[n].qty, ops[n].id);
    }
  }
}
