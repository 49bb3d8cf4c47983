/**
 * Where an engine whose id store inserts and one whose id store assigns part, told from the book
 * before the operation: for one operation, and for whole streams.
 */
module TakeOver {
  import opened Orders
  import opened LazyBook
  import Replacing = ReplacingBook
  import IdReuse

  // ------------------------------------------------------------ what a caller can check beforehand

  /** The ids at the front of a queue that a taker may trade with, dead or alive. */
  function CrossIds(taker: Side, limit: int, q: seq<Entry>): set<nat> {
    if q == [] || !Crosses(taker, q[0].price, limit) then {}
    else {q[0].id} + CrossIds(taker, limit, q[1..])
  }

  /** What their records offer, each record once. */
  function Reach(taker: Side, limit: int, q: seq<Entry>, orders: map<nat, Resting>): int {
    if q == [] || !Crosses(taker, q[0].price, limit) then 0
    else if q[0].id !in orders then Reach(taker, limit, q[1..], orders)
    else orders[q[0].id].qty + Reach(taker, limit, q[1..], orders - {q[0].id})
  }

  function ReachOf(b: QueueBook, op: Op): int
    requires op.LimitOp?
  {
    Reach(op.side, op.price, b.Queue(op.side.Opposite()), b.orders)
  }

  /** The rest of the order comes to rest under a live id that matching leaves alone. */
  predicate Overtakes(b: QueueBook, op: Op) {
    && op.LimitOp? && op.id in b.orders
    && op.id !in CrossIds(op.side, op.price, b.Queue(op.side.Opposite()))
    && op.qty > ReachOf(b, op)
  }

  /** And that id has another record than the rest would get. */
  predicate Splits(b: QueueBook, op: Op) {
    Overtakes(b, op) && b.orders[op.id] != Resting(op.price, op.qty - ReachOf(b, op))
  }

  // ------------------------------------------------------------ one operation

  lemma {:induction false} ReachNonNegative(taker: Side, limit: int, q: seq<Entry>, orders: map<nat, Resting>)
    requires Positive(orders)
    ensures Reach(taker, limit, q, orders) >= 0
  {
    if q != [] {
      ReachNonNegative(taker, limit, q[1..], orders);
      ReachNonNegative(taker, limit, q[1..], orders - {q[0].id});
    }
  }

  /** A sweep leaves a rest exactly when it is asked for more than its reach; then it uses up all it reaches. */
  lemma {:induction false} SweepReach(taker: Side, limit: int, id: nat, t: Sweeping)
    requires Positive(t.orders)
    ensures var r, reach := Sweep(taker, limit, id, t), Reach(taker, limit, t.queue, t.orders);
            && (r.qty > 0 <==> t.qty > reach)
            && (r.qty > 0 ==> r.qty == t.qty - reach)
            && (r.qty > 0 ==> forall x :: x in r.orders <==> x in t.orders && x !in CrossIds(taker, limit, t.queue))
            && (forall x :: r.qty > 0 && x in r.orders ==> r.orders[x] == t.orders[x])
    decreases |t.queue|, if t.qty > 0 then t.qty else 0
  {
    ReachNonNegative(taker, limit, t.queue, t.orders);
    if !Stops(taker, limit, t) {
      var n, e := HeadStep(id, t), t.queue[0];
      SweepReach(taker, limit, id, n);
      if e.id in t.orders {
        ReachNonNegative(taker, limit, t.queue[1..], t.orders - {e.id});
      }
    }
  }

  lemma OvertakesExact(b: QueueBook, op: Op)
    requires Positive(b.orders)
    ensures Replacing.TakesOver(b, op) <==> Overtakes(b, op)
  {
    if op.LimitOp? {
      SweepReach(op.side, op.price, op.id, Sweeping(b.Queue(op.side.Opposite()), b.orders, op.qty, b.log, b.skips));
    }
  }

  /** On any book the two stores end up different exactly when the operation splits them. */
  lemma SplitsExact(b: QueueBook, op: Op)
    requires Positive(b.orders)
    ensures Replacing.Apply(b, op) != Apply(b, op) <==> Splits(b, op)
  {
    OvertakesExact(b, op);
    Replacing.ReplacingExact(b, op);
    if op.LimitOp? {
      SweepReach(op.side, op.price, op.id, Sweeping(b.Queue(op.side.Opposite()), b.orders, op.qty, b.log, b.skips));
    }
  }

  // ------------------------------------------------------------ whole streams

  ghost predicate SameAt(ops: seq<Op>, k: nat)
    requires k <= |ops|
  {
    Replacing.Run(ops[..k]) == Run(ops[..k])
  }

  ghost predicate SameUpTo(ops: seq<Op>, n: nat)
    requires n <= |ops|
  {
    forall k :: 0 <= k <= n ==> SameAt(ops, k)
  }

  ghost predicate SplitsAt(ops: seq<Op>, i: nat)
    requires i < |ops|
  {
    Splits(Run(ops[..i]), ops[i])
  }

  ghost predicate OvertakesAt(ops: seq<Op>, i: nat)
    requires i < |ops|
  {
    Overtakes(Run(ops[..i]), ops[i])
  }

  lemma SameNext(ops: seq<Op>, n: nat)
    requires n < |ops| && SameAt(ops, n)
    ensures SameAt(ops, n + 1) <==> !SplitsAt(ops, n)
  {
    Replacing.RunNext(ops, n);
    IdReuse.RunNext(ops, n);
    SplitsExact(Run(ops[..n]), ops[n]);
  }

  /** Over any stream, both stores keep the same book after each operation just if no operation splits them. */
  lemma {:induction false} StreamSplitsExact(ops: seq<Op>, n: nat)
    requires n <= |ops|
    ensures SameUpTo(ops, n) <==> forall i :: 0 <= i < n ==> !SplitsAt(ops, i)
  {
    if n == 0 {
      assert ops[..0] == [];
    } else {
      StreamSplitsExact(ops, n - 1);
      if SameUpTo(ops, n - 1) {
        SameNext(ops, n - 1);
      }
    }
  }

  ghost predicate NoneOvertakes(ops: seq<Op>, n: nat)
    requires n <= |ops|
  {
    forall i :: 0 <= i < n ==> !OvertakesAt(ops, i)
  }

  lemma OvertakesNext(ops: seq<Op>, n: nat)
    requires n < |ops|
    ensures Replacing.TakeOvers(ops[..n + 1]) >= Replacing.TakeOvers(ops[..n])
    ensures SameAt(ops, n) ==>
              Replacing.TakeOvers(ops[..n + 1]) ==
              Replacing.TakeOvers(ops[..n]) + (if OvertakesAt(ops, n) then 1 else 0)
    ensures SameAt(ops, n) && !OvertakesAt(ops, n) ==> SameAt(ops, n + 1)
  {
    Replacing.RunNext(ops, n);
    if SameAt(ops, n) {
      OvertakesExact(Run(ops[..n]), ops[n]);
      SameNext(ops, n);
    }
  }

  lemma NoneNext(ops: seq<Op>, n: nat)
    requires n < |ops|
    ensures NoneOvertakes(ops, n + 1) <==> NoneOvertakes(ops, n) && !OvertakesAt(ops, n)
  {
  }

  lemma NoneIsSame(ops: seq<Op>, n: nat)
    requires n <= |ops| && NoneOvertakes(ops, n)
    ensures SameUpTo(ops, n)
  {
    StreamSplitsExact(ops, n);
    forall i | 0 <= i < n
      ensures !SplitsAt(ops, i)
    {
      assert !OvertakesAt(ops, i);
    }
  }

  /**
   * No order is counted twice just if none overtakes a live order, with whatever record; and then the
   * books, too, are the same throughout.
   */
  lemma {:induction false} TakeOversExact(ops: seq<Op>, n: nat)
    requires n <= |ops|
    ensures Replacing.TakeOvers(ops[..n]) == 0 <==> NoneOvertakes(ops, n)
    ensures NoneOvertakes(ops, n) ==> SameUpTo(ops, n)
  {
    if n == 0 {
      assert ops[..0] == [];
    } else {
      TakeOversExact(ops, n - 1);
      NoneNext(ops, n - 1);
      OvertakesNext(ops, n - 1);
    }
    if NoneOvertakes(ops, n) {
      NoneIsSame(ops, n);
    }
  }

  // ------------------------------------------------------------ a stream on which they part

  /**
   * Order 1 rests, and its id is used again at a worse price while it is live. One store keeps the old
   * record and one order, the other has the new record and counts two; the next taker then finds one
   * unit in the one book and five in the other.
   */
  lemma StoresPart() returns (ops: seq<Op>)
    ensures |ops| == 3 && SplitsAt(ops, 1)
    ensures Run(ops[..2]).orders == map[1 := Resting(10, 1)]
    ensures Replacing.Run(ops[..2]).orders == map[1 := Resting(9, 5)] && Replacing.TakeOvers(ops[..2]) == 1
    ensures TradedQty(Run(ops).log) == 1 && TradedQty(Replacing.Run(ops).log) == 5
  {
    ops := [LimitOp(Bid, 10, 1, 1), LimitOp(Bid, 9, 5, 1), LimitOp(Ask, 9, 5, 2)];
    assert ops[..3] == ops;
    FirstTwo(ops);
    IdReuse.RunNext(ops, 2);
    Replacing.RunNext(ops, 2);
    KeptRecordTrades();
    TakenRecordTrades();
  }

  lemma FirstTwo(ops: seq<Op>)
    requires |ops| >= 2 && ops[0] == LimitOp(Bid, 10, 1, 1) && ops[1] == LimitOp(Bid, 9, 5, 1)
    ensures SplitsAt(ops, 1) && Replacing.TakeOvers(ops[..2]) == 1
    ensures Run(ops[..2]) == TwoPlaces(Resting(10, 1)) && Replacing.Run(ops[..2]) == TwoPlaces(Resting(9, 5))
  {
    assert ops[..0] == [];
    IdReuse.RunNext(ops, 0);
    IdReuse.RunNext(ops, 1);
    Replacing.RunNext(ops, 0);
    Replacing.RunNext(ops, 1);
    assert Run(ops[..1]) == Replacing.Run(ops[..1]) == OneBid();
    RestsOver();
  }

  function OneBid(): QueueBook {
    QueueBook([Entry(1, 10)], [], map[1 := Resting(10, 1)], [], 0)
  }

  function TwoPlaces(r: Resting): QueueBook {
    QueueBook([Entry(1, 10), Entry(1, 9)], [], map[1 := r], [], 0)
  }

  lemma RestsOver()
    ensures Splits(OneBid(), LimitOp(Bid, 9, 5, 1))
    ensures Limit(OneBid(), Bid, 9, 5, 1) == TwoPlaces(Resting(10, 1))
    ensures Replacing.Limit(OneBid(), Bid, 9, 5, 1) == TwoPlaces(Resting(9, 5))
  {
    assert Insert(Bid, EntryPrice, [Entry(1, 10)], Entry(1, 9)) == [Entry(1, 10), Entry(1, 9)];
  }

  lemma KeptRecordTrades()
    ensures TradedQty(Limit(TwoPlaces(Resting(10, 1)), Ask, 9, 5, 2).log) == 1
  {
    var b := TwoPlaces(Resting(10, 1));
    var t := Sweeping(b.bids, b.orders, 5, [], 0);
    var n := HeadStep(2, t);
    assert n.queue == [Entry(1, 9)] && n.log == [Trade(2, 1, 10, 1, 0)] && 1 !in n.orders;
    assert HeadStep(2, n).queue == [];
    assert SweepOf(b, Ask, 9, 5, 2) == Sweep(Ask, 9, 2, n) == HeadStep(2, n);
  }

  lemma TakenRecordTrades()
    ensures TradedQty(Replacing.Limit(TwoPlaces(Resting(9, 5)), Ask, 9, 5, 2).log) == 5
  {
    var b := TwoPlaces(Resting(9, 5));
    var t := Sweeping(b.bids, b.orders, 5, [], 0);
    assert HeadStep(2, t).log == [Trade(2, 1, 10, 5, 0)];
    assert SweepOf(b, Ask, 9, 5, 2) == HeadStep(2, t);
  }
}
