/** What is conserved, and what matching costs, over whole runs of the lazy book. */
module Ledger {
  import opened Orders
  import opened LazyBook
  import opened LazyEager
  import opened IdReuse
  import opened Reports
  import opened Words
  import Eager = EagerBook
  import Replacing = ReplacingBook

  // ------------------------------------------------------------ the books of account

  function SubmittedQty(ops: seq<Op>): int {
    if ops == [] then 0
    else
      var op := ops[|ops| - 1];
      SubmittedQty(ops[..|ops| - 1]) + (if op.LimitOp? && op.qty > 0 then op.qty else 0)
  }

  /** Quantity that cancels removed from the id store. */
  function CancelledQty(ops: seq<Op>): int {
    if ops == [] then 0
    else
      var op, orders := ops[|ops| - 1], Run(ops[..|ops| - 1]).orders;
      CancelledQty(ops[..|ops| - 1]) + (if op.CancelOp? && op.id in orders then orders[op.id].qty else 0)
  }

  /** Cancels that hit a live order. */
  function CancelledCount(ops: seq<Op>): nat {
    if ops == [] then 0
    else
      var op, orders := ops[|ops| - 1], Run(ops[..|ops| - 1]).orders;
      CancelledCount(ops[..|ops| - 1]) + (if op.CancelOp? && op.id in orders then 1 else 0)
  }

  /** Limit orders that came to rest. */
  function RestedCount(ops: seq<Op>): nat {
    if ops == [] then 0
    else
      var op, b := ops[|ops| - 1], Run(ops[..|ops| - 1]);
      RestedCount(ops[..|ops| - 1]) +
      (if op.LimitOp? && SweepOf(b, op.side, op.price, op.qty, op.id).qty > 0 then 1 else 0)
  }

  /** Fills that left nothing of the maker. */
  function ClosedCount(log: seq<Trade>): nat {
    if log == [] then 0
    else ClosedCount(log[..|log| - 1]) + (if log[|log| - 1].left == 0 then 1 else 0)
  }

  function LiveQty(b: QueueBook): int {
    TotalQty(Live(b.bids, b.orders)) + TotalQty(Live(b.asks, b.orders))
  }

  function LiveCount(b: QueueBook): nat {
    |Live(b.bids, b.orders)| + |Live(b.asks, b.orders)|
  }

  // ------------------------------------------------------------ matching conserves

  lemma LogAppend(log: seq<Trade>, t: Trade)
    ensures TradedQty(log + [t]) == TradedQty(log) + t.qty
    ensures ClosedCount(log + [t]) == ClosedCount(log) + (if t.left == 0 then 1 else 0)
  {
    assert (log + [t])[..|log|] == log;
  }

  /** What the taker loses the makers lose, and both are logged once. */
  lemma {:induction false} MatchConserves(taker: Side, limit: int, id: nat, m: Eager.Matching)
    requires Eager.Positive(m.resting)
    ensures var r := Eager.Match(taker, limit, id, m);
            && m.qty - r.qty == TradedQty(r.log) - TradedQty(m.log)
            && TotalQty(m.resting) - TotalQty(r.resting) == TradedQty(r.log) - TradedQty(m.log)
            && |m.resting| - |r.resting| == ClosedCount(r.log) - ClosedCount(m.log)
            && (m.qty >= 0 ==> r.qty >= 0) && (m.qty <= 0 ==> r == m)
    decreases |m.resting|, if m.qty > 0 then m.qty else 0
  {
    if !(m.qty <= 0 || m.resting == [] || !Crosses(taker, m.resting[0].price, limit)) {
      var n, h := Eager.FillHead(id, m), m.resting[0];
      var q := Min(m.qty, h.qty);
      LogAppend(m.log, Trade(id, h.id, h.price, q, h.qty - q));
      MatchConserves(taker, limit, id, n);
    }
  }

  lemma {:induction false} InsertTotal(side: Side, s: seq<Order>, o: Order)
    ensures TotalQty(Insert(side, OrderPrice, s, o)) == TotalQty(s) + o.qty
  {
    if s != [] && AtLeastAsGood(side, s[0].price, o.price) {
      InsertTotal(side, s[1..], o);
    }
  }

  lemma {:induction false} CancelTotal(q: seq<Entry>, orders: map<nat, Resting>, id: nat)
    requires DistinctIds(q)
    ensures var hit := Queued(q, id) && id in orders;
            && TotalQty(Live(q, orders)) ==
               TotalQty(Live(q, orders - {id})) + (if hit then orders[id].qty else 0)
            && |Live(q, orders)| == |Live(q, orders - {id})| + (if hit then 1 else 0)
  {
    if q != [] {
      var e, t := q[0], q[1..];
      CancelTotal(t, orders, id);
      if Queued(t, id) {
        var i :| 0 <= i < |t| && t[i].id == id;
        assert q[i + 1].id == id;
      } else if Queued(q, id) {
        var i :| 0 <= i < |q| && q[i].id == id;
        assert i > 0 ==> t[i - 1].id == id;
      }
    }
  }

  // ------------------------------------------------------------ conservation over every run

  lemma LimitConserves(b: QueueBook, side: Side, price: int, qty: int, id: nat)
    requires WellFormed(b) && Safe(b, side, price, qty, id)
    ensures var r := Limit(b, side, price, qty, id);
            && LiveQty(r) + 2 * TradedQty(r.log) ==
               LiveQty(b) + 2 * TradedQty(b.log) + (if qty > 0 then qty else 0)
            && LiveCount(r) + ClosedCount(r.log) ==
               LiveCount(b) + ClosedCount(b.log) + (if SweepOf(b, side, price, qty, id).qty > 0 then 1 else 0)
  {
    ReuseExact(b, side, price, qty, id);
    WellFormedAgrees(b, side, price, qty, id);
    SweepKeepsBook(b, side, price, qty, id);
    var v := View(b);
    var opp := v.Queue(side.Opposite());
    MatchConserves(side, price, id, Eager.Matching(opp, qty, v.log));
    var m := Eager.Match(side, price, id, Eager.Matching(opp, qty, v.log));
    InsertTotal(side, v.Queue(side), Order(id, price, m.qty));
  }

  lemma CancelConserves(b: QueueBook, id: nat)
    requires WellFormed(b)
    ensures var r, hit := Cancel(b, id), id in b.orders;
            && LiveQty(b) == LiveQty(r) + (if hit then b.orders[id].qty else 0)
            && LiveCount(b) == LiveCount(r) + (if hit then 1 else 0)
  {
    CancelTotal(b.bids, b.orders, id);
    CancelTotal(b.asks, b.orders, id);
  }

  /**
   * Every unit submitted is traded (once as taker, once as maker), still resting, or cancelled;
   * every order that ever rested is live, was cancelled while live, or was filled out.
   */
  lemma {:induction false} Conservation(ops: seq<Op>)
    requires SafeStream(ops)
    ensures SubmittedQty(ops) == 2 * TradedQty(Run(ops).log) + LiveQty(Run(ops)) + CancelledQty(ops)
    ensures RestedCount(ops) == LiveCount(Run(ops)) + CancelledCount(ops) + ClosedCount(Run(ops).log)
  {
    if ops != [] {
      var prefix, op := ops[..|ops| - 1], ops[|ops| - 1];
      var b := Run(prefix);
      SafePrefix(ops);
      Conservation(prefix);
      match op
      case LimitOp(side, price, qty, id) =>
        LimitConserves(b, side, price, qty, id);
      case CancelOp(id) =>
        CancelConserves(b, id);
    }
  }

  lemma SafePrefix(ops: seq<Op>)
    requires SafeStream(ops) && ops != []
    ensures SafeStream(ops[..|ops| - 1]) && Tracks(ops[..|ops| - 1])
    ensures SafeOp(Run(ops[..|ops| - 1]), ops[|ops| - 1])
  {
    var prefix := ops[..|ops| - 1];
    SafeStreamTracks(ops, |prefix|);
    forall i | 0 <= i < |prefix|
      ensures SafeOp(Run(prefix[..i]), prefix[i])
    {
      assert SafeOp(Run(ops[..i]), ops[i]);
      assert prefix[..i] == ops[..i] && prefix[i] == ops[i];
    }
  }

  // ------------------------------------------------------------ the cost of matching

  function Submission(op: Op): nat {
    if op.LimitOp? && op.qty > 0 then 1 else 0
  }

  function PositiveLimits(ops: seq<Op>): nat {
    if ops == [] then 0
    else PositiveLimits(ops[..|ops| - 1]) + Submission(ops[|ops| - 1])
  }

  /** Turns of the inner loop taken so far, plus everything still queued, dead or alive. */
  function Potential(b: QueueBook): nat {
    |b.log| + b.skips + |b.bids| + |b.asks|
  }

  /** Only the last fill of an order that is used up can leave its maker in the queue. */
  lemma {:induction false} SweepPotential(taker: Side, limit: int, id: nat, t: Sweeping)
    requires Positive(t.orders)
    ensures var r := Sweep(taker, limit, id, t);
            |r.log| + r.skips + |r.queue| <= |t.log| + t.skips + |t.queue| + (if t.qty > 0 && r.qty <= 0 then 1 else 0)
    decreases |t.queue|, if t.qty > 0 then t.qty else 0
  {
    if !Stops(taker, limit, t) {
      SweepPotential(taker, limit, id, HeadStep(id, t));
    }
  }

  lemma ApplyCost(b: QueueBook, op: Op)
    requires Positive(b.orders)
    ensures Potential(Apply(b, op)) <= Potential(b) + Submission(op)
    ensures Potential(Replacing.Apply(b, op)) == Potential(Apply(b, op))
  {
    match op
    case LimitOp(side, price, qty, id) =>
      SweepPotential(side, price, id, Sweeping(b.Queue(side.Opposite()), b.orders, qty, b.log, b.skips));
      if qty <= 0 {
        SweepUntouched(b, side, price, qty, id);
      }
    case CancelOp(id) =>
  }

  /**
   * Over any run, with fresh ids or not: fills, tombstones stepped over and ids still queued
   * together never exceed the number of limit orders submitted, whether the id store inserts or
   * assigns.
   */
  lemma {:induction false} AmortisedCost(ops: seq<Op>)
    ensures Potential(Run(ops)) <= PositiveLimits(ops)
    ensures Potential(Replacing.Run(ops)) <= PositiveLimits(ops)
  {
    if ops != [] {
      var prefix, op := ops[..|ops| - 1], ops[|ops| - 1];
      AmortisedCost(prefix);
      ApplyCost(Run(prefix), op);
      ApplyCost(Replacing.Run(prefix), op);
    }
  }

  lemma SweepUntouched(b: QueueBook, side: Side, price: int, qty: int, id: nat)
    requires Positive(b.orders) && qty <= 0
    ensures Limit(b, side, price, qty, id) == b
  {
  }

  // ------------------------------------------------------------ the printed numbers

  lemma {:induction false} ClosedAreFills(log: seq<Trade>)
    ensures ClosedCount(log) <= |log|
  {
    if log != [] {
      ClosedAreFills(log[..|log| - 1]);
    }
  }

  lemma SmallWord(n: nat)
    requires n < WORD
    ensures ToWord(n) == n
  {
  }

  /**
   * What the report says of a stream of safe orders: the volume is half of what was submitted and is not
   * at rest or cancelled, since each unit traded was submitted twice; every order that ever rested is in
   * the resting count, cancelled or filled out; and there are no fewer fills than orders filled out, no
   * more than limit orders.
   */
  lemma ReportBalances(ops: seq<Op>) returns (traded: int)
    requires SafeStream(ops)
    ensures SubmittedQty(ops) == 2 * traded + LiveQty(Run(ops)) + CancelledQty(ops)
    ensures var r := ReportOf(Run(ops));
            && r.volume == ToWord(traded)
            && r.resting + CancelledCount(ops) + ClosedCount(Run(ops).log) == RestedCount(ops)
            && (PositiveLimits(ops) < WORD ==> ClosedCount(Run(ops).log) <= r.fills <= PositiveLimits(ops))
  {
    var b := Run(ops);
    traded := TradedQty(b.log);
    Conservation(ops);
    SafeStreamTracks(ops, |ops|);
    assert ops[..|ops|] == ops;
    RestingIsLive(b);
    ClosedAreFills(b.log);
    AmortisedCost(ops);
    if PositiveLimits(ops) < WORD {
      SmallWord(|b.log|);
    }
  }
}
