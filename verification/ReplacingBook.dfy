/**
 * The book of the engines that assign to the id store where the others insert: an order that comes to
 * rest under a live id takes over its record.
 */
module ReplacingBook {
  import opened Orders
  import opened LazyBook
  import opened LazyEager
  import opened IdReuse
  import Eager = EagerBook

  function Rest(b: QueueBook, side: Side, price: int, qty: int, id: nat): QueueBook {
    b.WithQueue(side, Insert(side, EntryPrice, b.Queue(side), Entry(id, price)))
    .(orders := b.orders[id := Resting(price, qty)])
  }

  function Limit(b: QueueBook, side: Side, price: int, qty: int, id: nat): (r: QueueBook)
    requires Positive(b.orders)
    ensures Positive(r.orders)
  {
    var t := SweepOf(b, side, price, qty, id);
    var b1 := AfterSweep(b, side, t);
    if t.qty > 0 then Rest(b1, side, price, t.qty, id) else b1
  }

  function Apply(b: QueueBook, op: Op): (r: QueueBook)
    requires Positive(b.orders)
    ensures Positive(r.orders)
  {
    match op
    case LimitOp(side, price, qty, id) => Limit(b, side, price, qty, id)
    case CancelOp(id) => Cancel(b, id)
  }

  function Run(ops: seq<Op>): (r: QueueBook)
    ensures Positive(r.orders)
  {
    if ops == [] then EMPTY else Apply(Run(ops[..|ops| - 1]), ops[|ops| - 1])
  }

  /** The rest of the order would come to rest over a live one. */
  predicate TakesOver(b: QueueBook, op: Op)
    requires Positive(b.orders)
  {
    op.LimitOp? &&
    var t := SweepOf(b, op.side, op.price, op.qty, op.id);
    t.qty > 0 && op.id in t.orders
  }

  /** How many orders of the stream do so. */
  function TakeOvers(ops: seq<Op>): nat {
    if ops == [] then 0
    else TakeOvers(ops[..|ops| - 1]) + (if TakesOver(Run(ops[..|ops| - 1]), ops[|ops| - 1]) then 1 else 0)
  }

  lemma RunNext(ops: seq<Op>, i: nat)
    requires i < |ops|
    ensures Run(ops[..i + 1]) == Apply(Run(ops[..i]), ops[i])
    ensures TakeOvers(ops[..i + 1]) == TakeOvers(ops[..i]) + (if TakesOver(Run(ops[..i]), ops[i]) then 1 else 0)
  {
    assert ops[..i + 1][..i] == ops[..i];
  }

  /** Assigning and inserting part exactly at an order that takes over a record unlike its own. */
  lemma ReplacingExact(b: QueueBook, op: Op)
    requires Positive(b.orders)
    ensures Apply(b, op) == LazyBook.Apply(b, op) <==>
            (TakesOver(b, op) ==>
               var t := SweepOf(b, op.side, op.price, op.qty, op.id);
               t.orders[op.id] == Resting(op.price, t.qty))
  {
    if TakesOver(b, op) {
      var t := SweepOf(b, op.side, op.price, op.qty, op.id);
      var r := Resting(op.price, t.qty);
      assert t.orders[op.id := r][op.id] == r;
      if t.orders[op.id] == r {
        assert t.orders[op.id := r] == t.orders;
      }
    }
  }

  /** A safe order takes over nothing. */
  lemma SafeTakesNothing(b: QueueBook, op: Op)
    requires WellFormed(b) && SafeOp(b, op)
    ensures !TakesOver(b, op)
  {
    if op.LimitOp? {
      DistinctHasNoTwin(op.side, op.price, op.qty, b.Queue(op.side.Opposite()), b.orders);
      Residual(b, op.side, op.price, op.qty, op.id);
      SweepKeepsBook(b, op.side, op.price, op.qty, op.id);
      if SweepOf(b, op.side, op.price, op.qty, op.id).qty > 0 {
        StillQueued(b, op.side, op.price, op.qty, op.id);
      }
    }
  }

  /** On a stream of safe orders the two kinds of engine keep the same book. */
  lemma {:induction false} SafeStreamReplaces(ops: seq<Op>, n: nat)
    requires SafeStream(ops) && n <= |ops|
    ensures Run(ops[..n]) == LazyBook.Run(ops[..n]) && TakeOvers(ops[..n]) == 0
  {
    if n == 0 {
      assert ops[..0] == [];
    } else {
      SafeStreamReplaces(ops, n - 1);
      SafeStreamTracks(ops, n - 1);
      RunNext(ops, n - 1);
      IdReuse.RunNext(ops, n - 1);
      SafeTakesNothing(Run(ops[..n - 1]), ops[n - 1]);
      ReplacingExact(Run(ops[..n - 1]), ops[n - 1]);
    }
  }

  // ------------------------------------------------------------ against the reference book

  /** All live orders under one id show its one record. */
  lemma {:induction false} ShowsRecord(q: seq<Entry>, orders: map<nat, Resting>, k: nat)
    requires k < |Live(q, orders)|
    ensures var o := Live(q, orders)[k]; o.id in orders && orders[o.id] == Resting(o.price, o.qty)
  {
    if q[0].id !in orders {
      ShowsRecord(q[1..], orders, k);
    } else if k > 0 {
      ShowsRecord(q[1..], orders, k - 1);
    }
  }

  /** Once a live id has another record, no view is what it was. */
  lemma RecordShows(q: seq<Entry>, orders: map<nat, Resting>, id: nat, r: Resting, view: seq<Order>, after: seq<Entry>)
    requires id in orders && Queued(q, id) && r != orders[id]
    requires forall o :: o in Live(q, orders) ==> o in view
    ensures Live(after, orders[id := r]) != view
  {
    var i :| 0 <= i < |q| && q[i].id == id;
    var k := LiveHas(q, orders, i);
    var o := Live(q, orders)[k];
    ShowsRecord(q, orders, k);
    assert o in Live(q, orders);
    var shown := Live(after, orders[id := r]);
    if j: nat :| j < |shown| && shown[j] == o {
      ShowsRecord(after, orders[id := r], j);
    }
  }

  lemma TakingOverParts(b: QueueBook, side: Side, price: int, qty: int, id: nat)
    requires Consistent(b) && !MeetsTwin(b, side, price, qty) && Eager.PositiveBook(View(b))
    requires var t := SweepOf(b, side, price, qty, id);
             t.qty > 0 && id in t.orders && t.orders[id] != Resting(price, t.qty)
    ensures View(Limit(b, side, price, qty, id)) != Eager.Limit(View(b), side, price, qty, id)
    ensures !Agrees(b, side, price, qty, id)
  {
    var t, own := SweepOf(b, side, price, qty, id), b.Queue(side);
    var r, live := Resting(price, t.qty), Live(own, b.orders);
    SweepKeepsConsistent(b, side, price, qty, id);
    SweepAgrees(b, side, price, qty, id);
    Residual(b, side, price, qty, id);
    StillQueued(b, side, price, qty, id);
    RepeatIsTwin(b, side, price, qty, id);
    if Queued(own, id) {
      forall o | o in live
        ensures o in Insert(side, OrderPrice, live, Order(id, price, t.qty))
      {
        InsertMembers(side, OrderPrice, live, Order(id, price, t.qty), o);
      }
      RecordShows(own, t.orders, id, r, Insert(side, OrderPrice, live, Order(id, price, t.qty)),
                  Insert(side, EntryPrice, own, Entry(id, price)));
    } else {
      RecordShows(t.queue, t.orders, id, r, Live(t.queue, t.orders), t.queue);
    }
  }

  /** The condition for an engine that assigns is the condition for one that inserts. */
  lemma ReuseExact(b: QueueBook, side: Side, price: int, qty: int, id: nat)
    requires Consistent(b)
    ensures Eager.PositiveBook(View(b))
    ensures View(Limit(b, side, price, qty, id)) == Eager.Limit(View(b), side, price, qty, id) <==>
            Agrees(b, side, price, qty, id)
  {
    IdReuse.ReuseExact(b, side, price, qty, id);
    var t := SweepOf(b, side, price, qty, id);
    if MeetsTwin(b, side, price, qty) {
      MeetingPartsSide(b, side, price, qty, id, Limit(b, side, price, qty, id).orders);
    } else if t.qty > 0 && id in t.orders && t.orders[id] != Resting(price, t.qty) {
      TakingOverParts(b, side, price, qty, id);
    } else {
      ReplacingExact(b, LimitOp(side, price, qty, id));
    }
  }

  /** While the books agree, assigning and inserting come to the same. */
  lemma AgreesReplaces(b: QueueBook, op: Op)
    requires Consistent(b) && AgreesOp(b, op)
    ensures Apply(b, op) == LazyBook.Apply(b, op)
  {
    if op.LimitOp? {
      var t := SweepOf(b, op.side, op.price, op.qty, op.id);
      IdReuse.ReuseExact(b, op.side, op.price, op.qty, op.id);
      if t.qty > 0 && op.id in t.orders && t.orders[op.id] != Resting(op.price, t.qty) {
        TakingOverParts(b, op.side, op.price, op.qty, op.id);
      }
      ReplacingExact(b, op);
    }
  }

  lemma {:induction false} AgreeingReplaces(ops: seq<Op>, n: nat)
    requires n <= |ops| && AgreesUpTo(ops, n)
    ensures Run(ops[..n]) == LazyBook.Run(ops[..n])
  {
    if n == 0 {
      assert ops[..0] == [];
    } else {
      AgreesNext(ops, n - 1);
      AgreeingReplaces(ops, n - 1);
      AgreeingShows(ops, n - 1);
      RunNext(ops, n - 1);
      IdReuse.RunNext(ops, n - 1);
      AgreesReplaces(Run(ops[..n - 1]), ops[n - 1]);
    }
  }

  lemma StepShows(ops: seq<Op>, n: nat)
    requires n < |ops| && Consistent(Run(ops[..n])) && View(Run(ops[..n])) == Eager.Run(ops[..n])
    ensures View(Run(ops[..n + 1])) == Eager.Run(ops[..n + 1]) <==> AgreesOp(Run(ops[..n]), ops[n])
  {
    var b := Run(ops[..n]);
    RunNext(ops, n);
    IdReuse.RunNext(ops, n);
    match ops[n]
    case LimitOp(side, price, qty, id) => ReuseExact(b, side, price, qty, id);
    case CancelOp(id) => CancelSimulates(b, id);
  }

  ghost predicate ShowsAt(ops: seq<Op>, k: nat)
    requires k <= |ops|
  {
    View(Run(ops[..k])) == Eager.Run(ops[..k])
  }

  ghost predicate ShowsUpTo(ops: seq<Op>, n: nat)
    requires n <= |ops|
  {
    forall k :: 0 <= k <= n ==> ShowsAt(ops, k)
  }

  lemma ShowsNext(ops: seq<Op>, n: nat)
    requires n < |ops|
    ensures ShowsUpTo(ops, n + 1) <==> ShowsUpTo(ops, n) && ShowsAt(ops, n + 1)
  {
  }

  lemma StreamStep(ops: seq<Op>, n: nat)
    requires n < |ops| && AgreesUpTo(ops, n)
    ensures ShowsAt(ops, n + 1) <==> AgreesAt(ops, n)
  {
    AgreeingReplaces(ops, n);
    AgreeingShows(ops, n);
    StepShows(ops, n);
  }

  /** Over any stream, these engines, too, show the reference book throughout under that very condition. */
  lemma {:induction false} StreamExact(ops: seq<Op>, n: nat)
    requires n <= |ops|
    ensures AgreesUpTo(ops, n) <==> ShowsUpTo(ops, n)
  {
    if n == 0 {
      assert ops[..0] == [];
    } else {
      StreamExact(ops, n - 1);
      AgreesNext(ops, n - 1);
      ShowsNext(ops, n - 1);
      if AgreesUpTo(ops, n - 1) {
        StreamStep(ops, n - 1);
      }
    }
  }

  // ------------------------------------------------------------ price order, for any stream at all

  /** Taking over a record moves no queue: these books do not cross either. */
  lemma {:induction false} RunKeepsOrder(ops: seq<Op>)
    ensures InPriceOrder(Run(ops))
  {
    if ops != [] {
      var b, op := Run(ops[..|ops| - 1]), ops[|ops| - 1];
      RunKeepsOrder(ops[..|ops| - 1]);
      if op.LimitOp? {
        LimitKeepsOrder(b, op.side, op.price, op.qty, op.id);
      }
    }
  }
}
