/**
 * The book as all the engines keep it: each side is a queue of ids, best price first, and an id
 * store holds the live orders. A cancel only touches the id store, so queues may hold dead ids
 * (tombstones) until matching reaches them.
 */
module LazyBook {
  import opened Orders

  /** `skips` counts the tombstones that matching has stepped over. */
  datatype QueueBook = QueueBook(bids: seq<Entry>, asks: seq<Entry>, orders: map<nat, Resting>,
                                 log: seq<Trade>, skips: nat) {
    function Queue(side: Side): seq<Entry> {
      if side.Bid? then bids else asks
    }

    function WithQueue(side: Side, q: seq<Entry>): QueueBook {
      if side.Bid? then this.(bids := q) else this.(asks := q)
    }
  }

  const EMPTY := QueueBook([], [], map[], [], 0)

  ghost predicate Positive(orders: map<nat, Resting>) {
    forall id :: id in orders ==> orders[id].qty > 0
  }

  /** An incoming order part-way through the opposite queue. */
  datatype Sweeping = Sweeping(queue: seq<Entry>, orders: map<nat, Resting>, qty: int, log: seq<Trade>, skips: nat)

  /** One turn of the matching loop: step over a dead head, or fill against a live one. */
  function HeadStep(id: nat, t: Sweeping): Sweeping
    requires t.queue != []
  {
    var e := t.queue[0];
    if e.id !in t.orders then
      t.(queue := t.queue[1..], skips := t.skips + 1)
    else
      var r := t.orders[e.id];
      var m := Min(t.qty, r.qty);
      var log := t.log + [Trade(id, e.id, e.price, m, r.qty - m)];
      if r.qty == m then
        t.(queue := t.queue[1..], orders := t.orders - {e.id}, qty := t.qty - m, log := log)
      else
        t.(orders := t.orders[e.id := r.(qty := r.qty - m)], qty := t.qty - m, log := log)
  }

  lemma SkipIsHeadStep(id: nat, t: Sweeping, n: Sweeping)
    requires t.queue != [] && t.queue[0].id !in t.orders
    requires t.queue == [t.queue[0]] + n.queue
    requires n.orders == t.orders && n.qty == t.qty && n.log == t.log && n.skips == t.skips + 1
    ensures n == HeadStep(id, t)
  {
  }

  lemma FillIsHeadStep(id: nat, t: Sweeping, n: Sweeping, r: Resting, m: int)
    requires t.queue != [] && t.queue[0].id in t.orders && r == t.orders[t.queue[0].id]
    requires m == Min(t.qty, r.qty) && n.qty == t.qty - m && n.skips == t.skips
    requires n.log == t.log + [Trade(id, t.queue[0].id, t.queue[0].price, m, r.qty - m)]
    requires if r.qty == m then t.queue == [t.queue[0]] + n.queue && n.orders == t.orders - {t.queue[0].id}
             else n.queue == t.queue && n.orders == t.orders[t.queue[0].id := r.(qty := r.qty - m)]
    ensures n == HeadStep(id, t)
  {
  }

  predicate Stops(taker: Side, limit: int, t: Sweeping) {
    t.qty <= 0 || t.queue == [] || !Crosses(taker, t.queue[0].price, limit)
  }

  function Sweep(taker: Side, limit: int, id: nat, t: Sweeping): (r: Sweeping)
    requires Positive(t.orders)
    ensures Positive(r.orders)
    decreases |t.queue|, if t.qty > 0 then t.qty else 0
  {
    if Stops(taker, limit, t) then t else Sweep(taker, limit, id, HeadStep(id, t))
  }

  /** Matching makes progress: a shorter queue, or the same queue and less left to fill. */
  predicate Further(t: Sweeping, n: Sweeping) {
    |n.queue| < |t.queue| || (|n.queue| == |t.queue| && n.qty < t.qty)
  }

  lemma StepFurther(taker: Side, limit: int, id: nat, t: Sweeping)
    requires Positive(t.orders) && !Stops(taker, limit, t)
    ensures Further(t, HeadStep(id, t))
    ensures Sweep(taker, limit, id, t) == Sweep(taker, limit, id, HeadStep(id, t))
  {
  }

  function SweepOf(b: QueueBook, side: Side, price: int, qty: int, id: nat): (r: Sweeping)
    requires Positive(b.orders)
    ensures Positive(r.orders)
  {
    Sweep(side, price, id, Sweeping(b.Queue(side.Opposite()), b.orders, qty, b.log, b.skips))
  }

  function AfterSweep(b: QueueBook, side: Side, t: Sweeping): QueueBook {
    b.WithQueue(side.Opposite(), t.queue).(orders := t.orders, log := t.log, skips := t.skips)
  }

  /** An id that is already live keeps its record: the id store only ever inserts. */
  function Rest(b: QueueBook, side: Side, price: int, qty: int, id: nat): QueueBook {
    b.WithQueue(side, Insert(side, EntryPrice, b.Queue(side), Entry(id, price)))
    .(orders := if id in b.orders then b.orders else b.orders[id := Resting(price, qty)])
  }

  function Limit(b: QueueBook, side: Side, price: int, qty: int, id: nat): (r: QueueBook)
    requires Positive(b.orders)
    ensures Positive(r.orders)
  {
    var t := SweepOf(b, side, price, qty, id);
    var b1 := AfterSweep(b, side, t);
    if t.qty > 0 then Rest(b1, side, price, t.qty, id) else b1
  }

  function Cancel(b: QueueBook, id: nat): (r: QueueBook)
    requires Positive(b.orders)
    ensures Positive(r.orders)
  {
    b.(orders := b.orders - {id})
  }

  function Apply(b: QueueBook, op: Op): (r: QueueBook)
    requires Positive(b.orders)
    ensures Positive(r.orders)
  {
    match op
    case LimitOp(side, price, qty, id) => Limit(b, side, price, qty, id)
    case CancelOp(id) => Cancel(b, id)
  }

  /** The book after a whole stream of operations. */
  function Run(ops: seq<Op>): (r: QueueBook)
    ensures Positive(r.orders)
  {
    if ops == [] then EMPTY else Apply(Run(ops[..|ops| - 1]), ops[|ops| - 1])
  }

  /** The live orders of a queue, in queue order, as the id store records them. */
  function Live(queue: seq<Entry>, orders: map<nat, Resting>): seq<Order> {
    if queue == [] then []
    else if queue[0].id in orders then
      [Order(queue[0].id, orders[queue[0].id].price, orders[queue[0].id].qty)] + Live(queue[1..], orders)
    else Live(queue[1..], orders)
  }

  lemma {:induction false} LiveConcat(q: seq<Entry>, r: seq<Entry>, orders: map<nat, Resting>)
    ensures Live(q + r, orders) == Live(q, orders) + Live(r, orders)
  {
    if q == [] {
      assert q + r == r;
    } else {
      assert (q + r)[1..] == q[1..] + r;
      LiveConcat(q[1..], r, orders);
    }
  }

  // ------------------------------------------------------------ well-formedness

  ghost predicate DistinctIds(q: seq<Entry>) {
    forall i, j :: 0 <= i < j < |q| ==> q[i].id != q[j].id
  }

  ghost predicate Queued(q: seq<Entry>, id: nat) {
    exists i :: 0 <= i < |q| && q[i].id == id
  }

  ghost predicate PricesAgree(q: seq<Entry>, orders: map<nat, Resting>) {
    forall i :: 0 <= i < |q| && q[i].id in orders ==> orders[q[i].id].price == q[i].price
  }

  /** Best bid below best ask, counting levels that hold only tombstones. */
  predicate Uncrossed(bids: seq<Entry>, asks: seq<Entry>) {
    bids != [] && asks != [] ==> bids[0].price < asks[0].price
  }

  /** An id may have several places in one queue, but a live one only at its recorded price. */
  ghost predicate Consistent(b: QueueBook) {
    && Positive(b.orders)
    && Sorted(Bid, EntryPrice, b.bids) && Sorted(Ask, EntryPrice, b.asks)
    && (forall id :: Queued(b.bids, id) ==> !Queued(b.asks, id))
    && (forall id :: id in b.orders ==> Queued(b.bids, id) || Queued(b.asks, id))
    && PricesAgree(b.bids, b.orders) && PricesAgree(b.asks, b.orders)
    && Uncrossed(b.bids, b.asks)
  }

  /** Every id has one place at most. */
  ghost predicate WellFormed(b: QueueBook) {
    Consistent(b) && DistinctIds(b.bids) && DistinctIds(b.asks)
  }

  ghost predicate QueuedIn(b: QueueBook, id: nat) {
    Queued(b.bids, id) || Queued(b.asks, id)
  }

  // ------------------------------------------------------------ what a sweep leaves alone

  /** A sweep takes a prefix off the queue and touches no id outside the queue. */
  lemma {:induction false} SweepFrame(taker: Side, limit: int, id: nat, t: Sweeping) returns (k: nat)
    requires Positive(t.orders)
    ensures k <= |t.queue| && Sweep(taker, limit, id, t).queue == t.queue[k..]
    ensures SameOutside(t.queue, t.orders, Sweep(taker, limit, id, t).orders)
    decreases |t.queue|, if t.qty > 0 then t.qty else 0
  {
    if Stops(taker, limit, t) {
      k := 0;
    } else {
      var n := HeadStep(id, t);
      var j := SweepFrame(taker, limit, id, n);
      k := if n.queue == t.queue then j else j + 1;
      HeadStepFrame(id, t);
      SameOutsideChain(t.queue, n.queue, t.orders, n.orders, Sweep(taker, limit, id, t).orders);
    }
  }

  /** What a sweep takes off the queue crosses. */
  lemma {:induction false} SweptCrosses(taker: Side, limit: int, id: nat, t: Sweeping, i: nat)
    requires Positive(t.orders) && i < |t.queue| - |Sweep(taker, limit, id, t).queue|
    ensures Crosses(taker, t.queue[i].price, limit)
    decreases |t.queue|, if t.qty > 0 then t.qty else 0
  {
    if i > 0 {
      SweptCrosses(taker, limit, id, HeadStep(id, t), i - 1);
    }
  }

  ghost predicate SameOutside(q: seq<Entry>, orders: map<nat, Resting>, after: map<nat, Resting>) {
    && (forall id :: id in after ==> id in orders && after[id].price == orders[id].price)
    && (forall id :: id in orders && !Queued(q, id) ==> id in after && after[id] == orders[id])
  }

  lemma HeadStepFrame(id: nat, t: Sweeping)
    requires t.queue != []
    ensures SameOutside(t.queue, t.orders, HeadStep(id, t).orders)
  {
    assert Queued(t.queue, t.queue[0].id);
  }

  lemma SameOutsideChain(q: seq<Entry>, q1: seq<Entry>,
                         o: map<nat, Resting>, o1: map<nat, Resting>, o2: map<nat, Resting>)
    requires q1 == q || (q != [] && q1 == q[1..])
    requires SameOutside(q, o, o1) && SameOutside(q1, o1, o2)
    ensures SameOutside(q, o, o2)
  {
    forall id | Queued(q1, id)
      ensures Queued(q, id)
    {
      var i :| 0 <= i < |q1| && q1[i].id == id;
      assert q[if q1 == q then i else i + 1].id == id;
    }
  }

  /** The sweep of an order that still wants more has cleared every crossing level. */
  lemma {:induction false} SweepClears(taker: Side, limit: int, id: nat, t: Sweeping)
    requires Positive(t.orders)
    ensures Stops(taker, limit, Sweep(taker, limit, id, t))
    ensures t.qty >= 0 ==> Sweep(taker, limit, id, t).qty >= 0
    decreases |t.queue|, if t.qty > 0 then t.qty else 0
  {
    if !Stops(taker, limit, t) {
      SweepClears(taker, limit, id, HeadStep(id, t));
    }
  }

  // ------------------------------------------------------------ price order, for any stream at all

  /** Both queues best price first, and best bid below best ask, tombstones included. */
  ghost predicate InPriceOrder(b: QueueBook) {
    && Sorted(Bid, EntryPrice, b.bids) && Sorted(Ask, EntryPrice, b.asks)
    && Uncrossed(b.bids, b.asks)
  }

  lemma SuffixSorted(side: Side, q: seq<Entry>, k: nat)
    requires k <= |q| && Sorted(side, EntryPrice, q)
    ensures Sorted(side, EntryPrice, q[k..])
  {
    forall i, j | 0 <= i < j < |q[k..]|
      ensures AtLeastAsGood(side, EntryPrice(q[k..][i]), EntryPrice(q[k..][j]))
    {
      assert q[k..][i] == q[i + k] && q[k..][j] == q[j + k];
    }
  }

  lemma InsertedHead(side: Side, q: seq<Entry>, e: Entry)
    ensures var r := Insert(side, EntryPrice, q, e);
            r[0] == e || (q != [] && r[0] == q[0])
  {
  }

  lemma SweepKeepsOrder(b: QueueBook, side: Side, price: int, qty: int, id: nat)
    requires Positive(b.orders) && InPriceOrder(b)
    ensures var t := SweepOf(b, side, price, qty, id);
            InPriceOrder(AfterSweep(b, side, t)) && Stops(side, price, t)
  {
    var s := Sweeping(b.Queue(side.Opposite()), b.orders, qty, b.log, b.skips);
    var k := SweepFrame(side, price, id, s);
    SuffixSorted(side.Opposite(), s.queue, k);
    assert k < |s.queue| ==>
      AtLeastAsGood(side.Opposite(), EntryPrice(s.queue[0]), EntryPrice(s.queue[k])) || k == 0;
    SweepClears(side, price, id, s);
  }

  lemma LimitKeepsOrder(b: QueueBook, side: Side, price: int, qty: int, id: nat)
    requires Positive(b.orders) && InPriceOrder(b)
    ensures InPriceOrder(Limit(b, side, price, qty, id))
  {
    var t := SweepOf(b, side, price, qty, id);
    SweepKeepsOrder(b, side, price, qty, id);
    if t.qty > 0 {
      InsertSorted(side, EntryPrice, b.Queue(side), Entry(id, price));
      InsertedHead(side, b.Queue(side), Entry(id, price));
    }
  }

  /** No stream of operations can cross the book, however it uses its ids. */
  lemma {:induction false} RunKeepsOrder(ops: seq<Op>)
    ensures InPriceOrder(Run(ops))
  {
    if ops != [] {
      var b, op := Run(ops[..|ops| - 1]), ops[|ops| - 1];
      RunKeepsOrder(ops[..|ops| - 1]);
      if op.LimitOp? {
        LimitKeepsOrder(b, op.side, op.price, op.qty, op.id);
      }
    }
  }
}
