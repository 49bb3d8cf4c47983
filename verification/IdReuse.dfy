/**
 * Lazy and eager cancellation part ways when the rest of an order joins a queue under an id that is
 * still queued, dead or alive. Here it is told exactly, before the order is given, for one order and
 * for whole streams.
 */
module IdReuse {
  import opened Orders
  import opened LazyBook
  import opened LazyEager
  import opened Twins
  import Eager = EagerBook

  lemma {:induction false} LiveGrows(q: seq<Entry>, orders: map<nat, Resting>, id: nat, r: Resting)
    requires id !in orders
    ensures |Live(q, orders[id := r])| >= |Live(q, orders)|
    ensures Queued(q, id) ==> |Live(q, orders[id := r])| > |Live(q, orders)|
  {
    if q != [] {
      LiveGrows(q[1..], orders, id, r);
      if q[0].id != id && Queued(q, id) {
        var i :| 0 <= i < |q| && q[i].id == id;
        assert q[1..][i - 1].id == id;
      }
    }
  }

  lemma {:induction false} LiveInsertCount(side: Side, q: seq<Entry>, orders: map<nat, Resting>, e: Entry)
    requires e.id in orders
    ensures |Live(Insert(side, EntryPrice, q, e), orders)| == |Live(q, orders)| + 1
  {
    if q != [] && AtLeastAsGood(side, q[0].price, e.price) {
      LiveInsertCount(side, q[1..], orders, e);
      assert Insert(side, EntryPrice, q, e)[1..] == Insert(side, EntryPrice, q[1..], e);
    } else {
      assert ([e] + q)[1..] == q;
    }
  }

  // ------------------------------------------------------------ what a caller can check beforehand

  /** What the live orders that a taker may trade with offer in all. */
  function Offered(b: QueueBook, side: Side, price: int): int {
    TotalQty(Eager.Crossing(side, price, Live(b.Queue(side.Opposite()), b.orders)))
  }

  /** The id is not queued on the order's own side, and opposite it only at prices that cross. */
  ghost predicate OnlyCrossing(b: QueueBook, side: Side, price: int, id: nat) {
    var opp := b.Queue(side.Opposite());
    && !Queued(b.Queue(side), id)
    && forall i :: 0 <= i < |opp| && opp[i].id == id ==> Crosses(side, opp[i].price, price)
  }

  /** Either nothing is left to rest, or no queue holds the id by the time the rest joins one. */
  ghost predicate Safe(b: QueueBook, side: Side, price: int, qty: int, id: nat) {
    qty <= Offered(b, side, price) || OnlyCrossing(b, side, price, id)
  }

  /** The rest of the order repeats, to the price and the quantity, a live order of its own side and id. */
  ghost predicate Twin(b: QueueBook, side: Side, price: int, qty: int, id: nat) {
    && Queued(b.Queue(side), id) && id in b.orders
    && b.orders[id] == Resting(price, qty - Offered(b, side, price))
  }

  /** The order would fill an id that has a second place in the queue. */
  ghost predicate MeetsTwin(b: QueueBook, side: Side, price: int, qty: int) {
    FillsTwin(side, price, qty, Live(b.Queue(side.Opposite()), b.orders))
  }

  /** What it takes for both books to do the same. */
  ghost predicate Agrees(b: QueueBook, side: Side, price: int, qty: int, id: nat) {
    && !MeetsTwin(b, side, price, qty)
    && (Safe(b, side, price, qty, id) || Twin(b, side, price, qty, id))
  }

  /** With one place for every id there are no twins to meet. */
  lemma WellFormedAgrees(b: QueueBook, side: Side, price: int, qty: int, id: nat)
    requires WellFormed(b)
    ensures Agrees(b, side, price, qty, id) <==> Safe(b, side, price, qty, id) || Twin(b, side, price, qty, id)
  {
    DistinctHasNoTwin(side, price, qty, b.Queue(side.Opposite()), b.orders);
  }

  // ------------------------------------------------------------ the state before resting

  /** Matching is what the reference book does, unless it meets a twin. */
  lemma SweepAgrees(b: QueueBook, side: Side, price: int, qty: int, id: nat)
    requires Consistent(b) && !MeetsTwin(b, side, price, qty)
    ensures var opp := Live(b.Queue(side.Opposite()), b.orders);
            && Eager.Positive(opp)
            && SweepView(SweepOf(b, side, price, qty, id)) ==
               Eager.Match(side, price, id, Eager.Matching(opp, qty, b.log))
  {
    var opp := b.Queue(side.Opposite());
    LivePositive(opp, b.orders);
    SweepSimulates(side, price, id, Sweeping(opp, b.orders, qty, b.log, b.skips));
  }

  lemma Residual(b: QueueBook, side: Side, price: int, qty: int, id: nat)
    requires Consistent(b) && !MeetsTwin(b, side, price, qty)
    ensures var t := SweepOf(b, side, price, qty, id);
            && (t.qty > 0 <==> qty > Offered(b, side, price))
            && (t.qty > 0 ==> t.qty == qty - Offered(b, side, price))
  {
    var opp := b.Queue(side.Opposite());
    var m := Eager.Matching(Live(opp, b.orders), qty, b.log);
    LivePositive(opp, b.orders);
    LiveIsSorted(side.Opposite(), opp, b.orders);
    SweepAgrees(b, side, price, qty, id);
    var k, part := Eager.MatchFillsPrefix(side, price, id, m);
    Eager.CrossingIsPrefix(side, price, m.resting);
    Eager.TotalQtyNonNegative(Eager.Crossing(side, price, m.resting));
  }

  lemma StillQueued(b: QueueBook, side: Side, price: int, qty: int, id: nat)
    requires Consistent(b) && SweepOf(b, side, price, qty, id).qty > 0
    ensures QueuedIn(AfterSweep(b, side, SweepOf(b, side, price, qty, id)), id) <==> !OnlyCrossing(b, side, price, id)
  {
    var opp := b.Queue(side.Opposite());
    var s := Sweeping(opp, b.orders, qty, b.log, b.skips);
    var t := Sweep(side, price, id, s);
    var k := SweepFrame(side, price, id, s);
    SweepClears(side, price, id, s);
    SuffixQueued(opp, k);
    forall i | 0 <= i < |opp|
      ensures Crosses(side, opp[i].price, price) <==> i < k
    {
      if i < k {
        SweptCrosses(side, price, id, s, i);
      } else {
        assert t.queue[0] == opp[k];
        assert k < i ==> AtLeastAsGood(side.Opposite(), EntryPrice(opp[k]), EntryPrice(opp[i]));
      }
    }
    forall i | k <= i < |opp| && opp[i].id == id
      ensures Queued(t.queue, id)
    {
      assert t.queue[i - k] == opp[i];
    }
  }

  /** A live id on the order's own side keeps its record through the sweep. */
  lemma OwnRecordKept(b: QueueBook, side: Side, price: int, qty: int, id: nat)
    requires Consistent(b) && Queued(b.Queue(side), id)
    ensures var t := SweepOf(b, side, price, qty, id);
            (id in t.orders <==> id in b.orders) && (id in t.orders ==> t.orders[id] == b.orders[id])
  {
    var s := Sweeping(b.Queue(side.Opposite()), b.orders, qty, b.log, b.skips);
    var k := SweepFrame(side, price, id, s);
  }

  // ------------------------------------------------------------ resting under an id that is queued

  /** The new place shows what the store records, where the reference book shows the new order. */
  lemma {:induction false} LiveInsertAt(side: Side, q: seq<Entry>, orders: map<nat, Resting>, e: Entry, qty: int)
      returns (j: nat)
    requires Sorted(side, EntryPrice, q) && PricesAgree(q, orders) && e.id in orders
    ensures var s, r := Insert(side, OrderPrice, Live(q, orders), Order(e.id, e.price, qty)), orders[e.id];
            && j < |s| && s[j] == Order(e.id, e.price, qty)
            && Live(Insert(side, EntryPrice, q, e), orders) == s[j := Order(e.id, r.price, r.qty)]
  {
    if q == [] || !AtLeastAsGood(side, q[0].price, e.price) {
      j := 0;
      LiveHeadNoBetter(side, q, orders);
    } else {
      var i := LiveInsertAt(side, q[1..], orders, e, qty);
      assert Insert(side, EntryPrice, q, e) == [q[0]] + Insert(side, EntryPrice, q[1..], e);
      if q[0].id in orders {
        j := i + 1;
        assert Live(q, orders)[1..] == Live(q[1..], orders);
      } else {
        j := i;
      }
    }
  }

  /** Resting under a live id shows the old record again, in the place of the new order. */
  lemma RestRepeats(b: QueueBook, side: Side, price: int, qty: int, id: nat)
    requires Consistent(b) && id in b.orders
    ensures View(Rest(b, side, price, qty, id)) ==
            View(b).WithQueue(side, Insert(side, OrderPrice, View(b).Queue(side), Order(id, price, qty))) <==>
            b.orders[id] == Resting(price, qty)
  {
    var j := LiveInsertAt(side, b.Queue(side), b.orders, Entry(id, price), qty);
  }

  /** No queue that does not cross holds a live id at the taker's own price. */
  lemma RepeatIsTwin(b: QueueBook, side: Side, price: int, qty: int, id: nat)
    requires Consistent(b) && SweepOf(b, side, price, qty, id).qty > 0
    requires id in SweepOf(b, side, price, qty, id).orders
    ensures SweepOf(b, side, price, qty, id).orders[id] == Resting(price, qty - Offered(b, side, price)) <==>
            Twin(b, side, price, qty, id)
  {
    var s := Sweeping(b.Queue(side.Opposite()), b.orders, qty, b.log, b.skips);
    var t := SweepOf(b, side, price, qty, id);
    var b1 := AfterSweep(b, side, t);
    SweepKeepsConsistent(b, side, price, qty, id);
    SweepClears(side, price, id, s);
    if Queued(b.Queue(side), id) {
      OwnRecordKept(b, side, price, qty, id);
    } else {
      var i :| 0 <= i < |t.queue| && t.queue[i].id == id;
      assert i > 0 ==> AtLeastAsGood(side.Opposite(), EntryPrice(t.queue[0]), EntryPrice(t.queue[i]));
    }
  }

  /** A tombstone under the resting id comes back to life: the view shows more than one new order. */
  lemma RestShows(b: QueueBook, side: Side, price: int, qty: int, id: nat)
    requires id !in b.orders && QueuedIn(b, id)
    ensures View(Rest(b, side, price, qty, id)) !=
            View(b).WithQueue(side, Insert(side, OrderPrice, View(b).Queue(side), Order(id, price, qty)))
  {
    var r := Rest(b, side, price, qty, id);
    var own, opp := b.Queue(side), b.Queue(side.Opposite());
    LiveGrows(own, b.orders, id, Resting(price, qty));
    LiveGrows(opp, b.orders, id, Resting(price, qty));
    LiveInsertCount(side, own, r.orders, Entry(id, price));
  }

  // ------------------------------------------------------------ one operation

  lemma {:induction false} LivePlace(q: seq<Entry>, orders: map<nat, Resting>, k: nat) returns (i: nat)
    requires k < |Live(q, orders)|
    ensures i < |q| && q[i].id == Live(q, orders)[k].id && q[i].id in orders
  {
    if q[0].id in orders && k == 0 {
      i := 0;
    } else {
      i := LivePlace(q[1..], orders, if q[0].id in orders then k - 1 else k);
      i := i + 1;
    }
  }

  /** When something is left to rest, an id whose places all crossed has none on the opposite side. */
  lemma CrossedIsGone(b: QueueBook, side: Side, price: int, qty: int, id: nat, x: nat)
    requires Consistent(b) && x in b.orders && Crosses(side, b.orders[x].price, price)
    requires SweepOf(b, side, price, qty, id).qty > 0
    ensures !Queued(SweepOf(b, side, price, qty, id).queue, x)
  {
    var opp, t := b.Queue(side.Opposite()), SweepOf(b, side, price, qty, id);
    SweepKeepsOrder(b, side, price, qty, id);
    var n := SweepFrame(side, price, id, Sweeping(opp, b.orders, qty, b.log, b.skips));
    forall i | 0 <= i < |t.queue|
      ensures t.queue[i].id != x
    {
      assert t.queue[i] == opp[n + i];
      assert i > 0 ==> AtLeastAsGood(side.Opposite(), EntryPrice(t.queue[0]), EntryPrice(t.queue[i]));
    }
  }

  lemma NotQueuedNotShown(q: seq<Entry>, orders: map<nat, Resting>, x: nat)
    requires !Queued(q, x) || x !in orders
    ensures !HasId(Live(q, orders), x)
  {
    if k: nat :| k < |Live(q, orders)| && Live(q, orders)[k].id == x {
      var i := LivePlace(q, orders, k);
    }
  }

  /** The books part at a twin, whatever becomes of the id store when the rest of the order rests. */
  lemma MeetingPartsSide(b: QueueBook, side: Side, price: int, qty: int, id: nat, after: map<nat, Resting>)
    requires Consistent(b) && MeetsTwin(b, side, price, qty)
    requires SweepOf(b, side, price, qty, id).qty <= 0 ==> after == SweepOf(b, side, price, qty, id).orders
    ensures Eager.Positive(Live(b.Queue(side.Opposite()), b.orders))
    ensures var t := SweepOf(b, side, price, qty, id);
            var m := Eager.Match(side, price, id, Eager.Matching(Live(b.Queue(side.Opposite()), b.orders), qty, b.log));
            t.log != m.log || Live(t.queue, after) != m.resting
  {
    var t := SweepOf(b, side, price, qty, id);
    var x := SweepParts(side, price, id, Sweeping(b.Queue(side.Opposite()), b.orders, qty, b.log, b.skips));
    if x in b.orders && Crosses(side, b.orders[x].price, price) && x !in t.orders {
      if t.qty > 0 {
        CrossedIsGone(b, side, price, qty, id, x);
      }
      NotQueuedNotShown(t.queue, after, x);
    }
  }

  lemma MeetingParts(b: QueueBook, side: Side, price: int, qty: int, id: nat)
    requires Consistent(b) && MeetsTwin(b, side, price, qty) && Eager.PositiveBook(View(b))
    ensures View(Limit(b, side, price, qty, id)) != Eager.Limit(View(b), side, price, qty, id)
  {
    MeetingPartsSide(b, side, price, qty, id, Limit(b, side, price, qty, id).orders);
  }

  /**
   * For any limit order whatever, the lazy book steps as the reference book does if and only if the
   * order meets no twin and is safe or repeats a live order exactly.
   */
  lemma ReuseExact(b: QueueBook, side: Side, price: int, qty: int, id: nat)
    requires Consistent(b)
    ensures Eager.PositiveBook(View(b))
    ensures View(Limit(b, side, price, qty, id)) == Eager.Limit(View(b), side, price, qty, id) <==>
            Agrees(b, side, price, qty, id)
  {
    LivePositive(b.bids, b.orders);
    LivePositive(b.asks, b.orders);
    if MeetsTwin(b, side, price, qty) {
      MeetingParts(b, side, price, qty, id);
    } else {
      RestExact(b, side, price, qty, id);
    }
  }

  lemma RestExact(b: QueueBook, side: Side, price: int, qty: int, id: nat)
    requires Consistent(b) && !MeetsTwin(b, side, price, qty) && Eager.PositiveBook(View(b))
    ensures View(Limit(b, side, price, qty, id)) == Eager.Limit(View(b), side, price, qty, id) <==>
            Safe(b, side, price, qty, id) || Twin(b, side, price, qty, id)
  {
    var t := SweepOf(b, side, price, qty, id);
    var b1 := AfterSweep(b, side, t);
    SweepKeepsConsistent(b, side, price, qty, id);
    SweepAgrees(b, side, price, qty, id);
    Residual(b, side, price, qty, id);
    if t.qty > 0 {
      StillQueued(b, side, price, qty, id);
      if !QueuedIn(b1, id) {
        RestView(b1, side, price, t.qty, id);
      } else if id in t.orders {
        RestRepeats(b1, side, price, t.qty, id);
        RepeatIsTwin(b, side, price, qty, id);
      } else {
        RestShows(b1, side, price, t.qty, id);
        if Queued(b.Queue(side), id) {
          OwnRecordKept(b, side, price, qty, id);
        }
      }
    }
  }

  /** An order on which the books agree leaves a book to which all this applies again. */
  lemma AgreesKeepsConsistent(b: QueueBook, side: Side, price: int, qty: int, id: nat)
    requires Consistent(b) && Agrees(b, side, price, qty, id)
    ensures Consistent(Limit(b, side, price, qty, id))
  {
    var t := SweepOf(b, side, price, qty, id);
    var b1 := AfterSweep(b, side, t);
    SweepKeepsConsistent(b, side, price, qty, id);
    SweepKeepsOrder(b, side, price, qty, id);
    Residual(b, side, price, qty, id);
    if t.qty > 0 {
      StillQueued(b, side, price, qty, id);
      if QueuedIn(b1, id) {
        OwnRecordKept(b, side, price, qty, id);
        RepeatKeepsConsistent(b1, side, price, t.qty, id);
      } else {
        RestKeepsConsistent(b1, side, price, t.qty, id);
      }
    }
  }

  lemma RepeatKeepsConsistent(b: QueueBook, side: Side, price: int, qty: int, id: nat)
    requires Consistent(b) && RestsUncrossed(b, side, price)
    requires Queued(b.Queue(side), id) && id in b.orders && b.orders[id].price == price
    ensures Consistent(Rest(b, side, price, qty, id))
  {
    var own, e := b.Queue(side), Entry(id, price);
    InsertSorted(side, EntryPrice, own, e);
    InsertedQueue(side, own, e);
    InsertedPrices(side, own, b.orders, e);
    InsertedHead(side, own, e);
  }

  /** A safe limit order is exactly one that leaves every id in one place. */
  lemma SafeExact(b: QueueBook, side: Side, price: int, qty: int, id: nat)
    requires WellFormed(b)
    ensures WellFormed(Limit(b, side, price, qty, id)) <==> Safe(b, side, price, qty, id)
  {
    var t := SweepOf(b, side, price, qty, id);
    var b1 := AfterSweep(b, side, t);
    SweepKeepsBook(b, side, price, qty, id);
    DistinctHasNoTwin(side, price, qty, b.Queue(side.Opposite()), b.orders);
    Residual(b, side, price, qty, id);
    if t.qty > 0 {
      StillQueued(b, side, price, qty, id);
      if QueuedIn(b1, id) {
        RestsTwice(b1, side, price, t.qty, id);
      } else {
        SweepClears(side, price, id, Sweeping(b.Queue(side.Opposite()), b.orders, qty, b.log, b.skips));
        RestKeepsWellFormed(b1, side, price, t.qty, id);
      }
    }
  }

  lemma RestsTwice(b: QueueBook, side: Side, price: int, qty: int, id: nat)
    requires WellFormed(b) && QueuedIn(b, id)
    ensures !WellFormed(Rest(b, side, price, qty, id))
  {
    var own, r := b.Queue(side), Rest(b, side, price, qty, id);
    var k := InsertPosition(side, EntryPrice, own, Entry(id, price));
    var q := own[..k] + [Entry(id, price)] + own[k..];
    assert r.Queue(side) == q && q[k].id == id;
    if Queued(own, id) {
      var i :| 0 <= i < |own| && own[i].id == id;
      assert q[if i < k then i else i + 1].id == id;
    } else {
      assert Queued(q, id) && Queued(r.Queue(side.Opposite()), id);
    }
  }

  // ------------------------------------------------------------ whole streams

  ghost predicate AgreesOp(b: QueueBook, op: Op) {
    op.LimitOp? ==> Agrees(b, op.side, op.price, op.qty, op.id)
  }

  ghost predicate AgreesAt(ops: seq<Op>, i: nat)
    requires i < |ops|
  {
    AgreesOp(Run(ops[..i]), ops[i])
  }

  /** As far as operation `n`, every limit order meets a book on which both will do the same. */
  ghost predicate AgreesUpTo(ops: seq<Op>, n: nat)
    requires n <= |ops|
  {
    forall i :: 0 <= i < n ==> AgreesAt(ops, i)
  }

  ghost predicate Shows(ops: seq<Op>) {
    View(Run(ops)) == Eager.Run(ops)
  }

  lemma RunNext(ops: seq<Op>, n: nat)
    requires n < |ops|
    ensures Run(ops[..n + 1]) == Apply(Run(ops[..n]), ops[n])
    ensures Eager.Run(ops[..n + 1]) == Eager.Apply(Eager.Run(ops[..n]), ops[n])
  {
    assert ops[..n + 1][..n] == ops[..n];
  }

  lemma StepShows(ops: seq<Op>, n: nat)
    requires n < |ops| && Consistent(Run(ops[..n])) && Shows(ops[..n])
    ensures Shows(ops[..n + 1]) <==> AgreesOp(Run(ops[..n]), ops[n])
    ensures Shows(ops[..n + 1]) ==> Consistent(Run(ops[..n + 1]))
  {
    var b := Run(ops[..n]);
    RunNext(ops, n);
    match ops[n]
    case LimitOp(side, price, qty, id) =>
      ReuseExact(b, side, price, qty, id);
      if Agrees(b, side, price, qty, id) {
        AgreesKeepsConsistent(b, side, price, qty, id);
      }
    case CancelOp(id) =>
      CancelSimulates(b, id);
  }

  lemma {:induction false} AgreeingShows(ops: seq<Op>, n: nat)
    requires n <= |ops| && AgreesUpTo(ops, n)
    ensures Consistent(Run(ops[..n])) && Shows(ops[..n])
  {
    if n == 0 {
      assert ops[..0] == [];
    } else {
      AgreeingShows(ops, n - 1);
      AgreesNext(ops, n - 1);
      StepShows(ops, n - 1);
    }
  }

  ghost predicate ShowsAt(ops: seq<Op>, k: nat)
    requires k <= |ops|
  {
    Shows(ops[..k])
  }

  ghost predicate ShowsUpTo(ops: seq<Op>, n: nat)
    requires n <= |ops|
  {
    forall k :: 0 <= k <= n ==> ShowsAt(ops, k)
  }

  lemma ShowsNext(ops: seq<Op>, n: nat)
    requires n < |ops|
    ensures ShowsUpTo(ops, n + 1) <==> ShowsUpTo(ops, n) && ShowsAt(ops, n + 1)
  {
  }

  lemma StreamStep(ops: seq<Op>, n: nat)
    requires n < |ops| && AgreesUpTo(ops, n)
    ensures ShowsAt(ops, n + 1) <==> AgreesAt(ops, n)
  {
    AgreeingShows(ops, n);
    StepShows(ops, n);
  }

  lemma AgreesNext(ops: seq<Op>, n: nat)
    requires n < |ops|
    ensures AgreesUpTo(ops, n + 1) <==> AgreesUpTo(ops, n) && AgreesAt(ops, n)
  {
  }

  /**
   * Over any stream, the lazy book shows the reference book after each operation if and only if both
   * agree, by the condition a caller can check, on each limit order and the book that it meets.
   */
  lemma {:induction false} StreamExact(ops: seq<Op>, n: nat)
    requires n <= |ops|
    ensures AgreesUpTo(ops, n) <==> ShowsUpTo(ops, n)
  {
    if n == 0 {
      AgreeingShows(ops, 0);
    } else {
      StreamExact(ops, n - 1);
      AgreesNext(ops, n - 1);
      ShowsNext(ops, n - 1);
      if AgreesUpTo(ops, n - 1) {
        StreamStep(ops, n - 1);
      }
    }
  }

  // ------------------------------------------------------------ streams with one place for every id

  ghost predicate SafeOp(b: QueueBook, op: Op) {
    op.LimitOp? ==> Safe(b, op.side, op.price, op.qty, op.id)
  }

  ghost predicate SafeStream(ops: seq<Op>) {
    forall i :: 0 <= i < |ops| ==> SafeOp(Run(ops[..i]), ops[i])
  }

  /** Every id in one place, and the view is the reference book. */
  ghost predicate Tracks(ops: seq<Op>) {
    WellFormed(Run(ops)) && Shows(ops)
  }

  lemma StepTracks(ops: seq<Op>, n: nat)
    requires n < |ops| && Tracks(ops[..n])
    ensures Tracks(ops[..n + 1]) <==> SafeOp(Run(ops[..n]), ops[n])
  {
    var b := Run(ops[..n]);
    RunNext(ops, n);
    match ops[n]
    case LimitOp(side, price, qty, id) =>
      ReuseExact(b, side, price, qty, id);
      WellFormedAgrees(b, side, price, qty, id);
      SafeExact(b, side, price, qty, id);
    case CancelOp(id) =>
      CancelSimulates(b, id);
  }

  lemma {:induction false} SafeStreamTracks(ops: seq<Op>, n: nat)
    requires SafeStream(ops) && n <= |ops|
    ensures Tracks(ops[..n])
  {
    if n == 0 {
      assert ops[..0] == [];
    } else {
      SafeStreamTracks(ops, n - 1);
      StepTracks(ops, n - 1);
    }
  }

  /** Over any stream, every id keeps to one place and the view is right throughout just if all is safe. */
  lemma SafeStreamExact(ops: seq<Op>)
    ensures SafeStream(ops) <==> forall n :: 0 <= n <= |ops| ==> Tracks(ops[..n])
  {
    if SafeStream(ops) {
      forall n | 0 <= n <= |ops|
        ensures Tracks(ops[..n])
      {
        SafeStreamTracks(ops, n);
      }
    } else {
      var i :| 0 <= i < |ops| && !SafeOp(Run(ops[..i]), ops[i]);
      if Tracks(ops[..i]) {
        StepTracks(ops, i);
      }
    }
  }

  /** Fresh ids are safe. */
  lemma FreshIsSafe(ops: seq<Op>)
    requires FreshIds(ops)
    ensures SafeStream(ops)
  {
    forall i | 0 <= i < |ops|
      ensures SafeOp(Run(ops[..i]), ops[i])
    {
      LazyIsEager(ops[..i]);
      if ops[i].LimitOp? {
        assert !Submitted(ops[..i], ops[i].id);
        var b := Run(ops[..i]);
        NotQueued(b.Queue(ops[i].side.Opposite()), ops[i].id);
      }
    }
  }

  lemma RunSnoc(ops: seq<Op>, op: Op)
    ensures Run(ops + [op]) == Apply(Run(ops), op)
    ensures Eager.Run(ops + [op]) == Eager.Apply(Eager.Run(ops), op)
  {
    assert (ops + [op])[..|ops|] == ops;
  }

  /**
   * A stream on which the two strategies trade differently: order 1 is cancelled and its id used
   * again at a worse price, where its old place in the queue at price 10 still counts.
   */
  lemma ReuseTradesDifferently() returns (ops: seq<Op>)
    ensures !FreshIds(ops)
    ensures |Run(ops).log| == 1 && |Eager.Run(ops).log| == 0
  {
    var o1, o2, o3, o4 := LimitOp(Bid, 10, 1, 1), CancelOp(1), LimitOp(Bid, 9, 1, 1), LimitOp(Ask, 10, 1, 2);
    var s: seq<Op> := [];
    RunSnoc(s, o1);
    assert Run(s + [o1]) == QueueBook([Entry(1, 10)], [], map[1 := Resting(10, 1)], [], 0);
    assert Eager.Run(s + [o1]) == Eager.ListBook([Order(1, 10, 1)], [], []);
    RunSnoc(s + [o1], o2);
    assert map[1 := Resting(10, 1)] - {1} == map[];
    assert Run(s + [o1] + [o2]) == QueueBook([Entry(1, 10)], [], map[], [], 0);
    assert Eager.Run(s + [o1] + [o2]) == Eager.EMPTY;
    RunSnoc(s + [o1] + [o2], o3);
    RestedAgain();
    ops := s + [o1] + [o2] + [o3] + [o4];
    RunSnoc(s + [o1] + [o2] + [o3], o4);
    assert ops[0].id == ops[2].id;
    var l := QueueBook([Entry(1, 10), Entry(1, 9)], [], map[1 := Resting(9, 1)], [], 0);
    var t := Sweeping(l.bids, l.orders, 1, [], 0);
    assert SweepOf(l, Ask, 10, 1, 2) == HeadStep(2, t);
  }

  lemma RestedAgain()
    ensures Limit(QueueBook([Entry(1, 10)], [], map[], [], 0), Bid, 9, 1, 1) ==
            QueueBook([Entry(1, 10), Entry(1, 9)], [], map[1 := Resting(9, 1)], [], 0)
    ensures Eager.Limit(Eager.EMPTY, Bid, 9, 1, 1) == Eager.ListBook([Order(1, 9, 1)], [], [])
  {
    assert Insert(Bid, EntryPrice, [Entry(1, 10)], Entry(1, 9)) == [Entry(1, 10), Entry(1, 9)];
  }

  /**
   * Why an exact repeat is not safe: the view is right at first, but the two places in the queue share
   * one record, so a fill of the first takes away the second.
   */
  lemma TwinTradesDifferently() returns (ops: seq<Op>)
    ensures |ops| == 3 && View(Run(ops[..2])) == Eager.Run(ops[..2])
    ensures |View(Run(ops)).bids| == 0 && |Eager.Run(ops).bids| == 1
  {
    var o, o3 := LimitOp(Bid, 10, 1, 1), LimitOp(Ask, 10, 1, 2);
    var s: seq<Op> := [];
    RunSnoc(s, o);
    assert Run(s + [o]) == QueueBook([Entry(1, 10)], [], map[1 := Resting(10, 1)], [], 0);
    assert Eager.Run(s + [o]) == Eager.ListBook([Order(1, 10, 1)], [], []);
    RunSnoc(s + [o], o);
    Repeated();
    ops := s + [o] + [o] + [o3];
    assert ops[..2] == s + [o] + [o];
    RunSnoc(s + [o] + [o], o3);
    var l := QueueBook([Entry(1, 10), Entry(1, 10)], [], map[1 := Resting(10, 1)], [], 0);
    assert Live(l.bids[1..], l.orders) == [Order(1, 10, 1)];
    var t := Sweeping(l.bids, l.orders, 1, [], 0);
    assert SweepOf(l, Ask, 10, 1, 2) == HeadStep(2, t);
    assert map[1 := Resting(10, 1)] - {1} == map[];
  }

  lemma Repeated()
    ensures Limit(QueueBook([Entry(1, 10)], [], map[1 := Resting(10, 1)], [], 0), Bid, 10, 1, 1) ==
            QueueBook([Entry(1, 10), Entry(1, 10)], [], map[1 := Resting(10, 1)], [], 0)
    ensures Eager.Limit(Eager.ListBook([Order(1, 10, 1)], [], []), Bid, 10, 1, 1) ==
            Eager.ListBook([Order(1, 10, 1), Order(1, 10, 1)], [], [])
  {
    assert Insert(Bid, EntryPrice, [Entry(1, 10)], Entry(1, 10)) == [Entry(1, 10), Entry(1, 10)];
    assert Insert(Bid, OrderPrice, [Order(1, 10, 1)], Order(1, 10, 1)) == [Order(1, 10, 1), Order(1, 10, 1)];
  }
}
