/** With ids that increase along the stream, price-time order is (price, id) order. */
module Priority {
  import opened Orders
  import opened LazyBook
  import opened LazyEager
  import opened Reports
  import Checksum

  ghost predicate IncreasingIds(ops: seq<Op>) {
    forall i, j :: 0 <= i < j < |ops| && ops[i].LimitOp? && ops[j].LimitOp? ==> ops[i].id < ops[j].id
  }

  /** Within a price, the queue is in id order. */
  ghost predicate FifoById(q: seq<Entry>) {
    forall i, j :: 0 <= i < j < |q| && q[i].price == q[j].price ==> q[i].id < q[j].id
  }

  lemma InsertFifo(side: Side, q: seq<Entry>, e: Entry)
    requires Sorted(side, EntryPrice, q) && FifoById(q)
    requires forall i :: 0 <= i < |q| ==> q[i].id < e.id
    ensures FifoById(Insert(side, EntryPrice, q, e))
  {
    var k := InsertPosition(side, EntryPrice, q, e);
    var r := q[..k] + [e] + q[k..];
    forall i, j | 0 <= i < j < |r| && r[i].price == r[j].price
      ensures r[i].id < r[j].id
    {
      var a, b := if i <= k then i else i - 1, if j <= k then j else j - 1;
      assert i != k ==> r[i] == q[a];
      assert j != k ==> r[j] == q[b];
    }
  }

  lemma SubmittedBelow(ops: seq<Op>, q: seq<Entry>)
    requires ops != [] && ops[|ops| - 1].LimitOp? && IncreasingIds(ops)
    requires forall id :: Queued(q, id) ==> Submitted(ops[..|ops| - 1], id)
    ensures forall i :: 0 <= i < |q| ==> q[i].id < ops[|ops| - 1].id
  {
    forall i | 0 <= i < |q|
      ensures q[i].id < ops[|ops| - 1].id
    {
      assert Queued(q, q[i].id);
      var prefix := ops[..|ops| - 1];
      var j :| 0 <= j < |prefix| && prefix[j].LimitOp? && prefix[j].id == q[i].id;
      assert ops[j] == prefix[j];
    }
  }

  lemma {:induction false} QueuesAreFifo(ops: seq<Op>)
    requires IncreasingIds(ops)
    ensures WellFormed(Run(ops)) && FifoById(Run(ops).bids) && FifoById(Run(ops).asks)
  {
    LazyIsEager(ops);
    if ops != [] {
      var prefix, op := ops[..|ops| - 1], ops[|ops| - 1];
      var b := Run(prefix);
      QueuesAreFifo(prefix);
      LazyIsEager(prefix);
      if op.LimitOp? {
        LimitKeepsFifo(b, op, ops);
      }
    }
  }

  lemma SuffixFifo(q: seq<Entry>, k: nat)
    requires k <= |q| && FifoById(q)
    ensures FifoById(q[k..])
  {
    forall i, j | 0 <= i < j < |q[k..]| && q[k..][i].price == q[k..][j].price
      ensures q[k..][i].id < q[k..][j].id
    {
      assert q[k..][i] == q[i + k] && q[k..][j] == q[j + k];
    }
  }

  lemma LimitKeepsFifo(b: QueueBook, op: Op, ops: seq<Op>)
    requires WellFormed(b) && FifoById(b.bids) && FifoById(b.asks)
    requires ops != [] && op == ops[|ops| - 1] && op.LimitOp? && IncreasingIds(ops)
    requires forall id :: QueuedIn(b, id) ==> Submitted(ops[..|ops| - 1], id)
    ensures FifoById(Limit(b, op.side, op.price, op.qty, op.id).bids)
    ensures FifoById(Limit(b, op.side, op.price, op.qty, op.id).asks)
  {
    var own := b.Queue(op.side);
    var s := Sweeping(b.Queue(op.side.Opposite()), b.orders, op.qty, b.log, b.skips);
    var k := SweepFrame(op.side, op.price, op.id, s);
    SuffixFifo(s.queue, k);
    assert forall id :: Queued(own, id) ==> QueuedIn(b, id);
    SubmittedBelow(ops, own);
    InsertFifo(op.side, own, Entry(op.id, op.price));
  }

  // ------------------------------------------------------------ the order is determined by the orders

  predicate Before(side: Side, a: Order, b: Order) {
    AtLeastAsGood(side, a.price, b.price) && (a.price == b.price ==> a.id < b.id)
  }

  ghost predicate InOrder(side: Side, s: seq<Order>) {
    forall i, j :: 0 <= i < j < |s| ==> Before(side, s[i], s[j])
  }

  lemma {:induction false} LiveInOrder(side: Side, q: seq<Entry>, orders: map<nat, Resting>)
    requires Sorted(side, EntryPrice, q) && FifoById(q) && PricesAgree(q, orders)
    ensures InOrder(side, Live(q, orders))
  {
    if q != [] {
      var e, t := q[0], q[1..];
      forall i, j | 0 <= i < j < |t|
        ensures AtLeastAsGood(side, EntryPrice(t[i]), EntryPrice(t[j]))
      {
        assert t[i] == q[i + 1] && t[j] == q[j + 1];
      }
      LiveInOrder(side, t, orders);
      var s := Live(t, orders);
      if e.id in orders {
        var o := Order(e.id, e.price, orders[e.id].qty);
        forall j | 0 <= j < |s|
          ensures Before(side, o, s[j])
        {
          var i := LiveSource(t, orders, j);
          assert t[i] == q[i + 1];
          assert AtLeastAsGood(side, EntryPrice(q[0]), EntryPrice(q[i + 1]));
        }
      }
    }
  }

  lemma {:induction false} InOrderUnique(side: Side, s: seq<Order>, t: seq<Order>)
    requires InOrder(side, s) && InOrder(side, t)
    requires forall o :: o in s <==> o in t
    ensures s == t
  {
    SameEmptiness(s, t);
    if s != [] {
      assert s[0] in t;
      HeadFirst(side, t, s[0]);
      HeadFirst(side, s, t[0]);
      SameTail(side, s, t);
      InOrderUnique(side, s[1..], t[1..]);
    }
  }

  lemma SameEmptiness(s: seq<Order>, t: seq<Order>)
    requires forall o :: o in s <==> o in t
    ensures s == [] <==> t == []
  {
    assert s != [] ==> s[0] in s;
    assert t != [] ==> t[0] in t;
  }

  lemma HeadFirst(side: Side, s: seq<Order>, o: Order)
    requires InOrder(side, s) && o in s
    ensures o == s[0] || Before(side, s[0], o)
  {
    var i :| 0 <= i < |s| && s[i] == o;
    assert i == 0 || Before(side, s[0], s[i]);
  }

  lemma SameTail(side: Side, s: seq<Order>, t: seq<Order>)
    requires InOrder(side, s) && InOrder(side, t) && s != [] && t != [] && s[0] == t[0]
    requires forall o :: o in s <==> o in t
    ensures InOrder(side, s[1..]) && InOrder(side, t[1..])
    ensures forall o :: o in s[1..] <==> o in t[1..]
  {
    assert s == [s[0]] + s[1..] && t == [t[0]] + t[1..];
    forall o
      ensures o in s[1..] <==> o in s && o != s[0]
      ensures o in t[1..] <==> o in t && o != t[0]
    {
      if o in s[1..] {
        var i :| 0 <= i < |s[1..]| && s[1..][i] == o;
        assert Before(side, s[0], s[i + 1]);
      }
      if o in t[1..] {
        var i :| 0 <= i < |t[1..]| && t[1..][i] == o;
        assert Before(side, t[0], t[i + 1]);
      }
    }
  }

  /**
   * Two runs that leave the same live orders on each side leave the same book: the same priority
   * order, the same resting count and the same checksum, whatever history and tombstones they carry.
   */
  lemma LiveOrdersDetermineBook(ops1: seq<Op>, ops2: seq<Op>)
    requires IncreasingIds(ops1) && IncreasingIds(ops2)
    requires forall o :: o in View(Run(ops1)).bids <==> o in View(Run(ops2)).bids
    requires forall o :: o in View(Run(ops1)).asks <==> o in View(Run(ops2)).asks
    ensures View(Run(ops1)).bids == View(Run(ops2)).bids
    ensures View(Run(ops1)).asks == View(Run(ops2)).asks
    ensures |Run(ops1).orders| == |Run(ops2).orders|
    ensures Checksum.Of(Run(ops1)) == Checksum.Of(Run(ops2))
  {
    var b1, b2 := Run(ops1), Run(ops2);
    ViewInOrder(ops1);
    ViewInOrder(ops2);
    InOrderUnique(Bid, View(b1).bids, View(b2).bids);
    InOrderUnique(Ask, View(b1).asks, View(b2).asks);
  }

  lemma ViewInOrder(ops: seq<Op>)
    requires IncreasingIds(ops)
    ensures var b := Run(ops);
            && InOrder(Bid, View(b).bids) && InOrder(Ask, View(b).asks)
            && |b.orders| == |View(b).bids| + |View(b).asks|
            && Checksum.Of(b) == Checksum.OfEager(View(b))
  {
    var b := Run(ops);
    QueuesAreFifo(ops);
    LiveInOrder(Bid, b.bids, b.orders);
    LiveInOrder(Ask, b.asks, b.orders);
    RestingIsLive(b);
    LiveSorted(b.bids, b.orders);
    LiveSorted(b.asks, b.orders);
  }
}
