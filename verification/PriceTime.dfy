/** One limit order on the lazy book, against the price-time rules, with no reference to how it is done. */
module PriceTime {
  import opened Orders
  import opened LazyBook
  import opened LazyEager
  import opened IdReuse
  import Eager = EagerBook

  /** `x` has joined the queue behind everything as good, ahead of everything worse. */
  ghost predicate Joined(side: Side, before: seq<Order>, after: seq<Order>, x: Order) {
    exists j :: 0 <= j <= |before| && after == before[..j] + [x] + before[j..]
                && (forall i :: 0 <= i < j ==> AtLeastAsGood(side, before[i].price, x.price))
                && (forall i :: j <= i < |before| ==> !AtLeastAsGood(side, before[i].price, x.price))
  }

  /** The effect the rules give to an order: `left` is what could not be filled. */
  ghost predicate Obeys(v: Eager.ListBook, r: Eager.ListBook, side: Side, price: int, qty: int, id: nat, left: int) {
    && Eager.FillsSome(side, price, id, Eager.Matching(v.Queue(side.Opposite()), qty, v.log),
                       Eager.Matching(r.Queue(side.Opposite()), left, r.log))
    && if left > 0 then Joined(side, v.Queue(side), r.Queue(side), Order(id, price, left))
       else r.Queue(side) == v.Queue(side)
  }

  /** Only one book obeys the rules. */
  lemma RulesAreComplete(v: Eager.ListBook, side: Side, price: int, qty: int, id: nat,
                         r1: Eager.ListBook, left1: int, r2: Eager.ListBook, left2: int)
    requires Eager.PositiveBook(v) && Sorted(Bid, OrderPrice, v.bids) && Sorted(Ask, OrderPrice, v.asks)
    requires Obeys(v, r1, side, price, qty, id, left1) && Obeys(v, r2, side, price, qty, id, left2)
    ensures r1 == r2 && left1 == left2
  {
    var opp, own := v.Queue(side.Opposite()), v.Queue(side);
    var m := Eager.Matching(opp, qty, v.log);
    var m1 := Eager.Matching(r1.Queue(side.Opposite()), left1, r1.log);
    var m2 := Eager.Matching(r2.Queue(side.Opposite()), left2, r2.log);
    Eager.MatchIsPriceTime(side, price, id, m, m1);
    Eager.MatchIsPriceTime(side, price, id, m, m2);
    if left1 > 0 {
      JoinedUnique(side, own, r1.Queue(side), r2.Queue(side), Order(id, price, left1));
    }
  }

  lemma JoinedUnique(side: Side, s: seq<Order>, r1: seq<Order>, r2: seq<Order>, x: Order)
    requires Joined(side, s, r1, x) && Joined(side, s, r2, x)
    ensures r1 == r2
  {
    var i :| 0 <= i <= |s| && r1 == s[..i] + [x] + s[i..]
             && (forall n :: 0 <= n < i ==> AtLeastAsGood(side, s[n].price, x.price))
             && (forall n :: i <= n < |s| ==> !AtLeastAsGood(side, s[n].price, x.price));
    var j :| 0 <= j <= |s| && r2 == s[..j] + [x] + s[j..]
             && (forall n :: 0 <= n < j ==> AtLeastAsGood(side, s[n].price, x.price))
             && (forall n :: j <= n < |s| ==> !AtLeastAsGood(side, s[n].price, x.price));
    assert i < |s| ==> !AtLeastAsGood(side, s[i].price, x.price);
    assert j < |s| ==> !AtLeastAsGood(side, s[j].price, x.price);
    assert i == j;
  }

  lemma JoinedAt(side: Side, s: seq<Order>, x: Order, j: nat)
    requires j <= |s|
    requires forall i :: 0 <= i < j ==> AtLeastAsGood(side, OrderPrice(s[i]), OrderPrice(x))
    requires forall i :: j <= i < |s| ==> !AtLeastAsGood(side, OrderPrice(s[i]), OrderPrice(x))
    ensures Joined(side, s, s[..j] + [x] + s[j..], x)
  {
    assert forall i :: 0 <= i < j ==> AtLeastAsGood(side, s[i].price, x.price);
    assert forall i :: j <= i < |s| ==> !AtLeastAsGood(side, s[i].price, x.price);
  }

  lemma ViewIsSorted(b: QueueBook)
    requires Consistent(b)
    ensures Eager.PositiveBook(View(b))
    ensures Sorted(Bid, OrderPrice, View(b).bids) && Sorted(Ask, OrderPrice, View(b).asks)
  {
    LivePositive(b.bids, b.orders);
    LivePositive(b.asks, b.orders);
    LiveIsSorted(Bid, b.bids, b.orders);
    LiveIsSorted(Ask, b.asks, b.orders);
  }

  /** The reference book obeys the rules. */
  lemma EagerLimitObeys(v: Eager.ListBook, side: Side, price: int, qty: int, id: nat)
    requires Eager.PositiveBook(v) && Sorted(Bid, OrderPrice, v.bids) && Sorted(Ask, OrderPrice, v.asks)
    ensures Obeys(v, Eager.Limit(v, side, price, qty, id), side, price, qty, id,
                  Eager.Match(side, price, id, Eager.Matching(v.Queue(side.Opposite()), qty, v.log)).qty)
  {
    var own := v.Queue(side);
    var m := Eager.Matching(v.Queue(side.Opposite()), qty, v.log);
    var n := Eager.Match(side, price, id, m);
    var r := Eager.Limit(v, side, price, qty, id);
    Eager.MatchIsPriceTime(side, price, id, m, n);
    assert n == Eager.Matching(r.Queue(side.Opposite()), n.qty, r.log);
    if n.qty > 0 {
      var o := Order(id, price, n.qty);
      var j := InsertPosition(side, OrderPrice, own, o);
      JoinedAt(side, own, o, j);
    }
  }

  /**
   * A limit order fills min(qty, crossing quantity) against a prefix of the crossing live orders in
   * price-time order, leaves at most one partly filled and still at its head, rests exactly the
   * remainder behind its equals, and changes no other live order: for every order if its id is fresh,
   * and for any id exactly when the lazy book and the reference book agree on the order.
   */
  lemma LimitObeys(b: QueueBook, side: Side, price: int, qty: int, id: nat)
    requires Consistent(b)
    ensures Obeys(View(b), View(Limit(b, side, price, qty, id)), side, price, qty, id,
                  SweepOf(b, side, price, qty, id).qty) <==>
            Agrees(b, side, price, qty, id)
    ensures WellFormed(b) && !QueuedIn(b, id) ==> Agrees(b, side, price, qty, id)
  {
    var v, r := View(b), View(Limit(b, side, price, qty, id));
    var left := SweepOf(b, side, price, qty, id).qty;
    ReuseExact(b, side, price, qty, id);
    ViewIsSorted(b);
    EagerLimitObeys(v, side, price, qty, id);
    var n := Eager.Match(side, price, id, Eager.Matching(v.Queue(side.Opposite()), qty, v.log));
    if Agrees(b, side, price, qty, id) {
      SweepAgrees(b, side, price, qty, id);
    }
    if Obeys(v, r, side, price, qty, id, left) {
      RulesAreComplete(v, side, price, qty, id, r, left, Eager.Limit(v, side, price, qty, id), n.qty);
    }
    if WellFormed(b) && !QueuedIn(b, id) {
      WellFormedAgrees(b, side, price, qty, id);
      NotQueued(b.Queue(side.Opposite()), id);
    }
  }
}
