/**
 * The reference book: each side is the list of its live orders, best price first and first come
 * first served within a price, and a cancelled order is removed at once.
 */
module EagerBook {
  import opened Orders

  datatype ListBook = ListBook(bids: seq<Order>, asks: seq<Order>, log: seq<Trade>) {
    function Queue(side: Side): seq<Order> {
      if side.Bid? then bids else asks
    }

    function WithQueue(side: Side, q: seq<Order>): ListBook {
      if side.Bid? then this.(bids := q) else this.(asks := q)
    }
  }

  const EMPTY := ListBook([], [], [])

  /** An incoming order part-way through the opposite side. */
  datatype Matching = Matching(resting: seq<Order>, qty: int, log: seq<Trade>)

  ghost predicate Positive(s: seq<Order>) {
    forall i :: 0 <= i < |s| ==> s[i].qty > 0
  }

  /** One fill against the head of the queue; a partly filled head keeps its place. */
  function FillHead(id: nat, m: Matching): Matching
    requires m.resting != []
  {
    var h := m.resting[0];
    var q := Min(m.qty, h.qty);
    Matching(
      if q == h.qty then m.resting[1..] else [h.(qty := h.qty - q)] + m.resting[1..],
      m.qty - q,
      m.log + [Trade(id, h.id, h.price, q, h.qty - q)])
  }

  function Match(taker: Side, limit: int, id: nat, m: Matching): (r: Matching)
    requires Positive(m.resting)
    ensures Positive(r.resting)
    decreases |m.resting|, if m.qty > 0 then m.qty else 0
  {
    if m.qty <= 0 || m.resting == [] || !Crosses(taker, m.resting[0].price, limit) then m
    else Match(taker, limit, id, FillHead(id, m))
  }

  ghost predicate PositiveBook(b: ListBook) {
    Positive(b.bids) && Positive(b.asks)
  }

  function Limit(b: ListBook, side: Side, price: int, qty: int, id: nat): (r: ListBook)
    requires PositiveBook(b)
    ensures PositiveBook(r)
  {
    var m := Match(side, price, id, Matching(b.Queue(side.Opposite()), qty, b.log));
    var b1 := b.WithQueue(side.Opposite(), m.resting).(log := m.log);
    if m.qty > 0 then
      var o := Order(id, price, m.qty);
      InsertPositive(side, b1.Queue(side), o);
      b1.WithQueue(side, Insert(side, OrderPrice, b1.Queue(side), o))
    else b1
  }

  function Without(s: seq<Order>, id: nat): (r: seq<Order>)
    ensures |r| <= |s|
    ensures forall o :: o in r <==> o in s && o.id != id
  {
    if s == [] then []
    else if s[0].id == id then Without(s[1..], id)
    else [s[0]] + Without(s[1..], id)
  }

  function Cancel(b: ListBook, id: nat): (r: ListBook)
    requires PositiveBook(b)
    ensures PositiveBook(r)
  {
    b.(bids := Without(b.bids, id), asks := Without(b.asks, id))
  }

  function Apply(b: ListBook, op: Op): (r: ListBook)
    requires PositiveBook(b)
    ensures PositiveBook(r)
  {
    match op
    case LimitOp(side, price, qty, id) => Limit(b, side, price, qty, id)
    case CancelOp(id) => Cancel(b, id)
  }

  /** The book after a whole stream of operations. */
  function Run(ops: seq<Op>): (r: ListBook)
    ensures PositiveBook(r)
  {
    if ops == [] then EMPTY else Apply(Run(ops[..|ops| - 1]), ops[|ops| - 1])
  }

  lemma {:induction false} InsertPositive(side: Side, s: seq<Order>, o: Order)
    requires Positive(s) && o.qty > 0
    ensures Positive(Insert(side, OrderPrice, s, o))
  {
    if s == [] || !AtLeastAsGood(side, OrderPrice(s[0]), OrderPrice(o)) {
    } else {
      InsertPositive(side, s[1..], o);
    }
  }

  // ------------------------------------------------------------ what matching means

  /** Every resting order the taker may trade with, in queue order. */
  function Crossing(taker: Side, limit: int, s: seq<Order>): seq<Order> {
    if s == [] then []
    else if Crosses(taker, s[0].price, limit) then [s[0]] + Crossing(taker, limit, s[1..])
    else Crossing(taker, limit, s[1..])
  }

  function FullFills(id: nat, s: seq<Order>): seq<Trade> {
    if s == [] then []
    else [Trade(id, s[0].id, s[0].price, s[0].qty, 0)] + FullFills(id, s[1..])
  }

  /**
   * Price-time matching, stated without saying how it is computed: the first `k` crossing orders
   * are filled whole, the next one gives up `part` and stays at the head, everything else is
   * untouched, and as much is filled as the taker wants and the crossing orders offer.
   */
  ghost predicate FillsPrefix(taker: Side, limit: int, id: nat, before: Matching, after: Matching, k: nat, part: int) {
    FillsFrom(Crossing(taker, limit, before.resting), id, before, after, k, part)
  }

  ghost predicate FillsFrom(c: seq<Order>, id: nat, before: Matching, after: Matching, k: nat, part: int) {
    && InRange(c, k, part) && |c| <= |before.resting|
    && TotalQty(c[..k]) + part == before.qty - after.qty == Min(Max(before.qty, 0), TotalQty(c))
    && after.resting == Remaining(before.resting, k, part)
    && after.log == before.log + Fills(id, c, k, part)
  }

  predicate InRange(s: seq<Order>, k: nat, part: int) {
    k <= |s| && 0 <= part && (part > 0 ==> k < |s| && part < s[k].qty)
  }

  function Remaining(s: seq<Order>, k: nat, part: int): seq<Order>
    requires k <= |s| && (part > 0 ==> k < |s|)
  {
    if part > 0 then [s[k].(qty := s[k].qty - part)] + s[k + 1..] else s[k..]
  }

  function Fills(id: nat, s: seq<Order>, k: nat, part: int): seq<Trade>
    requires k <= |s| && (part > 0 ==> k < |s|)
  {
    FullFills(id, s[..k]) +
    (if part > 0 then [Trade(id, s[k].id, s[k].price, part, s[k].qty - part)] else [])
  }

  ghost predicate FillsSome(taker: Side, limit: int, id: nat, before: Matching, after: Matching) {
    exists k: nat, part: int :: FillsPrefix(taker, limit, id, before, after, k, part)
  }

  lemma {:induction false} NoneCrossing(taker: Side, limit: int, s: seq<Order>)
    requires Sorted(taker.Opposite(), OrderPrice, s)
    requires s != [] ==> !Crosses(taker, s[0].price, limit)
    ensures Crossing(taker, limit, s) == []
  {
    if s != [] {
      assert forall i :: 1 <= i < |s| ==> AtLeastAsGood(taker.Opposite(), OrderPrice(s[0]), OrderPrice(s[i]));
      NoneCrossing(taker, limit, s[1..]);
    }
  }

  lemma {:induction false} CrossingIsPrefix(taker: Side, limit: int, s: seq<Order>)
    requires Sorted(taker.Opposite(), OrderPrice, s)
    ensures Crossing(taker, limit, s) <= s
    ensures forall i :: |Crossing(taker, limit, s)| <= i < |s| ==> !Crosses(taker, s[i].price, limit)
  {
    if s == [] {
    } else if Crosses(taker, s[0].price, limit) {
      CrossingIsPrefix(taker, limit, s[1..]);
    } else {
      NoneCrossing(taker, limit, s);
      assert forall i :: 1 <= i < |s| ==> AtLeastAsGood(taker.Opposite(), OrderPrice(s[0]), OrderPrice(s[i]));
    }
  }

  lemma {:induction false} TotalQtyNonNegative(s: seq<Order>)
    requires Positive(s)
    ensures TotalQty(s) >= 0 && (s != [] ==> TotalQty(s) > 0)
  {
    if s != [] {
      TotalQtyNonNegative(s[1..]);
    }
  }

  /** Matching fulfils the price-time specification. */
  lemma {:induction false} MatchFillsPrefix(taker: Side, limit: int, id: nat, m: Matching) returns (k: nat, part: int)
    requires Positive(m.resting) && Sorted(taker.Opposite(), OrderPrice, m.resting)
    ensures FillsPrefix(taker, limit, id, m, Match(taker, limit, id, m), k, part)
    decreases |m.resting|
  {
    if m.qty <= 0 || m.resting == [] || !Crosses(taker, m.resting[0].price, limit) {
      k, part := 0, 0;
      NothingFills(taker, limit, id, m);
    } else if m.qty < m.resting[0].qty {
      k, part := 0, m.qty;
      CrossingIsPrefix(taker, limit, m.resting);
      PartFill(taker, limit, id, m);
    } else {
      var h, n := m.resting[0], FillHead(id, m);
      assert m.resting == [h] + n.resting;
      TailSorted(taker.Opposite(), m.resting);
      var k1, p1 := MatchFillsPrefix(taker, limit, id, n);
      k, part := k1 + 1, p1;
      WholeFill(h, Crossing(taker, limit, n.resting), id, m, n, Match(taker, limit, id, n), k1, p1);
    }
  }

  lemma TailSorted(side: Side, s: seq<Order>)
    requires s != [] && Sorted(side, OrderPrice, s)
    ensures Sorted(side, OrderPrice, s[1..])
  {
    forall i, j | 0 <= i < j < |s[1..]|
      ensures AtLeastAsGood(side, OrderPrice(s[1..][i]), OrderPrice(s[1..][j]))
    {
      assert s[1..][i] == s[i + 1] && s[1..][j] == s[j + 1];
    }
  }

  lemma NothingFills(taker: Side, limit: int, id: nat, m: Matching)
    requires Positive(m.resting) && Sorted(taker.Opposite(), OrderPrice, m.resting)
    requires m.qty <= 0 || (m.qty > 0 && (m.resting == [] || !Crosses(taker, m.resting[0].price, limit)))
    ensures FillsPrefix(taker, limit, id, m, m, 0, 0)
  {
    CrossingIsPrefix(taker, limit, m.resting);
    var c := Crossing(taker, limit, m.resting);
    TotalQtyNonNegative(c);
    if m.qty > 0 {
      NoneCrossing(taker, limit, m.resting);
    }
    assert c[..0] == [] && m.resting[0..] == m.resting;
    assert m.log + [] + [] == m.log;
  }

  lemma PartFill(taker: Side, limit: int, id: nat, m: Matching)
    requires Positive(m.resting) && m.resting != [] && 0 < m.qty < m.resting[0].qty
    requires Crosses(taker, m.resting[0].price, limit)
    requires Crossing(taker, limit, m.resting) <= m.resting
    ensures FillsPrefix(taker, limit, id, m, Match(taker, limit, id, m), 0, m.qty)
  {
    var c := Crossing(taker, limit, m.resting);
    var n := FillHead(id, m);
    assert Match(taker, limit, id, m) == n;
    assert c == [m.resting[0]] + c[1..] && c[..0] == [];
    TotalQtyNonNegative(c[1..]);
    assert m.log + [] + [n.log[|m.log|]] == n.log;
  }

  lemma FillsOfCons(id: nat, h: Order, d: seq<Order>, k: nat, part: int)
    requires InRange(d, k, part)
    ensures Fills(id, [h] + d, k + 1, part) == [Trade(id, h.id, h.price, h.qty, 0)] + Fills(id, d, k, part)
    ensures TotalQty(([h] + d)[..k + 1]) == h.qty + TotalQty(d[..k])
    ensures Remaining([h] + d, k + 1, part) == Remaining(d, k, part)
  {
    assert ([h] + d)[..k + 1] == [h] + d[..k];
    assert ([h] + d)[k + 1..] == d[k..];
    if part > 0 {
      assert ([h] + d)[k + 2..] == d[k + 1..];
    }
  }

  lemma WholeFill(h: Order, d: seq<Order>, id: nat, m: Matching, n: Matching, after: Matching, k: nat, part: int)
    requires m.resting == [h] + n.resting && m.qty >= h.qty > 0
    requires n.qty == m.qty - h.qty && n.log == m.log + [Trade(id, h.id, h.price, h.qty, 0)]
    requires FillsFrom(d, id, n, after, k, part)
    ensures FillsFrom([h] + d, id, m, after, k + 1, part)
  {
    FillsOfCons(id, h, d, k, part);
    assert ([h] + d)[1..] == d;
    assert Remaining(m.resting, k + 1, part) == Remaining(n.resting, k, part) by {
      assert m.resting[k + 1..] == n.resting[k..];
      if part > 0 {
        assert m.resting[k + 2..] == n.resting[k + 1..];
      }
    }
    var first := [Trade(id, h.id, h.price, h.qty, 0)];
    assert m.log + first + Fills(id, d, k, part) == m.log + (first + Fills(id, d, k, part));
  }

  lemma {:induction false} TotalQtySplit(s: seq<Order>, k: nat)
    requires k <= |s|
    ensures TotalQty(s) == TotalQty(s[..k]) + TotalQty(s[k..])
  {
    if k == 0 {
      assert s[..0] == [] && s[0..] == s;
    } else {
      TotalQtySplit(s[1..], k - 1);
      assert s[..k] == [s[0]] + s[1..][..k - 1];
      assert s[k..] == s[1..][k - 1..];
    }
  }

  /** How far a fill reaches is settled by how much is filled. */
  lemma PrefixIsUnique(s: seq<Order>, k1: nat, p1: int, k2: nat, p2: int)
    requires Positive(s) && k1 <= |s| && k2 <= |s|
    requires 0 <= p1 && (p1 > 0 ==> k1 < |s| && p1 < s[k1].qty)
    requires 0 <= p2 && (p2 > 0 ==> k2 < |s| && p2 < s[k2].qty)
    requires TotalQty(s[..k1]) + p1 == TotalQty(s[..k2]) + p2
    ensures k1 == k2 && p1 == p2
  {
    if k1 < k2 {
      ShorterPrefixFillsLess(s, k1, p1, k2);
    } else if k2 < k1 {
      ShorterPrefixFillsLess(s, k2, p2, k1);
    }
  }

  lemma ShorterPrefixFillsLess(s: seq<Order>, k1: nat, p1: int, k2: nat)
    requires Positive(s) && k1 < k2 <= |s|
    requires 0 <= p1 && (p1 > 0 ==> p1 < s[k1].qty)
    ensures TotalQty(s[..k1]) + p1 < TotalQty(s[..k2])
  {
    TotalQtySplit(s[..k2], k1);
    assert s[..k2][..k1] == s[..k1];
    var mid := s[..k2][k1..];
    assert mid[0] == s[k1];
    TotalQtyNonNegative(mid[1..]);
  }

  lemma FillsPrefixIsUnique(taker: Side, limit: int, id: nat, m: Matching,
                            r1: Matching, k1: nat, p1: int, r2: Matching, k2: nat, p2: int)
    requires Positive(m.resting) && Sorted(taker.Opposite(), OrderPrice, m.resting)
    requires FillsPrefix(taker, limit, id, m, r1, k1, p1)
    requires FillsPrefix(taker, limit, id, m, r2, k2, p2)
    ensures r1 == r2
  {
    CrossingIsPrefix(taker, limit, m.resting);
    PrefixIsUnique(Crossing(taker, limit, m.resting), k1, p1, k2, p2);
  }

  /** The price-time specification has exactly one solution, and matching computes it. */
  lemma MatchIsPriceTime(taker: Side, limit: int, id: nat, m: Matching, after: Matching)
    requires Positive(m.resting) && Sorted(taker.Opposite(), OrderPrice, m.resting)
    ensures after == Match(taker, limit, id, m) <==> FillsSome(taker, limit, id, m, after)
  {
    var r := Match(taker, limit, id, m);
    var k0, p0 := MatchFillsPrefix(taker, limit, id, m);
    assert FillsSome(taker, limit, id, m, r);
    forall k: nat, part: int | FillsPrefix(taker, limit, id, m, after, k, part)
      ensures after == r
    {
      FillsPrefixIsUnique(taker, limit, id, m, r, k0, p0, after, k, part);
    }
  }
}
