/** The vocabulary shared by every version of the limit order book. */
module Orders {

  datatype Side = Bid | Ask {
    function Opposite(): Side {
      if Bid? then Ask else Bid
    }
  }

  /** An id waiting in the queue of a price level; the order itself may already be dead. */
  datatype Entry = Entry(id: nat, price: int)

  /** What the id store records about a live order. */
  datatype Resting = Resting(price: int, qty: int)

  /** A live order of the reference book. */
  datatype Order = Order(id: nat, price: int, qty: int)

  /** One fill event; `left` is what remains of the maker afterwards. */
  datatype Trade = Trade(taker: nat, maker: nat, price: int, qty: int, left: int)

  datatype Op =
    | LimitOp(side: Side, price: int, qty: int, id: nat)
    | CancelOp(id: nat)

  /** The four numbers a run prints; the counters are 64-bit. */
  datatype Report = Report(fills: nat, volume: nat, resting: nat, checksum: nat)

  function EntryPrice(e: Entry): int { e.price }

  function OrderPrice(o: Order): int { o.price }

  function Min(a: int, b: int): int {
    if a <= b then a else b
  }

  function Max(a: int, b: int): int {
    if a <= b then b else a
  }

  /** Price priority among the resting orders of one side: lowest ask, highest bid first. */
  predicate AtLeastAsGood(side: Side, p: int, q: int) {
    if side.Ask? then p <= q else q <= p
  }

  /** A taker with limit price `limit` may trade at the opposite price `best`. */
  predicate Crosses(taker: Side, best: int, limit: int) {
    if taker.Bid? then best <= limit else limit <= best
  }

  ghost predicate Sorted<T>(side: Side, price: T -> int, s: seq<T>) {
    forall i, j :: 0 <= i < j < |s| ==> AtLeastAsGood(side, price(s[i]), price(s[j]))
  }

  /** Queue `x` behind everything at its price or better. */
  function Insert<T>(side: Side, price: T -> int, s: seq<T>, x: T): (r: seq<T>)
    ensures |r| == |s| + 1
  {
    if s == [] || !AtLeastAsGood(side, price(s[0]), price(x)) then [x] + s
    else [s[0]] + Insert(side, price, s[1..], x)
  }

  /** Where Insert puts its element: behind all at-least-as-good prices, before all worse ones. */
  lemma {:induction false} InsertPosition<T>(side: Side, price: T -> int, s: seq<T>, x: T) returns (k: nat)
    requires Sorted(side, price, s)
    ensures k <= |s| && Insert(side, price, s, x) == s[..k] + [x] + s[k..]
    ensures forall i :: 0 <= i < k ==> AtLeastAsGood(side, price(s[i]), price(x))
    ensures forall i :: k <= i < |s| ==> !AtLeastAsGood(side, price(s[i]), price(x))
  {
    if s == [] || !AtLeastAsGood(side, price(s[0]), price(x)) {
      k := 0;
      assert s[..0] + [x] + s[0..] == [x] + s;
      assert forall i :: 0 < i < |s| ==> AtLeastAsGood(side, price(s[0]), price(s[i]));
    } else {
      var t := s[1..];
      var j := InsertPosition(side, price, t, x);
      k := j + 1;
      assert s[..k] == [s[0]] + t[..j] && s[k..] == t[j..];
      forall i | 0 <= i < |s|
        ensures AtLeastAsGood(side, price(s[i]), price(x)) <==> i < k
      {
        if i > 0 {
          assert s[i] == t[i - 1];
        }
      }
    }
  }

  lemma InsertSorted<T>(side: Side, price: T -> int, s: seq<T>, x: T)
    requires Sorted(side, price, s)
    ensures Sorted(side, price, Insert(side, price, s, x))
  {
    var k := InsertPosition(side, price, s, x);
    var r := s[..k] + [x] + s[k..];
    forall i, j | 0 <= i < j < |r|
      ensures AtLeastAsGood(side, price(r[i]), price(r[j]))
    {
      var a, b := if i <= k then i else i - 1, if j <= k then j else j - 1;
      assert i != k ==> r[i] == s[a];
      assert j != k ==> r[j] == s[b];
    }
  }

  /** Ascending by price, equal prices in their original order: the order in which a book is folded. */
  function SortAscending<T>(price: T -> int, s: seq<T>): (r: seq<T>)
    ensures |r| == |s|
  {
    if s == [] then []
    else Insert(Ask, price, SortAscending(price, s[..|s| - 1]), s[|s| - 1])
  }

  lemma {:induction false} InsertMembers<T>(side: Side, price: T -> int, s: seq<T>, x: T, y: T)
    ensures y in Insert(side, price, s, x) <==> y == x || y in s
  {
    if s == [] || !AtLeastAsGood(side, price(s[0]), price(x)) {
    } else {
      InsertMembers(side, price, s[1..], x, y);
      assert s == [s[0]] + s[1..];
    }
  }

  function TotalQty(s: seq<Order>): int {
    if s == [] then 0 else s[0].qty + TotalQty(s[1..])
  }

  function TradedQty(log: seq<Trade>): int {
    if log == [] then 0 else TradedQty(log[..|log| - 1]) + log[|log| - 1].qty
  }
}
