/** In which order the checksum takes the live orders, said without sorting, and that it sees each of them. */
module FoldOrders {
  import opened Words
  import opened Orders
  import opened Checksum
  import Eager = EagerBook

  // ------------------------------------------------------------ price ascending, first come first served

  /** The orders at one price, in their order. */
  function AtPrice(s: seq<Order>, p: int): seq<Order> {
    if s == [] then []
    else if s[0].price == p then [s[0]] + AtPrice(s[1..], p)
    else AtPrice(s[1..], p)
  }

  ghost predicate Ascending(s: seq<Order>) {
    forall i, j :: 0 <= i < j < |s| ==> s[i].price <= s[j].price
  }

  /** `t` is `s` by ascending price, each price in the order of `s`. */
  ghost predicate Rearranges(s: seq<Order>, t: seq<Order>) {
    Ascending(t) && forall p :: AtPrice(t, p) == AtPrice(s, p)
  }

  lemma {:induction false} AtPriceConcat(s: seq<Order>, t: seq<Order>, p: int)
    ensures AtPrice(s + t, p) == AtPrice(s, p) + AtPrice(t, p)
  {
    if s == [] {
      assert s + t == t;
    } else {
      assert (s + t)[1..] == s[1..] + t;
      AtPriceConcat(s[1..], t, p);
    }
  }

  lemma {:induction false} NoneAtPrice(s: seq<Order>, p: int)
    requires forall i :: 0 <= i < |s| ==> s[i].price != p
    ensures AtPrice(s, p) == []
  {
    if s != [] {
      NoneAtPrice(s[1..], p);
    }
  }

  lemma {:induction false} SomeAtPrice(s: seq<Order>, p: int)
    requires AtPrice(s, p) != []
    ensures exists i :: 0 <= i < |s| && s[i].price == p
  {
    if !exists i :: 0 <= i < |s| && s[i].price == p {
      NoneAtPrice(s, p);
    }
  }

  lemma InsertAscending(s: seq<Order>, x: Order)
    requires Ascending(s)
    ensures Ascending(Insert(Ask, OrderPrice, s, x))
  {
    assert Sorted(Ask, OrderPrice, s);
    InsertSorted(Ask, OrderPrice, s, x);
    var r := Insert(Ask, OrderPrice, s, x);
    assert forall i, j :: 0 <= i < j < |r| ==> AtLeastAsGood(Ask, OrderPrice(r[i]), OrderPrice(r[j]));
  }

  lemma InsertRearranges(s: seq<Order>, x: Order, p: int)
    requires Ascending(s)
    ensures AtPrice(Insert(Ask, OrderPrice, s, x), p) == AtPrice(s + [x], p)
  {
    assert Sorted(Ask, OrderPrice, s);
    var k := InsertPosition(Ask, OrderPrice, s, x);
    var front, back := s[..k], s[k..];
    assert Insert(Ask, OrderPrice, s, x) == front + ([x] + back) && s == front + back;
    if p == x.price {
      forall i | 0 <= i < |back|
        ensures back[i].price != p
      {
        assert !AtLeastAsGood(Ask, OrderPrice(s[k + i]), OrderPrice(x));
      }
      NoneAtPrice(back, p);
    }
    MovedBehind(front, x, back, p);
  }

  lemma MovedBehind(front: seq<Order>, x: Order, back: seq<Order>, p: int)
    requires p == x.price ==> AtPrice(back, p) == []
    ensures AtPrice(front + ([x] + back), p) == AtPrice(front + back + [x], p)
  {
    AtPriceConcat(front, [x] + back, p);
    AtPriceConcat([x], back, p);
    AtPriceConcat(front, back, p);
    AtPriceConcat(front + back, [x], p);
  }

  lemma {:induction false} SortRearranges(s: seq<Order>)
    ensures Rearranges(s, SortAscending(OrderPrice, s))
  {
    if s != [] {
      var t, x := s[..|s| - 1], s[|s| - 1];
      SortRearranges(t);
      var r := SortAscending(OrderPrice, t);
      forall p
        ensures AtPrice(SortAscending(OrderPrice, s), p) == AtPrice(s, p)
      {
        InsertRearranges(r, x, p);
        AtPriceConcat(r, [x], p);
        AtPriceConcat(t, [x], p);
        assert s == t + [x];
      }
      InsertAscending(r, x);
    }
  }

  lemma HeadsAgree(t: seq<Order>, u: seq<Order>)
    requires Ascending(t) && Ascending(u) && t != [] && u != []
    requires forall p :: AtPrice(t, p) == AtPrice(u, p)
    ensures t[0] == u[0]
  {
    var p, q := t[0].price, u[0].price;
    assert AtPrice(t, p) != [] && AtPrice(u, q) != [];
    SomeAtPrice(u, p);
    SomeAtPrice(t, q);
    assert p == q;
    assert AtPrice(t, p)[0] == t[0] && AtPrice(u, p)[0] == u[0];
  }

  /** There is only one such arrangement. */
  lemma {:induction false} OneArrangement(t: seq<Order>, u: seq<Order>)
    requires Ascending(t) && Ascending(u) && forall p :: AtPrice(t, p) == AtPrice(u, p)
    ensures t == u
  {
    assert u != [] ==> AtPrice(t, u[0].price) == AtPrice(u, u[0].price) != [];
    if t != [] {
      assert AtPrice(t, t[0].price) != [];
      SomeAtPrice(u, t[0].price);
      HeadsAgree(t, u);
      forall p
        ensures AtPrice(t[1..], p) == AtPrice(u[1..], p)
      {
        assert AtPrice(t, p) == AtPrice(u, p);
        if p == t[0].price {
          assert AtPrice(t[1..], p) == AtPrice(t, p)[1..] && AtPrice(u[1..], p) == AtPrice(u, p)[1..];
        }
      }
      OneArrangement(t[1..], u[1..]);
    }
  }

  /**
   * The checksum is the fold, from 0, of the bids by ascending price and then the asks by ascending
   * price, first come first served at each price; and that says which fold it is.
   */
  lemma ChecksumOrder(b: Eager.ListBook, bids: seq<Order>, asks: seq<Order>)
    requires Rearranges(b.bids, bids) && Rearranges(b.asks, asks)
    ensures OfEager(b) == Fold(Hash, 0, bids + asks)
  {
    SortRearranges(b.bids);
    SortRearranges(b.asks);
    OneArrangement(bids, SortAscending(OrderPrice, b.bids));
    OneArrangement(asks, SortAscending(OrderPrice, b.asks));
    FoldConcat(Hash, 0, bids, asks);
  }

  lemma ArrangementExists(b: Eager.ListBook) returns (bids: seq<Order>, asks: seq<Order>)
    ensures Rearranges(b.bids, bids) && Rearranges(b.asks, asks)
  {
    bids, asks := SortAscending(OrderPrice, b.bids), SortAscending(OrderPrice, b.asks);
    SortRearranges(b.bids);
    SortRearranges(b.asks);
  }

  // ------------------------------------------------------------ one order that is different

  lemma {:induction false} AtPriceSwapped(s: seq<Order>, j: nat, x: Order, p: int) returns (k: nat)
    requires j < |s| && x.price == s[j].price
    ensures p != x.price ==> AtPrice(s[j := x], p) == AtPrice(s, p)
    ensures p == x.price ==>
              k < |AtPrice(s, p)| && AtPrice(s, p)[k] == s[j] && AtPrice(s[j := x], p) == AtPrice(s, p)[k := x]
  {
    var t := s[1..];
    if j == 0 {
      k := 0;
      assert s[0 := x][1..] == t;
    } else {
      k := AtPriceSwapped(t, j - 1, x, p);
      assert s[j := x][1..] == t[j - 1 := x];
      if s[0].price == p {
        k := k + 1;
      }
    }
  }

  lemma {:induction false} InsertSwapsNew(s: seq<Order>, y: Order, x: Order) returns (k: nat)
    requires x.price == y.price
    ensures var r := Insert(Ask, OrderPrice, s, y);
            k < |r| && r[k] == y && Insert(Ask, OrderPrice, s, x) == r[k := x]
  {
    if s == [] || !AtLeastAsGood(Ask, s[0].price, y.price) {
      k := 0;
    } else {
      k := InsertSwapsNew(s[1..], y, x);
      k := k + 1;
    }
  }

  lemma {:induction false} InsertSwapsOld(s: seq<Order>, j: nat, x: Order, y: Order) returns (k: nat)
    requires j < |s| && x.price == s[j].price
    ensures var r := Insert(Ask, OrderPrice, s, y);
            k < |r| && r[k] == s[j] && Insert(Ask, OrderPrice, s[j := x], y) == r[k := x]
  {
    if !AtLeastAsGood(Ask, s[0].price, y.price) {
      k := j + 1;
    } else if j == 0 {
      k := 0;
      assert s[0 := x][1..] == s[1..];
    } else {
      k := InsertSwapsOld(s[1..], j - 1, x, y);
      k := k + 1;
      assert s[j := x][1..] == s[1..][j - 1 := x];
    }
  }

  /** An order that changes, but not its price, keeps its place. */
  lemma {:induction false} SortSwaps(s: seq<Order>, j: nat, x: Order) returns (k: nat)
    requires j < |s| && x.price == s[j].price
    ensures var r := SortAscending(OrderPrice, s);
            k < |r| && r[k] == s[j] && SortAscending(OrderPrice, s[j := x]) == r[k := x]
  {
    var t, y := s[..|s| - 1], s[|s| - 1];
    if j == |s| - 1 {
      assert s[j := x][..|s| - 1] == t;
      k := InsertSwapsNew(SortAscending(OrderPrice, t), y, x);
    } else {
      assert s[j := x][..|s| - 1] == t[j := x];
      k := SortSwaps(t, j, x);
      k := InsertSwapsOld(SortAscending(OrderPrice, t), k, x, y);
    }
  }

  lemma HashSeesBids(s: seq<Order>, t: seq<Order>, asks: seq<Order>)
    requires Fold(Hash, 0, s) != Fold(Hash, 0, t)
    ensures Fold(Hash, Fold(Hash, 0, s), asks) != Fold(Hash, Fold(Hash, 0, t), asks)
  {
    HashIsInjective();
    FoldInjective(Hash, Fold(Hash, 0, s), Fold(Hash, 0, t), asks);
  }

  /** Two books that differ only in the id of one order never share a checksum. */
  lemma ChecksumSeesId(b: Eager.ListBook, side: Side, j: nat, id: nat)
    requires j < |b.Queue(side)| && ToWord(id) != ToWord(b.Queue(side)[j].id)
    ensures OfEager(b.WithQueue(side, b.Queue(side)[j := b.Queue(side)[j].(id := id)])) != OfEager(b)
  {
    var s := b.Queue(side);
    var r, x := SortAscending(OrderPrice, s), s[j].(id := id);
    var k := SortSwaps(s, j, x);
    match side
    case Bid =>
      FoldSeesId(0, r, k, id);
      HashSeesBids(r, r[k := x], SortAscending(OrderPrice, b.asks));
    case Ask =>
      FoldSeesId(Fold(Hash, 0, SortAscending(OrderPrice, b.bids)), r, k, id);
  }

  /** Nor do two whose folds differ only in the price of one order, from 0 to below 2^44. */
  lemma ChecksumSeesPrice(b: Eager.ListBook, b': Eager.ListBook, bids: seq<Order>, asks: seq<Order>,
                          k: nat, price: int)
    requires Rearranges(b.bids, bids) && Rearranges(b.asks, asks) && k < |bids + asks|
    requires 0 <= price < 0x1000_0000_0000 && 0 <= (bids + asks)[k].price < 0x1000_0000_0000
    requires price != (bids + asks)[k].price
    requires var s := (bids + asks)[k := (bids + asks)[k].(price := price)];
             Rearranges(b'.bids, s[..|bids|]) && Rearranges(b'.asks, s[|bids|..])
    ensures OfEager(b') != OfEager(b)
  {
    var s := (bids + asks)[k := (bids + asks)[k].(price := price)];
    ChecksumOrder(b, bids, asks);
    ChecksumOrder(b', s[..|bids|], s[|bids|..]);
    assert s[..|bids|] + s[|bids|..] == s;
    FoldSeesSmallPrice(0, bids + asks, k, price);
  }
}
