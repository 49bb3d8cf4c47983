/** The checksum of a book: one splitmix64 draw per live order, bids then asks, price ascending. */
module Checksum {
  import opened Words
  import opened SplitMix
  import opened Orders
  import opened LazyBook
  import Eager = EagerBook

  function HashSeed(acc: Word, o: Order): Word {
    var p := Shl(ToWord(o.price), 20);
    XorIsWord(acc, ToWord(o.id));
    XorIsWord(Xor(acc, ToWord(o.id)), p);
    XorIsWord(Xor(Xor(acc, ToWord(o.id)), p), ToWord(o.qty));
    Xor(Xor(Xor(acc, ToWord(o.id)), p), ToWord(o.qty))
  }

  function Hash(acc: Word, o: Order): Word {
    Output(HashSeed(acc, o))
  }

  function Fold<A, T>(step: (A, T) -> A, acc: A, s: seq<T>): A {
    if s == [] then acc else Fold(step, step(acc, s[0]), s[1..])
  }

  /** The live orders of one side in fold order. */
  function FoldOrder(q: seq<Entry>, orders: map<nat, Resting>): seq<Order> {
    Live(SortAscending(EntryPrice, q), orders)
  }

  function Of(b: QueueBook): Word {
    Fold(Hash, Fold(Hash, 0, FoldOrder(b.bids, b.orders)), FoldOrder(b.asks, b.orders))
  }

  function OfEager(b: Eager.ListBook): Word {
    Fold(Hash, Fold(Hash, 0, SortAscending(OrderPrice, b.bids)), SortAscending(OrderPrice, b.asks))
  }

  lemma {:induction false} FoldConcat<A, T>(step: (A, T) -> A, acc: A, s: seq<T>, t: seq<T>)
    ensures Fold(step, acc, s + t) == Fold(step, Fold(step, acc, s), t)
  {
    if s == [] {
      assert s + t == t;
    } else {
      assert (s + t)[1..] == s[1..] + t;
      FoldConcat(step, step(acc, s[0]), s[1..], t);
    }
  }

  /** Folding one more queue entry: one more step if it is live, nothing if it is dead. */
  lemma FoldLiveLast<A>(step: (A, Order) -> A, acc: A, q: seq<Entry>, e: Entry, orders: map<nat, Resting>)
    ensures Fold(step, acc, Live(q + [e], orders)) ==
            FoldId(step, Fold(step, acc, Live(q, orders)), e.id, orders)
  {
    LiveConcat(q, [e], orders);
    if e.id in orders {
      var o := Order(e.id, orders[e.id].price, orders[e.id].qty);
      assert Live([e], orders) == [o];
      FoldConcat(step, acc, Live(q, orders), [o]);
      assert Fold(step, Fold(step, acc, Live(q, orders)), [o]) == step(Fold(step, acc, Live(q, orders)), o);
    } else {
      assert Live(q, orders) + [] == Live(q, orders);
    }
  }

  /** One more id: a step if it is live, nothing if it is dead. */
  function FoldId<A>(step: (A, Order) -> A, acc: A, id: nat, orders: map<nat, Resting>): A {
    if id in orders then step(acc, Order(id, orders[id].price, orders[id].qty)) else acc
  }

  // ------------------------------------------------------------ sensitivity

  lemma HashInjective(acc1: Word, o1: Order, acc2: Word, o2: Order)
    requires o1.id == o2.id && o1.price == o2.price
    requires acc1 == acc2 || ToWord(o1.qty) == ToWord(o2.qty)
    requires Hash(acc1, o1) == Hash(acc2, o2)
    ensures acc1 == acc2 && ToWord(o1.qty) == ToWord(o2.qty)
  {
    OutputInjective(HashSeed(acc1, o1), HashSeed(acc2, o2));
    var i, p := ToWord(o1.id), Shl(ToWord(o1.price), 20);
    var x1, x2 := Xor(Xor(acc1, i), p), Xor(Xor(acc2, i), p);
    if acc1 == acc2 {
      XorInjective(ToWord(o1.qty), ToWord(o2.qty), x1);
    } else {
      XorInjective(x1, x2, ToWord(o1.qty));
      XorInjective(Xor(acc1, i), Xor(acc2, i), p);
      XorInjective(acc1, acc2, i);
    }
  }

  ghost predicate InjectiveStep<A(!new), T(!new)>(step: (A, T) -> A) {
    forall a1, a2, x {:trigger step(a1, x), step(a2, x)} :: step(a1, x) == step(a2, x) ==> a1 == a2
  }

  lemma {:induction false} FoldInjective<A(!new), T(!new)>(step: (A, T) -> A, acc1: A, acc2: A, s: seq<T>)
    requires InjectiveStep(step) && acc1 != acc2
    ensures Fold(step, acc1, s) != Fold(step, acc2, s)
  {
    if s != [] {
      FoldInjective(step, step(acc1, s[0]), step(acc2, s[0]), s[1..]);
    }
  }

  /** A fold by an injective step that treats two elements differently ends differently. */
  lemma FoldSees<A(!new), T(!new)>(step: (A, T) -> A, acc: A, s: seq<T>, k: nat, x: T)
    requires InjectiveStep(step) && k < |s|
    requires var a := Fold(step, acc, s[..k]); step(a, s[k]) != step(a, x)
    ensures Fold(step, acc, s[k := x]) != Fold(step, acc, s)
  {
    var t := s[k + 1..];
    assert s == s[..k] + ([s[k]] + t) && s[k := x] == s[..k] + ([x] + t);
    FoldConcat(step, acc, s[..k], [s[k]] + t);
    FoldConcat(step, acc, s[..k], [x] + t);
    assert ([s[k]] + t)[1..] == t && ([x] + t)[1..] == t;
    var a := Fold(step, acc, s[..k]);
    FoldInjective(step, step(a, s[k]), step(a, x), t);
  }

  lemma HashIsInjective()
    ensures InjectiveStep(Hash)
  {
    forall a1: Word, a2: Word, o: Order | Hash(a1, o) == Hash(a2, o)
      ensures a1 == a2
    {
      HashInjective(a1, o, a2, o);
    }
  }

  /** Changing one quantity anywhere in the fold, to a different 64-bit word, changes the result. */
  lemma FoldSeesQuantity(acc: Word, s: seq<Order>, k: nat, qty: int)
    requires k < |s| && ToWord(qty) != ToWord(s[k].qty)
    ensures Fold(Hash, acc, s[k := s[k].(qty := qty)]) != Fold(Hash, acc, s)
  {
    var a := Fold(Hash, acc, s[..k]);
    var o' := s[k].(qty := qty);
    if Hash(a, s[k]) == Hash(a, o') {
      HashInjective(a, s[k], a, o');
    }
    HashIsInjective();
    FoldSees(Hash, acc, s, k, o');
  }

  // ------------------------------------------------------------ what the seed is made of

  /** Each bit of the seed is the parity of that bit of the accumulator, the id, the price times 2^20, the quantity. */
  lemma HashSeedBits(acc: Word, o: Order, i: nat)
    ensures Bit(HashSeed(acc, o), i) ==
            (Bit(acc, i) + Bit(ToWord(o.id), i) +
             Bit(ToWord(o.price) * 0x10_0000 % 0x1_0000_0000_0000_0000, i) + Bit(ToWord(o.qty), i)) % 2
  {
    var p := Shl(ToWord(o.price), 20);
    assert p == ToWord(o.price) * 0x10_0000 % 0x1_0000_0000_0000_0000 by {
      Pow2Values();
    }
    XorOfFour(acc, ToWord(o.id), p, ToWord(o.qty), i);
  }

  lemma XorOfFour(a: nat, b: nat, c: nat, d: nat, i: nat)
    ensures Bit(Xor(Xor(Xor(a, b), c), d), i) == (Bit(a, i) + Bit(b, i) + Bit(c, i) + Bit(d, i)) % 2
  {
    var x, y := Xor(a, b), Xor(Xor(a, b), c);
    XorBitwise(a, b, i);
    XorBitwise(x, c, i);
    XorBitwise(y, d, i);
    Parity(Bit(a, i), Bit(b, i), Bit(c, i), Bit(d, i));
  }

  lemma Parity(a: nat, b: nat, c: nat, d: nat)
    ensures (((a + b) % 2 + c) % 2 + d) % 2 == (a + b + c + d) % 2
  {
  }

  /** A hash is the splitmix64 draw of a generator in that state. */
  lemma HashShowsSeed(acc: Word, o: Order)
    ensures Unmix(Hash(acc, o)) == (HashSeed(acc, o) + 0x9E37_79B9_7F4A_7C15) % 0x1_0000_0000_0000_0000
  {
    DrawShowsState(HashSeed(acc, o));
  }

  lemma ShiftedPrice(p: int, q: int)
    ensures ToWord(p) * 0x10_0000 % WORD == ToWord(q) * 0x10_0000 % WORD <==>
            p % 0x1000_0000_0000 == q % 0x1000_0000_0000
  {
    ShiftedPriceIs(p);
    ShiftedPriceIs(q);
  }

  lemma LowBitsAre(p: int, n: int, r: nat)
    requires p == n * 0x1000_0000_0000 + r && r < 0x1000_0000_0000
    ensures p % 0x1000_0000_0000 == r
  {
  }

  lemma ShiftedPriceIs(p: int)
    ensures ToWord(p) * 0x10_0000 % WORD == p % 0x1000_0000_0000 * 0x10_0000
  {
    var w, m := p / WORD, 0x1000_0000_0000;
    var q, r := ToWord(p) / m, ToWord(p) % m;
    assert p == w * WORD + ToWord(p) && ToWord(p) == q * m + r;
    LowBitsAre(p, w * 0x10_0000 + q, r);
    RemainderIs(ToWord(p) * 0x10_0000, q, r * 0x10_0000);
  }

  /** One hash tells the two prices of an order apart unless they agree in their low 44 bits. */
  lemma HashPriceExact(acc: Word, o: Order, price: int)
    ensures Hash(acc, o) == Hash(acc, o.(price := price)) <==>
            o.price % 0x1000_0000_0000 == price % 0x1000_0000_0000
  {
    var o' := o.(price := price);
    Pow2Values();
    ShiftedPrice(o.price, price);
    var x, p, p' := Xor(acc, ToWord(o.id)), Shl(ToWord(o.price), 20), Shl(ToWord(price), 20);
    if Hash(acc, o) == Hash(acc, o') {
      OutputInjective(HashSeed(acc, o), HashSeed(acc, o'));
      XorInjective(Xor(x, p), Xor(x, p'), ToWord(o.qty));
      XorInjective(p, p', x);
    }
  }

  /** And the two ids of an order unless they are the same word. */
  lemma HashIdExact(acc: Word, o: Order, id: nat)
    ensures Hash(acc, o) == Hash(acc, o.(id := id)) <==> ToWord(o.id) == ToWord(id)
  {
    var o' := o.(id := id);
    var p := Shl(ToWord(o.price), 20);
    if Hash(acc, o) == Hash(acc, o') {
      OutputInjective(HashSeed(acc, o), HashSeed(acc, o'));
      XorInjective(Xor(Xor(acc, ToWord(o.id)), p), Xor(Xor(acc, ToWord(id)), p), ToWord(o.qty));
      XorInjective(Xor(acc, ToWord(o.id)), Xor(acc, ToWord(id)), p);
      XorInjective(ToWord(o.id), ToWord(id), acc);
    }
  }

  /** Changing one price anywhere in the fold, in its low 44 bits, changes the result; so does changing one id. */
  lemma FoldSeesPrice(acc: Word, s: seq<Order>, k: nat, price: int)
    requires k < |s| && s[k].price % 0x1000_0000_0000 != price % 0x1000_0000_0000
    ensures Fold(Hash, acc, s[k := s[k].(price := price)]) != Fold(Hash, acc, s)
  {
    HashPriceExact(Fold(Hash, acc, s[..k]), s[k], price);
    HashIsInjective();
    FoldSees(Hash, acc, s, k, s[k].(price := price));
  }

  lemma LowBits(p: int)
    requires 0 <= p < 0x1000_0000_0000
    ensures p % 0x1000_0000_0000 == p
  {
  }

  lemma HashSeesSmallPrice(acc: Word, o: Order, price: int)
    requires 0 <= price < 0x1000_0000_0000 && 0 <= o.price < 0x1000_0000_0000 && price != o.price
    ensures Hash(acc, o) != Hash(acc, o.(price := price))
  {
    LowBits(price);
    LowBits(o.price);
    HashPriceExact(acc, o, price);
  }

  lemma FoldSeesSmallPrice(acc: Word, s: seq<Order>, k: nat, price: int)
    requires k < |s| && 0 <= price < 0x1000_0000_0000 && 0 <= s[k].price < 0x1000_0000_0000 && price != s[k].price
    ensures Fold(Hash, acc, s[k := s[k].(price := price)]) != Fold(Hash, acc, s)
  {
    LowBits(price);
    LowBits(s[k].price);
    FoldSeesPrice(acc, s, k, price);
  }

  lemma FoldSeesId(acc: Word, s: seq<Order>, k: nat, id: nat)
    requires k < |s| && ToWord(s[k].id) != ToWord(id)
    ensures Fold(Hash, acc, s[k := s[k].(id := id)]) != Fold(Hash, acc, s)
  {
    HashIdExact(Fold(Hash, acc, s[..k]), s[k], id);
    HashIsInjective();
    FoldSees(Hash, acc, s, k, s[k].(id := id));
  }
}
