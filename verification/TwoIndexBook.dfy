/**
 * The idiomatic engine of the Go version: per side an ordered set of prices and, apart from it, a map
 * from price to level, which the code keeps in step by hand. A level is a list with a head index,
 * and a partial fill is written back to the id map.
 */
module TwoIndexBook {
  import opened Words
  import opened Orders
  import opened Levels
  import opened Ladder
  import opened LevelFolds
  import opened Counters
  import opened FillPrices
  import Lazy = LazyBook
  import Replacing = ReplacingBook
  import Checksum

  type LevelMap = map<int, FlatLevel>

  ghost predicate HeadsIn(m: LevelMap) {
    forall p :: p in m ==> m[p].head <= |m[p].ids|
  }

  /** What the level map queues, leaving out a level that is used up. */
  ghost function Queues(m: LevelMap): PriceLevels
    requires HeadsIn(m)
  {
    map p | p in m && m[p].head < |m[p].ids| :: m[p].Waiting()
  }

  /** The two structures of a side agree, and no level is kept empty. */
  ghost predicate InStep(prices: set<int>, m: LevelMap) {
    && (forall p :: p in prices <==> p in m)
    && forall p :: p in m ==> m[p].head < |m[p].ids|
  }

  /** The same while level `best` is being matched. */
  ghost predicate InStepBut(prices: set<int>, m: LevelMap, best: int) {
    && (forall p :: p in prices <==> p in m) && HeadsIn(m) && best in m
    && forall p :: p in m && p != best ==> m[p].head < |m[p].ids|
  }

  lemma QueuesInStep(prices: set<int>, m: LevelMap)
    requires InStep(prices, m)
    ensures AllNonEmpty(Queues(m))
    ensures forall p :: p in Queues(m) <==> p in prices
  {
  }

  lemma QueuesPop(m: LevelMap, p: int)
    requires HeadsIn(m) && p in m && !m[p].IsEmpty()
    ensures HeadsIn(m[p := PastHead(m[p])]) && AllNonEmpty(Queues(m))
    ensures p in Queues(m) && Queues(m)[p][0] == m[p].ids[m[p].head]
    ensures Queues(m[p := PastHead(m[p])]) == Pop(Queues(m), p)
  {
    assert Queues(m)[p] == m[p].Waiting();
    assert Queues(m)[p][1..] == m[p].ids[m[p].head + 1..];
    SameMaps(Queues(m[p := PastHead(m[p])]), Pop(Queues(m), p));
  }

  lemma QueuesErase(m: LevelMap, p: int)
    requires HeadsIn(m) && p in m && m[p].IsEmpty()
    ensures HeadsIn(m - {p}) && Queues(m - {p}) == Queues(m)
  {
    SameMaps(Queues(m - {p}), Queues(m));
  }

  function LevelAt(m: LevelMap, p: int): FlatLevel {
    if p in m then m[p] else FRESH
  }

  lemma QueuesPush(m: LevelMap, p: int, id: nat)
    requires HeadsIn(m)
    ensures var l := LevelAt(m, p);
            HeadsIn(m[p := PushLevel(l, id)]) && Queues(m[p := PushLevel(l, id)]) == Push(Queues(m), p, id)
  {
    var l := LevelAt(m, p);
    assert PushLevel(l, id).ids[l.head..] == l.ids[l.head..] + [id];
    assert Queue(Queues(m), p) == l.Waiting();
    SameMaps(Queues(m[p := PushLevel(l, id)]), Push(Queues(m), p, id));
  }

  lemma PushInStep(prices: set<int>, m: LevelMap, p: int, id: nat)
    requires InStep(prices, m)
    ensures InStep(prices + {p}, m[p := PushLevel(LevelAt(m, p), id)])
    ensures p in m ==> prices + {p} == prices
  {
  }

  lemma SamePrices(prices: set<int>, m: LevelMap)
    requires InStep(prices, m)
    ensures Queues(m).Keys == prices
  {
    QueuesInStep(prices, m);
    assert forall p :: p in Queues(m).Keys <==> p in prices;
  }

  class Book {
    var bidPrices: set<int>
    var askPrices: set<int>
    var bidLevels: LevelMap
    var askLevels: LevelMap
    var orders: map<nat, Resting>
    var fills: Word
    var volume: Word
    ghost var log: seq<Trade>
    ghost var skips: nat

    function PricesOn(side: Side): set<int>
      reads this
    {
      if side.Bid? then bidPrices else askPrices
    }

    function LevelsOn(side: Side): LevelMap
      reads this
    {
      if side.Bid? then bidLevels else askLevels
    }

    ghost predicate StoreValid()
      reads this
    {
      Lazy.Positive(orders) && Counts(log, fills, volume)
    }

    /** The price sets hold exactly the keys of the level maps, and every stored level is non-empty. */
    ghost predicate Valid()
      reads this
    {
      StoreValid() && InStep(bidPrices, bidLevels) && InStep(askPrices, askLevels)
    }

    ghost predicate Working(side: Side, price: int, best: int)
      reads this
    {
      && StoreValid() && InStep(PricesOn(side), LevelsOn(side))
      && InStepBut(PricesOn(side.Opposite()), LevelsOn(side.Opposite()), best)
      && IsBest(side.Opposite(), PricesOn(side.Opposite()), best)
      && Crosses(side, best, price)
    }

    ghost function Sweeping(side: Side, qty: int): Lazy.Sweeping
      reads this
      requires HeadsIn(LevelsOn(side.Opposite()))
    {
      Lazy.Sweeping(Entries(side.Opposite(), Queues(LevelsOn(side.Opposite()))), orders, qty, log, skips)
    }

    ghost function Abs(): Lazy.QueueBook
      reads this
      requires HeadsIn(bidLevels) && HeadsIn(askLevels)
    {
      Lazy.QueueBook(Entries(Bid, Queues(bidLevels)), Entries(Ask, Queues(askLevels)), orders, log, skips)
    }

    constructor ()
      ensures Valid() && Abs() == Lazy.EMPTY
    {
      bidPrices, askPrices, bidLevels, askLevels, orders := {}, {}, map[], map[], map[];
      fills, volume := 0, 0;
      log, skips := [], 0;
      new;
      SameMaps(Queues(map[]), map[]);
    }

    /** Change one level in place. */
    method SetLevel(side: Side, price: int, l: FlatLevel)
      modifies `bidLevels, `askLevels
      ensures LevelsOn(side) == old(LevelsOn(side))[price := l]
      ensures LevelsOn(side.Opposite()) == old(LevelsOn(side.Opposite()))
    {
      if side.Bid? {
        bidLevels := bidLevels[price := l];
      } else {
        askLevels := askLevels[price := l];
      }
    }

    /** Step past the head of the best level. */
    method PopFront(side: Side, price: int, best: int)
      requires Working(side, price, best) && !LevelsOn(side.Opposite())[best].IsEmpty()
      modifies `bidLevels, `askLevels
      ensures Working(side, price, best) && LevelsOn(side) == old(LevelsOn(side))
      ensures old(Sweeping(side, 0)).queue ==
              [Entry(old(LevelsOn(side.Opposite()))[best].ids[old(LevelsOn(side.Opposite()))[best].head], best)] +
              Sweeping(side, 0).queue
    {
      var opp := side.Opposite();
      var l := LevelsOn(opp)[best];
      QueuesPop(LevelsOn(opp), best);
      PopBest(opp, Queues(LevelsOn(opp)), best);
      SetLevel(opp, best, PastHead(l));
    }

    lemma HeadIs(side: Side, price: int, qty: int, best: int)
      requires qty > 0 && Working(side, price, best) && !LevelsOn(side.Opposite())[best].IsEmpty()
      ensures var l, t := LevelsOn(side.Opposite())[best], Sweeping(side, qty);
              && t.queue != [] && t.queue[0] == Entry(l.ids[l.head], best)
              && !Lazy.Stops(side, price, t)
    {
      QueuesPop(LevelsOn(side.Opposite()), best);
      PopBest(side.Opposite(), Queues(LevelsOn(side.Opposite())), best);
    }

    method SkipDead(side: Side, price: int, qty: int, id: nat, best: int)
      requires qty > 0 && Working(side, price, best) && !LevelsOn(side.Opposite())[best].IsEmpty()
      requires var l := LevelsOn(side.Opposite())[best]; l.ids[l.head] !in orders
      modifies `bidLevels, `askLevels, `skips
      ensures Working(side, price, best) && LevelsOn(side) == old(LevelsOn(side))
      ensures old(Sweeping(side, qty)).queue != []
      ensures Sweeping(side, qty) == Lazy.HeadStep(id, old(Sweeping(side, qty)))
    {
      ghost var t := Sweeping(side, qty);
      HeadIs(side, price, qty, best);
      PopFront(side, price, best);
      skips := skips + 1;
      Lazy.SkipIsHeadStep(id, t, Sweeping(side, qty));
    }

    /** A fill works on a copy of the record and writes it back unless nothing is left. */
    method FillLive(side: Side, price: int, qty: int, id: nat, best: int) returns (q: int)
      requires qty > 0 && Working(side, price, best) && !LevelsOn(side.Opposite())[best].IsEmpty()
      requires var l := LevelsOn(side.Opposite())[best]; l.ids[l.head] in orders
      modifies `bidLevels, `askLevels, `orders, `fills, `volume, `log
      ensures Working(side, price, best) && LevelsOn(side) == old(LevelsOn(side))
      ensures old(Sweeping(side, qty)).queue != []
      ensures Sweeping(side, q) == Lazy.HeadStep(id, old(Sweeping(side, qty)))
    {
      ghost var t := Sweeping(side, qty);
      HeadIs(side, price, qty, best);
      var lvl := LevelsOn(side.Opposite())[best];
      var head := lvl.ids[lvl.head];
      var rec := orders[head];
      ghost var r := rec;
      var m := Min(qty, rec.qty);
      rec := rec.(qty := rec.qty - m);
      q := qty - m;
      log, fills, volume := CountFill(log, fills, volume, Trade(id, head, best, m, rec.qty));
      if rec.qty == 0 {
        orders := orders - {head};
        PopFront(side, price, best);
      } else {
        orders := orders[head := rec];
      }
      Lazy.FillIsHeadStep(id, t, Sweeping(side, q), r, m);
    }

    /** One turn of the inner loop. */
    method MatchHead(side: Side, price: int, qty: int, id: nat, best: int) returns (q: int)
      requires qty > 0 && Working(side, price, best) && !LevelsOn(side.Opposite())[best].IsEmpty()
      modifies `bidLevels, `askLevels, `orders, `fills, `volume, `log, `skips
      ensures Working(side, price, best) && LevelsOn(side) == old(LevelsOn(side))
      ensures old(Sweeping(side, qty)).queue != []
      ensures !Lazy.Stops(side, price, old(Sweeping(side, qty)))
      ensures Sweeping(side, q) == Lazy.HeadStep(id, old(Sweeping(side, qty)))
    {
      HeadIs(side, price, qty, best);
      var lvl := LevelsOn(side.Opposite())[best];
      if lvl.ids[lvl.head] !in orders { // lazily-cancelled order
        SkipDead(side, price, qty, id, best);
        q := qty;
      } else {
        q := FillLive(side, price, qty, id, best);
      }
    }

    /** The inner loop. */
    method MatchLevel(side: Side, price: int, qty: int, id: nat, best: int) returns (q: int)
      requires qty > 0 && Working(side, price, best) && !LevelsOn(side.Opposite())[best].IsEmpty()
      modifies `bidLevels, `askLevels, `orders, `fills, `volume, `log, `skips
      ensures Working(side, price, best) && LevelsOn(side) == old(LevelsOn(side))
      ensures q <= 0 || LevelsOn(side.Opposite())[best].IsEmpty()
      ensures Lazy.Sweep(side, price, id, Sweeping(side, q)) == old(Lazy.Sweep(side, price, id, Sweeping(side, qty)))
      ensures Lazy.Further(old(Sweeping(side, qty)), Sweeping(side, q))
    {
      ghost var t0 := Sweeping(side, qty);
      q := qty;
      while q > 0
        invariant Working(side, price, best) && LevelsOn(side) == old(LevelsOn(side))
        invariant Lazy.Sweep(side, price, id, Sweeping(side, q)) == Lazy.Sweep(side, price, id, t0)
        invariant Lazy.Further(t0, Sweeping(side, q)) ||
                  (Sweeping(side, q) == t0 && q > 0 && !LevelsOn(side.Opposite())[best].IsEmpty())
        decreases |Sweeping(side, q).queue|, q
      {
        if LevelsOn(side.Opposite())[best].IsEmpty() {
          break;
        }
        ghost var t := Sweeping(side, q);
        q := MatchHead(side, price, q, id, best);
        Lazy.StepFurther(side, price, id, t);
      }
    }

    /** Take a used-up level out of both structures. */
    method DropLevel(side: Side, best: int)
      requires StoreValid() && InStep(PricesOn(side.Opposite()), LevelsOn(side.Opposite()))
      requires InStepBut(PricesOn(side), LevelsOn(side), best) && LevelsOn(side)[best].IsEmpty()
      modifies `bidPrices, `askPrices, `bidLevels, `askLevels
      ensures Valid() && LevelsOn(side.Opposite()) == old(LevelsOn(side.Opposite()))
      ensures Queues(LevelsOn(side)) == old(Queues(LevelsOn(side)))
    {
      QueuesErase(LevelsOn(side), best);
      if side.Bid? {
        bidPrices := bidPrices - {best};
        bidLevels := bidLevels - {best};
      } else {
        askPrices := askPrices - {best};
        askLevels := askLevels - {best};
      }
    }

    /** The best opposite level that crosses, by the price set. */
    method BestCrossing(side: Side, price: int) returns (found: bool, best: int)
      requires Valid()
      ensures found ==> Working(side, price, best) && !LevelsOn(side.Opposite())[best].IsEmpty()
      ensures !found ==> forall q :: Lazy.Stops(side, price, Sweeping(side, q))
    {
      var prices := PricesOn(side.Opposite());
      ghost var m := Queues(LevelsOn(side.Opposite()));
      QueuesInStep(prices, LevelsOn(side.Opposite()));
      SamePrices(prices, LevelsOn(side.Opposite()));
      EntriesEmpty(side.Opposite(), m);
      if prices == {} {
        return false, 0;
      }
      best := Best(side.Opposite(), prices);
      found := if side.Bid? then best <= price else best >= price;
    }

    /** One turn of the outer loop: match one level, and drop it if it is used up. */
    method MatchBest(side: Side, price: int, qty: int, id: nat, best: int) returns (q: int)
      requires Valid() && qty > 0 && Working(side, price, best)
      requires !LevelsOn(side.Opposite())[best].IsEmpty()
      modifies this
      ensures Valid() && LevelsOn(side) == old(LevelsOn(side))
      ensures Lazy.Sweep(side, price, id, Sweeping(side, q)) == old(Lazy.Sweep(side, price, id, Sweeping(side, qty)))
      ensures Lazy.Further(old(Sweeping(side, qty)), Sweeping(side, q))
    {
      q := MatchLevel(side, price, qty, id, best);
      if LevelsOn(side.Opposite())[best].IsEmpty() {
        DropLevel(side.Opposite(), best);
      }
    }

    /** A limit order does exactly what the functional model says, for any arguments. */
    method Limit(side: Side, price: int, qty: int, id: nat)
      requires Valid()
      modifies this
      ensures Valid()
      ensures Abs() == Replacing.Limit(old(Abs()), side, price, qty, id)
      ensures WithinLimit(side, price, id, old(log), log)
    {
      LimitWithinLimit(Abs(), side, price, qty, id);
      ghost var t0 := Sweeping(side, qty);
      var q := qty;
      while q > 0
        invariant Valid() && LevelsOn(side) == old(LevelsOn(side))
        invariant Lazy.Sweep(side, price, id, Sweeping(side, q)) == Lazy.Sweep(side, price, id, t0)
        decreases |Sweeping(side, q).queue|, q
      {
        var found, best := BestCrossing(side, price);
        if !found {
          break;
        }
        q := MatchBest(side, price, q, id, best);
      }
      assert Sweeping(side, q) == Lazy.Sweep(side, price, id, t0);
      if q > 0 {
        Rest(side, price, q, id);
      }
    }

    method AddPrice(side: Side, price: int)
      modifies `bidPrices, `askPrices
      ensures PricesOn(side) == old(PricesOn(side)) + {price}
      ensures PricesOn(side.Opposite()) == old(PricesOn(side.Opposite()))
    {
      if side.Bid? {
        bidPrices := bidPrices + {price};
      } else {
        askPrices := askPrices + {price};
      }
    }

    /** Create the level if its price is new, in both structures, and append. */
    method Enqueue(side: Side, price: int, id: nat)
      requires Valid()
      modifies `bidPrices, `askPrices, `bidLevels, `askLevels
      ensures Valid() && LevelsOn(side.Opposite()) == old(LevelsOn(side.Opposite()))
      ensures Entries(side, Queues(LevelsOn(side))) ==
              Insert(side, EntryPrice, old(Entries(side, Queues(LevelsOn(side)))), Entry(id, price))
    {
      var levels := LevelsOn(side);
      QueuesInStep(PricesOn(side), levels);
      QueuesPush(levels, price, id);
      PushInserts(side, Queues(levels), price, id);
      PushInStep(PricesOn(side), levels, price, id);
      if price !in levels {
        AddPrice(side, price);
      }
      SetLevel(side, price, PushLevel(LevelAt(levels, price), id));
      assert InStep(PricesOn(side), LevelsOn(side));
    }

    method Rest(side: Side, price: int, qty: int, id: nat)
      requires Valid() && qty > 0
      modifies this
      ensures Valid() && Abs() == Replacing.Rest(old(Abs()), side, price, qty, id)
    {
      Enqueue(side, price, id);
      orders := orders[id := Resting(price, qty)];
    }

    method Cancel(id: nat)
      requires Valid()
      modifies this
      ensures Valid() && Abs() == Lazy.Cancel(old(Abs()), id)
    {
      orders := orders - {id};
    }

    /** Fold one level, skipping dead ids. */
    method FoldLevel(step: (Word, Order) -> Word, acc0: Word, lvl: FlatLevel, price: int) returns (acc: Word)
      requires lvl.head <= |lvl.ids|
      ensures acc == Checksum.Fold(step, acc0, Lazy.Live(At(lvl.Waiting(), price), orders))
    {
      acc := acc0;
      for i := lvl.head to |lvl.ids|
        invariant acc == Checksum.Fold(step, acc0, Lazy.Live(At(lvl.ids[lvl.head..i], price), orders))
      {
        FoldNextId(step, acc0, lvl, i, price, orders);
        acc := Checksum.FoldId(step, acc, lvl.ids[i], orders);
      }
      assert lvl.ids[lvl.head..|lvl.ids|] == lvl.Waiting();
    }

    /** Ascend over the price set, looking each level up in the map. */
    method FoldSide(step: (Word, Order) -> Word, acc0: Word, prices: set<int>, levels: LevelMap) returns (acc: Word)
      requires InStep(prices, levels)
      ensures acc == Checksum.Fold(step, acc0, Lazy.Live(Entries(Ask, Queues(levels)), orders))
    {
      acc := acc0;
      var rest := prices;
      ghost var m := Queues(levels);
      SamePrices(prices, levels);
      while rest != {}
        invariant rest <= prices && m.Keys == rest
        invariant forall p :: p in m ==> m[p] == levels[p].Waiting()
        invariant Checksum.Fold(step, acc, Lazy.Live(Entries(Ask, m), orders)) ==
                  Checksum.Fold(step, acc0, Lazy.Live(Entries(Ask, Queues(levels)), orders))
        decreases |rest|
      {
        var p := Best(Ask, rest);
        FoldBestLevel(step, acc, m, p, orders);
        acc := FoldLevel(step, acc, levels[p], p);
        rest := rest - {p};
        m := m - {p};
      }
    }

    method ChecksumOf() returns (acc: Word)
      requires Valid()
      ensures acc == Checksum.Of(Abs())
    {
      QueuesInStep(bidPrices, bidLevels);
      QueuesInStep(askPrices, askLevels);
      WalkAscending(Bid, Queues(bidLevels));
      WalkAscending(Ask, Queues(askLevels));
      acc := FoldSide(Checksum.Hash, 0, bidPrices, bidLevels);
      acc := FoldSide(Checksum.Hash, acc, askPrices, askLevels);
    }
  }
}
