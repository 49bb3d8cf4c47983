/** The idiomatic engine: an ordered map of price levels per side, and an id map. */
module IdiomaticBook {
  import opened Words
  import opened Orders
  import opened Levels
  import opened Counters
  import opened LevelFolds
  import opened FillPrices
  import Lazy = LazyBook
  import Checksum

  class Book {
    var bids: PriceLevels
    var asks: PriceLevels
    var orders: map<nat, Resting>
    var fills: Word
    var volume: Word
    ghost var log: seq<Trade>
    ghost var skips: nat

    ghost predicate Valid()
      reads this
    {
      AllNonEmpty(bids) && AllNonEmpty(asks) && Lazy.Positive(orders) && Counts(log, fills, volume)
    }

    /** Only the level being worked on may be empty. */
    ghost predicate ValidBut(side: Side, best: int)
      reads this
    {
      && AllNonEmptyBut(LevelsOn(side), best)
      && AllNonEmpty(LevelsOn(side.Opposite()))
      && Lazy.Positive(orders) && Counts(log, fills, volume)
    }

    function LevelsOn(side: Side): PriceLevels
      reads this
    {
      if side.Bid? then bids else asks
    }

    /** The flat queues, the id store and the history that this book stands for. */
    ghost function Abs(): Lazy.QueueBook
      reads this
    {
      Lazy.QueueBook(Entries(Bid, NonEmpty(bids)), Entries(Ask, NonEmpty(asks)), orders, log, skips)
    }

    ghost function Sweeping(side: Side, qty: int): Lazy.Sweeping
      reads this
    {
      Lazy.Sweeping(Entries(side.Opposite(), NonEmpty(LevelsOn(side.Opposite()))), orders, qty, log, skips)
    }

    constructor ()
      ensures Valid() && Abs() == Lazy.EMPTY
    {
      bids, asks, orders := map[], map[], map[];
      fills, volume := 0, 0;
      log, skips := [], 0;
    }

    function RestingCount(): nat
      reads this
    {
      |orders|
    }

    method SetLevel(side: Side, price: int, ids: seq<nat>)
      modifies `bids, `asks
      ensures LevelsOn(side) == old(LevelsOn(side))[price := ids]
      ensures LevelsOn(side.Opposite()) == old(LevelsOn(side.Opposite()))
    {
      if side.Bid? {
        bids := bids[price := ids];
      } else {
        asks := asks[price := ids];
      }
    }

    /** What holds while one opposite level, possibly used up, is being matched. */
    ghost predicate Working(side: Side, price: int, best: int)
      reads this
    {
      && ValidBut(side.Opposite(), best)
      && IsBest(side.Opposite(), LevelsOn(side.Opposite()).Keys, best)
      && Crosses(side, best, price)
    }

    /** Take the head off the level being matched. */
    method PopFront(side: Side, price: int, best: int)
      requires Working(side, price, best) && LevelsOn(side.Opposite())[best] != []
      modifies `bids, `asks
      ensures Working(side, price, best) && LevelsOn(side) == old(LevelsOn(side))
      ensures old(Sweeping(side, 0)).queue ==
              [Entry(old(LevelsOn(side.Opposite()))[best][0], best)] + Sweeping(side, 0).queue
    {
      var opp := side.Opposite();
      HeadOfBest(opp, LevelsOn(opp), best);
      SetLevel(opp, best, LevelsOn(opp)[best][1..]);
    }

    /** One turn of the inner loop: skip a dead head, or fill against a live one. */
    method MatchHead(side: Side, price: int, qty: int, id: nat, best: int) returns (q: int)
      requires qty > 0 && Working(side, price, best) && LevelsOn(side.Opposite())[best] != []
      modifies this
      ensures Working(side, price, best) && LevelsOn(side) == old(LevelsOn(side))
      ensures old(Sweeping(side, qty)).queue != []
      ensures !Lazy.Stops(side, price, old(Sweeping(side, qty)))
      ensures Sweeping(side, q) == Lazy.HeadStep(id, old(Sweeping(side, qty)))
    {
      ghost var t := Sweeping(side, qty);
      HeadOfBest(side.Opposite(), LevelsOn(side.Opposite()), best);
      var head := LevelsOn(side.Opposite())[best][0];
      q := qty;
      if head !in orders { // lazily-cancelled order
        PopFront(side, price, best);
        skips := skips + 1;
        Lazy.SkipIsHeadStep(id, t, Sweeping(side, q));
        return;
      }
      var r := orders[head];
      var m := Min(q, r.qty);
      q := q - m;
      log, fills, volume := CountFill(log, fills, volume, Trade(id, head, best, m, r.qty - m));
      if r.qty == m {
        orders := orders - {head};
        PopFront(side, price, best);
      } else {
        orders := orders[head := r.(qty := r.qty - m)];
      }
      Lazy.FillIsHeadStep(id, t, Sweeping(side, q), r, m);
    }

    /** The inner loop: match against one level until it or the order is used up. */
    method MatchLevel(side: Side, price: int, qty: int, id: nat, best: int) returns (q: int)
      requires qty > 0 && Working(side, price, best) && LevelsOn(side.Opposite())[best] != []
      modifies this
      ensures Working(side, price, best) && LevelsOn(side) == old(LevelsOn(side))
      ensures q <= 0 || LevelsOn(side.Opposite())[best] == []
      ensures Lazy.Sweep(side, price, id, Sweeping(side, q)) == old(Lazy.Sweep(side, price, id, Sweeping(side, qty)))
      ensures Lazy.Further(old(Sweeping(side, qty)), Sweeping(side, q))
    {
      ghost var t0 := Sweeping(side, qty);
      q := qty;
      while q > 0
        invariant Working(side, price, best) && LevelsOn(side) == old(LevelsOn(side))
        invariant Lazy.Sweep(side, price, id, Sweeping(side, q)) == Lazy.Sweep(side, price, id, t0)
        invariant Lazy.Further(t0, Sweeping(side, q)) ||
                  (Sweeping(side, q) == t0 && q > 0 && LevelsOn(side.Opposite())[best] != [])
        decreases |Sweeping(side, q).queue|, q
      {
        if LevelsOn(side.Opposite())[best] == [] {
          break;
        }
        ghost var t := Sweeping(side, q);
        q := MatchHead(side, price, q, id, best);
        Lazy.StepFurther(side, price, id, t);
      }
    }

    method EraseLevel(side: Side, price: int)
      modifies `bids, `asks
      ensures LevelsOn(side) == old(LevelsOn(side)) - {price}
      ensures LevelsOn(side.Opposite()) == old(LevelsOn(side.Opposite()))
    {
      if side.Bid? {
        bids := bids - {price};
      } else {
        asks := asks - {price};
      }
    }

    /** The best opposite level that crosses, if there is one. */
    method BestCrossing(side: Side, price: int) returns (found: bool, best: int)
      requires Valid()
      ensures found ==> Working(side, price, best)
      ensures !found ==> forall q :: Lazy.Stops(side, price, Sweeping(side, q))
    {
      var opp := LevelsOn(side.Opposite());
      EntriesEmpty(side.Opposite(), opp);
      NonEmptyIsAll(opp);
      if opp.Keys == {} {
        return false, 0;
      }
      best := Best(side.Opposite(), opp.Keys);
      found := if side.Bid? then best <= price else best >= price;
    }

    /** One turn of the outer loop: match one level, and erase it if it is used up. */
    method MatchBest(side: Side, price: int, qty: int, id: nat, best: int) returns (q: int)
      requires Valid() && qty > 0 && Working(side, price, best)
      modifies this
      ensures Valid() && LevelsOn(side) == old(LevelsOn(side))
      ensures Lazy.Sweep(side, price, id, Sweeping(side, q)) == old(Lazy.Sweep(side, price, id, Sweeping(side, qty)))
      ensures Lazy.Further(old(Sweeping(side, qty)), Sweeping(side, q))
    {
      q := MatchLevel(side, price, qty, id, best);
      if LevelsOn(side.Opposite())[best] == [] {
        EraseUsedUp(LevelsOn(side.Opposite()), best);
        EraseLevel(side.Opposite(), best);
      }
    }

    /** A limit order does exactly what the functional model of the lazy book says. */
    method Limit(side: Side, price: int, qty: int, id: nat)
      requires Valid()
      modifies this
      ensures Valid()
      ensures Abs() == Lazy.Limit(old(Abs()), side, price, qty, id)
      ensures WithinLimit(side, price, id, old(log), log)
    {
      LimitWithinLimit(Abs(), side, price, qty, id);
      ghost var t0 := Sweeping(side, qty);
      var q := qty;
      while q > 0
        invariant Valid() && LevelsOn(side) == old(LevelsOn(side))
        invariant Lazy.Sweep(side, price, id, Sweeping(side, q)) == Lazy.Sweep(side, price, id, t0)
        decreases |Sweeping(side, q).queue|, q
      {
        var found, best := BestCrossing(side, price);
        if !found {
          break;
        }
        q := MatchBest(side, price, q, id, best);
      }
      assert Sweeping(side, q) == Lazy.Sweep(side, price, id, t0);
      if q > 0 {
        Rest(side, price, q, id);
      }
    }

    method Rest(side: Side, price: int, qty: int, id: nat)
      requires Valid() && qty > 0
      modifies this
      ensures Valid() && Abs() == Lazy.Rest(old(Abs()), side, price, qty, id)
    {
      var own := LevelsOn(side);
      NonEmptyIsAll(own);
      NonEmptyIsAll(Push(own, price, id));
      PushInserts(side, own, price, id);
      SetLevel(side, price, Queue(own, price) + [id]);
      if id !in orders {
        orders := orders[id := Resting(price, qty)];
      }
    }

    method Cancel(id: nat)
      requires Valid()
      modifies this
      ensures Valid() && Abs() == Lazy.Cancel(old(Abs()), id)
    {
      orders := orders - {id};
    }

    method Apply(op: Op)
      requires Valid()
      modifies this
      ensures Valid() && Abs() == Lazy.Apply(old(Abs()), op)
    {
      match op
      case LimitOp(side, price, qty, id) => Limit(side, price, qty, id);
      case CancelOp(id) => Cancel(id);
    }

    /** Fold one level of a side into the checksum, skipping dead ids. */
    method FoldLevel(step: (Word, Order) -> Word, acc0: Word, ids: seq<nat>, price: int) returns (acc: Word)
      ensures acc == Checksum.Fold(step, acc0, Lazy.Live(At(ids, price), orders))
    {
      acc := acc0;
      for i := 0 to |ids|
        invariant acc == Checksum.Fold(step, acc0, Lazy.Live(At(ids[..i], price), orders))
      {
        assert At(ids[..i + 1], price) == At(ids[..i], price) + [Entry(ids[i], price)];
        Checksum.FoldLiveLast(step, acc0, At(ids[..i], price), Entry(ids[i], price), orders);
        acc := Checksum.FoldId(step, acc, ids[i], orders);
      }
      assert ids[..|ids|] == ids;
    }

    /** Fold one side, levels in ascending order of price. */
    method FoldSide(step: (Word, Order) -> Word, acc0: Word, levels: PriceLevels) returns (acc: Word)
      ensures acc == Checksum.Fold(step, acc0, Lazy.Live(Entries(Ask, levels), orders))
    {
      acc := acc0;
      var rest := levels;
      while rest.Keys != {}
        invariant Checksum.Fold(step, acc, Lazy.Live(Entries(Ask, rest), orders)) ==
                  Checksum.Fold(step, acc0, Lazy.Live(Entries(Ask, levels), orders))
        decreases |rest.Keys|
      {
        var p := Best(Ask, rest.Keys);
        assert (rest - {p}).Keys == rest.Keys - {p};
        FoldBestLevel(step, acc, rest, p, orders);
        acc := FoldLevel(step, acc, rest[p], p);
        rest := rest - {p};
      }
    }

    method ChecksumOf() returns (acc: Word)
      requires Valid()
      ensures acc == Checksum.Of(Abs())
    {
      NonEmptyIsAll(bids);
      NonEmptyIsAll(asks);
      WalkAscending(Bid, bids);
      WalkAscending(Ask, asks);
      acc := FoldSide(Checksum.Hash, 0, bids);
      acc := FoldSide(Checksum.Hash, acc, asks);
    }
  }
}
