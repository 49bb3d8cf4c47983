/** The tuned engine: price ladders with best pointers, and an array of orders indexed by id. */
module TunedBook {
  import opened Words
  import opened Orders
  import opened Levels
  import opened Ladder
  import opened LevelFolds
  import opened Counters
  import opened FillPrices
  import Lazy = LazyBook
  import Replacing = ReplacingBook
  import Checksum

  /** What the ask pointer holds when there are no asks: past the ladder by one, or by a long way. */
  const INT64_MAX: int := 0x7FFF_FFFF_FFFF_FFFF

  class TunedBook {
    const bids: array<FlatLevel>
    const asks: array<FlatLevel>
    const orders: array<Resting>
    const noAsk: int
    var bestBid: int
    var bestAsk: int
    var live: nat
    var fills: Word
    var volume: Word
    ghost var log: seq<Trade>
    ghost var skips: nat
    ghost var takeOvers: nat

    function LadderOn(side: Side): array<FlatLevel> {
      if side.Bid? then bids else asks
    }

    /** The value of the best pointer when a side is empty. */
    function None(side: Side): int {
      if side.Bid? then -1 else noAsk
    }

    function BestOn(side: Side): int
      reads this
    {
      if side.Bid? then bestBid else bestAsk
    }

    /**
     * The id store and the counters; these hold at every step of matching. An order that takes over
     * the record of a live one is counted although the store does not grow.
     */
    ghost predicate StoreValid()
      reads this, orders
    {
      StoreOk(orders[..]) && live == |OrdersIn(orders[..])| + takeOvers && Counts(log, fills, volume)
    }

    ghost predicate SideValid(side: Side)
      reads this, bids, asks
    {
      && LadderOk(LadderOn(side)[..], orders.Length)
      && PointsToBest(side, LadderOn(side)[..], BestOn(side), None(side))
    }

    /** Both best pointers are exact and do not cross, and an empty level has head 0 and no ids. */
    ghost predicate Valid()
      reads this, bids, asks, orders
    {
      && bids != asks && LADDER_LEN <= noAsk && bestBid < bestAsk
      && StoreValid() && SideValid(Bid) && SideValid(Ask)
    }

    ghost function QueueOn(side: Side): seq<Entry>
      reads this, bids, asks
      requires Heads(LadderOn(side)[..])
    {
      Entries(side, LevelsIn(LadderOn(side)[..]))
    }

    /** The flat queues, the id store and the history that this book stands for. */
    ghost function Abs(): Lazy.QueueBook
      reads this, bids, asks, orders
      requires Heads(bids[..]) && Heads(asks[..])
    {
      Lazy.QueueBook(QueueOn(Bid), QueueOn(Ask), OrdersIn(orders[..]), log, skips)
    }

    /** An incoming order with `qty` left to fill, facing the ladder `opp` of side `maker`. */
    ghost function Sweeping(maker: Side, opp: array<FlatLevel>, qty: int): Lazy.Sweeping
      reads this, opp, orders
      requires Heads(opp[..])
    {
      Lazy.Sweeping(Entries(maker, LevelsIn(opp[..])), OrdersIn(orders[..]), qty, log, skips)
    }

    constructor (maxId: nat, noAsk: int)
      requires LADDER_LEN <= noAsk
      ensures Valid() && Abs() == Lazy.EMPTY && takeOvers == 0
      ensures orders.Length == maxId + 2 && this.noAsk == noAsk
      ensures fresh(bids) && fresh(asks) && fresh(orders)
    {
      bids := new FlatLevel[LADDER_LEN](_ => FRESH);
      asks := new FlatLevel[LADDER_LEN](_ => FRESH);
      orders := new Resting[maxId + 2](_ => Resting(0, 0));
      this.noAsk := noAsk;
      bestBid, bestAsk, live := -1, noAsk, 0;
      fills, volume := 0, 0;
      log, skips, takeOvers := [], 0, 0;
      new;
      SameMaps(OrdersIn(orders[..]), map[]);
      PointerIsBest(Bid, bids[..], -1, -1);
      PointerIsBest(Ask, asks[..], noAsk, noAsk);
    }

    /** Fill `m` against the order `head`, which dies when nothing is left. */
    method Fill(head: nat, best: int, m: int, id: nat) returns (dead: bool)
      requires StoreValid() && head < orders.Length && 0 < m <= orders[head].qty
      modifies `live, `fills, `volume, `log, orders
      ensures StoreValid()
      ensures var r := old(orders[head]);
              && dead == (r.qty == m)
              && OrdersIn(orders[..]) == (if dead then old(OrdersIn(orders[..])) - {head}
                                          else old(OrdersIn(orders[..]))[head := r.(qty := r.qty - m)])
              && log == old(log) + [Trade(id, head, best, m, r.qty - m)]
    {
      ghost var store := orders[..];
      var r := orders[head].(qty := orders[head].qty - m);
      orders[head] := r;
      assert orders[..] == store[head := r];
      log, fills, volume := CountFill(log, fills, volume, Trade(id, head, best, m, r.qty));
      dead := r.qty == 0;
      if dead {
        StoreKill(store, head, r);
        live := live - 1;
      } else {
        StoreSet(store, head, r);
      }
    }

    /** The ladder `opp` has a head to match at `best`. */
    ghost predicate HeadReady(side: Side, opp: array<FlatLevel>, price: int, best: int)
      reads this, opp, orders
    {
      && StoreValid() && Matched(side.Opposite(), opp[..], orders.Length, best)
      && !opp[best].IsEmpty() && Crosses(side, best, price)
    }

    /** Step over a dead head, or over one that has just been filled whole. */
    method AdvanceHead(side: Side, opp: array<FlatLevel>, price: int, best: int)
      requires HeadReady(side, opp, price, best)
      modifies opp
      ensures StoreValid() && Matched(side.Opposite(), opp[..], orders.Length, best)
      ensures orders[..] == old(orders[..])
      ensures old(Sweeping(side.Opposite(), opp, 0)).queue ==
              [Entry(old(opp[best].ids[opp[best].head]), best)] + Sweeping(side.Opposite(), opp, 0).queue
    {
      ghost var s, store := opp[..], orders[..];
      AdvanceBest(side.Opposite(), s, orders.Length, best);
      opp[best] := PastHead(opp[best]);
      assert opp[..] == s[best := PastHead(s[best])];
      assert orders[..] == store;
    }

    function HeadOf(opp: array<FlatLevel>, best: int): nat
      reads opp
      requires 0 <= best < opp.Length && opp[best].head < |opp[best].ids|
    {
      opp[best].ids[opp[best].head]
    }

    lemma HeadIs(side: Side, opp: array<FlatLevel>, price: int, qty: int, best: int)
      requires qty > 0 && HeadReady(side, opp, price, best)
      ensures var t := Sweeping(side.Opposite(), opp, qty);
              && HeadOf(opp, best) < orders.Length
              && t.queue != [] && t.queue[0] == Entry(HeadOf(opp, best), best)
              && !Lazy.Stops(side, price, t)
              && (HeadOf(opp, best) in t.orders <==> orders[HeadOf(opp, best)].qty != 0)
    {
      AdvanceBest(side.Opposite(), opp[..], orders.Length, best);
    }

    method SkipDead(side: Side, opp: array<FlatLevel>, price: int, qty: int, id: nat, best: int)
      requires qty > 0 && HeadReady(side, opp, price, best)
      requires HeadOf(opp, best) < orders.Length && orders[HeadOf(opp, best)].qty == 0
      modifies `skips, opp
      ensures StoreValid() && Matched(side.Opposite(), opp[..], orders.Length, best)
      ensures old(Sweeping(side.Opposite(), opp, qty)).queue != []
      ensures Sweeping(side.Opposite(), opp, qty) == Lazy.HeadStep(id, old(Sweeping(side.Opposite(), opp, qty)))
    {
      ghost var t := Sweeping(side.Opposite(), opp, qty);
      HeadIs(side, opp, price, qty, best);
      AdvanceHead(side, opp, price, best);
      skips := skips + 1;
      Lazy.SkipIsHeadStep(id, t, Sweeping(side.Opposite(), opp, qty));
    }

    method FillLive(side: Side, opp: array<FlatLevel>, price: int, qty: int, id: nat, best: int) returns (q: int)
      requires qty > 0 && HeadReady(side, opp, price, best)
      requires HeadOf(opp, best) < orders.Length && orders[HeadOf(opp, best)].qty != 0
      modifies `live, `fills, `volume, `log, opp, orders
      ensures StoreValid() && Matched(side.Opposite(), opp[..], orders.Length, best)
      ensures old(Sweeping(side.Opposite(), opp, qty)).queue != []
      ensures Sweeping(side.Opposite(), opp, q) == Lazy.HeadStep(id, old(Sweeping(side.Opposite(), opp, qty)))
    {
      ghost var t, s := Sweeping(side.Opposite(), opp, qty), opp[..];
      HeadIs(side, opp, price, qty, best);
      var head := HeadOf(opp, best);
      ghost var r := orders[head];
      var m := Min(qty, orders[head].qty);
      var dead := Fill(head, best, m, id);
      assert opp[..] == s;
      q := qty - m;
      if dead {
        AdvanceHead(side, opp, price, best);
      }
      Lazy.FillIsHeadStep(id, t, Sweeping(side.Opposite(), opp, q), r, m);
    }

    /** One turn of the inner loop: skip a dead head, or fill against a live one. */
    method MatchHead(side: Side, opp: array<FlatLevel>, price: int, qty: int, id: nat, best: int) returns (q: int)
      requires qty > 0 && HeadReady(side, opp, price, best)
      modifies `live, `fills, `volume, `log, `skips, opp, orders
      ensures StoreValid() && Matched(side.Opposite(), opp[..], orders.Length, best)
      ensures old(Sweeping(side.Opposite(), opp, qty)).queue != []
      ensures !Lazy.Stops(side, price, old(Sweeping(side.Opposite(), opp, qty)))
      ensures Sweeping(side.Opposite(), opp, q) == Lazy.HeadStep(id, old(Sweeping(side.Opposite(), opp, qty)))
    {
      HeadIs(side, opp, price, qty, best);
      if orders[HeadOf(opp, best)].qty == 0 { // lazily-cancelled order
        SkipDead(side, opp, price, qty, id, best);
        q := qty;
      } else {
        q := FillLive(side, opp, price, qty, id, best);
      }
    }

    /** The inner loop: match against one level until it or the order is used up. */
    method MatchLevel(side: Side, opp: array<FlatLevel>, price: int, qty: int, id: nat, best: int) returns (q: int)
      requires qty > 0 && HeadReady(side, opp, price, best)
      modifies `live, `fills, `volume, `log, `skips, opp, orders
      ensures StoreValid() && Matched(side.Opposite(), opp[..], orders.Length, best)
      ensures q <= 0 || opp[best].IsEmpty()
      ensures Lazy.Sweep(side, price, id, Sweeping(side.Opposite(), opp, q)) ==
              old(Lazy.Sweep(side, price, id, Sweeping(side.Opposite(), opp, qty)))
      ensures Lazy.Further(old(Sweeping(side.Opposite(), opp, qty)), Sweeping(side.Opposite(), opp, q))
    {
      ghost var t0 := Sweeping(side.Opposite(), opp, qty);
      q := qty;
      while q > 0
        invariant StoreValid() && Matched(side.Opposite(), opp[..], orders.Length, best)
        invariant Lazy.Sweep(side, price, id, Sweeping(side.Opposite(), opp, q)) == Lazy.Sweep(side, price, id, t0)
        invariant Lazy.Further(t0, Sweeping(side.Opposite(), opp, q)) ||
                  (Sweeping(side.Opposite(), opp, q) == t0 && q > 0 && !opp[best].IsEmpty())
        decreases |Sweeping(side.Opposite(), opp, q).queue|, q
      {
        if opp[best].IsEmpty() {
          break;
        }
        ghost var t := Sweeping(side.Opposite(), opp, q);
        q := MatchHead(side, opp, price, q, id, best);
        Lazy.StepFurther(side, price, id, t);
      }
    }

    /** Scan for the next occupied ask level above a level that has just been used up. */
    method NextAsk(best: int) returns (p: int)
      requires asks.Length == LADDER_LEN <= noAsk && 0 <= best < LADDER_LEN
      requires forall i :: 0 <= i <= best ==> asks[i].IsEmpty()
      ensures PointsToBest(Ask, asks[..], p, noAsk) && best < p
    {
      p := best + 1;
      while p < LADDER_BASE + LADDER_LEN && asks[p - LADDER_BASE].IsEmpty()
        invariant best < p <= LADDER_LEN
        invariant forall i :: 0 <= i < p ==> asks[i].IsEmpty()
      {
        p := p + 1;
      }
      p := if p < LADDER_BASE + LADDER_LEN then p else noAsk;
    }

    /** Scan for the next occupied bid level below a level that has just been used up. */
    method NextBid(best: int) returns (p: int)
      requires bids.Length == LADDER_LEN && 0 <= best < LADDER_LEN
      requires forall i :: best <= i < LADDER_LEN ==> bids[i].IsEmpty()
      ensures PointsToBest(Bid, bids[..], p, -1) && p < best
    {
      p := best - 1;
      while p >= LADDER_BASE && bids[p - LADDER_BASE].IsEmpty()
        invariant -1 <= p < best
        invariant forall i :: p < i < LADDER_LEN ==> bids[i].IsEmpty()
      {
        p := p - 1;
      }
    }

    /** After the inner loop: clear a used-up level and move the best pointer on. */
    method Settle(side: Side, opp: array<FlatLevel>, best: int)
      requires opp == LadderOn(side.Opposite()) && bids != asks && LADDER_LEN <= noAsk
      requires StoreValid() && SideValid(side) && Matched(side.Opposite(), opp[..], orders.Length, best)
      requires BestOn(side.Opposite()) == best && bestBid < bestAsk
      modifies `bestBid, `bestAsk, opp
      ensures Valid() && orders[..] == old(orders[..])
      ensures LadderOn(side)[..] == old(LadderOn(side)[..])
      ensures LevelsIn(opp[..]) == old(LevelsIn(opp[..]))
    {
      if opp[best].IsEmpty() {
        ghost var s, own, store := opp[..], LadderOn(side)[..], orders[..];
        ResetLevel(s, best);
        opp[best] := FRESH;
        assert opp[..] == s[best := FRESH];
        assert orders[..] == store && LadderOn(side)[..] == own;
        if side.Bid? {
          bestAsk := NextAsk(best);
        } else {
          bestBid := NextBid(best);
        }
      }
    }

    /** A residual must find its price on the ladder and its id in the store. */
    ghost predicate CanRest(side: Side, price: int, qty: int, id: nat)
      reads this, bids, asks, orders
      requires Valid()
    {
      StorePositive(orders[..]);
      var t := Lazy.SweepOf(Abs(), side, price, qty, id);
      t.qty > 0 ==> 0 <= price < LADDER_LEN && id < orders.Length
    }

    /** 1 if the operation takes over the record of a live order. */
    ghost function Taken(op: Op): nat
      reads this, bids, asks, orders
      requires Valid()
    {
      StorePositive(orders[..]);
      if Replacing.TakesOver(Abs(), op) then 1 else 0
    }

    ghost function Facing(side: Side, qty: int): Lazy.Sweeping
      reads this, bids, asks, orders
      requires Heads(LadderOn(side.Opposite())[..])
    {
      Sweeping(side.Opposite(), LadderOn(side.Opposite()), qty)
    }

    /** Matching one level leaves the side the order comes from alone. */
    method SweepBest(side: Side, price: int, qty: int, id: nat) returns (q: int)
      requires Valid() && qty > 0 && BestOn(side.Opposite()) != None(side.Opposite())
      requires Crosses(side, BestOn(side.Opposite()), price)
      modifies `live, `fills, `volume, `log, `skips, LadderOn(side.Opposite()), orders
      ensures StoreValid() && SideValid(side) && LadderOn(side)[..] == old(LadderOn(side)[..])
      ensures Matched(side.Opposite(), LadderOn(side.Opposite())[..], orders.Length, BestOn(side.Opposite()))
      ensures Lazy.Sweep(side, price, id, Facing(side, q)) == old(Lazy.Sweep(side, price, id, Facing(side, qty)))
      ensures Lazy.Further(old(Facing(side, qty)), Facing(side, q))
    {
      ghost var own := LadderOn(side)[..];
      q := MatchLevel(side, LadderOn(side.Opposite()), price, qty, id, BestOn(side.Opposite()));
      assert LadderOn(side)[..] == own;
    }

    /** One turn of the outer loop. */
    method MatchBest(side: Side, price: int, qty: int, id: nat) returns (q: int)
      requires Valid() && qty > 0 && BestOn(side.Opposite()) != None(side.Opposite())
      requires Crosses(side, BestOn(side.Opposite()), price)
      modifies `bestBid, `bestAsk, `live, `fills, `volume, `log, `skips, LadderOn(side.Opposite()), orders
      ensures Valid() && LadderOn(side)[..] == old(LadderOn(side)[..])
      ensures Lazy.Sweep(side, price, id, Facing(side, q)) == old(Lazy.Sweep(side, price, id, Facing(side, qty)))
      ensures Lazy.Further(old(Facing(side, qty)), Facing(side, q))
    {
      q := SweepBest(side, price, qty, id);
      ghost var t := Facing(side, q);
      Settle(side, LadderOn(side.Opposite()), BestOn(side.Opposite()));
      assert Facing(side, q) == t;
    }

    lemma StopsHere(side: Side, price: int, qty: int)
      requires Valid()
      requires BestOn(side.Opposite()) == None(side.Opposite()) || !Crosses(side, BestOn(side.Opposite()), price)
      ensures Lazy.Stops(side, price, Facing(side, qty))
    {
      var opp := LadderOn(side.Opposite())[..];
      LevelsInOk(opp);
      PointerIsBest(side.Opposite(), opp, BestOn(side.Opposite()), None(side.Opposite()));
      EntriesEmpty(side.Opposite(), LevelsIn(opp));
    }

    /** The outer loop: match level after level until the order is used up or nothing crosses. */
    method Match(side: Side, price: int, qty: int, id: nat) returns (q: int)
      requires Valid()
      modifies `bestBid, `bestAsk, `live, `fills, `volume, `log, `skips, LadderOn(side.Opposite()), orders
      ensures Valid() && LadderOn(side)[..] == old(LadderOn(side)[..])
      ensures Facing(side, q) == old(Lazy.Sweep(side, price, id, Facing(side, qty)))
      ensures q > 0 && 0 <= price < LADDER_LEN ==> !Crosses(side, BestOn(side.Opposite()), price)
      ensures WithinLimit(side, price, id, old(log), log)
    {
      ghost var t0 := Facing(side, qty);
      StorePositive(orders[..]);
      SweepWithinLimit(side, price, id, t0);
      q := qty;
      while q > 0
        invariant Valid() && LadderOn(side)[..] == old(LadderOn(side)[..])
        invariant Lazy.Sweep(side, price, id, Facing(side, q)) == Lazy.Sweep(side, price, id, t0)
        decreases |Facing(side, q).queue|, q
      {
        var best := if side.Bid? then bestAsk else bestBid;
        var crosses := if side.Bid? then best <= price else best >= price;
        if best < LADDER_BASE || best >= LADDER_BASE + LADDER_LEN || !crosses {
          StopsHere(side, price, q);
          break;
        }
        q := MatchBest(side, price, q, id);
      }
    }

    /**
     * A limit order does exactly what the functional model says, for any id: one that takes over the
     * record of a live order is counted as another.
     */
    method Limit(side: Side, price: int, qty: int, id: nat)
      requires Valid() && CanRest(side, price, qty, id)
      modifies this, bids, asks, orders
      ensures Valid()
      ensures Abs() == Replacing.Limit(old(Abs()), side, price, qty, id)
      ensures takeOvers == old(takeOvers + Taken(LimitOp(side, price, qty, id)))
      ensures WithinLimit(side, price, id, old(log), log)
    {
      var q := Match(side, price, qty, id);
      if q > 0 {
        Rest(side, price, q, id);
      }
    }

    /** Append to the level at `price` and move the best pointer if that improves on it. */
    method Append(side: Side, price: int, id: nat)
      requires SideValid(side) && 0 <= price < LADDER_LEN <= noAsk && id < orders.Length
      modifies `bestBid, `bestAsk, LadderOn(side)
      ensures SideValid(side) && BestOn(side.Opposite()) == old(BestOn(side.Opposite()))
      ensures BestOn(side) == old(BestOn(side)) || BestOn(side) == price
      ensures LadderOn(side)[..] ==
              old(LadderOn(side)[..])[price := PushLevel(old(LadderOn(side)[price]), id)]
    {
      var own := LadderOn(side);
      ghost var s := own[..];
      var idx := price - LADDER_BASE;
      own[idx] := PushLevel(own[idx], id);
      assert own[..] == s[price := PushLevel(s[price], id)];
      PointerAfterPush(side, s, BestOn(side), None(side), price, id);
      if side.Bid? {
        bestBid := Max(bestBid, price);
      } else {
        bestAsk := Min(bestAsk, price);
      }
    }

    method Enqueue(side: Side, price: int, id: nat)
      requires Valid() && 0 <= price < LADDER_LEN && id < orders.Length
      requires !Crosses(side, BestOn(side.Opposite()), price)
      modifies `bestBid, `bestAsk, LadderOn(side)
      ensures Valid() && orders[..] == old(orders[..])
      ensures LadderOn(side.Opposite())[..] == old(LadderOn(side.Opposite())[..])
      ensures QueueOn(side) == Insert(side, EntryPrice, old(QueueOn(side)), Entry(id, price))
    {
      ghost var s, opp, store := LadderOn(side)[..], LadderOn(side.Opposite())[..], orders[..];
      PushQueues(side, s, price, id);
      Append(side, price, id);
      assert LadderOn(side.Opposite())[..] == opp && orders[..] == store;
      assert StoreValid() && SideValid(side.Opposite());
    }

    method Record(id: nat, r: Resting)
      requires Valid() && id < orders.Length && r.qty > 0
      modifies `live, `takeOvers, orders
      ensures Valid() && OrdersIn(orders[..]) == old(OrdersIn(orders[..]))[id := r]
      ensures bids[..] == old(bids[..]) && asks[..] == old(asks[..])
      ensures takeOvers == old(takeOvers) + (if id in old(OrdersIn(orders[..])) then 1 else 0)
    {
      ghost var store, b, a := orders[..], bids[..], asks[..];
      orders[id] := r;
      assert orders[..] == store[id := r];
      assert bids[..] == b && asks[..] == a;
      StoreSet(store, id, r);
      live := live + 1;
      takeOvers := takeOvers + (if id in OrdersIn(store) then 1 else 0);
    }

    method Rest(side: Side, price: int, qty: int, id: nat)
      requires Valid() && qty > 0 && 0 <= price < LADDER_LEN
      requires id < orders.Length && !Crosses(side, BestOn(side.Opposite()), price)
      modifies `bestBid, `bestAsk, `live, `takeOvers, LadderOn(side), orders
      ensures Valid()
      ensures Abs() == Replacing.Rest(old(Abs()), side, price, qty, id)
      ensures takeOvers == old(takeOvers) + (if id in old(OrdersIn(orders[..])) then 1 else 0)
    {
      ghost var b := Abs();
      Enqueue(side, price, id);
      assert Abs() == b.WithQueue(side, Insert(side, EntryPrice, b.Queue(side), Entry(id, price)));
      Record(id, Resting(price, qty));
    }

    method Cancel(id: nat)
      requires Valid() && id < orders.Length
      modifies `live, orders
      ensures Valid()
      ensures Abs() == Lazy.Cancel(old(Abs()), id)
    {
      ghost var store, b, a := orders[..], bids[..], asks[..];
      if orders[id].qty != 0 {
        var dead := orders[id].(qty := 0);
        StoreKill(store, id, dead);
        orders[id] := dead;
        assert orders[..] == store[id := dead];
        live := live - 1;
      } else {
        SameMaps(OrdersIn(store), OrdersIn(store) - {id});
      }
      assert bids[..] == b && asks[..] == a;
    }

    ghost predicate CanApply(op: Op)
      reads this, bids, asks, orders
      requires Valid()
    {
      match op
      case LimitOp(side, price, qty, id) => CanRest(side, price, qty, id)
      case CancelOp(id) => id < orders.Length
    }

    method Apply(op: Op)
      requires Valid() && CanApply(op)
      modifies this, bids, asks, orders
      ensures Valid()
      ensures Abs() == Replacing.Apply(old(Abs()), op)
      ensures takeOvers == old(takeOvers + Taken(op))
    {
      match op
      case LimitOp(side, price, qty, id) => Limit(side, price, qty, id);
      case CancelOp(id) => Cancel(id);
    }

    /** Fold one more id into the checksum, unless it is dead. */
    function FoldId(step: (Word, Order) -> Word, acc: Word, id: nat): (r: Word)
      requires id < orders.Length
      reads orders
      ensures r == Checksum.FoldId(step, acc, id, OrdersIn(orders[..]))
    {
      if orders[id].qty != 0 then step(acc, Order(id, orders[id].price, orders[id].qty)) else acc
    }

    /** Fold one ladder from the bottom up, each level from its head on. */
    method FoldSide(step: (Word, Order) -> Word, acc0: Word, ladder: array<FlatLevel>) returns (acc: Word)
      requires LadderOk(ladder[..], orders.Length)
      ensures acc == Checksum.Fold(step, acc0, Lazy.Live(Entries(Ask, LevelsIn(ladder[..])), OrdersIn(orders[..])))
    {
      ghost var s, live := ladder[..], OrdersIn(orders[..]);
      acc := acc0;
      for p := 0 to ladder.Length
        invariant FoldedBelow(step, acc0, acc, s, p, live)
      {
        ghost var before := acc;
        var lvl := ladder[p];
        for i := lvl.head to |lvl.ids|
          invariant FoldedIds(step, before, acc, lvl, i, p, live)
        {
          FoldedNextId(step, before, acc, lvl, i, p, live);
          acc := FoldId(step, acc, lvl.ids[i]);
        }
        FoldedIdsAll(step, before, acc, lvl, p, live);
        FoldedNext(step, acc0, before, acc, s, p, live);
      }
      FoldedAll(step, acc0, acc, s, live);
    }

    method ChecksumOf() returns (acc: Word)
      requires Valid()
      ensures acc == Checksum.Of(Abs())
    {
      LevelsInOk(bids[..]);
      LevelsInOk(asks[..]);
      WalkAscending(Bid, LevelsIn(bids[..]));
      WalkAscending(Ask, LevelsIn(asks[..]));
      acc := FoldSide(Checksum.Hash, 0, bids);
      acc := FoldSide(Checksum.Hash, acc, asks);
    }

    /**
     * With exact pointers, best bid below best ask (or a side empty) means exactly that the queues do
     * not cross, whatever tombstones the levels hold; every valid book is so.
     */
    lemma PointersUncrossed()
      requires LADDER_LEN <= noAsk && SideValid(Bid) && SideValid(Ask)
      ensures bestBid < bestAsk <==> Lazy.Uncrossed(QueueOn(Bid), QueueOn(Ask))
      ensures Valid() ==> Lazy.Uncrossed(Abs().bids, Abs().asks)
    {
      LevelsInOk(bids[..]);
      LevelsInOk(asks[..]);
      PointerIsBest(Bid, bids[..], bestBid, None(Bid));
      PointerIsBest(Ask, asks[..], bestAsk, None(Ask));
      EntriesEmpty(Bid, LevelsIn(bids[..]));
      EntriesEmpty(Ask, LevelsIn(asks[..]));
    }
  }
}
