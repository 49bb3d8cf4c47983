/**
 * Two places under one live id share one record. A taker that gets to the first of them fills it as if
 * the second were not there, and from then on the lazy book and the reference book differ for good.
 */
module Twins {
  import opened Orders
  import opened LazyBook
  import opened LazyEager
  import Eager = EagerBook

  ghost predicate HasId(s: seq<Order>, x: nat) {
    exists k :: 0 <= k < |s| && s[k].id == x
  }

  /** Some trade after the first `n` was made by `x`. */
  ghost predicate Made(log: seq<Trade>, n: nat, x: nat) {
    exists k :: n <= k < |log| && log[k].maker == x
  }

  lemma {:induction false} DeadMakesNothing(taker: Side, limit: int, id: nat, t: Sweeping, x: nat)
    requires Positive(t.orders) && x !in t.orders
    ensures var r := Sweep(taker, limit, id, t); t.log <= r.log && !Made(r.log, |t.log|, x) && x !in r.orders
    decreases |t.queue|, if t.qty > 0 then t.qty else 0
  {
    if !Stops(taker, limit, t) {
      DeadMakesNothing(taker, limit, id, HeadStep(id, t), x);
    }
  }

  lemma {:induction false} RestingMakesOrStays(taker: Side, limit: int, id: nat, m: Eager.Matching, x: nat)
    requires Eager.Positive(m.resting) && HasId(m.resting, x)
    ensures var r := Eager.Match(taker, limit, id, m);
            m.log <= r.log && (HasId(r.resting, x) || Made(r.log, |m.log|, x))
    decreases |m.resting|, if m.qty > 0 then m.qty else 0
  {
    if m.qty > 0 && m.resting != [] && Crosses(taker, m.resting[0].price, limit) {
      var n := Eager.FillHead(id, m);
      MatchKeepsLog(taker, limit, id, n);
      var k :| 0 <= k < |m.resting| && m.resting[k].id == x;
      if m.resting[0].id == x {
        assert n.log[|m.log|].maker == x;
      } else {
        assert n.resting[if |n.resting| == |m.resting| then k else k - 1].id == x;
        RestingMakesOrStays(taker, limit, id, n, x);
      }
    }
  }

  lemma {:induction false} MatchKeepsLog(taker: Side, limit: int, id: nat, m: Eager.Matching)
    requires Eager.Positive(m.resting)
    ensures m.log <= Eager.Match(taker, limit, id, m).log
    decreases |m.resting|, if m.qty > 0 then m.qty else 0
  {
    if m.qty > 0 && m.resting != [] && Crosses(taker, m.resting[0].price, limit) {
      MatchKeepsLog(taker, limit, id, Eager.FillHead(id, m));
    }
  }

  /** How the two books differ: no later rest can make up for any of this. */
  ghost predicate Parted(taker: Side, limit: int, t: Sweeping, r: Sweeping, m: Eager.Matching, x: nat) {
    || r.log != m.log
    || (r.qty <= 0 && Live(r.queue, r.orders) != m.resting)
    || (x in t.orders && Crosses(taker, t.orders[x].price, limit) && x !in r.orders && HasId(m.resting, x))
  }

  lemma TwinPartlyFilled(id: nat, t: Sweeping, j: nat)
    requires PricesAgree(t.queue, t.orders) && t.queue != [] && t.queue[0].id in t.orders
    requires 0 < t.qty < t.orders[t.queue[0].id].qty
    requires 0 < j < |Live(t.queue, t.orders)| && Live(t.queue, t.orders)[j].id == t.queue[0].id
    ensures SweepView(HeadStep(id, t)).resting != Eager.FillHead(id, SweepView(t)).resting
  {
    var n, live := HeadStep(id, t), Live(t.queue, t.orders);
    var i := LiveSource(t.queue, t.orders, j);
    if j < |Live(n.queue, n.orders)| {
      var k := LiveSource(n.queue, n.orders, j);
    }
  }

  lemma TwinFilled(taker: Side, limit: int, id: nat, t: Sweeping, i: nat)
    requires CanSweep(taker, t) && !Stops(taker, limit, t)
    requires 0 < i < |t.queue| && t.queue[i].id == t.queue[0].id && t.queue[0].id in t.orders
    ensures Eager.Positive(Live(t.queue, t.orders))
    ensures Parted(taker, limit, t, Sweep(taker, limit, id, t), Eager.Match(taker, limit, id, SweepView(t)),
                   t.queue[0].id)
  {
    var x, n := t.queue[0].id, HeadStep(id, t);
    var live := Live(t.queue, t.orders);
    LivePositive(t.queue, t.orders);
    var j := LiveHas(t.queue[1..], t.orders, i - 1);
    assert live[j + 1].id == x;
    if t.qty < t.orders[x].qty {
      TwinPartlyFilled(id, t, j + 1);
    } else {
      var m := Eager.FillHead(id, SweepView(t));
      assert m.resting == live[1..] && m.resting[j].id == x;
      DeadMakesNothing(taker, limit, id, n, x);
      RestingMakesOrStays(taker, limit, id, m, x);
    }
  }

  lemma TwinGoesOn(taker: Side, limit: int, t: Sweeping)
    requires CanSweep(taker, t) && FillsTwin(taker, limit, t.qty, Live(t.queue, t.orders))
    ensures !Stops(taker, limit, t)
  {
    var live := Live(t.queue, t.orders);
    var i, j :| 0 <= i < j < |live| && live[i].id == live[j].id && Crosses(taker, live[i].price, limit) &&
                TotalQty(live[..i]) < t.qty;
    LivePositive(t.queue, t.orders);
    Eager.TotalQtyNonNegative(live[..i]);
    LiveIsSorted(taker.Opposite(), t.queue, t.orders);
    LiveHeadNoBetter(taker.Opposite(), t.queue, t.orders);
    assert i > 0 ==> AtLeastAsGood(taker.Opposite(), OrderPrice(live[0]), OrderPrice(live[i]));
  }

  /** A fill of an order with no twin brings the taker nearer to one further back. */
  lemma TwinStaysAhead(taker: Side, limit: int, id: nat, m: Eager.Matching)
    requires Eager.Positive(m.resting) && m.resting != [] && m.qty > 0
    requires FillsTwin(taker, limit, m.qty, m.resting)
    requires forall j :: 0 < j < |m.resting| ==> m.resting[j].id != m.resting[0].id
    ensures FillsTwin(taker, limit, Eager.FillHead(id, m).qty, Eager.FillHead(id, m).resting)
  {
    var n := Eager.FillHead(id, m);
    var i, j :| 0 <= i < j < |m.resting| && m.resting[i].id == m.resting[j].id &&
                Crosses(taker, m.resting[i].price, limit) && TotalQty(m.resting[..i]) < m.qty;
    assert i > 0;
    Eager.TotalQtyNonNegative(m.resting[1..i]);
    assert m.resting[..i] == [m.resting[0]] + m.resting[1..i];
    assert n.resting[..i - 1] == m.resting[1..i];
    assert n.resting[i - 1] == m.resting[i] && n.resting[j - 1] == m.resting[j];
  }

  lemma {:induction false} SweepParts(taker: Side, limit: int, id: nat, t: Sweeping) returns (x: nat)
    requires CanSweep(taker, t) && FillsTwin(taker, limit, t.qty, Live(t.queue, t.orders))
    ensures Eager.Positive(Live(t.queue, t.orders))
    ensures Parted(taker, limit, t, Sweep(taker, limit, id, t), Eager.Match(taker, limit, id, SweepView(t)), x)
    decreases |t.queue|, if t.qty > 0 then t.qty else 0
  {
    var n, live := HeadStep(id, t), Live(t.queue, t.orders);
    TwinGoesOn(taker, limit, t);
    LivePositive(t.queue, t.orders);
    HeadStepKeeps(taker, limit, id, t);
    HeadStepFrame(id, t);
    if i: nat :| 0 < i < |t.queue| && t.queue[i].id == t.queue[0].id && t.queue[0].id in t.orders {
      x := t.queue[0].id;
      TwinFilled(taker, limit, id, t, i);
    } else {
      HeadStepView(taker, limit, id, t);
      if t.queue[0].id in t.orders {
        forall j | 0 < j < |live|
          ensures live[j].id != live[0].id
        {
          var i := LiveSource(t.queue[1..], t.orders, j - 1);
          assert t.queue[i + 1].id == live[j].id;
        }
        TwinStaysAhead(taker, limit, id, SweepView(t));
        LiveHeadNoBetter(taker.Opposite(), t.queue, t.orders);
      }
      x := SweepParts(taker, limit, id, n);
    }
  }
}
