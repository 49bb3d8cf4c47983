/**
 * The tuned engines' data: a dense array of levels indexed by price, each a list of ids with a
 * head index, and an array of orders indexed by id in which quantity 0 means dead.
 */
module Ladder {
  import opened Orders
  import opened Levels

  const LADDER_BASE: int := 0
  const LADDER_LEN: nat := 4096

  datatype FlatLevel = FlatLevel(ids: seq<nat>, head: nat) {
    predicate IsEmpty() {
      head == |ids|
    }

    function Waiting(): seq<nat>
      requires head <= |ids|
    {
      ids[head..]
    }
  }

  const FRESH := FlatLevel([], 0)

  /** Heads in range; an empty level has been cleared. */
  predicate LevelOk(l: FlatLevel) {
    l.head <= |l.ids| && (l.IsEmpty() ==> l == FRESH)
  }

  ghost predicate IdsBelow(l: FlatLevel, n: nat) {
    forall i :: 0 <= i < |l.ids| ==> l.ids[i] < n
  }

  /** A ladder whose levels are all in order, save perhaps the one being worked on. */
  ghost predicate LadderOkBut(s: seq<FlatLevel>, n: nat, best: int) {
    && |s| == LADDER_LEN
    && (forall p :: 0 <= p < |s| ==> s[p].head <= |s[p].ids| && IdsBelow(s[p], n))
    && (forall p :: 0 <= p < |s| && p != best ==> LevelOk(s[p]))
  }

  ghost predicate LadderOk(s: seq<FlatLevel>, n: nat) {
    && |s| == LADDER_LEN
    && (forall p :: 0 <= p < |s| ==> LevelOk(s[p]) && IdsBelow(s[p], n))
  }

  ghost predicate Heads(s: seq<FlatLevel>) {
    forall p :: 0 <= p < |s| ==> s[p].head <= |s[p].ids|
  }

  /** The occupied levels from price `from` upwards. */
  ghost function Above(s: seq<FlatLevel>, from: int): PriceLevels
    requires Heads(s)
  {
    map p | 0 <= p < |s| && from <= p && s[p].head < |s[p].ids| :: s[p].Waiting()
  }

  ghost function LevelsIn(s: seq<FlatLevel>): PriceLevels
    requires Heads(s)
  {
    Above(s, 0)
  }

  lemma LevelsInOk(s: seq<FlatLevel>)
    requires Heads(s)
    ensures AllNonEmpty(LevelsIn(s))
  {
  }

  /** `best` is the best occupied level, or `none` when every level is empty. */
  ghost predicate PointsToBest(side: Side, s: seq<FlatLevel>, best: int, none: int) {
    if best == none then forall p :: 0 <= p < |s| ==> s[p].IsEmpty()
    else
      && 0 <= best < |s| && !s[best].IsEmpty()
      && forall p :: 0 <= p < |s| && !s[p].IsEmpty() ==> AtLeastAsGood(side, best, p)
  }

  /** While side `side` of the book is being matched: level `best` may have run empty, nothing better is occupied. */
  ghost predicate Matched(side: Side, s: seq<FlatLevel>, n: nat, best: int) {
    && LadderOkBut(s, n, best) && 0 <= best < |s|
    && forall p :: 0 <= p < |s| && !s[p].IsEmpty() ==> AtLeastAsGood(side, best, p)
  }

  lemma PointerIsBest(side: Side, s: seq<FlatLevel>, best: int, none: int)
    requires Heads(s) && PointsToBest(side, s, best, none)
    ensures best == none ==> LevelsIn(s) == map[]
    ensures best != none ==> IsBest(side, LevelsIn(s).Keys, best)
  {
    if best == none {
      SameMaps(LevelsIn(s), map[]);
    }
  }

  function PastHead(l: FlatLevel): FlatLevel {
    l.(head := l.head + 1)
  }

  lemma PopHead(s: seq<FlatLevel>, p: int)
    requires Heads(s) && 0 <= p < |s| && !s[p].IsEmpty()
    ensures p in LevelsIn(s) && LevelsIn(s)[p][0] == s[p].ids[s[p].head]
    ensures Heads(s[p := PastHead(s[p])])
    ensures LevelsIn(s[p := PastHead(s[p])]) == Pop(LevelsIn(s), p)
  {
    var m, m' := LevelsIn(s), LevelsIn(s[p := PastHead(s[p])]);
    assert m[p] == s[p].Waiting();
    assert m[p][1..] == s[p].ids[s[p].head + 1..];
    SameMaps(m', Pop(m, p));
  }

  lemma BestIsBest(side: Side, s: seq<FlatLevel>, n: nat, best: int)
    requires Matched(side, s, n, best) && !s[best].IsEmpty()
    ensures IsBest(side, LevelsIn(s).Keys, best)
  {
  }

  lemma PastHeadMatched(side: Side, s: seq<FlatLevel>, n: nat, best: int)
    requires Matched(side, s, n, best) && !s[best].IsEmpty()
    ensures Matched(side, s[best := PastHead(s[best])], n, best)
  {
  }

  /** Stepping past the head of the best level. */
  lemma AdvanceBest(side: Side, s: seq<FlatLevel>, n: nat, best: int)
    requires Matched(side, s, n, best) && !s[best].IsEmpty()
    ensures Heads(s) && Heads(s[best := PastHead(s[best])])
    ensures Matched(side, s[best := PastHead(s[best])], n, best)
    ensures s[best].ids[s[best].head] < n
    ensures Entries(side, LevelsIn(s)) ==
            [Entry(s[best].ids[s[best].head], best)] + Entries(side, LevelsIn(s[best := PastHead(s[best])]))
  {
    PastHeadMatched(side, s, n, best);
    LevelsInOk(s);
    PopHead(s, best);
    BestIsBest(side, s, n, best);
    PopBest(side, LevelsIn(s), best);
    assert IdsBelow(s[best], n);
  }

  /** Clearing an empty level changes nothing that is queued. */
  lemma ResetLevel(s: seq<FlatLevel>, p: int)
    requires Heads(s) && 0 <= p < |s| && s[p].IsEmpty()
    ensures Heads(s[p := FRESH]) && LevelsIn(s[p := FRESH]) == LevelsIn(s)
  {
    SameMaps(LevelsIn(s[p := FRESH]), LevelsIn(s));
  }

  function PushLevel(l: FlatLevel, id: nat): FlatLevel {
    l.(ids := l.ids + [id])
  }

  lemma PushLadder(s: seq<FlatLevel>, p: int, id: nat)
    requires Heads(s) && 0 <= p < |s|
    ensures Heads(s[p := PushLevel(s[p], id)])
    ensures LevelsIn(s[p := PushLevel(s[p], id)]) == Push(LevelsIn(s), p, id)
  {
    var l := PushLevel(s[p], id);
    assert l.ids[s[p].head..] == s[p].ids[s[p].head..] + [id];
    var m' := LevelsIn(s[p := l]);
    assert Queue(LevelsIn(s), p) == s[p].Waiting();
    SameMaps(m', Push(LevelsIn(s), p, id));
  }

  lemma PushQueues(side: Side, s: seq<FlatLevel>, p: int, id: nat)
    requires Heads(s) && 0 <= p < |s|
    ensures Heads(s[p := PushLevel(s[p], id)])
    ensures Entries(side, LevelsIn(s[p := PushLevel(s[p], id)])) ==
            Insert(side, EntryPrice, Entries(side, LevelsIn(s)), Entry(id, p))
  {
    PushLadder(s, p, id);
    LevelsInOk(s);
    PushInserts(side, LevelsIn(s), p, id);
  }

  lemma PointerAfterPush(side: Side, s: seq<FlatLevel>, best: int, none: int, p: int, id: nat)
    requires Heads(s) && PointsToBest(side, s, best, none) && 0 <= p < |s|
    requires AtLeastAsGood(side, p, none) && !(0 <= none < |s|)
    ensures PointsToBest(side, s[p := PushLevel(s[p], id)], if side.Bid? then Max(best, p) else Min(best, p), none)
  {
    var s' := s[p := PushLevel(s[p], id)];
    assert !s'[p].IsEmpty();
  }

  /** Walking the ladder upwards meets the occupied levels by ascending price. */
  lemma WalkLadder(s: seq<FlatLevel>, p: nat)
    requires Heads(s) && p < |s|
    ensures Entries(Ask, Above(s, p)) == At(s[p].Waiting(), p) + Entries(Ask, Above(s, p + 1))
  {
    var m, n := Above(s, p), Above(s, p + 1);
    if s[p].IsEmpty() {
      SameMaps(m, n);
      assert At(s[p].Waiting(), p) == [];
    } else {
      EntriesUnfold(Ask, m, p);
      SameMaps(m - {p}, n);
    }
  }

  // ------------------------------------------------------------ the id store

  ghost predicate StoreOk(o: seq<Resting>) {
    forall i :: 0 <= i < |o| ==> o[i].qty >= 0
  }

  ghost function OrdersIn(o: seq<Resting>): map<nat, Resting> {
    map id: nat | 0 <= id < |o| && o[id].qty != 0 :: o[id]
  }

  lemma StorePositive(o: seq<Resting>)
    requires StoreOk(o)
    ensures forall id :: id in OrdersIn(o) ==> OrdersIn(o)[id].qty > 0
  {
  }

  lemma StoreKill(o: seq<Resting>, id: nat, r: Resting)
    requires id < |o| && r.qty == 0
    ensures OrdersIn(o[id := r]) == OrdersIn(o) - {id}
    ensures o[id].qty != 0 ==> |OrdersIn(o[id := r])| == |OrdersIn(o)| - 1
  {
    SameMaps(OrdersIn(o[id := r]), OrdersIn(o) - {id});
    if o[id].qty != 0 {
      RemoveOne(OrdersIn(o), id);
    }
  }

  lemma StoreSet(o: seq<Resting>, id: nat, r: Resting)
    requires id < |o| && r.qty != 0
    ensures OrdersIn(o[id := r]) == OrdersIn(o)[id := r]
    ensures |OrdersIn(o[id := r])| == |OrdersIn(o)| + (if o[id].qty == 0 then 1 else 0)
  {
    SameMaps(OrdersIn(o[id := r]), OrdersIn(o)[id := r]);
    if o[id].qty == 0 {
      var m := OrdersIn(o)[id := r];
      RemoveOne(m, id);
      SameMaps(m - {id}, OrdersIn(o));
    } else {
      RemoveOne(OrdersIn(o), id);
      RemoveOne(OrdersIn(o)[id := r], id);
      SameMaps(OrdersIn(o)[id := r] - {id}, OrdersIn(o) - {id});
    }
  }

  lemma RemoveOne(m: map<nat, Resting>, id: nat)
    requires id in m
    ensures |m - {id}| == |m| - 1
  {
    assert (m - {id}).Keys == m.Keys - {id};
    assert |m.Keys| == |m| && |(m - {id}).Keys| == |m - {id}|;
  }
}
