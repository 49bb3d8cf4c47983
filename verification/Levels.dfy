/** One side of a book as price levels, and the single queue those levels amount to. */
module Levels {
  import opened Orders

  lemma SomeMember(s: set<int>)
    ensures s == {} || exists k :: k in s
  {
    if !exists k :: k in s {
      assert forall k :: k in s <==> k in {};
    }
  }

  type PriceLevels = map<int, seq<nat>>

  lemma SameMaps<K, V>(m: map<K, V>, n: map<K, V>)
    requires forall k :: k in m <==> k in n
    requires forall k :: k in m ==> m[k] == n[k]
    ensures m == n
  {
    assert forall k :: k in m <==> k in n;
    assert forall k :: k in m ==> m[k] == n[k];
  }

  /** Levels that hold something; a level is only ever empty while matching is working on it. */
  function NonEmpty(m: PriceLevels): PriceLevels {
    map p | p in m && |m[p]| > 0 :: m[p]
  }

  ghost predicate AllNonEmpty(m: PriceLevels) {
    forall p :: p in m ==> |m[p]| > 0
  }

  lemma NonEmptyIsAll(m: PriceLevels)
    requires AllNonEmpty(m)
    ensures NonEmpty(m) == m
  {
    forall p | p in m
      ensures p in NonEmpty(m)
    {
      assert |m[p]| > 0;
    }
    SameMaps(NonEmpty(m), m);
  }

  ghost predicate IsBest(side: Side, keys: set<int>, p: int) {
    p in keys && forall k :: k in keys ==> AtLeastAsGood(side, p, k)
  }

  lemma {:induction false} BestExists(side: Side, keys: set<int>)
    requires keys != {}
    ensures exists p :: IsBest(side, keys, p)
    decreases |keys|
  {
    SomeMember(keys);
    var p :| p in keys;
    var rest := keys - {p};
    assert keys == rest + {p};
    if rest == {} {
      assert IsBest(side, keys, p);
    } else {
      BestExists(side, rest);
      var b :| IsBest(side, rest, b);
      assert IsBest(side, keys, if AtLeastAsGood(side, p, b) then p else b);
    }
  }

  /** The best price of a side: the first key of an ask tree, the last key of a bid tree. */
  function Best(side: Side, keys: set<int>): (p: int)
    requires keys != {}
    ensures IsBest(side, keys, p)
  {
    BestExists(side, keys);
    assert exists p :: p in keys && forall k :: k in keys ==> AtLeastAsGood(side, p, k) by {
      var b :| IsBest(side, keys, b);
      assert b in keys;
    }
    var p :| p in keys && forall k :: k in keys ==> AtLeastAsGood(side, p, k);
    p
  }

  function At(ids: seq<nat>, p: int): (r: seq<Entry>)
    ensures |r| == |ids|
    ensures forall i :: 0 <= i < |r| ==> r[i] == Entry(ids[i], p)
  {
    seq(|ids|, i requires 0 <= i < |ids| => Entry(ids[i], p))
  }

  /** All queued ids, best level first. */
  function Entries(side: Side, m: PriceLevels): seq<Entry>
    decreases |m.Keys|
  {
    if m.Keys == {} then []
    else
      var p := Best(side, m.Keys);
      assert (m - {p}).Keys == m.Keys - {p};
      At(m[p], p) + Entries(side, m - {p})
  }

  function Queue(m: PriceLevels, p: int): seq<nat> {
    if p in m then m[p] else []
  }

  lemma EntriesUnfold(side: Side, m: PriceLevels, p: int)
    requires IsBest(side, m.Keys, p)
    ensures Entries(side, m) == At(m[p], p) + Entries(side, m - {p})
  {
    assert Best(side, m.Keys) == p;
  }

  function Pop(m: PriceLevels, p: int): PriceLevels
    requires p in m && m[p] != []
  {
    if |m[p]| == 1 then m - {p} else m[p := m[p][1..]]
  }

  /** Popping the front of the best level pops the front of the queue. */
  lemma PopBest(side: Side, m: PriceLevels, p: int)
    requires AllNonEmpty(m) && IsBest(side, m.Keys, p)
    ensures Entries(side, m) == [Entry(m[p][0], p)] + Entries(side, Pop(m, p))
  {
    EntriesUnfold(side, m, p);
    assert At(m[p], p) == [Entry(m[p][0], p)] + At(m[p][1..], p);
    if |m[p]| == 1 {
      assert At(m[p][1..], p) == [];
    } else {
      var m' := m[p := m[p][1..]];
      EntriesUnfold(side, m', p);
      assert m' - {p} == m - {p};
    }
  }

  lemma NonEmptyPop(m: PriceLevels, p: int)
    requires AllNonEmpty(m) && p in m
    ensures NonEmpty(m[p := m[p][1..]]) == Pop(m, p)
  {
    var m' := m[p := m[p][1..]];
    if |m[p]| == 1 {
      EraseUsedUp(m', p);
      SameMaps(m' - {p}, m - {p});
    } else {
      NonEmptyIsAll(m');
    }
  }

  /** The head of the best level is the head of the queue, before and after it is popped. */
  lemma HeadOfBest(side: Side, m: PriceLevels, p: int)
    requires AllNonEmptyBut(m, p) && IsBest(side, m.Keys, p) && m[p] != []
    ensures Entries(side, NonEmpty(m)) ==
            [Entry(m[p][0], p)] + Entries(side, NonEmpty(m[p := m[p][1..]]))
  {
    assert AllNonEmpty(m);
    NonEmptyIsAll(m);
    PopBest(side, m, p);
    NonEmptyPop(m, p);
  }

  ghost predicate AllNonEmptyBut(m: PriceLevels, best: int) {
    forall p :: p in m && p != best ==> |m[p]| > 0
  }

  /** Erasing a used-up level changes nothing that is queued. */
  lemma EraseUsedUp(m: PriceLevels, p: int)
    requires p in m && m[p] == [] && AllNonEmptyBut(m, p)
    ensures AllNonEmpty(m - {p}) && NonEmpty(m) == m - {p} == NonEmpty(m - {p})
  {
    NonEmptyIsAll(m - {p});
    forall k | k in m && k != p
      ensures k in NonEmpty(m)
    {
      assert |m[k]| > 0;
    }
    SameMaps(NonEmpty(m), m - {p});
  }

  lemma {:induction false} InsertBehind(side: Side, q: seq<Entry>, r: seq<Entry>, x: Entry)
    requires forall i :: 0 <= i < |q| ==> AtLeastAsGood(side, q[i].price, x.price)
    ensures Insert(side, EntryPrice, q + r, x) == q + Insert(side, EntryPrice, r, x)
  {
    if q == [] {
      assert q + r == r;
      assert [] + Insert(side, EntryPrice, r, x) == Insert(side, EntryPrice, r, x);
    } else {
      assert (q + r)[1..] == q[1..] + r;
      InsertBehind(side, q[1..], r, x);
      assert [q[0]] + (q[1..] + Insert(side, EntryPrice, r, x)) == q + Insert(side, EntryPrice, r, x);
    }
  }

  function Push(m: PriceLevels, p: int, id: nat): PriceLevels {
    m[p := Queue(m, p) + [id]]
  }

  /** Pushing onto a level queues behind everything at that price or better. */
  lemma {:induction false} PushInserts(side: Side, m: PriceLevels, p: int, id: nat)
    requires AllNonEmpty(m)
    ensures Entries(side, Push(m, p, id)) == Insert(side, EntryPrice, Entries(side, m), Entry(id, p))
    decreases |m.Keys|
  {
    var m', e := Push(m, p, id), Entry(id, p);
    if m.Keys == {} {
      EntriesUnfold(side, m', p);
      assert m' - {p} == map[];
    } else {
      var b := Best(side, m.Keys);
      var rest := m - {b};
      assert rest.Keys == m.Keys - {b};
      if !AtLeastAsGood(side, b, p) {
        PushNewBest(side, m, p, id, b);
      } else if b == p {
        PushAtBest(side, m, p, id);
      } else {
        PushInserts(side, rest, p, id);
        PushBehindBest(side, m, p, id, b);
      }
    }
  }

  lemma PushBehindBest(side: Side, m: PriceLevels, p: int, id: nat, b: int)
    requires IsBest(side, m.Keys, b) && b != p && AtLeastAsGood(side, b, p)
    requires var rest := m - {b};
             Entries(side, Push(rest, p, id)) == Insert(side, EntryPrice, Entries(side, rest), Entry(id, p))
    ensures Entries(side, Push(m, p, id)) == Insert(side, EntryPrice, Entries(side, m), Entry(id, p))
  {
    var m', rest := Push(m, p, id), m - {b};
    EntriesUnfold(side, m, b);
    PushMinus(m, p, id, b);
    assert m'.Keys == m.Keys + {p};
    EntriesUnfold(side, m', b);
    InsertBehind(side, At(m[b], b), Entries(side, rest), Entry(id, p));
  }

  lemma PushMinus(m: PriceLevels, p: int, id: nat, b: int)
    requires b != p
    ensures Push(m, p, id) - {b} == Push(m - {b}, p, id)
  {
    SameMaps(Push(m, p, id) - {b}, Push(m - {b}, p, id));
  }

  lemma PushAtBest(side: Side, m: PriceLevels, p: int, id: nat)
    requires AllNonEmpty(m) && IsBest(side, m.Keys, p)
    ensures Entries(side, Push(m, p, id)) == Insert(side, EntryPrice, Entries(side, m), Entry(id, p))
  {
    var m', e, rest := Push(m, p, id), Entry(id, p), m - {p};
    EntriesUnfold(side, m, p);
    EntriesUnfold(side, m', p);
    assert m' - {p} == rest;
    assert At(m'[p], p) == At(m[p], p) + [e];
    InsertBehind(side, At(m[p], p), Entries(side, rest), e);
    PushBeforeRest(side, rest, e);
    assert At(m[p], p) + ([e] + Entries(side, rest)) == At(m[p], p) + [e] + Entries(side, rest);
  }

  lemma PushNewBest(side: Side, m: PriceLevels, p: int, id: nat, b: int)
    requires AllNonEmpty(m) && IsBest(side, m.Keys, b) && !AtLeastAsGood(side, b, p)
    ensures Entries(side, Push(m, p, id)) == Insert(side, EntryPrice, Entries(side, m), Entry(id, p))
  {
    var m' := Push(m, p, id);
    assert p !in m;
    EntriesUnfold(side, m', p);
    assert m' - {p} == m;
    assert At(m'[p], p) == [Entry(id, p)];
    PushBeforeRest(side, m, Entry(id, p));
  }

  lemma PushBeforeRest(side: Side, m: PriceLevels, e: Entry)
    requires AllNonEmpty(m)
    requires forall k :: k in m ==> !AtLeastAsGood(side, k, e.price)
    ensures Insert(side, EntryPrice, Entries(side, m), e) == [e] + Entries(side, m)
  {
    if m.Keys != {} {
      var b := Best(side, m.Keys);
      EntriesUnfold(side, m, b);
      assert Entries(side, m)[0] == At(m[b], b)[0];
    }
  }

  lemma EntriesEmpty(side: Side, m: PriceLevels)
    requires AllNonEmpty(m)
    ensures Entries(side, m) == [] <==> m.Keys == {}
    ensures m.Keys != {} ==> Entries(side, m)[0].price == Best(side, m.Keys)
  {
    if m.Keys != {} {
      var b := Best(side, m.Keys);
      assert Entries(side, m)[0] == At(m[b], b)[0];
    }
  }

  // ------------------------------------------------------------ from the queue back to the levels

  /** The levels that arise from pushing the entries one after the other. */
  function LevelsOf(s: seq<Entry>): (m: PriceLevels)
    ensures AllNonEmpty(m)
  {
    if s == [] then map[]
    else Push(LevelsOf(s[..|s| - 1]), s[|s| - 1].price, s[|s| - 1].id)
  }

  lemma {:induction false} SortedEntries(s: seq<Entry>)
    ensures SortAscending(EntryPrice, s) == Entries(Ask, LevelsOf(s))
  {
    if s != [] {
      var t, e := s[..|s| - 1], s[|s| - 1];
      SortedEntries(t);
      PushInserts(Ask, LevelsOf(t), e.price, e.id);
    }
  }

  function IdsAt(s: seq<Entry>, p: int): seq<nat> {
    if s == [] then []
    else IdsAt(s[..|s| - 1], p) + (if s[|s| - 1].price == p then [s[|s| - 1].id] else [])
  }

  lemma {:induction false} LevelsOfQueue(s: seq<Entry>, p: int)
    ensures Queue(LevelsOf(s), p) == IdsAt(s, p)
  {
    if s != [] {
      LevelsOfQueue(s[..|s| - 1], p);
    }
  }

  lemma {:induction false} IdsAtConcat(s: seq<Entry>, t: seq<Entry>, p: int)
    ensures IdsAt(s + t, p) == IdsAt(s, p) + IdsAt(t, p)
  {
    if t == [] {
      assert s + t == s;
    } else {
      assert (s + t)[..|s + t| - 1] == s + t[..|t| - 1];
      IdsAtConcat(s, t[..|t| - 1], p);
    }
  }

  lemma {:induction false} IdsAtLevel(ids: seq<nat>, k: int, p: int)
    ensures IdsAt(At(ids, k), p) == if k == p then ids else []
  {
    if ids != [] {
      var t := ids[..|ids| - 1];
      assert At(ids, k)[..|ids| - 1] == At(t, k);
      IdsAtLevel(t, k, p);
      assert ids == t + [ids[|ids| - 1]];
    }
  }

  lemma {:induction false} EntriesQueue(side: Side, m: PriceLevels, p: int)
    ensures IdsAt(Entries(side, m), p) == Queue(m, p)
    decreases |m.Keys|
  {
    if m.Keys != {} {
      var b := Best(side, m.Keys);
      assert (m - {b}).Keys == m.Keys - {b};
      EntriesQueue(side, m - {b}, p);
      IdsAtConcat(At(m[b], b), Entries(side, m - {b}), p);
      IdsAtLevel(m[b], b, p);
    }
  }

  lemma SameQueues(m: PriceLevels, n: PriceLevels)
    requires AllNonEmpty(m) && AllNonEmpty(n)
    requires forall p :: Queue(m, p) == Queue(n, p)
    ensures m == n
  {
    forall p | p in m
      ensures p in n && m[p] == n[p]
    {
      assert Queue(m, p) == Queue(n, p);
    }
    forall p | p in n
      ensures p in m
    {
      assert Queue(m, p) == Queue(n, p);
    }
  }

  /** The queue determines the levels. */
  lemma LevelsOfEntries(side: Side, m: PriceLevels)
    requires AllNonEmpty(m)
    ensures LevelsOf(Entries(side, m)) == m
  {
    forall p
      ensures Queue(LevelsOf(Entries(side, m)), p) == Queue(m, p)
    {
      LevelsOfQueue(Entries(side, m), p);
      EntriesQueue(side, m, p);
    }
    SameQueues(LevelsOf(Entries(side, m)), m);
  }

  /** Walking the levels by ascending price is the stable sort of either side's queue. */
  lemma WalkAscending(side: Side, m: PriceLevels)
    requires AllNonEmpty(m)
    ensures SortAscending(EntryPrice, Entries(side, m)) == Entries(Ask, m)
  {
    LevelsOfEntries(side, m);
    SortedEntries(Entries(side, m));
  }
}
