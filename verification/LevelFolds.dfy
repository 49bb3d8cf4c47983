/** Folding the live orders level by level. */
module LevelFolds {
  import opened Orders
  import opened Levels
  import opened Ladder
  import Lazy = LazyBook
  import Checksum

  lemma FoldNextId<A>(step: (A, Order) -> A, acc: A, lvl: FlatLevel, i: nat, price: int, live: map<nat, Resting>)
    requires lvl.head <= i < |lvl.ids|
    ensures Checksum.Fold(step, acc, Lazy.Live(At(lvl.ids[lvl.head..i + 1], price), live)) ==
            Checksum.FoldId(step, Checksum.Fold(step, acc, Lazy.Live(At(lvl.ids[lvl.head..i], price), live)),
                            lvl.ids[i], live)
  {
    var before, e := At(lvl.ids[lvl.head..i], price), Entry(lvl.ids[i], price);
    assert At(lvl.ids[lvl.head..i + 1], price) == before + [e];
    Checksum.FoldLiveLast(step, acc, before, e, live);
  }

  lemma FoldNextLevel<A>(step: (A, Order) -> A, acc: A, s: seq<FlatLevel>, p: nat, live: map<nat, Resting>)
    requires Heads(s) && p < |s|
    ensures Checksum.Fold(step, acc, Lazy.Live(Entries(Ask, Above(s, p)), live)) ==
            Checksum.Fold(step, Checksum.Fold(step, acc, Lazy.Live(At(s[p].Waiting(), p), live)),
                          Lazy.Live(Entries(Ask, Above(s, p + 1)), live))
  {
    WalkLadder(s, p);
    var run, more := At(s[p].Waiting(), p), Entries(Ask, Above(s, p + 1));
    Lazy.LiveConcat(run, more, live);
    Checksum.FoldConcat(step, acc, Lazy.Live(run, live), Lazy.Live(more, live));
  }

  /** The ids of a level before index `i` are folded into `acc`. */
  ghost predicate FoldedIds<A>(step: (A, Order) -> A, acc0: A, acc: A, lvl: FlatLevel, i: int, price: int,
                               live: map<nat, Resting>) {
    lvl.head <= i <= |lvl.ids| && acc == Checksum.Fold(step, acc0, Lazy.Live(At(lvl.ids[lvl.head..i], price), live))
  }

  lemma FoldedNextId<A>(step: (A, Order) -> A, acc0: A, acc: A, lvl: FlatLevel, i: nat, price: int,
                        live: map<nat, Resting>)
    requires i < |lvl.ids| && FoldedIds(step, acc0, acc, lvl, i, price, live)
    ensures FoldedIds(step, acc0, Checksum.FoldId(step, acc, lvl.ids[i], live), lvl, i + 1, price, live)
  {
    FoldNextId(step, acc0, lvl, i, price, live);
  }

  lemma FoldedIdsAll<A>(step: (A, Order) -> A, acc0: A, acc: A, lvl: FlatLevel, price: int, live: map<nat, Resting>)
    requires FoldedIds(step, acc0, acc, lvl, |lvl.ids|, price, live)
    ensures acc == Checksum.Fold(step, acc0, Lazy.Live(At(lvl.Waiting(), price), live))
  {
    assert lvl.ids[lvl.head..|lvl.ids|] == lvl.Waiting();
  }

  /** With the levels below `p` folded into `acc`, what remains gives the fold of the whole ladder from `acc0`. */
  ghost predicate FoldedBelow<A>(step: (A, Order) -> A, acc0: A, acc: A, s: seq<FlatLevel>, p: int,
                                 live: map<nat, Resting>) {
    Heads(s) && Checksum.Fold(step, acc, Lazy.Live(Entries(Ask, Above(s, p)), live)) ==
                Checksum.Fold(step, acc0, Lazy.Live(Entries(Ask, LevelsIn(s)), live))
  }

  lemma FoldedNext<A>(step: (A, Order) -> A, acc0: A, acc: A, next: A, s: seq<FlatLevel>, p: nat,
                      live: map<nat, Resting>)
    requires p < |s| && FoldedBelow(step, acc0, acc, s, p, live)
    requires next == Checksum.Fold(step, acc, Lazy.Live(At(s[p].Waiting(), p), live))
    ensures FoldedBelow(step, acc0, next, s, p + 1, live)
  {
    FoldNextLevel(step, acc, s, p, live);
  }

  lemma FoldedAll<A>(step: (A, Order) -> A, acc0: A, acc: A, s: seq<FlatLevel>, live: map<nat, Resting>)
    requires FoldedBelow(step, acc0, acc, s, |s|, live)
    ensures acc == Checksum.Fold(step, acc0, Lazy.Live(Entries(Ask, LevelsIn(s)), live))
  {
    SameMaps(Above(s, |s|), map[]);
  }

  lemma FoldBestLevel<A>(step: (A, Order) -> A, acc: A, m: PriceLevels, p: int, live: map<nat, Resting>)
    requires IsBest(Ask, m.Keys, p)
    ensures Checksum.Fold(step, acc, Lazy.Live(Entries(Ask, m), live)) ==
            Checksum.Fold(step, Checksum.Fold(step, acc, Lazy.Live(At(m[p], p), live)),
                          Lazy.Live(Entries(Ask, m - {p}), live))
  {
    EntriesUnfold(Ask, m, p);
    Lazy.LiveConcat(At(m[p], p), Entries(Ask, m - {p}), live);
    Checksum.FoldConcat(step, acc, Lazy.Live(At(m[p], p), live), Lazy.Live(Entries(Ask, m - {p}), live));
  }
}
