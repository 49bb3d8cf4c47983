/** The engines' 64-bit counters, kept in step with the list of trades. */
module Counters {
  import opened Words
  import opened Orders

  ghost predicate Counts(log: seq<Trade>, fills: Word, volume: Word) {
    fills == ToWord(|log|) && volume == ToWord(TradedQty(log))
  }

  lemma CountsAdd(log: seq<Trade>, fills: Word, volume: Word, t: Trade)
    requires Counts(log, fills, volume)
    ensures Counts(log + [t], Add(fills, 1), Add(volume, ToWord(t.qty)))
  {
    assert (log + [t])[..|log|] == log;
    AddWraps(|log|, 1);
    AddWraps(TradedQty(log), t.qty);
  }

  /** Count one fill. */
  method CountFill(ghost log: seq<Trade>, fills: Word, volume: Word, t: Trade)
      returns (ghost log': seq<Trade>, fills': Word, volume': Word)
    requires Counts(log, fills, volume)
    ensures Counts(log', fills', volume') && log' == log + [t]
  {
    CountsAdd(log, fills, volume, t);
    log', fills', volume' := log + [t], Add(fills, 1), Add(volume, ToWord(t.qty));
  }
}
