/** When the consumer releases what it has taken, and when the producer looks at the shared cursor. */
module RingDrains {
  import opened Ring
  import opened RingSafety

  /**
   * One at a time, nothing beyond the next message is taken up before the last one is released; in
   * batches, all that was seen published is drained before anything is released.
   */
  ghost predicate Drains<B, R>(c: Config<B, R>, s: State<B, R>) {
    && (!c.batch ==> s.avail <= s.cons + 1)
    && (c.batch && !s.cpc.CWait? ==> s.avail == s.prodSeen)
  }

  /** A producer only waits on the shared cursor when its own copy leaves no room. */
  ghost predicate LooksWhenFull<B, R>(c: Config<B, R>, s: State<B, R>) {
    s.ppc.PSpin? ==> !RoomFor(c, s, s.consSeen)
  }

  lemma StepDrains<B, R>(c: Config<B, R>, s: State<B, R>, step: Step)
    requires Inv(c, s) && Drains(c, s) && Enabled(c, s, step)
    ensures Drains(c, Do(c, s, step))
  {
    match step
    case Read =>
    case _ =>
  }

  lemma StepLooks<B, R>(c: Config<B, R>, s: State<B, R>, step: Step)
    requires Inv(c, s) && LooksWhenFull(c, s) && Enabled(c, s, step)
    ensures LooksWhenFull(c, Do(c, s, step))
  {
    match step
    case Read =>
    case _ =>
  }

  lemma InitDrains<B, R>(c: Config<B, R>, s: State<B, R>)
    requires Init(c, s)
    ensures Drains(c, s) && LooksWhenFull(c, s)
  {
  }

  lemma NextDrains<B, R>(c: Config<B, R>, s: State<B, R>, t: State<B, R>)
    requires Inv(c, s) && Drains(c, s) && LooksWhenFull(c, s) && Next(c, s, t)
    ensures Drains(c, t) && LooksWhenFull(c, t)
  {
    var step :| Enabled(c, s, step) && t == Do(c, s, step);
    StepDrains(c, s, step);
    StepLooks(c, s, step);
  }

  lemma {:induction false} RunDrains<B, R>(c: Config<B, R>, run: seq<State<B, R>>, i: nat)
    requires Valid(c) && IsRun(c, run) && i < |run|
    ensures Drains(c, run[i]) && LooksWhenFull(c, run[i])
  {
    if i == 0 {
      InitDrains(c, run[0]);
    } else {
      RunDrains(c, run, i - 1);
      RunKeepsInv(c, run, i - 1);
      var s, t := run[i - 1], run[i];
      assert Next(c, s, run[i - 1 + 1]);
      NextDrains(c, s, t);
    }
  }

  lemma ReleaseIs<B, R>(c: Config<B, R>, s: State<B, R>, step: Step)
    requires Inv(c, s) && Drains(c, s) && Enabled(c, s, step) && Do(c, s, step).cons != s.cons
    ensures Do(c, s, step).cons == s.taken == if c.batch then s.prodSeen else s.cons + 1
  {
    match step
    case Read =>
    case _ =>
  }

  lemma NextReleases<B, R>(c: Config<B, R>, s: State<B, R>, t: State<B, R>)
    requires Inv(c, s) && Drains(c, s) && Next(c, s, t) && t.cons != s.cons
    ensures t.cons == s.taken == if c.batch then s.prodSeen else s.cons + 1
  {
    var step :| Enabled(c, s, step) && t == Do(c, s, step);
    ReleaseIs(c, s, step);
  }

  /** In every run each release hands back exactly one slot, or exactly the batch that was seen. */
  lemma Releases<B, R>(c: Config<B, R>, run: seq<State<B, R>>, i: nat)
    requires Valid(c) && IsRun(c, run) && i + 1 < |run| && run[i + 1].cons != run[i].cons
    ensures run[i + 1].cons == run[i].taken == if c.batch then run[i].prodSeen else run[i].cons + 1
  {
    RunDrains(c, run, i);
    RunKeepsInv(c, run, i);
    assert Next(c, run[i], run[i + 1]);
    NextReleases(c, run[i], run[i + 1]);
  }

  /** With the cache, the shared cursor is loaded only when the cached one says that the ring is full. */
  lemma CacheSavesLoads<B, R>(c: Config<B, R>, run: seq<State<B, R>>, i: nat, v: nat)
    requires Valid(c) && IsRun(c, run) && i < |run| && c.cached && Enabled(c, run[i], LoadCons(v))
    ensures run[i].prod + 1 > run[i].consSeen + c.N()
  {
    RunDrains(c, run, i);
  }
}
