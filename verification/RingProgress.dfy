/** The ring never deadlocks, and the two threads have only finitely much to do besides spinning. */
module RingProgress {
  import opened Ring
  import opened RingSafety

  /** A load that changes nothing but what the thread remembers of the other's cursor. */
  ghost predicate Spins<B, R>(c: Config<B, R>, s: State<B, R>, step: Step)
    requires Enabled(c, s, step) && |s.buf| == c.N()
  {
    Do(c, s, step).ppc == s.ppc && Do(c, s, step).cpc == s.cpc
  }

  function ProducerOffset(pc: ProducerPc): int {
    match pc
    case PClaim => 9
    case PSpin => 8
    case PWrite(f) => 7 - f
    case PPublish => 1
    case PDone => 0
  }

  function ConsumerOffset<B, R>(s: State<B, R>): int {
    match s.cpc
    case CKind => 10
    case CSide => 9
    case CPrice => 8
    case CQty => 7
    case CId => 6
    case CApply => 5
    case CTs => 4
    case CReport => 3
    case CHead => if s.taken < s.avail then 0 else 3
    case CStore => 2
    case CWait => 1
    case CDone => 0
  }

  /** Steps other than spinning that are left at most. */
  function Work<B, R>(c: Config<B, R>, s: State<B, R>): int {
    9 * (c.Total() - s.prod) + ProducerOffset(s.ppc) + 11 * (c.Total() - s.taken) + ConsumerOffset(s)
  }

  lemma WorkIsNatural<B, R>(c: Config<B, R>, s: State<B, R>)
    requires Inv(c, s)
    ensures Work(c, s) >= 0
  {
  }

  /** Spinning costs nothing and every other step makes progress. */
  lemma StepWorks<B, R>(c: Config<B, R>, s: State<B, R>, step: Step)
    requires Inv(c, s) && Enabled(c, s, step)
    ensures var after := Work(c, Do(c, s, step));
            if Spins(c, s, step) then after == Work(c, s) else after < Work(c, s)
  {
    if step.Read? {
      ReadWorks(c, s);
    } else if step.Claim? || step.LoadCons? || step.Write? || step.Publish? {
      ProducerWorks(c, s, step);
    } else {
      ConsumerWorks(c, s, step);
    }
  }

  lemma ProducerWorks<B, R>(c: Config<B, R>, s: State<B, R>, step: Step)
    requires Inv(c, s) && Enabled(c, s, step)
    requires step.Claim? || step.LoadCons? || step.Write? || step.Publish?
    ensures var after := Work(c, Do(c, s, step));
            if Spins(c, s, step) then after == Work(c, s) else after < Work(c, s)
  {
  }

  lemma ConsumerWorks<B, R>(c: Config<B, R>, s: State<B, R>, step: Step)
    requires Inv(c, s) && Enabled(c, s, step)
    requires step.LoadProd? || step.Head? || step.Apply? || step.MakeReport? || step.StoreCons?
    ensures var after := Work(c, Do(c, s, step));
            if Spins(c, s, step) then after == Work(c, s) else after < Work(c, s)
  {
  }

  lemma ReadWorks<B, R>(c: Config<B, R>, s: State<B, R>)
    requires Inv(c, s) && Enabled(c, s, Read)
    ensures Work(c, Do(c, s, Read)) < Work(c, s) && !Spins(c, s, Read)
  {
  }

  ghost predicate Finished<B, R>(s: State<B, R>) {
    s.ppc.PDone? && s.cpc.CDone?
  }

  /** The producer's own next step, given an up-to-date view of the consumer. */
  function ProducerMove<B, R>(c: Config<B, R>, s: State<B, R>): Step {
    match s.ppc
    case PClaim => if c.cached then Claim else LoadCons(s.cons)
    case PSpin => LoadCons(s.cons)
    case PWrite(_) => Write
    case _ => Publish
  }

  /** The consumer's own next step, given an up-to-date view of the producer. */
  function ConsumerMove<B, R>(s: State<B, R>): Step {
    match s.cpc
    case CWait => LoadProd(s.prod)
    case CHead => Head
    case CApply => Apply
    case CReport => MakeReport
    case CStore => StoreCons
    case _ => Read
  }

  lemma ProducerMoves<B, R>(c: Config<B, R>, s: State<B, R>)
    requires Inv(c, s) && !s.ppc.PDone?
    ensures Enabled(c, s, ProducerMove(c, s))
    ensures Spins(c, s, ProducerMove(c, s)) <==>
            (s.ppc.PSpin? || (s.ppc.PClaim? && !c.cached)) && s.prod == s.cons + c.N()
  {
  }

  lemma ConsumerMoves<B, R>(c: Config<B, R>, s: State<B, R>)
    requires Inv(c, s) && !s.cpc.CDone?
    ensures Enabled(c, s, ConsumerMove(s))
    ensures Spins(c, s, ConsumerMove(s)) ==> s.cpc.CWait? && s.taken == s.prod
  {
    if Reading(s.cpc) {
      ReadWorks(c, s);
    }
  }

  /**
   * No deadlock: until both threads are done, one of them has a step that is not spinning, although
   * the consumer releases slots only once a batch and never releases the report's.
   */
  lemma AlwaysAMove<B, R>(c: Config<B, R>, run: seq<State<B, R>>)
    requires Valid(c) && IsRun(c, run) && !Finished(run[|run| - 1])
    ensures var s := run[|run| - 1];
            |s.buf| == c.N() &&
            exists step :: Enabled(c, s, step) && !Spins(c, s, step)
  {
    var s := run[|run| - 1];
    RunKeepsInv(c, run, |run| - 1);
    if !s.ppc.PDone? {
      ProducerMoves(c, s);
    }
    if !s.cpc.CDone? {
      ConsumerMoves(c, s);
    }
    var p, q := ProducerMove(c, s), ConsumerMove(s);
    if s.ppc.PDone? || Spins(c, s, p) {
      assert Enabled(c, s, q) && !Spins(c, s, q);
    } else {
      assert Enabled(c, s, p) && !Spins(c, s, p);
    }
  }

  /** How many of the first `n` steps of a run moved a thread on. */
  ghost function Moves<B(!new), R(!new)>(run: seq<State<B, R>>, n: nat): nat
    requires n < |run|
  {
    if n == 0 then 0
    else Moves(run, n - 1) + (if run[n - 1].ppc == run[n].ppc && run[n - 1].cpc == run[n].cpc then 0 else 1)
  }

  lemma RunStepWorks<B, R>(c: Config<B, R>, run: seq<State<B, R>>, n: nat)
    requires Valid(c) && IsRun(c, run) && n + 1 < |run|
    ensures var s, t := run[n], run[n + 1];
            Work(c, t) + (if s.ppc == t.ppc && s.cpc == t.cpc then 0 else 1) <= Work(c, s)
  {
    RunKeepsInv(c, run, n);
    assert Next(c, run[n], run[n + 1]);
    var step :| Enabled(c, run[n], step) && run[n + 1] == Do(c, run[n], step);
    StepWorks(c, run[n], step);
  }

  lemma {:induction false} MovesAreBounded<B(!new), R(!new)>(c: Config<B, R>, run: seq<State<B, R>>, n: nat)
    requires Valid(c) && IsRun(c, run) && n < |run|
    ensures Moves(run, n) + Work(c, run[n]) <= Work(c, run[0])
  {
    if n > 0 {
      MovesAreBounded(c, run, n - 1);
      RunStepWorks(c, run, n - 1);
    }
  }

  /** Whatever the interleaving, all but a bounded number of steps are spinning: 20 per message and 10 more. */
  lemma RunsAreShort<B(!new), R(!new)>(c: Config<B, R>, run: seq<State<B, R>>)
    requires Valid(c) && IsRun(c, run)
    ensures Moves(run, |run| - 1) <= 20 * c.Total() + 10
  {
    MovesAreBounded(c, run, |run| - 1);
    RunKeepsInv(c, run, |run| - 1);
    WorkIsNatural(c, run[|run| - 1]);
  }

  // ------------------------------------------------------------ every run can be finished

  lemma RunExtends<B, R>(c: Config<B, R>, run: seq<State<B, R>>, step: Step) returns (longer: seq<State<B, R>>)
    requires Valid(c) && IsRun(c, run) && Enabled(c, run[|run| - 1], step)
    ensures |run[|run| - 1].buf| == c.N() && longer == run + [Do(c, run[|run| - 1], step)] && IsRun(c, longer)
  {
    var s := run[|run| - 1];
    RunKeepsInv(c, run, |run| - 1);
    longer := run + [Do(c, s, step)];
    assert Next(c, s, longer[|run|]);
    forall i | 0 <= i < |longer| - 1
      ensures Next(c, longer[i], longer[i + 1])
    {
      if i < |run| - 1 {
        assert Next(c, run[i], run[i + 1]);
      }
    }
  }

  /** Whatever has happened so far, both threads can still get to their end. */
  lemma {:induction false} CanFinish<B, R>(c: Config<B, R>, run: seq<State<B, R>>) returns (full: seq<State<B, R>>)
    requires Valid(c) && IsRun(c, run)
    ensures run <= full && IsRun(c, full) && Finished(full[|full| - 1])
    decreases Work(c, run[|run| - 1])
  {
    var s := run[|run| - 1];
    RunKeepsInv(c, run, |run| - 1);
    WorkIsNatural(c, s);
    if Finished(s) {
      full := run;
    } else {
      AlwaysAMove(c, run);
      var step :| Enabled(c, s, step) && !Spins(c, s, step);
      StepWorks(c, s, step);
      var longer := RunExtends(c, run, step);
      full := CanFinish(c, longer);
    }
  }
}
