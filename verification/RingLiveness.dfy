/**
 * The ring over infinite time: if each thread is scheduled again and again and stores become visible
 * sooner or later, both threads get to their end.
 */
module RingLiveness {
  import opened Ring
  import opened RingSafety
  import opened RingProgress

  /** What happens at a moment: nothing, or one step of one thread. */
  datatype Turn = Pause | Take(step: Step)

  ghost predicate TurnAt<B, R>(c: Config<B, R>, states: nat -> State<B, R>, turns: nat -> Turn, i: nat) {
    match turns(i)
    case Pause => states(i + 1) == states(i)
    case Take(step) =>
      |states(i).buf| == c.N() && Enabled(c, states(i), step) && states(i + 1) == Do(c, states(i), step)
  }

  ghost predicate IsHistory<B, R>(c: Config<B, R>, states: nat -> State<B, R>, turns: nat -> Turn) {
    Init(c, states(0)) && forall i: nat :: TurnAt(c, states, turns, i)
  }

  // ------------------------------------------------------------ what the scheduler and the memory promise

  predicate OfProducer(turn: Turn) {
    turn.Take? && (turn.step.Claim? || turn.step.LoadCons? || turn.step.Write? || turn.step.Publish?)
  }

  predicate OfConsumer(turn: Turn) {
    turn.Take? && !OfProducer(turn)
  }

  ghost predicate ProducerTurn<B, R>(states: nat -> State<B, R>, turns: nat -> Turn, m: nat) {
    states(m).ppc.PDone? || OfProducer(turns(m))
  }

  ghost predicate ConsumerTurn<B, R>(states: nat -> State<B, R>, turns: nat -> Turn, m: nat) {
    states(m).cpc.CDone? || OfConsumer(turns(m))
  }

  ghost predicate BothAfter<B, R>(states: nat -> State<B, R>, turns: nat -> Turn, n: nat) {
    && (exists m: nat :: n <= m && ProducerTurn(states, turns, m))
    && (exists m: nat :: n <= m && ConsumerTurn(states, turns, m))
  }

  /** No thread that is not done is left out for ever. */
  ghost predicate Fair<B, R>(states: nat -> State<B, R>, turns: nat -> Turn) {
    forall n: nat :: BothAfter(states, turns, n)
  }

  /** From moment `m` on, no load returns less than `cons` and `prod`. */
  ghost predicate SeesFrom(turns: nat -> Turn, m: nat, cons: nat, prod: nat) {
    forall k: nat :: m <= k ==> LoadSees(turns(k), cons, prod)
  }

  predicate LoadSees(turn: Turn, cons: nat, prod: nat) {
    turn.Take? ==> (turn.step.LoadCons? ==> turn.step.v >= cons) && (turn.step.LoadProd? ==> turn.step.w >= prod)
  }

  ghost predicate SeenAfter<B, R>(states: nat -> State<B, R>, turns: nat -> Turn, n: nat) {
    exists m: nat :: SeesFrom(turns, m, states(n).cons, states(n).prod)
  }

  /** Every store to a cursor is visible to all loads sooner or later; nothing is said of how soon. */
  ghost predicate Visible<B, R>(states: nat -> State<B, R>, turns: nat -> Turn) {
    forall n: nat :: SeenAfter(states, turns, n)
  }

  // ------------------------------------------------------------ the end of all progress

  lemma {:induction false} HistoryKeepsInv<B, R>(c: Config<B, R>, states: nat -> State<B, R>, turns: nat -> Turn,
                                                 i: nat)
    requires Valid(c) && IsHistory(c, states, turns)
    ensures Inv(c, states(i))
  {
    if i == 0 {
      InitInv(c, states(0));
    } else {
      HistoryKeepsInv(c, states, turns, i - 1);
      assert TurnAt(c, states, turns, i - 1);
      if turns(i - 1).Take? {
        StepKeepsInv(c, states(i - 1), turns(i - 1).step);
      }
    }
  }

  lemma TurnWorks<B, R>(c: Config<B, R>, states: nat -> State<B, R>, turns: nat -> Turn, i: nat)
    requires Valid(c) && IsHistory(c, states, turns)
    ensures 0 <= Work(c, states(i + 1)) <= Work(c, states(i))
    ensures Work(c, states(i + 1)) == Work(c, states(i)) ==>
              turns(i).Pause? || (|states(i).buf| == c.N() && Enabled(c, states(i), turns(i).step) &&
                                  Spins(c, states(i), turns(i).step))
  {
    HistoryKeepsInv(c, states, turns, i);
    HistoryKeepsInv(c, states, turns, i + 1);
    WorkIsNatural(c, states(i + 1));
    assert TurnAt(c, states, turns, i);
    if turns(i).Take? {
      StepWorks(c, states(i), turns(i).step);
    }
  }

  ghost predicate WorkStays<B, R>(c: Config<B, R>, states: nat -> State<B, R>, n: nat) {
    forall i: nat :: n <= i ==> Work(c, states(i)) == Work(c, states(n))
  }

  lemma {:induction false} WorkFalls<B, R>(c: Config<B, R>, states: nat -> State<B, R>, turns: nat -> Turn,
                                           n: nat, i: nat)
    requires Valid(c) && IsHistory(c, states, turns) && n <= i
    ensures 0 <= Work(c, states(i)) <= Work(c, states(n))
    decreases i - n
  {
    TurnWorks(c, states, turns, n);
    if n < i {
      WorkFalls(c, states, turns, n + 1, i);
    } else {
      HistoryKeepsInv(c, states, turns, i);
      WorkIsNatural(c, states(i));
    }
  }

  /** From some moment on only spinning is left. */
  lemma {:induction false} WorkSettles<B, R>(c: Config<B, R>, states: nat -> State<B, R>, turns: nat -> Turn, n: nat)
      returns (m: nat)
    requires Valid(c) && IsHistory(c, states, turns)
    ensures n <= m && WorkStays(c, states, m)
    decreases Work(c, states(n))
  {
    WorkFalls(c, states, turns, n, n);
    if WorkStays(c, states, n) {
      m := n;
    } else {
      var i: nat :| n <= i && Work(c, states(i)) != Work(c, states(n));
      WorkFalls(c, states, turns, n, i);
      m := WorkSettles(c, states, turns, i);
    }
  }

  /** All that spinning leaves as it is. */
  ghost predicate Idles<B, R>(s: State<B, R>, t: State<B, R>) {
    t.ppc == s.ppc && t.cpc == s.cpc && t.prod == s.prod && t.cons == s.cons && t.taken == s.taken
  }

  lemma SpinIdles<B, R>(c: Config<B, R>, s: State<B, R>, step: Step)
    requires Inv(c, s) && Enabled(c, s, step) && Spins(c, s, step)
    ensures Idles(s, Do(c, s, step))
    ensures step.LoadCons? || step.LoadProd?
    ensures step.LoadCons? ==> !RoomFor(c, s, step.v)
    ensures step.LoadProd? ==> step.w == s.taken
  {
    if step.Read? {
      ReadWorks(c, s);
    }
  }

  lemma {:induction false} SettledIdles<B, R>(c: Config<B, R>, states: nat -> State<B, R>, turns: nat -> Turn,
                                              n: nat, i: nat)
    requires Valid(c) && IsHistory(c, states, turns) && WorkStays(c, states, n) && n <= i
    ensures Idles(states(n), states(i))
  {
    if n < i {
      SettledIdles(c, states, turns, n, i - 1);
      SettledTurn(c, states, turns, n, i - 1);
    }
  }

  lemma SettledTurn<B, R>(c: Config<B, R>, states: nat -> State<B, R>, turns: nat -> Turn, n: nat, i: nat)
    requires Valid(c) && IsHistory(c, states, turns) && WorkStays(c, states, n) && n <= i
    ensures Idles(states(i), states(i + 1))
    ensures OfProducer(turns(i)) ==> turns(i).step.LoadCons? && !RoomFor(c, states(i), turns(i).step.v)
    ensures OfConsumer(turns(i)) ==> turns(i).step.LoadProd? && turns(i).step.w == states(i).taken &&
                                     states(i).cpc.CWait?
  {
    assert Work(c, states(i)) == Work(c, states(n)) == Work(c, states(i + 1));
    TurnWorks(c, states, turns, i);
    HistoryKeepsInv(c, states, turns, i);
    assert TurnAt(c, states, turns, i);
    if turns(i).Take? {
      SpinIdles(c, states(i), turns(i).step);
    }
  }

  // ------------------------------------------------------------ nobody spins for ever

  lemma LateConsumerTurn<B, R>(c: Config<B, R>, states: nat -> State<B, R>, turns: nat -> Turn, n: nat)
      returns (m: nat)
    requires Fair(states, turns) && Visible(states, turns)
    ensures n <= m && ConsumerTurn(states, turns, m) && LoadSees(turns(m), states(n).cons, states(n).prod)
  {
    assert SeenAfter(states, turns, n);
    var seen: nat :| SeesFrom(turns, seen, states(n).cons, states(n).prod);
    assert BothAfter(states, turns, n + seen);
    m :| n + seen <= m && ConsumerTurn(states, turns, m);
  }

  lemma LateProducerTurn<B, R>(c: Config<B, R>, states: nat -> State<B, R>, turns: nat -> Turn, n: nat)
      returns (m: nat)
    requires Fair(states, turns) && Visible(states, turns)
    ensures n <= m && ProducerTurn(states, turns, m) && LoadSees(turns(m), states(n).cons, states(n).prod)
  {
    assert SeenAfter(states, turns, n);
    var seen: nat :| SeesFrom(turns, seen, states(n).cons, states(n).prod);
    assert BothAfter(states, turns, n + seen);
    m :| n + seen <= m && ProducerTurn(states, turns, m);
  }

  /** A consumer that only spins has consumed and released all there is. */
  lemma SettledConsumer<B, R>(c: Config<B, R>, states: nat -> State<B, R>, turns: nat -> Turn, n: nat)
    requires Valid(c) && IsHistory(c, states, turns) && Fair(states, turns) && Visible(states, turns)
    requires WorkStays(c, states, n) && !states(n).cpc.CDone?
    ensures states(n).cpc.CWait? && states(n).prod == states(n).cons
  {
    var m := LateConsumerTurn(c, states, turns, n);
    SettledIdles(c, states, turns, n, m);
    SettledTurn(c, states, turns, n, m);
    HistoryKeepsInv(c, states, turns, m);
  }

  /** A producer that only spins faces a full ring. */
  lemma SettledProducer<B, R>(c: Config<B, R>, states: nat -> State<B, R>, turns: nat -> Turn, n: nat)
    requires Valid(c) && IsHistory(c, states, turns) && Fair(states, turns) && Visible(states, turns)
    requires WorkStays(c, states, n) && !states(n).ppc.PDone?
    ensures states(n).prod == states(n).cons + c.N()
  {
    var m := LateProducerTurn(c, states, turns, n);
    SettledIdles(c, states, turns, n, m);
    SettledTurn(c, states, turns, n, m);
    HistoryKeepsInv(c, states, turns, m);
    assert TurnAt(c, states, turns, m);
  }

  /**
   * In every infinite history in which no thread is left out for ever and no store stays invisible for
   * ever, however the threads interleave and however old the loads: both threads get to their end, and
   * the report is that of all operations in order.
   */
  lemma EventuallyFinished<B, R>(c: Config<B, R>, states: nat -> State<B, R>, turns: nat -> Turn) returns (n: nat)
    requires Valid(c) && IsHistory(c, states, turns) && Fair(states, turns) && Visible(states, turns)
    ensures Finished(states(n))
    ensures states(n).answer == Answer(c.report(c.BookAfter(OpsOf(c.events))))
  {
    n := WorkSettles(c, states, turns, 0);
    HistoryKeepsInv(c, states, turns, n);
    if !states(n).cpc.CDone? {
      SettledConsumer(c, states, turns, n);
    }
    if !states(n).ppc.PDone? {
      SettledProducer(c, states, turns, n);
    }
  }

  // ------------------------------------------------------------ such histories exist

  ghost function StepBetween<B, R>(c: Config<B, R>, s: State<B, R>, t: State<B, R>): (step: Step)
    ensures Next(c, s, t) ==> Enabled(c, s, step) && t == Do(c, s, step)
  {
    if Next(c, s, t) then
      var step :| Enabled(c, s, step) && t == Do(c, s, step);
      step
    else Claim
  }

  function StatesOf<B, R>(run: seq<State<B, R>>): nat -> State<B, R>
    requires run != []
  {
    (i: nat) => if i < |run| then run[i] else run[|run| - 1]
  }

  ghost function TurnsOf<B, R>(c: Config<B, R>, run: seq<State<B, R>>): nat -> Turn {
    (i: nat) => if i + 1 < |run| then Take(StepBetween(c, run[i], run[i + 1])) else Pause
  }

  lemma RunTurn<B, R>(c: Config<B, R>, run: seq<State<B, R>>, i: nat)
    requires run != [] && (i + 1 < |run| ==> Next(c, run[i], run[i + 1]))
    ensures TurnAt(c, StatesOf(run), TurnsOf(c, run), i)
  {
  }

  lemma RunIsHistory<B, R>(c: Config<B, R>, run: seq<State<B, R>>)
    requires IsRun(c, run)
    ensures IsHistory(c, StatesOf(run), TurnsOf(c, run))
  {
    var states, turns := StatesOf(run), TurnsOf(c, run);
    forall i: nat
      ensures TurnAt(c, states, turns, i)
    {
      RunTurn(c, run, i);
    }
  }

  lemma RunIsFair<B, R>(c: Config<B, R>, run: seq<State<B, R>>)
    requires run != [] && Finished(run[|run| - 1])
    ensures Fair(StatesOf(run), TurnsOf(c, run))
  {
    var states, turns := StatesOf(run), TurnsOf(c, run);
    forall n: nat
      ensures BothAfter(states, turns, n)
    {
      assert ProducerTurn(states, turns, n + |run|) && ConsumerTurn(states, turns, n + |run|);
    }
  }

  lemma RunIsVisible<B, R>(c: Config<B, R>, run: seq<State<B, R>>)
    requires run != []
    ensures Visible(StatesOf(run), TurnsOf(c, run))
  {
    var states, turns := StatesOf(run), TurnsOf(c, run);
    forall n: nat
      ensures SeenAfter(states, turns, n)
    {
      assert SeesFrom(turns, |run|, states(n).cons, states(n).prod);
    }
  }

  /** Any run to the end, with nothing after it, is such a history; and every run extends to one that ends. */
  lemma HistoryExists<B, R>(c: Config<B, R>, run: seq<State<B, R>>)
      returns (states: nat -> State<B, R>, turns: nat -> Turn)
    requires Valid(c) && IsRun(c, run)
    ensures IsHistory(c, states, turns) && Fair(states, turns) && Visible(states, turns)
    ensures forall i: nat :: i < |run| ==> states(i) == run[i]
  {
    var full := CanFinish(c, run);
    states, turns := StatesOf(full), TurnsOf(c, full);
    RunIsHistory(c, full);
    RunIsFair(c, full);
    RunIsVisible(c, full);
    forall i: nat | i < |run|
      ensures states(i) == run[i]
    {
      assert full[i] == run[i];
    }
  }
}
