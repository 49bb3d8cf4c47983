/** Generator, ring and book together: the report is a function of the seed and the length alone. */
module Pipeline {
  import opened Words
  import opened Orders
  import opened Checksum
  import opened Workload
  import opened Reports
  import opened IdReuse
  import opened Ring
  import opened RingSafety
  import opened RingProgress
  import opened RingWords
  import opened TakeOver
  import opened EngineReports
  import Replacing = ReplacingBook
  import Lazy = LazyBook
  import Eager = EagerBook

  /** The consumer's book, and how many of its orders took over the record of a live one. */
  datatype Counted = Counted(book: Lazy.QueueBook, takeOvers: nat)

  /** What the consumer owns: a book with no empty order in its id store. */
  type OwnedBook = b: Counted | Lazy.Positive(b.book.orders) witness Counted(Lazy.EMPTY, 0)

  const FRESH_BOOK: OwnedBook := Counted(Lazy.EMPTY, 0)

  function Inserting(b: OwnedBook, op: Op): OwnedBook {
    b.(book := Lazy.Apply(b.book, op))
  }

  function Assigning(b: OwnedBook, op: Op): OwnedBook {
    Counted(Replacing.Apply(b.book, op), b.takeOvers + (if Replacing.TakesOver(b.book, op) then 1 else 0))
  }

  function ReportStore(b: OwnedBook): Report {
    ReportOf(b.book)
  }

  function ReportCount(b: OwnedBook): Report {
    Counting(ReportOf(b.book), b.takeOvers)
  }

  /** How the generator's operation is spelled in a slot. */
  function Encode(op: Op, ts: nat): Event {
    match op
    case LimitOp(side, price, qty, id) => Event(KIND_LIMIT, if side == Bid then 0 else 1, price, qty, id, ts)
    case CancelOp(id) => Event(KIND_CANCEL, 0, 0, 0, id, ts)
  }

  lemma EncodeRoundTrip(op: Op, ts: nat)
    ensures OpOf(Encode(op, ts)) == op
  {
  }

  /** What the generator's out-parameters hold is what the slot gets, field by field. */
  lemma OutParametersFillSlot(g: Gen, ts: nat)
    requires if g.Current().LimitOp? then g.kind == 0 && g.side <= 1
             else g.kind == 1 && g.side == 0 && g.price == 0 && g.qty == 0
    ensures Encode(g.Current(), ts) == Event(g.kind, g.side, g.price, g.qty, g.id, ts)
  {
  }

  function EventsFor(ops: seq<Op>, stamps: seq<nat>): (events: seq<Event>)
    requires |ops| == |stamps|
    ensures |events| == |ops|
    ensures forall i :: 0 <= i < |events| ==> events[i] == Encode(ops[i], stamps[i])
  {
    seq(|ops|, i requires 0 <= i < |ops| => Encode(ops[i], stamps[i]))
  }

  /**
   * `kind` is the engine that the consumer drives. `stamps` are the publication times the pacing loop
   * chose; they are carried, never looked at.
   */
  function Setup(kind: Kind, ops: seq<Op>, stamps: seq<nat>, size: Capacity, batch: bool, cached: bool)
      : Config<OwnedBook, Report>
    requires |ops| == |stamps|
  {
    Config<OwnedBook, Report>.Config(size, EventsFor(ops, stamps), batch, cached, FRESH_BOOK,
                                     if kind.Inserts? then Inserting else Assigning,
                                     if kind.AssignsAndCounts? then ReportCount else ReportStore)
  }

  lemma SetupSpells(kind: Kind, ops: seq<Op>, stamps: seq<nat>, size: Capacity, batch: bool, cached: bool)
    requires |ops| == |stamps|
    ensures var c := Setup(kind, ops, stamps, size, batch, cached);
            Valid(c) && OpsOf(c.events) == ops && StampsOf(c.events) == stamps
  {
    var events := EventsFor(ops, stamps);
    forall i | 0 <= i < |ops|
      ensures OpsOf(events)[i] == ops[i] && StampsOf(events)[i] == stamps[i]
    {
      EncodeRoundTrip(ops[i], stamps[i]);
    }
    assert OpsOf(events) == ops;
    assert StampsOf(events) == stamps;
  }

  lemma {:induction false} InsertingIsRun(ops: seq<Op>)
    ensures Fold<OwnedBook, Op>(Inserting, FRESH_BOOK, ops) == Counted(Lazy.Run(ops), 0)
  {
    if ops != [] {
      var prefix, op := ops[..|ops| - 1], ops[|ops| - 1];
      InsertingIsRun(prefix);
      FoldSnoc<OwnedBook, Op>(Inserting, FRESH_BOOK, prefix, op);
      assert ops == prefix + [op];
    }
  }

  lemma {:induction false} AssigningIsRun(ops: seq<Op>)
    ensures Fold<OwnedBook, Op>(Assigning, FRESH_BOOK, ops) == Counted(Replacing.Run(ops), Replacing.TakeOvers(ops))
  {
    if ops != [] {
      var prefix, op := ops[..|ops| - 1], ops[|ops| - 1];
      AssigningIsRun(prefix);
      FoldSnoc<OwnedBook, Op>(Assigning, FRESH_BOOK, prefix, op);
      assert ops == prefix + [op];
    }
  }

  /** Whatever book the consumer owns, it has been given a prefix of the events, each once, in order, unchanged. */
  lemma DeliversInOrder<B, R>(c: Config<B, R>, run: seq<State<B, R>>)
    requires Valid(c) && IsRun(c, run)
    ensures var s := run[|run| - 1];
            && s.applied <= OpsOf(c.events) && s.stamps <= StampsOf(c.events)
            && |s.stamps| <= |s.applied| <= |s.stamps| + 1
            && s.book == c.BookAfter(s.applied)
            && (s.answer.Answer? ==>
                 s.applied == OpsOf(c.events) && s.stamps == StampsOf(c.events) &&
                 s.answer.report == c.report(c.BookAfter(OpsOf(c.events))))
  {
    RunKeepsInv(c, run, |run| - 1);
    assert OpsOf(c.events)[..|c.events|] == OpsOf(c.events);
    assert StampsOf(c.events)[..|c.events|] == StampsOf(c.events);
  }

  /** What the report of all operations in order is. */
  lemma SetupReports(kind: Kind, ops: seq<Op>, stamps: seq<nat>, size: Capacity, batch: bool, cached: bool)
    requires |ops| == |stamps|
    ensures var c := Setup(kind, ops, stamps, size, batch, cached);
            Valid(c) && c.report(c.BookAfter(OpsOf(c.events))) == ReportBy(kind, ops)
  {
    SetupSpells(kind, ops, stamps, size, batch, cached);
    if kind.Inserts? {
      InsertingIsRun(ops);
    } else {
      AssigningIsRun(ops);
    }
  }

  /**
   * Any interleaving, any engine, either drain, either claim, any ring size, any pacing: a report, once
   * given, is that engine's for the whole stream in order; and if the orders are safe it is that of the
   * book which deletes at once.
   */
  lemma ReportIsDeterministic(kind: Kind, ops: seq<Op>, stamps: seq<nat>, size: Capacity, batch: bool, cached: bool,
                              run: seq<State<OwnedBook, Report>>)
    requires |ops| == |stamps|
    requires IsRun(Setup(kind, ops, stamps, size, batch, cached), run)
    ensures var answer := run[|run| - 1].answer;
            answer.Answer? ==> answer.report == ReportBy(kind, ops) &&
                               (SafeStream(ops) ==> answer.report == EagerReport(Eager.Run(ops)))
  {
    SetupReports(kind, ops, stamps, size, batch, cached);
    DeliversInOrder(Setup(kind, ops, stamps, size, batch, cached), run);
    if SafeStream(ops) {
      SafeReports(kind, ops);
    }
  }

  /** The same on the machine's 64-bit cursors, with no bound on the length. */
  lemma MachineReportIsDeterministic(kind: Kind, ops: seq<Op>, stamps: seq<nat>, size: Capacity,
                                     batch: bool, cached: bool, words: seq<State<OwnedBook, Report>>)
    requires |ops| == |stamps| && Masked(Setup(kind, ops, stamps, size, batch, cached))
    requires IsWordRun(Setup(kind, ops, stamps, size, batch, cached), words)
    ensures var answer := words[|words| - 1].answer;
            answer.Answer? ==> answer.report == ReportBy(kind, ops) &&
                               (SafeStream(ops) ==> answer.report == EagerReport(Eager.Run(ops)))
  {
    SetupReports(kind, ops, stamps, size, batch, cached);
    WordReport(Setup(kind, ops, stamps, size, batch, cached), words);
    if SafeStream(ops) {
      SafeReports(kind, ops);
    }
  }

  /**
   * Two runs over the same operations report the same, however they differ in schedule and set-up; and
   * with different engines, too, unless an order overtakes a live one.
   */
  lemma AnyTwoRunsAgree(ops: seq<Op>,
                        kind1: Kind, stamps1: seq<nat>, size1: Capacity, batch1: bool, cached1: bool,
                        run1: seq<State<OwnedBook, Report>>,
                        kind2: Kind, stamps2: seq<nat>, size2: Capacity, batch2: bool, cached2: bool,
                        run2: seq<State<OwnedBook, Report>>)
    requires |ops| == |stamps1| == |stamps2|
    requires IsRun(Setup(kind1, ops, stamps1, size1, batch1, cached1), run1)
    requires IsRun(Setup(kind2, ops, stamps2, size2, batch2, cached2), run2)
    requires kind1 == kind2 || NoneOvertakes(ops, |ops|)
    ensures run1[|run1| - 1].answer.Answer? && run2[|run2| - 1].answer.Answer? ==>
              run1[|run1| - 1].answer == run2[|run2| - 1].answer
  {
    ReportIsDeterministic(kind1, ops, stamps1, size1, batch1, cached1, run1);
    ReportIsDeterministic(kind2, ops, stamps2, size2, batch2, cached2, run2);
    if kind1 != kind2 {
      NoneOvertakesReports(kind1, ops);
      NoneOvertakesReports(kind2, ops);
    }
  }

  /** So for the generator's stream, from any seed and with any engine. */
  lemma GeneratedReportIsDeterministic(kind: Kind, seed: Word, stamps: seq<nat>, size: Capacity,
                                       batch: bool, cached: bool, run: seq<State<OwnedBook, Report>>)
    requires |stamps| < WORD
    requires IsRun(Setup(kind, Stream(seed, |stamps|), stamps, size, batch, cached), run)
    ensures run[|run| - 1].answer.Answer? ==>
              run[|run| - 1].answer.report == EagerReport(Eager.Run(Stream(seed, |stamps|)))
  {
    StreamIsFresh(seed, |stamps|);
    FreshIsSafe(Stream(seed, |stamps|));
    ReportIsDeterministic(kind, Stream(seed, |stamps|), stamps, size, batch, cached, run);
  }

  /** When both threads are done the report has been given. */
  lemma FinishedReports<B, R>(c: Config<B, R>, run: seq<State<B, R>>)
    requires Valid(c) && IsRun(c, run) && run[|run| - 1].cpc.CDone?
    ensures run[|run| - 1].answer == Answer(c.report(c.BookAfter(OpsOf(c.events))))
  {
    RunKeepsInv(c, run, |run| - 1);
  }

  /** And it can always come to that: every run extends to one that has given the report. */
  lemma EveryRunCanReport<B, R>(c: Config<B, R>, run: seq<State<B, R>>) returns (full: seq<State<B, R>>)
    requires Valid(c) && IsRun(c, run)
    ensures run <= full && IsRun(c, full) && Finished(full[|full| - 1])
    ensures full[|full| - 1].answer == Answer(c.report(c.BookAfter(OpsOf(c.events))))
  {
    full := CanFinish(c, run);
    FinishedReports(c, full);
  }
}
