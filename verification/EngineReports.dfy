/** What each kind of engine reports, as a function of the stream alone. */
module EngineReports {
  import opened Orders
  import opened IdReuse
  import opened Reports
  import opened TakeOver
  import Lazy = LazyBook
  import Replacing = ReplacingBook
  import Eager = EagerBook

  /** By the id store: it inserts, it assigns, or it assigns and the resting orders are counted apart from it. */
  datatype Kind = Inserts | Assigns | AssignsAndCounts

  function Counting(r: Report, more: nat): Report {
    r.(resting := r.resting + more)
  }

  function ReportBy(kind: Kind, ops: seq<Op>): Report {
    match kind
    case Inserts => ReportOf(Lazy.Run(ops))
    case Assigns => ReportOf(Replacing.Run(ops))
    case AssignsAndCounts => Counting(ReportOf(Replacing.Run(ops)), Replacing.TakeOvers(ops))
  }

  /** Where no order overtakes a live one, every kind of engine reports the same. */
  lemma NoneOvertakesReports(kind: Kind, ops: seq<Op>)
    requires NoneOvertakes(ops, |ops|)
    ensures ReportBy(kind, ops) == ReportOf(Lazy.Run(ops))
  {
    TakeOversExact(ops, |ops|);
    assert ops[..|ops|] == ops && SameAt(ops, |ops|);
  }

  lemma SafeOvertakesNone(ops: seq<Op>)
    requires SafeStream(ops)
    ensures NoneOvertakes(ops, |ops|)
  {
    Replacing.SafeStreamReplaces(ops, |ops|);
    TakeOversExact(ops, |ops|);
  }

  /** On a stream of safe orders, fresh ids or not, that is what the reference book reports. */
  lemma SafeReports(kind: Kind, ops: seq<Op>)
    requires SafeStream(ops)
    ensures ReportBy(kind, ops) == EagerReport(Eager.Run(ops))
  {
    SafeOvertakesNone(ops);
    NoneOvertakesReports(kind, ops);
    ReportIsEager(ops);
  }
}
