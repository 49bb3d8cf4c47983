/** Whole streams through the two engines, one operation after the other. */
module Engines {
  import opened Words
  import opened Orders
  import opened Ladder
  import opened Levels
  import opened Workload
  import opened Reports
  import opened IdReuse
  import opened EngineReports
  import opened TakeOver
  import Lazy = LazyBook
  import Replacing = ReplacingBook
  import Idiomatic = IdiomaticBook
  import Tuned = TunedBook
  import TwoIndex = TwoIndexBook
  import Eager = EagerBook

  method ReportIdiomatic(book: Idiomatic.Book) returns (r: Report)
    requires book.Valid()
    ensures r == ReportOf(book.Abs())
  {
    var sum := book.ChecksumOf();
    r := Report(book.fills, book.volume, book.RestingCount(), sum);
  }

  /** The tuned engine counts an order that took over a live record once more than the store holds it. */
  method ReportTuned(book: Tuned.TunedBook) returns (r: Report)
    requires book.Valid()
    ensures r == Counting(ReportOf(book.Abs()), book.takeOvers)
  {
    var sum := book.ChecksumOf();
    r := Report(book.fills, book.volume, book.live, sum);
  }

  /** The idiomatic engine on any stream at all. */
  method RunIdiomatic(ops: seq<Op>) returns (r: Report)
    ensures r == ReportBy(Inserts, ops)
  {
    var book := new Idiomatic.Book();
    for i := 0 to |ops|
      invariant fresh(book) && book.Valid() && book.Abs() == Lazy.Run(ops[..i])
    {
      assert ops[..i + 1][..i] == ops[..i];
      book.Apply(ops[i]);
    }
    assert ops[..|ops|] == ops;
    r := ReportIdiomatic(book);
  }

  /** What the tuned engine asks of a stream: ids below its bound, prices on the ladder. */
  predicate FitsLadder(ops: seq<Op>, maxId: nat) {
    forall i :: 0 <= i < |ops| ==>
      ops[i].id < maxId + 2 && (ops[i].LimitOp? ==> 0 <= ops[i].price < 4096)
  }

  lemma FitsNow(book: Tuned.TunedBook, op: Op)
    requires book.Valid() && op.id < book.orders.Length && (op.LimitOp? ==> 0 <= op.price < LADDER_LEN)
    ensures book.CanApply(op)
  {
  }

  method DriveTuned(book: Tuned.TunedBook, ops: seq<Op>, maxId: nat)
    requires FitsLadder(ops, maxId) && book.orders.Length == maxId + 2
    requires book.Valid() && book.Abs() == Lazy.EMPTY && book.takeOvers == 0
    modifies book, book.bids, book.asks, book.orders
    ensures book.Valid() && book.Abs() == Replacing.Run(ops) && book.takeOvers == Replacing.TakeOvers(ops)
  {
    for i := 0 to |ops|
      invariant book.Valid()
      invariant book.Abs() == Replacing.Run(ops[..i]) && book.takeOvers == Replacing.TakeOvers(ops[..i])
    {
      Replacing.RunNext(ops, i);
      FitsNow(book, ops[i]);
      book.Apply(ops[i]);
    }
    assert ops[..|ops|] == ops;
  }

  /** The tuned engine, with either value for an empty ask side, on any stream that fits. */
  method RunTuned(ops: seq<Op>, maxId: nat, noAsk: int) returns (r: Report)
    requires FitsLadder(ops, maxId) && LADDER_LEN <= noAsk
    ensures r == ReportBy(AssignsAndCounts, ops)
  {
    var book := new Tuned.TunedBook(maxId, noAsk);
    DriveTuned(book, ops, maxId);
    r := ReportTuned(book);
  }

  /** The engine with two structures a side, on any stream at all. */
  method RunTwoIndex(ops: seq<Op>) returns (r: Report)
    ensures r == ReportBy(Assigns, ops)
  {
    var book := new TwoIndex.Book();
    for i := 0 to |ops|
      invariant fresh(book) && book.Valid() && book.Abs() == Replacing.Run(ops[..i])
    {
      assert ops[..i + 1][..i] == ops[..i];
      match ops[i]
      case LimitOp(side, price, qty, id) => book.Limit(side, price, qty, id);
      case CancelOp(id) => book.Cancel(id);
    }
    assert ops[..|ops|] == ops;
    var sum := book.ChecksumOf();
    r := Report(book.fills, book.volume, |book.orders|, sum);
  }

  /** The generator never leaves the ladder or the order array, for any seed and length. */
  lemma StreamFitsLadder(seed: Word, n: nat)
    requires n < WORD
    ensures FitsLadder(Stream(seed, n), n) && SafeStream(Stream(seed, n))
  {
    var ops := Stream(seed, n);
    StreamIsFresh(seed, n);
    FreshIsSafe(ops);
    StreamInBounds(seed, n);
    forall i | 0 <= i < n
      ensures ops[i].id < n + 2
    {
      LimitCountGrows(ops, i, n);
      assert ops[..n] == ops;
    }
  }

  /** The two books hold the same queues, level by level, the same orders and the same counters. */
  ghost predicate Agree(book: Idiomatic.Book, tuned: Tuned.TunedBook)
    reads book, tuned, tuned.bids, tuned.asks, tuned.orders
    requires Heads(tuned.bids[..]) && Heads(tuned.asks[..])
  {
    && LevelsIn(tuned.bids[..]) == book.bids && LevelsIn(tuned.asks[..]) == book.asks
    && OrdersIn(tuned.orders[..]) == book.orders
    && tuned.fills == book.fills && tuned.volume == book.volume
    && tuned.live == |book.orders| + tuned.takeOvers
  }

  /** Equal abstractions leave no room for the books to differ. */
  lemma SameAbsAgree(book: Idiomatic.Book, tuned: Tuned.TunedBook)
    requires book.Valid() && tuned.Valid() && book.Abs() == tuned.Abs()
    ensures Agree(book, tuned)
  {
    NonEmptyIsAll(book.bids);
    NonEmptyIsAll(book.asks);
    LevelsInOk(tuned.bids[..]);
    LevelsInOk(tuned.asks[..]);
    LevelsOfEntries(Bid, book.bids);
    LevelsOfEntries(Bid, LevelsIn(tuned.bids[..]));
    LevelsOfEntries(Ask, book.asks);
    LevelsOfEntries(Ask, LevelsIn(tuned.asks[..]));
  }

  /**
   * One operation on both engines: their books part just if it splits them; otherwise each occupied
   * ladder level is the matching queue of the map, the occupied slots are the id map, and the counters
   * agree, except that an order which overtakes a live one is counted once more.
   */
  method ApplyBoth(a: Idiomatic.Book, b: Tuned.TunedBook, op: Op)
    requires a.Valid() && b.Valid() && a.Abs() == b.Abs() && b.CanApply(op)
    modifies a, b, b.bids, b.asks, b.orders
    ensures a.Valid() && b.Valid()
    ensures a.Abs() == Lazy.Apply(old(a.Abs()), op) && b.Abs() == Replacing.Apply(old(a.Abs()), op)
    ensures b.takeOvers == old(b.takeOvers) + (if Overtakes(old(a.Abs()), op) then 1 else 0)
    ensures a.Abs() == b.Abs() <==> !Splits(old(a.Abs()), op)
    ensures a.Abs() == b.Abs() ==> Agree(a, b)
  {
    ghost var before := a.Abs();
    OvertakesExact(before, op);
    SplitsExact(before, op);
    b.Apply(op);
    assert a.Abs() == before;
    ghost var after, taken := b.Abs(), b.takeOvers;
    a.Apply(op);
    assert b.Valid() && b.Abs() == after && b.takeOvers == taken;
    if a.Abs() == b.Abs() {
      SameAbsAgree(a, b);
    }
  }

  lemma NextIsSame(ops: seq<Op>, i: nat)
    requires i < |ops| && SameUpTo(ops, |ops|)
    ensures !Splits(Lazy.Run(ops[..i]), ops[i])
    ensures Lazy.Run(ops[..i + 1]) == Lazy.Apply(Lazy.Run(ops[..i]), ops[i])
    ensures Replacing.TakeOvers(ops[..i + 1]) ==
            Replacing.TakeOvers(ops[..i]) + (if Overtakes(Lazy.Run(ops[..i]), ops[i]) then 1 else 0)
  {
    assert SameAt(ops, i) && SameAt(ops, i + 1);
    SameNext(ops, i);
    OvertakesNext(ops, i);
    IdReuse.RunNext(ops, i);
  }

  method DriveNext(a: Idiomatic.Book, b: Tuned.TunedBook, ops: seq<Op>, i: nat, maxId: nat)
    requires FitsLadder(ops, maxId) && SameUpTo(ops, |ops|) && i < |ops| && b.orders.Length == maxId + 2
    requires a.Valid() && b.Valid() && a.Abs() == b.Abs() == Lazy.Run(ops[..i])
    requires b.takeOvers == Replacing.TakeOvers(ops[..i])
    modifies a, b, b.bids, b.asks, b.orders
    ensures a.Valid() && b.Valid() && a.Abs() == b.Abs() == Lazy.Run(ops[..i + 1])
    ensures b.takeOvers == Replacing.TakeOvers(ops[..i + 1])
  {
    FitsNow(b, ops[i]);
    NextIsSame(ops, i);
    ApplyBoth(a, b, ops[i]);
  }

  /** Whole streams in which no operation splits the books, the engines agreeing after every one. */
  method DriveBoth(a: Idiomatic.Book, b: Tuned.TunedBook, ops: seq<Op>, maxId: nat)
    requires FitsLadder(ops, maxId) && SameUpTo(ops, |ops|) && b.orders.Length == maxId + 2
    requires a.Valid() && b.Valid() && a.Abs() == b.Abs() == Lazy.EMPTY && b.takeOvers == 0
    modifies a, b, b.bids, b.asks, b.orders
    ensures a.Valid() && b.Valid() && Agree(a, b)
    ensures a.Abs() == b.Abs() == Lazy.Run(ops) && b.takeOvers == Replacing.TakeOvers(ops)
  {
    for i := 0 to |ops|
      invariant a.Valid() && b.Valid() && a.Abs() == b.Abs() == Lazy.Run(ops[..i])
      invariant b.takeOvers == Replacing.TakeOvers(ops[..i])
    {
      DriveNext(a, b, ops, i, maxId);
    }
    assert ops[..|ops|] == ops;
    SameAbsAgree(a, b);
  }

  method ReportBoth(a: Idiomatic.Book, b: Tuned.TunedBook) returns (idiomatic: Report, tuned: Report)
    requires a.Valid() && b.Valid() && a.Abs() == b.Abs()
    ensures idiomatic == ReportOf(a.Abs()) && tuned == Counting(ReportOf(a.Abs()), b.takeOvers)
  {
    ghost var after := b.Abs();
    idiomatic := ReportIdiomatic(a);
    assert b.Valid() && b.Abs() == after;
    tuned := ReportTuned(b);
  }

  lemma NoneOvertakesRun(ops: seq<Op>)
    requires NoneOvertakes(ops, |ops|)
    ensures SameUpTo(ops, |ops|) && Replacing.TakeOvers(ops) == 0
    ensures SafeStream(ops) ==> ReportBy(Inserts, ops) == EagerReport(Eager.Run(ops))
  {
    TakeOversExact(ops, |ops|);
    assert ops[..|ops|] == ops;
    if SafeStream(ops) {
      SafeReports(Inserts, ops);
    }
  }

  /**
   * Both engines side by side, agreeing after every operation. At the end both report the same, and on
   * safe orders that is what the book that deletes at once would report.
   */
  method RunBoth(ops: seq<Op>, maxId: nat, noAsk: int) returns (idiomatic: Report, tuned: Report)
    requires FitsLadder(ops, maxId) && NoneOvertakes(ops, |ops|) && LADDER_LEN <= noAsk
    ensures idiomatic == tuned == ReportBy(Inserts, ops)
    ensures SafeStream(ops) ==> idiomatic == tuned == EagerReport(Eager.Run(ops))
  {
    NoneOvertakesRun(ops);
    var a := new Idiomatic.Book();
    var b := new Tuned.TunedBook(maxId, noAsk);
    DriveBoth(a, b, ops, maxId);
    idiomatic, tuned := ReportBoth(a, b);
  }

  /** All of this holds for what the generator emits, from any seed. */
  method RunGenerated(seed: Word, n: Word) returns (idiomatic: Report, tuned: Report)
    ensures idiomatic == tuned == EagerReport(Eager.Run(Stream(seed, n)))
  {
    var ops := Generate(seed, n);
    StreamFitsLadder(seed, n);
    SafeOvertakesNone(ops);
    idiomatic, tuned := RunBoth(ops, n, Tuned.INT64_MAX);
  }
}
