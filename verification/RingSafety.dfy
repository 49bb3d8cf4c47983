/** What every interleaving keeps: nothing is lost, overwritten early, torn or read twice. */
module RingSafety {
  import opened Words
  import opened Checksum
  import opened Ring

  // ------------------------------------------------------------ the invariant

  /** consSeen <= cons <= taken <= avail <= prodSeen <= prod <= consSeen + N. */
  ghost predicate Cursors<B, R>(c: Config<B, R>, s: State<B, R>) {
    && |s.buf| == c.N() && s.sent == s.prod <= c.Total()
    && s.consSeen <= s.cons <= s.taken <= s.avail <= s.prodSeen <= s.prod <= s.consSeen + c.N()
  }

  /** Slot `e` carries message `i` as far as it is written. */
  predicate Holds<B, R>(c: Config<B, R>, e: Event, i: nat) {
    var m := Message(c, i);
    e.kind == m.kind && e.ts == m.ts &&
    (i < |c.events| ==> e == m)
  }

  predicate HoldsUpTo<B, R>(c: Config<B, R>, e: Event, i: nat, f: nat) {
    var m := Message(c, i);
    && (f > 0 ==> e.kind == m.kind)
    && (f > 5 ==> e.ts == m.ts)
    && (i < |c.events| ==>
          (f > 1 ==> e.side == m.side) && (f > 2 ==> e.price == m.price) &&
          (f > 3 ==> e.qty == m.qty) && (f > 4 ==> e.id == m.id))
  }

  predicate FieldOk<B, R>(c: Config<B, R>, i: nat, f: nat) {
    if i < |c.events| then f <= 5 else f == 0 || f == 5
  }

  ghost predicate ProducerOk<B, R>(c: Config<B, R>, s: State<B, R>)
    requires |s.buf| == c.N()
  {
    var slot := SlotOf(c, s.prod + 1);
    match s.ppc
    case PClaim => s.prod < c.Total()
    case PSpin => s.prod < c.Total() && c.cached
    case PWrite(f) => s.prod < c.Total() && RoomFor(c, s, s.consSeen) && FieldOk(c, s.prod, f) &&
                      HoldsUpTo(c, s.buf[slot], s.prod, f)
    case PPublish => s.prod < c.Total() && RoomFor(c, s, s.consSeen) && Holds(c, s.buf[slot], s.prod)
    case PDone => s.prod == c.Total()
  }

  /** Every published message that the consumer has not released is intact in its slot. */
  ghost predicate Slots<B, R>(c: Config<B, R>, s: State<B, R>)
    requires |s.buf| == c.N()
  {
    forall n :: s.cons < n <= s.prod ==> Holds(c, s.buf[SlotOf(c, n)], n - 1)
  }

  /** The registers agree with the message being read, as far as it has been read. */
  predicate Registers<B, R>(s: State<B, R>, m: Event) {
    match s.cpc
    case CSide => s.reg.kind == m.kind == KIND_LIMIT
    case CPrice => s.reg.kind == m.kind == KIND_LIMIT && s.reg.side == m.side
    case CQty => s.reg.kind == m.kind == KIND_LIMIT && s.reg.side == m.side && s.reg.price == m.price
    case CId => s.reg.kind == m.kind != KIND_REPORT &&
                (m.kind == KIND_LIMIT ==> s.reg.side == m.side && s.reg.price == m.price && s.reg.qty == m.qty)
    case CApply => m.kind != KIND_REPORT && OpOf(s.reg) == OpOf(m)
    case CTs => m.kind != KIND_REPORT
    case _ => true
  }

  predicate Busy(pc: ConsumerPc) {
    Reading(pc) || pc.CApply?
  }

  predicate Idle(pc: ConsumerPc) {
    pc.CWait? || pc.CHead? || pc.CStore?
  }

  ghost predicate ConsumerOk<B, R>(c: Config<B, R>, s: State<B, R>) {
    && (Busy(s.cpc) ==> s.cons < s.taken && Registers(s, Message(c, s.taken - 1)))
    && (Idle(s.cpc) ==> s.taken < c.Total())
    && (s.cpc.CWait? ==> s.cons == s.taken == s.avail)
    && (s.cpc.CStore? ==> s.cons < s.taken == s.avail)
    && (s.cpc.CHead? ==> s.cons < s.avail)
    && (s.cpc.CReport? || s.cpc.CDone? ==> s.taken == c.Total())
  }

  /** How many events have been applied to the book, and how many stamps read. */
  function AppliedCount<B, R>(s: State<B, R>): int {
    if Idle(s.cpc) || s.cpc.CTs? then s.taken else s.taken - 1
  }

  function StampCount<B, R>(s: State<B, R>): int {
    if Idle(s.cpc) then s.taken else s.taken - 1
  }

  ghost predicate History<B, R>(c: Config<B, R>, s: State<B, R>) {
    && 0 <= StampCount(s) <= AppliedCount(s) <= |c.events|
    && s.applied == OpsOf(c.events)[..AppliedCount(s)]
    && s.stamps == StampsOf(c.events)[..StampCount(s)]
    && s.book == c.BookAfter(s.applied)
    && s.answer == if s.cpc.CDone? then Answer(c.report(c.BookAfter(OpsOf(c.events)))) else NoAnswer
  }

  ghost predicate Inv<B, R>(c: Config<B, R>, s: State<B, R>) {
    Valid(c) && Cursors(c, s) && ProducerOk(c, s) && Slots(c, s) && ConsumerOk(c, s) && History(c, s)
  }

  lemma InitInv<B, R>(c: Config<B, R>, s: State<B, R>)
    requires Valid(c) && Init(c, s)
    ensures Inv(c, s)
  {
    assert OpsOf(c.events)[..0] == [];
    assert StampsOf(c.events)[..0] == [];
  }

  // ------------------------------------------------------------ slots

  /** Sequence numbers less than N apart never share a slot. */
  lemma SlotsDiffer<B, R>(c: Config<B, R>, i: nat, j: nat)
    requires i < j < i + c.N()
    ensures SlotOf(c, i) != SlotOf(c, j)
  {
    var n := c.N();
    var a, b := i / n, j / n;
    assert i == a * n + i % n && j == b * n + j % n;
    if i % n == j % n {
      assert (b - a) * n == j - i;
      MulGrows(b - a, n);
      if b - a >= 1 {
        MulAtLeast(b - a, n);
      }
    }
  }

  /** The slot being filled is not one the consumer may still read. */
  lemma NoRace<B, R>(c: Config<B, R>, s: State<B, R>)
    requires Inv(c, s) && (s.ppc.PWrite? || s.ppc.PPublish?)
    ensures forall n :: s.cons < n <= s.prod ==> SlotOf(c, n) != SlotOf(c, s.prod + 1)
    ensures Busy(s.cpc) ==> SlotOf(c, s.taken) != SlotOf(c, s.prod + 1)
  {
    forall n | s.cons < n <= s.prod
      ensures SlotOf(c, n) != SlotOf(c, s.prod + 1)
    {
      SlotsDiffer(c, n, s.prod + 1);
    }
    if Busy(s.cpc) {
      SlotsDiffer(c, s.taken, s.prod + 1);
    }
  }

  // ------------------------------------------------------------ every step keeps the invariant

  lemma WriteHolds<B, R>(c: Config<B, R>, e: Event, i: nat, f: nat)
    requires FieldOk(c, i, f) && HoldsUpTo(c, e, i, f)
    ensures var e' := SetField(e, Message(c, i), f);
            var next := NextField(c, i, f);
            if next >= 6 then Holds(c, e', i) else FieldOk(c, i, next) && HoldsUpTo(c, e', i, next)
  {
  }

  lemma ClaimStep<B, R>(c: Config<B, R>, s: State<B, R>)
    requires Inv(c, s) && Enabled(c, s, Claim)
    ensures Inv(c, Do(c, s, Claim))
  {
  }

  lemma LoadConsStep<B, R>(c: Config<B, R>, s: State<B, R>, v: nat)
    requires Inv(c, s) && Enabled(c, s, LoadCons(v))
    ensures Inv(c, Do(c, s, LoadCons(v)))
  {
  }

  lemma WriteStep<B, R>(c: Config<B, R>, s: State<B, R>)
    requires Inv(c, s) && Enabled(c, s, Write)
    ensures Inv(c, Do(c, s, Write))
  {
    NoRace(c, s);
    WriteHolds(c, s.buf[SlotOf(c, s.prod + 1)], s.prod, s.ppc.field);
  }

  lemma PublishStep<B, R>(c: Config<B, R>, s: State<B, R>)
    requires Inv(c, s) && Enabled(c, s, Publish)
    ensures Inv(c, Do(c, s, Publish))
  {
    var s' := Do(c, s, Publish);
    forall n | s'.cons < n <= s'.prod
      ensures Holds(c, s'.buf[SlotOf(c, n)], n - 1)
    {
      if n == s.prod + 1 {
        assert Holds(c, s.buf[SlotOf(c, s.prod + 1)], s.prod);
      }
    }
    assert Slots(c, s');
  }

  lemma LoadProdStep<B, R>(c: Config<B, R>, s: State<B, R>, w: nat)
    requires Inv(c, s) && Enabled(c, s, LoadProd(w))
    ensures Inv(c, Do(c, s, LoadProd(w)))
  {
  }

  lemma HeadStep<B, R>(c: Config<B, R>, s: State<B, R>)
    requires Inv(c, s) && Enabled(c, s, Head)
    ensures Inv(c, Do(c, s, Head))
  {
  }

  lemma SharedFrame<B, R>(c: Config<B, R>, s: State<B, R>, s': State<B, R>)
    requires Inv(c, s)
    requires s' == s.(reg := s'.reg, cpc := s'.cpc, stamps := s'.stamps)
    ensures Cursors(c, s') && ProducerOk(c, s') && Slots(c, s')
  {
  }

  lemma ReadMoves<B, R>(c: Config<B, R>, s: State<B, R>)
    requires Inv(c, s) && Reading(s.cpc)
    ensures ConsumerOk(c, ReadField(s, s.buf[SlotOf(c, s.taken)]))
  {
    assert Holds(c, s.buf[SlotOf(c, s.taken)], s.taken - 1);
  }

  lemma ReadRecords<B, R>(c: Config<B, R>, s: State<B, R>)
    requires Inv(c, s) && Reading(s.cpc)
    ensures History(c, ReadField(s, s.buf[SlotOf(c, s.taken)]))
  {
    var i := s.taken - 1;
    assert Holds(c, s.buf[SlotOf(c, s.taken)], i);
    if s.cpc.CTs? {
      assert StampsOf(c.events)[..i] + [c.events[i].ts] == StampsOf(c.events)[..i + 1];
    }
  }

  lemma ReadStep<B, R>(c: Config<B, R>, s: State<B, R>)
    requires Inv(c, s) && Enabled(c, s, Read)
    ensures Inv(c, Do(c, s, Read))
  {
    ReadMoves(c, s);
    ReadRecords(c, s);
    SharedFrame(c, s, Do(c, s, Read));
  }

  lemma ApplyStep<B, R>(c: Config<B, R>, s: State<B, R>)
    requires Inv(c, s) && Enabled(c, s, Apply)
    ensures Inv(c, Do(c, s, Apply))
  {
    var i := s.taken - 1;
    FoldSnoc(c.apply, c.start, s.applied, OpOf(s.reg));
    assert OpsOf(c.events)[..i] + [OpOf(s.reg)] == OpsOf(c.events)[..i + 1];
  }

  lemma ReportStep<B, R>(c: Config<B, R>, s: State<B, R>)
    requires Inv(c, s) && Enabled(c, s, MakeReport)
    ensures Inv(c, Do(c, s, MakeReport))
  {
    assert OpsOf(c.events)[..|c.events|] == OpsOf(c.events);
  }

  lemma StoreConsStep<B, R>(c: Config<B, R>, s: State<B, R>)
    requires Inv(c, s) && Enabled(c, s, StoreCons)
    ensures Inv(c, Do(c, s, StoreCons))
  {
  }

  lemma FoldSnoc<A, T>(f: (A, T) -> A, acc: A, s: seq<T>, x: T)
    ensures Fold(f, acc, s + [x]) == f(Fold(f, acc, s), x)
  {
    FoldConcat(f, acc, s, [x]);
    assert Fold(f, Fold(f, acc, s), [x]) == f(Fold(f, acc, s), x);
  }

  lemma StepKeepsInv<B, R>(c: Config<B, R>, s: State<B, R>, step: Step)
    requires Inv(c, s) && Enabled(c, s, step)
    ensures Inv(c, Do(c, s, step))
  {
    match step
    case Claim => ClaimStep(c, s);
    case LoadCons(v) => LoadConsStep(c, s, v);
    case Write => WriteStep(c, s);
    case Publish => PublishStep(c, s);
    case LoadProd(w) => LoadProdStep(c, s, w);
    case Head => HeadStep(c, s);
    case Read => ReadStep(c, s);
    case Apply => ApplyStep(c, s);
    case MakeReport => ReportStep(c, s);
    case StoreCons => StoreConsStep(c, s);
  }

  /** Every state of every interleaving satisfies the invariant. */
  lemma {:induction false} RunKeepsInv<B, R>(c: Config<B, R>, run: seq<State<B, R>>, i: nat)
    requires Valid(c) && IsRun(c, run) && i < |run|
    ensures Inv(c, run[i])
  {
    if i == 0 {
      InitInv(c, run[0]);
    } else {
      RunKeepsInv(c, run, i - 1);
      assert Next(c, run[i - 1], run[i - 1 + 1]);
      var step :| Enabled(c, run[i - 1], step) && run[i] == Do(c, run[i - 1], step);
      StepKeepsInv(c, run[i - 1], step);
    }
  }
}
