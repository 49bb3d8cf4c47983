/**
 * The single-producer/single-consumer ring between the generator and the book, one memory access
 * at a time. A cursor load may return any value from the last one its thread saw up to the current
 * one. Slot fields are written and read one by one. `cached` is the claim that tests a private copy
 * of the consumer cursor first; `batch` is the consumer that drains everything it saw published
 * before it releases. With both off this is the simpler ring, one event at a time.
 */
module Ring {
  import opened Orders
  import opened Checksum

  datatype Event = Event(kind: nat, side: nat, price: int, qty: int, id: nat, ts: nat)

  const KIND_LIMIT: nat := 0
  const KIND_CANCEL: nat := 1
  const KIND_REPORT: nat := 2

  type Capacity = n: nat | n > 0 witness 1

  /**
   * `events` are the operations to send; a report request follows them. The ring has `size` slots.
   * The consumer owns a book of any kind: it starts as `start`, changes by `apply`, answers by `report`.
   */
  datatype Config<!B, R> = Config(size: Capacity, events: seq<Event>, batch: bool, cached: bool,
                                 start: B, apply: (B, Op) -> B, report: B -> R) {
    function N(): nat {
      size
    }

    /** How many messages the producer publishes in all. */
    function Total(): nat {
      |events| + 1
    }

    /** The book after all of `ops`, in order. */
    function BookAfter(ops: seq<Op>): B {
      Fold(apply, start, ops)
    }
  }

  ghost predicate Valid<B, R>(c: Config<B, R>) {
    forall i :: 0 <= i < |c.events| ==> c.events[i].kind == KIND_LIMIT || c.events[i].kind == KIND_CANCEL
  }

  function OpOf(e: Event): Op {
    if e.kind == KIND_LIMIT then LimitOp(if e.side == 0 then Bid else Ask, e.price, e.qty, e.id)
    else CancelOp(e.id)
  }

  function OpsOf(events: seq<Event>): (ops: seq<Op>)
    ensures |ops| == |events|
    ensures forall i :: 0 <= i < |ops| ==> ops[i] == OpOf(events[i])
  {
    seq(|events|, i requires 0 <= i < |events| => OpOf(events[i]))
  }

  function StampsOf(events: seq<Event>): (stamps: seq<nat>)
    ensures |stamps| == |events|
    ensures forall i :: 0 <= i < |stamps| ==> stamps[i] == events[i].ts
  {
    seq(|events|, i requires 0 <= i < |events| => events[i].ts)
  }

  datatype ProducerPc = PClaim | PSpin | PWrite(field: nat) | PPublish | PDone

  datatype ConsumerPc =
    | CWait | CHead | CKind | CSide | CPrice | CQty | CId | CApply | CTs | CReport | CStore | CDone

  datatype Answer<R> = NoAnswer | Answer(report: R)

  datatype State<B, R> = State(
    // shared memory
    prod: nat, cons: nat, buf: seq<Event>,
    // producer
    ppc: ProducerPc, sent: nat, consSeen: nat,
    // consumer; `applied` and `stamps` record what it has taken from the slots
    cpc: ConsumerPc, taken: nat, avail: nat, prodSeen: nat, reg: Event,
    book: B, applied: seq<Op>, stamps: seq<nat>, answer: Answer<R>)

  ghost predicate Init<B, R>(c: Config<B, R>, s: State<B, R>) {
    && s.prod == s.cons == s.sent == s.consSeen == s.taken == s.avail == s.prodSeen == 0
    && |s.buf| == c.N() && s.ppc == PClaim && s.cpc == CWait
    && s.book == c.start && s.applied == [] && s.stamps == [] && s.answer == NoAnswer
  }

  datatype Step =
    | Claim | LoadCons(v: nat) | Write | Publish
    | LoadProd(w: nat) | Head | Read | Apply | MakeReport | StoreCons

  predicate Reading(pc: ConsumerPc) {
    pc.CKind? || pc.CSide? || pc.CPrice? || pc.CQty? || pc.CId? || pc.CTs?
  }

  predicate Enabled<B, R>(c: Config<B, R>, s: State<B, R>, step: Step) {
    match step
    case Claim => s.ppc.PClaim? && c.cached
    case LoadCons(v) => (s.ppc.PSpin? || (s.ppc.PClaim? && !c.cached)) && s.consSeen <= v <= s.cons
    case Write => s.ppc.PWrite?
    case Publish => s.ppc.PPublish?
    case LoadProd(w) => s.cpc.CWait? && s.prodSeen <= w <= s.prod
    case Head => s.cpc.CHead?
    case Read => Reading(s.cpc)
    case Apply => s.cpc.CApply?
    case MakeReport => s.cpc.CReport?
    case StoreCons => s.cpc.CStore?
  }

  // ------------------------------------------------------------ the producer's slots

  /** The message with index `i`; only the kind and the stamp of the report request are ever written. */
  function Message<B, R>(c: Config<B, R>, i: nat): Event {
    if i < |c.events| then c.events[i] else Event(KIND_REPORT, 0, 0, 0, 0, 0)
  }

  function SetField(e: Event, m: Event, f: nat): Event {
    match f
    case 0 => e.(kind := m.kind)
    case 1 => e.(side := m.side)
    case 2 => e.(price := m.price)
    case 3 => e.(qty := m.qty)
    case 4 => e.(id := m.id)
    case _ => e.(ts := m.ts)
  }

  /** The field written after field `f` of message `i`; 6 means the message is complete. */
  function NextField<B, R>(c: Config<B, R>, i: nat, f: nat): nat {
    if i < |c.events| then f + 1 else if f == 0 then 5 else 6
  }

  function SlotOf<B, R>(c: Config<B, R>, sequence: nat): (r: nat)
    ensures r < c.N()
  {
    sequence % c.N()
  }

  function RoomFor<B, R>(c: Config<B, R>, s: State<B, R>, seen: nat): bool {
    s.prod + 1 <= seen + c.N()
  }

  function Do<B, R>(c: Config<B, R>, s: State<B, R>, step: Step): State<B, R>
    requires Enabled(c, s, step) && |s.buf| == c.N()
  {
    match step
    case Claim =>
      s.(ppc := if RoomFor(c, s, s.consSeen) then PWrite(0) else PSpin)
    case LoadCons(v) =>
      s.(consSeen := v, ppc := if RoomFor(c, s, v) then PWrite(0) else s.ppc)
    case Write =>
      var slot, f := SlotOf(c, s.prod + 1), s.ppc.field;
      var next := NextField(c, s.sent, f);
      s.(buf := s.buf[slot := SetField(s.buf[slot], Message(c, s.sent), f)],
         ppc := if next >= 6 then PPublish else PWrite(next))
    case Publish =>
      s.(prod := s.prod + 1, sent := s.sent + 1,
         ppc := if s.sent + 1 < c.Total() then PClaim else PDone)
    case LoadProd(w) =>
      if w == s.taken then s.(prodSeen := w)
      else s.(prodSeen := w, avail := if c.batch then w else s.taken + 1, cpc := CHead)
    case Head =>
      if s.taken < s.avail then s.(taken := s.taken + 1, cpc := CKind) else s.(cpc := CStore)
    case Read =>
      ReadField(s, s.buf[SlotOf(c, s.taken)])
    case Apply =>
      s.(book := c.apply(s.book, OpOf(s.reg)), applied := s.applied + [OpOf(s.reg)], cpc := CTs)
    case MakeReport =>
      s.(answer := Answer(c.report(s.book)), cpc := CDone)
    case StoreCons =>
      s.(cons := s.taken, cpc := CWait)
  }

  function ReadField<B, R>(s: State<B, R>, slot: Event): (r: State<B, R>)
    requires Reading(s.cpc)
    ensures r == s.(reg := r.reg, cpc := r.cpc, stamps := r.stamps)
  {
    match s.cpc
    case CKind =>
      s.(reg := s.reg.(kind := slot.kind),
         cpc := if slot.kind == KIND_LIMIT then CSide else if slot.kind == KIND_CANCEL then CId else CReport)
    case CSide => s.(reg := s.reg.(side := slot.side), cpc := CPrice)
    case CPrice => s.(reg := s.reg.(price := slot.price), cpc := CQty)
    case CQty => s.(reg := s.reg.(qty := slot.qty), cpc := CId)
    case CId => s.(reg := s.reg.(id := slot.id), cpc := CApply)
    case CTs => s.(stamps := s.stamps + [slot.ts], cpc := CHead)
  }

  ghost predicate Next<B, R>(c: Config<B, R>, s: State<B, R>, s': State<B, R>) {
    && |s.buf| == c.N()
    && exists step :: Enabled(c, s, step) && s' == Do(c, s, step)
  }

  /** A finite interleaving of the two threads. */
  ghost predicate IsRun<B, R>(c: Config<B, R>, run: seq<State<B, R>>) {
    && run != [] && Init(c, run[0])
    && forall i :: 0 <= i < |run| - 1 ==> Next(c, run[i], run[i + 1])
  }
}
