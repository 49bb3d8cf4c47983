/**
 * The ring as the machine runs it: cursors in 64-bit words, slots by mask, tests on words. Its runs are
 * the runs of the unbounded ring seen modulo 2^64, except that a batch drain cannot get past message
 * number 2^64 - 1.
 */
module RingWords {
  import opened Words
  import opened Ring
  import opened RingSafety
  import opened RingProgress
  import opened RingClaims

  /** The capacities for which masking works: a power of two, less than a word can count. */
  ghost predicate Masked<B, R>(c: Config<B, R>) {
    exists k: nat :: k < 64 && c.size == Pow2(k)
  }

  lemma MaskedBelow<B, R>(c: Config<B, R>) returns (k: nat)
    requires Masked(c)
    ensures k < 64 && c.size == Pow2(k) && 2 * c.N() <= WORD
  {
    k :| k < 64 && c.size == Pow2(k);
    SizeBelowWord(k);
  }

  // ------------------------------------------------------------ the machine

  predicate InWords<B, R>(s: State<B, R>) {
    s.prod < WORD && s.cons < WORD && s.consSeen < WORD && s.taken < WORD && s.avail < WORD && s.prodSeen < WORD
  }

  /** Counting up from `a`, `v` comes no later than `b`. */
  predicate OnTheWay(a: Word, v: Word, b: Word) {
    Sub(v, a) <= Sub(b, a)
  }

  predicate WordEnabled<B, R>(c: Config<B, R>, s: State<B, R>, step: Step)
    requires InWords(s)
  {
    match step
    case LoadCons(v) =>
      (s.ppc.PSpin? || (s.ppc.PClaim? && !c.cached)) && v < WORD && OnTheWay(s.consSeen, v, s.cons)
    case LoadProd(w) => s.cpc.CWait? && w < WORD && OnTheWay(s.prodSeen, w, s.prod)
    case _ => Enabled(c, s, step)
  }

  lemma {:induction false} AndBelow(a: nat, b: nat)
    ensures And(a, b) <= b
    decreases a + b
  {
    if a != 0 || b != 0 {
      AndBelow(a / 2, b / 2);
    }
  }

  function WordSlot<B, R>(c: Config<B, R>, sequence: Word): (r: nat)
    ensures r < c.N()
  {
    AndBelow(sequence, c.size - 1);
    And(sequence, c.size - 1)
  }

  function LooksFull<B, R>(c: Config<B, R>, s: State<B, R>, seen: Word): bool
    requires InWords(s)
  {
    Sub(Add(s.prod, 1), seen) > c.size
  }

  /** The batch drain compares with `<`; the other one only ever knows of one message. */
  predicate GoesOn<B, R>(c: Config<B, R>, s: State<B, R>) {
    if c.batch then s.taken < s.avail else s.taken != s.avail
  }

  function WordDo<B, R>(c: Config<B, R>, s: State<B, R>, step: Step): State<B, R>
    requires InWords(s) && WordEnabled(c, s, step) && |s.buf| == c.N()
  {
    match step
    case Claim =>
      s.(ppc := if LooksFull(c, s, s.consSeen) then PSpin else PWrite(0))
    case LoadCons(v) =>
      s.(consSeen := v, ppc := if LooksFull(c, s, v) then s.ppc else PWrite(0))
    case Write =>
      var slot, f := WordSlot(c, Add(s.prod, 1)), s.ppc.field;
      var next := NextField(c, s.sent, f);
      s.(buf := s.buf[slot := SetField(s.buf[slot], Message(c, s.sent), f)],
         ppc := if next >= 6 then PPublish else PWrite(next))
    case Publish =>
      s.(prod := Add(s.prod, 1), sent := s.sent + 1, ppc := if s.sent + 1 < c.Total() then PClaim else PDone)
    case LoadProd(w) =>
      if w == s.taken then s.(prodSeen := w)
      else s.(prodSeen := w, avail := if c.batch then w else Add(s.taken, 1), cpc := CHead)
    case Head =>
      if GoesOn(c, s) then s.(taken := Add(s.taken, 1), cpc := CKind) else s.(cpc := CStore)
    case Read =>
      ReadField(s, s.buf[WordSlot(c, s.taken)])
    case _ => Do(c, s, step)
  }

  ghost predicate WordNext<B, R>(c: Config<B, R>, s: State<B, R>, s': State<B, R>) {
    && InWords(s) && |s.buf| == c.N()
    && exists step :: WordEnabled(c, s, step) && s' == WordDo(c, s, step)
  }

  ghost predicate IsWordRun<B, R>(c: Config<B, R>, run: seq<State<B, R>>) {
    && run != [] && Init(c, run[0])
    && forall i :: 0 <= i < |run| - 1 ==> WordNext(c, run[i], run[i + 1])
  }

  // ------------------------------------------------------------ modulo 2^64

  function Wrapped<B, R>(s: State<B, R>): State<B, R> {
    s.(prod := ToWord(s.prod), cons := ToWord(s.cons), consSeen := ToWord(s.consSeen),
       taken := ToWord(s.taken), avail := ToWord(s.avail), prodSeen := ToWord(s.prodSeen))
  }

  function WrappedStep(step: Step): Step {
    match step
    case LoadCons(v) => LoadCons(ToWord(v))
    case LoadProd(w) => LoadProd(ToWord(w))
    case _ => step
  }

  /** The one test that can go wrong. */
  predicate HeadOk<B, R>(c: Config<B, R>, s: State<B, R>, step: Step) {
    step.Head? && c.batch ==> (ToWord(s.taken) < ToWord(s.avail) <==> s.taken < s.avail)
  }

  lemma OnTheWayAgrees(a: nat, v: nat, b: nat)
    requires a <= v <= b < a + WORD
    ensures OnTheWay(ToWord(a), ToWord(v), ToWord(b))
  {
    WrapDifference(v, a);
    WrapDifference(b, a);
  }

  lemma StepEnabled<B, R>(c: Config<B, R>, s: State<B, R>, step: Step)
    requires Cursors(c, s) && Masked(c) && Enabled(c, s, step)
    ensures WordEnabled(c, Wrapped(s), WrappedStep(step))
  {
    var k := MaskedBelow(c);
    match step
    case LoadCons(v) => OnTheWayAgrees(s.consSeen, v, s.cons);
    case LoadProd(w) => OnTheWayAgrees(s.prodSeen, w, s.prod);
    case _ =>
  }

  lemma ProducerWraps<B, R>(c: Config<B, R>, s: State<B, R>, step: Step)
    requires Cursors(c, s) && Masked(c) && Enabled(c, s, step)
    requires step.Claim? || step.LoadCons? || step.Write? || step.Publish?
    ensures WordEnabled(c, Wrapped(s), WrappedStep(step))
    ensures WordDo(c, Wrapped(s), WrappedStep(step)) == Wrapped(Do(c, s, step))
  {
    var k := MaskedBelow(c);
    StepEnabled(c, s, step);
    AddWraps(s.prod, 1);
    match step
    case Claim => ClaimTestAgrees(c.size, s.prod, s.consSeen);
    case LoadCons(v) => ClaimTestAgrees(c.size, s.prod, v);
    case Write => MaskAgrees(s.prod + 1, k);
    case Publish =>
  }

  lemma ConsumerWraps<B, R>(c: Config<B, R>, s: State<B, R>, step: Step)
    requires Cursors(c, s) && Masked(c) && Enabled(c, s, step) && HeadOk(c, s, step)
    requires step.LoadProd? || step.Head? || step.StoreCons?
    ensures WordEnabled(c, Wrapped(s), WrappedStep(step))
    ensures WordDo(c, Wrapped(s), WrappedStep(step)) == Wrapped(Do(c, s, step))
  {
    var k := MaskedBelow(c);
    StepEnabled(c, s, step);
    AddWraps(s.taken, 1);
    match step
    case LoadProd(w) => WaitTestAgrees(c.size, s.taken, w);
    case Head => WaitTestAgrees(c.size, s.taken, s.avail);
    case StoreCons =>
  }

  lemma ReaderWraps<B, R>(c: Config<B, R>, s: State<B, R>, step: Step)
    requires Cursors(c, s) && Masked(c) && Enabled(c, s, step)
    requires step.Read? || step.Apply? || step.MakeReport?
    ensures WordDo(c, Wrapped(s), step) == Wrapped(Do(c, s, step))
  {
    var k := MaskedBelow(c);
    MaskAgrees(s.taken, k);
    match step
    case Read => assert WordSlot(c, ToWord(s.taken)) == SlotOf(c, s.taken);
    case Apply =>
    case MakeReport =>
  }

  /** Every step of the unbounded ring is a step of the machine. */
  lemma StepWraps<B, R>(c: Config<B, R>, s: State<B, R>, step: Step)
    requires Cursors(c, s) && Masked(c) && Enabled(c, s, step) && HeadOk(c, s, step)
    ensures WordEnabled(c, Wrapped(s), WrappedStep(step))
    ensures WordDo(c, Wrapped(s), WrappedStep(step)) == Wrapped(Do(c, s, step))
  {
    if step.LoadProd? || step.Head? || step.StoreCons? {
      ConsumerWraps(c, s, step);
    } else if step.Read? || step.Apply? || step.MakeReport? {
      ReaderWraps(c, s, step);
    } else {
      ProducerWraps(c, s, step);
    }
  }

  lemma OnTheWayFrom(a: nat, v: Word, b: nat) returns (u: nat)
    requires a <= b < a + WORD && OnTheWay(ToWord(a), v, ToWord(b))
    ensures a <= u <= b && ToWord(u) == v
  {
    WrapDifference(b, a);
    u := a + Sub(v, ToWord(a));
  }

  /** Every step of the machine comes from a step of the unbounded ring. */
  lemma StepUnwraps<B, R>(c: Config<B, R>, s: State<B, R>, word: Step) returns (step: Step)
    requires Cursors(c, s) && Masked(c) && WordEnabled(c, Wrapped(s), word)
    ensures Enabled(c, s, step) && WrappedStep(step) == word
  {
    var k := MaskedBelow(c);
    step := word;
    match word
    case LoadCons(v) =>
      var u := OnTheWayFrom(s.consSeen, v, s.cons);
      step := LoadCons(u);
    case LoadProd(w) =>
      var u := OnTheWayFrom(s.prodSeen, w, s.prod);
      step := LoadProd(u);
    case _ =>
  }

  lemma StepLifts<B, R>(c: Config<B, R>, s: State<B, R>, word: Step) returns (step: Step)
    requires Cursors(c, s) && Masked(c) && WordEnabled(c, Wrapped(s), word)
    ensures Enabled(c, s, step) && WrappedStep(step) == word
    ensures HeadOk(c, s, step) ==> WordDo(c, Wrapped(s), word) == Wrapped(Do(c, s, step))
  {
    step := StepUnwraps(c, s, word);
    if HeadOk(c, s, step) {
      StepWraps(c, s, step);
    }
  }

  // ------------------------------------------------------------ runs

  /** Whether the drain can be trusted with its `<`, which a caller knows beforehand. */
  predicate FewEnough<B, R>(c: Config<B, R>) {
    c.batch ==> c.Total() < WORD
  }

  function WrappedRun<B, R>(run: seq<State<B, R>>): (r: seq<State<B, R>>)
    ensures |r| == |run| && forall i :: 0 <= i < |r| ==> r[i] == Wrapped(run[i])
  {
    seq(|run|, i requires 0 <= i < |run| => Wrapped(run[i]))
  }

  lemma FewIsOk<B, R>(c: Config<B, R>, s: State<B, R>, step: Step)
    requires Inv(c, s) && FewEnough(c)
    ensures HeadOk(c, s, step)
  {
  }

  lemma NextWraps<B, R>(c: Config<B, R>, s: State<B, R>, s': State<B, R>)
    requires Inv(c, s) && Masked(c) && FewEnough(c) && Next(c, s, s')
    ensures WordNext(c, Wrapped(s), Wrapped(s'))
  {
    var step :| Enabled(c, s, step) && s' == Do(c, s, step);
    FewIsOk(c, s, step);
    StepWraps(c, s, step);
  }

  lemma NextUnwraps<B, R>(c: Config<B, R>, s: State<B, R>, after: State<B, R>) returns (step: Step)
    requires Inv(c, s) && Masked(c) && FewEnough(c) && WordNext(c, Wrapped(s), after)
    ensures Enabled(c, s, step) && after == Wrapped(Do(c, s, step))
  {
    var word :| WordEnabled(c, Wrapped(s), word) && after == WordDo(c, Wrapped(s), word);
    step := StepLifts(c, s, word);
    FewIsOk(c, s, step);
  }

  /** Every run of the unbounded ring, seen modulo 2^64, is a run of the machine. */
  lemma RunWraps<B, R>(c: Config<B, R>, run: seq<State<B, R>>)
    requires Valid(c) && Masked(c) && FewEnough(c) && IsRun(c, run)
    ensures IsWordRun(c, WrappedRun(run))
  {
    var r := WrappedRun(run);
    forall i | 0 <= i < |r| - 1
      ensures WordNext(c, r[i], r[i + 1])
    {
      RunKeepsInv(c, run, i);
      assert Next(c, run[i], run[i + 1]);
      NextWraps(c, run[i], run[i + 1]);
    }
  }

  /** Every run of the machine is a run of the unbounded ring, seen modulo 2^64. */
  lemma {:induction false} RunUnwraps<B, R>(c: Config<B, R>, words: seq<State<B, R>>, n: nat)
      returns (run: seq<State<B, R>>)
    requires Valid(c) && Masked(c) && FewEnough(c) && IsWordRun(c, words) && n < |words|
    ensures IsRun(c, run) && WrappedRun(run) == words[..n + 1]
  {
    if n == 0 {
      run := [words[0]];
    } else {
      var prefix := RunUnwraps(c, words, n - 1);
      var s := prefix[n - 1];
      RunKeepsInv(c, prefix, n - 1);
      assert WrappedRun(prefix)[n - 1] == words[n - 1];
      assert WordNext(c, words[n - 1], words[n - 1 + 1]);
      var step := NextUnwraps(c, s, words[n]);
      run := RunExtends(c, prefix, step);
      assert words[..n + 1] == words[..n] + [words[n]];
    }
  }

  // ------------------------------------------------------------ a batch that meets the wrap

  ghost predicate ProducerHasRoom<B, R>(c: Config<B, R>, s: State<B, R>) {
    && (!s.ppc.PDone? ==> s.prod < c.Total())
    && (s.ppc.PWrite? || s.ppc.PPublish? ==> RoomFor(c, s, s.consSeen))
  }

  /** The producer has passed 2^64 and the consumer has not: on words, the batch looks empty. */
  ghost predicate Wedged<B, R>(c: Config<B, R>, s: State<B, R>) {
    && Cursors(c, s) && ProducerHasRoom(c, s) && c.batch
    && Idle(s.cpc) && s.answer.NoAnswer? && s.taken < WORD <= s.avail
  }

  lemma WedgedTest<B, R>(c: Config<B, R>, s: State<B, R>)
    requires Cursors(c, s) && Masked(c) && s.taken < WORD
    ensures ToWord(s.taken) < ToWord(s.avail) <==> s.taken < s.avail < WORD
  {
    var k := MaskedBelow(c);
  }

  /** There is no way out of it. */
  lemma WedgedStays<B, R>(c: Config<B, R>, s: State<B, R>, word: Step) returns (s': State<B, R>)
    requires Wedged(c, s) && Masked(c) && WordEnabled(c, Wrapped(s), word)
    ensures Wedged(c, s') && Wrapped(s') == WordDo(c, Wrapped(s), word)
  {
    if word.Head? {
      s' := s.(cpc := CStore);
      WedgedTest(c, s);
    } else {
      var step := StepLifts(c, s, word);
      s' := Do(c, s, step);
    }
  }

  /** What stands behind a state of the machine. */
  ghost predicate Shadow<B, R>(c: Config<B, R>, s: State<B, R>) {
    (Inv(c, s) && (c.batch ==> s.taken < WORD)) || Wedged(c, s)
  }

  lemma ShadowStep<B, R>(c: Config<B, R>, s: State<B, R>, word: Step) returns (s': State<B, R>)
    requires Shadow(c, s) && Masked(c) && WordEnabled(c, Wrapped(s), word)
    ensures Shadow(c, s') && Wrapped(s') == WordDo(c, Wrapped(s), word)
  {
    if Wedged(c, s) {
      s' := WedgedStays(c, s, word);
    } else {
      var step := StepLifts(c, s, word);
      if c.batch {
        WedgedTest(c, s);
      }
      if HeadOk(c, s, step) {
        s' := Do(c, s, step);
        StepKeepsInv(c, s, step);
      } else {
        s' := s.(cpc := CStore);
      }
    }
  }

  lemma {:induction false} WordRunShadow<B, R>(c: Config<B, R>, words: seq<State<B, R>>, n: nat)
      returns (s: State<B, R>)
    requires Valid(c) && Masked(c) && IsWordRun(c, words) && n < |words|
    ensures Shadow(c, s) && Wrapped(s) == words[n]
  {
    if n == 0 {
      s := words[0];
      InitInv(c, s);
    } else {
      var before := WordRunShadow(c, words, n - 1);
      assert WordNext(c, words[n - 1], words[n - 1 + 1]);
      var word :| WordEnabled(c, words[n - 1], word) && words[n] == WordDo(c, words[n - 1], word);
      s := ShadowStep(c, before, word);
    }
  }

  // ------------------------------------------------------------ the report of the machine

  /** A report that the machine gives is the right one, and a batch drain gives none from 2^64 messages on. */
  lemma WordReport<B, R>(c: Config<B, R>, words: seq<State<B, R>>)
    requires Valid(c) && Masked(c) && IsWordRun(c, words)
    ensures var answer := words[|words| - 1].answer;
            answer.Answer? ==> FewEnough(c) && answer.report == c.report(c.BookAfter(OpsOf(c.events)))
  {
    var s := WordRunShadow(c, words, |words| - 1);
  }

  /** The machine can report if and only if it does not drain in batches or has fewer than 2^64 messages. */
  lemma WordReportExact<B(!new), R(!new)>(c: Config<B, R>)
    requires Valid(c) && Masked(c)
    ensures FewEnough(c) <==>
            exists words: seq<State<B, R>> :: IsWordRun(c, words) && words[|words| - 1].answer.Answer?
  {
    forall words: seq<State<B, R>> | IsWordRun(c, words) && words[|words| - 1].answer.Answer?
      ensures FewEnough(c)
    {
      WordReport(c, words);
    }
    if FewEnough(c) {
      var run := CanFinish(c, [Initial(c)]);
      RunKeepsInv(c, run, |run| - 1);
      RunWraps(c, run);
      assert WrappedRun(run)[|run| - 1].answer.Answer?;
    }
  }

  function Initial<B, R>(c: Config<B, R>): (s: State<B, R>)
    ensures Init(c, s)
  {
    State(0, 0, seq(c.N(), _ => Message(c, 0)), PClaim, 0, 0, CWait, 0, 0, 0, Message(c, 0), c.start, [], [], NoAnswer)
  }
}
