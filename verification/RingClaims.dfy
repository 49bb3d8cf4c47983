/** The cached claim refines the plain one, and 64-bit cursors behave like unbounded ones. */
module RingClaims {
  import opened Words
  import opened Ring
  import opened RingSafety

  // ------------------------------------------------------------ the cached gating cursor

  function Plain<B, R>(c: Config<B, R>): Config<B, R> {
    c.(cached := false)
  }

  /** Seen without the cache: a producer that spins is one still claiming. */
  function WithoutCache<B, R>(s: State<B, R>): State<B, R> {
    if s.ppc.PSpin? then s.(ppc := PClaim) else s
  }

  /** A claim on the cached cursor is a claim on a load that returned an old value. */
  lemma CachedClaimIsStale<B(!new), R(!new)>(c: Config<B, R>, s: State<B, R>)
    requires c.cached && Inv(c, s) && s.ppc.PClaim?
    ensures var s' := Do(c, s, Claim);
            if s'.ppc.PSpin? then WithoutCache(s') == WithoutCache(s)
            else Enabled(Plain(c), s, LoadCons(s.consSeen)) && WithoutCache(s') == Do(Plain(c), s, LoadCons(s.consSeen))
  {
  }

  lemma ProducerStepIsPlain<B(!new), R(!new)>(c: Config<B, R>, s: State<B, R>, step: Step)
    requires c.cached && Inv(c, s) && Enabled(c, s, step) && (step.LoadCons? || step.Write? || step.Publish?)
    ensures Enabled(Plain(c), WithoutCache(s), step)
    ensures WithoutCache(Do(c, s, step)) == Do(Plain(c), WithoutCache(s), step)
  {
    match step
    case LoadCons(v) =>
    case Write =>
    case Publish =>
  }

  lemma ConsumerStepIsPlain<B(!new), R(!new)>(c: Config<B, R>, s: State<B, R>, step: Step)
    requires c.cached && Inv(c, s) && Enabled(c, s, step)
    requires !step.Claim? && !step.LoadCons? && !step.Write? && !step.Publish?
    ensures Enabled(Plain(c), WithoutCache(s), step)
    ensures WithoutCache(Do(c, s, step)) == Do(Plain(c), WithoutCache(s), step)
  {
    assert WithoutCache(s).buf == s.buf;
    match step
    case Read =>
    case _ =>
  }

  lemma OtherStepIsPlain<B(!new), R(!new)>(c: Config<B, R>, s: State<B, R>, step: Step)
    requires c.cached && Inv(c, s) && Enabled(c, s, step) && !step.Claim?
    ensures Enabled(Plain(c), WithoutCache(s), step)
    ensures WithoutCache(Do(c, s, step)) == Do(Plain(c), WithoutCache(s), step)
  {
    if step.LoadCons? || step.Write? || step.Publish? {
      ProducerStepIsPlain(c, s, step);
    } else {
      ConsumerStepIsPlain(c, s, step);
    }
  }

  /** Each step of the cached ring is a step of the plain ring, or invisible to it. */
  lemma CachedStepIsPlain<B(!new), R(!new)>(c: Config<B, R>, s: State<B, R>, step: Step)
    requires c.cached && Inv(c, s) && Enabled(c, s, step)
    ensures WithoutCache(Do(c, s, step)) == WithoutCache(s) ||
            Next(Plain(c), WithoutCache(s), WithoutCache(Do(c, s, step)))
  {
    if step.Claim? {
      CachedClaimIsStale(c, s);
    } else {
      OtherStepIsPlain(c, s, step);
    }
  }

  lemma CachedRefinesPlain<B(!new), R(!new)>(c: Config<B, R>, run: seq<State<B, R>>)
    requires c.cached && Valid(c) && IsRun(c, run)
    ensures Init(Plain(c), WithoutCache(run[0]))
    ensures forall i :: 0 <= i < |run| - 1 ==>
              WithoutCache(run[i + 1]) == WithoutCache(run[i]) ||
              Next(Plain(c), WithoutCache(run[i]), WithoutCache(run[i + 1]))
  {
    forall i | 0 <= i < |run| - 1
      ensures WithoutCache(run[i + 1]) == WithoutCache(run[i]) ||
              Next(Plain(c), WithoutCache(run[i]), WithoutCache(run[i + 1]))
    {
      RunKeepsInv(c, run, i);
      assert Next(c, run[i], run[i + 1]);
      var step :| Enabled(c, run[i], step) && run[i + 1] == Do(c, run[i], step);
      CachedStepIsPlain(c, run[i], step);
    }
  }

  /** A slot is claimed only when the current consumer cursor allows it, however old the cached one is. */
  lemma ClaimIsSound<B, R>(c: Config<B, R>, s: State<B, R>)
    requires Inv(c, s)
    ensures s.ppc.PWrite? || s.ppc.PPublish? ==> s.prod + 1 <= s.cons + c.N()
  {
  }

  // ------------------------------------------------------------ cursors modulo 2^64

  function Sub(a: Word, b: Word): Word {
    (a - b) % WORD
  }

  lemma WrapDifference(a: nat, b: nat)
    requires b <= a < b + WORD
    ensures Sub(ToWord(a), ToWord(b)) == a - b
  {
    var p, q := a / WORD, b / WORD;
    assert a == p * WORD + ToWord(a) && b == q * WORD + ToWord(b);
    assert p == q || p == q + 1;
  }

  lemma Regroup(p: nat, n: nat, m: nat, q: nat, r: nat)
    ensures p * (n * m) + (q * n + r) == (p * m + q) * n + r
  {
    assert p * (n * m) == (p * m) * n;
    assert (p * m + q) * n == (p * m) * n + q * n;
  }

  lemma RemainderOfRemainder(x: nat, w: nat, n: nat, m: nat)
    requires n > 0 && m > 0 && w == n * m
    ensures (x % w) % n == x % n
  {
    MulAtLeast(n, m);
    var p, r := x / w, x % w;
    var q, t := r / n, r % n;
    DivMod(x, w);
    DivMod(r, n);
    Regroup(p, n, m, q, t);
    QuotientIs(x, n, p * m + q, t);
  }

  lemma DivMod(a: nat, d: nat)
    requires d > 0
    ensures a == (a / d) * d + a % d && a % d < d && a / d >= 0
  {
    DivLeq(a, d);
  }

  lemma WrapRemainder(x: nat, k: nat)
    requires k <= 64
    ensures ToWord(x) % Pow2(k) == x % Pow2(k)
  {
    Pow2Of64();
    Pow2Adds(k, 64 - k);
    RemainderOfRemainder(x, WORD, Pow2(k), Pow2(64 - k));
  }

  /**
   * With a ring of 2^k slots and cursors kept modulo 2^64, the claim's difference test, the masked
   * slot lookup and the consumer's equality wait decide as unbounded cursors would, in every state
   * that a run can reach, however often the cursors have wrapped.
   */
  lemma WrappedTestsAgree<B, R>(c: Config<B, R>, k: nat, s: State<B, R>, seen: nat, sequence: nat)
    requires Inv(c, s) && k < 64 && c.size == Pow2(k)
    requires s.consSeen <= seen <= s.prod
    ensures Sub(ToWord(s.prod + 1), ToWord(seen)) > c.size <==> !RoomFor(c, s, seen)
    ensures And(ToWord(sequence), c.size - 1) == SlotOf(c, sequence)
    ensures forall w :: s.prodSeen <= w <= s.prod ==> (ToWord(w) == ToWord(s.taken) <==> w == s.taken)
  {
    SizeBelowWord(k);
    ClaimTestAgrees(c.size, s.prod, seen);
    MaskAgrees(sequence, k);
    forall w | s.prodSeen <= w <= s.prod
      ensures ToWord(w) == ToWord(s.taken) <==> w == s.taken
    {
      WaitTestAgrees(c.size, s.taken, w);
    }
  }

  lemma ClaimTestAgrees(size: nat, prod: nat, seen: nat)
    requires size + 1 < WORD && seen <= prod <= seen + size
    ensures Sub(ToWord(prod + 1), ToWord(seen)) > size <==> prod + 1 > seen + size
  {
    WrapDifference(prod + 1, seen);
  }

  lemma WaitTestAgrees(size: nat, taken: nat, w: nat)
    requires size < WORD && taken <= w <= taken + size
    ensures ToWord(w) == ToWord(taken) <==> w == taken
  {
    WrapDifference(w, taken);
  }

  lemma MaskAgrees(sequence: nat, k: nat)
    requires k <= 64
    ensures And(ToWord(sequence), Pow2(k) - 1) == sequence % Pow2(k)
  {
    MaskIsRemainder(ToWord(sequence), k);
    WrapRemainder(sequence, k);
  }

  lemma {:induction false} SizeBelowWord(k: nat)
    requires k < 64
    ensures 2 * Pow2(k) <= WORD
  {
    Pow2Of64();
    Pow2Adds(k + 1, 63 - k);
    MulGrows(Pow2(63 - k), Pow2(k + 1));
    assert Pow2(63 - k) >= 1;
    MulAtLeast(Pow2(63 - k), Pow2(k + 1));
  }

  /** The batch loop's ordered test is right exactly when the cursor does not wrap inside the batch. */
  lemma OrderedTestExact(taken: nat, avail: nat)
    requires taken < avail < taken + WORD
    ensures ToWord(taken) < ToWord(avail) <==> taken / WORD == avail / WORD
  {
    var p, q := taken / WORD, avail / WORD;
    assert taken == p * WORD + ToWord(taken) && avail == q * WORD + ToWord(avail);
    assert p == q || q == p + 1;
  }

  /** So it is right in every state that a run with fewer than 2^64 messages can reach. */
  lemma OrderedTestAgrees<B, R>(c: Config<B, R>, s: State<B, R>)
    requires Inv(c, s) && c.Total() < WORD
    ensures ToWord(s.taken) < ToWord(s.avail) <==> s.taken < s.avail
  {
  }

  lemma StepTakes<B, R>(c: Config<B, R>, s: State<B, R>, step: Step)
    requires Enabled(c, s, step) && |s.buf| == c.N()
    ensures var t := Do(c, s, step);
            t.taken == s.taken || (s.cpc.CHead? && s.taken < s.avail && t.taken == s.taken + 1)
  {
  }

  lemma NextTakes<B, R>(c: Config<B, R>, s: State<B, R>, t: State<B, R>)
    requires Next(c, s, t)
    ensures t.taken == s.taken || (s.cpc.CHead? && s.taken < s.avail && t.taken == s.taken + 1)
  {
    var step :| Enabled(c, s, step) && t == Do(c, s, step);
    StepTakes(c, s, step);
  }

  /** A consumer that has taken more than `n` messages once took number `n + 1` from a batch. */
  lemma {:induction false} TookAt<B, R>(c: Config<B, R>, run: seq<State<B, R>>, n: nat, m: nat) returns (i: nat)
    requires Valid(c) && IsRun(c, run) && m < |run| && n < run[m].taken
    ensures i < m && run[i].cpc.CHead? && run[i].taken == n < run[i].avail
  {
    assert m > 0;
    if n < run[m - 1].taken {
      i := TookAt(c, run, n, m - 1);
    } else {
      i := m - 1;
      NextTakes(c, run[i], run[i + 1]);
    }
  }

  /** With 2^64 messages or more the test goes wrong in every run that hands them all over. */
  lemma OrderedTestFails<B, R>(c: Config<B, R>, run: seq<State<B, R>>) returns (i: nat)
    requires Valid(c) && IsRun(c, run) && run[|run| - 1].cpc.CDone?
    requires c.N() < WORD <= c.Total()
    ensures i < |run| && run[i].cpc.CHead?
    ensures run[i].taken < run[i].avail && !(ToWord(run[i].taken) < ToWord(run[i].avail))
  {
    RunKeepsInv(c, run, |run| - 1);
    i := TookAt(c, run, WORD - 1, |run| - 1);
    RunKeepsInv(c, run, i);
    OrderedTestExact(run[i].taken, run[i].avail);
  }

  /** So over complete runs the ordered test is right throughout if and only if there are fewer than 2^64. */
  lemma OrderedTestRight<B, R>(c: Config<B, R>, run: seq<State<B, R>>)
    requires Valid(c) && IsRun(c, run) && run[|run| - 1].cpc.CDone? && c.N() < WORD
    ensures c.Total() < WORD <==>
            forall i :: 0 <= i < |run| && run[i].cpc.CHead? ==>
              (ToWord(run[i].taken) < ToWord(run[i].avail) <==> run[i].taken < run[i].avail)
  {
    if c.Total() < WORD {
      forall i | 0 <= i < |run| && run[i].cpc.CHead?
        ensures ToWord(run[i].taken) < ToWord(run[i].avail) <==> run[i].taken < run[i].avail
      {
        RunKeepsInv(c, run, i);
        OrderedTestAgrees(c, run[i]);
      }
    } else {
      var i := OrderedTestFails(c, run);
    }
  }
}
