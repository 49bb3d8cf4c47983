/** The generator on signed 64-bit integers, as the Java version computes it. */
module JavaWorkload {
  import opened Words
  import opened Orders
  import opened SplitMix
  import opened Workload

  const HALF: int := 0x8000_0000_0000_0000

  type Long = x: int | -HALF <= x < HALF

  /** Two's complement, both ways. */
  function Bits(x: Long): Word { ToWord(x) }

  function Signed(w: Word): Long {
    if w < HALF then w else w - WORD
  }

  /** Signed overflow. */
  function Wrap(x: int): Long {
    Signed(ToWord(x))
  }

  /** Logical right shift, `>>>`. */
  function ShiftRight(x: Long, k: nat): Long {
    Signed(Shr(Bits(x), k))
  }

  function BitXor(a: Long, b: Long): Long {
    XorIsWord(Bits(a), Bits(b));
    Signed(Xor(Bits(a), Bits(b)))
  }

  function RemainderUnsigned(x: Long, d: nat): nat
    requires d > 0
  {
    Bits(x) % d
  }

  lemma BitsSigned(w: Word)
    ensures Bits(Signed(w)) == w
  {
  }

  lemma MulWords(a: int, b: int)
    ensures Mul(ToWord(a), ToWord(b)) == ToWord(a * b)
  {
    var p, r, q, s := a / WORD, ToWord(a), b / WORD, ToWord(b);
    assert a == p * WORD + r && b == q * WORD + s;
    var n := (r * s) / WORD;
    assert r * s == n * WORD + (r * s) % WORD;
    assert a * b == (p * WORD + r) * (q * WORD + s);
    assert (p * WORD + r) * (q * WORD + s) == (p * q * WORD + p * s + q * r) * WORD + r * s;
    RemainderIs(a * b, p * q * WORD + p * s + q * r + n, (r * s) % WORD);
  }

  function JavaXorShift(z: Long, k: nat): Long {
    BitXor(z, ShiftRight(z, k))
  }

  function JavaMul(a: Long, c: Word): Long {
    Wrap(a * Signed(c))
  }

  lemma XorShiftBits(z: Long, k: nat)
    ensures Bits(JavaXorShift(z, k)) == XorShift(Bits(z), k)
  {
    BitsSigned(Shr(Bits(z), k));
    XorIsWord(Bits(z), Shr(Bits(z), k));
    BitsSigned(Xor(Bits(z), Shr(Bits(z), k)));
  }

  lemma MulBits(a: Long, c: Word)
    ensures Bits(JavaMul(a, c)) == Mul(Bits(a), c)
  {
    MulWords(a, Signed(c));
    BitsSigned(c);
    BitsSigned(ToWord(a * Signed(c)));
  }

  function JavaMix(z: Long): Long {
    JavaXorShift(JavaMul(JavaXorShift(JavaMul(JavaXorShift(z, 30), MIX1), 27), MIX2), 31)
  }

  function JavaAdvance(state: Long): Long {
    Wrap(state + Signed(GAMMA))
  }

  /** The signed mix has the bits of the unsigned one. */
  lemma MixBits(z: Long)
    ensures Bits(JavaMix(z)) == Mix(Bits(z))
  {
    var a := JavaXorShift(z, 30);
    XorShiftBits(z, 30);
    MulBits(a, MIX1);
    var b := JavaXorShift(JavaMul(a, MIX1), 27);
    XorShiftBits(JavaMul(a, MIX1), 27);
    MulBits(b, MIX2);
    XorShiftBits(JavaMul(b, MIX2), 31);
  }

  lemma AdvanceBits(state: Long)
    ensures Bits(JavaAdvance(state)) == Add(Bits(state), GAMMA)
  {
    AddWraps(state, Signed(GAMMA));
    BitsSigned(GAMMA);
    BitsSigned(ToWord(state + Signed(GAMMA)));
  }

  class JavaSplitMix64 {
    var state: Long

    constructor (seed: Long)
      ensures state == seed
    {
      state := seed;
    }

    method Next() returns (r: Long)
      modifies this
      ensures Bits(state) == Add(Bits(old(state)), GAMMA)
      ensures Bits(r) == Output(Bits(old(state))) && Unmix(Bits(r)) == Bits(state)
    {
      AdvanceBits(state);
      state := Wrap(state + Signed(GAMMA));
      var z: Long := state;
      z := JavaMul(BitXor(z, ShiftRight(z, 30)), MIX1);
      z := JavaMul(BitXor(z, ShiftRight(z, 27)), MIX2);
      r := BitXor(z, ShiftRight(z, 31));
      MixBits(state);
      MixIsBijective(Bits(state));
    }
  }

  /** What one draw decides, by unsigned remainders of logical shifts. */
  function JavaRoll(r: Long): Dice {
    Dice(RemainderUnsigned(r, 7) == 0, RemainderUnsigned(ShiftRight(r, 40), 3) - 1, RemainderUnsigned(r, 100),
         And(Bits(ShiftRight(r, 8)), 1),
         RemainderUnsigned(ShiftRight(r, 16), 10), 1 + RemainderUnsigned(ShiftRight(r, 16), 20),
         1 + RemainderUnsigned(ShiftRight(r, 32), 100), RemainderUnsigned(ShiftRight(r, 16), 5000))
  }

  lemma RollBits(r: Long)
    ensures JavaRoll(r) == Roll(Bits(r))
  {
    BitsSigned(Shr(Bits(r), 40));
    BitsSigned(Shr(Bits(r), 8));
    BitsSigned(Shr(Bits(r), 16));
    BitsSigned(Shr(Bits(r), 32));
  }

  lemma SmallBits(x: Long)
    requires 0 <= x < HALF - 1
    ensures Bits(x) == x && Wrap(x + 1) == x + 1 == Add(Bits(x), 1)
  {
  }

  class JavaGen {
    const rng: JavaSplitMix64
    var mid: int
    var lastId: Long
    // out-parameters of NextOp; kind is 0 for a limit order and 1 for a cancel
    var kind: nat
    var side: nat
    var price: int
    var qty: int
    var id: Long

    /** The state of the unsigned generator that this one mirrors. */
    ghost function State(): GenState
      reads this, rng
    {
      GenState(Bits(rng.state), mid, Bits(lastId))
    }

    function Current(): Op
      reads this
    {
      if kind == 0 then LimitOp(if side == 0 then Bid else Ask, price, qty, Bits(id)) else CancelOp(Bits(id))
    }

    constructor (seed: Long)
      ensures State() == Start(Bits(seed)) && fresh(rng)
    {
      rng := new JavaSplitMix64(seed);
      mid, lastId := 1000, 0;
      kind, side, price, qty, id := 0, 0, 0, 0, 0;
    }

    method Emit(d: Dice)
      requires DiceOk(d) && 0 <= lastId < HALF - 1
      modifies this
      ensures (GenState(Add(Bits(rng.state), GAMMA), mid, Bits(lastId)), Current()) == StepWith(old(State()), d)
      ensures 0 <= lastId <= old(lastId) + 1
    {
      SmallBits(lastId);
      if d.moves {
        mid := mid + d.drift;
        mid := Clamp(mid, 500, 1500);
      }
      if d.kind < 85 {
        side := d.side;
        var aggressive := d.kind >= 55;
        var offset := if aggressive then d.near else d.far;
        price := if (side == 0) != aggressive then mid - offset else mid + offset;
        qty := d.size;
        lastId := Wrap(lastId + 1);
        id := lastId;
        kind := 0;
      } else {
        id := if lastId > d.back then lastId - d.back else 0;
        kind := 1;
        side := 0;
        price := 0;
        qty := 0;
      }
    }

    method NextOp()
      requires 0 <= lastId < HALF - 1
      modifies this, rng
      ensures (State(), Current()) == NextDraw(old(State()))
      ensures 500 <= old(mid) <= 1500 ==>
                Follows(old(mid), Bits(old(lastId)), Output(Bits(old(rng.state))), mid, Bits(lastId), Current())
      ensures 0 <= lastId <= old(lastId) + 1
    {
      ghost var g := State();
      var r := rng.Next();
      RollBits(r);
      RollOk(Bits(r));
      StepIgnoresRng(g, State(), JavaRoll(r));
      if 500 <= g.mid <= 1500 {
        NextDrawFollows(g);
      }
      Emit(JavaRoll(r));
    }
  }

  /**
   * From every seed, and for as long as ids fit a signed word, the signed generator emits the
   * operation stream of the unsigned one.
   */
  method Generate(seed: Long, n: nat) returns (ops: seq<Op>)
    requires n < HALF
    ensures ops == Stream(Bits(seed), n)
  {
    var g := new JavaGen(seed);
    ops := [];
    for i := 0 to n
      invariant fresh(g) && fresh(g.rng) && 0 <= g.lastId <= i
      invariant g.State() == After(Bits(seed), i) && ops == Stream(Bits(seed), i)
    {
      g.NextOp();
      ops := ops + [g.Current()];
    }
  }
}
