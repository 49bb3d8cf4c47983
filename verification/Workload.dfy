/** The deterministic workload generator. */
module Workload {
  import opened Words
  import opened Orders
  import opened SplitMix
  import opened LazyEager

  datatype GenState = GenState(rng: Word, mid: int, lastId: Word)

  function Start(seed: Word): GenState {
    GenState(seed, 1000, 0)
  }

  function Clamp(x: int, lo: int, hi: int): int {
    if x < lo then lo else if x > hi then hi else x
  }

  /** Everything one operation takes from its draw. */
  datatype Dice = Dice(moves: bool, drift: int, kind: nat, side: nat, near: nat, far: nat, size: nat, back: nat)

  function Roll(r: Word): Dice {
    Dice(r % 7 == 0, Shr(r, 40) % 3 - 1, r % 100, And(Shr(r, 8), 1),
         Shr(r, 16) % 10, 1 + Shr(r, 16) % 20, 1 + Shr(r, 32) % 100, Shr(r, 16) % 5000)
  }

  predicate DiceOk(d: Dice) {
    -1 <= d.drift <= 1 && d.side <= 1 && d.near <= 9 && 1 <= d.far <= 20 && 1 <= d.size <= 100
  }

  lemma RollOk(r: Word)
    ensures DiceOk(Roll(r))
  {
    MaskIsRemainder(Shr(r, 8), 1);
  }

  function NextMid(mid: int, d: Dice): int {
    if d.moves then Clamp(mid + d.drift, 500, 1500) else mid
  }

  /** The operation for one roll, once the mid price has moved. */
  function OpFrom(d: Dice, mid: int, lastId: Word): Op {
    if d.kind < 85 then
      var side := if d.side == 0 then Bid else Ask;
      var aggressive := d.kind >= 55;
      var offset := if aggressive then d.near else d.far;
      LimitOp(side, if (side == Bid) != aggressive then mid - offset else mid + offset, d.size, Add(lastId, 1))
    else
      CancelOp(if lastId > d.back then lastId - d.back else 0)
  }

  /** The generator's step on one roll. */
  function StepWith(g: GenState, d: Dice): (GenState, Op) {
    var mid := NextMid(g.mid, d);
    var op := OpFrom(d, mid, g.lastId);
    (GenState(Add(g.rng, GAMMA), mid, if op.LimitOp? then Add(g.lastId, 1) else g.lastId), op)
  }

  function NextDraw(g: GenState): (GenState, Op) {
    StepWith(g, Roll(Output(g.rng)))
  }

  /** `n` steps of a generator: the state it ends in and the operations it emits. */
  function Iterate(step: GenState -> (GenState, Op), g: GenState, n: nat): (r: (GenState, seq<Op>))
    ensures |r.1| == n
  {
    if n == 0 then (g, [])
    else
      var before := Iterate(step, g, n - 1);
      var next := step(before.0);
      (next.0, before.1 + [next.1])
  }

  function After(seed: Word, n: nat): GenState {
    Iterate(NextDraw, Start(seed), n).0
  }

  /** The first `n` operations from a seed. */
  function Stream(seed: Word, n: nat): (ops: seq<Op>)
    ensures |ops| == n
  {
    Iterate(NextDraw, Start(seed), n).1
  }

  // ------------------------------------------------------------ what a draw decides, in numbers alone

  /** The mid moves at most one, by bits 40 and up, and only on every seventh draw; it stays in its band. */
  predicate MidFollows(mid: int, r: Word, after: int) {
    && (r % 7 != 0 ==> after == mid)
    && (r % 7 == 0 ==>
          var third := r / 0x100_0000_0000 % 3;
          && (third == 0 ==> after == mid - 1 || (after == mid == 500))
          && (third == 1 ==> after == mid)
          && (third == 2 ==> after == mid + 1 || (after == mid == 1500)))
    && 500 <= after <= 1500
  }

  /**
   * Of 100 draws 85 are limit orders, under the next id: 55 stay 1 to 20 away from the mid on their own
   * side of it, 30 go up to 9 beyond it. A bid if bit 8 is clear.
   */
  predicate LimitFollows(mid: int, lastId: Word, r: Word, after: Word, op: Op) {
    && op.LimitOp? && after == (lastId + 1) % WORD && op.id == after
    && (op.side.Bid? <==> Bit(r, 8) == 0)
    && op.qty == 1 + r / 0x1_0000_0000 % 100
    && (r % 100 < 55 ==> (if op.side.Bid? then mid - op.price else op.price - mid) == 1 + r / 0x1_0000 % 20)
    && (r % 100 >= 55 ==> (if op.side.Bid? then op.price - mid else mid - op.price) == r / 0x1_0000 % 10)
  }

  /** The others cancel the order that was submitted so many limit orders ago, or name no order: id 0. */
  predicate CancelFollows(lastId: Word, r: Word, after: Word, op: Op) {
    && op.CancelOp? && after == lastId
    && var back := r / 0x1_0000 % 5000;
       if back < lastId then op.id + back == lastId else op.id == 0
  }

  /** From `mid` and `lastId`, the draw `r` leads to `mid'` and `lastId'` and emits `op`. */
  predicate Follows(mid: int, lastId: Word, r: Word, mid': int, lastId': Word, op: Op) {
    && MidFollows(mid, r, mid')
    && if r % 100 < 85 then LimitFollows(mid', lastId, r, lastId', op) else CancelFollows(lastId, r, lastId', op)
  }

  lemma ShiftsAreQuotients(r: Word)
    ensures Shr(r, 16) == r / 0x1_0000 && Shr(r, 32) == r / 0x1_0000_0000 && Shr(r, 40) == r / 0x100_0000_0000
  {
    Pow2Values();
  }

  lemma SideBit(r: Word)
    ensures And(Shr(r, 8), 1) == Bit(r, 8)
  {
    MaskIsRemainder(Shr(r, 8), 1);
    ShrBitwise(r, 8, 0);
  }

  lemma NextDrawIs(g: GenState, r: Word)
    requires r == Output(g.rng)
    ensures NextDraw(g) == StepWith(g, Roll(r))
  {
  }

  lemma RollIs(r: Word)
    ensures Roll(r) == Dice(r % 7 == 0, r / 0x100_0000_0000 % 3 - 1, r % 100, Bit(r, 8), r / 0x1_0000 % 10,
                            1 + r / 0x1_0000 % 20, 1 + r / 0x1_0000_0000 % 100, r / 0x1_0000 % 5000)
  {
    ShiftsAreQuotients(r);
    SideBit(r);
  }

  lemma StepFollows(g: GenState, r: Word, d: Dice)
    requires 500 <= g.mid <= 1500
    requires d == Dice(r % 7 == 0, r / 0x100_0000_0000 % 3 - 1, r % 100, Bit(r, 8), r / 0x1_0000 % 10,
                       1 + r / 0x1_0000 % 20, 1 + r / 0x1_0000_0000 % 100, r / 0x1_0000 % 5000)
    ensures var n := StepWith(g, d);
            Follows(g.mid, g.lastId, r, n.0.mid, n.0.lastId, n.1)
  {
  }

  /** The generator's step does what its draw decides. */
  lemma NextDrawFollows(g: GenState)
    requires 500 <= g.mid <= 1500
    ensures var n := NextDraw(g);
            Follows(g.mid, g.lastId, Output(g.rng), n.0.mid, n.0.lastId, n.1)
  {
    var r := Output(g.rng);
    NextDrawIs(g, r);
    RollIs(r);
    StepFollows(g, r, Roll(r));
  }

  /** And a draw leaves nothing else to decide. */
  lemma FollowsOnce(mid: int, lastId: Word, r: Word, mid1: int, id1: Word, op1: Op, mid2: int, id2: Word, op2: Op)
    requires Follows(mid, lastId, r, mid1, id1, op1) && Follows(mid, lastId, r, mid2, id2, op2)
    ensures mid1 == mid2 && id1 == id2 && op1 == op2
  {
  }

  class Gen {
    const rng: SplitMix64
    var mid: int
    var lastId: Word
    // out-parameters of NextOp; kind is 0 for a limit order and 1 for a cancel
    var kind: nat
    var side: nat
    var price: int
    var qty: int
    var id: nat

    ghost function State(): GenState
      reads this, rng
    {
      GenState(rng.state, mid, lastId)
    }

    /** The operation that the out-parameters spell. */
    function Current(): Op
      reads this
    {
      if kind == 0 then LimitOp(if side == 0 then Bid else Ask, price, qty, id) else CancelOp(id)
    }

    constructor (seed: Word)
      ensures State() == Start(seed) && fresh(rng)
    {
      rng := new SplitMix64(seed);
      mid, lastId := 1000, 0;
      kind, side, price, qty, id := 0, 0, 0, 0, 0;
    }

    /** Spell the operation for one roll in the out-parameters. */
    method Emit(d: Dice)
      requires DiceOk(d)
      modifies this
      ensures (GenState(Add(rng.state, GAMMA), mid, lastId), Current()) == StepWith(old(State()), d)
      ensures Current().CancelOp? ==> kind == 1 && side == 0 && price == 0 && qty == 0
      ensures Current().LimitOp? ==> kind == 0 && side <= 1
    {
      if d.moves {
        mid := mid + d.drift;
        mid := Clamp(mid, 500, 1500);
      }
      if d.kind < 85 {
        side := d.side;
        var aggressive := d.kind >= 55;
        var offset := if aggressive then d.near else d.far;
        price := if (side == 0) != aggressive then mid - offset else mid + offset;
        qty := d.size;
        lastId := Add(lastId, 1);
        id := lastId;
        kind := 0;
      } else {
        id := if lastId > d.back then lastId - d.back else 0;
        kind := 1;
        side := 0;
        price := 0;
        qty := 0;
      }
    }

    method NextOp()
      modifies this, rng
      ensures (State(), Current()) == NextDraw(old(State()))
      ensures 500 <= old(mid) <= 1500 ==>
                Follows(old(mid), old(lastId), Output(old(rng.state)), mid, lastId, Current())
      ensures Current().CancelOp? ==> kind == 1 && side == 0 && price == 0 && qty == 0
      ensures Current().LimitOp? ==> kind == 0 && side <= 1
    {
      ghost var g := State();
      var r := rng.Next();
      RollOk(r);
      StepIgnoresRng(g, State(), Roll(r));
      if 500 <= g.mid <= 1500 {
        NextDrawFollows(g);
      }
      Emit(Roll(r));
    }
  }

  lemma StepIgnoresRng(g: GenState, h: GenState, d: Dice)
    requires g.mid == h.mid && g.lastId == h.lastId
    ensures StepWith(g, d).1 == StepWith(h, d).1
    ensures StepWith(g, d).0 == StepWith(h, d).0.(rng := Add(g.rng, GAMMA))
  {
  }

  method Generate(seed: Word, n: nat) returns (ops: seq<Op>)
    ensures ops == Stream(seed, n)
  {
    var g := new Gen(seed);
    ops := [];
    for i := 0 to n
      invariant fresh(g) && fresh(g.rng)
      invariant g.State() == After(seed, i) && ops == Stream(seed, i)
    {
      g.NextOp();
      ops := ops + [g.Current()];
    }
  }

  // ------------------------------------------------------------ what the stream promises the book

  function LimitCount(ops: seq<Op>): nat {
    if ops == [] then 0
    else LimitCount(ops[..|ops| - 1]) + (if ops[|ops| - 1].LimitOp? then 1 else 0)
  }

  /** An operation drawn when `issued` ids have been handed out. */
  predicate InBounds(op: Op, issued: nat) {
    match op
    case LimitOp(_, price, qty, id) => 480 <= price <= 1520 && 1 <= qty <= 100 && id == issued + 1
    case CancelOp(id) => id <= issued
  }

  lemma DrawIsRoll(g: GenState) returns (d: Dice)
    ensures DiceOk(d) && NextDraw(g) == StepWith(g, d)
  {
    d := Roll(Output(g.rng));
    RollOk(Output(g.rng));
  }

  lemma RollInBounds(d: Dice, mid: int, lastId: Word)
    requires DiceOk(d) && 500 <= mid <= 1500 && lastId + 1 < WORD
    ensures InBounds(OpFrom(d, mid, lastId), lastId)
  {
  }

  /** The mid stays in its band, ids count up from 1, cancels name 0 or an id already issued. */
  ghost predicate StreamOk(g: GenState, ops: seq<Op>) {
    && 500 <= g.mid <= 1500
    && g.lastId == LimitCount(ops) <= |ops|
    && forall i :: 0 <= i < |ops| ==> InBounds(ops[i], LimitCount(ops[..i]))
  }

  lemma StepKeepsOk(g: GenState, ops: seq<Op>, d: Dice)
    requires StreamOk(g, ops) && DiceOk(d) && |ops| + 1 < WORD
    ensures StreamOk(StepWith(g, d).0, ops + [StepWith(g, d).1])
  {
    var op := StepWith(g, d).1;
    var ops' := ops + [op];
    RollInBounds(d, NextMid(g.mid, d), g.lastId);
    assert ops'[..|ops|] == ops;
    forall i | 0 <= i < |ops'|
      ensures InBounds(ops'[i], LimitCount(ops'[..i]))
    {
      assert i < |ops| ==> ops'[..i] == ops[..i];
    }
  }

  ghost predicate KeepsOk(step: GenState -> (GenState, Op)) {
    forall g, ops {:trigger step(g), StreamOk(g, ops)} ::
      StreamOk(g, ops) && |ops| + 1 < WORD ==> StreamOk(step(g).0, ops + [step(g).1])
  }

  lemma {:induction false} IterateInBounds(step: GenState -> (GenState, Op), g: GenState, n: nat)
    requires KeepsOk(step) && StreamOk(g, []) && n < WORD
    ensures StreamOk(Iterate(step, g, n).0, Iterate(step, g, n).1)
  {
    if n > 0 {
      IterateInBounds(step, g, n - 1);
    }
  }

  lemma NextDrawKeepsOk()
    ensures KeepsOk(NextDraw)
  {
    forall g: GenState, ops | StreamOk(g, ops) && |ops| + 1 < WORD
      ensures StreamOk(NextDraw(g).0, ops + [NextDraw(g).1])
    {
      var d := DrawIsRoll(g);
      StepKeepsOk(g, ops, d);
    }
  }

  /** For every seed and every length. */
  lemma StreamInBounds(seed: Word, n: nat)
    requires n < WORD
    ensures StreamOk(After(seed, n), Stream(seed, n))
  {
    NextDrawKeepsOk();
    IterateInBounds(NextDraw, Start(seed), n);
  }

  lemma {:induction false} LimitCountGrows(ops: seq<Op>, i: nat, j: nat)
    requires i <= j <= |ops|
    ensures LimitCount(ops[..i]) <= LimitCount(ops[..j])
    ensures i < j && ops[i].LimitOp? ==> LimitCount(ops[..i]) + 1 <= LimitCount(ops[..j])
  {
    if i < j {
      assert ops[..j][..j - 1] == ops[..j - 1];
      LimitCountGrows(ops, i, j - 1);
      if i == j - 1 {
        assert ops[..j][j - 1] == ops[i];
      }
    }
  }

  /** The generator's ids are fresh, and increase along the stream. */
  lemma StreamIsFresh(seed: Word, n: nat)
    requires n < WORD
    ensures FreshIds(Stream(seed, n))
    ensures var ops := Stream(seed, n);
            forall i, j :: 0 <= i < j < n && ops[i].LimitOp? && ops[j].LimitOp? ==> ops[i].id < ops[j].id
  {
    var ops := Stream(seed, n);
    StreamInBounds(seed, n);
    forall i, j | 0 <= i < j < n && ops[i].LimitOp? && ops[j].LimitOp?
      ensures ops[i].id < ops[j].id
    {
      LimitCountGrows(ops, i, j);
    }
  }

  // ------------------------------------------------------------ the stream, draw by draw

  lemma {:induction false} IterateExtends(step: GenState -> (GenState, Op), g: GenState, i: nat, n: nat)
    requires i < n
    ensures Iterate(step, g, n).1[i] == step(Iterate(step, g, i).0).1
    ensures Iterate(step, g, i + 1).0 == step(Iterate(step, g, i).0).0
  {
    if i + 1 < n {
      IterateExtends(step, g, i, n - 1);
    }
  }

  lemma NextState(g: GenState)
    ensures NextDraw(g).0.rng == Add(g.rng, GAMMA)
  {
  }

  lemma {:induction false} AfterState(seed: Word, i: nat)
    ensures After(seed, i).rng == StateAt(seed, i)
  {
    if i > 0 {
      AfterState(seed, i - 1);
      IterateExtends(NextDraw, Start(seed), i - 1, i);
      NextState(After(seed, i - 1));
    }
  }

  lemma {:induction false} MidInBand(seed: Word, i: nat)
    ensures 500 <= After(seed, i).mid <= 1500
  {
    if i > 0 {
      MidInBand(seed, i - 1);
      IterateExtends(NextDraw, Start(seed), i - 1, i);
      NextDrawFollows(After(seed, i - 1));
    }
  }

  /** The mid starts at 1000, ids at 1, and operation `i` is what draw `i` decides. */
  lemma StreamFollows(seed: Word, n: nat, i: nat)
    requires i < n
    ensures After(seed, 0).mid == 1000 && After(seed, 0).lastId == 0
    ensures Follows(After(seed, i).mid, After(seed, i).lastId, Draw(seed, i),
                    After(seed, i + 1).mid, After(seed, i + 1).lastId, Stream(seed, n)[i])
  {
    MidInBand(seed, i);
    AfterState(seed, i);
    IterateExtends(NextDraw, Start(seed), i, n);
    NextDrawFollows(After(seed, i));
  }
}
