/** The splitmix64 generator, and what makes its output a faithful fingerprint. */
module SplitMix {
  import opened Words

  const GAMMA: Word := 0x9E3779B97F4A7C15
  const MIX1: Word := 0xBF58476D1CE4E5B9
  const MIX2: Word := 0x94D049BB133111EB

  // Inverses of the three odd constants modulo 2^64.
  const GAMMA_INV: Word := 0xF1DE83E19937733D
  const MIX1_INV: Word := 0x96DE1B173F119089
  const MIX2_INV: Word := 0x319642B2D24D8EC3

  function XorShift(z: Word, k: nat): Word {
    XorIsWord(z, Shr(z, k));
    Xor(z, Shr(z, k))
  }

  /** The output function: xor-shift, multiply, twice, and a last xor-shift. */
  function Mix(z: Word): Word {
    XorShift(Mul(XorShift(Mul(XorShift(z, 30), MIX1), 27), MIX2), 31)
  }

  /** One draw of a generator in state `state`. */
  function Output(state: Word): Word {
    Mix(Add(state, GAMMA))
  }

  class SplitMix64 {
    var state: Word

    constructor (seed: Word)
      ensures state == seed
    {
      state := seed;
    }

    method Next() returns (r: Word)
      modifies this
      ensures state == Add(old(state), GAMMA)
      ensures r == Output(old(state)) && Unmix(r) == state
    {
      state := Add(state, GAMMA);
      var z := state;
      XorIsWord(z, Shr(z, 30));
      z := Mul(Xor(z, Shr(z, 30)), MIX1);
      XorIsWord(z, Shr(z, 27));
      z := Mul(Xor(z, Shr(z, 27)), MIX2);
      XorIsWord(z, Shr(z, 31));
      r := Xor(z, Shr(z, 31));
      MixIsBijective(state);
    }
  }

  // ------------------------------------------------------------ the mix is a bijection

  lemma ShrSmaller(a: nat, k: nat)
    requires a > 0 && k > 0
    ensures Shr(a, k) < a
  {
    var d := Pow2(k);
    assert d >= 2;
    var q := a / d;
    assert a == q * d + a % d;
    MulGrows(q, d - 1);
    assert q * d == q * (d - 1) + q;
  }

  /** Solves Xor(z, Shr(z, k)) == y for z, high bits first. */
  function Unshift(y: Word, k: nat): Word
    requires k > 0
    decreases y
  {
    if y == 0 then 0
    else
      ShrSmaller(y, k);
      XorIsWord(y, Unshift(Shr(y, k), k));
      Xor(y, Unshift(Shr(y, k), k))
  }

  lemma {:induction false} ShiftUnshift(y: Word, k: nat)
    requires k > 0
    ensures XorShift(Unshift(y, k), k) == y
    decreases y
  {
    if y == 0 {
      assert Shr(0, k) == 0;
    } else {
      ShrSmaller(y, k);
      var y', u' := Shr(y, k), Unshift(Shr(y, k), k);
      ShiftUnshift(y', k);
      XorShr(y, u', k);
      // Shr(u, k) == Xor(y', Shr(u', k)) and y' == Xor(u', Shr(u', k))
      XorCancels(u', Shr(u', k));
      XorCancels(y, u');
    }
  }

  lemma {:induction false} UnshiftShift(z: Word, k: nat)
    requires k > 0
    ensures Unshift(XorShift(z, k), k) == z
    decreases z
  {
    var z', y := Shr(z, k), XorShift(z, k);
    if z == 0 {
      XorZero(0);
      assert Shr(0, k) == 0;
    } else {
      ShrSmaller(z, k);
      XorSelf(z');
      if y == 0 {
        XorInjective(z, z', z');
      }
      XorShr(z, z', k);
      UnshiftShift(z', k);
      XorCancels(z, z');
    }
  }

  lemma MulInverse(x: Word, c: Word, inv: Word, carry: nat)
    requires c * inv == carry * WORD + 1
    ensures Mul(Mul(x, c), inv) == x
  {
    var q, r := (x * c) / WORD, (x * c) % WORD;
    assert x * c == q * WORD + r;
    assert x * c * inv == x * (c * inv) == x * carry * WORD + x;
    assert (q * WORD + r) * inv == q * inv * WORD + r * inv;
    var n := x * carry - q * inv;
    assert r * inv == n * WORD + x;
    RemainderIs(r * inv, n, x);
  }

  lemma RemainderIs(a: int, n: int, x: Word)
    requires a == n * WORD + x
    ensures a % WORD == x
  {
  }

  /** The inverse of the output function. */
  function Unmix(y: Word): Word {
    Unshift(Mul(Unshift(Mul(Unshift(y, 31), MIX2_INV), 27), MIX1_INV), 30)
  }

  lemma Inverses()
    ensures GAMMA * GAMMA_INV == 10771413168148108919 * WORD + 1
    ensures MIX1 * MIX1_INV == 8125545580553827436 * WORD + 1
    ensures MIX2 * MIX2_INV == 2077064247507883091 * WORD + 1
  {
  }

  /** The output function is a bijection on 64-bit words. */
  lemma MixIsBijective(z: Word)
    ensures Unmix(Mix(z)) == z
    ensures Mix(Unmix(z)) == z
  {
    Inverses();
    var a := Mul(XorShift(z, 30), MIX1);
    var b := Mul(XorShift(a, 27), MIX2);
    UnshiftShift(b, 31);
    MulInverse(XorShift(a, 27), MIX2, MIX2_INV, 2077064247507883091);
    UnshiftShift(a, 27);
    MulInverse(XorShift(z, 30), MIX1, MIX1_INV, 8125545580553827436);
    UnshiftShift(z, 30);

    var c := Unshift(z, 31);
    var d := Unshift(Mul(c, MIX2_INV), 27);
    ShiftUnshift(z, 31);
    MulInverse(c, MIX2_INV, MIX2, 2077064247507883091);
    ShiftUnshift(Mul(c, MIX2_INV), 27);
    MulInverse(d, MIX1_INV, MIX1, 8125545580553827436);
    ShiftUnshift(Mul(d, MIX1_INV), 30);
  }

  /** A draw is the state after it, mixed: the increment comes before the mixing. */
  lemma DrawShowsState(state: Word)
    ensures Unmix(Output(state)) == (state + 0x9E37_79B9_7F4A_7C15) % 0x1_0000_0000_0000_0000
  {
    MixIsBijective(Add(state, GAMMA));
  }

  // ------------------------------------------------------------ the period

  /** The state after `i` draws. */
  function StateAt(seed: Word, i: nat): Word {
    if i == 0 then seed else Add(StateAt(seed, i - 1), GAMMA)
  }

  function Draw(seed: Word, i: nat): Word {
    Output(StateAt(seed, i))
  }

  lemma AddModulo(x: nat, y: Word)
    ensures Add(x % WORD, y) == (x + y) % WORD
  {
  }

  lemma {:induction false} StateAtIs(seed: Word, i: nat)
    ensures StateAt(seed, i) == (seed + i * GAMMA) % WORD
  {
    if i > 0 {
      StateAtIs(seed, i - 1);
      AddModulo(seed + (i - 1) * GAMMA, GAMMA);
      assert seed + i * GAMMA == seed + (i - 1) * GAMMA + GAMMA;
    }
  }

  /** Equal states are a whole number of periods apart, because the increment is odd. */
  lemma SameStateApart(seed: Word, i: nat, j: nat)
    requires i <= j && StateAt(seed, i) == StateAt(seed, j)
    ensures (j - i) % WORD == 0
  {
    StateAtIs(seed, i);
    StateAtIs(seed, j);
    Inverses();
    var d := j - i;
    var a, b := (seed + i * GAMMA) / WORD, (seed + j * GAMMA) / WORD;
    assert d * GAMMA == (b - a) * WORD;
    assert d * GAMMA * GAMMA_INV == (b - a) * WORD * GAMMA_INV == (b - a) * GAMMA_INV * WORD;
    assert d * (GAMMA * GAMMA_INV) == d * 10771413168148108919 * WORD + d;
    var n := (b - a) * GAMMA_INV - d * 10771413168148108919;
    assert d == n * WORD + 0;
    RemainderIs(d, n, 0);
  }

  lemma PeriodReturns(seed: Word, i: nat, n: nat)
    ensures StateAt(seed, i + n * WORD) == StateAt(seed, i)
  {
    var j := i + n * WORD;
    StateAtIs(seed, i);
    StateAtIs(seed, j);
    var q, r := (seed + i * GAMMA) / WORD, StateAt(seed, i);
    assert seed + i * GAMMA == q * WORD + r;
    assert seed + j * GAMMA == (q + n * GAMMA) * WORD + r;
    RemainderIs(seed + j * GAMMA, q + n * GAMMA, r);
  }

  lemma MixInjective(a: Word, b: Word)
    requires Mix(a) == Mix(b)
    ensures a == b
  {
    MixIsBijective(a);
    MixIsBijective(b);
  }

  lemma AddInjective(a: Word, b: Word, c: Word)
    requires Add(a, c) == Add(b, c)
    ensures a == b
  {
  }

  lemma OutputInjective(a: Word, b: Word)
    requires Output(a) == Output(b)
    ensures a == b
  {
    MixInjective(Add(a, GAMMA), Add(b, GAMMA));
    AddInjective(a, b, GAMMA);
  }

  /** From any seed, two draws agree exactly when they are a multiple of 2^64 apart. */
  lemma FullPeriod(seed: Word, i: nat, j: nat)
    requires i <= j
    ensures Draw(seed, i) == Draw(seed, j) <==> (j - i) % WORD == 0
  {
    if Draw(seed, i) == Draw(seed, j) {
      OutputInjective(StateAt(seed, i), StateAt(seed, j));
      SameStateApart(seed, i, j);
    }
    if (j - i) % WORD == 0 {
      var n := (j - i) / WORD;
      assert j == i + n * WORD;
      PeriodReturns(seed, i, n);
    }
  }
}
