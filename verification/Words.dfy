/** 64-bit words as numbers below 2^64, with the bitwise operators the engines use. */
module Words {
  const WORD: nat := 0x1_0000_0000_0000_0000

  type Word = x: nat | x < WORD

  function Pow2(k: nat): (r: nat)
    ensures r > 0
  {
    if k == 0 then 1 else 2 * Pow2(k - 1)
  }

  /** A value cast to an unsigned 64-bit word; negative values wrap. */
  function ToWord(x: int): Word { x % WORD }

  function Add(a: Word, b: Word): Word { (a + b) % WORD }

  lemma AddWraps(a: int, b: int)
    ensures Add(ToWord(a), ToWord(b)) == ToWord(a + b)
  {
  }

  function Mul(a: Word, b: Word): Word { (a * b) % WORD }

  function Xor(a: nat, b: nat): nat
    decreases a + b
  {
    if a == 0 && b == 0 then 0 else (a + b) % 2 + 2 * Xor(a / 2, b / 2)
  }

  function And(a: nat, b: nat): nat
    decreases a + b
  {
    if a == 0 && b == 0 then 0 else BitAnd(a % 2, b % 2) + 2 * And(a / 2, b / 2)
  }

  function BitAnd(x: nat, y: nat): nat { if x == 1 && y == 1 then 1 else 0 }

  function Shr(a: nat, k: nat): (r: nat)
    ensures r <= a
  {
    DivLeq(a, Pow2(k));
    a / Pow2(k)
  }

  function Shl(a: Word, k: nat): Word { (a * Pow2(k)) % WORD }

  lemma MulAtLeast(x: nat, d: nat)
    requires x >= 1
    ensures x * d >= d
  {
  }

  lemma DivLeq(a: nat, d: nat)
    requires d > 0
    ensures 0 <= a / d <= a
  {
    var q := a / d;
    assert a == q * d + a % d;
    MulGrows(q, d);
  }

  lemma MulGrows(q: int, d: nat)
    requires d > 0
    ensures q >= 0 ==> q * d >= q
    ensures q < 0 ==> q * d < 0
  {
  }

  // ------------------------------------------------------------ bit by bit

  function Bit(a: nat, i: nat): nat {
    if i == 0 then a % 2 else Bit(a / 2, i - 1)
  }

  /** Xor acts on each bit alone. */
  lemma {:induction false} XorBitwise(a: nat, b: nat, i: nat)
    ensures Bit(Xor(a, b), i) == (Bit(a, i) + Bit(b, i)) % 2
  {
    XorHalf(a, b);
    if i == 0 {
      ParityOfSum(a, b);
    } else {
      XorBitwise(a / 2, b / 2, i - 1);
    }
  }

  lemma ParityOfSum(a: nat, b: nat)
    ensures (a % 2 + b % 2) % 2 == (a + b) % 2
  {
  }

  /** And acts on each bit alone. */
  lemma {:induction false} AndBitwise(a: nat, b: nat, i: nat)
    ensures Bit(And(a, b), i) == BitAnd(Bit(a, i), Bit(b, i))
  {
    AndHalf(a, b);
    if i > 0 {
      AndBitwise(a / 2, b / 2, i - 1);
    }
  }

  lemma XorHalf(a: nat, b: nat)
    ensures Xor(a, b) / 2 == Xor(a / 2, b / 2) && Xor(a, b) % 2 == (a + b) % 2
  {
    var x := Xor(a / 2, b / 2);
    assert ((a + b) % 2 + 2 * x) / 2 == x;
  }

  lemma AndHalf(a: nat, b: nat)
    ensures And(a, b) / 2 == And(a / 2, b / 2) && And(a, b) % 2 == BitAnd(a % 2, b % 2)
  {
    var x, y := And(a / 2, b / 2), BitAnd(a % 2, b % 2);
    assert And(a, b) == y + 2 * x;
    assert (y + 2 * x) / 2 == x;
  }

  lemma {:induction false} XorCommutes(a: nat, b: nat)
    ensures Xor(a, b) == Xor(b, a)
    decreases a + b
  {
    if a != 0 || b != 0 {
      XorCommutes(a / 2, b / 2);
    }
  }

  lemma {:induction false} XorZero(a: nat)
    ensures Xor(a, 0) == a && Xor(0, a) == a
  {
    if a != 0 {
      XorZero(a / 2);
    }
  }

  lemma {:induction false} XorSelf(a: nat)
    ensures Xor(a, a) == 0
  {
    if a != 0 {
      XorSelf(a / 2);
    }
  }

  /** Xor with the same word twice gives the first word back. */
  lemma {:induction false} XorCancels(a: nat, b: nat)
    ensures Xor(Xor(a, b), b) == a
    decreases a + b
  {
    if a != 0 || b != 0 {
      var x := Xor(a, b);
      XorHalf(a, b);
      XorCancels(a / 2, b / 2);
      XorHalf(x, b);
      ParityCancels(a, b, x);
      HalvesDetermine(Xor(x, b), a);
    }
  }

  lemma ParityCancels(a: nat, b: nat, x: nat)
    requires x % 2 == (a + b) % 2
    ensures (x + b) % 2 == a % 2
  {
  }

  lemma HalvesDetermine(a: nat, b: nat)
    requires a / 2 == b / 2 && a % 2 == b % 2
    ensures a == b
  {
  }

  lemma XorInjective(a: nat, b: nat, c: nat)
    requires Xor(a, c) == Xor(b, c) || Xor(c, a) == Xor(c, b)
    ensures a == b
  {
    XorCommutes(a, c);
    XorCommutes(b, c);
    XorCancels(a, c);
    XorCancels(b, c);
  }

  lemma {:induction false} XorBound(a: nat, b: nat, k: nat)
    requires a < Pow2(k) && b < Pow2(k)
    ensures Xor(a, b) < Pow2(k)
  {
    if k > 0 {
      XorBound(a / 2, b / 2, k - 1);
      XorHalf(a, b);
    }
  }

  lemma Pow2Of64()
    ensures Pow2(64) == WORD
  {
    assert Pow2(8) == 256;
    Pow2Adds(8, 8);
    Pow2Adds(16, 16);
    Pow2Adds(32, 32);
  }

  lemma {:induction false} Pow2Adds(a: nat, b: nat)
    ensures Pow2(a + b) == Pow2(a) * Pow2(b)
  {
    if a > 0 {
      Pow2Adds(a - 1, b);
    }
  }

  /** The bitwise difference of two words is a word. */
  lemma XorIsWord(a: Word, b: Word)
    ensures Xor(a, b) < WORD
  {
    Pow2Of64();
    XorBound(a, b, 64);
  }

  lemma DivHalf(a: nat, d: nat)
    requires d > 0
    ensures a / (2 * d) == (a / 2) / d
  {
    var q, r := (a / 2) / d, (a / 2) % d;
    assert a / 2 == q * d + r;
    assert a == q * (2 * d) + (2 * r + a % 2);
    QuotientIs(a, 2 * d, q, 2 * r + a % 2);
  }

  lemma QuotientIs(a: nat, d: nat, q: nat, r: nat)
    requires a == q * d + r && r < d
    ensures a / d == q && a % d == r
  {
    var q1, r1 := a / d, a % d;
    assert a == q1 * d + r1;
    assert (q1 - q) * d == r - r1;
    assert (q - q1) * d == r1 - r;
    if q1 > q {
      MulAtLeast(q1 - q, d);
    } else if q1 < q {
      MulAtLeast(q - q1, d);
    }
  }

  /** The powers of two that the shifts of the generator and of the checksum stand for. */
  lemma Pow2Values()
    ensures Pow2(8) == 0x100 && Pow2(16) == 0x1_0000 && Pow2(20) == 0x10_0000
    ensures Pow2(32) == 0x1_0000_0000 && Pow2(40) == 0x100_0000_0000
  {
    assert Pow2(4) == 16 && Pow2(8) == 256;
    Pow2Adds(8, 8);
    Pow2Adds(16, 4);
    Pow2Adds(16, 16);
    Pow2Adds(32, 8);
  }

  lemma NoShift(a: nat)
    ensures Shr(a, 0) == a
  {
  }

  lemma ShrHalf(a: nat, k: nat)
    requires k > 0
    ensures Shr(a, k) == Shr(a / 2, k - 1)
  {
    DivHalf(a, Pow2(k - 1));
  }

  /** A right shift by `k` moves every bit down by `k` places. */
  lemma {:induction false} ShrBitwise(a: nat, k: nat, i: nat)
    ensures Bit(Shr(a, k), i) == Bit(a, i + k)
  {
    if k > 0 {
      ShrHalf(a, k);
      ShrBitwise(a / 2, k - 1, i);
    }
  }

  lemma XorSplits(a: nat, b: nat)
    ensures Xor(a, b) == (a + b) % 2 + 2 * Xor(a / 2, b / 2)
  {
  }

  lemma XorShrStep(a: nat, b: nat, x: nat, k: nat)
    requires k > 0 && x / 2 == Xor(a / 2, b / 2)
    requires Shr(Xor(a / 2, b / 2), k - 1) == Xor(Shr(a / 2, k - 1), Shr(b / 2, k - 1))
    ensures Shr(x, k) == Xor(Shr(a, k), Shr(b, k))
  {
    ShrHalf(a, k);
    ShrHalf(b, k);
    ShrHalf(x, k);
  }

  /** Shifting right distributes over xor. */
  lemma {:induction false} XorShr(a: nat, b: nat, k: nat)
    ensures Shr(Xor(a, b), k) == Xor(Shr(a, k), Shr(b, k))
  {
    if k == 0 {
      NoShift(a);
      NoShift(b);
      NoShift(Xor(a, b));
    } else {
      XorHalf(a, b);
      XorShr(a / 2, b / 2, k - 1);
      XorShrStep(a, b, Xor(a, b), k);
    }
  }

  lemma {:induction false} AndZero(a: nat)
    ensures And(a, 0) == 0
  {
    if a != 0 {
      AndZero(a / 2);
    }
  }

  /** Masking with an all-ones word is the remainder by a power of two. */
  lemma {:induction false} MaskIsRemainder(a: nat, k: nat)
    ensures And(a, Pow2(k) - 1) == a % Pow2(k)
  {
    if k == 0 {
      AndZero(a);
    } else {
      MaskIsRemainder(a / 2, k - 1);
      MaskStep(a, Pow2(k - 1), Pow2(k));
    }
  }

  lemma RemainderStep(a: nat, d: nat, m: nat)
    requires d > 0 && m == 2 * d
    ensures a % m == a % 2 + 2 * ((a / 2) % d)
  {
    var q, r := (a / 2) / d, (a / 2) % d;
    assert a / 2 == q * d + r;
    assert q * m == 2 * (q * d);
    QuotientIs(a, m, q, 2 * r + a % 2);
  }

  lemma MaskStep(a: nat, d: nat, m: nat)
    requires d > 0 && m == 2 * d && And(a / 2, d - 1) == (a / 2) % d
    ensures And(a, m - 1) == a % m
  {
    AndOdd(a, d - 1);
    RemainderStep(a, d, m);
  }

  lemma AndOdd(a: nat, n: nat)
    ensures And(a, 2 * n + 1) == a % 2 + 2 * And(a / 2, n)
  {
    var m := 2 * n + 1;
    assert m / 2 == n && m % 2 == 1;
    assert And(a, m) == BitAnd(a % 2, m % 2) + 2 * And(a / 2, m / 2);
  }
}
