/**
 * The first draw and the first operation of the reference seed, worked out digit by digit. Whatever else
 * the constants and shift distances of the generator might be, they are these.
 */
module ReferenceSeed {
  import opened Words
  import opened Orders
  import opened SplitMix
  import opened Workload

  /**
   * Two numbers and their xor: a high part that the second does not reach, then hexadecimal digits, given
   * by the binary digits of the one and of the other.
   */
  datatype Sum =
    | Above(high: nat)
    | Digit(above: Sum, x8: nat, x4: nat, x2: nat, x1: nat, y8: nat, y4: nat, y2: nat, y1: nat)

  function Left(s: Sum): nat {
    if s.Above? then s.high else 16 * Left(s.above) + 8 * s.x8 + 4 * s.x4 + 2 * s.x2 + s.x1
  }

  function Right(s: Sum): nat {
    if s.Above? then 0 else 16 * Right(s.above) + 8 * s.y8 + 4 * s.y4 + 2 * s.y2 + s.y1
  }

  function Differ(x: nat, y: nat): nat {
    if x == y then 0 else 1
  }

  function Total(s: Sum): nat {
    if s.Above? then s.high
    else 16 * Total(s.above) +
         8 * Differ(s.x8, s.y8) + 4 * Differ(s.x4, s.y4) + 2 * Differ(s.x2, s.y2) + Differ(s.x1, s.y1)
  }

  predicate IsSum(s: Sum) {
    s.Above? ||
    (IsSum(s.above) && s.x8 < 2 && s.x4 < 2 && s.x2 < 2 && s.x1 < 2 && s.y8 < 2 && s.y4 < 2 && s.y2 < 2 && s.y1 < 2)
  }

  lemma XorBit(a: nat, b: nat, u: nat, x: nat, y: nat) returns (p: nat, q: nat, v: nat)
    requires Xor(a, b) == u && x < 2 && y < 2
    ensures p == 2 * a + x && q == 2 * b + y && v == 2 * u + Differ(x, y) && Xor(p, q) == v
  {
    p, q, v := 2 * a + x, 2 * b + y, 2 * u + Differ(x, y);
    Halves(a, b, x, y);
    XorOfHalves(p, q, a, b, Differ(x, y));
  }

  lemma Halves(a: nat, b: nat, x: nat, y: nat)
    requires x < 2 && y < 2
    ensures (2 * a + x) / 2 == a && (2 * b + y) / 2 == b && (2 * a + x + (2 * b + y)) % 2 == Differ(x, y)
  {
  }

  lemma XorOfHalves(p: nat, q: nat, a: nat, b: nat, d: nat)
    requires p / 2 == a && q / 2 == b && (p + q) % 2 == d
    ensures Xor(p, q) == 2 * Xor(a, b) + d
  {
    XorSplits(p, q);
  }

  lemma {:induction false} XorOfSum(s: Sum) returns (p: nat, q: nat, u: nat)
    requires IsSum(s)
    ensures p == Left(s) && q == Right(s) && u == Total(s) && Xor(p, q) == u
  {
    if s.Above? {
      p, q, u := s.high, 0, s.high;
      XorZero(s.high);
    } else {
      p, q, u := XorOfSum(s.above);
      p, q, u := XorBit(p, q, u, s.x8, s.y8);
      p, q, u := XorBit(p, q, u, s.x4, s.y4);
      p, q, u := XorBit(p, q, u, s.x2, s.y2);
      p, q, u := XorBit(p, q, u, s.x1, s.y1);
    }
  }

  lemma Next(above: Sum, x8: nat, x4: nat, x2: nat, x1: nat, y8: nat, y4: nat, y2: nat, y1: nat) returns (s: Sum)
    requires IsSum(above)
    requires x8 < 2 && x4 < 2 && x2 < 2 && x1 < 2 && y8 < 2 && y4 < 2 && y2 < 2 && y1 < 2
    ensures IsSum(s)
    ensures Left(s) == 16 * Left(above) + 8 * x8 + 4 * x4 + 2 * x2 + x1
    ensures Right(s) == 16 * Right(above) + 8 * y8 + 4 * y4 + 2 * y2 + y1
    ensures Total(s) == 16 * Total(above) +
                        8 * Differ(x8, y8) + 4 * Differ(x4, y4) + 2 * Differ(x2, y2) + Differ(x1, y1)
  {
    s := Digit(above, x8, x4, x2, x1, y8, y4, y2, y1);
  }

  lemma ShiftIs(z: Word, k: nat, s: Sum)
    requires IsSum(s) && z == Left(s) && Shr(z, k) == Right(s)
    ensures XorShift(z, k) == Total(s)
  {
    var p, q, u := XorOfSum(s);
  }

  lemma FirstHigh() returns (s: Sum)
    ensures IsSum(s) && Left(s) == 0x9E3779B97F4 && Right(s) == 0x278D && Total(s) == 0x9E3779BB079
  {
    s := Above(0x9E3779B);
    s := Next(s, 1, 0, 0, 1, 0, 0, 1, 0);
    s := Next(s, 0, 1, 1, 1, 0, 1, 1, 1);
    s := Next(s, 1, 1, 1, 1, 1, 0, 0, 0);
    s := Next(s, 0, 1, 0, 0, 1, 1, 0, 1);
  }

  lemma FirstLow() returns (s: Sum)
    ensures IsSum(s) && Left(s) == 0x9E3779B97F4A7C && Right(s) == 0x278DDE6 && Total(s) == 0x9E3779BB07979A
  {
    s := FirstHigh();
    s := Next(s, 1, 0, 1, 0, 1, 1, 0, 1);
    s := Next(s, 0, 1, 1, 1, 1, 1, 1, 0);
    s := Next(s, 1, 1, 0, 0, 0, 1, 1, 0);
  }

  lemma FirstSum() returns (s: Sum)
    ensures IsSum(s) && Left(s) == 0x9E3779B97F4A7C3F && Right(s) == 0x278DDE6E5 && Total(s) == 0x9E3779BB07979ADA
  {
    s := FirstLow();
    s := Next(s, 0, 0, 1, 1, 1, 1, 1, 0);
    s := Next(s, 1, 1, 1, 1, 0, 1, 0, 1);
  }

  lemma FirstShift(z: Word, k: nat) returns (r: Word)
    requires z == 0x9E3779B97F4A7C3F && k == 30
    ensures XorShift(z, k) == r == 0x9E3779BB07979ADA
  {
    var s := FirstSum();
    ShiftsBy30(z, k, 0x278DDE6E5);
    ShiftIs(z, k, s);
    r := Total(s);
  }

  lemma SecondHigh() returns (s: Sum)
    ensures IsSum(s) && Left(s) == 0xFDD202BADC && Right(s) == 0x1FBA && Total(s) == 0xFDD202A566
  {
    s := Above(0xFDD202);
    s := Next(s, 1, 0, 1, 1, 0, 0, 0, 1);
    s := Next(s, 1, 0, 1, 0, 1, 1, 1, 1);
    s := Next(s, 1, 1, 0, 1, 1, 0, 1, 1);
    s := Next(s, 1, 1, 0, 0, 1, 0, 1, 0);
  }

  lemma SecondLow() returns (s: Sum)
    ensures IsSum(s) && Left(s) == 0xFDD202BADC3BE && Right(s) == 0x1FBA405 && Total(s) == 0xFDD202A5667BB
  {
    s := SecondHigh();
    s := Next(s, 0, 0, 1, 1, 0, 1, 0, 0);
    s := Next(s, 1, 0, 1, 1, 0, 0, 0, 0);
    s := Next(s, 1, 1, 1, 0, 0, 1, 0, 1);
  }

  lemma SecondSum() returns (s: Sum)
    ensures IsSum(s) && Left(s) == 0xFDD202BADC3BE98A && Right(s) == 0x1FBA40575B && Total(s) == 0xFDD202A5667BBED1
  {
    s := SecondLow();
    s := Next(s, 1, 0, 0, 1, 0, 1, 1, 1);
    s := Next(s, 1, 0, 0, 0, 0, 1, 0, 1);
    s := Next(s, 1, 0, 1, 0, 1, 0, 1, 1);
  }

  lemma SecondShift(z: Word, k: nat) returns (r: Word)
    requires z == 0xFDD202BADC3BE98A && k == 27
    ensures XorShift(z, k) == r == 0xFDD202A5667BBED1
  {
    var s := SecondSum();
    ShiftsBy27(z, k, 0x1FBA40575B);
    ShiftIs(z, k, s);
    r := Total(s);
  }

  lemma ThirdHigh() returns (s: Sum)
    ensures IsSum(s) && Left(s) == 0xBDD73227544 && Right(s) == 0x17BA && Total(s) == 0xBDD732262FE
  {
    s := Above(0xBDD7322);
    s := Next(s, 0, 1, 1, 1, 0, 0, 0, 1);
    s := Next(s, 0, 1, 0, 1, 0, 1, 1, 1);
    s := Next(s, 0, 1, 0, 0, 1, 0, 1, 1);
    s := Next(s, 0, 1, 0, 0, 1, 0, 1, 0);
  }

  lemma ThirdLow() returns (s: Sum)
    ensures IsSum(s) && Left(s) == 0xBDD7322754450A && Right(s) == 0x17BAE64 && Total(s) == 0xBDD732262FEB6E
  {
    s := ThirdHigh();
    s := Next(s, 0, 1, 0, 1, 1, 1, 1, 0);
    s := Next(s, 0, 0, 0, 0, 0, 1, 1, 0);
    s := Next(s, 1, 0, 1, 0, 0, 1, 0, 0);
  }

  lemma ThirdSum() returns (s: Sum)
    ensures IsSum(s) && Left(s) == 0xBDD7322754450ADB && Right(s) == 0x17BAE644E && Total(s) == 0xBDD732262FEB6E95
  {
    s := ThirdLow();
    s := Next(s, 1, 1, 0, 1, 0, 1, 0, 0);
    s := Next(s, 1, 0, 1, 1, 1, 1, 1, 0);
  }

  lemma ThirdShift(z: Word, k: nat) returns (r: Word)
    requires z == 0xBDD7322754450ADB && k == 31
    ensures XorShift(z, k) == r == 0xBDD732262FEB6E95
  {
    var s := ThirdSum();
    ShiftsBy31(z, k, 0x17BAE644E);
    ShiftIs(z, k, s);
    r := Total(s);
  }

  lemma ShiftsBy30(a: Word, k: nat, q: nat)
    requires k == 30 && a / 0x40000000 == q
    ensures Shr(a, k) == q
  {
    assert Pow2(8) == 0x100 && Pow2(6) == 0x40;
    Pow2Adds(8, 8);
    Pow2Adds(16, 8);
    Pow2Adds(24, 6);
  }

  lemma ShiftsBy27(a: Word, k: nat, q: nat)
    requires k == 27 && a / 0x8000000 == q
    ensures Shr(a, k) == q
  {
    assert Pow2(8) == 0x100 && Pow2(3) == 0x8;
    Pow2Adds(8, 8);
    Pow2Adds(16, 8);
    Pow2Adds(24, 3);
  }

  lemma ShiftsBy31(a: Word, k: nat, q: nat)
    requires k == 31 && a / 0x80000000 == q
    ensures Shr(a, k) == q
  {
    assert Pow2(8) == 0x100 && Pow2(7) == 0x80;
    Pow2Adds(8, 8);
    Pow2Adds(16, 8);
    Pow2Adds(24, 7);
  }

  lemma FirstProduct(x: Word)
    requires x == 0x9E3779BB07979ADA
    ensures Mul(x, MIX1) == 0xFDD202BADC3BE98A
  {
    assert 0x9E3779BB07979ADA * MIX1 == 0x7641F3093531F515 * WORD + 0xFDD202BADC3BE98A;
    RemainderIs(x * MIX1, 0x7641F3093531F515, 0xFDD202BADC3BE98A);
  }

  lemma SecondProduct(y: Word)
    requires y == 0xFDD202A5667BBED1
    ensures Mul(y, MIX2) == 0xBDD7322754450ADB
  {
    assert 0xFDD202A5667BBED1 * MIX2 == 0x938BED4423D3250F * WORD + 0xBDD7322754450ADB;
    RemainderIs(y * MIX2, 0x938BED4423D3250F, 0xBDD7322754450ADB);
  }

  lemma MixIs(z: Word, x: Word, y: Word, r: Word)
    requires x == XorShift(z, 30) && y == XorShift(Mul(x, MIX1), 27) && r == XorShift(Mul(y, MIX2), 31)
    ensures Mix(z) == r
  {
  }

  lemma MixSeed(z: Word) returns (r: Word)
    requires z == 0x9E3779B97F4A7C3F
    ensures Mix(z) == r == 0xBDD732262FEB6E95
  {
    var x := FirstShift(z, 30);
    FirstProduct(x);
    var y := SecondShift(Mul(x, MIX1), 27);
    SecondProduct(y);
    r := ThirdShift(Mul(y, MIX2), 31);
    MixIs(z, x, y, r);
  }

  lemma DrawIs(seed: Word, z: Word)
    requires z == Add(seed, GAMMA)
    ensures Draw(seed, 0) == Mix(z)
  {
  }

  /** The first draw from the reference seed. */
  lemma FirstDraw(seed: Word) returns (r: Word)
    requires seed == 42
    ensures Draw(seed, 0) == r == 0xBDD732262FEB6E95
  {
    r := MixSeed(Add(seed, GAMMA));
    DrawIs(seed, Add(seed, GAMMA));
  }

  /** The first operation from the reference seed: a bid for 3 at 980 under id 1, 20 below the mid. */
  lemma FirstOperation(seed: Word, n: nat)
    requires seed == 42 && n > 0
    ensures Stream(seed, n)[0] == LimitOp(Bid, 980, 3, 1)
  {
    var r := FirstDraw(seed);
    StreamFollows(seed, n, 0);
    DrawDecides(r, After(seed, 1).mid, After(seed, 1).lastId, Stream(seed, n)[0]);
  }

  lemma DrawParts(r: Word)
    requires r == 0xBDD732262FEB6E95
    ensures r % 7 == 5 && r % 100 == 13
    ensures r / 0x1_0000 % 20 == 19 && r / 0x1_0000_0000 % 100 == 2
  {
  }

  lemma PartsDecide(r: Word, mid: int, lastId: Word, op: Op)
    requires Follows(1000, 0, r, mid, lastId, op) && Bit(r, 8) == 0 && r % 7 == 5 && r % 100 == 13
    requires r / 0x1_0000 % 20 == 19 && r / 0x1_0000_0000 % 100 == 2
    ensures op == LimitOp(Bid, 980, 3, 1)
  {
  }

  lemma DrawDecides(r: Word, mid: int, lastId: Word, op: Op)
    requires r == 0xBDD732262FEB6E95 && Follows(1000, 0, r, mid, lastId, op)
    ensures op == LimitOp(Bid, 980, 3, 1)
  {
    EighthBit(r);
    DrawParts(r);
    PartsDecide(r, mid, lastId, op);
  }

  lemma EighthBit(r: Word)
    requires r == 0xBDD732262FEB6E95
    ensures Bit(r, 8) == 0
  {
    ShrBitwise(r, 8, 0);
    Pow2Values();
    assert Shr(r, 8) == r / 0x100;
  }
}
