/**
  32-bit words as FIPS 180-4 section 2.2 uses them: numbers below 2^32 with bitwise
  operations, shifts, and addition modulo 2^32. The bitwise operations are defined bit by
  bit, so that no machine word is assumed.
 */
module Words {

  const TWO_31: int := 0x8000_0000
  const TWO_32: int := 0x1_0000_0000

  type Word = n: nat | n < TWO_32
  type Byte = n: nat | n < 256

  function Pow2(n: nat): (p: nat)
    ensures p >= 1
  {
    if n == 0 then 1 else 2 * Pow2(n - 1)
  }

  lemma {:induction false} Pow2Monotone(k: nat, n: nat)
    requires k <= n
    ensures Pow2(k) <= Pow2(n)
  {
    if k < n {
      Pow2Monotone(k, n - 1);
    }
  }

  datatype BitOp = AndOp | OrOp | XorOp

  predicate OnBits(op: BitOp, a: bool, b: bool) {
    match op
    case AndOp => a && b
    case OrOp => a || b
    case XorOp => a != b
  }

  // The `n` low bits of `x` and `y`, combined position by position.
  function Bitwise(op: BitOp, n: nat, x: nat, y: nat): (r: nat)
    ensures r < Pow2(n)
  {
    if n == 0 then 0
    else (if OnBits(op, x % 2 == 1, y % 2 == 1) then 1 else 0) + 2 * Bitwise(op, n - 1, x / 2, y / 2)
  }

  lemma Pow2Of32()
    ensures Pow2(8) == 0x100 && Pow2(16) == 0x1_0000 && Pow2(24) == 0x100_0000 && Pow2(32) == TWO_32
  {
    assert Pow2(8) == 0x100;
    assert Pow2(16) == 0x1_0000;
    assert Pow2(24) == 0x100_0000;
  }

  function And(x: Word, y: Word): Word { Pow2Of32(); Bitwise(AndOp, 32, x, y) }

  function Or(x: Word, y: Word): Word { Pow2Of32(); Bitwise(OrOp, 32, x, y) }

  function Xor(x: Word, y: Word): Word { Pow2Of32(); Bitwise(XorOp, 32, x, y) }

  function Not(x: Word): Word { TWO_32 - 1 - x }

  function Add(x: Word, y: Word): Word { (x + y) % TWO_32 }

  // One place at a time; bits that leave the word are dropped.
  function Shl(x: Word, n: nat): Word {
    if n == 0 then x else (2 * Shl(x, n - 1)) % TWO_32
  }

  function Shr(x: Word, n: nat): Word {
    if n == 0 then x else Shr(x, n - 1) / 2
  }

  function Rotr(x: Word, n: nat): Word
    requires n < 32
  {
    Or(Shr(x, n), Shl(x, 32 - n))
  }

  // ---- what the bitwise operations mean arithmetically ----

  lemma {:induction false} ShlIsProduct(x: Word, n: nat)
    requires x * Pow2(n) < TWO_32
    ensures Shl(x, n) == x * Pow2(n)
  {
    if n > 0 {
      assert x * Pow2(n) == 2 * (x * Pow2(n - 1));
      ShlIsProduct(x, n - 1);
    }
  }

  lemma {:induction false} ShrInTwoSteps(x: Word, n: nat, m: nat)
    ensures Shr(x, n + m) == Shr(Shr(x, n), m)
  {
    if m > 0 {
      ShrInTwoSteps(x, n, m - 1);
    }
  }

  lemma ShrByBytes(x: Word)
    ensures Shr(x, 8) == x / 0x100 && Shr(x, 16) == x / 0x1_0000 && Shr(x, 24) == x / 0x100_0000
  {
    ShrByOneByte(x);
    ShrByOneByte(x / 0x100);
    ShrByOneByte(x / 0x1_0000);
    ShrInTwoSteps(x, 8, 8);
    ShrInTwoSteps(x, 16, 8);
  }

  lemma ShrByOneByte(x: Word)
    ensures Shr(x, 8) == x / 0x100
  {
    ShrByTwo(x, 0);
    ShrByTwo(x, 2);
    ShrByTwo(x, 4);
    ShrByTwo(x, 6);
  }

  lemma ShrByTwo(x: Word, n: nat)
    ensures Shr(x, n + 2) == Shr(x, n) / 4
  {
  }

  /** A mask of low ones keeps the remainder. */
  lemma {:induction false} AndMaskIsMod(n: nat, k: nat, x: nat, m: nat)
    requires k <= n && m == Pow2(k)
    ensures Bitwise(AndOp, n, x, m - 1) == x % m
  {
    if k == 0 {
      AndZero(n, x);
    } else {
      var half := Pow2(k - 1);
      assert m - 1 == 2 * (half - 1) + 1;
      AndOddStep(n, x, half - 1);
      AndMaskIsMod(n - 1, k - 1, x / 2, half);
      ModTwice(x, half);
    }
  }

  lemma AndOddStep(n: nat, x: nat, half: nat)
    requires n > 0
    ensures Bitwise(AndOp, n, x, 2 * half + 1) == x % 2 + 2 * Bitwise(AndOp, n - 1, x / 2, half)
  {
    assert (2 * half + 1) / 2 == half;
  }

  lemma {:induction false} AndZero(n: nat, x: nat)
    ensures Bitwise(AndOp, n, x, 0) == 0
  {
    if n > 0 {
      AndZero(n - 1, x / 2);
    }
  }

  lemma ModTwice(x: nat, m: nat)
    requires m >= 1
    ensures x % (2 * m) == x % 2 + 2 * ((x / 2) % m)
  {
    var h := x / 2;
    var q, r := h / m, h % m;
    assert x == 2 * (q * m + r) + x % 2;
    assert x == (2 * m) * q + (x % 2 + 2 * r);
    DivModUnique(x, 2 * m, q, x % 2 + 2 * r);
  }

  lemma DivModUnique(x: int, d: nat, q: int, r: nat)
    requires 0 <= r < d && x == d * q + r
    ensures x / d == q && x % d == r
  {
    var e := x / d - q;
    assert x % d - r == -(d * e) by {
      assert x == d * (x / d) + x % d;
    }
    if e >= 1 {
      MulAtLeast(d, e);
    } else if e <= -1 {
      MulAtLeast(d, -e);
    }
  }

  lemma MulAtLeast(d: int, e: int)
    requires d >= 0 && e >= 1
    ensures d * e >= d
    ensures d * -e <= -d
  {
  }

  /** Bits that do not overlap add up: a multiple of 2^k, and something below 2^k. */
  lemma {:induction false} OrDisjointIsSum(n: nat, k: nat, high: nat, low: nat)
    requires k <= n
    requires high * Pow2(k) < Pow2(n) && low < Pow2(k)
    ensures Bitwise(OrOp, n, high * Pow2(k), low) == high * Pow2(k) + low
  {
    if k == 0 {
      OrZero(n, high);
    } else {
      var rest := high * Pow2(k - 1);
      assert high * Pow2(k) == 2 * rest;
      OrDisjointIsSum(n - 1, k - 1, high, low / 2);
    }
  }

  lemma {:induction false} OrZero(n: nat, x: nat)
    requires x < Pow2(n)
    ensures Bitwise(OrOp, n, x, 0) == x
  {
    if n > 0 {
      OrZero(n - 1, x / 2);
    }
  }
}
