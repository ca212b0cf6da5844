/**
  The JavaScript number operations that docs/ios/shardvpn.js uses. A number is modelled as an
  integer that a double holds exactly; every bitwise operator first converts its operands to
  32 bits and, except for >>>, gives a signed result.
 */
module JsNumber {
  import opened Words

  const TWO_53: int := 0x20_0000_0000_0000

  // The integers a double holds exactly. Sums are checked to stay in this type, which is what
  // makes the unbounded `+` below the same as JavaScript's.
  type Exact = n: int | -TWO_53 <= n <= TWO_53

  // What the bitwise operators return: a signed 32-bit result, or for >>> an unsigned one.
  type Num32 = n: Exact | -TWO_31 <= n < TWO_32

  function ToUint32(x: int): Word { x % TWO_32 }

  function ToInt32(x: int): Num32 {
    if ToUint32(x) < TWO_31 then ToUint32(x) else ToUint32(x) - TWO_32
  }

  function BitAnd(x: Exact, y: Exact): Num32 { ToInt32(And(ToUint32(x), ToUint32(y))) }

  function BitOr(x: Exact, y: Exact): Num32 { ToInt32(Or(ToUint32(x), ToUint32(y))) }

  function BitXor(x: Exact, y: Exact): Num32 { ToInt32(Xor(ToUint32(x), ToUint32(y))) }

  function BitNot(x: Exact): Num32 { -1 - ToInt32(x) }

  function LeftShift(x: Exact, n: nat): Num32 { ToInt32(Shl(ToUint32(x), n)) }

  // Only code points are shifted this way, and they are never negative.
  function RightShift(x: Exact, n: nat): Num32
    requires 0 <= x < TWO_31
  {
    Shr(x, n)
  }

  function UnsignedRightShift(x: Exact, n: nat): Num32 { Shr(ToUint32(x), n) }

  /** Signed 32-bit results stand for the same word as the bits they came from. */
  lemma SignedIsSameWord(x: int)
    ensures ToUint32(ToInt32(x)) == ToUint32(x)
  {
  }

  lemma WordIsItself(u: Word)
    ensures ToUint32(u) == u
  {
  }

  lemma BitwiseIsWordOp(x: Exact, y: Exact)
    ensures ToUint32(BitAnd(x, y)) == And(ToUint32(x), ToUint32(y))
    ensures ToUint32(BitOr(x, y)) == Or(ToUint32(x), ToUint32(y))
    ensures ToUint32(BitXor(x, y)) == Xor(ToUint32(x), ToUint32(y))
  {
    hide Bitwise, ToInt32, And, Or, Xor;
    SignedIsSameWord(And(ToUint32(x), ToUint32(y)));
    SignedIsSameWord(Or(ToUint32(x), ToUint32(y)));
    SignedIsSameWord(Xor(ToUint32(x), ToUint32(y)));
  }

  lemma ComplementIsNot(x: Exact)
    ensures ToUint32(BitNot(x)) == Not(ToUint32(x))
  {
  }

  lemma ShiftsAreWordShifts(x: Exact, n: nat)
    ensures ToUint32(UnsignedRightShift(x, n)) == Shr(ToUint32(x), n)
    ensures ToUint32(LeftShift(x, n)) == Shl(ToUint32(x), n)
  {
    SignedIsSameWord(Shl(ToUint32(x), n));
  }

  lemma SumIsWordAdd(x: int, y: int)
    ensures ToUint32(x + y) == Add(ToUint32(x), ToUint32(y))
  {
  }

  /** `(x) | 0` is how the client reduces a sum to 32 bits. */
  lemma OrZeroReduces(x: Exact)
    ensures ToUint32(BitOr(x, 0)) == ToUint32(x)
  {
    hide Bitwise, Pow2;
    var u := ToUint32(x);
    assert Or(u, 0) == u by {
      Pow2Of32();
      OrZero(32, u);
    }
    assert BitOr(x, 0) == ToInt32(u);
    SignedIsSameWord(x);
  }

  // ---- the small cases the encoders use, read as arithmetic ----

  lemma MaskIsMod(x: Exact, k: nat, m: Exact)
    requires k <= 8 && m == Pow2(k)
    ensures 1 <= m <= 256
    ensures BitAnd(x, m - 1) == ToUint32(x) % m
  {
    Pow2Small(k);
    AndMaskIsMod(32, k, ToUint32(x), m);
    AndOfSmall(x, m - 1, ToUint32(x) % m);
  }

  lemma AndOfSmall(x: Exact, y: Exact, r: int)
    requires 0 <= y < 256 && 0 <= r < 256
    requires Bitwise(AndOp, 32, ToUint32(x), y) == r
    ensures BitAnd(x, y) == r
  {
    hide Bitwise;
    WordIsItself(y);
  }

  lemma OrDisjoint(high: nat, k: nat, shift: nat, low: nat)
    requires k <= 8 && shift == Pow2(k) && low < shift
    requires high * shift < 256
    ensures shift <= 256 && BitOr(high * shift, low) == high * shift + low
  {
    hide Bitwise, BitOr, Pow2;
    Pow2Small(k);
    Pow2Of32();
    OrDisjointIsSum(32, k, high, low);
    OrOfSmall(high * shift, low);
  }

  lemma OrOfSmall(x: nat, y: nat)
    requires x < 256 && y < 256
    requires Bitwise(OrOp, 32, x, y) == x + y
    ensures BitOr(x, y) == x + y
  {
    hide Bitwise;
    WordIsItself(x);
    WordIsItself(y);
    WordIsItself(x + y);
  }

  lemma Pow2Small(k: nat)
    requires k <= 8
    ensures Pow2(k) <= 256
  {
    Pow2Monotone(k, 8);
  }
}
