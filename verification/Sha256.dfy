/** The SHA-256 vendored in docs/ios/shardvpn.js, refining the standard. */
module Sha256 {
  import opened Words
  import opened JsNumber
  import Fips180

  // docs/ios/shardvpn.js:55
  function RotateRight(x: Exact, n: nat): Num32
    requires n < 32
  {
    BitOr(UnsignedRightShift(x, n), LeftShift(x, 32 - n))
  }

  // ---- each JavaScript expression stands for the word the standard names ----

  lemma RotateRightIsRotr(x: Exact, n: nat)
    requires n < 32
    ensures ToUint32(RotateRight(x, n)) == Rotr(ToUint32(x), n)
  {
    ShiftsAreWordShifts(x, n);
    ShiftsAreWordShifts(x, 32 - n);
    BitwiseIsWordOp(UnsignedRightShift(x, n), LeftShift(x, 32 - n));
  }

  lemma XorOfThree(x: Exact, y: Exact, z: Exact)
    ensures ToUint32(BitXor(BitXor(x, y), z)) == Xor(Xor(ToUint32(x), ToUint32(y)), ToUint32(z))
  {
    BitwiseIsWordOp(x, y);
    BitwiseIsWordOp(BitXor(x, y), z);
  }

  function ScheduleSigma0(x: Exact): Num32 {
    BitXor(BitXor(RotateRight(x, 7), RotateRight(x, 18)), UnsignedRightShift(x, 3))
  }

  function ScheduleSigma1(x: Exact): Num32 {
    BitXor(BitXor(RotateRight(x, 17), RotateRight(x, 19)), UnsignedRightShift(x, 10))
  }

  lemma ScheduleSigmasAreStandard(x: Exact)
    ensures ToUint32(ScheduleSigma0(x)) == Fips180.SmallSigma0(ToUint32(x))
    ensures ToUint32(ScheduleSigma1(x)) == Fips180.SmallSigma1(ToUint32(x))
  {
    ShiftsAreWordShifts(x, 3);
    ShiftsAreWordShifts(x, 10);
    RotateRightIsRotr(x, 7);
    RotateRightIsRotr(x, 18);
    RotateRightIsRotr(x, 17);
    RotateRightIsRotr(x, 19);
    XorOfThree(RotateRight(x, 7), RotateRight(x, 18), UnsignedRightShift(x, 3));
    XorOfThree(RotateRight(x, 17), RotateRight(x, 19), UnsignedRightShift(x, 10));
  }

  function RoundSigma0(a: Exact): Num32 {
    BitXor(BitXor(RotateRight(a, 2), RotateRight(a, 13)), RotateRight(a, 22))
  }

  function RoundSigma1(e: Exact): Num32 {
    BitXor(BitXor(RotateRight(e, 6), RotateRight(e, 11)), RotateRight(e, 25))
  }

  function Choose(e: Exact, f: Exact, g: Exact): Num32 {
    BitXor(BitAnd(e, f), BitAnd(BitNot(e), g))
  }

  function Majority(a: Exact, b: Exact, c: Exact): Num32 {
    BitXor(BitXor(BitAnd(a, b), BitAnd(a, c)), BitAnd(b, c))
  }

  lemma RoundSigmasAreStandard(x: Exact)
    ensures ToUint32(RoundSigma0(x)) == Fips180.BigSigma0(ToUint32(x))
    ensures ToUint32(RoundSigma1(x)) == Fips180.BigSigma1(ToUint32(x))
  {
    RotateRightIsRotr(x, 2);
    RotateRightIsRotr(x, 13);
    RotateRightIsRotr(x, 22);
    RotateRightIsRotr(x, 6);
    RotateRightIsRotr(x, 11);
    RotateRightIsRotr(x, 25);
    XorOfThree(RotateRight(x, 2), RotateRight(x, 13), RotateRight(x, 22));
    XorOfThree(RotateRight(x, 6), RotateRight(x, 11), RotateRight(x, 25));
  }

  lemma ChoiceAndMajorityAreStandard(x: Exact, y: Exact, z: Exact)
    ensures ToUint32(Choose(x, y, z)) == Fips180.Ch(ToUint32(x), ToUint32(y), ToUint32(z))
    ensures ToUint32(Majority(x, y, z)) == Fips180.Maj(ToUint32(x), ToUint32(y), ToUint32(z))
  {
    ComplementIsNot(x);
    BitwiseIsWordOp(x, y);
    BitwiseIsWordOp(x, z);
    BitwiseIsWordOp(y, z);
    BitwiseIsWordOp(BitNot(x), z);
    BitwiseIsWordOp(BitAnd(x, y), BitAnd(BitNot(x), z));
    XorOfThree(BitAnd(x, y), BitAnd(x, z), BitAnd(y, z));
  }

  // Two terms, reduced by `| 0`.
  lemma ReducedSum2(x: Num32, y: Num32)
    ensures ToUint32(BitOr(x + y, 0)) == Add(ToUint32(x), ToUint32(y))
  {
    OrZeroReduces(x + y);
    SumIsWordAdd(x, y);
  }

  lemma ReducedSum4(x: Num32, y: Num32, z: Num32, u: Num32)
    ensures ToUint32(BitOr(x + y + z + u, 0))
         == Add(Add(Add(ToUint32(u), ToUint32(z)), ToUint32(y)), ToUint32(x))
  {
    hide BitOr, ToUint32, Add;
    OrZeroReduces(x + y + z + u);
    SumIsWordAdd(u, z);
    SumIsWordAdd(u + z, y);
    SumIsWordAdd(u + z + y, x);
  }

  lemma ReducedSum5(x: Num32, y: Num32, z: Num32, u: Num32, v: Num32)
    ensures ToUint32(BitOr(x + y + z + u + v, 0))
         == Add(Add(Add(Add(ToUint32(x), ToUint32(y)), ToUint32(z)), ToUint32(u)), ToUint32(v))
  {
    OrZeroReduces(x + y + z + u + v);
    SumIsWordAdd(x, y);
    SumIsWordAdd(x + y, z);
    SumIsWordAdd(x + y + z, u);
    SumIsWordAdd(x + y + z + u, v);
  }

  // docs/ios/shardvpn.js:67, four bytes read as one word.
  function Assemble(b3: Byte, b2: Byte, b1: Byte, b0: Byte): Num32 {
    BitOr(BitOr(BitOr(LeftShift(b3, 24), LeftShift(b2, 16)), LeftShift(b1, 8)), b0)
  }

  lemma AssembleIsBigEndian(b3: Byte, b2: Byte, b1: Byte, b0: Byte)
    ensures ToUint32(Assemble(b3, b2, b1, b0)) == Fips180.FromBigEndian(b3, b2, b1, b0)
  {
    var top, mid, low := LeftShift(b3, 24), LeftShift(b2, 16), LeftShift(b1, 8);
    ShiftsAreWordShifts(b3, 24);
    ShiftsAreWordShifts(b2, 16);
    ShiftsAreWordShifts(b1, 8);
    OrOfFour(top, mid, low, b0);
    WordIsItself(b3);
    WordIsItself(b2);
    WordIsItself(b1);
    WordIsItself(b0);
    JoinedBytes(b3, b2, b1, b0);
  }

  lemma OrOfFour(x: Exact, y: Exact, z: Exact, u: Exact)
    ensures ToUint32(BitOr(BitOr(BitOr(x, y), z), u))
         == Or(Or(Or(ToUint32(x), ToUint32(y)), ToUint32(z)), ToUint32(u))
  {
    BitwiseIsWordOp(x, y);
    BitwiseIsWordOp(BitOr(x, y), z);
    BitwiseIsWordOp(BitOr(BitOr(x, y), z), u);
  }

  lemma JoinedBytes(b3: Byte, b2: Byte, b1: Byte, b0: Byte)
    ensures Or(Or(Or(Shl(b3, 24), Shl(b2, 16)), Shl(b1, 8)), b0) == Fips180.FromBigEndian(b3, b2, b1, b0)
  {
    Pow2Of32();
    hide Pow2, Or, Shl;
    OrOfShifted(b3, 24, 0x100_0000, b2 as int * 0x1_0000);
    OrOfShifted(b3 as int * 0x100 + b2, 16, 0x1_0000, b1 as int * 0x100);
    OrOfShifted(b3 as int * 0x1_0000 + b2 as int * 0x100 + b1, 8, 0x100, b0);
    assert Shl(b3, 24) == b3 as int * 0x100_0000 by { ShiftedByte(b3, 24, 0x100_0000); }
    assert Shl(b2, 16) == b2 as int * 0x1_0000 by { ShiftedByte(b2, 16, 0x1_0000); }
    assert Shl(b1, 8) == b1 as int * 0x100 by { ShiftedByte(b1, 8, 0x100); }
  }

  lemma ShiftedByte(b: Byte, n: nat, p: nat)
    requires p == Pow2(n) && b * p < TWO_32
    ensures Shl(b, n) == b * p
  {
    hide Pow2, Shl;
    ShlIsProduct(b, n);
  }

  lemma OrOfShifted(high: Word, n: nat, p: nat, low: nat)
    requires n <= 32 && p == Pow2(n) && low < p && high * p < TWO_32
    ensures low < TWO_32 && Or(high * p, low) == high * p + low
  {
    hide Pow2, Bitwise;
    Pow2Monotone(n, 32);
    Pow2Of32();
    OrDisjointIsSum(32, n, high, low);
  }

  // ---- the message schedule ----

  // One entry of w computed from four earlier ones, docs/ios/shardvpn.js:70-72.
  function NextEntry(w16: Num32, w15: Num32, w7: Num32, w2: Num32): Num32 {
    BitOr(w16 + ScheduleSigma0(w15) + w7 + ScheduleSigma1(w2), 0)
  }

  lemma NextEntryIsStandard(b: Fips180.Block, t: nat, w16: Num32, w15: Num32, w7: Num32, w2: Num32)
    requires 16 <= t
    requires ToUint32(w16) == Fips180.W(b, t - 16) && ToUint32(w15) == Fips180.W(b, t - 15)
    requires ToUint32(w7) == Fips180.W(b, t - 7) && ToUint32(w2) == Fips180.W(b, t - 2)
    ensures ToUint32(NextEntry(w16, w15, w7, w2)) == Fips180.W(b, t)
  {
    hide ToUint32, BitOr, ScheduleSigma0, ScheduleSigma1, Add, Fips180.SmallSigma0, Fips180.SmallSigma1;
    ScheduleSigmasAreStandard(w15);
    ScheduleSigmasAreStandard(w2);
    ReducedSum4(w16, ScheduleSigma0(w15), w7, ScheduleSigma1(w2));
  }

  lemma FirstEntries(padded: seq<Byte>, chunk: nat, i: nat)
    requires chunk + 64 <= |padded| && i < 16
    ensures var j := chunk + i * 4;
      ToUint32(Assemble(padded[j], padded[j + 1], padded[j + 2], padded[j + 3]))
      == Fips180.W(padded[chunk..chunk + 64], i)
  {
    hide Assemble, Fips180.FromBigEndian;
    var j := chunk + i * 4;
    AssembleIsBigEndian(padded[j], padded[j + 1], padded[j + 2], padded[j + 3]);
  }

  method FillSchedule(padded: seq<Byte>, chunk: nat, w: array<Num32>)
    requires w.Length == 64 && chunk + 64 <= |padded|
    modifies w
    ensures forall t :: 0 <= t < 64 ==> ToUint32(w[t]) == Fips180.W(padded[chunk..chunk + 64], t)
  {
    hide ToUint32, Assemble, NextEntry, Fips180.W;
    ghost var b: Fips180.Block := padded[chunk..chunk + 64];
    for i := 0 to 16
      invariant forall t :: 0 <= t < i ==> ToUint32(w[t]) == Fips180.W(b, t)
    {
      var j := chunk + i * 4;
      FirstEntries(padded, chunk, i);
      w[i] := Assemble(padded[j], padded[j + 1], padded[j + 2], padded[j + 3]);
    }
    for i := 16 to 64
      invariant forall t :: 0 <= t < i ==> ToUint32(w[t]) == Fips180.W(b, t)
    {
      NextEntryIsStandard(b, i, w[i - 16], w[i - 15], w[i - 7], w[i - 2]);
      w[i] := NextEntry(w[i - 16], w[i - 15], w[i - 7], w[i - 2]);
    }
  }

  // ---- the rounds ----

  type EightNumbers = s: seq<Num32> | |s| == 8 witness seq(8, _ => 0)

  function AsWords(s: EightNumbers): Fips180.Registers {
    seq(8, i requires 0 <= i < 8 => ToUint32(s[i]))
  }

  lemma RoundIsStandard(s: EightNumbers, k: Word, w: Num32, t1: Num32, t2: Num32)
    requires t1 == BitOr(s[7] + RoundSigma1(s[4]) + Choose(s[4], s[5], s[6]) + k + w, 0)
    requires t2 == BitOr(RoundSigma0(s[0]) + Majority(s[0], s[1], s[2]), 0)
    ensures AsWords([BitOr(t1 + t2, 0), s[0], s[1], s[2], BitOr(s[3] + t1, 0), s[4], s[5], s[6]])
         == Fips180.Round(AsWords(s), k, ToUint32(w))
  {
    hide ToUint32, BitOr, RoundSigma0, RoundSigma1, Choose, Majority;
    hide Add, Fips180.BigSigma0, Fips180.BigSigma1, Fips180.Ch, Fips180.Maj;
    RoundSigmasAreStandard(s[0]);
    RoundSigmasAreStandard(s[4]);
    ChoiceAndMajorityAreStandard(s[4], s[5], s[6]);
    ChoiceAndMajorityAreStandard(s[0], s[1], s[2]);
    WordIsItself(k);
    ReducedSum5(s[7], RoundSigma1(s[4]), Choose(s[4], s[5], s[6]), k, w);
    ReducedSum2(RoundSigma0(s[0]), Majority(s[0], s[1], s[2]));
    ReducedSum2(t1, t2);
    ReducedSum2(s[3], t1);
  }

  lemma AddCommutes(x: Word, y: Word)
    ensures Add(x, y) == Add(y, x)
  {
  }

  method CompressInPlace(h: array<Num32>, w: array<Num32>, ghost b: Fips180.Block)
    requires h.Length == 8 && w.Length == 64 && h != w
    requires forall t :: 0 <= t < 64 ==> ToUint32(w[t]) == Fips180.W(b, t)
    modifies h
    ensures AsWords(h[..]) == Fips180.Compress(old(AsWords(h[..])), b)
  {
    hide ToUint32, BitOr, RoundSigma0, RoundSigma1, Choose, Majority, Fips180.Round, Add;
    ghost var start := AsWords(h[..]);
    var a: Num32, b0: Num32, c: Num32, d: Num32, e: Num32, f: Num32, g: Num32, hh: Num32 :=
      h[0], h[1], h[2], h[3], h[4], h[5], h[6], h[7];
    assert h[..] == [a, b0, c, d, e, f, g, hh];
    for i := 0 to 64
      invariant h[..] == old(h[..])
      invariant AsWords([a, b0, c, d, e, f, g, hh]) == Fips180.Rounds(start, b, i)
    {
      ghost var before := [a, b0, c, d, e, f, g, hh];
      var S1: Num32 := RoundSigma1(e);
      var ch: Exact := Choose(e, f, g);
      var t1: Num32 := BitOr(hh + S1 + ch + Fips180.K[i] + w[i], 0);
      var S0: Num32 := RoundSigma0(a);
      var maj: Exact := Majority(a, b0, c);
      var t2: Num32 := BitOr(S0 + maj, 0);
      RoundIsStandard(before, Fips180.K[i], w[i], t1, t2);
      hh := g;
      g := f;
      f := e;
      e := BitOr(d + t1, 0);
      d := c;
      c := b0;
      b0 := a;
      a := BitOr(t1 + t2, 0);
    }
    AddInto(h, [a, b0, c, d, e, f, g, hh]);
  }

  // docs/ios/shardvpn.js:85-86
  method AddInto(h: array<Num32>, next: EightNumbers)
    requires h.Length == 8
    modifies h
    ensures forall i :: 0 <= i < 8 ==> AsWords(h[..])[i] == Add(AsWords(next)[i], old(AsWords(h[..]))[i])
  {
    hide ToUint32, BitOr, Add;
    for i := 0 to 8
      invariant forall j :: i <= j < 8 ==> h[j] == old(h[j])
      invariant forall j :: 0 <= j < i ==> ToUint32(h[j]) == Add(ToUint32(next[j]), ToUint32(old(h[j])))
    {
      ReducedSum2(h[i], next[i]);
      AddCommutes(ToUint32(h[i]), ToUint32(next[i]));
      var sum: Exact := h[i] as int + next[i] as int;
      h[i] := BitOr(sum, 0);
    }
  }

  // ---- padding ----

  lemma LengthByte(x: nat, i: nat)
    requires x < TWO_53
    ensures 0 <= x / Pow2(8 * i) <= TWO_53
    ensures BitAnd(x / Pow2(8 * i), 0xff) == (x / Pow2(8 * i)) % 256
    ensures x / Pow2(8 * i + 8) == (x / Pow2(8 * i)) / 256
  {
    hide BitAnd;
    var p := Pow2(8 * i);
    QuotientBound(x, p);
    MaskByte(x / p);
    EightPlaces(8 * i);
    DivideTwice(x, p);
  }

  lemma QuotientBound(x: nat, p: nat)
    requires p >= 1
    ensures 0 <= x / p <= x
  {
    if x / p > x {
      MulAtLeast(x / p, p);
    }
  }

  lemma MaskByte(x: Exact)
    ensures BitAnd(x, 0xff) == x % 256
  {
    hide BitAnd, ToUint32, Pow2;
    Pow2Of32();
    MaskIsMod(x, 8, 256);
    LowByteOfWord(x);
  }

  lemma LowByteOfWord(x: int)
    ensures ToUint32(x) % 256 == x % 256
  {
  }

  lemma EightPlaces(n: nat)
    ensures Pow2(n + 8) == 256 * Pow2(n)
  {
    assert Pow2(n + 2) == 4 * Pow2(n);
    assert Pow2(n + 4) == 4 * Pow2(n + 2);
    assert Pow2(n + 6) == 4 * Pow2(n + 4);
  }

  lemma DivideTwice(x: nat, p: nat)
    requires p >= 1
    ensures x / (256 * p) == (x / p) / 256
  {
    var q, r := x / p, x % p;
    var q2, r2 := q / 256, q % 256;
    Regroup(p, q2, r2);
    RemainderFits(p, r2, r);
    DivModUnique(x, 256 * p, q2, p * r2 + r);
  }

  lemma Regroup(p: int, q: int, r: int)
    ensures p * (256 * q + r) == (256 * p) * q + p * r
  {
    assert p * (256 * q + r) == p * (256 * q) + p * r;
  }

  lemma RemainderFits(p: int, r2: int, r: int)
    requires 0 <= r < p && 0 <= r2 <= 255
    ensures 0 <= p * r2 + r < 256 * p
  {
    assert 0 <= p * r2 <= p * 255;
  }

  lemma NextLengthByte(x: nat, n: nat)
    ensures Fips180.BigEndian(x, n + 1) == Fips180.BigEndian(x / 256, n) + [x % 256]
  {
  }

  lemma OneMoreZero(length: nat, zeros: nat)
    requires zeros <= (Fips180.ZeroBits(8 * length) - 7) / 8
    ensures (length + 1 + zeros) % 64 == 56 <==> zeros == (Fips180.ZeroBits(8 * length) - 7) / 8
    ensures Fips180.Zeros(zeros) + [0] == Fips180.Zeros(zeros + 1)
  {
    Fips180.ZeroBytes(length);
  }

  /** The client pads exactly as section 5.1.1 says. docs/ios/shardvpn.js:56-61 */
  method PadMessage(bytes: seq<Byte>) returns (padded: seq<Byte>)
    requires 8 * |bytes| < TWO_53
    ensures padded == Fips180.Pad(bytes)
  {
    hide BitAnd, Pow2, Fips180.BigEndian, Fips180.ZeroBits;
    var len := |bytes|;
    ghost var target := (Fips180.ZeroBits(8 * len) - 7) / 8;
    Fips180.ZeroBytes(len);
    padded := bytes + [0x80];
    ghost var zeros := 0;
    while |padded| % 64 != 56
      invariant 0 <= zeros <= target
      invariant padded == bytes + [0x80] + Fips180.Zeros(zeros)
      decreases target - zeros
    {
      OneMoreZero(len, zeros);
      padded := padded + [0];
      zeros := zeros + 1;
    }
    OneMoreZero(len, zeros);
    ghost var body := padded;
    var bits := len * 8;
    NoBytesYet(bits / Pow2(64));
    for i := 8 downto 0
      invariant padded == body + Fips180.BigEndian(bits / Pow2(8 * i), 8 - i)
    {
      LengthByte(bits, i);
      NextLengthByte(bits / Pow2(8 * i), 7 - i);
      padded := padded + [BitAnd(bits / Pow2(8 * i), 0xff)];
    }
    assert bits / Pow2(0) == bits by { Pow2OfZero(); }
  }

  lemma Pow2OfZero()
    ensures Pow2(0) == 1
  {
  }

  lemma NoBytesYet(x: nat)
    ensures Fips180.BigEndian(x, 0) == []
  {
  }

  // ---- the whole function ----

  // The four bytes pushed for one hash word, docs/ios/shardvpn.js:90.
  function WordBytes(v: Num32): seq<Exact> {
    [BitAnd(UnsignedRightShift(v, 24), 0xff), BitAnd(UnsignedRightShift(v, 16), 0xff),
     BitAnd(UnsignedRightShift(v, 8), 0xff), BitAnd(v, 0xff)]
  }

  lemma WordBytesAreBigEndian(v: Num32)
    ensures WordBytes(v) == Fips180.BigEndian(ToUint32(v), 4)
  {
    hide BitAnd, Shr;
    var u := ToUint32(v);
    ShrByBytes(u);
    MaskByte(u / 0x100_0000);
    MaskByte(u / 0x1_0000);
    MaskByte(u / 0x100);
    MaskByte(v);
    LowByteOfWord(v);
    FourBytes(u);
  }

  lemma FourBytes(u: Word)
    ensures Fips180.BigEndian(u, 4)
         == [u / 0x100_0000 % 256, u / 0x1_0000 % 256, u / 0x100 % 256, u % 256]
  {
    NextLengthByte(u, 3);
    NextLengthByte(u / 256, 2);
    NextLengthByte(u / 256 / 256, 1);
    NextLengthByte(u / 256 / 256 / 256, 0);
    NoBytesYet(u / 256 / 256 / 256 / 256);
  }

  lemma NextBlock(padded: seq<Byte>, chunk: nat)
    requires chunk % 64 == 0 && chunk + 64 <= |padded|
    ensures Fips180.Chain(padded[..chunk + 64])
         == Fips180.Compress(Fips180.Chain(padded[..chunk]), padded[chunk..chunk + 64])
  {
    var grown := padded[..chunk + 64];
    assert grown[..|grown| - 64] == padded[..chunk];
    assert grown[|grown| - 64..] == padded[chunk..chunk + 64];
  }

  // docs/ios/shardvpn.js:89-91
  method PushDigest(h: array<Num32>) returns (out: seq<Byte>)
    requires h.Length == 8
    ensures out == Fips180.DigestBytes(AsWords(h[..]))
  {
    hide ToUint32, WordBytes, Fips180.BigEndian;
    out := [];
    ghost var words := AsWords(h[..]);
    for i := 0 to 8
      invariant out == Fips180.DigestBytes(words[..i])
    {
      WordBytesAreBigEndian(h[i]);
      assert words[i] == ToUint32(h[i]);
      assert words[..i + 1][..i] == words[..i];
      out := out + WordBytes(h[i]);
    }
    assert words[..8] == words;
  }

  // docs/ios/shardvpn.js:63-87
  method CompressBlocks(padded: seq<Byte>, h: array<Num32>)
    requires h.Length == 8 && |padded| % 64 == 0
    requires AsWords(h[..]) == Fips180.H0
    modifies h
    ensures AsWords(h[..]) == Fips180.Chain(padded)
  {
    hide AsWords, Fips180.Compress, Fips180.Chain, Fips180.W, ToUint32;
    var w := new Num32[64];
    var chunk := 0;
    NoBlocks(padded);
    while chunk < |padded|
      invariant chunk <= |padded| && chunk % 64 == 0
      invariant AsWords(h[..]) == Fips180.Chain(padded[..chunk])
    {
      FillSchedule(padded, chunk, w);
      CompressInPlace(h, w, padded[chunk..chunk + 64]);
      NextBlock(padded, chunk);
      chunk := chunk + 64;
    }
    assert padded[..|padded|] == padded;
  }

  lemma NoBlocks(padded: seq<Byte>)
    ensures Fips180.Chain(padded[..0]) == Fips180.H0
  {
  }

  /** docs/ios/shardvpn.js:36-92 */
  method Sha256(bytes: seq<Byte>) returns (out: seq<Byte>)
    requires 8 * |bytes| < TWO_53
    ensures out == Fips180.Sha256(bytes)
  {
    hide Fips180.Chain, Fips180.DigestBytes, Fips180.Pad;
    var h := new Num32[8](i requires 0 <= i < 8 => Fips180.H0[i]);
    InitialWords(h[..]);
    var padded := PadMessage(bytes);
    Fips180.PaddedIsBlocks(bytes);
    CompressBlocks(padded, h);
    out := PushDigest(h);
  }

  lemma InitialWords(s: EightNumbers)
    requires forall i :: 0 <= i < 8 ==> s[i] == Fips180.H0[i]
    ensures AsWords(s) == Fips180.H0
  {
    forall i | 0 <= i < 8
      ensures AsWords(s)[i] == Fips180.H0[i]
    {
      WordIsItself(Fips180.H0[i]);
    }
  }
}
