/** UTF-16 strings as JavaScript iterates them, and UTF-8 as RFC 3629 defines it. */
module Unicode {
  import opened Words
  import opened Wrappers

  type CodeUnit = n: nat | n < 0x1_0000
  type CodePoint = n: nat | n < 0x11_0000

  predicate IsHigh(u: CodePoint) { 0xd800 <= u < 0xdc00 }

  predicate IsLow(u: CodePoint) { 0xdc00 <= u < 0xe000 }

  predicate IsScalar(c: CodePoint) { !IsHigh(c) && !IsLow(c) }

  // ---- UTF-16 ----

  predicate StartsWithPair(u: seq<CodeUnit>) { |u| >= 2 && IsHigh(u[0]) && IsLow(u[1]) }

  function PairValue(high: CodeUnit, low: CodeUnit): CodePoint
    requires IsHigh(high) && IsLow(low)
  {
    0x1_0000 + (high - 0xd800) * 0x400 + (low - 0xdc00)
  }

  // The code points a for-of loop visits: a surrogate without its partner stands for itself.
  function CodePoints(u: seq<CodeUnit>): seq<CodePoint> {
    if u == [] then []
    else if StartsWithPair(u) then [PairValue(u[0], u[1])] + CodePoints(u[2..])
    else [u[0]] + CodePoints(u[1..])
  }

  function UnitsOf(c: CodePoint): seq<CodeUnit> {
    if c < 0x1_0000 then [c]
    else [0xd800 + (c - 0x1_0000) / 0x400, 0xdc00 + (c - 0x1_0000) % 0x400]
  }

  function Utf16(cs: seq<CodePoint>): seq<CodeUnit> {
    if cs == [] then [] else UnitsOf(cs[0]) + Utf16(cs[1..])
  }

  /** No two JavaScript strings are iterated alike. */
  lemma {:induction false} Utf16OfCodePoints(u: seq<CodeUnit>)
    ensures Utf16(CodePoints(u)) == u
  {
    if u == [] {
    } else if StartsWithPair(u) {
      Utf16OfCodePoints(u[2..]);
      assert UnitsOf(PairValue(u[0], u[1])) == [u[0], u[1]];
      assert u == [u[0], u[1]] + u[2..];
    } else {
      Utf16OfCodePoints(u[1..]);
      assert u == [u[0]] + u[1..];
    }
  }

  lemma {:induction false} CodePointsOfUtf16(cs: seq<CodePoint>)
    requires forall i :: 0 <= i < |cs| ==> IsScalar(cs[i])
    ensures CodePoints(Utf16(cs)) == cs
  {
    if cs != [] {
      var u := Utf16(cs);
      CodePointsOfUtf16(cs[1..]);
      if cs[0] < 0x1_0000 {
        assert u[1..] == Utf16(cs[1..]);
      } else {
        assert u[2..] == Utf16(cs[1..]);
        assert PairValue(u[0], u[1]) == cs[0];
      }
    }
  }

  // ---- UTF-8, RFC 3629 section 3 ----

  function EncodeOne(c: CodePoint): seq<Byte> {
    if c < 0x80 then [c]
    else if c < 0x800 then [0xc0 + c / 0x40, Tail(c)]
    else if c < 0x1_0000 then [0xe0 + c / 0x1000, Tail(c / 0x40), Tail(c)]
    else [0xf0 + c / 0x4_0000, Tail(c / 0x1000), Tail(c / 0x40), Tail(c)]
  }

  function Tail(x: nat): Byte { 0x80 + x % 0x40 }

  function Encode(cs: seq<CodePoint>): seq<Byte> {
    if cs == [] then [] else EncodeOne(cs[0]) + Encode(cs[1..])
  }

  function Payload(b: Byte): int { b - 0x80 }

  predicate IsTail(b: Byte) { 0x80 <= b < 0xc0 }

  // The first code point of `b` and how many bytes it takes. The bounds on the value rule out
  // overlong forms; unlike section 4, a lone surrogate is let through, see Decode.
  function DecodeOne(b: seq<Byte>): (r: Option<(CodePoint, nat)>)
    ensures r.Some? ==> 0 < r.value.1 <= |b|
  {
    if |b| >= 1 && b[0] < 0x80 then Some((b[0], 1))
    else if |b| >= 2 && 0xc2 <= b[0] < 0xe0 && IsTail(b[1]) then
      Some(((b[0] as int - 0xc0) * 0x40 + Payload(b[1]), 2))
    else if |b| >= 3 && 0xe0 <= b[0] < 0xf0 && IsTail(b[1]) && IsTail(b[2])
         && (b[0] == 0xe0 ==> b[1] >= 0xa0) then
      Some(((b[0] as int - 0xe0) * 0x1000 + Payload(b[1]) * 0x40 + Payload(b[2]), 3))
    else if |b| >= 4 && 0xf0 <= b[0] < 0xf5 && IsTail(b[1]) && IsTail(b[2]) && IsTail(b[3])
         && (b[0] == 0xf0 ==> b[1] >= 0x90) && (b[0] == 0xf4 ==> b[1] < 0x90) then
      Some(((b[0] as int - 0xf0) * 0x4_0000 + Payload(b[1]) * 0x1000 + Payload(b[2]) * 0x40 + Payload(b[3]), 4))
    else None
  }

  function DecodeAll(b: seq<Byte>): Option<seq<CodePoint>> {
    if b == [] then Some([])
    else match DecodeOne(b)
      case None => None
      case Some((c, n)) =>
        match DecodeAll(b[n..])
        case None => None
        case Some(rest) => Some([c] + rest)
  }

  // What section 4 accepts: the above without surrogates.
  function Decode(b: seq<Byte>): Option<seq<CodePoint>> {
    match DecodeAll(b)
    case Some(cs) => if forall i :: 0 <= i < |cs| ==> IsScalar(cs[i]) then Some(cs) else None
    case None => None
  }

  lemma DecodeOneInverts(c: CodePoint, rest: seq<Byte>)
    ensures DecodeOne(EncodeOne(c) + rest) == Some((c, |EncodeOne(c)|))
  {
    var b := EncodeOne(c) + rest;
    SixBitDigits(c);
    forall i | 0 <= i < |EncodeOne(c)|
      ensures b[i] == EncodeOne(c)[i]
    {
    }
  }

  lemma SixBitDigits(c: CodePoint)
    ensures c == c / 0x40 * 0x40 + Payload(Tail(c))
    ensures c == c / 0x1000 * 0x1000 + Payload(Tail(c / 0x40)) * 0x40 + Payload(Tail(c))
    ensures c == c / 0x4_0000 * 0x4_0000 + Payload(Tail(c / 0x1000)) * 0x1000 + Payload(Tail(c / 0x40)) * 0x40
              + Payload(Tail(c))
  {
    assert c / 0x1000 == c / 0x40 / 0x40;
    assert c / 0x4_0000 == c / 0x1000 / 0x40;
  }

  lemma {:induction false} DecodeAllInverts(cs: seq<CodePoint>)
    ensures DecodeAll(Encode(cs)) == Some(cs)
  {
    if cs != [] {
      var first, rest := EncodeOne(cs[0]), Encode(cs[1..]);
      DecodeOneInverts(cs[0], rest);
      assert (first + rest)[|first|..] == rest;
      DecodeAllInverts(cs[1..]);
      assert [cs[0]] + cs[1..] == cs;
    }
  }

  lemma EncodeOneInverts(b: seq<Byte>)
    requires DecodeOne(b).Some?
    ensures EncodeOne(DecodeOne(b).value.0) == b[..DecodeOne(b).value.1]
  {
    var (c, n) := DecodeOne(b).value;
    if n == 2 {
      UniqueDigits(c, b[0] as int - 0xc0, b[1]);
    } else if n == 3 {
      UniqueDigits(c, c / 0x40, b[2]);
      UniqueDigits((b[0] as int - 0xe0) * 0x40 + Payload(b[1]), b[0] as int - 0xe0, b[1]);
    } else if n == 4 {
      UniqueDigits(c, (b[0] as int - 0xf0) * 0x1000 + Payload(b[1]) * 0x40 + Payload(b[2]), b[3]);
      UniqueDigits(c / 0x40, (b[0] as int - 0xf0) * 0x40 + Payload(b[1]), b[2]);
      UniqueDigits(c / 0x1000, b[0] as int - 0xf0, b[1]);
    }
  }

  lemma UniqueDigits(c: nat, high: int, low: Byte)
    requires IsTail(low) && high >= 0
    requires c == high * 0x40 + Payload(low)
    ensures c / 0x40 == high && Tail(c) == low
  {
  }

  /** Scalar values round-trip, and the decoder accepts nothing but encodings of them. */
  lemma {:induction false} DecodeIsInverse(b: seq<Byte>, cs: seq<CodePoint>)
    ensures Decode(b) == Some(cs)
       <==> b == Encode(cs) && forall i :: 0 <= i < |cs| ==> IsScalar(cs[i])
  {
    DecodeAllInverts(cs);
    if DecodeAll(b).Some? {
      EncodeInverts(b);
    }
  }

  lemma DecodeAllStep(b: seq<Byte>) returns (c: CodePoint, n: nat, rest: seq<CodePoint>)
    requires b != [] && DecodeAll(b).Some?
    ensures DecodeOne(b) == Some((c, n)) && 0 < n <= |b|
    ensures DecodeAll(b[n..]) == Some(rest) && DecodeAll(b).value == [c] + rest
  {
    hide DecodeOne;
    c, n := DecodeOne(b).value.0, DecodeOne(b).value.1;
    rest := DecodeAll(b[n..]).value;
  }

  lemma EncodeStep(c: CodePoint, rest: seq<CodePoint>)
    ensures Encode([c] + rest) == EncodeOne(c) + Encode(rest)
  {
    hide EncodeOne;
    assert ([c] + rest)[1..] == rest;
  }

  lemma NothingEncoded()
    ensures DecodeAll([]) == Some([]) && Encode([]) == []
  {
  }

  lemma {:induction false} EncodeInverts(b: seq<Byte>)
    requires DecodeAll(b).Some?
    ensures Encode(DecodeAll(b).value) == b
  {
    hide EncodeOne, DecodeOne, DecodeAll, Encode;
    if b == [] {
      NothingEncoded();
    } else {
      var c, n, rest := DecodeAllStep(b);
      EncodeOneInverts(b);
      EncodeInverts(b[n..]);
      EncodeStep(c, rest);
      assert b == b[..n] + b[n..];
    }
  }

  lemma Associative(x: seq<Byte>, y: seq<Byte>, z: seq<Byte>)
    ensures x + (y + z) == (x + y) + z
  {
  }

  lemma {:induction false} EncodeConcat(a: seq<CodePoint>, b: seq<CodePoint>)
    ensures Encode(a + b) == Encode(a) + Encode(b)
  {
    if a == [] {
      assert a + b == b;
    } else {
      hide EncodeOne;
      EncodeConcat(a[1..], b);
      assert (a + b)[1..] == a[1..] + b;
      assert (a + b)[0] == a[0];
      assert Encode(a + b) == EncodeOne(a[0]) + Encode(a[1..] + b);
      Associative(EncodeOne(a[0]), Encode(a[1..]), Encode(b));
    }
  }

  // ---- strings of scalar values: what Python holds, and what JSON.stringify returns ----

  function Scalars(s: string): (cs: seq<CodePoint>)
    ensures |cs| == |s|
    ensures forall i :: 0 <= i < |cs| ==> IsScalar(cs[i])
  {
    seq(|s|, i requires 0 <= i < |s| => s[i] as int)
  }

  // Python's str.encode().
  function EncodeString(s: string): seq<Byte> { Encode(Scalars(s)) }

  // The same text as a JavaScript string.
  function JsString(s: string): seq<CodeUnit> { Utf16(Scalars(s)) }

  lemma EncodeStringConcat(s: string, t: string)
    ensures EncodeString(s + t) == EncodeString(s) + EncodeString(t)
  {
    assert Scalars(s + t) == Scalars(s) + Scalars(t);
    EncodeConcat(Scalars(s), Scalars(t));
  }
}
