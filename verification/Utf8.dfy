/** `utf8Bytes` of docs/ios/shardvpn.js, refining RFC 3629. */
module Utf8 {
  import opened Words
  import opened JsNumber
  import opened Unicode

  // docs/ios/shardvpn.js:19-29, the bytes pushed for one code point.
  function Pushed(code: CodePoint): seq<Exact> {
    if code < 0x80 then [code]
    else if code < 0x800 then
      [BitOr(0xc0, RightShift(code, 6)), BitOr(0x80, BitAnd(code, 0x3f))]
    else if code < 0x1_0000 then
      [BitOr(0xe0, RightShift(code, 12)), BitOr(0x80, BitAnd(RightShift(code, 6), 0x3f)),
       BitOr(0x80, BitAnd(code, 0x3f))]
    else
      [BitOr(0xf0, RightShift(code, 18)), BitOr(0x80, BitAnd(RightShift(code, 12), 0x3f)),
       BitOr(0x80, BitAnd(RightShift(code, 6), 0x3f)), BitOr(0x80, BitAnd(code, 0x3f))]
  }

  lemma TailByte(x: CodePoint)
    ensures BitOr(0x80, BitAnd(x, 0x3f)) == Tail(x)
  {
    hide BitAnd, BitOr;
    SixLowBits(x);
    OrDisjoint(2, 6, 64, x % 64);
  }

  lemma SixLowBits(x: CodePoint)
    ensures BitAnd(x, 0x3f) == x % 64
  {
    hide BitAnd;
    MaskIsMod(x, 6, 64);
  }

  lemma LeadByte(high: nat, k: nat, shift: nat, low: nat)
    requires k <= 8 && shift == Pow2(k) && low < shift && high * shift < 256
    ensures shift <= 256 && BitOr(high * shift, low) == high * shift + low
  {
    hide BitOr;
    OrDisjoint(high, k, shift, low);
  }

  lemma ShiftBySixes(x: CodePoint)
    ensures RightShift(x, 6) == x / 0x40 && RightShift(x, 12) == x / 0x1000 && RightShift(x, 18) == x / 0x4_0000
  {
    ShrBySix(x);
    ShrBySix(x / 0x40);
    ShrBySix(x / 0x1000);
    ShrInTwoSteps(x, 6, 6);
    ShrInTwoSteps(x, 12, 6);
  }

  lemma ShrBySix(x: Word)
    ensures Shr(x, 6) == x / 0x40
  {
    ShrByTwo(x, 0);
    ShrByTwo(x, 2);
    ShrByTwo(x, 4);
  }

  lemma PushedIsEncoding(code: CodePoint)
    ensures Pushed(code) == EncodeOne(code)
  {
    hide BitAnd, BitOr, RightShift, Tail;
    ShiftBySixes(code);
    TailByte(code);
    TailByte(code / 0x40);
    TailByte(code / 0x1000);
    if 0x80 <= code < 0x800 {
      LeadByte(6, 5, 32, code / 0x40);
    } else if 0x800 <= code < 0x1_0000 {
      LeadByte(14, 4, 16, code / 0x1000);
    } else if 0x1_0000 <= code {
      LeadByte(30, 3, 8, code / 0x4_0000);
    }
  }

  /** docs/ios/shardvpn.js:15-32 */
  method Utf8Bytes(str: seq<CodeUnit>) returns (out: seq<Byte>)
    ensures out == Encode(CodePoints(str))
  {
    hide Pushed, EncodeOne;
    out := [];
    var i := 0;
    while i < |str|
      invariant 0 <= i <= |str|
      invariant out + Encode(CodePoints(str[i..])) == Encode(CodePoints(str))
    {
      var code: CodePoint, width := str[i], 1;
      if i + 1 < |str| && IsHigh(str[i]) && IsLow(str[i + 1]) {
        code, width := PairValue(str[i], str[i + 1]), 2;
      }
      assert str[i..][width..] == str[i + width..];
      PushedIsEncoding(code);
      out := out + Pushed(code);
      i := i + width;
    }
  }

  /** Distinct JavaScript strings, lone surrogates included, never share an encoding. */
  lemma Utf8BytesInjective(s: seq<CodeUnit>, t: seq<CodeUnit>)
    requires Encode(CodePoints(s)) == Encode(CodePoints(t))
    ensures s == t
  {
    DecodeAllInverts(CodePoints(s));
    DecodeAllInverts(CodePoints(t));
    Utf16OfCodePoints(s);
    Utf16OfCodePoints(t);
  }

  /** The client and the server encode the same text to the same bytes. */
  lemma ClientAndServerAgree(s: string)
    ensures Encode(CodePoints(JsString(s))) == EncodeString(s)
  {
    CodePointsOfUtf16(Scalars(s));
  }
}
