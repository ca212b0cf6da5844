/** HMAC as RFC 2104 section 2 defines it, over SHA-256, and its printed form. */
module Rfc2104 {
  import opened Words
  import Fips180

  const BLOCK := 64

  function ByteXor(x: Byte, y: Byte): Byte { Bitwise(XorOp, 8, x, y) }

  function XorEach(b: seq<Byte>, pad: Byte): (r: seq<Byte>)
    ensures |r| == |b|
  {
    seq(|b|, i requires 0 <= i < |b| => ByteXor(b[i], pad))
  }

  // K, hashed if it is longer than a block, then padded with zeros to a block.
  function KeyBlock(key: seq<Byte>): (k: seq<Byte>)
    ensures |k| == BLOCK
  {
    var short := if |key| > BLOCK then Fips180.Sha256(key) else key;
    short + Fips180.Zeros(BLOCK - |short|)
  }

  function Hmac(key: seq<Byte>, text: seq<Byte>): (mac: seq<Byte>)
    ensures |mac| == 32
  {
    var k := KeyBlock(key);
    Fips180.Sha256(XorEach(k, 0x5c) + Fips180.Sha256(XorEach(k, 0x36) + text))
  }

  const DIGITS: string := "0123456789abcdef"

  function Hex(b: seq<Byte>): string {
    if b == [] then [] else [DIGITS[b[0] / 16], DIGITS[b[0] % 16]] + Hex(b[1..])
  }

  predicate IsHexDigit(c: char) { '0' <= c <= '9' || 'a' <= c <= 'f' }

  lemma {:induction false} HexShape(b: seq<Byte>)
    ensures |Hex(b)| == 2 * |b|
    ensures forall i :: 0 <= i < |Hex(b)| ==> IsHexDigit(Hex(b)[i])
  {
    if b != [] {
      HexShape(b[1..]);
      assert forall d :: 0 <= d < 16 ==> IsHexDigit(DIGITS[d]);
    }
  }
}

/** `hmacSha256Hex` of docs/ios/shardvpn.js. */
module ClientHmac {
  import opened Words
  import opened JsNumber
  import opened Unicode
  import Fips180
  import Rfc2104
  import Sha256
  import Utf8

  // The longest string JavaScriptCore can hold.
  const MAX_STRING := 0x7fff_ffff

  lemma {:induction false} EncodingLength(u: seq<CodeUnit>)
    ensures |Encode(CodePoints(u))| <= 3 * |u|
  {
    if u == [] {
    } else if StartsWithPair(u) {
      EncodingLength(u[2..]);
    } else {
      EncodingLength(u[1..]);
    }
  }

  lemma {:induction false} LowBitsSuffice(op: BitOp, n: nat, k: nat, x: nat, y: nat)
    requires k <= n && x < Pow2(k) && y < Pow2(k)
    ensures Bitwise(op, n, x, y) == Bitwise(op, k, x, y)
  {
    if k == 0 {
      if n > 0 {
        LowBitsSuffice(op, n - 1, 0, 0, 0);
      }
    } else {
      LowBitsSuffice(op, n - 1, k - 1, x / 2, y / 2);
    }
  }

  lemma XorOfBytes(x: Byte, y: Byte)
    ensures BitXor(x, y) == Rfc2104.ByteXor(x, y)
  {
    hide Bitwise;
    Pow2Of32();
    WordIsItself(x);
    WordIsItself(y);
    LowBitsSuffice(XorOp, 32, 8, x, y);
  }

  method XorMap(key: seq<Byte>, pad: Byte) returns (out: seq<Byte>)
    ensures out == Rfc2104.XorEach(key, pad)
  {
    hide BitXor, Rfc2104.ByteXor;
    out := [];
    for i := 0 to |key|
      invariant out == Rfc2104.XorEach(key, pad)[..i]
    {
      XorOfBytes(key[i], pad);
      out := out + [BitXor(key[i], pad)];
    }
  }

  // Number.prototype.toString(16) and String.prototype.padStart(2, "0").
  function ToString16(n: nat): string {
    if n < 16 then [Rfc2104.DIGITS[n]] else ToString16(n / 16) + [Rfc2104.DIGITS[n % 16]]
  }

  function PadStart2(s: string): string { if |s| >= 2 then s else if |s| == 1 then "0" + s else "00" }

  lemma PaddedHex(b: Byte)
    ensures PadStart2(ToString16(b)) == Rfc2104.Hex([b])
  {
    assert Rfc2104.Hex([b]) == [Rfc2104.DIGITS[b / 16], Rfc2104.DIGITS[b % 16]] + Rfc2104.Hex([]);
    if b >= 16 {
      assert ToString16(b / 16) == [Rfc2104.DIGITS[b / 16]];
    }
  }

  lemma {:induction false} HexAppend(a: seq<Byte>, b: Byte)
    ensures Rfc2104.Hex(a + [b]) == Rfc2104.Hex(a) + Rfc2104.Hex([b])
  {
    if a == [] {
      assert a + [b] == [b];
    } else {
      HexAppend(a[1..], b);
      assert (a + [b])[1..] == a[1..] + [b];
    }
  }

  method ToHex(bytes: seq<Byte>) returns (out: string)
    ensures out == Rfc2104.Hex(bytes)
  {
    out := "";
    for i := 0 to |bytes|
      invariant out == Rfc2104.Hex(bytes[..i])
    {
      hide Rfc2104.Hex, ToString16, PadStart2;
      assert bytes[..i + 1] == bytes[..i] + [bytes[i]];
      HexAppend(bytes[..i], bytes[i]);
      PaddedHex(bytes[i]);
      out := out + PadStart2(ToString16(bytes[i]));
    }
    assert bytes[..|bytes|] == bytes;
  }

  /** docs/ios/shardvpn.js:94-102 */
  method HmacSha256Hex(keyStr: seq<CodeUnit>, messageStr: seq<CodeUnit>) returns (hex: string)
    requires |keyStr| <= MAX_STRING && |messageStr| <= MAX_STRING
    ensures hex == Rfc2104.Hex(Rfc2104.Hmac(Encode(CodePoints(keyStr)), Encode(CodePoints(messageStr))))
  {
    hide Encode, CodePoints, Fips180.Sha256, Rfc2104.XorEach, Rfc2104.Hex;
    EncodingLength(keyStr);
    EncodingLength(messageStr);
    var key := Utf8.Utf8Bytes(keyStr);
    if |key| > 64 {
      key := Sha256.Sha256(key);
    }
    ghost var short := key;
    while |key| < 64
      invariant |short| <= |key| <= 64
      invariant key == short + Fips180.Zeros(|key| - |short|)
    {
      key := key + [0];
    }
    assert key == Rfc2104.KeyBlock(Encode(CodePoints(keyStr)));
    var message := Utf8.Utf8Bytes(messageStr);
    var inner := XorMap(key, 0x36);
    inner := inner + message;
    var outer := XorMap(key, 0x5c);
    var digest := Sha256.Sha256(inner);
    outer := outer + digest;
    var mac := Sha256.Sha256(outer);
    hex := ToHex(mac);
  }
}
