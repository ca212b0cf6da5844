/** The Secure Hash Standard, FIPS 180-4, for byte messages: SHA-256. */
module Fips180 {
  import opened Words

  // The eight working variables a to h, and likewise the eight words of a hash value.
  type Registers = r: seq<Word> | |r| == 8 witness seq(8, _ => 0)
  type Block = b: seq<Byte> | |b| == 64 witness seq(64, _ => 0)

  // ---- section 4.1.2: logical functions ----

  function Ch(x: Word, y: Word, z: Word): Word { Xor(And(x, y), And(Not(x), z)) }

  function Maj(x: Word, y: Word, z: Word): Word { Xor(Xor(And(x, y), And(x, z)), And(y, z)) }

  function BigSigma0(x: Word): Word { Xor(Xor(Rotr(x, 2), Rotr(x, 13)), Rotr(x, 22)) }

  function BigSigma1(x: Word): Word { Xor(Xor(Rotr(x, 6), Rotr(x, 11)), Rotr(x, 25)) }

  function SmallSigma0(x: Word): Word { Xor(Xor(Rotr(x, 7), Rotr(x, 18)), Shr(x, 3)) }

  function SmallSigma1(x: Word): Word { Xor(Xor(Rotr(x, 17), Rotr(x, 19)), Shr(x, 10)) }

  // ---- section 4.2.2 and section 5.3.3: constants ----

  const K: seq<Word> := [
    0x428a2f98, 0x71374491, 0xb5c0fbcf, 0xe9b5dba5, 0x3956c25b, 0x59f111f1, 0x923f82a4, 0xab1c5ed5,
    0xd807aa98, 0x12835b01, 0x243185be, 0x550c7dc3, 0x72be5d74, 0x80deb1fe, 0x9bdc06a7, 0xc19bf174,
    0xe49b69c1, 0xefbe4786, 0x0fc19dc6, 0x240ca1cc, 0x2de92c6f, 0x4a7484aa, 0x5cb0a9dc, 0x76f988da,
    0x983e5152, 0xa831c66d, 0xb00327c8, 0xbf597fc7, 0xc6e00bf3, 0xd5a79147, 0x06ca6351, 0x14292967,
    0x27b70a85, 0x2e1b2138, 0x4d2c6dfc, 0x53380d13, 0x650a7354, 0x766a0abb, 0x81c2c92e, 0x92722c85,
    0xa2bfe8a1, 0xa81a664b, 0xc24b8b70, 0xc76c51a3, 0xd192e819, 0xd6990624, 0xf40e3585, 0x106aa070,
    0x19a4c116, 0x1e376c08, 0x2748774c, 0x34b0bcb5, 0x391c0cb3, 0x4ed8aa4a, 0x5b9cca4f, 0x682e6ff3,
    0x748f82ee, 0x78a5636f, 0x84c87814, 0x8cc70208, 0x90befffa, 0xa4506ceb, 0xbef9a3f7, 0xc67178f2]

  const H0: Registers := [
    0x6a09e667, 0xbb67ae85, 0x3c6ef372, 0xa54ff53a, 0x510e527f, 0x9b05688c, 0x1f83d9ab, 0x5be0cd19]

  // ---- section 5.1.1: padding ----

  // The smallest k >= 0 with bits + 1 + k congruent to 448 modulo 512.
  function ZeroBits(bits: nat): nat { (447 - bits) % 512 }

  // The "1" bit and the first seven zero bits are the byte 0x80; the other zero bits are whole bytes.
  function Pad(m: seq<Byte>): seq<Byte> {
    m + [0x80] + Zeros((ZeroBits(8 * |m|) - 7) / 8) + BigEndian(8 * |m|, 8)
  }

  lemma ZeroBytes(length: nat)
    ensures 0 <= (ZeroBits(8 * length) - 7) / 8 < 64
    ensures (length + 1 + (ZeroBits(8 * length) - 7) / 8) % 64 == 56
  {
    assert ZeroBits(8 * length) == 7 + 8 * ((55 - length) % 64);
  }

  function Zeros(n: nat): seq<Byte> { seq(n, _ => 0) }

  // The `n` low bytes of `x`, most significant first.
  function BigEndian(x: nat, n: nat): (b: seq<Byte>)
    ensures |b| == n
  {
    if n == 0 then [] else BigEndian(x / 256, n - 1) + [x % 256]
  }

  lemma PaddedIsBlocks(m: seq<Byte>)
    ensures |Pad(m)| % 64 == 0
  {
    ZeroBytes(|m|);
  }

  // ---- section 6.2.2: hash computation ----

  function FromBigEndian(b3: Byte, b2: Byte, b1: Byte, b0: Byte): Word {
    b3 as int * 0x100_0000 + b2 as int * 0x1_0000 + b1 as int * 0x100 + b0
  }

  function WordAt(b: Block, t: nat): Word
    requires t < 16
  {
    FromBigEndian(b[4 * t], b[4 * t + 1], b[4 * t + 2], b[4 * t + 3])
  }

  // Step 1: the message schedule.
  function W(b: Block, t: nat): Word {
    if t < 16 then WordAt(b, t)
    else Add(Add(Add(SmallSigma1(W(b, t - 2)), W(b, t - 7)), SmallSigma0(W(b, t - 15))), W(b, t - 16))
  }

  // Step 3: one round.
  function Round(r: Registers, k: Word, w: Word): Registers {
    var t1 := Add(Add(Add(Add(r[7], BigSigma1(r[4])), Ch(r[4], r[5], r[6])), k), w);
    var t2 := Add(BigSigma0(r[0]), Maj(r[0], r[1], r[2]));
    [Add(t1, t2), r[0], r[1], r[2], Add(r[3], t1), r[4], r[5], r[6]]
  }

  function Rounds(h: Registers, b: Block, t: nat): Registers
    requires t <= 64
  {
    if t == 0 then h else Round(Rounds(h, b, t - 1), K[t - 1], W(b, t - 1))
  }

  // Steps 2 to 4 for one block.
  function Compress(h: Registers, b: Block): Registers {
    var r := Rounds(h, b, 64);
    seq(8, i requires 0 <= i < 8 => Add(r[i], h[i]))
  }

  function Chain(blocks: seq<Byte>): Registers
    requires |blocks| % 64 == 0
  {
    if blocks == [] then H0
    else Compress(Chain(blocks[..|blocks| - 64]), blocks[|blocks| - 64..])
  }

  function Sha256(m: seq<Byte>): (d: seq<Byte>)
    ensures |d| == 32
  {
    PaddedIsBlocks(m);
    DigestBytes(Chain(Pad(m)))
  }

  function DigestBytes(h: seq<Word>): (d: seq<Byte>)
    ensures |d| == 4 * |h|
  {
    if h == [] then [] else DigestBytes(h[..|h| - 1]) + BigEndian(h[|h| - 1], 4)
  }
}
