/** The Secure Hash Algorithm SHA-256 as FIPS 180-4 defines it, on bytes: the functions of section 4.1.2,
    the constants of section 4.2.2, the padding of section 5.1.1 and the hash computation of section 6.2.
    Nothing here refers to the streaming implementation that is proved against it. */
module Sha256Spec {
  import opened Arithmetic

  type Byte = bv8

  /** Addition of words, modulo 2^32 (section 3.2). */
  function Plus(x: bv32, y: bv32): bv32 { x + y }

  // ----- section 4.1.2: functions -----

  function Ch(x: bv32, y: bv32, z: bv32): bv32 { (x & y) ^ (!x & z) }
  function Maj(x: bv32, y: bv32, z: bv32): bv32 { (x & y) ^ (x & z) ^ (y & z) }
  function BigSigma0(x: bv32): bv32 { x.RotateRight(2) ^ x.RotateRight(13) ^ x.RotateRight(22) }
  function BigSigma1(x: bv32): bv32 { x.RotateRight(6) ^ x.RotateRight(11) ^ x.RotateRight(25) }
  function SmallSigma0(x: bv32): bv32 { x.RotateRight(7) ^ x.RotateRight(18) ^ (x >> 3) }
  function SmallSigma1(x: bv32): bv32 { x.RotateRight(17) ^ x.RotateRight(19) ^ (x >> 10) }

  // ----- section 4.2.2 and section 5.3.3: constants and initial hash value -----

  /** The round constants, in rows of eight. */
  const K0: seq<bv32> := [
    0x428a2f98, 0x71374491, 0xb5c0fbcf, 0xe9b5dba5, 0x3956c25b, 0x59f111f1, 0x923f82a4, 0xab1c5ed5]
  const K1: seq<bv32> := [
    0xd807aa98, 0x12835b01, 0x243185be, 0x550c7dc3, 0x72be5d74, 0x80deb1fe, 0x9bdc06a7, 0xc19bf174]
  const K2: seq<bv32> := [
    0xe49b69c1, 0xefbe4786, 0x0fc19dc6, 0x240ca1cc, 0x2de92c6f, 0x4a7484aa, 0x5cb0a9dc, 0x76f988da]
  const K3: seq<bv32> := [
    0x983e5152, 0xa831c66d, 0xb00327c8, 0xbf597fc7, 0xc6e00bf3, 0xd5a79147, 0x06ca6351, 0x14292967]
  const K4: seq<bv32> := [
    0x27b70a85, 0x2e1b2138, 0x4d2c6dfc, 0x53380d13, 0x650a7354, 0x766a0abb, 0x81c2c92e, 0x92722c85]
  const K5: seq<bv32> := [
    0xa2bfe8a1, 0xa81a664b, 0xc24b8b70, 0xc76c51a3, 0xd192e819, 0xd6990624, 0xf40e3585, 0x106aa070]
  const K6: seq<bv32> := [
    0x19a4c116, 0x1e376c08, 0x2748774c, 0x34b0bcb5, 0x391c0cb3, 0x4ed8aa4a, 0x5b9cca4f, 0x682e6ff3]
  const K7: seq<bv32> := [
    0x748f82ee, 0x78a5636f, 0x84c87814, 0x8cc70208, 0x90befffa, 0xa4506ceb, 0xbef9a3f7, 0xc67178f2]

  const K: seq<bv32> := K0 + K1 + K2 + K3 + K4 + K5 + K6 + K7

  const H0: seq<bv32> := [
    0x6a09e667, 0xbb67ae85, 0x3c6ef372, 0xa54ff53a, 0x510e527f, 0x9b05688c, 0x1f83d9ab, 0x5be0cd19]

  // ----- section 5.1.1: padding -----

  /** Zero bytes between the 0x80 byte and the length: the least number that completes a block. */
  function ZeroBytes(n: nat): (z: nat)
    ensures z < 64 && (n + 1 + z + 8) % 64 == 0
  {
    (119 - n % 64) % 64
  }

  /** Byte i, most significant first, of the 64-bit block holding the bit length of n bytes. */
  function LengthByte(n: nat, i: nat): (b: nat)
    requires i < 8
    ensures b < 256
  {
    (8 * n / Pow256(7 - i)) % 256
  }

  function Padding(n: nat): (p: seq<Byte>)
    ensures |p| == 9 + ZeroBytes(n)
  {
    [0x80 as Byte] + seq(ZeroBytes(n), _ => 0 as Byte) + seq(8, i requires 0 <= i < 8 => LengthByte(n, i) as Byte)
  }

  // ----- section 6.2: hash computation -----

  /** Four bytes as a word, most significant first (section 3.1). */
  function Word(b0: Byte, b1: Byte, b2: Byte, b3: Byte): bv32 {
    ((b0 as bv32) << 24) | ((b1 as bv32) << 16) | ((b2 as bv32) << 8) | (b3 as bv32)
  }

  function WordAt(s: seq<Byte>, k: nat): bv32
    requires 4 * k + 4 <= |s|
  {
    Word(s[4 * k], s[4 * k + 1], s[4 * k + 2], s[4 * k + 3])
  }

  /** Entry t of the message schedule of a block (section 6.2.2, step 1). */
  function W(block: seq<Byte>, t: nat): bv32
    requires |block| == 64 && t < 64
  {
    if t < 16 then WordAt(block, t)
    else Plus(Plus(Plus(SmallSigma1(W(block, t - 2)), W(block, t - 7)), SmallSigma0(W(block, t - 15))),
        W(block, t - 16))
  }

  datatype Vars = Vars(a: bv32, b: bv32, c: bv32, d: bv32, e: bv32, f: bv32, g: bv32, h: bv32)

  function Round(v: Vars, k: bv32, w: bv32): Vars {
    var t1 := Plus(Plus(Plus(Plus(v.h, BigSigma1(v.e)), Ch(v.e, v.f, v.g)), k), w);
    var t2 := Plus(BigSigma0(v.a), Maj(v.a, v.b, v.c));
    Vars(Plus(t1, t2), v.a, v.b, v.c, Plus(v.d, t1), v.e, v.f, v.g)
  }

  /** The working variables after t rounds (section 6.2.2, steps 2 and 3). */
  function Rounds(hash: seq<bv32>, block: seq<Byte>, t: nat): Vars
    requires |hash| == 8 && |block| == 64 && t <= 64
  {
    if t == 0 then Vars(hash[0], hash[1], hash[2], hash[3], hash[4], hash[5], hash[6], hash[7])
    else Round(Rounds(hash, block, t - 1), K[t - 1], W(block, t - 1))
  }

  /** The next hash value (section 6.2.2, step 4). */
  function Compress(hash: seq<bv32>, block: seq<Byte>): (r: seq<bv32>)
    requires |hash| == 8 && |block| == 64
    ensures |r| == 8
  {
    var v := Rounds(hash, block, 64);
    [Plus(hash[0], v.a), Plus(hash[1], v.b), Plus(hash[2], v.c), Plus(hash[3], v.d),
     Plus(hash[4], v.e), Plus(hash[5], v.f), Plus(hash[6], v.g), Plus(hash[7], v.h)]
  }

  /** The hash value after the first n blocks of m. */
  function HashBlocks(m: seq<Byte>, n: nat): (r: seq<bv32>)
    requires 64 * n <= |m|
    ensures |r| == 8
  {
    if n == 0 then H0 else Compress(HashBlocks(m, n - 1), m[64 * (n - 1)..64 * n])
  }

  function ByteOf(w: bv32, lane: nat): Byte
    requires lane < 4
  {
    match lane
    case 0 => (w >> 24) as Byte
    case 1 => ((w >> 16) & 0xff) as Byte
    case 2 => ((w >> 8) & 0xff) as Byte
    case _ => (w & 0xff) as Byte
  }

  function Digest(hash: seq<bv32>): (d: seq<Byte>)
    requires |hash| == 8
    ensures |d| == 32
  {
    seq(32, i requires 0 <= i < 32 => ByteOf(hash[i / 4], i % 4))
  }

  /** The message digest of m. */
  function Sha256(m: seq<Byte>): (d: seq<Byte>)
    ensures |d| == 32
  {
    var padded := m + Padding(|m|);
    Digest(HashBlocks(padded, |padded| / 64))
  }

  // ----- consequences used by the implementation -----

  /** Appending input does not change the hash value of the blocks already there. */
  lemma {:induction false} HashBlocksPrefix(m: seq<Byte>, x: seq<Byte>, n: nat)
    requires 64 * n <= |m|
    ensures HashBlocks(m + x, n) == HashBlocks(m, n)
  {
    hide Compress;
    if n > 0 {
      HashBlocksPrefix(m, x, n - 1);
      assert (m + x)[64 * (n - 1)..64 * n] == m[64 * (n - 1)..64 * n];
    }
  }
}
