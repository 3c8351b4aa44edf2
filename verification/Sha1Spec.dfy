/**
 SHA-1 as FIPS 180-4 defines it, with the 80-word message schedule of section 6.1.2, and
 HMAC as RFC 2104 defines it.
 */
module Sha1Spec {
  function Rol1(x: bv32): bv32 { (x << 1) | (x >> 31) }

  function Rol5(x: bv32): bv32 { (x << 5) | (x >> 27) }

  function Rol30(x: bv32): bv32 { (x << 30) | (x >> 2) }

  /** The five working variables, or a chaining value. */
  datatype Vars = Vars(a: bv32, b: bv32, c: bv32, d: bv32, e: bv32)

  const INITIAL: Vars := Vars(0x67452301, 0xefcdab89, 0x98badcfe, 0x10325476, 0xc3d2e1f0)

  /** The round functions of section 4.1.1. */
  function Ch(x: bv32, y: bv32, z: bv32): bv32 { (x & y) ^ ((x ^ 0xFFFF_FFFF) & z) }

  function Parity(x: bv32, y: bv32, z: bv32): bv32 { x ^ y ^ z }

  function Maj(x: bv32, y: bv32, z: bv32): bv32 { (x & y) ^ (x & z) ^ (y & z) }

  function F(t: nat, x: bv32, y: bv32, z: bv32): bv32 {
    if t < 20 then Ch(x, y, z)
    else if t < 40 then Parity(x, y, z)
    else if t < 60 then Maj(x, y, z)
    else Parity(x, y, z)
  }

  /** The round constants of section 4.2.1. */
  function K(t: nat): bv32 {
    if t < 20 then 0x5a827999
    else if t < 40 then 0x6ed9eba1
    else if t < 60 then 0x8f1bbcdc
    else 0xca62c1d6
  }

  /** Word `i` of a block, high byte first. */
  function BigEndianWord(b0: bv8, b1: bv8, b2: bv8, b3: bv8): bv32 {
    (b0 as bv32 << 24) | (b1 as bv32 << 16) | (b2 as bv32 << 8) | b3 as bv32
  }

  function BlockWords(block: seq<bv8>): (m: seq<bv32>)
    requires |block| == 64
    ensures |m| == 16
  {
    seq(16, i requires 0 <= i < 16 => BigEndianWord(block[4 * i], block[4 * i + 1], block[4 * i + 2], block[4 * i + 3]))
  }

  function Xor4(a: bv32, b: bv32, c: bv32, d: bv32): bv32 { a ^ b ^ c ^ d }

  /** Word `t` of the message schedule. */
  function W(m: seq<bv32>, t: nat): bv32
    requires |m| == 16
  {
    if t < 16 then m[t] else Rol1(Xor4(W(m, t - 3), W(m, t - 8), W(m, t - 14), W(m, t - 16)))
  }

  function Sum5(r: bv32, f: bv32, e: bv32, k: bv32, w: bv32): bv32 {
    r + f + e + k + w
  }

  function Round(t: nat, v: Vars, w: bv32): Vars {
    Vars(Sum5(Rol5(v.a), F(t, v.b, v.c, v.d), v.e, K(t), w), v.a, Rol30(v.b), v.c, v.d)
  }

  /** The working variables after `t` rounds. */
  function Rounds(h: Vars, m: seq<bv32>, t: nat): Vars
    requires |m| == 16
  {
    if t == 0 then h else Round(t - 1, Rounds(h, m, t - 1), W(m, t - 1))
  }

  function Plus(x: bv32, y: bv32): bv32 { x + y }

  function AddVars(h: Vars, v: Vars): Vars {
    Vars(Plus(h.a, v.a), Plus(h.b, v.b), Plus(h.c, v.c), Plus(h.d, v.d), Plus(h.e, v.e))
  }

  /** The chaining value after one more block. */
  function Compress(h: Vars, block: seq<bv8>): Vars
    requires |block| == 64
  {
    AddVars(h, Rounds(h, BlockWords(block), 80))
  }

  /** The chaining value after the first `n` blocks of a message. */
  function HashBlocks(msg: seq<bv8>, n: nat): Vars
    requires 64 * n <= |msg|
  {
    if n == 0 then INITIAL else Compress(HashBlocks(msg, n - 1), msg[64 * (n - 1)..64 * n])
  }

  function Zeros(n: nat): (s: seq<bv8>)
    ensures |s| == n
  {
    seq(n, i => 0)
  }

  function ByteOf(n: nat, i: nat): bv8
    requires i < 4
  {
    ((if i == 0 then n / 0x100_0000 else if i == 1 then n / 0x1_0000 else if i == 2 then n / 0x100 else n) % 0x100) as bv8
  }

  /** The four bytes of a number below 2^32, high byte first. */
  function Bytes32(n: nat): (s: seq<bv8>)
    ensures |s| == 4
  {
    [ByteOf(n, 0), ByteOf(n, 1), ByteOf(n, 2), ByteOf(n, 3)]
  }

  /** The bit length of a message as a 64-bit number, high byte first. */
  function LengthBytes(len: nat): (s: seq<bv8>)
    ensures |s| == 8
  {
    Bytes32(8 * len / 0x1_0000_0000 % 0x1_0000_0000) + Bytes32(8 * len % 0x1_0000_0000)
  }

  /** The number of zero bytes that brings the length to 56 modulo 64 after the byte 0x80. */
  function PadZeros(len: nat): (z: nat)
    ensures z < 64 && (len + 1 + z) % 64 == 56
  {
    (119 - len % 64) % 64
  }

  /** The padded message of section 5.1.1, for messages of whole bytes. */
  function Pad(msg: seq<bv8>): (p: seq<bv8>)
    ensures |p| % 64 == 0
  {
    var p := msg + [0x80] + Zeros(PadZeros(|msg|)) + LengthBytes(|msg|);
    PadLength(|msg|, |p|);
    p
  }

  lemma PadLength(len: nat, padded: nat)
    requires padded == len + 1 + PadZeros(len) + 8
    ensures padded % 64 == 0
  {
    assert padded == 64 * ((len + 1 + PadZeros(len)) / 64 + 1);
  }

  function BytesOfWord(w: bv32): (s: seq<bv8>)
    ensures |s| == 4
  {
    [((w >> 24) & 0xFF) as bv8, ((w >> 16) & 0xFF) as bv8, ((w >> 8) & 0xFF) as bv8, (w & 0xFF) as bv8]
  }

  function DigestOf(h: Vars): (s: seq<bv8>)
    ensures |s| == 20
  {
    BytesOfWord(h.a) + BytesOfWord(h.b) + BytesOfWord(h.c) + BytesOfWord(h.d) + BytesOfWord(h.e)
  }

  function Sha1(msg: seq<bv8>): (s: seq<bv8>)
    ensures |s| == 20
  {
    var p := Pad(msg);
    DigestOf(HashBlocks(p, |p| / 64))
  }

  function XorAll(s: seq<bv8>, b: bv8): (r: seq<bv8>)
    ensures |r| == |s|
  {
    seq(|s|, i requires 0 <= i < |s| => s[i] ^ b)
  }

  /** The key padded to one block. */
  function HmacKey(k: seq<bv8>): (r: seq<bv8>)
    ensures |r| == 64
  {
    var k' := if |k| > 64 then Sha1(k) else k;
    k' + Zeros(64 - |k'|)
  }

  /** HMAC over SHA-1 (section 2 of RFC 2104). */
  function Hmac(k: seq<bv8>, d: seq<bv8>): (r: seq<bv8>)
    ensures |r| == 20
  {
    Sha1(XorAll(HmacKey(k), 0x5c) + Sha1(XorAll(HmacKey(k), 0x36) + d))
  }

  /** Blocks already hashed do not depend on what follows. */
  lemma {:induction false} HashBlocksPrefix(msg: seq<bv8>, more: seq<bv8>, n: nat)
    requires 64 * n <= |msg|
    ensures HashBlocks(msg + more, n) == HashBlocks(msg, n)
  {
    if n > 0 {
      HashBlocksPrefix(msg, more, n - 1);
      assert (msg + more)[64 * (n - 1)..64 * n] == msg[64 * (n - 1)..64 * n];
    }
  }
}
