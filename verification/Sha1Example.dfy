/**
 The constants of FIPS 180-4 by what they are, and the digest of "abc" against this model of the
 standard, ten rounds at a time on literal words.
 */
module Sha1Example {
  import opened Sha1Spec

  /** The round constants of section 4.2.1: the whole parts of 2^30 times the roots of 2, 3, 5 and 10. */
  lemma RoundConstants(t: nat)
    ensures var k, n := K(t) as nat, if t < 20 then 2 else if t < 40 then 3 else if t < 60 then 5 else 10;
            k * k <= n * 0x1000_0000_0000_0000 < (k + 1) * (k + 1)
  {}

  /** The initial words of section 5.3.1, as little-endian bytes: counting up, down, and up in steps of 15 backwards. */
  lemma InitialWords()
    ensures INITIAL.a == 0x67452301 && INITIAL.b == 0xefcdab89 && INITIAL.c == 0x98badcfe && INITIAL.d == 0x10325476
    ensures INITIAL.e == 0xc3d2e1f0
  {}

  // ---------- the message schedule of "abc" ----------

  const M: seq<bv32> := [
    0x61626380, 0x00000000, 0x00000000, 0x00000000, 0x00000000, 0x00000000, 0x00000000, 0x00000000,
    0x00000000, 0x00000000, 0x00000000, 0x00000000, 0x00000000, 0x00000000, 0x00000000, 0x00000018]

  lemma NextWord(t: nat)
    requires 16 <= t
    ensures W(M, t) == Rol1(Xor4(W(M, t - 3), W(M, t - 8), W(M, t - 14), W(M, t - 16)))
  {}

  lemma FirstWord(t: nat)
    requires t < 16
    ensures W(M, t) == M[t]
  {}

  lemma Words0()
    ensures W(M, 0) == 0x61626380 && W(M, 1) == 0x00000000 && W(M, 2) == 0x00000000 && W(M, 3) == 0x00000000
    ensures W(M, 4) == 0x00000000 && W(M, 5) == 0x00000000 && W(M, 6) == 0x00000000 && W(M, 7) == 0x00000000
    ensures W(M, 8) == 0x00000000 && W(M, 9) == 0x00000000 && W(M, 10) == 0x00000000 && W(M, 11) == 0x00000000
    ensures W(M, 12) == 0x00000000 && W(M, 13) == 0x00000000 && W(M, 14) == 0x00000000 && W(M, 15) == 0x00000018
  {
    hide W;
    FirstWord(0); FirstWord(1); FirstWord(2); FirstWord(3);
    FirstWord(4); FirstWord(5); FirstWord(6); FirstWord(7);
    FirstWord(8); FirstWord(9); FirstWord(10); FirstWord(11);
    FirstWord(12); FirstWord(13); FirstWord(14); FirstWord(15);
  }

  lemma Words1()
    ensures W(M, 16) == 0xc2c4c700 && W(M, 17) == 0x00000000 && W(M, 18) == 0x00000030 && W(M, 19) == 0x85898e01
    ensures W(M, 20) == 0x00000000 && W(M, 21) == 0x00000060 && W(M, 22) == 0x0b131c03 && W(M, 23) == 0x00000030
    ensures W(M, 24) == 0x85898ec1 && W(M, 25) == 0x16263806 && W(M, 26) == 0x00000000 && W(M, 27) == 0x00000180
    ensures W(M, 28) == 0x2c4c700c && W(M, 29) == 0x000000f0 && W(M, 30) == 0x93afb507 && W(M, 31) == 0x5898e048
  {
    hide W;
    Words0();
    NextWord(16); NextWord(17); NextWord(18); NextWord(19);
    NextWord(20); NextWord(21); NextWord(22); NextWord(23);
    NextWord(24); NextWord(25); NextWord(26); NextWord(27);
    NextWord(28); NextWord(29); NextWord(30); NextWord(31);
  }

  lemma Words2()
    ensures W(M, 32) == 0x8e9a9202 && W(M, 33) == 0x00000600 && W(M, 34) == 0xb131c0f0 && W(M, 35) == 0x16263bc6
    ensures W(M, 36) == 0x4ebed41e && W(M, 37) == 0x626380a1 && W(M, 38) == 0x16263806 && W(M, 39) == 0x000018c0
    ensures W(M, 40) == 0xd2e138c4 && W(M, 41) == 0x00000f00 && W(M, 42) == 0x3afb5079 && W(M, 43) == 0x898e04e5
    ensures W(M, 44) == 0xe2ba3c2b && W(M, 45) == 0x000060c0 && W(M, 46) == 0x053a37cd && W(M, 47) == 0x74458547
  {
    hide W;
    Words1();
    NextWord(32); NextWord(33); NextWord(34); NextWord(35);
    NextWord(36); NextWord(37); NextWord(38); NextWord(39);
    NextWord(40); NextWord(41); NextWord(42); NextWord(43);
    NextWord(44); NextWord(45); NextWord(46); NextWord(47);
  }

  lemma Words3()
    ensures W(M, 48) == 0xda9415ed && W(M, 49) == 0x26380a16 && W(M, 50) == 0x626383a1 && W(M, 51) == 0x4ebf54de
    ensures W(M, 52) == 0x3835b44b && W(M, 53) == 0x0000f600 && W(M, 54) == 0x1e84c7a3 && W(M, 55) == 0x98e04d98
    ensures W(M, 56) == 0x651d16a0 && W(M, 57) == 0x62658ca1 && W(M, 58) == 0x458544d6 && W(M, 59) == 0x44584cb7
    ensures W(M, 60) == 0x7ba06619 && W(M, 61) == 0x6380aea2 && W(M, 62) == 0x0ae55269 && W(M, 63) == 0x627b49a1
  {
    hide W;
    Words2();
    NextWord(48); NextWord(49); NextWord(50); NextWord(51);
    NextWord(52); NextWord(53); NextWord(54); NextWord(55);
    NextWord(56); NextWord(57); NextWord(58); NextWord(59);
    NextWord(60); NextWord(61); NextWord(62); NextWord(63);
  }

  lemma Words4()
    ensures W(M, 64) == 0x7cd45c9d && W(M, 65) == 0x000f0000 && W(M, 66) == 0xfb50753a && W(M, 67) == 0xec6765e8
    ensures W(M, 68) == 0xba3c2be2 && W(M, 69) == 0x0060c000 && W(M, 70) == 0x3a37cd05 && W(M, 71) == 0x458546f4
    ensures W(M, 72) == 0xb8599dd6 && W(M, 73) == 0x380a1a26 && W(M, 74) == 0x01e02203 && W(M, 75) == 0xe7cc3456
    ensures W(M, 76) == 0xe6e60b69 && W(M, 77) == 0x00f60a00 && W(M, 78) == 0x5795ef4f && W(M, 79) == 0x822e0879
  {
    hide W;
    Words3();
    NextWord(64); NextWord(65); NextWord(66); NextWord(67);
    NextWord(68); NextWord(69); NextWord(70); NextWord(71);
    NextWord(72); NextWord(73); NextWord(74); NextWord(75);
    NextWord(76); NextWord(77); NextWord(78); NextWord(79);
  }

  // ---------- the rounds ----------

  lemma NextRound(t: nat)
    ensures Rounds(INITIAL, M, t + 1) == Round(t, Rounds(INITIAL, M, t), W(M, t))
  {}

  lemma State0()
    ensures Rounds(INITIAL, M, 0) == Vars(0x67452301, 0xefcdab89, 0x98badcfe, 0x10325476, 0xc3d2e1f0)
  {}

  lemma State10()
    ensures Rounds(INITIAL, M, 10) == Vars(0x8351f929, 0x4b6ae328, 0x27a301f5, 0x664f8c30, 0x0ff1f290)
  {
    hide Rounds, W;
    State0();
    Words0();
    NextRound(0); NextRound(1); NextRound(2); NextRound(3); NextRound(4); NextRound(5); NextRound(6); NextRound(7); NextRound(8); NextRound(9);
  }

  lemma State20()
    ensures Rounds(INITIAL, M, 20) == Vars(0xfd9e1d7d, 0xdc64901d, 0x20aa99ca, 0xd3a49608, 0xc82f758b)
  {
    hide Rounds, W;
    State10();
    Words0(); Words1();
    NextRound(10); NextRound(11); NextRound(12); NextRound(13); NextRound(14); NextRound(15); NextRound(16); NextRound(17); NextRound(18); NextRound(19);
  }

  lemma State30()
    ensures Rounds(INITIAL, M, 30) == Vars(0xc5fbaf5d, 0x8370b52e, 0xd2aa1365, 0x6f8d7ef5, 0x12104ee9)
  {
    hide Rounds, W;
    State20();
    Words1();
    NextRound(20); NextRound(21); NextRound(22); NextRound(23); NextRound(24); NextRound(25); NextRound(26); NextRound(27); NextRound(28); NextRound(29);
  }

  lemma State40()
    ensures Rounds(INITIAL, M, 40) == Vars(0x32de1cba, 0x4c986405, 0xf718e5cf, 0x03d447f6, 0xf72eec32)
  {
    hide Rounds, W;
    State30();
    Words1(); Words2();
    NextRound(30); NextRound(31); NextRound(32); NextRound(33); NextRound(34); NextRound(35); NextRound(36); NextRound(37); NextRound(38); NextRound(39);
  }

  lemma State50()
    ensures Rounds(INITIAL, M, 50) == Vars(0x120731c5, 0xbaf39337, 0xafab40b2, 0x2806e11b, 0x8714787c)
  {
    hide Rounds, W;
    State40();
    Words2(); Words3();
    NextRound(40); NextRound(41); NextRound(42); NextRound(43); NextRound(44); NextRound(45); NextRound(46); NextRound(47); NextRound(48); NextRound(49);
  }

  lemma State60()
    ensures Rounds(INITIAL, M, 60) == Vars(0x3f52de5a, 0x09d785fd, 0x3498bfd4, 0xf211824f, 0xd79915ab)
  {
    hide Rounds, W;
    State50();
    Words3();
    NextRound(50); NextRound(51); NextRound(52); NextRound(53); NextRound(54); NextRound(55); NextRound(56); NextRound(57); NextRound(58); NextRound(59);
  }

  lemma State70()
    ensures Rounds(INITIAL, M, 70) == Vars(0x3f2588c2, 0x497093c0, 0xde37534a, 0x030f7cad, 0x4405957e)
  {
    hide Rounds, W;
    State60();
    Words3(); Words4();
    NextRound(60); NextRound(61); NextRound(62); NextRound(63); NextRound(64); NextRound(65); NextRound(66); NextRound(67); NextRound(68); NextRound(69);
  }

  lemma State80()
    ensures Rounds(INITIAL, M, 80) == Vars(0x42541b35, 0x5738d5e1, 0x21834873, 0x681e6df6, 0xd8fdf6ad)
  {
    hide Rounds, W;
    State70();
    Words4();
    NextRound(70); NextRound(71); NextRound(72); NextRound(73); NextRound(74); NextRound(75); NextRound(76); NextRound(77); NextRound(78); NextRound(79);
  }

  // ---------- the digest ----------

  lemma SmallBytes()
    ensures ByteOf(0, 0) == 0 && ByteOf(0, 1) == 0 && ByteOf(0, 2) == 0 && ByteOf(0, 3) == 0
    ensures ByteOf(24, 0) == 0 && ByteOf(24, 1) == 0 && ByteOf(24, 2) == 0 && ByteOf(24, 3) == 24
  {}

  lemma LengthOfAbc()
    ensures PadZeros(3) == 52 && LengthBytes(3) == [0, 0, 0, 0, 0, 0, 0, 24]
  {
    hide ByteOf;
    SmallBytes();
  }

  lemma PadOfAbc()
    ensures Pad([0x61, 0x62, 0x63]) == [0x61, 0x62, 0x63, 0x80] + Zeros(52) + [0, 0, 0, 0, 0, 0, 0, 24]
  {
    hide PadZeros, LengthBytes;
    LengthOfAbc();
  }

  lemma WordsOfBytes()
    ensures BigEndianWord(0x61, 0x62, 0x63, 0x80) == 0x61626380 && BigEndianWord(0, 0, 0, 0) == 0 && BigEndianWord(0, 0, 0, 24) == 24
  {}

  lemma BlockOfAbc(p: seq<bv8>)
    requires p == [0x61, 0x62, 0x63, 0x80] + Zeros(52) + [0, 0, 0, 0, 0, 0, 0, 24]
    ensures |p| == 64 && BlockWords(p) == M
  {
    hide BigEndianWord;
    WordsOfBytes();
    forall i | 1 <= i < 15
      ensures p[4 * i] == p[4 * i + 1] == p[4 * i + 2] == p[4 * i + 3] == 0
    {}
    assert p[60..] == [0, 0, 0, 24];
    assert p[0] == 0x61 && p[1] == 0x62 && p[2] == 0x63 && p[3] == 0x80;
    assert p[60] == 0 && p[61] == 0 && p[62] == 0 && p[63] == 24;
  }

  lemma DigestBytes()
    ensures DigestOf(Vars(0xa9993e36, 0x4706816a, 0xba3e2571, 0x7850c26c, 0x9cd0d89d)) == [
      0xa9, 0x99, 0x3e, 0x36, 0x47, 0x06, 0x81, 0x6a, 0xba, 0x3e,
      0x25, 0x71, 0x78, 0x50, 0xc2, 0x6c, 0x9c, 0xd0, 0xd8, 0x9d]
  {}

  /** The digest of "abc". */
  lemma DigestOfAbc()
    ensures Sha1([0x61, 0x62, 0x63]) == [
      0xa9, 0x99, 0x3e, 0x36, 0x47, 0x06, 0x81, 0x6a, 0xba, 0x3e,
      0x25, 0x71, 0x78, 0x50, 0xc2, 0x6c, 0x9c, 0xd0, 0xd8, 0x9d]
  {
    hide Rounds, W, BlockWords, DigestOf, Pad;
    PadOfAbc();
    var p := Pad([0x61, 0x62, 0x63]);
    BlockOfAbc(p);
    State80();
    assert p[64 * 0..64 * 1] == p;
    assert HashBlocks(p, 1) == Compress(INITIAL, p);
    DigestBytes();
  }

  // ---------- the length of a message ----------

  lemma DropMultiple(q: nat, y: nat)
    ensures (0x100 * q + y) % 0x100 == y % 0x100
  {}

  /** The digits to the base 256 of the lower and of the upper half of a 64-bit number. */
  lemma Lower(n: nat)
    ensures n % 0x1_0000_0000 / 0x100_0000 % 0x100 == n / 0x100_0000 % 0x100
    ensures n % 0x1_0000_0000 / 0x1_0000 % 0x100 == n / 0x1_0000 % 0x100
    ensures n % 0x1_0000_0000 / 0x100 % 0x100 == n / 0x100 % 0x100
    ensures n % 0x1_0000_0000 % 0x100 == n % 0x100
  {
    var q, r := n / 0x1_0000_0000, n % 0x1_0000_0000;
    assert n / 0x100_0000 == 0x100 * q + r / 0x100_0000;
    assert n / 0x1_0000 == 0x100 * (0x100 * q) + r / 0x1_0000;
    assert n / 0x100 == 0x100 * (0x1_0000 * q) + r / 0x100;
    assert n == 0x100 * (0x100_0000 * q) + r;
    DropMultiple(q, r / 0x100_0000);
    DropMultiple(0x100 * q, r / 0x1_0000);
    DropMultiple(0x1_0000 * q, r / 0x100);
    DropMultiple(0x100_0000 * q, r);
  }

  lemma Upper(n: nat)
    ensures n / 0x1_0000_0000 / 0x100_0000 == n / 0x100_0000_0000_0000
    ensures n / 0x1_0000_0000 / 0x1_0000 == n / 0x1_0000_0000_0000
    ensures n / 0x1_0000_0000 / 0x100 == n / 0x100_0000_0000
  {}

  lemma UpperBytes(n: nat)
    ensures Bytes32(n / 0x1_0000_0000 % 0x1_0000_0000) == [
              (n / 0x100_0000_0000_0000 % 0x100) as bv8, (n / 0x1_0000_0000_0000 % 0x100) as bv8,
              (n / 0x100_0000_0000 % 0x100) as bv8, (n / 0x1_0000_0000 % 0x100) as bv8]
  {
    Lower(n / 0x1_0000_0000);
    Upper(n);
  }

  lemma LowerBytes(n: nat)
    ensures Bytes32(n % 0x1_0000_0000) == [
              (n / 0x100_0000 % 0x100) as bv8, (n / 0x1_0000 % 0x100) as bv8, (n / 0x100 % 0x100) as bv8, (n % 0x100) as bv8]
  {
    Lower(n);
  }

  /** The last eight bytes of the padding are the bit length of the message, modulo 2^64, high byte first. */
  lemma LengthIsBigEndian(len: nat)
    ensures LengthBytes(len) == [
              (8 * len / 0x100_0000_0000_0000 % 0x100) as bv8, (8 * len / 0x1_0000_0000_0000 % 0x100) as bv8,
              (8 * len / 0x100_0000_0000 % 0x100) as bv8, (8 * len / 0x1_0000_0000 % 0x100) as bv8,
              (8 * len / 0x100_0000 % 0x100) as bv8, (8 * len / 0x1_0000 % 0x100) as bv8,
              (8 * len / 0x100 % 0x100) as bv8, (8 * len % 0x100) as bv8]
  {
    hide Bytes32;
    UpperBytes(8 * len);
    LowerBytes(8 * len);
  }

  // ---------- HMAC ----------

  /** A key of at most one block, padded with zeros to one, in both passes; a longer key is hashed first. */
  lemma HmacOfKey(k: seq<bv8>, d: seq<bv8>)
    ensures |k| <= 64 ==>
              Hmac(k, d) == Sha1(seq(64, i requires 0 <= i < 64 => (if i < |k| then k[i] else 0) ^ 0x5c)
                                 + Sha1(seq(64, i requires 0 <= i < 64 => (if i < |k| then k[i] else 0) ^ 0x36) + d))
    ensures |k| > 64 ==> Hmac(k, d) == Hmac(Sha1(k), d)
  {
    hide Sha1;
    if |k| <= 64 {
      assert XorAll(HmacKey(k), 0x5c) == seq(64, i requires 0 <= i < 64 => (if i < |k| then k[i] else 0) ^ 0x5c);
      assert XorAll(HmacKey(k), 0x36) == seq(64, i requires 0 <= i < 64 => (if i < |k| then k[i] else 0) ^ 0x36);
    }
  }
}
