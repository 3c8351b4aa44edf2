/**
 The reflected CRC-32 of crc32.c: the incremental and the one-shot form compute the bitwise
 register, pieces may be cut anywhere, and every change confined to four adjacent bytes is
 detected.
 */
module Crc32Code {
  import opened CrcTables
  import opened Words

  function Xor32(a: bv32, b: bv32): bv32 { a ^ b }

  predicate Bottom(x: bv32) { x & 1 != 0 }

  function Right(x: bv32): bv32 { x >> 1 }

  /** One step of the reflected shift register with polynomial 0x04C11DB7. */
  function Shift(x: bv32): bv32 {
    if Bottom(x) then Xor32(Right(x), 0xEDB88320) else Right(x)
  }

  function Shift8(x: bv32): bv32 {
    Shift(Shift(Shift(Shift(Shift(Shift(Shift(Shift(x))))))))
  }

  function Low(b: bv8): bv32 { b as bv32 }

  /** The register after one more byte. */
  function Step(crc: bv32, b: bv8): bv32 {
    Shift8(Xor32(crc, Low(b)))
  }

  /** The register after a message. */
  function Register(crc: bv32, msg: seq<bv8>): bv32 {
    if msg == [] then crc else Step(Register(crc, msg[..|msg| - 1]), msg[|msg| - 1])
  }

  const ALL_ONES: bv32 := 0xFFFF_FFFF

  /** The CRC-32 of a message. */
  function Crc32(msg: seq<bv8>): bv32 {
    Xor32(Register(ALL_ONES, msg), ALL_ONES)
  }

  function TableIndex(crc: bv32, b: bv8): bv8 { ((crc & 0xFF) as bv8) ^ b }

  /** One byte step of `ln_crc32_update`. */
  function TableStep(crc: bv32, b: bv8): bv32 {
    Xor32(crc >> 8, Crc32Tab(TableIndex(crc, b)))
  }

  /** One byte step of `ln_crc32_signle_cal`. */
  function MaskedTableStep(crc: bv32, b: bv8): bv32 {
    Xor32((crc >> 8) & 0x00FF_FFFF, Crc32Tab(((crc ^ (b as bv32)) & 0xFF) as bv8))
  }

  // ---------- laws of the register ----------

  lemma XorLaws(a: bv32, b: bv32, c: bv32)
    ensures Xor32(a, b) == Xor32(b, a)
    ensures Xor32(Xor32(a, b), c) == Xor32(a, Xor32(b, c))
  {}

  lemma XorCancels(a: bv32, b: bv32)
    ensures Xor32(a, Xor32(a, b)) == b
  {}

  lemma XorZero(a: bv32, b: bv32)
    ensures Xor32(a, b) == 0 <==> a == b
  {}

  lemma XorInjective(a: bv32, b: bv32, c: bv32)
    requires Xor32(a, c) == Xor32(b, c)
    ensures a == b
  {
    hide Xor32;
    XorLaws(a, c, 0);
    XorLaws(b, c, 0);
    XorCancels(c, a);
    XorCancels(c, b);
  }

  lemma RightXor(a: bv32, b: bv32)
    ensures Right(Xor32(a, b)) == Xor32(Right(a), Right(b))
  {}

  lemma BottomXor(a: bv32, b: bv32)
    ensures Bottom(Xor32(a, b)) == (Bottom(a) != Bottom(b))
  {}

  lemma ShiftXor(a: bv32, b: bv32)
    ensures Shift(Xor32(a, b)) == Xor32(Shift(a), Shift(b))
  {
    hide Xor32, Bottom, Right;
    RightXor(a, b);
    BottomXor(a, b);
    XorLaws(Right(a), 0xEDB88320, Right(b));
    XorLaws(Right(a), 0xEDB88320, Xor32(Right(b), 0xEDB88320));
    XorLaws(Right(a), Right(b), 0xEDB88320);
    XorLaws(0xEDB88320, Right(b), 0);
    XorCancels(0xEDB88320, Right(b));
  }

  lemma Shift8Xor(a: bv32, b: bv32)
    ensures Shift8(Xor32(a, b)) == Xor32(Shift8(a), Shift8(b))
  {
    hide Shift, Xor32;
    var a1, b1 := Shift(a), Shift(b);
    var a2, b2 := Shift(a1), Shift(b1);
    var a3, b3 := Shift(a2), Shift(b2);
    var a4, b4 := Shift(a3), Shift(b3);
    var a5, b5 := Shift(a4), Shift(b4);
    var a6, b6 := Shift(a5), Shift(b5);
    var a7, b7 := Shift(a6), Shift(b6);
    ShiftXor(a, b); ShiftXor(a1, b1); ShiftXor(a2, b2); ShiftXor(a3, b3);
    ShiftXor(a4, b4); ShiftXor(a5, b5); ShiftXor(a6, b6); ShiftXor(a7, b7);
  }

  lemma ShiftKernel(x: bv32)
    ensures Shift(x) == 0 ==> x == 0
  {}

  lemma ShiftInjective(a: bv32, b: bv32)
    requires Shift(a) == Shift(b)
    ensures a == b
  {
    hide Shift, Xor32;
    ShiftXor(a, b);
    XorZero(Shift(a), Shift(b));
    XorZero(a, b);
    ShiftKernel(Xor32(a, b));
  }

  lemma Shift8Injective(a: bv32, b: bv32)
    requires Shift8(a) == Shift8(b)
    ensures a == b
  {
    hide Shift;
    var a1, b1 := Shift(a), Shift(b);
    var a2, b2 := Shift(a1), Shift(b1);
    var a3, b3 := Shift(a2), Shift(b2);
    var a4, b4 := Shift(a3), Shift(b3);
    var a5, b5 := Shift(a4), Shift(b4);
    var a6, b6 := Shift(a5), Shift(b5);
    ShiftInjective(Shift(Shift(a6)), Shift(Shift(b6)));
    ShiftInjective(Shift(a6), Shift(b6));
    ShiftInjective(a6, b6); ShiftInjective(a5, b5); ShiftInjective(a4, b4);
    ShiftInjective(a3, b3); ShiftInjective(a2, b2); ShiftInjective(a1, b1); ShiftInjective(a, b);
  }

  // ---------- the table ----------

  /** Every entry of Crc32Table is the register that its index leads to. */
  lemma Crc32TabEntry(x: bv8)
    ensures Crc32Tab(x) == Shift8(Low(x))
  {}

  function UpperBytes(crc: bv32): bv32 { crc & 0xFFFF_FF00 }

  /** Upper bytes pass through eight steps without feedback. */
  lemma Shift8Upper(crc: bv32)
    ensures Shift8(UpperBytes(crc)) == crc >> 8
  {}

  lemma SplitRegister(crc: bv32, b: bv8)
    ensures Xor32(crc, Low(b)) == Xor32(UpperBytes(crc), Low(TableIndex(crc, b)))
  {
    assert crc ^ (b as bv32) == (crc & 0xFFFF_FF00) ^ ((((crc & 0xFF) as bv8) ^ b) as bv32);
  }

  /** Both table forms of the byte step are the bitwise step. */
  lemma TableStepIsStep(crc: bv32, b: bv8)
    ensures TableStep(crc, b) == Step(crc, b)
    ensures MaskedTableStep(crc, b) == Step(crc, b)
  {
    hide Crc32Tab, Shift8, Xor32, Low, UpperBytes, TableIndex;
    SplitRegister(crc, b);
    Crc32TabEntry(TableIndex(crc, b));
    Shift8Xor(UpperBytes(crc), Low(TableIndex(crc, b)));
    Shift8Upper(crc);
    MaskedParts(crc, b);
  }

  lemma MaskedParts(crc: bv32, b: bv8)
    ensures (crc >> 8) & 0x00FF_FFFF == crc >> 8
    ensures ((crc ^ (b as bv32)) & 0xFF) as bv8 == TableIndex(crc, b)
  {}

  // ---------- the implementations ----------

  lemma {:induction false} RegisterAppend(crc: bv32, a: seq<bv8>, b: seq<bv8>)
    ensures Register(crc, a + b) == Register(Register(crc, a), b)
  {
    hide Step;
    if b == [] {
      assert a + b == a;
    } else {
      assert (a + b)[..|a + b| - 1] == a + b[..|b| - 1];
      RegisterAppend(crc, a, b[..|b| - 1]);
    }
  }

  class Crc32Context {
    var crc: bv32
    /** The bytes taken in since initialization. */
    ghost var msg: seq<bv8>

    ghost predicate Valid()
      reads this
    {
      crc == Register(ALL_ONES, msg)
    }

    /** `ln_crc32_init`. */
    method Init()
      modifies this
      ensures Valid() && msg == []
    {
      crc := 0xFFFF_FFFF;
      msg := [];
    }

    /** `ln_crc32_update`. */
    method Update(data: seq<bv8>, len: nat)
      requires Valid() && len <= |data|
      modifies this
      ensures Valid() && msg == old(msg) + data[..len]
    {
      hide Step, TableStep;
      RegisterAppend(ALL_ONES, msg, data[..len]);
      var start := crc;
      for i := 0 to len
        invariant crc == Register(start, data[..i])
        invariant msg == old(msg)
      {
        TableStepIsStep(crc, data[i]);
        crc := TableStep(crc, data[i]);
        assert data[..i + 1][..i] == data[..i];
      }
      msg := msg + data[..len];
    }

    /** `ln_crc32_final`: the checksum of all pieces; the context keeps the complement. */
    method Final() returns (r: bv32)
      requires Valid()
      modifies this
      ensures r == crc == Crc32(old(msg))
    {
      crc := Xor32(crc, 0xFFFF_FFFF);
      r := crc;
    }
  }

  /** `ln_crc32_signle_cal`; a length below 1 takes in nothing. */
  method SingleCal(data: seq<bv8>, length: int) returns (r: bv32)
    requires length <= |data|
    ensures r == Crc32(data[..if length < 0 then 0 else length])
  {
    hide Step, MaskedTableStep, Xor32;
    var crc: bv32 := 0xFFFF_FFFF;
    var len, p := length, 0;
    while len > 0
      invariant 0 <= p && (length >= 0 ==> len == length - p >= 0) && (length < 0 ==> len == length && p == 0)
      invariant crc == Register(ALL_ONES, data[..p])
    {
      TableStepIsStep(crc, data[p]);
      crc := MaskedTableStep(crc, data[p]);
      assert data[..p + 1][..p] == data[..p];
      p, len := p + 1, len - 1;
    }
    r := Xor32(crc, 0xFFFF_FFFF);
  }

  // ---------- burst detection ----------

  /** Equal bytes never bring different registers together. */
  lemma {:induction false} SuffixInjective(c: bv32, d: bv32, s: seq<bv8>)
    requires Register(c, s) == Register(d, s)
    ensures c == d
  {
    hide Shift8, Xor32, Low;
    if s != [] {
      var c', d', b := Register(c, s[..|s| - 1]), Register(d, s[..|s| - 1]), s[|s| - 1];
      Shift8Injective(Xor32(c', Low(b)), Xor32(d', Low(b)));
      XorInjective(c', d', Low(b));
      SuffixInjective(c, d, s[..|s| - 1]);
    }
  }

  function ShiftBytes(x: bv32, k: nat): bv32 {
    if k == 0 then x else Shift8(ShiftBytes(x, k - 1))
  }

  lemma {:induction false} ShiftBytesXor(a: bv32, b: bv32, k: nat)
    ensures ShiftBytes(Xor32(a, b), k) == Xor32(ShiftBytes(a, k), ShiftBytes(b, k))
  {
    hide Shift8, Xor32;
    if k > 0 {
      ShiftBytesXor(a, b, k - 1);
      Shift8Xor(ShiftBytes(a, k - 1), ShiftBytes(b, k - 1));
    }
  }

  lemma {:induction false} ShiftBytesInjective(a: bv32, b: bv32, k: nat)
    requires ShiftBytes(a, k) == ShiftBytes(b, k)
    ensures a == b
  {
    hide Shift8;
    if k > 0 {
      Shift8Injective(ShiftBytes(a, k - 1), ShiftBytes(b, k - 1));
      ShiftBytesInjective(a, b, k - 1);
    }
  }

  lemma PlaceShifts(b: bv8, k: nat)
    requires 0 < k < 4
    ensures Shift8(Place(b, k)) == Place(b, k - 1)
  {
    if k == 1 {} else if k == 2 {} else {}
  }

  lemma {:induction false} PlaceArrives(b: bv8, k: nat, j: nat)
    requires j <= k < 4
    ensures ShiftBytes(Place(b, k), j) == Place(b, k - j)
  {
    hide Shift8, Place;
    if j > 0 {
      PlaceArrives(b, k, j - 1);
      PlaceShifts(b, k - j + 1);
    }
  }

  /** Up to four bytes as one word, first byte lowest. */
  function Word(a: seq<bv8>): bv32
    requires |a| <= 4
  {
    if a == [] then 0 else Xor32(Word(a[..|a| - 1]), Place(a[|a| - 1], |a| - 1))
  }

  /** A window of bytes acts like one word added to the register before it. */
  lemma {:induction false} WindowAsWord(c: bv32, a: seq<bv8>)
    requires |a| <= 4
    ensures Register(c, a) == ShiftBytes(Xor32(c, Word(a)), |a|)
  {
    if a == [] {
      XorCancels(0, c);
      XorLaws(c, 0, 0);
    } else {
      var k, b, before := |a| - 1, a[|a| - 1], a[..|a| - 1];
      PlaceArrives(b, k, k);
      assert Place(b, 0) == Low(b);
      hide Shift8, Xor32, Place, Low;
      WindowAsWord(c, before);
      ShiftBytesXor(Xor32(c, Word(before)), Place(b, k), k);
      XorLaws(c, Word(before), Place(b, k));
    }
  }

  lemma WordBytes(a: seq<bv8>, n: nat)
    requires |a| == n <= 4
    ensures forall k :: 0 <= k < n ==> ByteAt(Word(a), k) == a[k]
    ensures forall k :: n <= k < 4 ==> ByteAt(Word(a), k) == 0
  {
    if n > 0 {
      WordBytes(a[..n - 1], n - 1);
      hide Place, ByteAt, Xor32;
      forall k | 0 <= k < 4
        ensures ByteAt(Word(a), k) == if k < n then a[k] else 0
      {
        ByteAtXor(Word(a[..n - 1]), a[n - 1], n - 1, k);
      }
    } else {
      ZeroBytes();
    }
  }

  lemma ZeroBytes()
    ensures forall k :: 0 <= k < 4 ==> ByteAt(0, k) == 0
  {}

  lemma ByteAtXor(w: bv32, b: bv8, j: nat, k: nat)
    requires j < 4 && k < 4 && ByteAt(w, j) == 0
    ensures ByteAt(Xor32(w, Place(b, j)), k) == if k == j then b else ByteAt(w, k)
  {
    hide *;
    ByteAtDistributes(w, Place(b, j), k);
    ByteAtPlace(b, j, k);
    XorByteZero(b);
    XorByteZero(ByteAt(w, k));
  }

  lemma XorByteZero(b: bv8)
    ensures XorByte(0, b) == b && XorByte(b, 0) == b
  {}

  lemma ByteAtDistributes(v: bv32, w: bv32, k: nat)
    requires k < 4
    ensures ByteAt(Xor32(v, w), k) == XorByte(ByteAt(v, k), ByteAt(w, k))
  {
    assert ByteAt(v ^ w, k) == ByteAt(v, k) ^ ByteAt(w, k) by {
      if k == 0 {} else if k == 1 {} else if k == 2 {} else {}
    }
    hide ByteAt;
  }

  lemma ByteAtPlace(b: bv8, j: nat, k: nat)
    requires j < 4 && k < 4
    ensures ByteAt(Place(b, j), k) == if k == j then b else 0
  {
    if j == 0 {
      if k == 0 {} else if k == 1 {} else if k == 2 {} else {}
    } else if j == 1 {
      if k == 0 {} else if k == 1 {} else if k == 2 {} else {}
    } else if j == 2 {
      if k == 0 {} else if k == 1 {} else if k == 2 {} else {}
    } else {
      if k == 0 {} else if k == 1 {} else if k == 2 {} else {}
    }
  }

  lemma WordInjective(a: seq<bv8>, b: seq<bv8>)
    requires |a| == |b| <= 4 && Word(a) == Word(b)
    ensures a == b
  {
    hide ByteAt, Word;
    WordBytes(a, |a|);
    WordBytes(b, |b|);
  }

  /**
   Two messages that differ only inside a window of at most four adjacent bytes have different
   checksums, whatever surrounds the window.
   */
  lemma BurstDetected(p: seq<bv8>, a: seq<bv8>, b: seq<bv8>, s: seq<bv8>)
    requires |a| == |b| <= 4 && a != b
    ensures Crc32(p + a + s) != Crc32(p + b + s)
  {
    hide Step, Xor32;
    if Crc32(p + a + s) == Crc32(p + b + s) {
      XorInjective(Register(ALL_ONES, p + a + s), Register(ALL_ONES, p + b + s), ALL_ONES);
      var c := Register(ALL_ONES, p);
      RegisterAppend(ALL_ONES, p, a);
      RegisterAppend(ALL_ONES, p, b);
      RegisterAppend(ALL_ONES, p + a, s);
      RegisterAppend(ALL_ONES, p + b, s);
      SuffixInjective(Register(c, a), Register(c, b), s);
      WindowAsWord(c, a);
      WindowAsWord(c, b);
      ShiftBytesInjective(Xor32(c, Word(a)), Xor32(c, Word(b)), |a|);
      XorLaws(c, Word(a), 0);
      XorLaws(c, Word(b), 0);
      XorInjective(Word(a), Word(b), c);
      WordInjective(a, b);
    }
  }

  // ---------- a known answer ----------

  /** The digits "123456789". */
  const DIGITS: seq<bv8> := [0x31, 0x32, 0x33, 0x34, 0x35, 0x36, 0x37, 0x38, 0x39]

  lemma NextByte(crc: bv32, s: seq<bv8>, i: nat)
    requires i < |s|
    ensures Register(crc, s[..i + 1]) == Step(Register(crc, s[..i]), s[i])
  {
    hide Step;
    assert s[..i + 1][..i] == s[..i];
  }

  lemma DigitSteps()
    ensures Step(0xffffffff, 0x31) == 0x7c231048
    ensures Step(0x7c231048, 0x32) == 0xb0acbb32
    ensures Step(0xb0acbb32, 0x33) == 0x77b79c2d
    ensures Step(0x77b79c2d, 0x34) == 0x641c1f5c
    ensures Step(0x641c1f5c, 0x35) == 0x340ac5e3
    ensures Step(0x340ac5e3, 0x36) == 0xf68d2c9e
    ensures Step(0xf68d2c9e, 0x37) == 0xaffc9660
    ensures Step(0xaffc9660, 0x38) == 0x651f2550
    ensures Step(0x651f2550, 0x39) == 0x340bc6d9
  {}

  lemma DigitAt()
    ensures DIGITS[0] == 0x31 && DIGITS[1] == 0x32 && DIGITS[2] == 0x33 && DIGITS[3] == 0x34 && DIGITS[4] == 0x35
    ensures DIGITS[5] == 0x36 && DIGITS[6] == 0x37 && DIGITS[7] == 0x38 && DIGITS[8] == 0x39
    ensures |DIGITS| == 9 && DIGITS[..9] == DIGITS && Register(0xffffffff, DIGITS[..0]) == 0xffffffff
  {}

  /** The check value of the CRC-32. */
  lemma CheckValue()
    ensures Crc32(DIGITS) == 0xcbf43926
  {
    hide Step, Register, DIGITS;
    DigitSteps();
    DigitAt();
    NextByte(0xffffffff, DIGITS, 0); NextByte(0xffffffff, DIGITS, 1); NextByte(0xffffffff, DIGITS, 2); NextByte(0xffffffff, DIGITS, 3); NextByte(0xffffffff, DIGITS, 4);
    NextByte(0xffffffff, DIGITS, 5); NextByte(0xffffffff, DIGITS, 6); NextByte(0xffffffff, DIGITS, 7); NextByte(0xffffffff, DIGITS, 8);
  }
}
