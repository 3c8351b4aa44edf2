/**
 The Modbus checksum `usMBCRC16` of myCrc.c: its two byte tables are the split table of the
 reflected CRC-16 with polynomial 0x8005, and a frame followed by its own checksum, low byte
 first, checks to 0.
 */
module Modbus {
  import opened CrcTables
  import opened Words

  /** One step of the reflected shift register. */
  function Shift(x: bv16): bv16 {
    if x & 1 != 0 then Xor16(x >> 1, 0xA001) else x >> 1
  }

  function Shift8(x: bv16): bv16 {
    Shift(Shift(Shift(Shift(Shift(Shift(Shift(Shift(x))))))))
  }

  function Low(b: bv8): bv16 { b as bv16 }

  function Step(crc: bv16, b: bv8): bv16 {
    Shift8(Xor16(crc, Low(b)))
  }

  /** The register after a message, bit by bit. */
  function Register(crc: bv16, msg: seq<bv8>): bv16 {
    if msg == [] then crc else Step(Register(crc, msg[..|msg| - 1]), msg[|msg| - 1])
  }

  function ModbusCrc(msg: seq<bv8>): bv16 {
    Register(0xFFFF, msg)
  }

  function Join(hi: bv8, lo: bv8): bv16 { (hi as bv16 << 8) | (lo as bv16) }

  function HighByte(x: bv16): bv8 { ((x >> 8) & 0xFF) as bv8 }

  /** Both tables together hold the register that the index leads to. */
  lemma TableEntry(x: bv8)
    ensures Join(ModbusLo(x), ModbusHi(x)) == Shift8(Low(x))
  {}

  predicate Bottom(x: bv16) { x & 1 != 0 }

  function Right(x: bv16): bv16 { x >> 1 }

  lemma RightXor(a: bv16, b: bv16)
    ensures Right(Xor16(a, b)) == Xor16(Right(a), Right(b))
    ensures Bottom(Xor16(a, b)) == (Bottom(a) != Bottom(b))
  {}

  lemma ShiftUnfold(x: bv16)
    ensures Shift(x) == if Bottom(x) then Xor16(Right(x), 0xA001) else Right(x)
  {}

  lemma ShiftXor(a: bv16, b: bv16)
    ensures Shift(Xor16(a, b)) == Xor16(Shift(a), Shift(b))
  {
    hide *;
    ShiftUnfold(a);
    ShiftUnfold(b);
    ShiftUnfold(Xor16(a, b));
    RightXor(a, b);
    Xor16Laws(Right(a), 0xA001, Right(b));
    Xor16Laws(Right(a), 0xA001, Xor16(Right(b), 0xA001));
    Xor16Laws(Right(a), Right(b), 0xA001);
    Xor16Laws(0xA001, Right(b), 0);
    Xor16Cancels(0xA001, Right(b));
  }

  lemma Shift8Xor(a: bv16, b: bv16)
    ensures Shift8(Xor16(a, b)) == Xor16(Shift8(a), Shift8(b))
  {
    hide Shift, Xor16;
    var a1, b1 := Shift(a), Shift(b);
    var a2, b2 := Shift(a1), Shift(b1);
    var a3, b3 := Shift(a2), Shift(b2);
    var a4, b4 := Shift(a3), Shift(b3);
    var a5, b5 := Shift(a4), Shift(b4);
    var a6, b6 := Shift(a5), Shift(b5);
    var a7, b7 := Shift(a6), Shift(b6);
    ShiftXor(a, b); ShiftXor(a1, b1); ShiftXor(a2, b2); ShiftXor(a3, b3);
    ShiftXor(a4, b4); ShiftXor(a5, b5); ShiftXor(a6, b6); ShiftXor(a7, b7);
  }

  /** A high byte passes through eight steps without feedback. */
  lemma Shift8High(hi: bv8)
    ensures Shift8(Join(hi, 0)) == Low(hi)
  {}

  lemma SplitRegister(hi: bv8, lo: bv8, b: bv8)
    ensures Xor16(Join(hi, lo), Low(b)) == Xor16(Join(hi, 0), Low(XorByte(lo, b)))
  {}

  lemma JoinXor(hi: bv8, t: bv8, u: bv8)
    ensures Xor16(Low(hi), Join(u, t)) == Join(u, XorByte(hi, t))
  {}

  /** One pass of the loop on the register halves. */
  lemma TableStep(hi: bv8, lo: bv8, b: bv8)
    ensures Join(ModbusLo(XorByte(lo, b)), XorByte(hi, ModbusHi(XorByte(lo, b)))) == Step(Join(hi, lo), b)
  {
    hide Join, Xor16, XorByte, Low, Shift8, ModbusHi, ModbusLo;
    SplitRegister(hi, lo, b);
    Shift8Xor(Join(hi, 0), Low(XorByte(lo, b)));
    Shift8High(hi);
    TableEntry(XorByte(lo, b));
    JoinXor(hi, ModbusHi(XorByte(lo, b)), ModbusLo(XorByte(lo, b)));
  }

  /** `usMBCRC16`. */
  method UsMBCRC16(frame: seq<bv8>, length: nat) returns (crc: bv16)
    requires length <= 0xFFFF && length <= |frame|
    ensures crc == ModbusCrc(frame[..length])
  {
    hide Join, Step, XorByte, ModbusHi, ModbusLo;
    var hi: bv8, lo: bv8 := 0xFF, 0xFF;
    var usLen, p := length, 0;
    AllOnes();
    while usLen > 0
      invariant 0 <= usLen <= length && p == length - usLen
      invariant Join(hi, lo) == ModbusCrc(frame[..p])
    {
      usLen := usLen - 1;
      TableStep(hi, lo, frame[p]);
      var index := XorByte(lo, frame[p]);
      lo := XorByte(hi, ModbusHi(index));
      hi := ModbusLo(index);
      assert frame[..p + 1][..p] == frame[..p];
      p := p + 1;
    }
    crc := Join(hi, lo);
  }

  lemma AllOnes()
    ensures Join(0xFF, 0xFF) == 0xFFFF
  {}

  /** A frame followed by its checksum, low byte first, has checksum 0. */
  lemma FrameWithChecksumIsZero(msg: seq<bv8>)
    ensures var c := ModbusCrc(msg); ModbusCrc(msg + [LowByte(c), HighByte(c)]) == 0
  {
    var c := ModbusCrc(msg);
    var all := msg + [LowByte(c), HighByte(c)];
    assert all[..|all| - 1] == msg + [LowByte(c)];
    assert (msg + [LowByte(c)])[..|msg|] == msg;
    hide Shift8, Xor16, Low, LowByte, HighByte;
    assert ModbusCrc(msg + [LowByte(c)]) == Step(c, LowByte(c));
    assert ModbusCrc(all) == Step(Step(c, LowByte(c)), HighByte(c));
    Residue(c);
  }

  lemma Residue(c: bv16)
    ensures Step(Step(c, LowByte(c)), HighByte(c)) == 0
  {
    hide Shift8;
    assert Xor16(c, Low(LowByte(c))) == Join(HighByte(c), 0);
    Shift8High(HighByte(c));
    Xor16Cancels(Low(HighByte(c)), 0);
    ShiftOfZero();
  }

  lemma ShiftOfZero()
    ensures Shift8(0) == 0
  {}

  // ---------- a known answer ----------

  /** The digits "123456789". */
  const DIGITS: seq<bv8> := [0x31, 0x32, 0x33, 0x34, 0x35, 0x36, 0x37, 0x38, 0x39]

  lemma NextByte(crc: bv16, s: seq<bv8>, i: nat)
    requires i < |s|
    ensures Register(crc, s[..i + 1]) == Step(Register(crc, s[..i]), s[i])
  {
    hide Step;
    assert s[..i + 1][..i] == s[..i];
  }

  lemma DigitSteps()
    ensures Step(0xffff, 0x31) == 0x947e
    ensures Step(0x947e, 0x32) == 0xf595
    ensures Step(0xf595, 0x33) == 0x7a75
    ensures Step(0x7a75, 0x34) == 0x30ba
    ensures Step(0x30ba, 0x35) == 0xa471
    ensures Step(0xa471, 0x36) == 0x32e4
    ensures Step(0x32e4, 0x37) == 0x9d73
    ensures Step(0x9d73, 0x38) == 0x37dd
    ensures Step(0x37dd, 0x39) == 0x4b37
  {}

  lemma DigitAt()
    ensures DIGITS[0] == 0x31 && DIGITS[1] == 0x32 && DIGITS[2] == 0x33 && DIGITS[3] == 0x34 && DIGITS[4] == 0x35
    ensures DIGITS[5] == 0x36 && DIGITS[6] == 0x37 && DIGITS[7] == 0x38 && DIGITS[8] == 0x39
    ensures |DIGITS| == 9 && DIGITS[..9] == DIGITS && Register(0xffff, DIGITS[..0]) == 0xffff
  {}

  /** The check value of the Modbus CRC. */
  lemma CheckValue()
    ensures ModbusCrc(DIGITS) == 0x4b37
  {
    hide Step, Register, DIGITS;
    DigitSteps();
    DigitAt();
    NextByte(0xffff, DIGITS, 0); NextByte(0xffff, DIGITS, 1); NextByte(0xffff, DIGITS, 2); NextByte(0xffff, DIGITS, 3); NextByte(0xffff, DIGITS, 4);
    NextByte(0xffff, DIGITS, 5); NextByte(0xffff, DIGITS, 6); NextByte(0xffff, DIGITS, 7); NextByte(0xffff, DIGITS, 8);
  }
}
