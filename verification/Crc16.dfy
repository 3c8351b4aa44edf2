/**
 The CRC-16 with polynomial 0x1021: bit by bit in myCrc.c (`myCalcCRC`) and by table in
 crc16.c (`crc16_ccitt`). Both compute one function, and it detects every change confined
 to two adjacent bytes.
 */
module Crc16Code {
  import opened CrcTables
  import opened Words

  predicate Top(x: bv16) { x & 0x8000 != 0 }

  function Left(x: bv16): bv16 { x << 1 }

  /** One step of the shift register. */
  function Shift(x: bv16): bv16 {
    if Top(x) then Xor16(Left(x), 0x1021) else Left(x)
  }

  function Shift8(x: bv16): bv16 {
    Shift(Shift(Shift(Shift(Shift(Shift(Shift(Shift(x))))))))
  }

  function High(b: bv8): bv16 { b as bv16 << 8 }

  function Low(b: bv8): bv16 { b as bv16 }

  /** The register after one more byte. */
  function Step(crc: bv16, b: bv8): bv16 {
    Shift8(Xor16(crc, High(b)))
  }

  /** The register after a message. */
  function Crc16(crc: bv16, msg: seq<bv8>): bv16 {
    if msg == [] then crc else Step(Crc16(crc, msg[..|msg| - 1]), msg[|msg| - 1])
  }

  function TableIndex(crc: bv16, b: bv8): bv8 {
    (((crc >> 8) ^ (b as bv16)) & 0xFF) as bv8
  }

  /** The register after one more byte, by table. */
  function TableStep(crc: bv16, b: bv8): bv16 {
    Xor16(crc << 8, Crc16Tab(TableIndex(crc, b)))
  }

  lemma LeftXor(a: bv16, b: bv16)
    ensures Left(Xor16(a, b)) == Xor16(Left(a), Left(b))
  {}

  lemma TopXor(a: bv16, b: bv16)
    ensures Top(Xor16(a, b)) == (Top(a) != Top(b))
  {}

  lemma ShiftXor(a: bv16, b: bv16)
    ensures Shift(Xor16(a, b)) == Xor16(Shift(a), Shift(b))
  {
    hide Xor16, Top, Left;
    LeftXor(a, b);
    TopXor(a, b);
    Xor16Laws(Left(a), 0x1021, Left(b));
    Xor16Laws(Left(a), 0x1021, Xor16(Left(b), 0x1021));
    Xor16Laws(Left(a), Left(b), 0x1021);
    Xor16Laws(0x1021, Left(b), 0);
    Xor16Cancels(0x1021, Left(b));
  }

  lemma Shift8Xor(a: bv16, b: bv16)
    ensures Shift8(Xor16(a, b)) == Xor16(Shift8(a), Shift8(b))
  {
    hide Shift, Xor16;
    var a1, b1 := Shift(a), Shift(b);
    var a2, b2 := Shift(a1), Shift(b1);
    var a3, b3 := Shift(a2), Shift(b2);
    var a4, b4 := Shift(a3), Shift(b3);
    var a5, b5 := Shift(a4), Shift(b4);
    var a6, b6 := Shift(a5), Shift(b5);
    var a7, b7 := Shift(a6), Shift(b6);
    ShiftXor(a, b); ShiftXor(a1, b1); ShiftXor(a2, b2); ShiftXor(a3, b3);
    ShiftXor(a4, b4); ShiftXor(a5, b5); ShiftXor(a6, b6); ShiftXor(a7, b7);
  }

  /** A low byte passes through eight steps without feedback. */
  lemma Shift8Low(b: bv8)
    ensures Shift8(Low(b)) == High(b)
  {}

  /** Every entry of crc16tab is the register that its index leads to. */
  lemma Crc16TabEntry(x: bv8)
    ensures Crc16Tab(x) == Shift8(High(x))
  {}

  lemma ShiftKernel(x: bv16)
    ensures Shift(x) == 0 ==> x == 0
  {}

  lemma ShiftInjective(a: bv16, b: bv16)
    requires Shift(a) == Shift(b)
    ensures a == b
  {
    hide Shift, Xor16;
    ShiftXor(a, b);
    Xor16Zero(Shift(a), Shift(b));
    Xor16Zero(a, b);
    ShiftKernel(Xor16(a, b));
  }

  lemma Shift8Injective(a: bv16, b: bv16)
    requires Shift8(a) == Shift8(b)
    ensures a == b
  {
    hide Shift;
    var a1, b1 := Shift(a), Shift(b);
    var a2, b2 := Shift(a1), Shift(b1);
    var a3, b3 := Shift(a2), Shift(b2);
    var a4, b4 := Shift(a3), Shift(b3);
    var a5, b5 := Shift(a4), Shift(b4);
    var a6, b6 := Shift(a5), Shift(b5);
    ShiftInjective(Shift(Shift(a6)), Shift(Shift(b6)));
    ShiftInjective(Shift(a6), Shift(b6));
    ShiftInjective(a6, b6); ShiftInjective(a5, b5); ShiftInjective(a4, b4);
    ShiftInjective(a3, b3); ShiftInjective(a2, b2); ShiftInjective(a1, b1); ShiftInjective(a, b);
  }

  /** The table form of one byte step. */
  lemma TableStepIsStep(crc: bv16, b: bv8)
    ensures TableStep(crc, b) == Step(crc, b)
  {
    hide Crc16Tab, Shift8, Xor16, High, Low;
    var index := TableIndex(crc, b);
    SplitRegister(crc, b);
    Crc16TabEntry(index);
    Shift8Xor(High(index), Low(LowByte(crc)));
    Shift8Low(LowByte(crc));
    Xor16Laws(Shift8(High(index)), High(LowByte(crc)), 0);
  }

  lemma SplitRegister(crc: bv16, b: bv8)
    ensures Xor16(crc, High(b)) == Xor16(High(TableIndex(crc, b)), Low(LowByte(crc)))
    ensures crc << 8 == High(LowByte(crc))
  {
    assert crc ^ (b as bv16 << 8) == (((((crc >> 8) ^ (b as bv16)) & 0xFF) as bv8) as bv16 << 8) ^ (((crc & 0xFF) as bv8) as bv16);
  }

  // ---------- the two implementations ----------

  /** `myCalcCRC`: bit by bit. */
  method MyCalcCRC(data: seq<bv8>, length: nat) returns (crc: bv16)
    requires length <= 0xFFFF && length <= |data|
    ensures crc == Crc16(0, data[..length])
  {
    hide Shift, Xor16, High;
    crc := 0;
    var lenth, p := length, 0;
    while 0 < lenth
      invariant 0 <= lenth <= length && p == length - lenth
      invariant crc == Crc16(0, data[..p])
    {
      ghost var x := Xor16(crc, High(data[p]));
      crc := Xor16(crc, High(data[p]));
      ShiftTimesEight(x);
      var i := 8;
      while i > 0
        invariant 0 <= i <= 8 && ShiftTimes(crc, i) == Shift8(x)
      {
        crc := Shift(crc);
        i := i - 1;
      }
      assert data[..p + 1][..p] == data[..p];
      lenth, p := lenth - 1, p + 1;
    }
  }

  function ShiftTimes(x: bv16, n: nat): bv16
    decreases n
  {
    if n == 0 then x else ShiftTimes(Shift(x), n - 1)
  }

  lemma ShiftTimesEight(x: bv16)
    ensures ShiftTimes(x, 8) == Shift8(x)
  {
    hide Shift;
    assert ShiftTimes(x, 8) == ShiftTimes(Shift(Shift(Shift(Shift(x)))), 4);
  }

  /** `crc16_ccitt`: by table; a length below 1 hashes nothing. */
  method Crc16Ccitt(buf: seq<bv8>, len: int) returns (crc: bv16)
    requires len <= |buf|
    ensures crc == Crc16(0, buf[..if len < 0 then 0 else len])
  {
    hide TableStep, Step;
    crc := 0;
    var counter := 0;
    while counter < len
      invariant 0 <= counter && (counter <= len || counter == 0)
      invariant crc == Crc16(0, buf[..counter])
    {
      TableStepIsStep(crc, buf[counter]);
      crc := TableStep(crc, buf[counter]);
      assert buf[..counter + 1][..counter] == buf[..counter];
      counter := counter + 1;
    }
  }

  // ---------- burst detection ----------

  lemma {:induction false} Crc16Append(crc: bv16, a: seq<bv8>, b: seq<bv8>)
    ensures Crc16(crc, a + b) == Crc16(Crc16(crc, a), b)
  {
    hide Step;
    if b == [] {
      assert a + b == a;
    } else {
      assert (a + b)[..|a + b| - 1] == a + b[..|b| - 1];
      Crc16Append(crc, a, b[..|b| - 1]);
    }
  }

  /** Equal bytes never bring different registers together. */
  lemma {:induction false} SuffixInjective(c: bv16, d: bv16, s: seq<bv8>)
    requires Crc16(c, s) == Crc16(d, s)
    ensures c == d
  {
    hide Shift8, Xor16, High;
    if s != [] {
      var c', d', b := Crc16(c, s[..|s| - 1]), Crc16(d, s[..|s| - 1]), s[|s| - 1];
      Shift8Injective(Xor16(c', High(b)), Xor16(d', High(b)));
      Xor16Injective(c', d', High(b));
      SuffixInjective(c, d, s[..|s| - 1]);
    }
  }

  /** Two byte steps are sixteen shifts of the register with both bytes added to it. */
  lemma TwoSteps(c: bv16, b0: bv8, b1: bv8)
    ensures Step(Step(c, b0), b1) == Shift8(Shift8(Xor16(c, Xor16(High(b0), Low(b1)))))
  {
    hide Shift8, Xor16, High, Low;
    Shift8Xor(Xor16(c, High(b0)), Low(b1));
    Shift8Low(b1);
    Xor16Laws(c, High(b0), Low(b1));
  }

  lemma WordInjective(a0: bv8, a1: bv8, b0: bv8, b1: bv8)
    requires Xor16(High(a0), Low(a1)) == Xor16(High(b0), Low(b1))
    ensures a0 == b0 && a1 == b1
  {
    var x := Xor16(High(a0), Low(a1));
    assert ((x >> 8) as bv8) == a0 == b0;
    assert ((x & 0xFF) as bv8) == a1 == b1;
  }

  /**
   Two messages that differ only inside a window of at most two adjacent bytes have different
   checksums, whatever surrounds the window and whatever the register starts from.
   */
  lemma BurstDetected(init: bv16, p: seq<bv8>, a: seq<bv8>, b: seq<bv8>, s: seq<bv8>)
    requires |a| == |b| <= 2 && a != b
    ensures Crc16(init, p + a + s) != Crc16(init, p + b + s)
  {
    hide Step;
    var c := Crc16(init, p);
    Crc16Append(init, p, a);
    Crc16Append(init, p, b);
    Crc16Append(init, p + a, s);
    Crc16Append(init, p + b, s);
    if Crc16(init, p + a + s) == Crc16(init, p + b + s) {
      SuffixInjective(Crc16(c, a), Crc16(c, b), s);
      WindowInjective(c, a, b);
    }
  }

  lemma WindowInjective(c: bv16, a: seq<bv8>, b: seq<bv8>)
    requires |a| == |b| <= 2 && Crc16(c, a) == Crc16(c, b)
    ensures a == b
  {
    hide Shift8, Xor16, High, Low;
    if |a| == 1 {
      assert a[..0] == b[..0] == [];
      Shift8Injective(Xor16(c, High(a[0])), Xor16(c, High(b[0])));
      Xor16Laws(c, High(a[0]), 0); Xor16Laws(c, High(b[0]), 0);
      Xor16Injective(High(a[0]), High(b[0]), c);
      HighInjective(a[0], b[0]);
    } else if |a| == 2 {
      TwoBytes(c, a);
      TwoBytes(c, b);
      TwoSteps(c, a[0], a[1]);
      TwoSteps(c, b[0], b[1]);
      var x, y := Xor16(High(a[0]), Low(a[1])), Xor16(High(b[0]), Low(b[1]));
      Shift8Injective(Shift8(Xor16(c, x)), Shift8(Xor16(c, y)));
      Shift8Injective(Xor16(c, x), Xor16(c, y));
      Xor16Laws(c, x, 0); Xor16Laws(c, y, 0);
      Xor16Injective(x, y, c);
      WordInjective(a[0], a[1], b[0], b[1]);
    }
  }

  lemma TwoBytes(c: bv16, a: seq<bv8>)
    requires |a| == 2
    ensures Crc16(c, a) == Step(Step(c, a[0]), a[1])
  {
    hide Step;
    assert a[..1][..0] == [];
    assert Crc16(c, a[..1]) == Step(c, a[0]);
  }

  lemma HighInjective(a: bv8, b: bv8)
    requires High(a) == High(b)
    ensures a == b
  {}

  // ---------- a known answer ----------

  /** The digits "123456789". */
  const DIGITS: seq<bv8> := [0x31, 0x32, 0x33, 0x34, 0x35, 0x36, 0x37, 0x38, 0x39]

  lemma NextByte(crc: bv16, s: seq<bv8>, i: nat)
    requires i < |s|
    ensures Crc16(crc, s[..i + 1]) == Step(Crc16(crc, s[..i]), s[i])
  {
    hide Step;
    assert s[..i + 1][..i] == s[..i];
  }

  lemma DigitSteps()
    ensures Step(0x0000, 0x31) == 0x2672
    ensures Step(0x2672, 0x32) == 0x20b5
    ensures Step(0x20b5, 0x33) == 0x9752
    ensures Step(0x9752, 0x34) == 0xd789
    ensures Step(0xd789, 0x35) == 0x546c
    ensures Step(0x546c, 0x36) == 0x20e4
    ensures Step(0x20e4, 0x37) == 0x86d6
    ensures Step(0x86d6, 0x38) == 0x9015
    ensures Step(0x9015, 0x39) == 0x31c3
  {}

  lemma DigitAt()
    ensures DIGITS[0] == 0x31 && DIGITS[1] == 0x32 && DIGITS[2] == 0x33 && DIGITS[3] == 0x34 && DIGITS[4] == 0x35
    ensures DIGITS[5] == 0x36 && DIGITS[6] == 0x37 && DIGITS[7] == 0x38 && DIGITS[8] == 0x39
    ensures |DIGITS| == 9 && DIGITS[..9] == DIGITS && Crc16(0x0000, DIGITS[..0]) == 0x0000
  {}

  /** The check value of the CRC-16 with polynomial 0x1021 that starts from 0. */
  lemma CheckValue()
    ensures Crc16(0, DIGITS) == 0x31c3
  {
    hide Step, Crc16, DIGITS;
    DigitSteps();
    DigitAt();
    NextByte(0x0000, DIGITS, 0); NextByte(0x0000, DIGITS, 1); NextByte(0x0000, DIGITS, 2); NextByte(0x0000, DIGITS, 3); NextByte(0x0000, DIGITS, 4);
    NextByte(0x0000, DIGITS, 5); NextByte(0x0000, DIGITS, 6); NextByte(0x0000, DIGITS, 7); NextByte(0x0000, DIGITS, 8);
  }
}
