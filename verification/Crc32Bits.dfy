/**
 The CRC-32 bit by bit: a burst of at most thirty-two bits is detected at every bit offset, also
 where it crosses bytes.
 */
module Crc32Bits {
  import opened Crc32Code

  /** The bit of the register that leaves next. */
  function Mark(b: bool): bv32 { if b then 1 else 0 }

  /** The register after one more bit. */
  function Feed(r: bv32, b: bool): bv32 { Shift(Xor32(r, Mark(b))) }

  /** The register after some bits, the first one first. */
  function FeedAll(r: bv32, bits: seq<bool>): bv32
    decreases |bits|
  {
    if bits == [] then r else FeedAll(Feed(r, bits[0]), bits[1..])
  }

  /** The first `n` bits of a word, from the bottom. */
  function LowBits(x: bv32, n: nat): (bits: seq<bool>)
    ensures |bits| == n
    decreases n
  {
    if n == 0 then [] else [Bottom(x)] + LowBits(Right(x), n - 1)
  }

  /** The bits of a byte as the register takes them in: the lowest first. */
  function ByteBits(b: bv8): (bits: seq<bool>)
    ensures |bits| == 8
  {
    LowBits(Low(b), 8)
  }

  function Bits(msg: seq<bv8>): (bits: seq<bool>)
    ensures |bits| == 8 * |msg|
  {
    if msg == [] then [] else Bits(msg[..|msg| - 1]) + ByteBits(msg[|msg| - 1])
  }

  // ---------- bytes are bits ----------

  lemma {:induction false} FeedAppend(r: bv32, a: seq<bool>, b: seq<bool>)
    ensures FeedAll(r, a + b) == FeedAll(FeedAll(r, a), b)
    decreases |a|
  {
    hide Feed;
    if a == [] {
      assert a + b == b;
    } else {
      assert (a + b)[1..] == a[1..] + b;
      FeedAppend(Feed(r, a[0]), a[1..], b);
    }
  }

  function Rest(y: bv32): bv32 { y & 0xFFFF_FFFE }

  function LowBit(y: bv32): bv32 { y & 1 }

  lemma LowBitMark(y: bv32)
    ensures LowBit(y) == Mark(Bottom(y))
  {}

  lemma BottomAndRest(y: bv32)
    ensures y == Xor32(LowBit(y), Rest(y))
  {}

  lemma SplitBottom(y: bv32)
    ensures y == Xor32(Mark(Bottom(y)), Rest(y))
  {
    hide *;
    LowBitMark(y);
    BottomAndRest(y);
  }

  lemma RestBottom(y: bv32)
    ensures !Bottom(Rest(y))
  {}

  lemma RestRight(y: bv32)
    ensures Right(Rest(y)) == Right(y)
  {}

  lemma RestMovesDown(y: bv32)
    ensures Shift(Rest(y)) == Right(y)
  {
    hide Bottom, Right, Rest, Xor32;
    RestBottom(y);
    RestRight(y);
  }

  /** One step takes in the lowest bit and moves the others down. */
  lemma FeedBottom(r: bv32, y: bv32)
    ensures Shift(Xor32(r, y)) == Xor32(Feed(r, Bottom(y)), Right(y))
  {
    hide *;
    SplitBottom(y);
    RestMovesDown(y);
    XorLaws(r, Mark(Bottom(y)), Rest(y));
    ShiftXor(Xor32(r, Mark(Bottom(y))), Rest(y));
    FeedIs(r, Bottom(y));
  }

  lemma FeedIs(r: bv32, b: bool)
    ensures Feed(r, b) == Shift(Xor32(r, Mark(b)))
  {}

  function RightTimes(y: bv32, n: nat): bv32
    decreases n
  {
    if n == 0 then y else RightTimes(Right(y), n - 1)
  }

  function ShiftTimes(x: bv32, n: nat): bv32
    decreases n
  {
    if n == 0 then x else ShiftTimes(Shift(x), n - 1)
  }

  lemma ShiftTimesEight(x: bv32)
    ensures ShiftTimes(x, 8) == Shift8(x)
  {
    hide Shift;
    assert ShiftTimes(x, 8) == ShiftTimes(Shift(Shift(Shift(Shift(x)))), 4);
  }

  lemma {:induction false} FeedBits(r: bv32, y: bv32, n: nat)
    ensures ShiftTimes(Xor32(r, y), n) == Xor32(FeedAll(r, LowBits(y, n)), RightTimes(y, n))
    decreases n
  {
    hide Shift, Xor32, Right, Bottom, Feed;
    if n > 0 {
      FeedBottom(r, y);
      FeedBits(Feed(r, Bottom(y)), Right(y), n - 1);
      assert LowBits(y, n)[1..] == LowBits(Right(y), n - 1);
    }
  }

  lemma LowLeaves(b: bv8)
    ensures RightTimes(Low(b), 8) == 0
  {
    assert RightTimes(Low(b), 8) == RightTimes(Right(Right(Right(Right(Low(b))))), 4);
  }

  /** A byte step is eight bit steps. */
  lemma StepFeedsByte(r: bv32, b: bv8)
    ensures Step(r, b) == FeedAll(r, ByteBits(b))
  {
    FeedBits(r, Low(b), 8);
    ShiftTimesEight(Xor32(r, Low(b)));
    LowLeaves(b);
    XorLaws(FeedAll(r, ByteBits(b)), 0, 0);
    XorCancels(0, FeedAll(r, ByteBits(b)));
    XorZero(0, 0);
    hide Low, Xor32, FeedAll, ShiftTimes, RightTimes, Shift8, LowBits;
  }

  lemma {:induction false} RegisterFeedsBits(r: bv32, msg: seq<bv8>)
    ensures Register(r, msg) == FeedAll(r, Bits(msg))
  {
    hide Step, FeedAll, ByteBits;
    if msg == [] {
      FeedNothing(r);
    } else {
      var before, b := msg[..|msg| - 1], msg[|msg| - 1];
      RegisterFeedsBits(r, before);
      StepFeedsByte(Register(r, before), b);
      FeedAppend(r, Bits(before), ByteBits(b));
    }
  }

  lemma FeedNothing(r: bv32)
    ensures FeedAll(r, []) == r
  {}

  // ---------- bursts of bits ----------

  /** The highest `m` bits. */
  function HighMask(m: nat): bv32 {
    if m == 0 then 0x0 else if m == 1 then 0x80000000 else if m == 2 then 0xC0000000 else if m == 3 then 0xE0000000
    else if m == 4 then 0xF0000000 else if m == 5 then 0xF8000000 else if m == 6 then 0xFC000000 else if m == 7 then 0xFE000000
    else if m == 8 then 0xFF000000 else if m == 9 then 0xFF800000 else if m == 10 then 0xFFC00000 else if m == 11 then 0xFFE00000
    else if m == 12 then 0xFFF00000 else if m == 13 then 0xFFF80000 else if m == 14 then 0xFFFC0000 else if m == 15 then 0xFFFE0000
    else if m == 16 then 0xFFFF0000 else if m == 17 then 0xFFFF8000 else if m == 18 then 0xFFFFC000 else if m == 19 then 0xFFFFE000
    else if m == 20 then 0xFFFFF000 else if m == 21 then 0xFFFFF800 else if m == 22 then 0xFFFFFC00 else if m == 23 then 0xFFFFFE00
    else if m == 24 then 0xFFFFFF00 else if m == 25 then 0xFFFFFF80 else if m == 26 then 0xFFFFFFC0 else if m == 27 then 0xFFFFFFE0
    else if m == 28 then 0xFFFFFFF0 else if m == 29 then 0xFFFFFFF8 else if m == 30 then 0xFFFFFFFC else if m == 31 then 0xFFFFFFFE
    else 0xFFFFFFFF
  }

  function MaskDown(mask: bv32): bv32 { (mask >> 1) | 0x8000_0000 }

  lemma MaskStep(m: nat)
    requires m < 32
    ensures HighMask(m + 1) == MaskDown(HighMask(m)) && HighMask(m) & 1 == 0
  {}

  predicate Clear(x: bv32, mask: bv32) { x & mask == 0 }

  /** A step whose result has a clear highest bit had no feedback. */
  lemma NoFeedback(f: bv32, mask: bv32)
    requires Clear(Shift(f), MaskDown(mask))
    ensures !Bottom(f) && Clear(f, mask & 0xFFFF_FFFE)
  {}

  lemma ClearMark(d: bv32, b: bool, mask: bv32)
    requires !Bottom(Xor32(d, Mark(b))) && mask & 1 == 0 && Clear(Xor32(d, Mark(b)), mask & 0xFFFF_FFFE)
    ensures Bottom(d) == b && Clear(d, mask)
  {}

  lemma MarkSum(a: bool, b: bool)
    ensures Xor32(Mark(a), Mark(b)) == Mark(a != b)
  {}

  lemma XorSwap(a: bv32, b: bv32, c: bv32, d: bv32)
    ensures Xor32(Xor32(a, b), Xor32(c, d)) == Xor32(Xor32(a, c), Xor32(b, d))
  {
    hide Xor32;
    XorLaws(a, b, Xor32(c, d));
    XorLaws(b, c, d);
    XorLaws(c, b, d);
    XorLaws(a, c, Xor32(b, d));
  }

  lemma ClearNothing(mask: bv32)
    ensures Clear(0, mask)
  {}

  /** One step backwards: one more bit of the difference may be set, the lowest one. */
  lemma StepBack(c: bv32, d: bv32, a: bool, b: bool, m: nat)
    requires m < 32 && Clear(Xor32(Feed(c, a), Feed(d, b)), HighMask(m + 1))
    ensures Clear(Xor32(c, d), HighMask(m)) && Bottom(Xor32(c, d)) == (a != b)
  {
    hide *;
    FeedIs(c, a);
    FeedIs(d, b);
    MaskStep(m);
    var f := Xor32(Xor32(c, d), Mark(a != b));
    XorSwap(c, Mark(a), d, Mark(b));
    MarkSum(a, b);
    ShiftXor(Xor32(c, Mark(a)), Xor32(d, Mark(b)));
    NoFeedback(f, HighMask(m));
    ClearMark(Xor32(c, d), a != b, HighMask(m));
  }

  /**
   Registers that meet after `n` bits differed at most in their lowest `n` bits, and in the lowest
   one exactly if the first bits taken in differed.
   */
  lemma {:induction false} DifferedOnBottom(c: bv32, d: bv32, a: seq<bool>, b: seq<bool>)
    requires |a| == |b| <= 32 && FeedAll(c, a) == FeedAll(d, b)
    ensures Clear(Xor32(c, d), HighMask(32 - |a|))
    ensures a != [] ==> Bottom(Xor32(c, d)) == (a[0] != b[0])
    decreases |a|
  {
    hide Xor32, Feed, HighMask, Clear, Bottom;
    if a == [] {
      XorZero(c, d);
      ClearNothing(HighMask(32));
    } else {
      DifferedOnBottom(Feed(c, a[0]), Feed(d, b[0]), a[1..], b[1..]);
      StepBack(c, d, a[0], b[0], 32 - |a|);
    }
  }

  /** From one register, up to thirty-two bits lead to different registers. */
  lemma {:induction false} WindowInjective(c: bv32, a: seq<bool>, b: seq<bool>)
    requires |a| == |b| <= 32 && FeedAll(c, a) == FeedAll(c, b)
    ensures a == b
    decreases |a|
  {
    if a != [] {
      DifferedOnBottom(c, c, a, b);
      XorZero(c, c);
      assert a[0] == b[0];
      hide Feed;
      WindowInjective(Feed(c, a[0]), a[1..], b[1..]);
      assert a == [a[0]] + a[1..] && b == [b[0]] + b[1..];
    }
  }

  lemma {:induction false} FeedInjective(c: bv32, d: bv32, s: seq<bool>)
    requires FeedAll(c, s) == FeedAll(d, s)
    ensures c == d
    decreases |s|
  {
    hide Shift, Xor32, Mark;
    if s != [] {
      FeedInjective(Feed(c, s[0]), Feed(d, s[0]), s[1..]);
      ShiftInjective(Xor32(c, Mark(s[0])), Xor32(d, Mark(s[0])));
      XorInjective(c, d, Mark(s[0]));
    }
  }

  lemma {:induction false} BitsInjective(a: seq<bv8>, b: seq<bv8>)
    requires |a| == |b| && Bits(a) == Bits(b)
    ensures a == b
  {
    hide ByteBits;
    if a != [] {
      var n := |a| - 1;
      assert Bits(a)[..8 * n] == Bits(a[..n]) && Bits(b)[..8 * n] == Bits(b[..n]);
      assert Bits(a)[8 * n..] == ByteBits(a[n]) && Bits(b)[8 * n..] == ByteBits(b[n]);
      BitsInjective(a[..n], b[..n]);
      StepFeedsByte(0, a[n]);
      StepFeedsByte(0, b[n]);
      SameStep(a[n], b[n]);
    }
  }

  lemma SameStep(a: bv8, b: bv8)
    requires Step(0, a) == Step(0, b)
    ensures a == b
  {
    hide Shift8, Xor32, Low;
    Shift8Injective(Xor32(0, Low(a)), Xor32(0, Low(b)));
    XorLaws(0, Low(a), 0);
    XorLaws(0, Low(b), 0);
    XorInjective(Low(a), Low(b), 0);
    LowInjective(a, b);
  }

  lemma LowInjective(a: bv8, b: bv8)
    requires Low(a) == Low(b)
    ensures a == b
  {}

  /** The registers of two such messages differ, whatever they start from. */
  lemma RegistersDiffer(init: bv32, a: seq<bv8>, b: seq<bv8>, at: nat)
    requires |a| == |b| && a != b
    requires forall k :: 0 <= k < 8 * |a| && !(at <= k < at + 32) ==> Bits(a)[k] == Bits(b)[k]
    ensures Register(init, a) != Register(init, b)
  {
    var x, y := Bits(a), Bits(b);
    var lo := if at <= |x| then at else |x|;
    var hi := if at + 32 <= |x| then at + 32 else |x|;
    RegisterFeedsBits(init, a);
    RegisterFeedsBits(init, b);
    hide FeedAll, Bits, Register;
    if FeedAll(init, x) == FeedAll(init, y) {
      assert x == x[..lo] + x[lo..hi] + x[hi..] && y == x[..lo] + y[lo..hi] + x[hi..];
      FeedAppend(init, x[..lo] + x[lo..hi], x[hi..]);
      FeedAppend(init, x[..lo] + y[lo..hi], x[hi..]);
      FeedAppend(init, x[..lo], x[lo..hi]);
      FeedAppend(init, x[..lo], y[lo..hi]);
      var c := FeedAll(init, x[..lo]);
      FeedInjective(FeedAll(c, x[lo..hi]), FeedAll(c, y[lo..hi]), x[hi..]);
      WindowInjective(c, x[lo..hi], y[lo..hi]);
      BitsInjective(a, b);
    }
  }

  /**
   Two different messages of one length whose bits differ only within thirty-two adjacent ones
   have different checksums, wherever the burst begins.
   */
  lemma BitBurstDetected(a: seq<bv8>, b: seq<bv8>, at: nat)
    requires |a| == |b| && a != b
    requires forall k :: 0 <= k < 8 * |a| && !(at <= k < at + 32) ==> Bits(a)[k] == Bits(b)[k]
    ensures Crc32(a) != Crc32(b)
  {
    hide Register, Bits, Xor32;
    RegistersDiffer(ALL_ONES, a, b, at);
    if Crc32(a) == Crc32(b) {
      XorInjective(Register(ALL_ONES, a), Register(ALL_ONES, b), ALL_ONES);
    }
  }
}
