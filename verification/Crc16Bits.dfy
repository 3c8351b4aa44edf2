/**
 The CRC-16 bit by bit: a burst of at most sixteen bits is detected at every bit offset, also
 where it crosses bytes.
 */
module Crc16Bits {
  import opened Crc16Code
  import opened Words

  /** The leading bit of the register. */
  function Mark(b: bool): bv16 { if b then 0x8000 else 0 }

  /** The register after one more bit. */
  function Feed(r: bv16, b: bool): bv16 { Shift(Xor16(r, Mark(b))) }

  /** The register after some bits, the first one first. */
  function FeedAll(r: bv16, bits: seq<bool>): bv16
    decreases |bits|
  {
    if bits == [] then r else FeedAll(Feed(r, bits[0]), bits[1..])
  }

  /** The first `n` bits of a word, from the top. */
  function TopBits(x: bv16, n: nat): (bits: seq<bool>)
    ensures |bits| == n
    decreases n
  {
    if n == 0 then [] else [Top(x)] + TopBits(Left(x), n - 1)
  }

  /** The bits of a byte as the register takes them in: the highest first. */
  function ByteBits(b: bv8): (bits: seq<bool>)
    ensures |bits| == 8
  {
    TopBits(High(b), 8)
  }

  function Bits(msg: seq<bv8>): (bits: seq<bool>)
    ensures |bits| == 8 * |msg|
  {
    if msg == [] then [] else Bits(msg[..|msg| - 1]) + ByteBits(msg[|msg| - 1])
  }

  // ---------- bytes are bits ----------

  lemma {:induction false} FeedAppend(r: bv16, a: seq<bool>, b: seq<bool>)
    ensures FeedAll(r, a + b) == FeedAll(FeedAll(r, a), b)
    decreases |a|
  {
    hide Feed;
    if a == [] {
      assert a + b == b;
    } else {
      assert (a + b)[1..] == a[1..] + b;
      FeedAppend(Feed(r, a[0]), a[1..], b);
    }
  }

  function Rest(y: bv16): bv16 { y & 0x7FFF }

  function TopBit(y: bv16): bv16 { y & 0x8000 }

  lemma TopBitMark(y: bv16)
    ensures TopBit(y) == Mark(Top(y))
  {}

  lemma TopAndRest(y: bv16)
    ensures y == Xor16(TopBit(y), Rest(y))
  {}

  lemma SplitTop(y: bv16)
    ensures y == Xor16(Mark(Top(y)), Rest(y))
  {
    hide *;
    TopBitMark(y);
    TopAndRest(y);
  }

  lemma RestTop(y: bv16)
    ensures !Top(Rest(y))
  {}

  lemma RestLeft(y: bv16)
    ensures Left(Rest(y)) == Left(y)
  {}

  lemma RestMovesUp(y: bv16)
    ensures Shift(Rest(y)) == Left(y)
  {
    hide Top, Left, Rest, Xor16;
    RestTop(y);
    RestLeft(y);
  }

  /** One step takes in the leading bit and moves the others up. */
  lemma FeedTop(r: bv16, y: bv16)
    ensures Shift(Xor16(r, y)) == Xor16(Feed(r, Top(y)), Left(y))
  {
    hide *;
    SplitTop(y);
    RestMovesUp(y);
    Xor16Laws(r, Mark(Top(y)), Rest(y));
    ShiftXor(Xor16(r, Mark(Top(y))), Rest(y));
    FeedIs(r, Top(y));
  }

  lemma FeedIs(r: bv16, b: bool)
    ensures Feed(r, b) == Shift(Xor16(r, Mark(b)))
  {}

  function LeftTimes(y: bv16, n: nat): bv16
    decreases n
  {
    if n == 0 then y else LeftTimes(Left(y), n - 1)
  }

  lemma {:induction false} FeedBits(r: bv16, y: bv16, n: nat)
    ensures ShiftTimes(Xor16(r, y), n) == Xor16(FeedAll(r, TopBits(y, n)), LeftTimes(y, n))
    decreases n
  {
    hide Shift, Xor16, Left, Top, Feed;
    if n > 0 {
      FeedTop(r, y);
      FeedBits(Feed(r, Top(y)), Left(y), n - 1);
      assert TopBits(y, n)[1..] == TopBits(Left(y), n - 1);
    }
  }

  lemma HighLeaves(b: bv8)
    ensures LeftTimes(High(b), 8) == 0
  {
    assert LeftTimes(High(b), 8) == LeftTimes(Left(Left(Left(Left(High(b))))), 4);
  }

  /** A byte step is eight bit steps. */
  lemma StepFeedsByte(r: bv16, b: bv8)
    ensures Step(r, b) == FeedAll(r, ByteBits(b))
  {
    FeedBits(r, High(b), 8);
    ShiftTimesEight(Xor16(r, High(b)));
    HighLeaves(b);
    Xor16Laws(FeedAll(r, ByteBits(b)), 0, 0);
    Xor16Cancels(0, FeedAll(r, ByteBits(b)));
    Xor16Zero(0, 0);
    hide High, Xor16, FeedAll, ShiftTimes, LeftTimes, Shift8, TopBits;
  }

  lemma {:induction false} Crc16FeedsBits(r: bv16, msg: seq<bv8>)
    ensures Crc16(r, msg) == FeedAll(r, Bits(msg))
  {
    hide Step, FeedAll, ByteBits;
    if msg == [] {
      FeedNothing(r);
    } else {
      var before, b := msg[..|msg| - 1], msg[|msg| - 1];
      Crc16FeedsBits(r, before);
      StepFeedsByte(Crc16(r, before), b);
      FeedAppend(r, Bits(before), ByteBits(b));
    }
  }

  lemma FeedNothing(r: bv16)
    ensures FeedAll(r, []) == r
  {}

  // ---------- bursts of bits ----------

  /** The lowest `m` bits. */
  function LowMask(m: nat): bv16 {
    if m == 0 then 0 else if m == 1 then 0x1 else if m == 2 then 0x3 else if m == 3 then 0x7
    else if m == 4 then 0xF else if m == 5 then 0x1F else if m == 6 then 0x3F else if m == 7 then 0x7F
    else if m == 8 then 0xFF else if m == 9 then 0x1FF else if m == 10 then 0x3FF else if m == 11 then 0x7FF
    else if m == 12 then 0xFFF else if m == 13 then 0x1FFF else if m == 14 then 0x3FFF else if m == 15 then 0x7FFF
    else 0xFFFF
  }

  function MaskUp(mask: bv16): bv16 { (mask << 1) | 1 }

  lemma MaskStep(m: nat)
    requires m < 16
    ensures LowMask(m + 1) == MaskUp(LowMask(m)) && LowMask(m) & 0x8000 == 0
  {}

  predicate Clear(x: bv16, mask: bv16) { x & mask == 0 }

  /** A step whose result has a clear lowest bit had no feedback. */
  lemma NoFeedback(f: bv16, mask: bv16)
    requires Clear(Shift(f), MaskUp(mask))
    ensures !Top(f) && Clear(f, mask & 0x7FFF)
  {}

  lemma ClearMark(d: bv16, b: bool, mask: bv16)
    requires !Top(Xor16(d, Mark(b))) && mask & 0x8000 == 0 && Clear(Xor16(d, Mark(b)), mask & 0x7FFF)
    ensures Top(d) == b && Clear(d, mask)
  {}

  lemma MarkSum(a: bool, b: bool)
    ensures Xor16(Mark(a), Mark(b)) == Mark(a != b)
  {}

  lemma XorSwap(a: bv16, b: bv16, c: bv16, d: bv16)
    ensures Xor16(Xor16(a, b), Xor16(c, d)) == Xor16(Xor16(a, c), Xor16(b, d))
  {
    hide Xor16;
    Xor16Laws(a, b, Xor16(c, d));
    Xor16Laws(b, c, d);
    Xor16Laws(c, b, d);
    Xor16Laws(a, c, Xor16(b, d));
  }

  lemma ClearNothing(mask: bv16)
    ensures Clear(0, mask)
  {}

  /** One step backwards: one more bit of the difference may be set, the leading one. */
  lemma StepBack(c: bv16, d: bv16, a: bool, b: bool, m: nat)
    requires m < 16 && Clear(Xor16(Feed(c, a), Feed(d, b)), LowMask(m + 1))
    ensures Clear(Xor16(c, d), LowMask(m)) && Top(Xor16(c, d)) == (a != b)
  {
    hide *;
    FeedIs(c, a);
    FeedIs(d, b);
    MaskStep(m);
    var f := Xor16(Xor16(c, d), Mark(a != b));
    XorSwap(c, Mark(a), d, Mark(b));
    MarkSum(a, b);
    ShiftXor(Xor16(c, Mark(a)), Xor16(d, Mark(b)));
    NoFeedback(f, LowMask(m));
    ClearMark(Xor16(c, d), a != b, LowMask(m));
  }

  /**
   Registers that meet after `n` bits differed at most in their first `n` bits, and in the first
   one exactly if the first bits taken in differed.
   */
  lemma {:induction false} DifferedOnTop(c: bv16, d: bv16, a: seq<bool>, b: seq<bool>)
    requires |a| == |b| <= 16 && FeedAll(c, a) == FeedAll(d, b)
    ensures Clear(Xor16(c, d), LowMask(16 - |a|))
    ensures a != [] ==> Top(Xor16(c, d)) == (a[0] != b[0])
    decreases |a|
  {
    hide Xor16, Feed, LowMask, Clear, Top;
    if a == [] {
      Xor16Zero(c, d);
      ClearNothing(LowMask(16));
    } else {
      DifferedOnTop(Feed(c, a[0]), Feed(d, b[0]), a[1..], b[1..]);
      StepBack(c, d, a[0], b[0], 16 - |a|);
    }
  }

  /** From one register, up to sixteen bits lead to different registers. */
  lemma {:induction false} WindowInjective(c: bv16, a: seq<bool>, b: seq<bool>)
    requires |a| == |b| <= 16 && FeedAll(c, a) == FeedAll(c, b)
    ensures a == b
    decreases |a|
  {
    if a != [] {
      DifferedOnTop(c, c, a, b);
      Xor16Zero(c, c);
      assert a[0] == b[0];
      hide Feed;
      WindowInjective(Feed(c, a[0]), a[1..], b[1..]);
      assert a == [a[0]] + a[1..] && b == [b[0]] + b[1..];
    }
  }

  lemma {:induction false} FeedInjective(c: bv16, d: bv16, s: seq<bool>)
    requires FeedAll(c, s) == FeedAll(d, s)
    ensures c == d
    decreases |s|
  {
    hide Shift, Xor16, Mark;
    if s != [] {
      FeedInjective(Feed(c, s[0]), Feed(d, s[0]), s[1..]);
      ShiftInjective(Xor16(c, Mark(s[0])), Xor16(d, Mark(s[0])));
      Xor16Injective(c, d, Mark(s[0]));
    }
  }

  lemma {:induction false} BitsInjective(a: seq<bv8>, b: seq<bv8>)
    requires |a| == |b| && Bits(a) == Bits(b)
    ensures a == b
  {
    hide ByteBits;
    if a != [] {
      var n := |a| - 1;
      assert Bits(a)[..8 * n] == Bits(a[..n]) && Bits(b)[..8 * n] == Bits(b[..n]);
      assert Bits(a)[8 * n..] == ByteBits(a[n]) && Bits(b)[8 * n..] == ByteBits(b[n]);
      BitsInjective(a[..n], b[..n]);
      StepFeedsByte(0, a[n]);
      StepFeedsByte(0, b[n]);
      SameStep(a[n], b[n]);
    }
  }

  lemma SameStep(a: bv8, b: bv8)
    requires Step(0, a) == Step(0, b)
    ensures a == b
  {
    hide Shift8, Xor16, High;
    Shift8Injective(Xor16(0, High(a)), Xor16(0, High(b)));
    Xor16Laws(0, High(a), 0);
    Xor16Laws(0, High(b), 0);
    Xor16Injective(High(a), High(b), 0);
    HighInjective(a, b);
  }

  /**
   Two different messages of one length whose bits differ only within sixteen adjacent ones have
   different checksums, wherever the burst begins.
   */
  lemma BitBurstDetected(init: bv16, a: seq<bv8>, b: seq<bv8>, at: nat)
    requires |a| == |b| && a != b
    requires forall k :: 0 <= k < 8 * |a| && !(at <= k < at + 16) ==> Bits(a)[k] == Bits(b)[k]
    ensures Crc16(init, a) != Crc16(init, b)
  {
    var x, y := Bits(a), Bits(b);
    var lo := if at <= |x| then at else |x|;
    var hi := if at + 16 <= |x| then at + 16 else |x|;
    Crc16FeedsBits(init, a);
    Crc16FeedsBits(init, b);
    hide FeedAll, Bits, Crc16;
    if FeedAll(init, x) == FeedAll(init, y) {
      assert x == x[..lo] + x[lo..hi] + x[hi..] && y == x[..lo] + y[lo..hi] + x[hi..];
      FeedAppend(init, x[..lo] + x[lo..hi], x[hi..]);
      FeedAppend(init, x[..lo] + y[lo..hi], x[hi..]);
      FeedAppend(init, x[..lo], x[lo..hi]);
      FeedAppend(init, x[..lo], y[lo..hi]);
      var c := FeedAll(init, x[..lo]);
      FeedInjective(FeedAll(c, x[lo..hi]), FeedAll(c, y[lo..hi]), x[hi..]);
      WindowInjective(c, x[lo..hi], y[lo..hi]);
      BitsInjective(a, b);
    }
  }
}
