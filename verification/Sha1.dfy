/**
 ln_sha1.c in its little-endian build: the unrolled compression function with its in-place
 16-word schedule, the streaming context, and HMAC.
 */
module Sha1Code {
  import opened Sha1Spec

  // ---------- words of the workspace ----------

  /** A word of the byte buffer as a little-endian machine loads it. */
  function LittleEndianWord(b0: bv8, b1: bv8, b2: bv8, b3: bv8): bv32 {
    b0 as bv32 | (b1 as bv32 << 8) | (b2 as bv32 << 16) | (b3 as bv32 << 24)
  }

  /** The byte swap in `blk0`. */
  function Swap(x: bv32): bv32 {
    (((x << 24) | (x >> 8)) & 0xff00ff00) | (((x << 8) | (x >> 24)) & 0x00ff00ff)
  }

  lemma SwapLoads(b0: bv8, b1: bv8, b2: bv8, b3: bv8)
    ensures Swap(LittleEndianWord(b0, b1, b2, b3)) == BigEndianWord(b0, b1, b2, b3)
  {}

  // ---------- the expressions of the round macros ----------

  function Choose(w: bv32, x: bv32, y: bv32): bv32 { (w & (x ^ y)) ^ y }

  function Majority(w: bv32, x: bv32, y: bv32): bv32 { ((w | x) & y) | (w & x) }

  function RoundSum(z: bv32, f: bv32, b: bv32, k: bv32, r: bv32): bv32 { z + (f + b + k + r) }

  lemma ChooseIsCh(w: bv32, x: bv32, y: bv32)
    ensures Choose(w, x, y) == Ch(w, x, y)
  {
    assert (w & (x ^ y)) ^ y == (w & x) ^ ((w ^ 0xFFFF_FFFF) & y);
  }

  lemma MajorityIsMaj(w: bv32, x: bv32, y: bv32)
    ensures Majority(w, x, y) == Maj(w, x, y)
  {
    assert ((w | x) & y) | (w & x) == (w & x) ^ (w & y) ^ (x & y);
  }

  lemma SumOrder(z: bv32, f: bv32, b: bv32, k: bv32, r: bv32)
    ensures RoundSum(z, f, b, k, r) == Sum5(r, f, z, k, b)
  {
    assert z + (f + b + k + r) == r + f + z + k + b;
  }

  /**
   The workspace before round `t`: the schedule words that later rounds read, each at its
   index modulo 16, and behind them the words of the block that are not yet swapped.
   */
  ghost predicate Workspace(l: seq<bv32>, m: seq<bv32>, t: nat)
    requires |m| == 16
  {
    && |l| == 16
    && (forall s :: 0 <= s < t && t - 16 <= s ==> l[Slot(s)] == W(m, s))
    && (forall s :: t <= s < 16 ==> Swap(l[s]) == m[s])
  }

  /** The place `i&15` of schedule word `i`. */
  function Slot(i: nat): (k: nat)
    ensures k < 16
  {
    i % 16
  }

  lemma SlotIsIndex(s: nat)
    requires s < 16
    ensures Slot(s) == s
  {}

  lemma SlotsAhead(t: nat)
    requires t >= 16
    ensures Slot(t + 13) == Slot(t - 3)
    ensures Slot(t + 8) == Slot(t - 8)
    ensures Slot(t + 2) == Slot(t - 14)
    ensures Slot(t) == Slot(t - 16)
  {}

  lemma SlotsDistinct(s: nat, t: nat)
    requires s < t < s + 16
    ensures Slot(s) != Slot(t)
  {}

  lemma WorkspaceFirst(l: seq<bv32>, m: seq<bv32>, t: nat, l': seq<bv32>)
    requires |m| == 16 && t < 16 && Workspace(l, m, t) && l' == l[t := Swap(l[t])]
    ensures Swap(l[t]) == W(m, t) && Workspace(l', m, t + 1)
  {
    hide Swap, Rol1, Xor4, Slot;
    assert W(m, t) == m[t];
    hide W;
    forall s | 0 <= s < t + 1
      ensures l'[Slot(s)] == W(m, s)
    {
      SlotIsIndex(s);
    }
  }

  lemma WorkspaceNext(l: seq<bv32>, m: seq<bv32>, t: nat, x: bv32, l': seq<bv32>)
    requires |m| == 16 && t >= 16 && Workspace(l, m, t)
    requires x == Rol1(Xor4(l[Slot(t + 13)], l[Slot(t + 8)], l[Slot(t + 2)], l[Slot(t)]))
    requires l' == l[Slot(t) := x]
    ensures x == W(m, t) && Workspace(l', m, t + 1)
  {
    hide Swap, Rol1, Xor4, Slot;
    SlotsAhead(t);
    assert x == W(m, t);
    forall s | 0 <= s < t + 1 && t + 1 - 16 <= s
      ensures l'[Slot(s)] == W(m, s)
    {
      hide W;
      if s != t { SlotsDistinct(s, t); }
    }
  }

  // ---------- the round macros ----------

  method Blk0(block: array<bv32>, i: nat, ghost m: seq<bv32>) returns (x: bv32)
    requires block.Length == 16 && |m| == 16 && i < 16 && Workspace(block[..], m, i)
    modifies block
    ensures x == W(m, i) && Workspace(block[..], m, i + 1)
  {
    hide W, Swap, Slot;
    ghost var l := block[..];
    block[i] := Swap(block[i]);
    x := block[i];
    WorkspaceFirst(l, m, i, block[..]);
  }

  method Blk(block: array<bv32>, i: nat, ghost m: seq<bv32>) returns (x: bv32)
    requires block.Length == 16 && |m| == 16 && i >= 16 && Workspace(block[..], m, i)
    modifies block
    ensures x == W(m, i) && Workspace(block[..], m, i + 1)
  {
    hide W, Rol1, Xor4, Slot, Swap;
    ghost var l := block[..];
    block[Slot(i)] := Rol1(Xor4(block[Slot(i + 13)], block[Slot(i + 8)], block[Slot(i + 2)], block[Slot(i)]));
    x := block[Slot(i)];
    WorkspaceNext(l, m, i, x, block[..]);
  }

  /** What one round leaves: the workspace for round `t` and its working variables. */
  ghost predicate Before(l: seq<bv32>, h: Vars, m: seq<bv32>, t: nat, a: bv32, b: bv32, c: bv32, d: bv32, e: bv32)
    requires |m| == 16
  {
    Workspace(l, m, t) && Vars(a, b, c, d, e) == Rounds(h, m, t)
  }

  method R0(block: array<bv32>, v: bv32, w: bv32, x: bv32, y: bv32, z: bv32, i: nat, ghost h: Vars, ghost m: seq<bv32>) returns (w': bv32, z': bv32)
    requires block.Length == 16 && |m| == 16 && i < 16
    requires Before(block[..], h, m, i, v, w, x, y, z)
    modifies block
    ensures Before(block[..], h, m, i + 1, z', v, w', x, y)
  {
    hide W, Workspace, Rol5, Rol30, Ch, Choose, RoundSum, Sum5;
    var b := Blk0(block, i, m);
    z' := RoundSum(z, Choose(w, x, y), b, 0x5a827999, Rol5(v));
    w' := Rol30(w);
    ChooseIsCh(w, x, y);
    SumOrder(z, F(i, w, x, y), b, 0x5a827999, Rol5(v));
  }

  method R1(block: array<bv32>, v: bv32, w: bv32, x: bv32, y: bv32, z: bv32, i: nat, ghost h: Vars, ghost m: seq<bv32>) returns (w': bv32, z': bv32)
    requires block.Length == 16 && |m| == 16 && 16 <= i < 20
    requires Before(block[..], h, m, i, v, w, x, y, z)
    modifies block
    ensures Before(block[..], h, m, i + 1, z', v, w', x, y)
  {
    hide W, Workspace, Rol5, Rol30, Ch, Choose, RoundSum, Sum5;
    var b := Blk(block, i, m);
    z' := RoundSum(z, Choose(w, x, y), b, 0x5a827999, Rol5(v));
    w' := Rol30(w);
    ChooseIsCh(w, x, y);
    SumOrder(z, F(i, w, x, y), b, 0x5a827999, Rol5(v));
  }

  method R2(block: array<bv32>, v: bv32, w: bv32, x: bv32, y: bv32, z: bv32, i: nat, ghost h: Vars, ghost m: seq<bv32>) returns (w': bv32, z': bv32)
    requires block.Length == 16 && |m| == 16 && 20 <= i < 40
    requires Before(block[..], h, m, i, v, w, x, y, z)
    modifies block
    ensures Before(block[..], h, m, i + 1, z', v, w', x, y)
  {
    hide W, Workspace, Rol5, Rol30, Parity, RoundSum, Sum5;
    var b := Blk(block, i, m);
    z' := RoundSum(z, Parity(w, x, y), b, 0x6ed9eba1, Rol5(v));
    w' := Rol30(w);
    SumOrder(z, F(i, w, x, y), b, 0x6ed9eba1, Rol5(v));
  }

  method R3(block: array<bv32>, v: bv32, w: bv32, x: bv32, y: bv32, z: bv32, i: nat, ghost h: Vars, ghost m: seq<bv32>) returns (w': bv32, z': bv32)
    requires block.Length == 16 && |m| == 16 && 40 <= i < 60
    requires Before(block[..], h, m, i, v, w, x, y, z)
    modifies block
    ensures Before(block[..], h, m, i + 1, z', v, w', x, y)
  {
    hide W, Workspace, Rol5, Rol30, Maj, Majority, RoundSum, Sum5;
    var b := Blk(block, i, m);
    z' := RoundSum(z, Majority(w, x, y), b, 0x8f1bbcdc, Rol5(v));
    w' := Rol30(w);
    MajorityIsMaj(w, x, y);
    SumOrder(z, F(i, w, x, y), b, 0x8f1bbcdc, Rol5(v));
  }

  method R4(block: array<bv32>, v: bv32, w: bv32, x: bv32, y: bv32, z: bv32, i: nat, ghost h: Vars, ghost m: seq<bv32>) returns (w': bv32, z': bv32)
    requires block.Length == 16 && |m| == 16 && 60 <= i < 80
    requires Before(block[..], h, m, i, v, w, x, y, z)
    modifies block
    ensures Before(block[..], h, m, i + 1, z', v, w', x, y)
  {
    hide W, Workspace, Rol5, Rol30, Parity, RoundSum, Sum5;
    var b := Blk(block, i, m);
    z' := RoundSum(z, Parity(w, x, y), b, 0xca62c1d6, Rol5(v));
    w' := Rol30(w);
    SumOrder(z, F(i, w, x, y), b, 0xca62c1d6, Rol5(v));
  }

  // ---------- the four groups of twenty rounds ----------

  method FirstTwenty(block: array<bv32>, a0: bv32, b0: bv32, c0: bv32, d0: bv32, e0: bv32, ghost h: Vars, ghost m: seq<bv32>)
    returns (a: bv32, b: bv32, c: bv32, d: bv32, e: bv32)
    requires block.Length == 16 && |m| == 16 && Before(block[..], h, m, 0, a0, b0, c0, d0, e0)
    modifies block
    ensures Before(block[..], h, m, 20, a, b, c, d, e)
  {
    hide Before;
    a, b, c, d, e := a0, b0, c0, d0, e0;
    b, e := R0(block, a, b, c, d, e, 0, h, m);
    a, d := R0(block, e, a, b, c, d, 1, h, m);
    e, c := R0(block, d, e, a, b, c, 2, h, m);
    d, b := R0(block, c, d, e, a, b, 3, h, m);
    c, a := R0(block, b, c, d, e, a, 4, h, m);
    b, e := R0(block, a, b, c, d, e, 5, h, m);
    a, d := R0(block, e, a, b, c, d, 6, h, m);
    e, c := R0(block, d, e, a, b, c, 7, h, m);
    d, b := R0(block, c, d, e, a, b, 8, h, m);
    c, a := R0(block, b, c, d, e, a, 9, h, m);
    b, e := R0(block, a, b, c, d, e, 10, h, m);
    a, d := R0(block, e, a, b, c, d, 11, h, m);
    e, c := R0(block, d, e, a, b, c, 12, h, m);
    d, b := R0(block, c, d, e, a, b, 13, h, m);
    c, a := R0(block, b, c, d, e, a, 14, h, m);
    b, e := R0(block, a, b, c, d, e, 15, h, m);
    a, d := R1(block, e, a, b, c, d, 16, h, m);
    e, c := R1(block, d, e, a, b, c, 17, h, m);
    d, b := R1(block, c, d, e, a, b, 18, h, m);
    c, a := R1(block, b, c, d, e, a, 19, h, m);
  }

  method SecondTwenty(block: array<bv32>, a0: bv32, b0: bv32, c0: bv32, d0: bv32, e0: bv32, ghost h: Vars, ghost m: seq<bv32>)
    returns (a: bv32, b: bv32, c: bv32, d: bv32, e: bv32)
    requires block.Length == 16 && |m| == 16 && Before(block[..], h, m, 20, a0, b0, c0, d0, e0)
    modifies block
    ensures Before(block[..], h, m, 40, a, b, c, d, e)
  {
    hide Before;
    a, b, c, d, e := a0, b0, c0, d0, e0;
    b, e := R2(block, a, b, c, d, e, 20, h, m);
    a, d := R2(block, e, a, b, c, d, 21, h, m);
    e, c := R2(block, d, e, a, b, c, 22, h, m);
    d, b := R2(block, c, d, e, a, b, 23, h, m);
    c, a := R2(block, b, c, d, e, a, 24, h, m);
    b, e := R2(block, a, b, c, d, e, 25, h, m);
    a, d := R2(block, e, a, b, c, d, 26, h, m);
    e, c := R2(block, d, e, a, b, c, 27, h, m);
    d, b := R2(block, c, d, e, a, b, 28, h, m);
    c, a := R2(block, b, c, d, e, a, 29, h, m);
    b, e := R2(block, a, b, c, d, e, 30, h, m);
    a, d := R2(block, e, a, b, c, d, 31, h, m);
    e, c := R2(block, d, e, a, b, c, 32, h, m);
    d, b := R2(block, c, d, e, a, b, 33, h, m);
    c, a := R2(block, b, c, d, e, a, 34, h, m);
    b, e := R2(block, a, b, c, d, e, 35, h, m);
    a, d := R2(block, e, a, b, c, d, 36, h, m);
    e, c := R2(block, d, e, a, b, c, 37, h, m);
    d, b := R2(block, c, d, e, a, b, 38, h, m);
    c, a := R2(block, b, c, d, e, a, 39, h, m);
  }

  method ThirdTwenty(block: array<bv32>, a0: bv32, b0: bv32, c0: bv32, d0: bv32, e0: bv32, ghost h: Vars, ghost m: seq<bv32>)
    returns (a: bv32, b: bv32, c: bv32, d: bv32, e: bv32)
    requires block.Length == 16 && |m| == 16 && Before(block[..], h, m, 40, a0, b0, c0, d0, e0)
    modifies block
    ensures Before(block[..], h, m, 60, a, b, c, d, e)
  {
    hide Before;
    a, b, c, d, e := a0, b0, c0, d0, e0;
    b, e := R3(block, a, b, c, d, e, 40, h, m);
    a, d := R3(block, e, a, b, c, d, 41, h, m);
    e, c := R3(block, d, e, a, b, c, 42, h, m);
    d, b := R3(block, c, d, e, a, b, 43, h, m);
    c, a := R3(block, b, c, d, e, a, 44, h, m);
    b, e := R3(block, a, b, c, d, e, 45, h, m);
    a, d := R3(block, e, a, b, c, d, 46, h, m);
    e, c := R3(block, d, e, a, b, c, 47, h, m);
    d, b := R3(block, c, d, e, a, b, 48, h, m);
    c, a := R3(block, b, c, d, e, a, 49, h, m);
    b, e := R3(block, a, b, c, d, e, 50, h, m);
    a, d := R3(block, e, a, b, c, d, 51, h, m);
    e, c := R3(block, d, e, a, b, c, 52, h, m);
    d, b := R3(block, c, d, e, a, b, 53, h, m);
    c, a := R3(block, b, c, d, e, a, 54, h, m);
    b, e := R3(block, a, b, c, d, e, 55, h, m);
    a, d := R3(block, e, a, b, c, d, 56, h, m);
    e, c := R3(block, d, e, a, b, c, 57, h, m);
    d, b := R3(block, c, d, e, a, b, 58, h, m);
    c, a := R3(block, b, c, d, e, a, 59, h, m);
  }

  method LastTwenty(block: array<bv32>, a0: bv32, b0: bv32, c0: bv32, d0: bv32, e0: bv32, ghost h: Vars, ghost m: seq<bv32>)
    returns (a: bv32, b: bv32, c: bv32, d: bv32, e: bv32)
    requires block.Length == 16 && |m| == 16 && Before(block[..], h, m, 60, a0, b0, c0, d0, e0)
    modifies block
    ensures Before(block[..], h, m, 80, a, b, c, d, e)
  {
    hide Before;
    a, b, c, d, e := a0, b0, c0, d0, e0;
    b, e := R4(block, a, b, c, d, e, 60, h, m);
    a, d := R4(block, e, a, b, c, d, 61, h, m);
    e, c := R4(block, d, e, a, b, c, 62, h, m);
    d, b := R4(block, c, d, e, a, b, 63, h, m);
    c, a := R4(block, b, c, d, e, a, 64, h, m);
    b, e := R4(block, a, b, c, d, e, 65, h, m);
    a, d := R4(block, e, a, b, c, d, 66, h, m);
    e, c := R4(block, d, e, a, b, c, 67, h, m);
    d, b := R4(block, c, d, e, a, b, 68, h, m);
    c, a := R4(block, b, c, d, e, a, 69, h, m);
    b, e := R4(block, a, b, c, d, e, 70, h, m);
    a, d := R4(block, e, a, b, c, d, 71, h, m);
    e, c := R4(block, d, e, a, b, c, 72, h, m);
    d, b := R4(block, c, d, e, a, b, 73, h, m);
    c, a := R4(block, b, c, d, e, a, 74, h, m);
    b, e := R4(block, a, b, c, d, e, 75, h, m);
    a, d := R4(block, e, a, b, c, d, 76, h, m);
    e, c := R4(block, d, e, a, b, c, 77, h, m);
    d, b := R4(block, c, d, e, a, b, 78, h, m);
    c, a := R4(block, b, c, d, e, a, 79, h, m);
  }

  /** `ln_sha1_transform`: 80 unrolled rounds with rotated variable names. */
  method Transform(state: array<bv32>, buffer: seq<bv8>)
    requires state.Length == 5 && |buffer| == 64
    modifies state
    ensures StateOf(state[..]) == Compress(old(StateOf(state[..])), buffer)
  {
    hide Before, Rounds, Swap, BlockWords, Plus;
    ghost var h, m := StateOf(state[..]), BlockWords(buffer);
    var block := new bv32[16];
    LoadBlock(buffer, block);
    var a, b, c, d, e := state[0], state[1], state[2], state[3], state[4];
    BeforeFirst(block[..], h, m);
    a, b, c, d, e := FirstTwenty(block, a, b, c, d, e, h, m);
    a, b, c, d, e := SecondTwenty(block, a, b, c, d, e, h, m);
    a, b, c, d, e := ThirdTwenty(block, a, b, c, d, e, h, m);
    a, b, c, d, e := LastTwenty(block, a, b, c, d, e, h, m);
    AfterLast(block[..], h, m, a, b, c, d, e);
    state[0] := Plus(state[0], a);
    state[1] := Plus(state[1], b);
    state[2] := Plus(state[2], c);
    state[3] := Plus(state[3], d);
    state[4] := Plus(state[4], e);
  }

  function StateOf(s: seq<bv32>): Vars
    requires |s| == 5
  {
    Vars(s[0], s[1], s[2], s[3], s[4])
  }

  /** The copy of the block into the workspace, read back as words. */
  method LoadBlock(buffer: seq<bv8>, block: array<bv32>)
    requires |buffer| == 64 && block.Length == 16
    modifies block
    ensures forall i :: 0 <= i < 16 ==> Swap(block[i]) == BlockWords(buffer)[i]
  {
    hide LittleEndianWord, BigEndianWord, Swap;
    for i := 0 to 16
      invariant forall j :: 0 <= j < i ==> Swap(block[j]) == BlockWords(buffer)[j]
    {
      block[i] := LittleEndianWord(buffer[4 * i], buffer[4 * i + 1], buffer[4 * i + 2], buffer[4 * i + 3]);
      SwapLoads(buffer[4 * i], buffer[4 * i + 1], buffer[4 * i + 2], buffer[4 * i + 3]);
    }
  }

  lemma BeforeFirst(l: seq<bv32>, h: Vars, m: seq<bv32>)
    requires |m| == |l| == 16 && forall i :: 0 <= i < 16 ==> Swap(l[i]) == m[i]
    ensures Before(l, h, m, 0, h.a, h.b, h.c, h.d, h.e)
  {
    hide Swap;
  }

  lemma AfterLast(l: seq<bv32>, h: Vars, m: seq<bv32>, a: bv32, b: bv32, c: bv32, d: bv32, e: bv32)
    requires |m| == 16 && Before(l, h, m, 80, a, b, c, d, e)
    ensures Vars(a, b, c, d, e) == Rounds(h, m, 80)
  {
    hide Workspace, Rounds;
  }

  // ---------- the streaming context ----------

  /** Longest piece one call can take: buffer and piece lie in one 32-bit address space. */
  const MAX_PIECE: nat := 0xFFFF_FFC0

  class Sha1Context {
    const state: array<bv32>
    const buffer: array<bv8>
    var count0: nat
    var count1: nat
    /** The bytes taken in since initialization. */
    ghost var msg: seq<bv8>

    /** The two count words hold the bit length of `n` bytes modulo 2^64. */
    ghost predicate Counts(n: nat)
      reads `count0, `count1
    {
      count0 == 8 * n % 0x1_0000_0000 && count1 == 8 * n / 0x1_0000_0000 % 0x1_0000_0000
    }

    ghost predicate Valid()
      reads this, state, buffer
    {
      && state.Length == 5 && buffer.Length == 64
      && Counts(|msg|)
      && StateOf(state[..]) == HashBlocks(msg, |msg| / 64)
      && buffer[..|msg| % 64] == Tail(msg)
    }

    /** A context as `ln_sha1_init` leaves it. */
    constructor ()
      ensures Valid() && msg == [] && fresh(state) && fresh(buffer)
    {
      state := new bv32[][0x67452301, 0xefcdab89, 0x98badcfe, 0x10325476, 0xc3d2e1f0];
      buffer := new bv8[64];
      count0, count1 := 0, 0;
      msg := [];
    }

    method AddCount(ghost n: nat, len: nat)
      requires Counts(n) && len < 0x1_0000_0000
      modifies `count0, `count1
      ensures Counts(n + len)
    {
      CountAdd(n, len);
      var bits := len * 8 % 0x1_0000_0000;
      count0 := (count0 + bits) % 0x1_0000_0000;
      if count0 < bits {
        count1 := (count1 + 1) % 0x1_0000_0000;
      }
      count1 := (count1 + len / 0x2000_0000) % 0x1_0000_0000;
    }

    /** The number of bytes in the buffer, from the low count word. */
    method BufferFill() returns (j: nat)
      requires Counts(|msg|)
      ensures j == |msg| % 64
    {
      BitsToBytes(|msg|);
      j := count0 / 8 % 64;
    }

    /** `ln_sha1_update`. */
    method Update(data: seq<bv8>)
      requires Valid() && |data| <= MAX_PIECE
      modifies this, state, buffer
      ensures Valid() && msg == old(msg) + data
    {
      hide HashBlocks, StateOf, Tail, Counts;
      var j := BufferFill();
      AddCount(|msg|, |data|);
      Absorb(data, j, msg);
      msg := msg + data;
    }

    /** Hashes the buffer, filled up from `data`, and the further full blocks of `data`. */
    method CompleteBlocks(data: seq<bv8>, fill: nat, ghost before: seq<bv8>) returns (i: nat)
      requires state.Length == 5 && buffer.Length == 64 && fill == |before| % 64 && fill + |data| > 63
      requires StateOf(state[..]) == HashBlocks(before, |before| / 64) && buffer[..fill] == Tail(before)
      modifies state, buffer
      ensures i <= |data| < i + 64 && (|before| + i) % 64 == 0
      ensures StateOf(state[..]) == HashBlocks(before + data, (|before| + i) / 64)
    {
      hide HashBlocks, Compress, StateOf, Tail;
      i := 64 - fill;
      Copy(buffer, fill, data[..i]);
      FirstBlock(before, data, buffer[..]);
      Transform(state, buffer[..]);
      i := FullBlocks(data, i, before);
    }

    /** The part of `ln_sha1_update` that fills the buffer and hashes full blocks. */
    method Absorb(data: seq<bv8>, fill: nat, ghost before: seq<bv8>)
      requires state.Length == 5 && buffer.Length == 64 && fill == |before| % 64
      requires StateOf(state[..]) == HashBlocks(before, |before| / 64) && buffer[..fill] == Tail(before)
      modifies state, buffer
      ensures StateOf(state[..]) == HashBlocks(before + data, |before + data| / 64)
      ensures buffer[..|before + data| % 64] == Tail(before + data)
    {
      hide HashBlocks, Compress, StateOf, Tail;
      var i, j := 0, fill;
      if j + |data| > 63 {
        i := CompleteBlocks(data, fill, before);
        j := 0;
      } else {
        HashBlocksPrefix(before, data, |before| / 64);
      }
      Copy(buffer, j, data[i..]);
      Remainder(before, data, i, j, buffer[..]);
    }

    /**
     `ln_sha1_final`: the digest of everything taken in. The context is wiped and must be
     initialized again before it is used.
     */
    method Final() returns (digest: seq<bv8>)
      requires Valid()
      modifies this, state, buffer
      ensures digest == Sha1(old(msg))
    {
      hide Sha1Spec.W, HashBlocks, Compress, StateOf, ByteOf, Bytes32, DigestOf;
      ghost var m := msg;
      var finalcount := Bytes32(count1) + Bytes32(count0);
      Update([0x80]);
      ghost var z := 0;
      BitsToBytes(|msg|);
      while count0 / 8 % 64 != 56
        invariant Valid() && msg == m + [0x80] + Zeros(z)
        invariant z <= PadZeros(|m|)
        invariant count0 / 8 % 64 == |msg| % 64
        decreases PadZeros(|m|) - z
      {
        PadContinues(|m|, z);
        Update([0]);
        z := z + 1;
        assert msg == m + [0x80] + Zeros(z);
        BitsToBytes(|msg|);
      }
      PadStops(|m|, z);
      Update(finalcount);
      assert msg == Pad(m);
      digest := DigestOf(StateOf(state[..]));
      forall k | 0 <= k < 64 { buffer[k] := 0; }
      forall k | 0 <= k < 5 { state[k] := 0; }
      count0, count1 := 0, 0;
      Transform(state, buffer[..]);
    }

    /** The loop of `ln_sha1_update` over the blocks that lie wholly in `data`. */
    method FullBlocks(data: seq<bv8>, first: nat, ghost before: seq<bv8>) returns (i: nat)
      requires state.Length == 5 && first <= |data| && (|before| + first) % 64 == 0
      requires StateOf(state[..]) == HashBlocks(before + data, (|before| + first) / 64)
      modifies state
      ensures i <= |data| < i + 64 && (|before| + i) % 64 == 0
      ensures StateOf(state[..]) == HashBlocks(before + data, (|before| + i) / 64)
    {
      hide HashBlocks, Compress, StateOf;
      i := first;
      while i + 63 < |data|
        invariant i <= |data| && (|before| + i) % 64 == 0
        invariant StateOf(state[..]) == HashBlocks(before + data, (|before| + i) / 64)
      {
        NextBlock(before, data, i);
        Transform(state, data[i..i + 64]);
        i := i + 64;
      }
    }
  }

  /** `memcpy` into the buffer. */
  method Copy(buffer: array<bv8>, j: nat, piece: seq<bv8>)
    requires j + |piece| <= buffer.Length
    modifies buffer
    ensures buffer[..] == old(buffer[..j]) + piece + old(buffer[j + |piece|..])
  {
    forall k | 0 <= k < |piece| { buffer[j + k] := piece[k]; }
  }

  /** The bytes of a message after its last full block. */
  function Tail(s: seq<bv8>): (t: seq<bv8>)
    ensures |t| == |s| % 64
  {
    s[|s| / 64 * 64..]
  }

  /** The split 64-bit counter with its carry. */
  lemma CountAdd(n: nat, len: nat)
    requires len < 0x1_0000_0000
    ensures var bits := len * 8 % 0x1_0000_0000;
            var c0 := (8 * n % 0x1_0000_0000 + bits) % 0x1_0000_0000;
            var c1 := 8 * n / 0x1_0000_0000 % 0x1_0000_0000;
            var c2 := if c0 < bits then (c1 + 1) % 0x1_0000_0000 else c1;
            c0 == 8 * (n + len) % 0x1_0000_0000
            && (c2 + len / 0x2000_0000) % 0x1_0000_0000 == 8 * (n + len) / 0x1_0000_0000 % 0x1_0000_0000
  {
    var q1, r1 := DivMod(8 * n);
    var q2, r2 := DivMod(len * 8);
    var carry := if r1 + r2 < 0x1_0000_0000 then 0 else 1;
    DivModUnique(8 * (n + len), q1 + q2 + carry, r1 + r2 - 0x1_0000_0000 * carry);
    DivModUnique(r1 + r2, carry, r1 + r2 - 0x1_0000_0000 * carry);
    assert len / 0x2000_0000 == q2;
    ModAdd(q1, carry);
    ModAdd(q1 + carry, q2);
    assert (q1 % 0x1_0000_0000 + carry) % 0x1_0000_0000 == if carry == 1 then (q1 % 0x1_0000_0000 + 1) % 0x1_0000_0000 else q1 % 0x1_0000_0000;
  }

  lemma DivMod(n: nat) returns (q: nat, r: nat)
    ensures n == 0x1_0000_0000 * q + r && r < 0x1_0000_0000
    ensures q == n / 0x1_0000_0000 && r == n % 0x1_0000_0000
  {
    q, r := n / 0x1_0000_0000, n % 0x1_0000_0000;
  }

  lemma DivModUnique(n: nat, q: nat, r: nat)
    requires n == 0x1_0000_0000 * q + r && r < 0x1_0000_0000
    ensures q == n / 0x1_0000_0000 && r == n % 0x1_0000_0000
  {}

  lemma ModAdd(x: nat, y: nat)
    ensures (x % 0x1_0000_0000 + y) % 0x1_0000_0000 == (x + y) % 0x1_0000_0000
  {
    var q, r := DivMod(x);
    var q', r' := DivMod(r + y);
    DivModUnique(x + y, q + q', r');
  }

  lemma BitsToBytes(n: nat)
    ensures 8 * n % 0x1_0000_0000 / 8 % 64 == n % 64
  {
    var q, r := DivMod(8 * n);
    assert n == 0x2000_0000 * q + r / 8;
    assert n % 64 == (64 * (0x80_0000 * q) + r / 8) % 64;
  }

  lemma FirstBlock(msg: seq<bv8>, data: seq<bv8>, buffer: seq<bv8>)
    requires |msg| % 64 + |data| > 63 && |buffer| == 64
    requires buffer[..|msg| % 64] == Tail(msg)
    requires buffer[|msg| % 64..] == data[..64 - |msg| % 64]
    ensures var n := |msg| / 64;
            (|msg| + (64 - |msg| % 64)) % 64 == 0 && (|msg| + (64 - |msg| % 64)) / 64 == n + 1
            && 64 * (n + 1) <= |msg + data|
            && HashBlocks(msg + data, n + 1) == Compress(HashBlocks(msg, n), buffer)
  {
    hide Compress;
    var n := |msg| / 64;
    HashBlocksPrefix(msg, data, n);
    var j := |msg| % 64;
    assert msg[64 * n..] == buffer[..j];
    assert (msg + data)[64 * n..64 * (n + 1)] == msg[64 * n..] + data[..64 - j];
    assert buffer == buffer[..j] + buffer[j..];
  }

  lemma NextBlock(msg: seq<bv8>, data: seq<bv8>, i: nat)
    requires (|msg| + i) % 64 == 0 && i + 63 < |data|
    ensures var n := (|msg| + i) / 64;
            (|msg| + i + 64) / 64 == n + 1
            && 64 * (n + 1) <= |msg + data|
            && HashBlocks(msg + data, n + 1) == Compress(HashBlocks(msg + data, n), data[i..i + 64])
  {
    hide Compress;
    var n := (|msg| + i) / 64;
    assert (msg + data)[64 * n..64 * (n + 1)] == data[i..i + 64];
  }

  lemma Remainder(msg: seq<bv8>, data: seq<bv8>, i: nat, j: nat, buffer: seq<bv8>)
    requires |buffer| == 64 && i <= |data| && j + |data| - i < 64
    requires j == 0 ==> (|msg| + i) % 64 == 0
    requires j != 0 ==> i == 0 && j == |msg| % 64 && buffer[..j] == Tail(msg)
    requires buffer[j..j + |data| - i] == data[i..]
    ensures buffer[..|msg + data| % 64] == Tail(msg + data)
    ensures |msg + data| / 64 == (|msg| + i) / 64
  {
    var all, rest := msg + data, |data| - i;
    if j == 0 {
      var q := (|msg| + i) / 64;
      DivMod64(|all|, q, rest);
      assert Tail(all) == data[i..];
    } else {
      var q := |msg| / 64;
      DivMod64(|msg|, q, j);
      DivMod64(|all|, q, j + rest);
      assert Tail(all) == Tail(msg) + data;
      assert buffer[..j + rest] == buffer[..j] + buffer[j..j + rest];
    }
  }

  lemma DivMod64(n: nat, q: nat, r: nat)
    requires n == 64 * q + r && r < 64
    ensures n / 64 == q && n % 64 == r
  {}

  lemma PadContinues(n: nat, z: nat)
    requires z <= PadZeros(n) && (n + 1 + z) % 64 != 56
    ensures z < PadZeros(n)
  {}

  lemma PadStops(n: nat, z: nat)
    requires z <= PadZeros(n) && (n + 1 + z) % 64 == 56
    ensures z == PadZeros(n)
  {}

  /** Initialization, two updates and finalization, as both digests of HMAC do it. */
  method HashTwo(first: seq<bv8>, second: seq<bv8>) returns (digest: seq<bv8>)
    requires |first| <= MAX_PIECE && |second| <= MAX_PIECE
    ensures digest == Sha1(first + second)
  {
    hide Sha1, HashBlocks, Tail;
    var ctx := new Sha1Context();
    ctx.Update(first);
    assert [] + first == first;
    ctx.Update(second);
    digest := ctx.Final();
  }

  /** `ln_hmac_sha1`. */
  method HmacSha1(key: seq<bv8>, d: seq<bv8>) returns (out: seq<bv8>)
    requires |key| <= MAX_PIECE && |d| <= MAX_PIECE
    ensures out == Hmac(key, d)
  {
    hide Sha1, XorAll, Zeros;
    var k := key;
    if |key| > 64 {
      var tctx := new Sha1Context();
      tctx.Update(key);
      assert [] + key == key;
      k := tctx.Final();
    }
    var buf := PaddedKey(k, 0x36);
    var isha := HashTwo(buf[..], d);
    buf := PaddedKey(k, 0x5c);
    out := HashTwo(buf[..], isha);
  }

  /** The two loops that fill one block with the masked key. */
  method PaddedKey(k: seq<bv8>, mask: bv8) returns (buf: array<bv8>)
    requires |k| <= 64
    ensures buf.Length == 64 && fresh(buf) && buf[..] == XorAll(k + Zeros(64 - |k|), mask)
  {
    buf := new bv8[64];
    var i := 0;
    while i < |k|
      invariant 0 <= i <= |k|
      invariant forall j :: 0 <= j < i ==> buf[j] == k[j] ^ mask
    {
      buf[i] := k[i] ^ mask;
      i := i + 1;
    }
    while i < 64
      invariant |k| <= i <= 64
      invariant forall j :: 0 <= j < |k| ==> buf[j] == k[j] ^ mask
      invariant forall j :: |k| <= j < i ==> buf[j] == mask
    {
      buf[i] := mask;
      i := i + 1;
    }
    assert 0 ^ mask == mask;
  }
}
