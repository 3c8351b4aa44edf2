/**
 The field GF(2^8) of section 4 of FIPS 197, and the proof that `xtime` and the
 log/antilog multiplication `mul` of ln_aes.c compute in that field.

 The structural proofs hide the definitions, so that the solver reasons about the
 operations by their laws and never about bits.
 */
module Gf256 {
  import opened AesTables

  /** Field addition. */
  function Add(a: bv8, b: bv8): bv8 {
    a ^ b
  }

  /** `xtime`: multiplication by x modulo x^8 + x^4 + x^3 + x + 1. */
  function XTime(a: bv8): bv8 {
    (a << 1) ^ (if a & 0x80 != 0 then 0x1B else 0)
  }

  /** `a` if the constant coefficient of `b` is 1. */
  function Scale(a: bv8, b: bv8): bv8 {
    if b & 1 == 1 then a else 0
  }

  function Half(b: bv8): bv8 {
    b >> 1
  }

  /** Field multiplication: the sum of x^k times `a` over the bits k of `b`. */
  function Mul(a: bv8, b: bv8): bv8
    decreases b
  {
    if b == 0 then 0 else Add(Scale(a, b), Mul(XTime(a), Half(b)))
  }

  /** `mul`: multiplication through the tables of logarithms to the base 3. */
  function LogMul(a: bv8, b: bv8): bv8 {
    if a != 0 && b != 0 then AlogTable(SumMod255(LogTable(a), LogTable(b))) else 0
  }

  function SumMod255(i: bv8, j: bv8): bv8 {
    ((i as bv16 + j as bv16) % 255) as bv8
  }

  /** The multiplicative inverse, with 0 for 0. */
  function Inverse(a: bv8): bv8 {
    if a == 0 then 0 else AlogTable(255 - LogTable(a))
  }

  /** The affine map of section 5.1.1 of FIPS 197. */
  function Affine(a: bv8): bv8 {
    a ^ a.RotateLeft(1) ^ a.RotateLeft(2) ^ a.RotateLeft(3) ^ a.RotateLeft(4) ^ 0x63
  }

  /** Its inverse. */
  function InvAffine(a: bv8): bv8 {
    a.RotateLeft(1) ^ a.RotateLeft(3) ^ a.RotateLeft(6) ^ 0x05
  }

  // ---------- laws of the field ----------

  lemma AddComm(a: bv8, b: bv8)
    ensures Add(a, b) == Add(b, a)
  {}

  lemma AddAssoc(a: bv8, b: bv8, c: bv8)
    ensures Add(Add(a, b), c) == Add(a, Add(b, c))
  {}

  lemma AddSwap(a: bv8, b: bv8, c: bv8, d: bv8)
    ensures Add(Add(a, b), Add(c, d)) == Add(Add(a, c), Add(b, d))
  {
    hide *;
    AddAssoc(a, b, Add(c, d));
    AddAssoc(b, c, d);
    AddComm(b, c);
    AddAssoc(c, b, d);
    AddAssoc(a, c, Add(b, d));
  }

  lemma XTimeAdd(a: bv8, b: bv8)
    ensures XTime(Add(a, b)) == Add(XTime(a), XTime(b))
  {
    if a & 0x80 != 0 {
      if b & 0x80 != 0 {}
    } else {
      if b & 0x80 != 0 {}
    }
  }

  lemma ScaleAdd(a: bv8, b: bv8, c: bv8)
    ensures Scale(Add(a, b), c) == Add(Scale(a, c), Scale(b, c))
  {}

  lemma ScaleAddRight(a: bv8, b: bv8, c: bv8)
    ensures Scale(a, Add(b, c)) == Add(Scale(a, b), Scale(a, c))
    ensures Half(Add(b, c)) == Add(Half(b), Half(c))
  {}

  lemma ScaleXTime(a: bv8, c: bv8)
    ensures Scale(XTime(a), c) == XTime(Scale(a, c))
  {
    hide XTime;
    MulZero(a);
    if c & 1 == 1 {}
  }

  lemma MulUnfold(a: bv8, b: bv8)
    ensures Mul(a, b) == Add(Scale(a, b), Mul(XTime(a), Half(b)))
  {
    hide XTime;
    if b == 0 {}
  }

  lemma MulZero(a: bv8)
    ensures Mul(a, 0) == 0 && Add(a, 0) == a && Add(0, a) == a && XTime(0) == 0
  {}

  lemma HalfShrinks(b: bv8, c: bv8)
    requires b != 0 || c != 0
    ensures (Half(b) | Half(c)) < (b | c)
    ensures b != 0 ==> Half(b) < b
  {}

  lemma {:induction false} MulAdd(a: bv8, b: bv8, c: bv8)
    ensures Mul(Add(a, b), c) == Add(Mul(a, c), Mul(b, c))
    decreases c
  {
    hide *;
    if c == 0 {
      MulZero(a); MulZero(b); MulZero(Add(a, b)); MulZero(0);
    } else {
      MulUnfold(a, c); MulUnfold(b, c); MulUnfold(Add(a, b), c);
      XTimeAdd(a, b);
      ScaleAdd(a, b, c);
      HalfShrinks(c, c);
      MulAdd(XTime(a), XTime(b), Half(c));
      AddSwap(Scale(a, c), Scale(b, c), Mul(XTime(a), Half(c)), Mul(XTime(b), Half(c)));
    }
  }

  lemma {:induction false} MulAddRight(a: bv8, b: bv8, c: bv8)
    ensures Mul(a, Add(b, c)) == Add(Mul(a, b), Mul(a, c))
    decreases b | c
  {
    hide *;
    if b == 0 && c == 0 {
      MulZero(a); MulZero(0);
    } else {
      MulUnfold(a, b); MulUnfold(a, c); MulUnfold(a, Add(b, c));
      ScaleAddRight(a, b, c);
      HalfShrinks(b, c);
      MulAddRight(XTime(a), Half(b), Half(c));
      AddSwap(Scale(a, b), Scale(a, c), Mul(XTime(a), Half(b)), Mul(XTime(a), Half(c)));
    }
  }

  lemma {:induction false} XTimeOfMul(a: bv8, b: bv8)
    ensures XTime(Mul(a, b)) == Mul(XTime(a), b)
    decreases b
  {
    hide *;
    if b == 0 {
      MulZero(a); MulZero(XTime(a));
    } else {
      MulUnfold(a, b); MulUnfold(XTime(a), b);
      ScaleXTime(a, b);
      HalfShrinks(b, b);
      XTimeOfMul(XTime(a), Half(b));
      XTimeAdd(Scale(a, b), Mul(XTime(a), Half(b)));
    }
  }

  /** How the last coefficient of the multiplier contributes. */
  lemma MulEven(a: bv8, c: bv8)
    requires c < 0x80
    ensures Mul(a, c << 1) == Mul(XTime(a), c)
  {
    hide XTime, Mul;
    MulUnfold(a, c << 1);
  }

  lemma MulOdd(a: bv8, c: bv8)
    requires c < 0x80
    ensures Mul(a, (c << 1) | 1) == Add(a, Mul(XTime(a), c))
  {
    hide XTime, Mul;
    MulUnfold(a, (c << 1) | 1);
    assert Half((c << 1) | 1) == c;
  }

  /** The multipliers that AES uses, as sums of repeated doublings. */
  lemma MulByConstants(a: bv8)
    ensures Mul(a, 1) == a
    ensures Mul(a, 2) == XTime(a)
    ensures Mul(a, 3) == Add(a, XTime(a))
    ensures Mul(a, 9) == Add(a, XTime(XTime(XTime(a))))
    ensures Mul(a, 11) == Add(a, Add(XTime(a), XTime(XTime(XTime(a)))))
    ensures Mul(a, 13) == Add(a, Add(XTime(XTime(a)), XTime(XTime(XTime(a)))))
    ensures Mul(a, 14) == Add(XTime(a), Add(XTime(XTime(a)), XTime(XTime(XTime(a)))))
  {
    hide *;
    var a1 := XTime(a);
    var a2 := XTime(a1);
    var a3 := XTime(a2);
    MulByOne(a); MulByOne(a1); MulByOne(a2); MulByOne(a3);
    MulEven(a, 1); MulEven(a1, 1); MulEven(a2, 1);
    MulOdd(a, 1); MulOdd(a1, 1);
    MulEven(a1, 2); MulOdd(a1, 2); MulEven(a1, 3);
    MulOdd(a, 4); MulOdd(a, 5); MulOdd(a, 6); MulEven(a, 7); MulOdd(a1, 3); MulOdd(a2, 1);
  }

  lemma MulByOne(a: bv8)
    ensures Mul(a, 1) == a
  {
    hide XTime;
    MulUnfold(a, 1);
    MulZero(XTime(a));
  }

  /** The reduction x^8 == x^4 + x^3 + x + 1, by shifting and by multiplication. */
  lemma ReductionPolynomial(a: bv8)
    ensures XTime(XTime(XTime(XTime(XTime(XTime(XTime(XTime(a))))))))
         == Add(a, Add(XTime(a), Add(XTime(XTime(XTime(a))), XTime(XTime(XTime(XTime(a)))))))
  {}

  lemma MulReduction(a: bv8)
    ensures Mul(a, 0x1B) == Mul(XTime(a), 0x80)
  {
    hide *;
    var a1 := XTime(a);
    var a2 := XTime(a1);
    var a3 := XTime(a2);
    var a4 := XTime(a3);
    var a5 := XTime(a4);
    var a6 := XTime(a5);
    var a7 := XTime(a6);
    MulOdd(a, 0xD); MulOdd(a1, 6); MulEven(a2, 3); MulOdd(a3, 1); MulByOne(a4);
    MulEven(a1, 0x40); MulEven(a2, 0x20); MulEven(a3, 0x10); MulEven(a4, 8); MulEven(a5, 4); MulEven(a6, 2); MulEven(a7, 1);
    MulByOne(XTime(a7));
    ReductionPolynomial(a);
  }

  lemma MulXTime(a: bv8, b: bv8)
    ensures Mul(a, XTime(b)) == XTime(Mul(a, b))
  {
    hide Mul;
    XTimeOfMul(a, b);
    if b < 0x80 {
      MulEven(a, b);
    } else {
      var c := b & 0x7F;
      assert b == Add(c, 0x80) && XTime(b) == Add(c << 1, 0x1B);
      MulAddRight(a, c << 1, 0x1B);
      MulAddRight(XTime(a), c, 0x80);
      MulEven(a, c);
      MulReduction(a);
    }
  }

  // ---------- the tables of logarithms ----------

  lemma AlogStep(k: bv8)
    requires k < 255
    ensures AlogTable(k + 1) == Mul(AlogTable(k), 3)
  {
    hide *;
    AlogNext(k);
    MulByConstants(AlogTable(k));
  }

  lemma AlogNext(k: bv8)
    requires k < 255
    ensures AlogTable(k + 1) == Add(AlogTable(k), XTime(AlogTable(k)))
  {}

  lemma AlogLog(a: bv8)
    requires a != 0
    ensures LogTable(a) < 255 && AlogTable(LogTable(a)) == a
  {}

  lemma SumStep(i: bv8, j: bv8)
    requires i < 255 && 0 < j
    ensures SumMod255(i, j - 1) < 255
    ensures SumMod255(i, j) == if SumMod255(i, j - 1) == 254 then 0 else SumMod255(i, j - 1) + 1
  {}

  /** Powers of 3 multiply by adding exponents. */
  lemma {:induction false} AlogSum(i: bv8, j: bv8)
    requires i < 255
    ensures AlogTable(SumMod255(i, j)) == Mul(AlogTable(i), AlogTable(j))
    decreases j
  {
    hide *;
    AlogEnds();
    if j == 0 {
      SumZero(i);
      MulByOne(AlogTable(i));
    } else {
      AlogSum(i, j - 1);
      SumStep(i, j);
      if SumMod255(i, j - 1) < 255 { AlogStep(SumMod255(i, j - 1)); }
      AlogStep(j - 1);
      MulByThree(AlogTable(i), AlogTable(j - 1));
    }
  }

  lemma AlogEnds()
    ensures AlogTable(0) == 1 && AlogTable(255) == 1
  {}

  lemma SumZero(i: bv8)
    requires i < 255
    ensures SumMod255(i, 0) == i
    ensures SumMod255(i, 255 - i) == 0
  {}

  lemma MulByThree(a: bv8, b: bv8)
    ensures Mul(a, Mul(b, 3)) == Mul(Mul(a, b), 3)
  {
    hide *;
    MulByConstants(b);
    MulByConstants(Mul(a, b));
    MulAddRight(a, b, XTime(b));
    MulXTime(a, b);
  }

  lemma {:induction false} MulAssoc(a: bv8, b: bv8, c: bv8)
    ensures Mul(Mul(a, b), c) == Mul(a, Mul(b, c))
    decreases c
  {
    hide *;
    if c == 0 {
      MulZero(a); MulZero(b); MulZero(Mul(a, b));
    } else {
      HalfShrinks(c, c);
      MulAssoc(a, XTime(b), Half(c));
      MulXTime(a, b);
      MulUnfold(b, c);
      MulAddRight(a, Scale(b, c), Mul(XTime(b), Half(c)));
      MulScale(a, b, c);
      MulUnfold(Mul(a, b), c);
    }
  }

  lemma MulScale(a: bv8, b: bv8, c: bv8)
    ensures Mul(a, Scale(b, c)) == Scale(Mul(a, b), c)
  {
    hide Mul;
    MulZero(a);
  }

  /** `mul` is multiplication in the field, for all operands. */
  lemma LogMulIsMul(a: bv8, b: bv8)
    ensures LogMul(a, b) == Mul(a, b)
  {
    hide Mul, AlogTable, LogTable, SumMod255;
    if a == 0 || b == 0 {
      MulZero(a);
      ZeroMul(b);
    } else {
      AlogLog(a);
      AlogLog(b);
      AlogSum(LogTable(a), LogTable(b));
    }
  }

  lemma {:induction false} ZeroMul(b: bv8)
    ensures Mul(0, b) == 0
    decreases b
  {
    hide *;
    MulZero(0);
    MulUnfold(0, b);
    if b != 0 {
      HalfShrinks(b, b);
      ZeroMul(Half(b));
      ScaleZero(b);
    }
  }

  lemma ScaleZero(b: bv8)
    ensures Scale(0, b) == 0
  {}

  lemma InverseIsInverse(a: bv8)
    requires a != 0
    ensures Mul(a, Inverse(a)) == 1
  {
    hide AlogTable, LogTable, Mul;
    AlogLog(a);
    AlogSum(LogTable(a), 255 - LogTable(a));
    SumZero(LogTable(a));
    AlogEnds();
  }

  lemma AffineInverts(a: bv8)
    ensures InvAffine(Affine(a)) == a
    ensures Affine(InvAffine(a)) == a
  {}

  lemma InverseIsInvAffineOfSbox(x: bv8)
    ensures Inverse(x) == InvAffine(Sbox(x))
  {}

  /** g_sbox is the S-box of section 5.1.1 of FIPS 197: inversion, then the affine map. */
  lemma SboxIsAffineInverse(x: bv8)
    ensures Sbox(x) == Affine(Inverse(x))
  {
    hide *;
    InverseIsInvAffineOfSbox(x);
    AffineInverts(Sbox(x));
  }
}
