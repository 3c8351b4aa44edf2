/**
 Which single fades along the linear curve are monotone: those whose 32-bit product never wraps,
 and those with so many steps that the wrapped product never reaches a whole level.
 */
module FadeOrder {
  import opened DimmingCurve
  import opened Words

  /** The largest power of two that divides `g`. */
  function LowPart(g: nat): (d: nat)
    requires g > 0
    ensures 1 <= d <= g
  {
    if g % 2 == 1 then 1 else 2 * LowPart(g / 2)
  }

  /** No step of the fade is nearer to the start than an earlier one. */
  ghost predicate Ordered(src: nat, dst: nat, total: nat)
    requires 0 < total
  {
    forall c1, c2 :: 0 <= c1 <= c2 < total ==> InOrder(src, dst, c1, c2, total)
  }

  /** The condition, in terms of the gap and the number of steps. */
  predicate Orderly(gap: nat, total: nat) {
    (total - 1) * gap < WORD || (gap > 0 && total > WORD - LowPart(gap))
  }

  function Pow2(n: nat): (p: nat)
    ensures p >= 1
  {
    if n == 0 then 1 else 2 * Pow2(n - 1)
  }

  lemma {:induction false} Pow2Add(m: nat, n: nat)
    ensures Pow2(m) * Pow2(n) == Pow2(m + n)
  {
    if m > 0 {
      Pow2Add(m - 1, n);
      var a, b := Pow2(m - 1), Pow2(n);
      assert (2 * a) * b == 2 * (a * b);
    }
  }

  lemma KnownPowers()
    ensures Pow2(16) == LEVELS && Pow2(32) == WORD
  {
    assert Pow2(8) == 256;
    hide Pow2;
    Pow2Add(8, 8);
    Pow2Add(16, 16);
  }

  lemma {:induction false} Pow2Grows(m: nat, n: nat)
    requires m <= n
    ensures Pow2(m) <= Pow2(n)
    decreases n
  {
    if m < n {
      Pow2Grows(m, n - 1);
    }
  }

  /** The odd part of a gap. */
  lemma {:induction false} Factor(g: nat) returns (k: nat, h: nat)
    requires g > 0
    ensures g == Pow2(k) * h && h % 2 == 1 && LowPart(g) == Pow2(k)
    decreases g
  {
    if g % 2 == 1 {
      k, h := 0, g;
    } else {
      k, h := Factor(g / 2);
      var p := Pow2(k);
      assert (2 * p) * h == 2 * (p * h);
      k := k + 1;
    }
  }

  lemma HalfStep(h: nat, x: nat, q: nat, p: nat) returns (x': nat, q': nat)
    requires h % 2 == 1 && x * h + 1 == q * p && x < p
    ensures x' * h + 1 == q' * (2 * p) && x' < 2 * p
  {
    x', q' := x, q;
    if q % 2 == 1 {
      x', q' := x + p, q + h;
      assert (x + p) * h == x * h + p * h;
      assert (q + h) * p == q * p + h * p;
    }
    var half := q' / 2;
    assert q' == 2 * half;
    assert (2 * half) * p == half * (2 * p);
    q' := half;
  }

  /** An odd number has a multiple just below a multiple of any power of two. */
  lemma {:induction false} JustBelow(h: nat, n: nat) returns (x: nat, q: nat)
    requires h % 2 == 1
    ensures x * h + 1 == q * Pow2(n) && x < Pow2(n)
  {
    if n == 0 {
      x, q := 0, 1;
      assert 0 * h == 0;
    } else {
      x, q := JustBelow(h, n - 1);
      x, q := HalfStep(h, x, q, Pow2(n - 1));
    }
  }

  lemma Scaled(x: nat, h: nat, d: nat, q: nat, m: nat, g: nat)
    requires x * h + 1 == q * m && g == d * h && x < m && d > 0
    ensures x * g + d == q * (d * m) && x * d < d * m
  {
    assert x * (d * h) == d * (x * h);
    assert d * (x * h + 1) == d * (x * h) + d;
    assert d * (q * m) == q * (d * m);
    MulMonotone(x + 1, m, d);
    assert (x + 1) * d == x * d + d;
    assert m * d == d * m;
  }

  lemma SmallExponent(k: nat, g: nat)
    requires Pow2(k) <= g < LEVELS
    ensures k < 16
  {
    hide Pow2;
    KnownPowers();
    if k >= 16 {
      Pow2Grows(16, k);
    }
  }

  lemma FactorBelow(k: nat, h: nat, g: nat)
    requires g == Pow2(k) * h && g > 0
    ensures Pow2(k) <= g
  {
    MulMonotone(1, h, Pow2(k));
  }

  /** Some step's product is the largest possible remainder. */
  lemma LargestRemainder(g: nat) returns (c: nat, j: nat)
    requires 0 < g < LEVELS
    ensures c * g + LowPart(g) == j * WORD && c * LowPart(g) < WORD
  {
    hide Pow2, LowPart;
    var k, h := Factor(g);
    FactorBelow(k, h, g);
    SmallExponent(k, g);
    var x, q := JustBelow(h, 32 - k);
    KnownPowers();
    Pow2Add(k, 32 - k);
    Scaled(x, h, Pow2(k), q, Pow2(32 - k), g);
    c, j := x, q;
  }

  // ---------- shares ----------

  lemma RemainderIs(x: nat, j: nat, rest: nat)
    requires x == j * WORD + rest && rest < WORD
    ensures x % WORD == rest
  {}

  /** A step with a whole level before a step without one. */
  lemma FallsAt(g: nat, c: nat, j: nat, total: nat)
    requires 0 < total && c + 1 < total && g < total
    requires j * WORD + total <= c * g < (j + 1) * WORD <= (c + 1) * g
    ensures Share(g, c, total) >= 1 && Share(g, c + 1, total) == 0
  {
    var x, y := c * g, (c + 1) * g;
    assert y == x + g;
    assert (j + 1) * WORD == j * WORD + WORD;
    RemainderIs(x, j, x - j * WORD);
    RemainderIs(y, j + 1, y - (j + 1) * WORD);
    QuotientOne(x - j * WORD, total);
    DivBelow(y - (j + 1) * WORD, 1, total);
  }

  /** If the product wraps while the fade is short enough, the step before the first wrap is above the one after. */
  lemma FirstWrapFalls(g: nat, total: nat) returns (c: nat)
    requires 0 < g < LEVELS && 0 < total <= WORD - g && (total - 1) * g >= WORD
    ensures c + 1 < total && Share(g, c, total) >= 1 && Share(g, c + 1, total) == 0
  {
    c := (WORD - 1) / g;
    assert c * g <= WORD - 1 < (c + 1) * g by { QuotientBounds(WORD - 1, g); }
    assert (c + 1) * g == c * g + g;
    if total - 1 <= c {
      MulMonotone(total - 1, c, g);
    }
    LongEnough(g, total);
    assert 0 * WORD == 0 && 1 * WORD == WORD;
    FallsAt(g, c, 0, total);
  }

  lemma QuotientBounds(x: nat, g: nat)
    requires g > 0
    ensures (x / g) * g <= x < (x / g + 1) * g
  {
    assert (x / g + 1) * g == (x / g) * g + g;
  }

  /** A fade whose product wraps has more steps than there are levels. */
  lemma LongEnough(g: nat, total: nat)
    requires g < LEVELS && 0 < total && (total - 1) * g >= WORD
    ensures total > LEVELS
  {
    if total - 1 < LEVELS {
      MulMonotone(total - 1, LEVELS - 1, g);
    }
  }

  /** The largest remainder comes up well before the end of a fade this long. */
  lemma InTime(g: nat, c: nat, j: nat, total: nat)
    requires 1 < g < LEVELS && WORD - g < total
    requires c * g + LowPart(g) == j * WORD && c * LowPart(g) < WORD
    ensures c + 1 < total
  {
    var d := LowPart(g);
    hide LowPart;
    if d >= 2 {
      MulMonotone(2, d, c);
      assert 2 * c <= d * c;
      assert d * c == c * d;
    } else {
      var e := WORD - c;
      if e <= LEVELS {
        assert e * g == WORD * g - c * g;
        assert WORD * g - j * WORD == (g - j) * WORD;
        MulMonotone(e, LEVELS, g);
        MulMonotone(1, e, g);
        assert false;
      }
    }
  }

  /** If it wraps in a longer fade, the step with the largest remainder is above the next one. */
  lemma LateWrapFalls(g: nat, total: nat) returns (c: nat)
    requires 0 < g < LEVELS && WORD - g < total <= WORD - LowPart(g) && (total - 1) * g >= WORD
    ensures c + 1 < total && Share(g, c, total) >= 1 && Share(g, c + 1, total) == 0
  {
    var j: nat;
    c, j := LargestRemainder(g);
    InTime(g, c, j, total);
    LongEnough(g, total);
    assert (c + 1) * g == c * g + g;
    assert j > 0 && (j - 1) * WORD + WORD == j * WORD;
    FallsAt(g, c, j - 1, total);
  }

  lemma MulOrder(a: int, b: int, d: nat)
    requires a <= b
    ensures a * d <= b * d
  {
    assert (b - a) * d >= 0;
    assert b * d == (b - a) * d + a * d;
  }

  lemma MultipleBelow(z: int, d: nat, m: nat)
    requires d > 0 && z * d < d * m
    ensures z * d <= d * m - d
  {
    assert m * d == d * m;
    if z >= m {
      MulOrder(m, z, d);
    }
    assert (m - 1 - z) * d >= 0;
    assert (m - 1 - z) * d == d * m - d - z * d;
  }

  /** All remainders are multiples of the power of two in the gap. */
  lemma RemainderBelow(g: nat, c: nat)
    requires 0 < g < LEVELS
    ensures (c * g) % WORD <= WORD - LowPart(g)
  {
    hide Pow2, LowPart;
    var k, h := Factor(g);
    FactorBelow(k, h, g);
    SmallExponent(k, g);
    KnownPowers();
    Pow2Add(k, 32 - k);
    var d, m := Pow2(k), Pow2(32 - k);
    var x := c * g;
    var n := x / WORD;
    assert x % WORD == x - n * WORD;
    assert c * (d * h) == (c * h) * d;
    assert n * (d * m) == (n * m) * d;
    assert (c * h - n * m) * d == (c * h) * d - (n * m) * d;
    MultipleBelow(c * h - n * m, d, m);
  }

  /** With that many steps no share reaches a whole level. */
  lemma NoShare(g: nat, c: nat, total: nat)
    requires 0 < g < LEVELS && 0 < total && total > WORD - LowPart(g)
    ensures Share(g, c, total) == 0
  {
    RemainderBelow(g, c);
    DivBelow((c * g) % WORD, 1, total);
  }

  /** On the way, the order of levels is the order of shares. */
  lemma OrderIsShare(src: nat, dst: nat, c1: nat, c2: nat, total: nat)
    requires src < LEVELS && dst < LEVELS && c1 < total && c2 < total
    ensures InOrder(src, dst, c1, c2, total) <==> Share(Gap(src, dst), c1, total) <= Share(Gap(src, dst), c2, total)
  {
    LinearUnfinished(src, dst, c1, total);
    LinearUnfinished(src, dst, c2, total);
    hide Linear, Share;
  }

  lemma OrderlyFade(src: nat, dst: nat, c1: nat, c2: nat, total: nat)
    requires src < LEVELS && dst < LEVELS && c1 <= c2 < total
    requires Orderly(Gap(src, dst), total)
    ensures InOrder(src, dst, c1, c2, total)
  {
    var g := Gap(src, dst);
    if (total - 1) * g < WORD {
      LinearInOrder(src, dst, c1, c2, total);
    } else {
      NoShare(g, c1, total);
      NoShare(g, c2, total);
      OrderIsShare(src, dst, c1, c2, total);
    }
    hide InOrder, Share, LowPart;
  }

  /** The fade between two given levels in a given number of steps is monotone exactly under the condition. */
  lemma SingleFadeExactly(src: nat, dst: nat, total: nat)
    requires src < LEVELS && dst < LEVELS && 0 < total < WORD
    ensures Ordered(src, dst, total) <==> Orderly(Gap(src, dst), total)
  {
    hide InOrder, LowPart, Share;
    var g := Gap(src, dst);
    if Orderly(g, total) {
      forall c1, c2 | 0 <= c1 <= c2 < total
        ensures InOrder(src, dst, c1, c2, total)
      {
        OrderlyFade(src, dst, c1, c2, total);
      }
    } else {
      GapPositive(g, total);
      var c;
      if total <= WORD - g {
        c := FirstWrapFalls(g, total);
      } else {
        c := LateWrapFalls(g, total);
      }
      OrderIsShare(src, dst, c, c + 1, total);
      assert !InOrder(src, dst, c, c + 1, total);
    }
  }

  lemma GapPositive(g: nat, total: nat)
    requires 0 < total && (total - 1) * g >= WORD
    ensures g > 0
  {
    assert (total - 1) * 0 == 0;
  }
}
