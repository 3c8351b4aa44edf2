/**
 The linear dimming curve of dimmingCurve.c, with its 32-bit arithmetic, and when a fade along
 it is monotone.
 */
module DimmingCurve {
  import opened Words

  const LEVELS: nat := 0x1_0000

  function Clamp(v: nat, lo: nat, hi: nat): nat
    requires lo <= hi
  {
    if v < lo then lo else if v > hi then hi else v
  }

  /** `cur * gap / total` on 32-bit words: the product wraps around. */
  function Share(gap: nat, cur: nat, total: nat): nat
    requires 0 < total
  {
    ((cur * gap) % WORD) / total
  }

  /** `DimmingCurve_Linear`. */
  function Linear(src: nat, dst: nat, cur: nat, total: nat): nat
    requires 0 < total
  {
    if cur > total then src
    else if src <= dst then Clamp((src + Share(dst - src, cur, total)) % WORD, src, dst)
    else Clamp((src - Share(src - dst, cur, total)) % WORD, dst, src)
  }

  function Gap(src: nat, dst: nat): nat { if src <= dst then dst - src else src - dst }

  /** `v` lies between `a` and `b`, in either direction. */
  predicate Between(a: nat, v: nat, b: nat) { a <= v <= b || b <= v <= a }

  lemma MulMonotone(a: nat, b: nat, g: nat)
    requires a <= b
    ensures a * g <= b * g
  {}

  lemma DivBelow(x: nat, g: nat, d: nat)
    requires 0 < d && x < d * g
    ensures x / d < g
  {}

  lemma DivMonotone(x: nat, y: nat, d: nat)
    requires x <= y && 0 < d
    ensures x / d <= y / d
  {
    assert y < d * (y / d + 1);
    DivBelow(x, y / d + 1, d);
  }

  /** Wrapped or not, the share of an unfinished step is less than the whole gap. */
  lemma ShareBelow(gap: nat, cur: nat, total: nat)
    requires cur < total && 0 < gap
    ensures Share(gap, cur, total) < gap
  {
    var x := cur * gap;
    MulMonotone(cur, total - 1, gap);
    assert (total - 1) * gap == total * gap - gap;
    assert x % WORD <= x;
    DivBelow(x % WORD, gap, total);
  }

  lemma ShareOfNothing(cur: nat, total: nat)
    requires 0 < total
    ensures Share(0, cur, total) == 0
  {
    assert cur * 0 == 0;
  }

  lemma ShareMonotone(gap: nat, c1: nat, c2: nat, total: nat)
    requires c1 <= c2 < total && (total - 1) * gap < WORD
    ensures Share(gap, c1, total) <= Share(gap, c2, total)
  {
    MulMonotone(c1, c2, gap);
    MulMonotone(c2, total - 1, gap);
    var x, y := c1 * gap, c2 * gap;
    assert x % WORD == x && y % WORD == y;
    DivMonotone(x, y, total);
  }

  /**
   On an unfinished step the clamps and the final reduction never act: the curve is the source
   level plus or minus the share. It has not reached the target yet, even when the product wraps.
   */
  lemma LinearUnfinished(src: nat, dst: nat, cur: nat, total: nat)
    requires src < LEVELS && dst < LEVELS && cur < total
    ensures Linear(src, dst, cur, total) == if src <= dst then src + Share(dst - src, cur, total) else src - Share(src - dst, cur, total)
    ensures Between(src, Linear(src, dst, cur, total), dst)
    ensures src != dst ==> Linear(src, dst, cur, total) != dst
  {
    hide Share;
    if src != dst {
      ShareBelow(Gap(src, dst), cur, total);
    } else {
      ShareOfNothing(cur, total);
    }
  }

  lemma QuotientBounds(x: nat, d: nat)
    requires d > 0
    ensures x / d * d <= x < (x / d + 1) * d
  {}

  /**
   The level of an unfinished step, without division: from the source towards the target by the
   whole part of the wrapped product over the number of steps.
   */
  lemma LinearLevel(src: nat, dst: nat, cur: nat, total: nat)
    requires src < 0x1_0000 && dst < 0x1_0000 && cur < total
    ensures var v := Linear(src, dst, cur, total);
            && (src <= dst ==> src <= v <= dst && (v - src) * total <= (cur * (dst - src)) % 0x1_0000_0000 < (v - src + 1) * total)
            && (src > dst ==> dst <= v <= src && (src - v) * total <= (cur * (src - dst)) % 0x1_0000_0000 < (src - v + 1) * total)
  {
    LinearUnfinished(src, dst, cur, total);
    QuotientBounds((cur * Gap(src, dst)) % WORD, total);
    hide Linear;
  }

  /** Two steps of one fade are in order: the earlier one is not nearer to the target. */
  predicate InOrder(src: nat, dst: nat, c1: nat, c2: nat, total: nat)
    requires 0 < total
  {
    Between(src, Linear(src, dst, c1, total), Linear(src, dst, c2, total))
  }

  /** Without overflow of the product the fade is monotone. */
  lemma LinearInOrder(src: nat, dst: nat, c1: nat, c2: nat, total: nat)
    requires src < LEVELS && dst < LEVELS && c1 <= c2 < total
    requires (total - 1) * Gap(src, dst) < WORD
    ensures InOrder(src, dst, c1, c2, total)
  {
    LinearUnfinished(src, dst, c1, total);
    LinearUnfinished(src, dst, c2, total);
    ShareMonotone(Gap(src, dst), c1, c2, total);
    hide Share, Linear;
  }

  ghost predicate AllInOrder(total: nat)
    requires 0 < total
  {
    forall src, dst, c1, c2 :: 0 <= src < LEVELS && 0 <= dst < LEVELS && 0 <= c1 <= c2 < total ==> InOrder(src, dst, c1, c2, total)
  }

  const MAX_STEPS: nat := 65538

  /** Beyond `MAX_STEPS` steps, the fade from 0 to full falls back to 0 at step 65538. */
  lemma FadeFallsBack(total: nat)
    requires MAX_STEPS < total < WORD
    ensures !InOrder(0, 65535, 65537, 65538, total)
  {
    ShareAtPeak(total);
    hide Share;
  }

  lemma ShareAtPeak(total: nat)
    requires MAX_STEPS < total < WORD
    ensures 1 <= Share(65535, 65537, total) <= 65535 && Share(65535, 65538, total) == 0
  {
    assert Share(65535, 65537, total) == (WORD - 1) / total;
    assert Share(65535, 65538, total) == 65534 / total;
    hide Share;
    QuotientOne(WORD - 1, total);
    assert WORD - 1 < total * 65536;
    DivBelow(WORD - 1, 65536, total);
    DivBelow(65534, 1, total);
  }

  lemma QuotientOne(x: nat, d: nat)
    requires 0 < d <= x
    ensures x / d >= 1
  {}

  /** Fades of `total` steps are monotone for all 16-bit levels exactly up to `MAX_STEPS` steps. */
  lemma MonotoneExactly(total: nat)
    requires 0 < total < WORD
    ensures AllInOrder(total) <==> total <= MAX_STEPS
  {
    hide Linear, InOrder;
    if total <= MAX_STEPS {
      forall src, dst, c1, c2 | 0 <= src < LEVELS && 0 <= dst < LEVELS && 0 <= c1 <= c2 < total
        ensures InOrder(src, dst, c1, c2, total)
      {
        ProductFits(total, Gap(src, dst));
        LinearInOrder(src, dst, c1, c2, total);
      }
    } else {
      FadeFallsBack(total);
    }
  }

  lemma ProductFits(total: nat, gap: nat)
    requires 0 < total <= MAX_STEPS && gap < LEVELS
    ensures (total - 1) * gap < WORD
  {
    MulMonotone(total - 1, MAX_STEPS - 1, gap);
    assert (MAX_STEPS - 1) * gap <= (MAX_STEPS - 1) * 65535;
  }
}
