/** The trajectory of a fade, tick by tick, from the command to the target levels. */
module LampFade {
  import opened DimmingCurve
  import opened FadeOrder
  import opened LampSpec
  import opened Words

  /** The tick on which a fade of `total` steps reaches its target. */
  function LastTick(total: nat): nat { if total == 0 then 1 else total }

  /** Channel `c` after `k` ticks of a fade that started as `f`. */
  function ChannelAfter(f: Fade, c: nat, k: nat): nat
    requires c < 4
  {
    if k == 0 then f.curr[c]
    else if k < f.total then Channel(f.src[c], f.dst[c], k, f.total)
    else f.dst[c]
  }

  /** All channels after `k` ticks. */
  function LevelsAfter(f: Fade, k: nat): Pwms {
    seq(4, c requires 0 <= c < 4 => ChannelAfter(f, c, k))
  }

  /** The fade after `k` ticks. */
  function FadeAfter(f: Fade, k: nat): Fade {
    if k < LastTick(f.total) then f.(curStep := k, curr := LevelsAfter(f, k))
    else f.(curStep := LastTick(f.total), curr := f.dst, src := f.dst, adjusting := false)
  }

  /** A fade as `myLampPwmsCtrl` leaves it. */
  predicate Started(f: Fade) {
    f.adjusting && f.curStep == 0 && f.src == f.curr && f.total < WORD
  }

  predicate Ticking(steps: seq<Step>) {
    forall k :: 0 <= k < |steps| ==> steps[k].Due?
  }

  function DimmingEnds(events: seq<Event>): nat {
    if events == [] then 0
    else DimmingEnds(events[..|events| - 1]) + if events[|events| - 1].DimmingEnd? then 1 else 0
  }

  lemma {:induction false} DimmingEndsConcat(a: seq<Event>, b: seq<Event>)
    ensures DimmingEnds(a + b) == DimmingEnds(a) + DimmingEnds(b)
    decreases |b|
  {
    if b == [] {
      assert a + b == a;
    } else {
      DimmingEndsConcat(a, b[..|b| - 1]);
      assert (a + b)[..|a + b| - 1] == a + b[..|b| - 1];
    }
  }

  /** The levels sent to the hardware, in order. */
  function Outputs(events: seq<Event>): seq<Pwms> {
    if events == [] then []
    else Outputs(events[..|events| - 1]) + if events[|events| - 1].Output? then [events[|events| - 1].pwms] else []
  }

  lemma {:induction false} OutputsConcat(a: seq<Event>, b: seq<Event>)
    ensures Outputs(a + b) == Outputs(a) + Outputs(b)
    decreases |b|
  {
    if b == [] {
      assert a + b == a;
    } else {
      OutputsConcat(a, b[..|b| - 1]);
      assert (a + b)[..|a + b| - 1] == a + b[..|b| - 1];
    }
  }

  /** The levels after each of the first `n` ticks. */
  function LevelsUpTo(f: Fade, n: nat): seq<Pwms> {
    seq(n, k requires 0 <= k < n => LevelsAfter(f, k + 1))
  }

  function Least(a: nat, b: nat): nat { if a < b then a else b }

  lemma CountedEvents(p: Pwms, ends: bool)
    ensures DimmingEnds([Output(p)]) == 0 && Outputs([Output(p)]) == [p]
    ensures DimmingEnds([Output(p)] + Hooked(ends, DimmingEnd)) == if ends then 1 else 0
    ensures Outputs([Output(p)] + Hooked(ends, DimmingEnd)) == [p]
  {
    var out: seq<Event> := [Output(p)];
    assert DimmingEnds([]) == 0 && Outputs([]) == [] && out[..0] == [];
    if ends {
      assert (out + [DimmingEnd])[..1] == out;
    } else {
      assert out + [] == out;
    }
  }

  /** One more step of a fade on a lamp that does not flash. */
  lemma FadeStep(l: Lamp, s: Setup, f: Fade, k: nat)
    requires Started(f) && !l.flash.flashing && l.fade == FadeAfter(f, k)
    ensures var o := StepProc(l, s);
            && o.lamp == l.(fade := FadeAfter(f, k + 1))
            && DimmingEnds(o.events) == (if k + 1 == LastTick(f.total) && s.dimmingEnd then 1 else 0)
            && Outputs(o.events) == if k < LastTick(f.total) then [LevelsAfter(f, k + 1)] else []
  {
    hide Channel, DimmingEnds, Outputs, LevelsAfter, Levels;
    if k + 1 == LastTick(f.total) {
      LevelsAtEnd(f);
    }
    CountedEvents(f.dst, s.dimmingEnd);
    CountedEvents(LevelsAfter(f, k + 1), false);
    NoEvents();
    if k + 1 < f.total {
      LevelsAgree(f, l.fade.(curStep := k + 1), k + 1);
    }
    var out: seq<Event> := [Output(f.dst)] + Hooked(s.dimmingEnd, DimmingEnd);
    assert out + [] == out;
  }

  lemma NoEvents()
    ensures DimmingEnds([]) == 0 && Outputs([]) == []
  {}

  lemma LevelsAtEnd(f: Fade)
    ensures LevelsAfter(f, LastTick(f.total)) == f.dst
  {
    hide Channel;
  }

  lemma LevelsAgree(f: Fade, g: Fade, k: nat)
    requires 0 < k < f.total && g.src == f.src && g.dst == f.dst && g.total == f.total
    ensures Levels(g, k) == LevelsAfter(f, k)
  {
    hide Channel;
  }

  /** One more tick of a fade on a lamp that does not flash. */
  lemma FadeTick(l: Lamp, s: Setup, a: Answer, f: Fade, k: nat)
    requires ValidSetup(s) && Started(f)
    requires !l.flash.flashing && l.flash.count == 0 && l.fade == FadeAfter(f, k)
    ensures var o := Tick(l, s, a);
            && o.lamp.fade == FadeAfter(f, k + 1) && o.lamp.param == l.param
            && !o.lamp.flash.flashing && o.lamp.flash.count == 0
            && DimmingEnds(o.events) == (if k + 1 == LastTick(f.total) && s.dimmingEnd then 1 else 0)
            && Outputs(o.events) == if k < LastTick(f.total) then [LevelsAfter(f, k + 1)] else []
  {
    hide FadeAfter, StepProc, DimmingEnds, Outputs, LevelsAfter;
    var l' := FlashProc(l, s, a).lamp;
    FadeStep(l', s, f, k);
    assert [] + StepProc(l', s).events == StepProc(l', s).events;
  }

  /**
   The fade after any number of ticks, in closed form: it ends with the tick
   `LastTick(total)`, and the end is reported then and only then. Up to that tick, and no
   longer, every tick sends the levels of its step to the hardware.
   */
  lemma {:induction false} FadeTrajectory(l: Lamp, s: Setup, steps: seq<Step>)
    requires ValidSetup(s) && Started(l.fade) && Ticking(steps)
    requires !l.flash.flashing && l.flash.count == 0
    ensures var o := Run(l, s, steps);
            && o.lamp.fade == FadeAfter(l.fade, |steps|) && o.lamp.param == l.param
            && !o.lamp.flash.flashing && o.lamp.flash.count == 0
            && DimmingEnds(o.events) == (if |steps| >= LastTick(l.fade.total) && s.dimmingEnd then 1 else 0)
            && Outputs(o.events) == LevelsUpTo(l.fade, Least(|steps|, LastTick(l.fade.total)))
  {
    hide Tick, FadeAfter, LevelsAfter, LevelsUpTo, Outputs, DimmingEnds;
    if steps == [] {
      NoTick(l.fade);
      NoEvents();
      NoLevels(l.fade);
    } else {
      var before, last := steps[..|steps| - 1], steps[|steps| - 1];
      FadeTrajectory(l, s, before);
      var o := Run(l, s, before);
      FadeTick(o.lamp, s, last.answer, l.fade, |before|);
      DimmingEndsConcat(o.events, Tick(o.lamp, s, last.answer).events);
      OutputsConcat(o.events, Tick(o.lamp, s, last.answer).events);
      OneMoreLevel(l.fade, |before|);
    }
  }

  lemma NoLevels(f: Fade)
    ensures LevelsUpTo(f, 0) == []
  {}

  lemma OneMoreLevel(f: Fade, n: nat)
    ensures LevelsUpTo(f, n + 1) == LevelsUpTo(f, n) + [LevelsAfter(f, n + 1)]
    ensures LevelsUpTo(f, n) + [] == LevelsUpTo(f, n)
  {
    hide LevelsAfter;
  }

  lemma NoTick(f: Fade)
    requires Started(f)
    ensures FadeAfter(f, 0) == f
  {
    assert LevelsAfter(f, 0) == f.curr;
  }

  /** What `myLampPwmsCtrl` sets up: the target truncated to 16 bits, and the last tick. */
  lemma FadeStarts(f: Fade, interval: nat, periodMs: nat, t: Targets)
    requires 1 <= interval && periodMs < WORD
    ensures var f' := StartFade(f, interval, periodMs, t);
            && Started(f') && f'.curr == f.curr && f'.last == f.curr
            && (forall c :: 0 <= c < 4 ==> f'.dst[c] == t[c] % LEVELS)
            && (LastTick(f'.total) == periodMs / interval + 1 <==> !(interval == 1 && periodMs == MAX))
            && (interval == 1 && periodMs == MAX ==> LastTick(f'.total) == 1)
  {
    DivBelow2(periodMs, interval);
  }

  lemma DivBelow2(x: nat, d: nat)
    requires 1 <= d
    ensures x / d <= x && (x / d == x && x > 0 ==> d == 1)
  {
    if d > 1 && x > 0 {
      MulMonotone(2, d, x);
      DivBelow(x, x, d);
    }
  }

  /**
   Every channel stays between its start and its target, and is at the target from the last
   tick on but not earlier. This needs no bound on the number of steps.
   */
  lemma ChannelReaches(f: Fade, c: nat, k: nat)
    requires Started(f) && c < 4
    ensures Between(f.src[c], ChannelAfter(f, c, k), f.dst[c])
    ensures f.src[c] != f.dst[c] ==> (ChannelAfter(f, c, k) == f.dst[c] <==> k >= LastTick(f.total))
  {
    hide Linear;
    if 0 < k < f.total {
      LinearUnfinished(f.src[c], f.dst[c], k, f.total);
    }
  }

  /** Until the last tick the channel follows the curve. */
  lemma ChannelUnfinished(f: Fade, c: nat, k: nat)
    requires Started(f) && c < 4 && k < f.total
    ensures ChannelAfter(f, c, k) == Linear(f.src[c], f.dst[c], k, f.total)
  {
    var src, dst := f.src[c], f.dst[c];
    LinearUnfinished(src, dst, k, f.total);
    ShareAtZero(Gap(src, dst), f.total);
    hide Linear, Share;
  }

  lemma ShareAtZero(gap: nat, total: nat)
    requires 0 < total
    ensures Share(gap, 0, total) == 0
  {
    assert 0 * gap == 0;
  }

  /** A fade that meets the condition never turns back. */
  lemma ChannelMonotone(f: Fade, c: nat, j: nat, k: nat)
    requires Started(f) && c < 4 && j <= k
    requires Orderly(Gap(f.src[c], f.dst[c]), f.total)
    ensures Between(f.src[c], ChannelAfter(f, c, j), ChannelAfter(f, c, k))
  {
    hide Linear, Gap, Orderly;
    if k < f.total {
      ChannelUnfinished(f, c, j);
      ChannelUnfinished(f, c, k);
      OrderlyFade(f.src[c], f.dst[c], j, k, f.total);
    } else {
      ChannelReaches(f, c, j);
      hide ChannelAfter;
      ChannelEnds(f, c, k);
    }
  }

  /** Channel `c` is never nearer to its start than before. */
  ghost predicate NeverTurnsBack(f: Fade, c: nat)
    requires c < 4
  {
    forall j, k :: 0 <= j <= k ==> Between(f.src[c], ChannelAfter(f, c, j), ChannelAfter(f, c, k))
  }

  /** A channel never turns back exactly if its gap and the number of steps meet the condition. */
  lemma ChannelMonotoneExactly(f: Fade, c: nat)
    requires Started(f) && c < 4
    ensures NeverTurnsBack(f, c) <==> Orderly(Gap(f.src[c], f.dst[c]), f.total)
  {
    hide Linear, Orderly, Gap, ChannelAfter;
    var src, dst := f.src[c], f.dst[c];
    if Orderly(Gap(src, dst), f.total) {
      forall j, k | 0 <= j <= k
        ensures Between(src, ChannelAfter(f, c, j), ChannelAfter(f, c, k))
      {
        ChannelMonotone(f, c, j, k);
      }
    } else {
      OrderlyWithoutSteps(Gap(src, dst));
      SingleFadeExactly(src, dst, f.total);
      var c1, c2 :| 0 <= c1 <= c2 < f.total && !InOrder(src, dst, c1, c2, f.total);
      ChannelUnfinished(f, c, c1);
      ChannelUnfinished(f, c, c2);
    }
  }

  lemma OrderlyWithoutSteps(gap: nat)
    ensures Orderly(gap, 0)
  {}

  lemma ChannelEnds(f: Fade, c: nat, k: nat)
    requires Started(f) && c < 4 && k >= f.total
    ensures ChannelAfter(f, c, k) == if k == 0 then f.src[c] else f.dst[c]
  {}

  /** A fade of `total` steps between the given levels, on every channel. */
  function Uniform(src: nat, dst: nat, total: nat): Fade
    requires src < LEVELS && dst < LEVELS
  {
    var a: Pwms := [src, src, src, src];
    var b: Pwms := [dst, dst, dst, dst];
    Fade(a, a, a, b, 0, total, true)
  }

  /** Longer fades are not safe: one of them falls back on the way. */
  lemma LongFadeTurnsBack(total: nat)
    requires MAX_STEPS < total < WORD
    ensures var f := Uniform(0, 65535, total);
            Started(f) && !Between(0, ChannelAfter(f, 0, 65537), ChannelAfter(f, 0, 65538))
  {
    hide Linear;
    FadeFallsBack(total);
    ChannelUnfinished(Uniform(0, 65535, total), 0, 65537);
    ChannelUnfinished(Uniform(0, 65535, total), 0, 65538);
    hide ChannelAfter;
  }
}
