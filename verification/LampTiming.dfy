/** When the default flash ends: after an exact number of ticks, or never. */
module LampTiming {
  import opened DimmingCurve
  import opened LampSpec
  import opened LampFade
  import opened LampFlash
  import opened Words

  // ---------- the delay counter ----------

  /** How often `interval` has to be added to get to `x`: the quotient rounded up. */
  function Waits(x: int, interval: nat): nat
    requires 1 <= interval
    decreases x
  {
    if x <= 0 then 0 else 1 + Waits(x - interval, interval)
  }

  lemma {:induction false} WaitsRoundsUp(x: nat, interval: nat)
    requires 1 <= interval
    ensures Waits(x, interval) * interval >= x
    ensures x > 0 ==> (Waits(x, interval) - 1) * interval < x
    decreases x
  {
    if x > interval {
      WaitsRoundsUp(x - interval, interval);
      var n := Waits(x - interval, interval);
      assert (n + 1) * interval == n * interval + interval;
      assert n * interval == (n - 1) * interval + interval;
    }
  }

  /** The largest value the delay counter reaches before it starts over. */
  function LastDelay(interval: nat): nat
    requires 1 <= interval < WORD
  {
    Waits(MAX - interval, interval) * interval
  }

  function Times(k: nat, interval: nat): nat { k * interval }

  /** The values of the delay counter: whole intervals, or the idle value. */
  ghost predicate Counted(delay: nat, interval: nat)
    requires 1 <= interval < WORD
  {
    delay == MAX || exists k: nat :: delay == Times(k, interval) && k <= Waits(MAX - interval, interval)
  }

  /** A whole delay below another one is at least an interval below it. */
  lemma DelayGap(k: nat, n: nat, interval: nat)
    requires 1 <= interval
    ensures k < n ==> Times(k, interval) + interval <= Times(n, interval)
    ensures k >= n ==> Times(k, interval) >= Times(n, interval)
    ensures Times(k, interval) + interval == Times(k + 1, interval)
  {
    assert (k + 1) * interval == k * interval + interval;
    if k < n {
      MulMonotone(k + 1, n, interval);
    } else {
      MulMonotone(n, k, interval);
    }
  }

  /** Counting up from a delay that is not the last keeps it `Counted`. */
  lemma DelayAdvances(delay: nat, interval: nat)
    requires 1 <= interval < WORD && Counted(delay, interval) && delay < MAX - interval
    ensures Counted(delay + interval, interval) && delay + interval <= LastDelay(interval)
    ensures delay < LastDelay(interval)
  {
    hide Times;
    var n := Waits(MAX - interval, interval);
    var k: nat :| delay == Times(k, interval) && k <= n;
    WaitsRoundsUp(MAX - interval, interval);
    TimesIs(n, interval);
    DelayGap(k, n, interval);
  }

  lemma TimesIs(n: nat, interval: nat)
    ensures Times(n, interval) == n * interval
  {}

  lemma DelayStarts(interval: nat)
    requires 1 <= interval < WORD
    ensures Counted(0, interval) && Counted(MAX, interval) && 0 <= LastDelay(interval)
  {
    assert Times(0, interval) == 0;
  }

  /** A delay that has not reached a reachable period is not the last. */
  lemma DelayNotLast(delay: nat, period: nat, interval: nat)
    requires 1 <= interval < WORD && Counted(delay, interval)
    requires delay < period <= LastDelay(interval) && delay != MAX
    ensures delay < MAX - interval
  {
    hide Times;
    var n := Waits(MAX - interval, interval);
    var k: nat :| delay == Times(k, interval) && k <= n;
    WaitsRoundsUp(MAX - interval, interval);
    TimesIs(n, interval);
    DelayGap(k, n, interval);
    LastIsLast(k, n, interval);
  }

  lemma LastIsLast(k: nat, n: nat, interval: nat)
    requires 1 <= interval < WORD && k < n == Waits(MAX - interval, interval)
    ensures Times(k, interval) < MAX - interval
  {
    WaitsRoundsUp(MAX - interval, interval);
    MulMonotone(k, n - 1, interval);
  }

  // ---------- when a flash ends ----------

  /** Ticks from one change of the switch to the next. */
  function Turn(period: nat, interval: nat): nat
    requires 1 <= interval
  {
    if period == 0 then 1 else Waits(period, interval)
  }

  /** Ticks to the next change of the switch, from the given delay. */
  function FirstWait(delay: nat, period: nat, interval: nat): nat
    requires 1 <= interval < WORD
  {
    if delay >= MAX - interval then 1 + Waits(period, interval)
    else if period <= delay then 1
    else Waits(period - delay, interval)
  }

  /** Ticks to the end of a running fade. */
  function StepsLeft(f: Fade): nat {
    if f.curStep + 1 < f.total then f.total - f.curStep else 1
  }

  /**
   The exact number of ticks until the flash is over: to the next change of the switch, for
   the further changes, and for the fade that the last change starts.
   */
  function Remaining(l: Lamp, s: Setup): nat
    requires ValidSetup(s)
  {
    var f := l.flash;
    if !f.flashing then 0
    else if f.count == 0 then StepsLeft(l.fade)
    else
      FirstWait(f.delay, f.period, s.interval) + Rest(f.count - 1, f.period, s.interval)
      + LastTick(TotalSteps(s.interval, f.stepMs)) - 1
  }

  /** Ticks for `n` further changes of the switch. */
  function Rest(n: nat, period: nat, interval: nat): nat
    requires 1 <= interval
  {
    n * Turn(period, interval)
  }

  lemma RestStep(n: nat, period: nat, interval: nat)
    requires 1 <= interval && n > 0
    ensures Rest(n, period, interval) == Rest(n - 1, period, interval) + Turn(period, interval)
  {
    assert n * Turn(period, interval) == (n - 1) * Turn(period, interval) + Turn(period, interval);
  }

  /** A running fade counts below its total. */
  predicate Steady(f: Fade) {
    f.total < WORD && (f.adjusting ==> f.curStep < LastTick(f.total))
  }

  /** The default flash of this lamp ends, if it flashes. */
  ghost predicate Ending(l: Lamp, s: Setup)
    requires ValidSetup(s)
  {
    && !l.flash.callback && Steady(l.fade)
    && Counted(l.flash.delay, s.interval) && (l.flash.count > 0 ==> l.flash.period <= LastDelay(s.interval))
    && (if !l.flash.flashing then l.flash.count == 0 else l.flash.count > 0 || l.fade.adjusting)
  }

  lemma FlashingRemains(l: Lamp, s: Setup)
    requires ValidSetup(s)
    ensures Remaining(l, s) > 0 <==> l.flash.flashing
  {
    hide Rest, Waits, TotalSteps;
    if l.flash.flashing && l.flash.count > 0 {
      FirstWaitPositive(l.flash.delay, l.flash.period, s.interval);
    }
  }

  lemma FirstWaitPositive(delay: nat, period: nat, interval: nat)
    requires 1 <= interval < WORD
    ensures FirstWait(delay, period, interval) >= 1
  {}

  /** The first delay after a change of the switch, or from the idle state, waits a whole turn. */
  lemma FirstWaitFromZero(period: nat, interval: nat)
    requires 1 <= interval < WORD && period <= LastDelay(interval)
    ensures FirstWait(0, period, interval) == Turn(period, interval)
  {
    if interval == MAX {
      assert Waits(0, interval) * interval == 0;
    }
    hide LastDelay;
  }

  function FlashEnds(events: seq<Event>, arg: nat): nat {
    if events == [] then 0
    else FlashEnds(events[..|events| - 1], arg) + if events[|events| - 1] == FlashEnd(arg) then 1 else 0
  }

  lemma {:induction false} FlashEndsConcat(a: seq<Event>, b: seq<Event>, arg: nat)
    ensures FlashEnds(a + b, arg) == FlashEnds(a, arg) + FlashEnds(b, arg)
    decreases |b|
  {
    if b == [] {
      assert a + b == a;
    } else {
      FlashEndsConcat(a, b[..|b| - 1], arg);
      assert (a + b)[..|a + b| - 1] == a + b[..|b| - 1];
    }
  }

  lemma FlashEndsHooked(registered: bool, e: Event, arg: nat)
    ensures FlashEnds(Hooked(registered, e), arg) == if registered && e == FlashEnd(arg) then 1 else 0
    ensures FlashEnds([e], arg) == if e == FlashEnd(arg) then 1 else 0
  {
    var one: seq<Event> := [e];
    assert one[..0] == [];
  }

  /** The fade part of a tick on a lamp that flashes or not. */
  lemma StepProcEnds(l: Lamp, s: Setup)
    requires ValidSetup(s) && Ending(l, s)
    ensures var o := StepProc(l, s);
            && Ending(o.lamp, s) && o.lamp.param == l.param && o.lamp.flash.count == l.flash.count
            && o.lamp.flash.arg == l.flash.arg
            && (l.flash.count > 0 ==> Remaining(o.lamp, s) == Remaining(l, s))
            && (l.flash.count == 0 ==> Remaining(o.lamp, s) == if l.flash.flashing then Remaining(l, s) - 1 else 0)
  {
    hide Levels, LastDelay, Counted, FirstWait, Rest, TotalSteps;
  }

  lemma StepProcReports(l: Lamp, s: Setup)
    requires ValidSetup(s)
    ensures var o := StepProc(l, s);
            FlashEnds(o.events, l.flash.arg) == if l.flash.flashing && !o.lamp.flash.flashing && s.flashEnd then 1 else 0
  {
    hide Levels, FlashEnds;
    var f, flash := l.fade, l.flash;
    var cur := (f.curStep + 1) % WORD;
    var arg := flash.arg;
    var ends := flash.count == 0 && flash.flashing;
    if !f.adjusting {
      NoFlashEnd(arg);
    } else if cur < f.total {
      FlashEndsHooked(true, Output(Levels(f.(curStep := cur), cur)), arg);
    } else {
      var a, b := Hooked(s.dimmingEnd && !flash.flashing, DimmingEnd), Hooked(ends && s.flashEnd, FlashEnd(arg));
      FlashEndsHooked(true, Output(f.dst), arg);
      FlashEndsHooked(s.dimmingEnd && !flash.flashing, DimmingEnd, arg);
      FlashEndsHooked(ends && s.flashEnd, FlashEnd(arg), arg);
      FlashEndsConcat([Output(f.dst)], a, arg);
      FlashEndsConcat([Output(f.dst)] + a, b, arg);
    }
  }

  lemma NoFlashEnd(arg: nat)
    ensures FlashEnds([], arg) == 0
  {}

  lemma FlashProcReports(l: Lamp, s: Setup, a: Answer)
    requires ValidSetup(s) && !l.flash.callback
    ensures var o := FlashProc(l, s, a);
            FlashEnds(o.events, l.flash.arg) == 0 && o.lamp.flash.arg == l.flash.arg && o.lamp.flash.flashing == l.flash.flashing
  {
    hide FlashEnds, StartFade;
    var arg := l.flash.arg;
    NoFlashEnd(arg);
    FlashEndsHooked(s.statusHook, StatusHook(Toggle(l.param)), arg);
    var events := Hooked(s.statusHook, StatusHook(Toggle(l.param)));
    assert [] + events == events;
  }

  lemma TickReports(l: Lamp, s: Setup, a: Answer)
    requires ValidSetup(s) && !l.flash.callback
    ensures var o := Tick(l, s, a);
            FlashEnds(o.events, l.flash.arg) == if l.flash.flashing && !o.lamp.flash.flashing && s.flashEnd then 1 else 0
  {
    FlashProcReports(l, s, a);
    var o := FlashProc(l, s, a);
    StepProcReports(o.lamp, s);
    FlashEndsConcat(o.events, StepProc(o.lamp, s).events, l.flash.arg);
    hide FlashProc, StepProc, FlashEnds;
  }

  /** Only the delay counter moves while the period has not passed. */
  lemma WaitingTick(l: Lamp, s: Setup, a: Answer)
    requires ValidSetup(s) && Ending(l, s) && l.flash.count > 0
    requires FirstWait(l.flash.delay, l.flash.period, s.interval) > 1
    ensures var l' := FlashProc(l, s, a).lamp;
            && l' == l.(flash := l.flash.(delay := l'.flash.delay))
            && Counted(l'.flash.delay, s.interval)
            && FirstWait(l'.flash.delay, l.flash.period, s.interval) == FirstWait(l.flash.delay, l.flash.period, s.interval) - 1
  {
    hide LastDelay, Counted, Steady, StatusCtrl;
    var d, p, i := l.flash.delay, l.flash.period, s.interval;
    DelayStarts(i);
    if d >= MAX - i {
      FirstWaitFromZero(p, i);
      TurnOfZero(i);
    } else {
      DelayAdvances(d, i);
      WaitsMore(p - d, i);
      DelayNotLast(d + i, p, i);
    }
  }

  lemma WaitsMore(x: int, interval: nat)
    requires 1 <= interval && Waits(x, interval) > 1
    ensures x > interval
  {}

  lemma TurnOfZero(interval: nat)
    requires 1 <= interval
    ensures Waits(0, interval) == 0
  {}

  /** The period has passed: one change of the switch, and a new fade. */
  lemma TurningTick(l: Lamp, s: Setup, a: Answer)
    requires ValidSetup(s) && Ending(l, s) && l.flash.count > 0 && a.conversion.Converted?
    requires FirstWait(l.flash.delay, l.flash.period, s.interval) == 1
    ensures var l' := FlashProc(l, s, a).lamp;
            && l'.param == Toggle(l.param) && l'.flash == l.flash.(delay := 0, count := l.flash.count - 1)
            && l'.fade.adjusting && l'.fade.curStep == 0 && l'.fade.total == TotalSteps(s.interval, l.flash.stepMs)
  {
    hide LastDelay, Counted, Steady, TotalSteps;
    var d, p, i := l.flash.delay, l.flash.period, s.interval;
    if d >= MAX - i {
      WaitsPositive(p, i);
    } else if d < p {
      WaitsPositive(p - d - i, i);
    }
  }

  lemma WaitsPositive(x: int, interval: nat)
    requires 1 <= interval
    ensures Waits(x, interval) == 0 <==> x <= 0
  {}

  /** The switch changes exactly when the count goes down, by one. */
  predicate SwitchCounted(l: Lamp, l': Lamp) {
    if l'.flash.count == l.flash.count then l'.param == l.param
    else l'.flash.count == l.flash.count - 1 && l'.param == Toggle(l.param)
  }

  /** The flash part of a tick, counted in ticks still to come. */
  lemma FlashProcCounts(l: Lamp, s: Setup, a: Answer)
    requires ValidSetup(s) && Ending(l, s) && l.flash.count > 0 && a.conversion.Converted?
    ensures var l' := FlashProc(l, s, a).lamp;
            && Ending(l', s) && l'.flash.flashing
            && SwitchCounted(l, l')
            && (l'.flash.count > 0 ==> Remaining(l', s) == Remaining(l, s) - 1)
            && (l'.flash.count == 0 ==> Remaining(l', s) == Remaining(l, s))
  {
    hide LastDelay, Counted, FlashProc, FirstWait, Turn, Rest, TotalSteps;
    var f := l.flash;
    DelayStarts(s.interval);
    FirstWaitPositive(f.delay, f.period, s.interval);
    TotalBelow(s.interval, f.stepMs);
    if FirstWait(f.delay, f.period, s.interval) > 1 {
      WaitingTick(l, s, a);
    } else {
      TurningTick(l, s, a);
      FirstWaitFromZero(f.period, s.interval);
      if f.count > 1 {
        RestStep(f.count - 1, f.period, s.interval);
      } else {
        NoRest(f.period, s.interval);
      }
    }
  }

  lemma TotalBelow(interval: nat, periodMs: nat)
    requires 1 <= interval
    ensures TotalSteps(interval, periodMs) < WORD
  {}

  lemma NoRest(period: nat, interval: nat)
    requires 1 <= interval
    ensures Rest(0, period, interval) == 0
  {}

  /** Every tick takes exactly one tick off the remaining time; the switch changes with the count. */
  lemma TickCounts(l: Lamp, s: Setup, a: Answer)
    requires ValidSetup(s) && Ending(l, s) && a.conversion.Converted?
    ensures var l' := Tick(l, s, a).lamp;
            && Ending(l', s) && l'.flash.arg == l.flash.arg
            && Remaining(l', s) == (if l.flash.flashing then Remaining(l, s) - 1 else 0)
            && SwitchCounted(l, l')
  {
    FlashProcReports(l, s, a);
    var m := FlashProc(l, s, a).lamp;
    if l.flash.count == 0 {
      IdleFlashProc(l, s, a);
    } else {
      FlashProcCounts(l, s, a);
    }
    StepProcEnds(m, s);
    hide Ending, Remaining, FlashProc, StepProc, Toggle;
  }

  /** Without half periods to come, the flash part only parks the delay counter. */
  lemma IdleFlashProc(l: Lamp, s: Setup, a: Answer)
    requires ValidSetup(s) && Ending(l, s) && l.flash.count == 0
    ensures var l' := FlashProc(l, s, a).lamp;
            Ending(l', s) && l' == l.(flash := l.flash.(delay := MAX)) && Remaining(l', s) == Remaining(l, s)
  {
    hide LastDelay, Counted, Steady;
    DelayStarts(s.interval);
  }

  // ---------- runs of ticks ----------

  /** Only ticks, and every colour conversion succeeds. */
  ghost predicate Quiet(steps: seq<Step>) {
    forall k :: 0 <= k < |steps| ==> steps[k].Due? && steps[k].answer.conversion.Converted?
  }

  /** How often the shown switch changes in a run. */
  function Changes(l: Lamp, s: Setup, steps: seq<Step>): nat
    requires ValidSetup(s)
  {
    if steps == [] then 0
    else
      var before := Run(l, s, steps[..|steps| - 1]).lamp;
      Changes(l, s, steps[..|steps| - 1])
      + if Normal(Apply(before, s, steps[|steps| - 1]).lamp.param) == Normal(before.param) then 0 else 1
  }

  lemma ToggleShows(p: Param, q: Param, n: nat)
    requires Normal(q) == Shown(p, n)
    ensures Normal(Toggle(q)) != Normal(q) && Normal(Toggle(q)) == Shown(p, n + 1) && Toggle(q).switch <= ON
  {}

  lemma NoneShows(p: Param)
    ensures Normal(p) == Shown(p, 0)
  {}

  /** After `k` ticks, `k` ticks less remain; every change of the switch has been counted down. */
  lemma {:induction false} RunCounts(l: Lamp, s: Setup, steps: seq<Step>)
    requires ValidSetup(s) && Ending(l, s) && Quiet(steps)
    ensures var o := Run(l, s, steps);
            && Ending(o.lamp, s) && o.lamp.flash.arg == l.flash.arg
            && Remaining(o.lamp, s) == (if |steps| <= Remaining(l, s) then Remaining(l, s) - |steps| else 0)
            && Changes(l, s, steps) + o.lamp.flash.count == l.flash.count
            && Normal(o.lamp.param) == Shown(l.param, Changes(l, s, steps))
            && (if Changes(l, s, steps) == 0 then o.lamp.param == l.param else o.lamp.param.switch <= ON)
            && FlashEnds(o.events, l.flash.arg) == if l.flash.flashing && !o.lamp.flash.flashing && s.flashEnd then 1 else 0
  {
    hide Ending, Remaining, Tick, Normal, Toggle, FlashEnds, Shown;
    if steps == [] {
      NoFlashEnd(l.flash.arg);
      NoneShows(l.param);
    } else {
      var before, last := steps[..|steps| - 1], steps[|steps| - 1];
      RunCounts(l, s, before);
      var o := Run(l, s, before);
      FlashingRemains(l, s);
      FlashingRemains(o.lamp, s);
      TickCounts(o.lamp, s, last.answer);
      FlashingRemains(Tick(o.lamp, s, last.answer).lamp, s);
      NoCallback(o.lamp, s);
      TickReports(o.lamp, s, last.answer);
      ToggleShows(l.param, o.lamp.param, Changes(l, s, before));
      FlashEndsConcat(o.events, Tick(o.lamp, s, last.answer).events, l.flash.arg);
    }
  }

  lemma NoCallback(l: Lamp, s: Setup)
    requires ValidSetup(s) && Ending(l, s)
    ensures !l.flash.callback
  {}

  /** A flash that cannot end: its period is out of reach, or its count wrapped to 0 with no fade running. */
  ghost predicate Endless(l: Lamp, s: Setup)
    requires ValidSetup(s)
  {
    && l.flash.flashing && Counted(l.flash.delay, s.interval)
    && (if l.flash.count > 0 then l.flash.period > LastDelay(s.interval) else !l.fade.adjusting)
  }

  lemma EndlessTick(l: Lamp, s: Setup, a: Answer)
    requires ValidSetup(s) && Endless(l, s)
    ensures Endless(Tick(l, s, a).lamp, s)
  {
    hide Counted, LastDelay, Levels, StatusCtrl;
    DelayStarts(s.interval);
    if l.flash.delay < MAX - s.interval {
      DelayAdvances(l.flash.delay, s.interval);
    }
  }

  lemma {:induction false} EndlessRun(l: Lamp, s: Setup, steps: seq<Step>)
    requires ValidSetup(s) && Endless(l, s) && Quiet(steps)
    ensures Endless(Run(l, s, steps).lamp, s)
  {
    hide Endless, Tick;
    if steps != [] {
      var before := steps[..|steps| - 1];
      EndlessRun(l, s, before);
      EndlessTick(Run(l, s, before).lamp, s, steps[|steps| - 1].answer);
    }
  }

  /** When a flash just started is able to end. */
  predicate CanEnd(l: Lamp, s: Setup)
    requires ValidSetup(s)
  {
    if l.flash.count > 0 then l.flash.period <= LastDelay(s.interval) else l.fade.adjusting
  }

  /**
   A default flash on a lamp at rest, left alone. It ends with tick `Remaining` exactly when
   its period is reachable by the delay counter and its count has not wrapped to 0. By then the
   switch has changed twice for each flash, the parameters are back except that a switch value
   above 1 is now 1, and the end has been reported once.
   */
  lemma FlashEndsExactly(l: Lamp, s: Setup, stepMs: nat, periodMs: nat, n: nat, arg: nat, steps: seq<Step>)
    requires ValidSetup(s) && Steady(l.fade) && Counted(l.flash.delay, s.interval)
    requires !l.flash.flashing && n > 0 && Quiet(steps)
    ensures var start := FlashCtrl(l, stepMs, periodMs, n, false, arg);
            var o := Run(start, s, steps);
            var over := CanEnd(start, s) && |steps| >= Remaining(start, s);
            && (o.lamp.flash.flashing <==> !over)
            && (over ==> o.lamp.param == if (n * 2) % WORD == 0 then l.param else Normal(l.param))
            && (over ==> (o.lamp.param == l.param <==> l.param.switch <= ON || (n * 2) % WORD == 0))
            && (over ==> Changes(start, s, steps) == (n * 2) % WORD)
            && (over ==> FlashEnds(o.events, arg) == if s.flashEnd then 1 else 0)
  {
    hide Changes, FlashEnds, Waits, Run, TotalSteps, Rest, FirstWait, Quiet;
    EvenCount(n);
    var start := FlashCtrl(l, stepMs, periodMs, n, false, arg);
    if CanEnd(start, s) {
      RunCounts(start, s, steps);
      FlashingRemains(start, s);
      FlashingRemains(Run(start, s, steps).lamp, s);
    } else {
      EndlessRun(start, s, steps);
    }
  }

  lemma EvenCount(n: nat)
    ensures ((n * 2) % WORD) % 2 == 0
  {}

  /** The delay counter never gets to the longest period. */
  lemma LastDelayBelow(interval: nat)
    requires 1 <= interval < WORD
    ensures LastDelay(interval) < MAX
  {
    var n := Waits(MAX - interval, interval);
    WaitsRoundsUp(MAX - interval, interval);
    assert n * interval == (n - 1) * interval + interval;
  }

  /** A single flash with the longest period never ends, whatever the step interval. */
  lemma LongestPeriodNeverEnds(l: Lamp, s: Setup, stepMs: nat, arg: nat, steps: seq<Step>)
    requires ValidSetup(s) && Ready(l, s) && !l.flash.flashing && Quiet(steps)
    ensures Run(FlashCtrl(l, stepMs, 0xFFFF_FFFF, 1, false, arg), s, steps).lamp.flash.flashing
  {
    hide LastDelay, Run, Quiet, Remaining, Changes, FlashEnds;
    LastDelayBelow(s.interval);
    FlashEndsExactly(l, s, stepMs, 0xFFFF_FFFF, 1, arg, steps);
  }

  /** Twice 2^31 flashes wrap to none: on a lamp with no running fade such a flash never ends. */
  lemma WrappedCountNeverEnds(l: Lamp, s: Setup, stepMs: nat, periodMs: nat, arg: nat, steps: seq<Step>)
    requires ValidSetup(s) && Ready(l, s) && !l.flash.flashing && !l.fade.adjusting && Quiet(steps)
    ensures Run(FlashCtrl(l, stepMs, periodMs, 0x8000_0000, false, arg), s, steps).lamp.flash.flashing
  {
    hide LastDelay, Run, Quiet, Remaining, Changes, FlashEnds;
    FlashEndsExactly(l, s, stepMs, periodMs, 0x8000_0000, arg, steps);
  }

  /** A scene may set the switch to 2; a flash gives it back as 1. */
  lemma SwitchTwoComesBackAsOne(l: Lamp, s: Setup, stepMs: nat, periodMs: nat, arg: nat, steps: seq<Step>)
    requires ValidSetup(s) && Ready(l, s) && !l.flash.flashing && Quiet(steps)
    requires l.param.switch == 2 && periodMs <= LastDelay(s.interval)
    requires |steps| >= Remaining(FlashCtrl(l, stepMs, periodMs, 1, false, arg), s)
    ensures var r := Run(FlashCtrl(l, stepMs, periodMs, 1, false, arg), s, steps).lamp;
            !r.flash.flashing && r.param == l.param.(switch := 1)
  {
    hide LastDelay, Run, Quiet, Remaining, Changes, FlashEnds;
    FlashEndsExactly(l, s, stepMs, periodMs, 1, arg, steps);
  }

  /** On an idle lamp, in closed form: `2n` half periods, each the period rounded up to whole ticks, and the last fade. */
  lemma FlashDuration(l: Lamp, s: Setup, stepMs: nat, periodMs: nat, n: nat, arg: nat)
    requires ValidSetup(s) && !l.flash.flashing && l.flash.delay == MAX && 0 < n * 2 < WORD
    ensures var start := FlashCtrl(l, stepMs, periodMs, n, false, arg);
            Remaining(start, s) == n * 2 * Turn(periodMs, s.interval) + LastTick(TotalSteps(s.interval, stepMs))
                                   - if periodMs == 0 then 1 else 0
    ensures var half := Turn(periodMs, s.interval);
            if periodMs == 0 then half == 1 else (half - 1) * s.interval < periodMs <= half * s.interval
  {
    WaitsRoundsUp(periodMs, s.interval);
    hide TotalSteps;
    TurnOfZero(s.interval);
    RestStep(n * 2, periodMs, s.interval);
    hide Waits;
  }

  /** What every reachable state meets. */
  ghost predicate Ready(l: Lamp, s: Setup)
    requires ValidSetup(s)
  {
    Steady(l.fade) && Counted(l.flash.delay, s.interval) && (!l.flash.flashing ==> l.flash.count == 0)
  }

  /** A lamp that has just been created is ready, whatever the static counter counted before. */
  lemma CreatedReady(p: Param, delay: nat, s: Setup, conversion: Conversion)
    requires ValidSetup(s) && Counted(delay, s.interval)
    ensures Ready(StatusCtrl(NewLamp(p, delay), s, 1, conversion).lamp, s) && Counted(0, s.interval)
  {
    DelayStarts(s.interval);
    StatusCtrlReady(NewLamp(p, delay), s, 1, conversion);
    hide StatusCtrl, Counted;
  }

  lemma StatusCtrlReady(l: Lamp, s: Setup, periodMs: nat, conversion: Conversion)
    requires ValidSetup(s) && Ready(l, s)
    ensures var l' := StatusCtrl(l, s, periodMs, conversion).lamp;
            Ready(l', s) && l'.flash == l.flash && l'.param == l.param
  {
    hide Counted, TotalSteps;
    TotalBelow(s.interval, periodMs);
  }

  lemma FlashTurnReady(l: Lamp, s: Setup, isFirst: bool, a: Answer)
    requires ValidSetup(s) && Ready(l, s) && l.flash.count > 0 && l.flash.flashing
    ensures Ready(FlashTurn(l, s, isFirst, a).lamp, s)
  {
    hide Counted, StatusCtrl, Steady;
    DelayStarts(s.interval);
    StatusCtrlReady(Edited(l, a), s, Edited(l, a).flash.stepMs, a.conversion);
  }

  lemma FlashProcReady(l: Lamp, s: Setup, a: Answer)
    requires ValidSetup(s) && Ready(l, s)
    ensures Ready(FlashProc(l, s, a).lamp, s)
  {
    hide Counted, FlashTurn;
    DelayStarts(s.interval);
    if l.flash.count > 0 {
      var isFirst := l.flash.delay >= MAX - s.interval;
      if !isFirst {
        DelayAdvances(l.flash.delay, s.interval);
      }
      var d := if isFirst then 0 else l.flash.delay + s.interval;
      FlashTurnReady(l.(flash := l.flash.(delay := d)), s, isFirst, a);
    }
  }

  lemma StepProcReady(l: Lamp, s: Setup)
    requires ValidSetup(s) && Ready(l, s)
    ensures Ready(StepProc(l, s).lamp, s)
  {
    hide Counted, Levels;
  }

  lemma ApplyReady(l: Lamp, s: Setup, step: Step)
    requires ValidSetup(s) && Ready(l, s)
    ensures Ready(Apply(l, s, step).lamp, s)
  {
    match step {
      case Due(a) =>
        FlashProcReady(l, s, a);
        StepProcReady(FlashProc(l, s, a).lamp, s);
        hide FlashProc, StepProc, Ready;
      case Ctrl(c, periodMs, conversion) =>
        StatusCtrlReady(l.(param := Commanded(l.param, c)), s, periodMs, conversion);
        hide StatusCtrl, Counted;
      case SetPwms(periodMs, t) =>
        TotalBelow(s.interval, periodMs);
        hide TotalSteps, Counted;
      case StartFlash(stepMs, periodMs, n, callback, arg) =>
        hide Counted;
    }
  }

  /** Every run keeps the lamp ready for the exact results above. */
  lemma {:induction false} RunReady(l: Lamp, s: Setup, steps: seq<Step>)
    requires ValidSetup(s) && Ready(l, s)
    ensures Ready(Run(l, s, steps).lamp, s)
  {
    hide Ready, Apply;
    if steps != [] {
      RunReady(l, s, steps[..|steps| - 1]);
      ApplyReady(Run(l, s, steps[..|steps| - 1]).lamp, s, steps[|steps| - 1]);
    }
  }
}
