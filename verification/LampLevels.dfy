/**
 What the lamp shows: the level of every channel on every step of a fade, the levels that each
 command and each half period of a flash lead to, and what a flash leaves behind. All levels and
 parameters are written out here, without the functions that compute them.
 */
module LampLevels {
  import opened DimmingCurve
  import opened LampSpec
  import opened LampFade
  import opened LampFlash
  import opened LampTiming
  import opened Words

  lemma {:induction false} RunAppend(l: Lamp, s: Setup, a: seq<Step>, b: seq<Step>)
    requires ValidSetup(s)
    ensures var o := Run(l, s, a);
            var o' := Run(o.lamp, s, b);
            Run(l, s, a + b) == Outcome(o'.lamp, o.events + o'.events)
    decreases |b|
  {
    hide Apply;
    if b == [] {
      assert a + b == a;
    } else {
      assert (a + b)[..|a + b| - 1] == a + b[..|b| - 1];
      RunAppend(l, s, a, b[..|b| - 1]);
    }
  }

  lemma RunOne(l: Lamp, s: Setup, step: Step)
    requires ValidSetup(s)
    ensures Run(l, s, [step]) == Apply(l, s, step)
  {
    hide Apply;
    assert [step][..0] == [];
  }

  // ---------- the levels of a fade ----------

  /** `v` is on the line from `src` to `dst` after `cur` of `total` steps, as 32-bit words divide it. */
  predicate OnLine(src: nat, dst: nat, cur: nat, total: nat, v: nat) {
    if src <= dst then src <= v <= dst && (v - src) * total <= (cur * (dst - src)) % 0x1_0000_0000 < (v - src + 1) * total
    else dst <= v <= src && (src - v) * total <= (cur * (src - dst)) % 0x1_0000_0000 < (src - v + 1) * total
  }

  lemma ChannelOnLine(f: Fade, c: nat, k: nat)
    requires Started(f) && c < 4 && k < f.total
    ensures OnLine(f.src[c], f.dst[c], k, f.total, ChannelAfter(f, c, k))
  {
    ChannelUnfinished(f, c, k);
    LinearLevel(f.src[c], f.dst[c], k, f.total);
    hide Linear, ChannelAfter;
  }

  /** What the hardware gets during a fade that has just started, and where the lamp is then. */
  ghost predicate Fades(src: Pwms, dst: Pwms, total: nat, outputs: seq<Pwms>, ticks: nat, curr: Pwms) {
    var last := if total == 0 then 1 else total;
    && |outputs| == (if ticks < last then ticks else last)
    && (forall k, c :: 0 <= k < |outputs| && 0 <= c < 4 ==>
          if k + 1 < last then OnLine(src[c], dst[c], k + 1, total, outputs[k][c]) else outputs[k][c] == dst[c])
    && (ticks >= last ==> curr == dst)
  }

  lemma ShownAt(f: Fade, n: nat, k: nat, c: nat)
    requires Started(f) && k < n <= LastTick(f.total) && c < 4
    ensures |LevelsUpTo(f, n)| == n
    ensures var v := LevelsUpTo(f, n)[k][c];
            if k + 1 < LastTick(f.total) then OnLine(f.curr[c], f.dst[c], k + 1, f.total, v) else v == f.dst[c]
  {
    hide OnLine, Channel;
    if k + 1 < f.total { ChannelOnLine(f, c, k + 1); }
  }

  lemma AllShown(f: Fade, ticks: nat)
    requires Started(f)
    ensures Fades(f.curr, f.dst, f.total, LevelsUpTo(f, Least(ticks, LastTick(f.total))), ticks, FadeAfter(f, ticks).curr)
  {
    hide OnLine, LevelsUpTo, LevelsAfter, Started;
    var n := Least(ticks, LastTick(f.total));
    assert |LevelsUpTo(f, n)| == n by {
      if n > 0 { ShownAt(f, n, 0, 0); } else { NoLevels(f); }
    }
    forall k, c | 0 <= k < n && 0 <= c < 4
      ensures var v := LevelsUpTo(f, n)[k][c];
              if k + 1 < LastTick(f.total) then OnLine(f.curr[c], f.dst[c], k + 1, f.total, v) else v == f.dst[c]
    {
      ShownAt(f, n, k, c);
    }
  }

  lemma FadeShows(l: Lamp, s: Setup, steps: seq<Step>)
    requires ValidSetup(s) && Started(l.fade) && Ticking(steps) && !l.flash.flashing && l.flash.count == 0
    ensures var o := Run(l, s, steps);
            Fades(l.fade.curr, l.fade.dst, l.fade.total, Outputs(o.events), |steps|, o.lamp.fade.curr)
  {
    hide Run, Outputs, Fades, LevelsUpTo, FadeAfter, Ticking, Least;
    FadeTrajectory(l, s, steps);
    AllShown(l.fade, |steps|);
  }

  lemma LevelsStart(l: Lamp, s: Setup, periodMs: nat, t: Targets)
    requires ValidSetup(s) && periodMs < 0x1_0000_0000
    ensures var o := Apply(l, s, SetPwms(periodMs, t));
            && o.events == [] && o.lamp.param == l.param && o.lamp.flash == l.flash && Started(o.lamp.fade)
            && o.lamp.fade.curr == l.fade.curr && o.lamp.fade.total == (periodMs / s.interval + 1) % 0x1_0000_0000
            && o.lamp.fade.dst == [t[0] % 0x1_0000, t[1] % 0x1_0000, t[2] % 0x1_0000, t[3] % 0x1_0000]
  {
    FadeStarts(l.fade, s.interval, periodMs, t);
  }

  /**
   A user call for some levels: on every tick up to the last one the hardware gets, on every
   channel, the level on the line from where the lamp was to the target truncated to 16 bits; the
   last tick is the whole period and one more interval, and then the lamp is at the target.
   */
  lemma LevelsFade(l: Lamp, s: Setup, periodMs: nat, t: Targets, ticks: seq<Step>)
    requires ValidSetup(s) && periodMs < 0x1_0000_0000 && Ticking(ticks) && !l.flash.flashing && l.flash.count == 0
    ensures var o := Run(l, s, [SetPwms(periodMs, t)] + ticks);
            Fades(l.fade.curr, [t[0] % 0x1_0000, t[1] % 0x1_0000, t[2] % 0x1_0000, t[3] % 0x1_0000],
                  (periodMs / s.interval + 1) % 0x1_0000_0000, Outputs(o.events), |ticks|, o.lamp.fade.curr)
  {
    hide Fades, Outputs;
    RunOne(l, s, SetPwms(periodMs, t));
    RunAppend(l, s, [SetPwms(periodMs, t)], ticks);
    LevelsStart(l, s, periodMs, t);
    hide Run, Apply, Ticking;
    var o := Apply(l, s, SetPwms(periodMs, t));
    FadeShows(o.lamp, s, ticks);
    assert [] + Run(o.lamp, s, ticks).events == Run(o.lamp, s, ticks).events;
  }

  // ---------- commands ----------

  /** The source takes the command: a switch to off or on, or any other change of a lamp that is on. */
  predicate Taken(p: Param, c: Command) {
    match c
    case Scene(_) => true
    case Switch(status) => status == 0 || status == 1
    case Bri(_) => p.switch != 0
    case Cct(_, _) => p.switch != 0
    case Color(_, _) => p.switch != 0
  }

  /** The parameters after a command that is taken. */
  predicate Stored(p: Param, c: Command, p': Param) {
    match c
    case Scene(scene) => p' == scene
    case Switch(status) => p' == p.(switch := status)
    case Bri(bri) => p' == p.(bri := p'.bri) && p'.bri <= 65535 && (p'.bri == bri || (bri > 65535 && p'.bri == 65535))
    case Cct(cct, bri) =>
      p' == p.(rgb := false, bri := bri, cct := p'.cct) && p'.cct <= 65000 && (p'.cct == cct || (cct > 65000 && p'.cct == 65000))
    case Color(hue, bri) => p' == p.(rgb := true, hue := hue, bri := bri)
  }

  /** The levels for parameters `p`: dark if the switch is off, and else what the conversion answered. */
  predicate LevelsFor(p: Param, pwms: Targets, dst: Pwms) {
    forall c :: 0 <= c < 4 ==> dst[c] == if p.switch == 0 then 0 else pwms[c] % 0x1_0000
  }

  /** A command on a lamp that does not flash; a flashing lamp and a rejected command change nothing. */
  lemma CommandAims(l: Lamp, s: Setup, c: Command, periodMs: nat, conversion: Conversion)
    requires ValidSetup(s)
    ensures var o := Apply(l, s, Ctrl(c, periodMs, conversion));
            if l.flash.flashing || !Taken(l.param, c) then o == Outcome(l, [])
            else
              && Stored(l.param, c, o.lamp.param) && o.lamp.flash == l.flash
              && o.events == (if s.statusHook then [StatusHook(o.lamp.param)] else [])
              && (o.lamp.param.switch != 0 && conversion.Failed? ==> o.lamp.fade == l.fade)
              && (o.lamp.param.switch == 0 || conversion.Converted? ==>
                    o.lamp.fade == Fade(l.fade.curr, l.fade.curr, l.fade.curr, o.lamp.fade.dst, 0, (periodMs / s.interval + 1) % 0x1_0000_0000, true))
              && (o.lamp.param.switch == 0 ==> o.lamp.fade.dst == [0, 0, 0, 0])
              && (o.lamp.param.switch != 0 && conversion.Converted? ==>
                    forall ch :: 0 <= ch < 4 ==> o.lamp.fade.dst[ch] == conversion.pwms[ch] % 0x1_0000)
  {}

  /** A command that is taken starts a fade to the levels for its parameters. */
  lemma CommandStarts(l: Lamp, s: Setup, c: Command, periodMs: nat, conversion: Conversion)
    requires ValidSetup(s) && !l.flash.flashing && l.flash.count == 0 && Taken(l.param, c)
    requires conversion.Converted? || Apply(l, s, Ctrl(c, periodMs, conversion)).lamp.param.switch == 0
    ensures var o := Apply(l, s, Ctrl(c, periodMs, conversion));
            && Stored(l.param, c, o.lamp.param) && o.lamp.flash == l.flash && Started(o.lamp.fade)
            && o.lamp.fade.curr == l.fade.curr && o.lamp.fade.total == (periodMs / s.interval + 1) % 0x1_0000_0000
            && LevelsFor(o.lamp.param, if conversion.Converted? then conversion.pwms else [0, 0, 0, 0], o.lamp.fade.dst)
            && Outputs(o.events) == []
  {
    hide Stored, Outputs, Apply;
    CommandAims(l, s, c, periodMs, conversion);
    NoOutputs(s, Apply(l, s, Ctrl(c, periodMs, conversion)).lamp.param);
  }

  lemma NoOutputs(s: Setup, p: Param)
    ensures Outputs(if s.statusHook then [StatusHook(p)] else []) == []
  {
    var e: seq<Event> := [StatusHook(p)];
    assert e[..0] == [];
  }

  /**
   A command that is taken, and the ticks after it: the lamp fades, on the line, to dark if the
   switch is now off, and to the converted levels if it is on.
   */
  lemma CommandShows(l: Lamp, s: Setup, c: Command, periodMs: nat, conversion: Conversion, ticks: seq<Step>)
    requires ValidSetup(s) && Ticking(ticks) && !l.flash.flashing && l.flash.count == 0
    requires Taken(l.param, c)
    requires conversion.Converted? || Apply(l, s, Ctrl(c, periodMs, conversion)).lamp.param.switch == 0
    ensures var o := Run(l, s, [Ctrl(c, periodMs, conversion)] + ticks);
            var total := (periodMs / s.interval + 1) % 0x1_0000_0000;
            && Stored(l.param, c, o.lamp.param)
            && exists dst: Pwms :: LevelsFor(o.lamp.param, if conversion.Converted? then conversion.pwms else [0, 0, 0, 0], dst)
                 && Fades(l.fade.curr, dst, total, Outputs(o.events), |ticks|, o.lamp.fade.curr)
  {
    hide Fades, Outputs, Stored, LevelsFor;
    hide Apply, Run;
    var step := Ctrl(c, periodMs, conversion);
    CommandStarts(l, s, c, periodMs, conversion);
    RunOne(l, s, step);
    RunAppend(l, s, [step], ticks);
    var o := Apply(l, s, step);
    FadeShows(o.lamp, s, ticks);
    FadeTrajectory(o.lamp, s, ticks);
    OutputsConcat(o.events, Run(o.lamp, s, ticks).events);
    assert [] + Outputs(Run(o.lamp, s, ticks).events) == Outputs(Run(o.lamp, s, ticks).events);
  }

  /** A new lamp starts dark and fades to the levels for its parameters. */
  lemma CreatedAims(p: Param, delay: nat, s: Setup, conversion: Conversion)
    requires ValidSetup(s)
    ensures var l := StatusCtrl(NewLamp(p, delay), s, 1, conversion).lamp;
            && l.param == p && l.fade.curr == [0, 0, 0, 0] && !l.flash.flashing && l.flash.count == 0
            && (p.switch == 0 || conversion.Failed? ==> l.fade.dst == [0, 0, 0, 0])
            && (p.switch != 0 && conversion.Converted? ==> forall c :: 0 <= c < 4 ==> l.fade.dst[c] == conversion.pwms[c] % 0x1_0000)
            && (l.fade.adjusting <==> p.switch == 0 || conversion.Converted?)
  {}

  // ---------- the half periods of a flash ----------

  /** A tick of a flashing lamp on which the period has passed, before the fade takes its step. */
  lemma TurnAims(l: Lamp, s: Setup, a: Answer)
    requires ValidSetup(s) && l.flash.count > 0
    requires (if l.flash.delay >= 0xFFFF_FFFF - s.interval then 0 else l.flash.delay + s.interval) >= l.flash.period
    ensures var l' := FlashProc(l, s, a).lamp;
            var stepMs := if l.flash.callback then a.stepMs else l.flash.stepMs;
            && l'.flash == l.flash.(delay := 0, stepMs := stepMs, count := l.flash.count - 1)
            && l'.param == (if !l.flash.callback then l.param.(switch := if l.param.switch != 0 then 0 else 1)
                            else if l.flash.count == 1 then l.flash.backup else a.edited)
            && FlashProc(l, s, a).events ==
               (if l.flash.callback then [FlashCallback(l.flash.delay >= 0xFFFF_FFFF - s.interval, l.flash.count)] else [])
               + (if s.statusHook then [StatusHook(l'.param)] else [])
            && (l'.param.switch != 0 && a.conversion.Failed? ==> l'.fade == l.fade)
            && (l'.param.switch == 0 || a.conversion.Converted? ==>
                  l'.fade == Fade(l.fade.curr, l.fade.curr, l.fade.curr, l'.fade.dst, 0, (stepMs / s.interval + 1) % 0x1_0000_0000, true))
            && (l'.param.switch == 0 ==> l'.fade.dst == [0, 0, 0, 0])
            && (l'.param.switch != 0 && a.conversion.Converted? ==>
                  forall ch :: 0 <= ch < 4 ==> l'.fade.dst[ch] == a.conversion.pwms[ch] % 0x1_0000)
  {}

  /** A tick on which it has not passed, or on which nothing is left to flash. */
  lemma NoTurn(l: Lamp, s: Setup, a: Answer)
    requires ValidSetup(s)
    requires l.flash.count == 0 || (if l.flash.delay >= 0xFFFF_FFFF - s.interval then 0 else l.flash.delay + s.interval) < l.flash.period
    ensures var l' := FlashProc(l, s, a).lamp;
            l' == l.(flash := l.flash.(delay := l'.flash.delay)) && FlashProc(l, s, a).events == []
  {}

  /** Only ticks, and whenever the lamp is on the conversion answers `pwms`. */
  ghost predicate Answers(steps: seq<Step>, pwms: Targets) {
    forall k :: 0 <= k < |steps| ==> steps[k].Due? && steps[k].answer.conversion == Converted(pwms)
  }

  /** The lamp aims at what its parameters ask for, and is there when the flash is over. */
  predicate Aimed(l: Lamp, pwms: Targets) {
    LevelsFor(l.param, pwms, l.fade.dst) && (!l.flash.flashing ==> !l.fade.adjusting && l.fade.curr == l.fade.dst)
  }

  lemma StepKeepsAim(l: Lamp, s: Setup)
    ensures var l' := StepProc(l, s).lamp;
            && l'.param == l.param && l'.fade.dst == l.fade.dst && l'.flash.count == l.flash.count
            && (l.flash.flashing && !l'.flash.flashing ==> !l'.fade.adjusting && l'.fade.curr == l'.fade.dst && l'.flash.count == 0)
            && (!l.flash.flashing && !l.fade.adjusting ==> l' == l)
  {
    hide Levels;
  }

  lemma FlashTickAims(l: Lamp, s: Setup, a: Answer, pwms: Targets, n: nat)
    requires ValidSetup(s) && a.conversion == Converted(pwms) && !l.flash.callback
    requires l.flash.count <= n && (l.flash.count < n ==> Aimed(l, pwms)) && (!l.flash.flashing ==> l.flash.count == 0)
    ensures var l' := Tick(l, s, a).lamp;
            && l'.flash.count <= n && (l'.flash.count < n ==> Aimed(l', pwms))
            && !l'.flash.callback && (!l'.flash.flashing ==> l'.flash.count == 0)
  {
    var f := l.flash;
    var m := FlashProc(l, s, a).lamp;
    if f.count > 0 && (if f.delay >= 0xFFFF_FFFF - s.interval then 0 else f.delay + s.interval) >= f.period {
      TurnAims(l, s, a);
    } else {
      NoTurn(l, s, a);
    }
    StepKeepsAim(m, s);
    StepKeepsFlash(m, s);
    hide FlashProc, StepProc;
  }

  lemma StepKeepsFlash(l: Lamp, s: Setup)
    ensures var l' := StepProc(l, s).lamp;
            l'.flash == l.flash.(flashing := l'.flash.flashing) && (l'.flash.flashing ==> l.flash.flashing)
  {
    hide Levels;
  }

  lemma {:induction false} FlashRunAims(l: Lamp, s: Setup, steps: seq<Step>, pwms: Targets, n: nat)
    requires ValidSetup(s) && Answers(steps, pwms) && !l.flash.callback && l.flash.flashing && l.flash.count == n
    ensures var l' := Run(l, s, steps).lamp;
            && l'.flash.count <= n && (l'.flash.count < n ==> Aimed(l', pwms))
            && !l'.flash.callback && (!l'.flash.flashing ==> l'.flash.count == 0)
  {
    hide Tick, Aimed;
    if steps != [] {
      var before := steps[..|steps| - 1];
      FlashRunAims(l, s, before, pwms, n);
      FlashTickAims(Run(l, s, before).lamp, s, steps[|steps| - 1].answer, pwms, n);
    }
  }

  /**
   What a default flash shows when it is left alone: from its first half period on the lamp aims at
   dark while the switch is off and at the converted levels while it is on, and when the flash is
   over it has arrived there.
   */
  lemma FlashShows(l: Lamp, s: Setup, stepMs: nat, periodMs: nat, n: nat, arg: nat, steps: seq<Step>, pwms: Targets)
    requires ValidSetup(s) && !l.flash.flashing && n > 0 && Answers(steps, pwms)
    ensures var r := Run(FlashCtrl(l, stepMs, periodMs, n, false, arg), s, steps).lamp;
            r.flash.count < (n * 2) % 0x1_0000_0000 ==>
              && (r.param.switch == 0 ==> r.fade.dst == [0, 0, 0, 0])
              && (r.param.switch != 0 ==> forall c :: 0 <= c < 4 ==> r.fade.dst[c] == pwms[c] % 0x1_0000)
              && (!r.flash.flashing ==> r.fade.curr == r.fade.dst)
  {
    FlashCtrlStarts(l, stepMs, periodMs, n, arg);
    FlashRunAims(FlashCtrl(l, stepMs, periodMs, n, false, arg), s, steps, pwms, (n * 2) % 0x1_0000_0000);
    hide Run, FlashCtrl, Answers;
  }

  // ---------- a flash with a callback ----------

  /** A step that keeps a callback flash one, and does not ask for a count that wraps to 0. */
  predicate CallbackStep(step: Step) {
    step.StartFlash? ==> step.flashCnt == 0 || (step.callback && (step.flashCnt * 2) % 0x1_0000_0000 != 0)
  }

  ghost predicate CallbackSteps(steps: seq<Step>) {
    forall k :: 0 <= k < |steps| ==> CallbackStep(steps[k])
  }

  /** A callback flash over `p`: with nothing left to flash, `p` is shown again. */
  predicate Covers(l: Lamp, p: Param) {
    && l.flash.callback && l.flash.backup == p && (l.flash.count == 0 ==> l.param == p)
  }

  lemma RetriggerCount(n: nat, count: nat)
    requires (n * 2) % 0x1_0000_0000 != 0
    ensures (n * 2 + count % 2) % 0x1_0000_0000 != 0
  {
    if count % 2 == 0 {
      assert n * 2 + count % 2 == n * 2;
    } else {
      assert (n * 2 + 1) % 2 == 1;
      assert ((n * 2 + 1) % 0x1_0000_0000) % 2 == 1;
    }
  }

  lemma CoverKept(l: Lamp, s: Setup, step: Step, p: Param)
    requires ValidSetup(s) && l.flash.flashing && Covers(l, p) && CallbackStep(step)
    ensures var l' := Apply(l, s, step).lamp;
            Covers(l', p) && (!l'.flash.flashing ==> l'.flash.count == 0)
  {
    match step {
      case Due(a) =>
        var f := l.flash;
        if f.count > 0 && (if f.delay >= 0xFFFF_FFFF - s.interval then 0 else f.delay + s.interval) >= f.period {
          TurnAims(l, s, a);
        } else {
          NoTurn(l, s, a);
        }
        StepKeepsAim(FlashProc(l, s, a).lamp, s);
        StepKeepsFlash(FlashProc(l, s, a).lamp, s);
        hide FlashProc, StepProc;
      case StartFlash(stepMs, periodMs, n, callback, arg) =>
        if n > 0 { RetriggerCount(n, l.flash.count); }
      case Ctrl(c, periodMs, conversion) =>
        hide StatusCtrl;
      case SetPwms(periodMs, t) =>
        hide StartFade;
    }
  }

  lemma {:induction false} CoverThrough(l: Lamp, s: Setup, steps: seq<Step>, p: Param)
    requires ValidSetup(s) && Covers(l, p) && l.flash.flashing
    requires CallbackSteps(steps) && FlashesThrough(l, s, steps)
    ensures var r := Run(l, s, steps).lamp;
            Covers(r, p) && (!r.flash.flashing ==> r.flash.count == 0)
  {
    hide Covers, Apply;
    if steps != [] {
      var before := steps[..|steps| - 1];
      forall k | 0 <= k < |before|
        ensures Run(l, s, before[..k]).lamp.flash.flashing
      {
        assert before[..k] == steps[..k];
      }
      CoverThrough(l, s, before, p);
      CoverKept(Run(l, s, before).lamp, s, steps[|steps| - 1], p);
    }
  }

  /**
   A flash with a callback, whatever the callback does to the parameters: over every run it keeps
   the parameters from before the flash, and gives them back, all of them, with its last half
   period. Retriggers with a callback and blocked commands are among the steps.
   */
  lemma CallbackFlashRestores(l: Lamp, s: Setup, stepMs: nat, periodMs: nat, n: nat, arg: nat, steps: seq<Step>)
    requires ValidSetup(s) && !l.flash.flashing && (n * 2) % 0x1_0000_0000 != 0
    requires CallbackSteps(steps) && FlashesThrough(FlashCtrl(l, stepMs, periodMs, n, true, arg), s, steps)
    ensures var r := Run(FlashCtrl(l, stepMs, periodMs, n, true, arg), s, steps).lamp;
            && r.flash.backup == l.param
            && (r.flash.count == 0 ==> r.param == l.param)
            && (!r.flash.flashing ==> r.flash.count == 0 && r.param == l.param)
  {
    CoverThrough(FlashCtrl(l, stepMs, periodMs, n, true, arg), s, steps, l.param);
    hide FlashesThrough, CallbackSteps, Run;
  }

  // ---------- a flash started again ----------

  /**
   A default flash that is started again while it runs and then left alone: from then on the switch
   changes twice for each new flash, and once more if an odd number of changes was left, so that
   the flash ends with the parameters from before it.
   */
  lemma RetriggeredFlashEnds(l: Lamp, s: Setup, stepMs: nat, periodMs: nat, n: nat, arg: nat, steps: seq<Step>)
    requires ValidSetup(s) && Ready(l, s) && l.flash.flashing && n > 0 && Quiet(steps)
    ensures var start := FlashCtrl(l, stepMs, periodMs, n, false, arg);
            var o := Run(start, s, steps);
            && (o.lamp.flash.flashing <==> !(CanEnd(start, s) && |steps| >= Remaining(start, s)))
            && o.lamp.flash.backup == l.flash.backup
            && (!o.lamp.flash.flashing ==>
                  && Changes(start, s, steps) == (n * 2 + l.flash.count % 2) % 0x1_0000_0000
                  && Normal(o.lamp.param) == (if l.flash.count % 2 == 1 then Toggle(l.param) else Normal(l.param))
                  && FlashEnds(o.events, arg) == if s.flashEnd then 1 else 0)
  {
    hide Changes, FlashEnds, Waits, Run, TotalSteps, Rest, FirstWait, Quiet, Counted;
    var start := FlashCtrl(l, stepMs, periodMs, n, false, arg);
    OddCount(n, l.flash.count);
    BackupStays(start, s, steps);
    if CanEnd(start, s) {
      RunCounts(start, s, steps);
      FlashingRemains(start, s);
      FlashingRemains(Run(start, s, steps).lamp, s);
    } else {
      EndlessRun(start, s, steps);
    }
  }

  lemma OddCount(n: nat, count: nat)
    ensures ((n * 2 + count % 2) % WORD) % 2 == count % 2
  {}

  lemma {:induction false} BackupStays(l: Lamp, s: Setup, steps: seq<Step>)
    requires ValidSetup(s) && Quiet(steps)
    ensures Run(l, s, steps).lamp.flash.backup == l.flash.backup
  {
    hide FlashProc, StepProc;
    if steps != [] {
      var before, a := steps[..|steps| - 1], steps[|steps| - 1].answer;
      BackupStays(l, s, before);
      var l' := Run(l, s, before).lamp;
      FlashKeepsBackup(l', s, a);
      StepKeepsFlash(FlashProc(l', s, a).lamp, s);
    }
  }

  lemma FlashKeepsBackup(l: Lamp, s: Setup, a: Answer)
    requires ValidSetup(s)
    ensures FlashProc(l, s, a).lamp.flash.backup == l.flash.backup
  {
    hide StatusCtrl;
  }
}
