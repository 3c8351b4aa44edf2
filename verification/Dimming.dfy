/** The lamp object of dimmingMain.c, updated in place, against the step functions of `LampSpec`. */
module Dimming {
  import opened DimmingCurve
  import opened LampSpec
  import opened LampLevels
  import opened LampTiming
  import opened Words

  /** The parameters of a lamp created without any. */
  const DEFAULT_PARAM: Param := Param(ON, 0, BRI_MAX, true, Hue(0, 0, 0), 3000, 0, 0, 0)

  const BRI_MIN: nat := 0

  /** A 16-bit buffer of four channels. */
  ghost predicate IsPwms(a: array<nat>)
    reads a
  {
    a.Length == 4 && forall c :: 0 <= c < 4 ==> a[c] < LEVELS
  }

  /** The four assignments that copy the channels of one buffer to another. */
  method CopyChannels(from: array<nat>, to: array<nat>)
    requires IsPwms(from) && to.Length == 4 && from != to
    modifies to
    ensures IsPwms(to) && to[..] == from[..]
  {
    to[0] := from[0];
    to[1] := from[1];
    to[2] := from[2];
    to[3] := from[3];
  }

  /** The four assignments that truncate the target levels to 16 bits. */
  method SetChannels(target: Targets, to: array<nat>)
    requires to.Length == 4
    modifies to
    ensures IsPwms(to) && to[..] == Low16(target)
  {
    to[0] := target[0] % LEVELS;
    to[1] := target[1] % LEVELS;
    to[2] := target[2] % LEVELS;
    to[3] := target[3] % LEVELS;
  }

  /** A trace with more events at its end. */
  function Log(trace: seq<Event>, events: seq<Event>): seq<Event> { trace + events }

  lemma LogLog(trace: seq<Event>, a: seq<Event>, b: seq<Event>)
    ensures Log(Log(trace, a), b) == Log(trace, a + b)
  {}

  lemma LogNone(trace: seq<Event>)
    ensures Log(trace, []) == trace
  {}

  lemma RunAdvances(l: Lamp, s: Setup, steps: seq<Step>, step: Step)
    requires ValidSetup(s)
    ensures var o := Run(l, s, steps);
            var o' := Apply(o.lamp, s, step);
            Run(l, s, steps + [step]) == Outcome(o'.lamp, o.events + o'.events)
  {
    hide Apply;
    assert (steps + [step])[..|steps|] == steps;
  }

  lemma NoSteps(l: Lamp, s: Setup)
    requires ValidSetup(s)
    ensures Run(l, s, []) == Outcome(l, [])
  {}

  lemma FlashCtrlKeeps(l: Lamp, stepMs: nat, periodMs: nat, cnt: nat, callback: bool, arg: nat)
    ensures var l' := FlashCtrl(l, stepMs, periodMs, cnt, callback, arg);
            l'.param == l.param && l'.fade == l.fade
  {}

  lemma StatusCtrlKeeps(l: Lamp, s: Setup, periodMs: nat, conversion: Conversion)
    requires ValidSetup(s)
    ensures var l' := StatusCtrl(l, s, periodMs, conversion).lamp;
            l'.param == l.param && l'.flash == l.flash
  {}

  class LampLib {
    var stepInterval: nat
    var lampNum: nat
    var valid: bool
    var param: Param
    const lastPwms: array<nat>
    const currPwms: array<nat>
    const srcPwms: array<nat>
    const dstPwms: array<nat>
    var curStep: nat
    var totalSteps: nat
    var adjusting: bool
    var flashing: bool
    var flashCount: nat
    var flashStepMs: nat
    var flashPeriod: nat
    var flashCallback: bool
    var flashArg: nat
    var backupParam: Param
    var statusHook: bool
    var dimmingEnd: bool
    var flashEnd: bool
    /** The static variables of `lampFlashProc` and `myLampLoop`. */
    var delay: nat
    var lTick: nat
    /** The outputs and callbacks so far. */
    ghost var trace: seq<Event>
    /** The lamp and the trace when it was created, and all that has happened to it since. */
    ghost var first: Lamp
    ghost var base: seq<Event>
    ghost var steps: seq<Step>

    ghost predicate Valid()
      reads this, lastPwms, currPwms, srcPwms, dstPwms
    {
      && IsPwms(lastPwms) && IsPwms(currPwms) && IsPwms(srcPwms) && IsPwms(dstPwms)
      && lastPwms != currPwms && lastPwms != srcPwms && lastPwms != dstPwms
      && currPwms != srcPwms && currPwms != dstPwms && srcPwms != dstPwms
      && 1 <= stepInterval < WORD && lampNum == if valid then 1 else 0
    }

    ghost function FadeValue(): Fade
      reads this, lastPwms, currPwms, srcPwms, dstPwms
      requires Valid()
    {
      Fade(lastPwms[..], currPwms[..], srcPwms[..], dstPwms[..], curStep, totalSteps, adjusting)
    }

    ghost function FlashValue(): Flash
      reads this
    {
      Flash(flashing, flashCount, flashStepMs, flashPeriod, flashCallback, flashArg, backupParam, delay)
    }

    ghost function Value(): Lamp
      reads this, lastPwms, currPwms, srcPwms, dstPwms
      requires Valid()
    {
      Lamp(param, FadeValue(), FlashValue())
    }

    ghost function Hooks(): Setup
      reads this
    {
      Setup(stepInterval, statusHook, dimmingEnd, flashEnd)
    }

    /** The lamp and its callbacks are those of the run of all steps since it was created. */
    ghost predicate OnRun()
      reads this, lastPwms, currPwms, srcPwms, dstPwms
      requires Valid()
    {
      && Counted(delay, stepInterval)
      && (valid ==>
            var o := Run(first, Hooks(), steps);
            Value() == o.lamp && trace == Log(base, o.events) && Ready(o.lamp, Hooks()))
    }

    /** The run of a new lamp has no steps yet. */
    ghost method Begin()
      requires Valid() && Ready(Value(), Hooks()) && Counted(delay, stepInterval)
      modifies this`first, this`base, this`steps
      ensures OnRun() && steps == [] && first == Value()
    {
      hide Run, Ready, Counted, Log;
      first, base, steps := Value(), trace, [];
      LogNone(trace);
      NoSteps(first, Hooks());
    }

    /** Takes `step` into the run before it is carried out. */
    ghost method Announce(step: Step)
      requires Valid() && OnRun()
      modifies this`steps
      ensures steps == if valid then old(steps) + [step] else old(steps)
      ensures valid ==>
                var o, r := Apply(Value(), Hooks(), step), Run(first, Hooks(), steps);
                && r.lamp == o.lamp && Log(base, r.events) == Log(trace, o.events)
                && Ready(o.lamp, Hooks()) && Counted(o.lamp.flash.delay, stepInterval)
    {
      hide Apply, Log, Counted, Steady;
      if valid {
        var l, s := Value(), Hooks();
        RunAdvances(first, s, steps, step);
        LogLog(base, Run(first, s, steps).events, Apply(l, s, step).events);
        ApplyReady(l, s, step);
        steps := steps + [step];
        assert Hooks() == s;
      }
    }

    /** The outcome of a step on the old lamp is the new lamp and the new callbacks. */
    twostate predicate Became(o: Outcome)
      reads this, lastPwms, currPwms, srcPwms, dstPwms
      requires Valid()
    {
      Value() == o.lamp && trace == Log(old(trace), o.events) && Hooks() == old(Hooks()) && valid == old(valid)
    }

    /** `myLampInit` at start-up: no lamp yet. */
    constructor (interval: nat)
      requires interval < WORD
      ensures Valid() && !valid && lTick == 0 && trace == []
      ensures Hooks() == Setup(if interval < 1 then 1 else interval, false, false, false)
      ensures Value() == NewLamp(ZERO_PARAM, 0) && OnRun()
    {
      stepInterval := if interval < 1 then 1 else interval;
      lampNum, valid, param := 0, false, ZERO_PARAM;
      lastPwms := new nat[4](_ => 0);
      currPwms := new nat[4](_ => 0);
      srcPwms := new nat[4](_ => 0);
      dstPwms := new nat[4](_ => 0);
      curStep, totalSteps, adjusting := 0, 0, false;
      flashing, flashCount, flashStepMs, flashPeriod := false, 0, 0, 0;
      flashCallback, flashArg, backupParam := false, 0, ZERO_PARAM;
      statusHook, dimmingEnd, flashEnd, delay, lTick := false, false, false, 0, 0;
      trace, base, steps, first := [], [], [], NewLamp(ZERO_PARAM, 0);
      new;
      DelayStarts(stepInterval);
      assert lastPwms[..] == DARK && currPwms[..] == DARK && srcPwms[..] == DARK && dstPwms[..] == DARK;
    }

    /** `myLampPwmsCtrl`. */
    method PwmsCtrl(periodMs: nat, target: Targets) returns (res: int)
      requires Valid()
      modifies this`curStep, this`totalSteps, this`adjusting, lastPwms, currPwms, srcPwms, dstPwms
      ensures Valid() && res == if valid then 0 else -1
      ensures Value() == if valid then old(Value()).(fade := StartFade(old(FadeValue()), stepInterval, periodMs, target)) else old(Value())
    {
      if !valid {
        return -1;
      }
      CopyChannels(currPwms, lastPwms);
      SetChannels(target, dstPwms);
      CopyChannels(currPwms, srcPwms);
      curStep := 0;
      totalSteps := (periodMs / stepInterval + 1) % WORD;
      adjusting := true;
      return 0;
    }

    /** `myLampPwmsCtrl` as the user calls it, at any time: not even a flash blocks it. */
    method SetLevels(periodMs: nat, target: Targets) returns (res: int)
      requires Valid() && OnRun()
      modifies this`steps, this`curStep, this`totalSteps, this`adjusting, lastPwms, currPwms, srcPwms, dstPwms
      ensures Valid() && res == if valid then 0 else -1
      ensures OnRun() && steps == if valid then old(steps) + [SetPwms(periodMs, target)] else old(steps)
    {
      hide Run, Ready, Counted, Log, StartFade;
      LogNone(trace);
      Announce(SetPwms(periodMs, target));
      res := PwmsCtrl(periodMs, target);
    }

    /** `lampDevStatusCtrl`; `conversion` is what the user's colour conversion answers. */
    method DevStatusCtrl(periodMs: nat, conversion: Conversion)
      requires Valid() && valid
      modifies this`curStep, this`totalSteps, this`adjusting, this`trace, lastPwms, currPwms, srcPwms, dstPwms
      ensures Valid() && Became(StatusCtrl(old(Value()), old(Hooks()), periodMs, conversion))
    {
      hide StartFade;
      if statusHook {
        trace := Log(trace, [StatusHook(param)]);
      }
      var pwm: Targets := [0, 0, 0, 0];
      if param.switch != OFF {
        if conversion.Failed? {
          return;
        }
        pwm := conversion.pwms;
      }
      var _ := PwmsCtrl(periodMs, pwm);
    }

    /** The loop over the channels of an unfinished fade `f`. */
    method NextLevels(ghost f: Fade)
      requires Valid() && 0 < totalSteps
      requires f.src == srcPwms[..] && f.dst == dstPwms[..] && f.total == totalSteps
      modifies currPwms
      ensures Valid() && currPwms[..] == Levels(f, curStep)
    {
      hide Linear;
      for i := 0 to 4
        invariant forall c :: 0 <= c < i ==> currPwms[c] == Channel(f.src[c], f.dst[c], curStep, totalSteps)
        invariant IsPwms(currPwms)
        modifies currPwms
      {
        var src, dst := srcPwms[i], dstPwms[i];
        currPwms[i] := if src != dst then Linear(src, dst, curStep, totalSteps) % LEVELS else dst;
      }
    }

    /** The last step of a fade puts every channel on its target and stops. */
    method LastLevels()
      requires Valid()
      modifies this`adjusting, this`trace, currPwms, srcPwms
      ensures Valid() && FadeValue() == old(FadeValue()).(curr := old(dstPwms[..]), src := old(dstPwms[..]), adjusting := false)
      ensures trace == Log(old(trace), [Output(old(dstPwms[..]))])
    {
      for i := 0 to 4
        invariant Valid()
        invariant forall c :: 0 <= c < i ==> currPwms[c] == dstPwms[c] && srcPwms[c] == dstPwms[c]
        modifies currPwms, srcPwms
      {
        currPwms[i] := dstPwms[i];
        srcPwms[i] := dstPwms[i];
      }
      assert currPwms[..] == dstPwms[..] && srcPwms[..] == dstPwms[..];
      trace := Log(trace, [Output(dstPwms[..])]);
      adjusting := false;
    }

    /** The two hooks at the end of a fade. */
    method ReportEnd()
      modifies this`flashing, this`trace
      ensures var ends := flashCount == 0 && old(flashing);
              && flashing == (old(flashing) && !ends)
              && trace == Log(Log(old(trace), Hooked(dimmingEnd && !old(flashing), DimmingEnd)), Hooked(ends && flashEnd, FlashEnd(flashArg)))
    {
      if dimmingEnd && !flashing {
        trace := Log(trace, [DimmingEnd]);
      }
      if flashCount == 0 && flashing {
        flashing := false;
        if flashEnd {
          trace := Log(trace, [FlashEnd(flashArg)]);
        }
      }
    }

    /** The last step of a fade. */
    method EndFade()
      requires Valid()
      modifies this`adjusting, this`flashing, this`trace, currPwms, srcPwms
      ensures Valid() && Became(EndOfFade(old(Value()), old(Hooks())))
    {
      hide Hooked, Log;
      ghost var l, s := Value(), Hooks();
      LastLevels();
      ReportEnd();
      ghost var out, a := [Output(l.fade.dst)], Hooked(s.dimmingEnd && !l.flash.flashing, DimmingEnd);
      LogLog(old(trace), out, a);
      LogLog(old(trace), out + a, Hooked(l.flash.count == 0 && l.flash.flashing && s.flashEnd, FlashEnd(l.flash.arg)));
    }

    /** `lampStepProc` with the linear curve. */
    method StepFade()
      requires Valid()
      modifies this`curStep, this`adjusting, this`flashing, this`trace, currPwms, srcPwms
      ensures Valid() && Became(StepProc(old(Value()), old(Hooks())))
    {
      hide Levels, EndOfFade;
      if !adjusting {
        return;
      }
      curStep := (curStep + 1) % WORD;
      if curStep < totalSteps {
        NextLevels(FadeValue());
        trace := Log(trace, [Output(currPwms[..])]);
      } else {
        EndFade();
      }
    }

    /** The flash callback, or else the change of the switch. */
    method EditParam(isFirst: bool, a: Answer)
      requires Valid() && flashCount > 0
      modifies this`param, this`flashStepMs, this`delay, this`trace
      ensures Valid() && Value() == Edited(old(Value()), a)
      ensures trace == Log(old(trace), Hooked(flashCallback, FlashCallback(isFirst, flashCount)))
    {
      delay := 0;
      if flashCallback {
        trace := Log(trace, [FlashCallback(isFirst, flashCount)]);
        param := a.edited;
        flashStepMs := a.stepMs;
        if flashCount == 1 {
          param := backupParam;
        }
      } else {
        param := param.(switch := if param.switch != OFF then 0 else 1);
      }
    }

    /** The part of `lampFlashProc` in which the flash period has passed. */
    method FlashTurnStep(isFirst: bool, a: Answer)
      requires Valid() && valid && flashCount > 0
      modifies this`param, this`curStep, this`totalSteps, this`adjusting, this`flashCount, this`flashStepMs, this`delay, this`trace,
               lastPwms, currPwms, srcPwms, dstPwms
      ensures Valid() && Became(FlashTurn(old(Value()), old(Hooks()), isFirst, a))
    {
      hide StatusCtrl, Hooked, Log, Edited;
      ghost var l, s := Value(), Hooks();
      EditParam(isFirst, a);
      DevStatusCtrl(flashStepMs, a.conversion);
      ghost var e := Edited(l, a);
      ghost var o := StatusCtrl(e, s, e.flash.stepMs, a.conversion);
      StatusCtrlKeeps(e, s, e.flash.stepMs, a.conversion);
      LogLog(old(trace), Hooked(l.flash.callback, FlashCallback(isFirst, l.flash.count)), o.events);
      flashCount := flashCount - 1;
    }

    /** `lampFlashProc`; `a` is what the user's functions answer if they are called. */
    method FlashStep(a: Answer)
      requires Valid() && valid
      modifies this`param, this`curStep, this`totalSteps, this`adjusting, this`flashCount, this`flashStepMs, this`delay, this`trace,
               lastPwms, currPwms, srcPwms, dstPwms
      ensures Valid() && Became(FlashProc(old(Value()), old(Hooks()), a))
    {
      hide FlashTurn;
      if flashCount == 0 {
        delay := MAX;
        return;
      }
      var isFirst := false;
      if delay < MAX - stepInterval {
        delay := delay + stepInterval;
      } else {
        isFirst := true;
        delay := 0;
      }
      if delay >= flashPeriod {
        FlashTurnStep(isFirst, a);
      }
    }

    /** `myLampCreateLamp`. Without parameters the lamp is white and on; an output function is mandatory. */
    method CreateLamp(given: bool, p: Param, hasOutput: bool, hasDimmingEnd: bool, hasFlashEnd: bool, conversion: Conversion) returns (res: int)
      requires Valid() && OnRun()
      modifies this, lastPwms, currPwms, srcPwms, dstPwms
      ensures Valid() && res == if old(valid) then -1 else if !hasOutput then -2 else 0
      ensures res != 0 ==> Became(Outcome(old(Value()), []))
      ensures res == 0 ==>
                && valid && Hooks() == Setup(old(stepInterval), false, hasDimmingEnd, hasFlashEnd)
                && var o := StatusCtrl(NewLamp(if given then p else DEFAULT_PARAM, old(delay)), Hooks(), 1, conversion);
                   Value() == o.lamp && trace == Log(old(trace), o.events)
      ensures res == 0 ==>
                && param == (if given then p else Param(1, 0, 65535, true, Hue(0, 0, 0), 3000, 0, 0, 0)) && currPwms[..] == [0, 0, 0, 0]
                && (param.switch == 0 ==> dstPwms[..] == [0, 0, 0, 0])
                && (param.switch != 0 && conversion.Converted? ==>
                      forall c :: 0 <= c < 4 ==> dstPwms[c] == conversion.pwms[c] % 0x1_0000)
      ensures lTick == old(lTick)
      ensures OnRun() && (res == 0 ==> steps == [] && first == Value()) && (res != 0 ==> steps == old(steps))
    {
      hide StatusCtrl, Run, Ready, Counted, Log;
      if lampNum >= 1 {
        LogNone(trace);
        return -1;
      }
      if !hasOutput {
        LogNone(trace);
        return -2;
      }
      FillLamp(given, p, hasDimmingEnd, hasFlashEnd);
      DevStatusCtrl(1, conversion);
      CreatedReady(if given then p else DEFAULT_PARAM, old(delay), Hooks(), conversion);
      CreatedAims(if given then p else DEFAULT_PARAM, old(delay), Hooks(), conversion);
      Begin();
      return 0;
    }

    /** The `memset` of a new lamp and the fields set from the arguments. The static counter stays. */
    method FillLamp(given: bool, p: Param, hasDimmingEnd: bool, hasFlashEnd: bool)
      requires Valid() && !valid
      modifies this, lastPwms, currPwms, srcPwms, dstPwms
      ensures Valid() && valid && Hooks() == Setup(old(stepInterval), false, hasDimmingEnd, hasFlashEnd)
      ensures Value() == NewLamp(if given then p else DEFAULT_PARAM, old(delay))
      ensures trace == old(trace) && lTick == old(lTick)
    {
      hide IsPwms;
      ClearChannels();
      ghost var dark := FadeValue();
      ClearControl();
      RegisterLamp(if given then p else DEFAULT_PARAM, hasDimmingEnd, hasFlashEnd);
      assert FadeValue() == dark.(curStep := 0, total := 0, adjusting := false);
    }

    method ClearChannels()
      requires Valid()
      modifies lastPwms, currPwms, srcPwms, dstPwms
      ensures Valid() && lastPwms[..] == DARK && currPwms[..] == DARK && srcPwms[..] == DARK && dstPwms[..] == DARK
    {
      for i := 0 to 4
        invariant Valid()
        invariant forall c :: 0 <= c < i ==> lastPwms[c] == 0 && currPwms[c] == 0 && srcPwms[c] == 0 && dstPwms[c] == 0
        modifies lastPwms, currPwms, srcPwms, dstPwms
      {
        lastPwms[i] := 0;
        currPwms[i] := 0;
        srcPwms[i] := 0;
        dstPwms[i] := 0;
      }
    }

    method ClearControl()
      modifies this`curStep, this`totalSteps, this`adjusting, this`flashing, this`flashCount, this`flashStepMs, this`flashPeriod,
               this`flashCallback, this`flashArg, this`backupParam
      ensures curStep == 0 && totalSteps == 0 && !adjusting
      ensures FlashValue() == Flash(false, 0, 0, 0, false, 0, ZERO_PARAM, delay)
    {
      curStep, totalSteps, adjusting := 0, 0, false;
      flashing, flashCount, flashStepMs, flashPeriod, flashCallback, flashArg, backupParam := false, 0, 0, 0, false, 0, ZERO_PARAM;
    }

    method RegisterLamp(p: Param, hasDimmingEnd: bool, hasFlashEnd: bool)
      requires lampNum == 0
      modifies this`valid, this`param, this`dimmingEnd, this`statusHook, this`flashEnd, this`lampNum
      ensures valid && lampNum == 1 && param == p && Hooks() == Setup(stepInterval, false, hasDimmingEnd, hasFlashEnd)
    {
      valid := true;
      param := p;
      dimmingEnd := hasDimmingEnd;
      statusHook := false;
      flashEnd := hasFlashEnd;
      lampNum := lampNum + 1;
    }

    /** `myLampDeleteLamp`. */
    method DeleteLamp() returns (res: int)
      requires Valid() && OnRun()
      modifies this`valid, this`lampNum
      ensures Valid() && OnRun() && !valid && res == if old(valid) then 0 else -1
    {
      hide Run, Counted, Ready;
      if !valid {
        return -1;
      }
      valid := false;
      lampNum := lampNum - 1;
      return 0;
    }

    /** What a control command with argument `c` does to the lamp. */
    twostate predicate Obeyed(c: Command, periodMs: nat, conversion: Conversion)
      reads this, lastPwms, currPwms, srcPwms, dstPwms
      requires old(Valid()) && Valid()
    {
      Became(if old(valid) then Control(old(Value()), old(Hooks()), c, periodMs, conversion) else Outcome(old(Value()), []))
    }

    /** `myLampCallSceneCtrl`. */
    method CallSceneCtrl(periodMs: nat, scene: Param, conversion: Conversion) returns (res: int)
      requires Valid() && OnRun()
      modifies this`steps, this`param, this`curStep, this`totalSteps, this`adjusting, this`trace, lastPwms, currPwms, srcPwms, dstPwms
      ensures Valid() && Obeyed(Scene(scene), periodMs, conversion)
      ensures OnRun() && steps == if valid then old(steps) + [Ctrl(Scene(scene), periodMs, conversion)] else old(steps)
      ensures res == if valid then 0 else -1
    {
      hide StatusCtrl, Run, Ready, Counted, Log;
      LogNone(trace);
      Announce(Ctrl(Scene(scene), periodMs, conversion));
      if !valid {
        return -1;
      }
      if !flashing {
        param := scene;
        DevStatusCtrl(periodMs, conversion);
      }
      return 0;
    }

    /** `myLampSwitchCtrl`. */
    method SwitchCtrl(periodMs: nat, status: nat, conversion: Conversion) returns (res: int)
      requires Valid() && OnRun()
      modifies this`steps, this`param, this`curStep, this`totalSteps, this`adjusting, this`trace, lastPwms, currPwms, srcPwms, dstPwms
      ensures Valid() && Obeyed(Switch(status), periodMs, conversion)
      ensures OnRun() && steps == if valid then old(steps) + [Ctrl(Switch(status), periodMs, conversion)] else old(steps)
      ensures res == if valid && status <= ON then 0 else -1
    {
      hide StatusCtrl, Run, Ready, Counted, Log;
      LogNone(trace);
      Announce(Ctrl(Switch(status), periodMs, conversion));
      if !valid || status > ON {
        return -1;
      }
      if !flashing {
        param := param.(switch := status);
        DevStatusCtrl(periodMs, conversion);
      }
      return 0;
    }

    /** `myLampBriCtrl`. */
    method BriCtrl(periodMs: nat, bri: nat, conversion: Conversion) returns (res: int)
      requires Valid() && OnRun()
      modifies this`steps, this`param, this`curStep, this`totalSteps, this`adjusting, this`trace, lastPwms, currPwms, srcPwms, dstPwms
      ensures Valid() && Obeyed(Bri(bri), periodMs, conversion)
      ensures OnRun() && steps == if valid then old(steps) + [Ctrl(Bri(bri), periodMs, conversion)] else old(steps)
      ensures res == if valid && old(param.switch) != OFF then 0 else -1
    {
      hide StatusCtrl, Run, Ready, Counted, Log;
      LogNone(trace);
      Announce(Ctrl(Bri(bri), periodMs, conversion));
      if !valid || param.switch == OFF {
        return -1;
      }
      if !flashing {
        param := param.(bri := if bri <= BRI_MIN then BRI_MIN else bri);
        param := param.(bri := if bri >= BRI_MAX then BRI_MAX else bri);
        DevStatusCtrl(periodMs, conversion);
      }
      return 0;
    }

    /** `myLampCCTCtrl`. */
    method CctCtrl(periodMs: nat, cct: nat, bri: nat, conversion: Conversion) returns (res: int)
      requires Valid() && OnRun()
      modifies this`steps, this`param, this`curStep, this`totalSteps, this`adjusting, this`trace, lastPwms, currPwms, srcPwms, dstPwms
      ensures Valid() && Obeyed(Cct(cct, bri), periodMs, conversion)
      ensures OnRun() && steps == if valid then old(steps) + [Ctrl(Cct(cct, bri), periodMs, conversion)] else old(steps)
      ensures res == if valid && old(param.switch) != OFF then 0 else -1
    {
      hide StatusCtrl, Run, Ready, Counted, Log;
      LogNone(trace);
      Announce(Ctrl(Cct(cct, bri), periodMs, conversion));
      if !valid || param.switch == OFF {
        return -1;
      }
      if !flashing {
        param := param.(rgb := false);
        param := param.(cct := if cct < CCT_MIN then CCT_MIN else cct);
        param := param.(cct := if cct > CCT_MAX then CCT_MAX else cct);
        param := param.(bri := bri);
        DevStatusCtrl(periodMs, conversion);
      }
      return 0;
    }

    /** `myLampColorCtrl`. */
    method ColorCtrl(periodMs: nat, hue: Hue, bri: nat, conversion: Conversion) returns (res: int)
      requires Valid() && OnRun()
      modifies this`steps, this`param, this`curStep, this`totalSteps, this`adjusting, this`trace, lastPwms, currPwms, srcPwms, dstPwms
      ensures Valid() && Obeyed(Color(hue, bri), periodMs, conversion)
      ensures OnRun() && steps == if valid then old(steps) + [Ctrl(Color(hue, bri), periodMs, conversion)] else old(steps)
      ensures res == if valid && old(param.switch) != OFF then 0 else -1
    {
      hide StatusCtrl, Run, Ready, Counted, Log;
      LogNone(trace);
      Announce(Ctrl(Color(hue, bri), periodMs, conversion));
      if !valid || param.switch == OFF {
        return -1;
      }
      if !flashing {
        param := param.(rgb := true, hue := hue, bri := bri);
        DevStatusCtrl(periodMs, conversion);
      }
      return 0;
    }

    /** `myLampFlashCtrl`. */
    method StartFlashing(stepMs: nat, periodMs: nat, cnt: nat, callback: bool, arg: nat) returns (res: int)
      requires Valid() && OnRun()
      modifies this`steps, this`flashCount, this`backupParam, this`flashStepMs, this`flashPeriod, this`flashing, this`flashCallback, this`flashArg
      ensures Valid() && res == if valid then 0 else -1
      ensures Value() == if valid then FlashCtrl(old(Value()), stepMs, periodMs, cnt, callback, arg) else old(Value())
      ensures OnRun() && steps == if valid then old(steps) + [StartFlash(stepMs, periodMs, cnt, callback, arg)] else old(steps)
    {
      hide Run, Ready, Counted, Log, FlashCtrl;
      if !valid {
        return -1;
      }
      LogNone(trace);
      Announce(StartFlash(stepMs, periodMs, cnt, callback, arg));
      UpdateFlash(stepMs, periodMs, cnt, callback, arg);
      return 0;
    }

    /** The effect of `myLampFlashCtrl` on the lamp. */
    method UpdateFlash(stepMs: nat, periodMs: nat, cnt: nat, callback: bool, arg: nat)
      requires Valid()
      modifies this`flashCount, this`backupParam, this`flashStepMs, this`flashPeriod, this`flashing, this`flashCallback, this`flashArg
      ensures Valid() && Value() == FlashCtrl(old(Value()), stepMs, periodMs, cnt, callback, arg)
    {
      hide FlashCtrl, IsPwms;
      ghost var l := Value();
      SetFlash(stepMs, periodMs, cnt, callback, arg, l);
      assert FadeValue() == l.fade;
      FlashCtrlKeeps(l, stepMs, periodMs, cnt, callback, arg);
    }

    /** The assignments of `myLampFlashCtrl`. */
    method SetFlash(stepMs: nat, periodMs: nat, cnt: nat, callback: bool, arg: nat, ghost l: Lamp)
      requires l.param == param && l.flash == FlashValue()
      modifies this`flashCount, this`backupParam, this`flashStepMs, this`flashPeriod, this`flashing, this`flashCallback, this`flashArg
      ensures FlashValue() == FlashCtrl(l, stepMs, periodMs, cnt, callback, arg).flash
    {
      if cnt > 0 {
        if flashing {
          flashCount := (cnt * 2 + flashCount % 2) % WORD;
        } else {
          flashCount := (cnt * 2) % WORD;
          backupParam := param;
        }
        flashStepMs := stepMs;
        flashPeriod := periodMs;
        flashing := true;
        flashCallback := callback;
        flashArg := arg;
      }
    }

    /** `myLampLoop`; the clock, if there is one, is read twice. */
    method Loop(hasClock: bool, now: nat, again: nat, a: Answer) returns (due: bool)
      requires Valid() && OnRun() && now < WORD && again < WORD
      modifies this, lastPwms, currPwms, srcPwms, dstPwms
      ensures Valid() && (due <==> !hasClock || (now - old(lTick)) % WORD >= stepInterval)
      ensures OnRun() && steps == if due && valid then old(steps) + [Due(a)] else old(steps)
      ensures lTick == if due && hasClock then again else old(lTick)
      ensures Became(if due && valid then Tick(old(Value()), old(Hooks()), a) else Outcome(old(Value()), []))
    {
      hide Tick, Log, Run, Ready, Counted;
      LogNone(trace);
      due := true;
      if hasClock {
        due := (now - lTick) % WORD >= stepInterval;
        if due {
          lTick := again;
        }
      }
      if due && valid {
        Announce(Due(a));
        DuePass(a);
      }
    }

    /** The flash step and the fade step of a due pass. */
    method DuePass(a: Answer)
      requires Valid() && valid
      modifies this`param, this`curStep, this`totalSteps, this`adjusting, this`flashing, this`flashCount, this`flashStepMs, this`delay, this`trace,
               lastPwms, currPwms, srcPwms, dstPwms
      ensures Valid() && Became(Tick(old(Value()), old(Hooks()), a))
    {
      hide FlashProc, StepProc, Log;
      ghost var l, s := Value(), Hooks();
      FlashStep(a);
      ghost var o := FlashProc(l, s, a);
      StepFade();
      LogLog(old(trace), o.events, StepProc(o.lamp, s).events);
    }
  }
}
