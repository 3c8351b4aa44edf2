/**
 The fade engine with its flash overlay of dimmingMain.c, for the one lamp of
 `MY_LIB_LAMP_MAX_NUM`, as step functions on values.
 */
module LampSpec {
  import opened DimmingCurve
  import opened Words

  const MAX: nat := 0xFFFF_FFFF
  const OFF: nat := 0
  const ON: nat := 1
  const CCT_MIN: nat := 2
  const CCT_MAX: nat := 65000
  const BRI_MAX: nat := 65535

  /** Four 16-bit PWM levels, and four 32-bit target levels as a caller passes them. */
  type Pwms = p: seq<nat> | |p| == 4 && forall c :: 0 <= c < 4 ==> p[c] < LEVELS witness [0, 0, 0, 0]
  type Targets = p: seq<nat> | |p| == 4 witness [0, 0, 0, 0]

  const DARK: Pwms := [0, 0, 0, 0]

  datatype Hue = Hue(h0: nat, h1: nat, h2: nat)

  datatype Param = Param(switch: nat, scene: nat, bri: nat, rgb: bool, hue: Hue, cct: nat, minPwm: nat, maxPwm: nat, self: nat)

  datatype Fade = Fade(last: Pwms, curr: Pwms, src: Pwms, dst: Pwms, curStep: nat, total: nat, adjusting: bool)

  /** `callback`: whether the flash has a callback of its own. `delay` is the static counter. */
  datatype Flash = Flash(flashing: bool, count: nat, stepMs: nat, period: nat, callback: bool, arg: nat, backup: Param, delay: nat)

  datatype Lamp = Lamp(param: Param, fade: Fade, flash: Flash)

  /** The step interval (at least 1) and the registered hooks. */
  datatype Setup = Setup(interval: nat, statusHook: bool, dimmingEnd: bool, flashEnd: bool)

  datatype Event =
    | Output(pwms: Pwms)
    | StatusHook(param: Param)
    | DimmingEnd
    | FlashEnd(arg: nat)
    | FlashCallback(isFirst: bool, count: nat)

  /** What the user's colour conversion answers. */
  datatype Conversion = Converted(pwms: Targets) | Failed

  /** What the user's functions answer on one tick: a flash callback may edit parameters and step time. */
  datatype Answer = Answer(conversion: Conversion, edited: Param, stepMs: nat)

  datatype Outcome = Outcome(lamp: Lamp, events: seq<Event>)

  predicate ValidSetup(s: Setup) { 1 <= s.interval < WORD }

  function Low16(t: Targets): Pwms {
    seq(4, c requires 0 <= c < 4 => t[c] % LEVELS)
  }

  function TotalSteps(interval: nat, periodMs: nat): nat
    requires 1 <= interval
  {
    (periodMs / interval + 1) % WORD
  }

  /** `myLampPwmsCtrl`. */
  function StartFade(f: Fade, interval: nat, periodMs: nat, t: Targets): Fade
    requires 1 <= interval
  {
    Fade(f.curr, f.curr, f.curr, Low16(t), 0, TotalSteps(interval, periodMs), true)
  }

  function Hooked(registered: bool, e: Event): seq<Event> {
    if registered then [e] else []
  }

  /** `lampDevStatusCtrl`. */
  function StatusCtrl(l: Lamp, s: Setup, periodMs: nat, conversion: Conversion): Outcome
    requires ValidSetup(s)
  {
    var events := Hooked(s.statusHook, StatusHook(l.param));
    if l.param.switch == OFF then
      Outcome(l.(fade := StartFade(l.fade, s.interval, periodMs, DARK)), events)
    else if conversion.Converted? then
      Outcome(l.(fade := StartFade(l.fade, s.interval, periodMs, conversion.pwms)), events)
    else
      Outcome(l, events)
  }

  /** One channel at step `cur` of an unfinished fade. */
  function Channel(src: nat, dst: nat, cur: nat, total: nat): nat
    requires 0 < total
  {
    if src != dst then Linear(src, dst, cur, total) % LEVELS else dst % LEVELS
  }

  /** All channels at step `cur`. */
  function Levels(f: Fade, cur: nat): Pwms
    requires 0 < f.total
  {
    seq(4, c requires 0 <= c < 4 => Channel(f.src[c], f.dst[c], cur, f.total))
  }

  /** The last step of a fade. */
  function EndOfFade(l: Lamp, s: Setup): Outcome {
    var f, flash := l.fade, l.flash;
    var ends := flash.count == 0 && flash.flashing;
    Outcome(l.(fade := f.(curr := f.dst, src := f.dst, adjusting := false), flash := flash.(flashing := flash.flashing && !ends)),
            [Output(f.dst)] + Hooked(s.dimmingEnd && !flash.flashing, DimmingEnd) + Hooked(ends && s.flashEnd, FlashEnd(flash.arg)))
  }

  /** `lampStepProc`. */
  function StepProc(l: Lamp, s: Setup): Outcome {
    var f := l.fade.(curStep := (l.fade.curStep + 1) % WORD);
    if !l.fade.adjusting then
      Outcome(l, [])
    else if f.curStep < f.total then
      Outcome(l.(fade := f.(curr := Levels(f, f.curStep))), [Output(Levels(f, f.curStep))])
    else
      EndOfFade(l.(fade := f), s)
  }

  function Toggle(p: Param): Param {
    p.(switch := if p.switch != OFF then OFF else ON)
  }

  /** The flash callback edits the parameters, or else the switch changes; the delay starts over. */
  function Edited(l: Lamp, a: Answer): Lamp {
    var f := l.flash.(delay := 0);
    if !f.callback then Lamp(Toggle(l.param), l.fade, f)
    else Lamp(if f.count == 1 then f.backup else a.edited, l.fade, f.(stepMs := a.stepMs))
  }

  /** The period has passed: change the parameters, apply them, count down. */
  function FlashTurn(l: Lamp, s: Setup, isFirst: bool, a: Answer): Outcome
    requires ValidSetup(s) && l.flash.count > 0
  {
    var e := Edited(l, a);
    var o := StatusCtrl(e, s, e.flash.stepMs, a.conversion);
    Outcome(o.lamp.(flash := e.flash.(count := l.flash.count - 1)),
            Hooked(l.flash.callback, FlashCallback(isFirst, l.flash.count)) + o.events)
  }

  /** `lampFlashProc`. */
  function FlashProc(l: Lamp, s: Setup, a: Answer): Outcome
    requires ValidSetup(s)
  {
    var isFirst := l.flash.delay >= MAX - s.interval;
    var d := if isFirst then 0 else l.flash.delay + s.interval;
    if l.flash.count == 0 then Outcome(l.(flash := l.flash.(delay := MAX)), [])
    else if d < l.flash.period then Outcome(l.(flash := l.flash.(delay := d)), [])
    else FlashTurn(l.(flash := l.flash.(delay := d)), s, isFirst, a)
  }

  /** A due pass of `myLampLoop`. */
  function Tick(l: Lamp, s: Setup, a: Answer): Outcome
    requires ValidSetup(s)
  {
    var o := FlashProc(l, s, a);
    var o' := StepProc(o.lamp, s);
    Outcome(o'.lamp, o.events + o'.events)
  }

  const ZERO_PARAM: Param := Param(0, 0, 0, true, Hue(0, 0, 0), 0, 0, 0, 0)

  /** A lamp as it is created, before its parameters are applied. */
  function NewLamp(p: Param, delay: nat): Lamp {
    Lamp(p, Fade(DARK, DARK, DARK, DARK, 0, 0, false), Flash(false, 0, 0, 0, false, 0, ZERO_PARAM, delay))
  }

  /** The caller's ways to act on the lamp. */
  datatype Command =
    | Scene(param: Param)
    | Switch(status: nat)
    | Bri(bri: nat)
    | Cct(cct: nat, bri: nat)
    | Color(hue: Hue, bri: nat)

  /** The parameters that a command asks for, if the source accepts it. */
  predicate Accepted(p: Param, c: Command) {
    match c
    case Scene(_) => true
    case Switch(status) => status <= ON
    case _ => p.switch != OFF
  }

  /** A second clamp that starts again from the argument makes the lower limit of the CCT ineffective. */
  function Commanded(p: Param, c: Command): Param {
    match c
    case Scene(param) => param
    case Switch(status) => p.(switch := status)
    case Bri(bri) => p.(bri := if bri >= BRI_MAX then BRI_MAX else bri)
    case Cct(cct, bri) => p.(rgb := false, cct := if cct > CCT_MAX then CCT_MAX else cct, bri := bri)
    case Color(hue, bri) => p.(rgb := true, hue := hue, bri := bri)
  }

  /** The stored CCT meets both limits exactly if the argument meets the lower one. */
  lemma CctLimits(p: Param, cct: nat, bri: nat)
    ensures CCT_MIN <= Commanded(p, Cct(cct, bri)).cct <= CCT_MAX <==> CCT_MIN <= cct
  {}

  /** The five control commands: a flashing lamp ignores them. */
  function Control(l: Lamp, s: Setup, c: Command, periodMs: nat, conversion: Conversion): Outcome
    requires ValidSetup(s)
  {
    if !Accepted(l.param, c) || l.flash.flashing then Outcome(l, [])
    else StatusCtrl(l.(param := Commanded(l.param, c)), s, periodMs, conversion)
  }

  /** `myLampFlashCtrl`, with 32-bit arithmetic. */
  function FlashCtrl(l: Lamp, stepMs: nat, periodMs: nat, flashCnt: nat, callback: bool, arg: nat): Lamp {
    if flashCnt == 0 then l
    else
      var f := l.flash;
      var count := if f.flashing then (flashCnt * 2 + f.count % 2) % WORD else (flashCnt * 2) % WORD;
      var backup := if f.flashing then f.backup else l.param;
      l.(flash := Flash(true, count, stepMs, periodMs, callback, arg, backup, f.delay))
  }

  /** One thing that happens to the lamp. */
  datatype Step =
    | Due(answer: Answer)
    | Ctrl(command: Command, periodMs: nat, conversion: Conversion)
    | SetPwms(periodMs: nat, target: Targets)
    | StartFlash(stepMs: nat, periodMs: nat, flashCnt: nat, callback: bool, arg: nat)

  function Apply(l: Lamp, s: Setup, step: Step): Outcome
    requires ValidSetup(s)
  {
    match step
    case Due(a) => Tick(l, s, a)
    case Ctrl(c, periodMs, conversion) => Control(l, s, c, periodMs, conversion)
    case SetPwms(periodMs, t) => Outcome(l.(fade := StartFade(l.fade, s.interval, periodMs, t)), [])
    case StartFlash(stepMs, periodMs, n, callback, arg) => Outcome(FlashCtrl(l, stepMs, periodMs, n, callback, arg), [])
  }

  /** A run of steps, oldest first. */
  function Run(l: Lamp, s: Setup, steps: seq<Step>): Outcome
    requires ValidSetup(s)
  {
    if steps == [] then Outcome(l, [])
    else
      var o := Run(l, s, steps[..|steps| - 1]);
      var o' := Apply(o.lamp, s, steps[|steps| - 1]);
      Outcome(o'.lamp, o.events + o'.events)
  }
}
