/** The flash overlay: it hides the lamp's parameters while it runs and gives them back. */
module LampFlash {
  import opened DimmingCurve
  import opened LampSpec
  import opened Words

  /** The parameters with the switch reduced to off or on. */
  function Normal(p: Param): Param {
    p.(switch := if p.switch != OFF then ON else OFF)
  }

  /** What a lamp with parameters `p` shows with `count` half periods still to come. */
  function Shown(p: Param, count: nat): Param {
    if count % 2 == 1 then Toggle(p) else Normal(p)
  }

  /** The lamp flashes over the parameters `p`, by the default flash. */
  predicate Overlay(l: Lamp, p: Param) {
    && !l.flash.callback && l.flash.backup == p
    && Normal(l.param) == Shown(p, l.flash.count)
    && (p.switch <= ON ==> l.param.switch <= ON)
  }

  predicate DefaultStep(step: Step) { step.StartFlash? ==> !step.callback }

  lemma ToggleShown(p: Param, q: Param, count: nat)
    requires count > 0 && Normal(q) == Shown(p, count)
    ensures Normal(Toggle(q)) == Shown(p, count - 1)
  {}

  lemma StepProcOverlay(l: Lamp, s: Setup, p: Param)
    requires Overlay(l, p)
    ensures var l' := StepProc(l, s).lamp;
            && Overlay(l', p) && l'.flash.count == l.flash.count
            && (l.flash.flashing && !l'.flash.flashing ==> l'.flash.count == 0)
  {
    hide Levels, Shown;
  }

  lemma FlashProcOverlay(l: Lamp, s: Setup, a: Answer, p: Param)
    requires ValidSetup(s) && Overlay(l, p)
    ensures var l' := FlashProc(l, s, a).lamp;
            Overlay(l', p) && l'.flash.flashing == l.flash.flashing
  {
    hide Shown, StartFade;
    if l.flash.count > 0 {
      ToggleShown(p, l.param, l.flash.count);
    }
  }

  lemma FlashCtrlOverlay(l: Lamp, stepMs: nat, periodMs: nat, n: nat, arg: nat, p: Param)
    requires l.flash.flashing && Overlay(l, p)
    ensures var l' := FlashCtrl(l, stepMs, periodMs, n, false, arg);
            Overlay(l', p) && l'.flash.flashing && l'.flash.count % 2 == l.flash.count % 2
  {
    assert ((n * 2 + l.flash.count % 2) % WORD) % 2 == l.flash.count % 2;
  }

  /** Whatever happens to a flashing lamp, also retriggers and commands, the overlay stays. */
  lemma OverlayKept(l: Lamp, s: Setup, step: Step, p: Param)
    requires ValidSetup(s) && l.flash.flashing && Overlay(l, p) && DefaultStep(step)
    ensures var l' := Apply(l, s, step).lamp;
            Overlay(l', p) && (!l'.flash.flashing ==> l'.flash.count == 0)
  {
    match step {
      case Due(a) =>
        FlashProcOverlay(l, s, a, p);
        StepProcOverlay(FlashProc(l, s, a).lamp, s, p);
        hide *;
      case StartFlash(stepMs, periodMs, n, callback, arg) =>
        FlashCtrlOverlay(l, stepMs, periodMs, n, arg, p);
        hide FlashCtrl, Overlay;
      case Ctrl(c, periodMs, conversion) =>
        hide StatusCtrl;
      case SetPwms(periodMs, t) =>
        hide StartFade;
    }
  }

  /** The lamp flashes before every step of the run. */
  ghost predicate FlashesThrough(l: Lamp, s: Setup, steps: seq<Step>)
    requires ValidSetup(s)
  {
    forall k :: 0 <= k < |steps| ==> Run(l, s, steps[..k]).lamp.flash.flashing
  }

  ghost predicate DefaultSteps(steps: seq<Step>) {
    forall k :: 0 <= k < |steps| ==> DefaultStep(steps[k])
  }

  lemma {:induction false} OverlayThrough(l: Lamp, s: Setup, steps: seq<Step>, p: Param)
    requires ValidSetup(s) && Overlay(l, p) && l.flash.flashing
    requires DefaultSteps(steps) && FlashesThrough(l, s, steps)
    ensures var r := Run(l, s, steps).lamp;
            Overlay(r, p) && (!r.flash.flashing ==> r.flash.count == 0)
  {
    hide Overlay, Apply;
    if steps != [] {
      var before := steps[..|steps| - 1];
      forall k | 0 <= k < |before|
        ensures Run(l, s, before[..k]).lamp.flash.flashing
      {
        assert before[..k] == steps[..k];
      }
      OverlayThrough(l, s, before, p);
      OverlayKept(Run(l, s, before).lamp, s, steps[|steps| - 1], p);
    }
  }

  lemma FlashCtrlStarts(l: Lamp, stepMs: nat, periodMs: nat, n: nat, arg: nat)
    requires !l.flash.flashing && n > 0
    ensures var l' := FlashCtrl(l, stepMs, periodMs, n, false, arg);
            && Overlay(l', l.param) && l'.flash.flashing && l'.flash.count == (n * 2) % WORD
            && l'.param == l.param && l'.fade == l.fade && l'.flash.delay == l.flash.delay
  {
    assert ((n * 2) % WORD) % 2 == 0;
  }

  /**
   The default flash over every run: while the lamp flashes, and when it has just stopped, it
   shows the parameters it had when the flash began, with the switch flipped exactly when an
   odd number of half periods is left. Retriggers and blocked commands are among the steps.
   A switch value other than off and on is not restored: it comes back as on.
   */
  lemma FlashRestores(l: Lamp, s: Setup, stepMs: nat, periodMs: nat, n: nat, arg: nat, steps: seq<Step>)
    requires ValidSetup(s) && !l.flash.flashing && n > 0
    requires DefaultSteps(steps) && FlashesThrough(FlashCtrl(l, stepMs, periodMs, n, false, arg), s, steps)
    ensures var r := Run(FlashCtrl(l, stepMs, periodMs, n, false, arg), s, steps).lamp;
            && r.flash.backup == l.param
            && Normal(r.param) == Shown(l.param, r.flash.count)
            && (l.param.switch <= ON ==> r.param == if r.flash.count % 2 == 1 then Toggle(l.param) else l.param)
            && (!r.flash.flashing ==> r.flash.count == 0)
  {
    hide FlashesThrough, DefaultSteps, Run, FlashCtrl;
    FlashCtrlStarts(l, stepMs, periodMs, n, arg);
    OverlayThrough(FlashCtrl(l, stepMs, periodMs, n, false, arg), s, steps, l.param);
  }
}
