/**
 What repeated clicks of the same keys report. The passes and the reported events are written
 out here, so that the results do not depend on how the machine counts.
 */
module KeyClicks {
  import opened Words
  import opened KeyEvents
  import Debounce
  import Keyboard

  /** All passes from the state `c` on, oldest first. */
  function RunFrom(c: Ctrl, p: Param, cb: Callbacks, inputs: seq<Input>): Outcome {
    if inputs == [] then Outcome(c, [])
    else
      var o := RunFrom(c, p, cb, inputs[..|inputs| - 1]);
      var o' := Pass(o.ctrl, p, cb, inputs[|inputs| - 1]);
      Outcome(o'.ctrl, o.events + o'.events)
  }

  lemma {:induction false} RunFromAppend(c: Ctrl, p: Param, cb: Callbacks, a: seq<Input>, b: seq<Input>)
    ensures var o := RunFrom(c, p, cb, a);
            var o' := RunFrom(o.ctrl, p, cb, b);
            RunFrom(c, p, cb, a + b) == Outcome(o'.ctrl, o.events + o'.events)
    decreases |b|
  {
    hide Pass;
    if b == [] {
      assert a + b == a;
    } else {
      assert (a + b)[..|a + b| - 1] == a + b[..|b| - 1];
      RunFromAppend(c, p, cb, a, b[..|b| - 1]);
    }
  }

  lemma {:induction false} RunIsRunFrom(p: Param, cb: Callbacks, before: seq<Input>, inputs: seq<Input>)
    ensures var o := Run(p, cb, before);
            var o' := RunFrom(o.ctrl, p, cb, inputs);
            Run(p, cb, before + inputs) == Outcome(o'.ctrl, o.events + o'.events)
    decreases |inputs|
  {
    hide Pass;
    if inputs == [] {
      assert before + inputs == before;
    } else {
      assert (before + inputs)[..|before + inputs| - 1] == before + inputs[..|inputs| - 1];
      RunIsRunFrom(p, cb, before, inputs[..|inputs| - 1]);
    }
  }

  lemma RunFromOne(c: Ctrl, p: Param, cb: Callbacks, input: Input)
    ensures RunFrom(c, p, cb, [input]) == Pass(c, p, cb, input)
  {
    assert [input][..0] == [];
  }

  // ---------- clicks ----------

  /**
   One click: the pass that first sees the keys, passes that still see them, the pass that sees
   them gone, the pass after it, which the machine does not look at, and passes without keys.
   All but `skipped` are the intervals of these passes.
   */
  datatype Click = Click(press: nat, holds: seq<nat>, release: nat, skipped: Input, gaps: seq<nat>)

  function Total(ts: seq<nat>): nat {
    if ts == [] then 0 else Total(ts[..|ts| - 1]) + ts[|ts| - 1]
  }

  function Seen(v: Mask, ts: seq<nat>): seq<Input> {
    seq(|ts|, i requires 0 <= i < |ts| => Input(ts[i], v))
  }

  function ClickInputs(v: Mask, k: Click): seq<Input> {
    [Input(k.press, v)] + Seen(v, k.holds) + [Input(k.release, NONE)] + [k.skipped] + Seen(NONE, k.gaps)
  }

  /** The passes of some clicks of `v`. */
  function ClicksInputs(v: Mask, clicks: seq<Click>): seq<Input> {
    if clicks == [] then []
    else ClicksInputs(v, clicks[..|clicks| - 1]) + ClickInputs(v, clicks[|clicks| - 1])
  }

  function Length(k: Click): nat {
    Total(k.holds) + k.release + k.skipped.interval + Total(k.gaps)
  }

  /** The time from the first press to the end of the last click. */
  function Elapsed(clicks: seq<Click>): nat {
    if clicks == [] then 0
    else if |clicks| == 1 then Length(clicks[0])
    else Elapsed(clicks[..|clicks| - 1]) + clicks[|clicks| - 1].press + Length(clicks[|clicks| - 1])
  }

  /** No click is held for longer than the keep time. */
  ghost predicate Short(clicks: seq<Click>, p: Param) {
    forall i :: 0 <= i < |clicks| ==> Total(clicks[i].holds) <= p.longKeepTime
  }

  /** What `n` clicks of `v` report: the k-th press with count k, and its release if k is at least 2. */
  function ClickEvents(v: Mask, n: nat, cb: Callbacks): seq<Event> {
    if n == 0 then []
    else
      ClickEvents(v, n - 1, cb)
      + (if cb.shortPress then [ShortPress(v, n % 0x1_0000_0000)] else [])
      + (if cb.shortRelease && n % 0x1_0000_0000 > 1 then [ShortRelease(v, n % 0x1_0000_0000)] else [])
  }

  /** Between clicks: after `n` clicks of `v` within the window, `time` after the first press. */
  predicate Between(c: Ctrl, v: Mask, n: nat, time: nat) {
    && c.phase == Idle
    && (if n == 0 then c.doubleValue == NONE
        else c.doubleValue == v && c.pressCnt == n % 0x1_0000_0000 && c.doubleDelay == time)
  }

  lemma HoldPass(c: Ctrl, p: Param, cb: Callbacks, v: Mask, t: nat)
    requires FitsWords(p) && v != NONE && c.phase == ShortPressed && c.value == c.doubleValue == v
    requires c.keepTime + t <= p.longKeepTime && c.doubleDelay + t < p.doubleInterval
    ensures Pass(c, p, cb, Input(t, v)) == Outcome(c.(keepTime := c.keepTime + t, doubleDelay := c.doubleDelay + t), [])
  {
    hide PressNum;
  }

  lemma {:induction false} HoldPasses(c: Ctrl, p: Param, cb: Callbacks, v: Mask, ts: seq<nat>)
    requires FitsWords(p) && v != NONE && c.phase == ShortPressed && c.value == c.doubleValue == v
    requires c.keepTime + Total(ts) <= p.longKeepTime && c.doubleDelay + Total(ts) < p.doubleInterval
    ensures RunFrom(c, p, cb, Seen(v, ts)) == Outcome(c.(keepTime := c.keepTime + Total(ts), doubleDelay := c.doubleDelay + Total(ts)), [])
    decreases |ts|
  {
    hide Pass;
    if ts != [] {
      var n := |ts| - 1;
      HoldPasses(c, p, cb, v, ts[..n]);
      assert Seen(v, ts)[..n] == Seen(v, ts[..n]);
      HoldPass(RunFrom(c, p, cb, Seen(v, ts[..n])).ctrl, p, cb, v, ts[n]);
    }
  }

  lemma {:induction false} IdlePasses(c: Ctrl, p: Param, cb: Callbacks, ts: seq<nat>)
    requires FitsWords(p) && c.phase == Idle && c.doubleValue != NONE && c.doubleDelay + Total(ts) < p.doubleInterval
    ensures RunFrom(c, p, cb, Seen(NONE, ts)) == Outcome(c.(doubleDelay := c.doubleDelay + Total(ts)), [])
    decreases |ts|
  {
    hide PressNum;
    if ts != [] {
      var n := |ts| - 1;
      IdlePasses(c, p, cb, ts[..n]);
      assert Seen(NONE, ts)[..n] == Seen(NONE, ts[..n]);
    }
  }

  /** The pass that first sees the keys of the n-th click. */
  lemma PressPass(c: Ctrl, p: Param, cb: Callbacks, v: Mask, n: nat, time: nat, t: nat)
    requires FitsWords(p) && v != NONE && n > 0 && Between(c, v, n - 1, time)
    requires n > 1 ==> time + t < p.doubleInterval
    ensures var o := Pass(c, p, cb, Input(t, v));
            && o.events == (if cb.shortPress then [ShortPress(v, n % 0x1_0000_0000)] else [])
            && o.ctrl.phase == ShortPressed && o.ctrl.value == o.ctrl.doubleValue == v && o.ctrl.keepTime == 0
            && o.ctrl.pressCnt == n % 0x1_0000_0000 && o.ctrl.doubleDelay == if n == 1 then 0 else time + t
  {
    hide PressNum;
  }

  /** The pass that sees them gone. */
  lemma ReleasePass(c: Ctrl, p: Param, cb: Callbacks, v: Mask, t: nat)
    requires FitsWords(p) && v != NONE && c.phase == ShortPressed && c.value == c.doubleValue == v
    requires c.doubleDelay + t < p.doubleInterval
    ensures Pass(c, p, cb, Input(t, NONE)) ==
            Outcome(c.(value := NONE, phase := ShortReleased, keepTime := 0, doubleDelay := c.doubleDelay + t),
                    if cb.shortRelease && c.pressCnt > 1 then [ShortRelease(v, c.pressCnt)] else [])
  {
    hide PressNum;
  }

  /** The pass after a release does nothing, whatever it sees. */
  lemma SkippedPass(c: Ctrl, p: Param, cb: Callbacks, skipped: Input)
    requires FitsWords(p) && (c.phase == ShortReleased || c.phase == LongReleased) && c.doubleValue != NONE
    requires c.doubleDelay + skipped.interval < p.doubleInterval
    ensures Pass(c, p, cb, skipped) == Outcome(c.(phase := Idle, doubleDelay := c.doubleDelay + skipped.interval), [])
  {
    hide PressNum;
  }

  /** The n-th click within the window. */
  lemma OneClick(c: Ctrl, p: Param, cb: Callbacks, v: Mask, n: nat, time: nat, k: Click)
    requires FitsWords(p) && v != NONE && n > 0 && Between(c, v, n - 1, time) && Total(k.holds) <= p.longKeepTime
    requires (if n == 1 then 0 else time + k.press) + Length(k) < p.doubleInterval
    ensures var o := RunFrom(c, p, cb, ClickInputs(v, k));
            && Between(o.ctrl, v, n, (if n == 1 then 0 else time + k.press) + Length(k))
            && o.events == (if cb.shortPress then [ShortPress(v, n % 0x1_0000_0000)] else [])
                           + (if cb.shortRelease && n % 0x1_0000_0000 > 1 then [ShortRelease(v, n % 0x1_0000_0000)] else [])
  {
    hide Pass, RunFrom, Total;
    PressPass(c, p, cb, v, n, time, k.press);
    var a := Pass(c, p, cb, Input(k.press, v));
    HoldPasses(a.ctrl, p, cb, v, k.holds);
    var b := RunFrom(a.ctrl, p, cb, Seen(v, k.holds));
    ReleasePass(b.ctrl, p, cb, v, k.release);
    var d := Pass(b.ctrl, p, cb, Input(k.release, NONE));
    SkippedPass(d.ctrl, p, cb, k.skipped);
    var e := Pass(d.ctrl, p, cb, k.skipped);
    IdlePasses(e.ctrl, p, cb, k.gaps);
    RunFromOne(c, p, cb, Input(k.press, v));
    RunFromOne(b.ctrl, p, cb, Input(k.release, NONE));
    RunFromOne(d.ctrl, p, cb, k.skipped);
    var i1 := [Input(k.press, v)] + Seen(v, k.holds);
    var i2 := i1 + [Input(k.release, NONE)];
    RunFromAppend(c, p, cb, [Input(k.press, v)], Seen(v, k.holds));
    RunFromAppend(c, p, cb, i1, [Input(k.release, NONE)]);
    RunFromAppend(c, p, cb, i2, [k.skipped]);
    RunFromAppend(c, p, cb, i2 + [k.skipped], Seen(NONE, k.gaps));
  }

  lemma {:induction false} ClicksFrom(c: Ctrl, p: Param, cb: Callbacks, v: Mask, clicks: seq<Click>)
    requires FitsWords(p) && v != NONE && c.phase == Idle && c.doubleValue == NONE
    requires Short(clicks, p) && (clicks != [] ==> Elapsed(clicks) < p.doubleInterval)
    ensures var o := RunFrom(c, p, cb, ClicksInputs(v, clicks));
            Between(o.ctrl, v, |clicks|, Elapsed(clicks)) && o.events == ClickEvents(v, |clicks|, cb)
    decreases |clicks|
  {
    hide ClickInputs, Length, Pass;
    if clicks != [] {
      var n := |clicks| - 1;
      ClicksFrom(c, p, cb, v, clicks[..n]);
      hide RunFrom, Between;
      RunFromAppend(c, p, cb, ClicksInputs(v, clicks[..n]), ClickInputs(v, clicks[n]));
      var o := RunFrom(c, p, cb, ClicksInputs(v, clicks[..n]));
      OneClick(o.ctrl, p, cb, v, n + 1, Elapsed(clicks[..n]), clicks[n]);
      assert ClickEvents(v, n + 1, cb) == o.events + RunFrom(o.ctrl, p, cb, ClickInputs(v, clicks[n])).events;
    }
  }

  /**
   In every run, when the window is closed and nothing is pressed, n clicks of `v` that end within
   the window are reported as the short presses 1 to n of `v`, each release from the second on
   with the count of its press, and nothing else; counts are 32-bit words.
   */
  lemma ClicksReported(p: Param, cb: Callbacks, before: seq<Input>, v: Mask, clicks: seq<Click>)
    requires FitsWords(p) && v != NONE && Run(p, cb, before).ctrl.phase == Idle && Run(p, cb, before).ctrl.doubleValue == NONE
    requires Short(clicks, p) && (clicks != [] ==> Elapsed(clicks) < p.doubleInterval)
    ensures Run(p, cb, before + ClicksInputs(v, clicks)).events == Run(p, cb, before).events + ClickEvents(v, |clicks|, cb)
  {
    hide Run, RunFrom;
    ClicksFrom(Run(p, cb, before).ctrl, p, cb, v, clicks);
    RunIsRunFrom(p, cb, before, ClicksInputs(v, clicks));
  }

  /** The first pass at which the window has closed. */
  lemma WindowPass(c: Ctrl, p: Param, cb: Callbacks, v: Mask, n: nat, time: nat, t: nat)
    requires FitsWords(p) && v != NONE && n > 0 && Between(c, v, n, time) && (time + t) % 0x1_0000_0000 >= p.doubleInterval
    ensures var o := Pass(c, p, cb, Input(t, NONE));
            && o.events == (if n % 0x1_0000_0000 == 1 && cb.shortRelease then [ShortRelease(v, 1)] else [])
            && o.ctrl.phase == Idle && o.ctrl.doubleValue == NONE
  {
    hide PressNum;
  }

  /**
   When the window closes after n clicks, a single click is reported as the release it was, and
   more clicks as nothing more; the next click counts from 1 again.
   */
  lemma WindowCloses(p: Param, cb: Callbacks, before: seq<Input>, v: Mask, clicks: seq<Click>, t: nat)
    requires FitsWords(p) && v != NONE && Run(p, cb, before).ctrl.phase == Idle && Run(p, cb, before).ctrl.doubleValue == NONE
    requires clicks != [] && Short(clicks, p) && Elapsed(clicks) < p.doubleInterval
    requires (Elapsed(clicks) + t) % 0x1_0000_0000 >= p.doubleInterval
    ensures var o := Run(p, cb, before + ClicksInputs(v, clicks) + [Input(t, NONE)]);
            && o.events == Run(p, cb, before).events + ClickEvents(v, |clicks|, cb)
                           + (if |clicks| % 0x1_0000_0000 == 1 && cb.shortRelease then [ShortRelease(v, 1)] else [])
            && o.ctrl.phase == Idle && o.ctrl.doubleValue == NONE
  {
    hide Run, RunFrom, Pass;
    ClicksFrom(Run(p, cb, before).ctrl, p, cb, v, clicks);
    RunIsRunFrom(p, cb, before, ClicksInputs(v, clicks));
    RunOneMore(p, cb, before + ClicksInputs(v, clicks), Input(t, NONE));
    WindowPass(Run(p, cb, before + ClicksInputs(v, clicks)).ctrl, p, cb, v, |clicks|, Elapsed(clicks), t);
  }

  // ---------- a slow click ----------

  /** A single click whose window may close while the keys are held, after holding for `time`. */
  predicate SlowlyHeld(c: Ctrl, p: Param, v: Mask, time: nat, passed: bool) {
    && c.phase == ShortPressed && c.value == v && c.pressCnt == 1 && c.keepTime == time
    && (if passed && time >= p.doubleInterval then c.doubleValue == NONE else c.doubleValue == v && c.doubleDelay == time)
  }

  lemma SlowPass(c: Ctrl, p: Param, cb: Callbacks, v: Mask, time: nat, passed: bool, t: nat)
    requires FitsWords(p) && v != NONE && SlowlyHeld(c, p, v, time, passed) && time + t <= p.longKeepTime && (time > 0 ==> passed)
    ensures var o := Pass(c, p, cb, Input(t, v)); o.events == [] && SlowlyHeld(o.ctrl, p, v, time + t, true)
  {
    hide PressNum;
  }

  lemma {:induction false} SlowHold(c: Ctrl, p: Param, cb: Callbacks, v: Mask, ts: seq<nat>)
    requires FitsWords(p) && v != NONE && SlowlyHeld(c, p, v, 0, false) && Total(ts) <= p.longKeepTime
    ensures var o := RunFrom(c, p, cb, Seen(v, ts)); o.events == [] && SlowlyHeld(o.ctrl, p, v, Total(ts), ts != [])
    decreases |ts|
  {
    hide Pass, SlowlyHeld;
    if ts != [] {
      var n := |ts| - 1;
      SlowHold(c, p, cb, v, ts[..n]);
      assert Seen(v, ts)[..n] == Seen(v, ts[..n]);
      SlowPass(RunFrom(c, p, cb, Seen(v, ts[..n])).ctrl, p, cb, v, Total(ts[..n]), n > 0, ts[n]);
    }
  }

  lemma SlowRelease(c: Ctrl, p: Param, cb: Callbacks, v: Mask, time: nat, passed: bool, t: nat)
    requires FitsWords(p) && v != NONE && SlowlyHeld(c, p, v, time, passed)
    requires (passed && time >= p.doubleInterval) || (time + t) % 0x1_0000_0000 >= p.doubleInterval
    ensures var o := Pass(c, p, cb, Input(t, NONE));
            && o.events == (if cb.shortRelease then [ShortRelease(v, 1)] else [])
            && o.ctrl.phase == ShortReleased && o.ctrl.doubleValue == NONE
  {
    hide PressNum;
  }

  lemma SlowPress(c: Ctrl, p: Param, cb: Callbacks, v: Mask, t: nat)
    requires v != NONE && c.phase == Idle && c.doubleValue == NONE
    ensures var o := Pass(c, p, cb, Input(t, v));
            o.events == (if cb.shortPress then [ShortPress(v, 1)] else []) && SlowlyHeld(o.ctrl, p, v, 0, false)
  {}

  /**
   In every run, when the window is closed and nothing is pressed, a click that is not held for a
   long press but released only when the window has closed is one short press and, with the pass
   that sees the release, one short release, both with count 1.
   */
  lemma SlowClickReported(p: Param, cb: Callbacks, before: seq<Input>, v: Mask, press: nat, holds: seq<nat>, release: nat)
    requires FitsWords(p) && v != NONE && Run(p, cb, before).ctrl.phase == Idle && Run(p, cb, before).ctrl.doubleValue == NONE
    requires Total(holds) <= p.longKeepTime
    requires (holds != [] && Total(holds) >= p.doubleInterval) || (Total(holds) + release) % 0x1_0000_0000 >= p.doubleInterval
    ensures var o := Run(p, cb, before + [Input(press, v)] + Seen(v, holds) + [Input(release, NONE)]);
            && o.events == Run(p, cb, before).events
                           + (if cb.shortPress then [ShortPress(v, 1)] else []) + (if cb.shortRelease then [ShortRelease(v, 1)] else [])
            && o.ctrl.phase == ShortReleased && o.ctrl.doubleValue == NONE
  {
    hide Pass, Run, RunFrom, SlowlyHeld, Total, Seen;
    SlowPress(Run(p, cb, before).ctrl, p, cb, v, press);
    RunOneMore(p, cb, before, Input(press, v));
    var pressed := before + [Input(press, v)];
    SlowHold(Run(p, cb, pressed).ctrl, p, cb, v, holds);
    RunIsRunFrom(p, cb, pressed, Seen(v, holds));
    var held := pressed + Seen(v, holds);
    SlowRelease(Run(p, cb, held).ctrl, p, cb, v, Total(holds), holds != [], release);
    RunOneMore(p, cb, held, Input(release, NONE));
    assert Run(p, cb, pressed).events + [] == Run(p, cb, pressed).events;
  }

  // ---------- the mask of the pressed keys ----------

  lemma AndOr(a: bv32, b: bv32, v: bv32)
    ensures Keyboard.And(a | b, v) == Keyboard.And(a, v) | Keyboard.And(b, v)
    ensures a | 0 == a && 0 | a == a && Keyboard.And(a, a) == a && Keyboard.And(0, a) == 0 && Keyboard.And(a, 0) == 0
  {}

  lemma OddHasNoOther(v: bv32)
    requires BitCount(Keyboard.Half(v)) == 0
    ensures Keyboard.Half(v) == 0
  {
    if Keyboard.Half(v) != 0 {
      Keyboard.ClearLowestCounts(Keyboard.Half(v));
    }
  }

  lemma PartsOfZero()
    ensures Keyboard.Half(0) == 0 && Keyboard.LowBit(0) == 0 && BitCount(0) == 0
  {}

  lemma LowBitOfAnd(a: bv32, b: bv32)
    ensures Keyboard.LowBit(Keyboard.And(a, b)) == if Keyboard.LowBit(a) == 1 && Keyboard.LowBit(b) == 1 then 1 else 0
    ensures Keyboard.LowBit(a) <= 1
  {}

  /** Different single bits have nothing in common. */
  lemma {:induction false} SingleBits(v: bv32, w: bv32)
    requires BitCount(v) == 1 && BitCount(w) == 1 && v != w
    ensures Keyboard.And(v, w) == 0
    decreases v
  {
    hide *;
    PartsOfZero();
    Keyboard.BitCountUnfold(v);
    Keyboard.BitCountUnfold(w);
    HalfAnd(v, w);
    LowBitOfAnd(v, w);
    LowBitOfAnd(w, v);
    Keyboard.HalfParts(v);
    AndOr(Keyboard.Half(w), 0, 0);
    AndOr(Keyboard.Half(v), 0, 0);
    if Keyboard.LowBit(v) == 1 { OddHasNoOther(v); }
    if Keyboard.LowBit(w) == 1 { OddHasNoOther(w); }
    if Keyboard.Half(v) == Keyboard.Half(w) {
      if Keyboard.LowBit(v) == Keyboard.LowBit(w) { PartsDetermine(v, w); }
    } else if Keyboard.LowBit(v) == 0 && Keyboard.LowBit(w) == 0 {
      SingleBits(Keyboard.Half(v), Keyboard.Half(w));
    }
    PartsOfNothing(Keyboard.And(v, w));
  }

  lemma PartsOfNothing(a: bv32)
    ensures Keyboard.Half(a) == 0 && Keyboard.LowBit(a) == 0 ==> a == 0
  {}

  /** Whether a bit stays the same when a key without it joins the mask. */
  lemma JoinMisses(rest: bv32, value: bv32, v: bv32)
    requires Keyboard.And(value, v) == 0
    ensures Keyboard.And(rest | value, v) == Keyboard.And(rest, v)
  {
    AndOr(rest, value, v);
    AndOr(Keyboard.And(rest, v), 0, 0);
    hide Keyboard.And;
  }

  lemma JoinHits(rest: bv32, v: bv32)
    requires Keyboard.And(rest, v) == 0
    ensures Keyboard.And(rest | v, v) == v
  {
    AndOr(rest, v, v);
    AndOr(v, 0, 0);
    hide Keyboard.And;
  }

  lemma {:induction false} MaskMisses(keys: seq<Debounce.Key>, v: bv32)
    requires forall j :: 0 <= j < |keys| ==> Keyboard.And(keys[j].value, v) == 0
    ensures Keyboard.And(Keyboard.PressedMask(keys), v) == 0
    decreases |keys|
  {
    hide Keyboard.And, Keyboard.PressedMask;
    if keys == [] {
      Keyboard.EmptyMask();
      AndOr(v, 0, v);
    } else {
      var n := |keys| - 1;
      MaskMisses(keys[..n], v);
      Keyboard.MaskStep(keys);
      JoinMisses(Keyboard.PressedMask(keys[..n]), keys[n].value, v);
    }
  }

  /** The mask of the pressed keys has the bit of a registered key exactly if its accepted status is pressed. */
  lemma {:induction false} MaskTells(keys: seq<Debounce.Key>, i: nat)
    requires Keyboard.DistinctKeys(keys) && i < |keys|
    ensures Keyboard.And(Keyboard.PressedMask(keys), keys[i].value) == if keys[i].status != 0 then keys[i].value else 0
    decreases |keys|
  {
    hide Keyboard.And, Keyboard.PressedMask, BitCount;
    var n, v := |keys| - 1, keys[i].value;
    Keyboard.MaskStep(keys);
    if i == n {
      forall j | 0 <= j < n
        ensures Keyboard.And(keys[j].value, v) == 0
      {
        SingleBits(keys[j].value, v);
      }
      MaskMisses(keys[..n], v);
      JoinHits(Keyboard.PressedMask(keys[..n]), v);
    } else {
      SingleBits(keys[n].value, v);
      MaskTells(keys[..n], i);
      JoinMisses(Keyboard.PressedMask(keys[..n]), keys[n].value, v);
    }
  }

  // ---------- more keys, fewer keys ----------

  lemma HalfAnd(a: bv32, b: bv32)
    ensures Keyboard.Half(Keyboard.And(a, b)) == Keyboard.And(Keyboard.Half(a), Keyboard.Half(b))
  {}

  lemma LowBitAnd(a: bv32, b: bv32)
    ensures Keyboard.LowBit(Keyboard.And(a, b)) <= Keyboard.LowBit(b) <= 1
  {}

  lemma PartsDetermine(a: bv32, b: bv32)
    requires Keyboard.Half(a) == Keyboard.Half(b) && Keyboard.LowBit(a) == Keyboard.LowBit(b)
    ensures a == b
  {}

  lemma AndZero(a: bv32)
    ensures Keyboard.And(a, 0) == 0
  {}

  /** More keys count more bits. */
  lemma {:induction false} MoreBits(a: bv32, b: bv32)
    requires Keyboard.And(a, b) == a && a != b
    ensures BitCount(a) < BitCount(b)
    decreases b
  {
    hide *;
    AndZero(a);
    Keyboard.HalfParts(b);
    Keyboard.BitCountUnfold(a);
    Keyboard.BitCountUnfold(b);
    HalfAnd(a, b);
    LowBitAnd(a, b);
    if Keyboard.Half(a) == Keyboard.Half(b) {
      if Keyboard.LowBit(a) == Keyboard.LowBit(b) { PartsDetermine(a, b); }
    } else {
      MoreBits(Keyboard.Half(a), Keyboard.Half(b));
    }
  }

  /** All keys of `a` are among those of `b`. */
  predicate Within(a: Mask, b: Mask) { Keyboard.And(a.bits, b.bits) == a.bits }

  lemma FewerKeys(a: Mask, b: Mask)
    requires Within(a, b) && a != b
    ensures PressNum(a) < PressNum(b)
  {
    MoreBits(a.bits, b.bits);
    hide BitCount, Keyboard.And;
  }

  /** Keys that join the pressed ones are a press of all of them, counted if the others were just clicked. */
  lemma KeysJoin(c: Ctrl, p: Param, cb: Callbacks, cur: Mask, t: nat)
    requires FitsWords(p) && (c.phase == ShortPressed || c.phase == LongPressed) && cur != NONE
    requires Within(c.value, cur) && cur != c.value
    requires c.doubleValue != NONE && c.doubleDelay + t < p.doubleInterval
    ensures var o := Pass(c, p, cb, Input(t, cur));
            var n := if c.doubleValue == c.value then (c.pressCnt + 1) % 0x1_0000_0000 else 1;
            && o.events == (if cb.shortPress then [ShortPress(cur, n)] else [])
            && o.ctrl.phase == ShortPressed && o.ctrl.value == cur && o.ctrl.keepTime == 0 && o.ctrl.pressCnt == n
            && o.ctrl.doubleValue == c.value
  {
    FewerKeys(c.value, cur);
    hide PressNum, Within;
  }

  /** Keys that leave while others stay are no event; the time of the hold starts again. */
  lemma KeysLeave(c: Ctrl, p: Param, cb: Callbacks, cur: Mask, t: nat)
    requires (c.phase == ShortPressed || c.phase == LongPressed) && cur != NONE
    requires Within(cur, c.value) && cur != c.value
    ensures var o := Pass(c, p, cb, Input(t, cur));
            o.events == [] && o.ctrl.phase == ShortPressed && o.ctrl.value == cur && o.ctrl.keepTime == 0 && o.ctrl.pressCnt == c.pressCnt
  {
    FewerKeys(cur, c.value);
    hide PressNum, Within, Expire;
    ExpireWhilePressed(c, p, cb, t, cur);
  }

  lemma ExpireWhilePressed(c: Ctrl, p: Param, cb: Callbacks, t: nat, cur: Mask)
    requires cur != NONE
    ensures var o := Expire(c, p, cb, t, cur);
            && o.events == [] && o.ctrl.phase == c.phase && o.ctrl.value == c.value && o.ctrl.pressCnt == c.pressCnt
            && o.ctrl.keepTime == c.keepTime && o.ctrl.longCnt == c.longCnt
  {}

  // ---------- keys held ----------

  /** The first `n` long presses of `v`. */
  function LongEvents(v: Mask, n: nat): (r: seq<Event>)
    ensures |r| == n
  {
    seq(n, k requires 0 <= k => LongPress(v, k % 0x1_0000_0000))
  }

  /** `m` passes of `d` milliseconds each that see `v`. */
  function Hold(v: Mask, d: nat, m: nat): (r: seq<Input>)
    ensures |r| == m
  {
    seq(m, k requires 0 <= k => Input(d, v))
  }

  /** The passes of `d` milliseconds that it takes to exceed `time`. */
  function PassesFor(time: nat, d: nat): (n: nat)
    requires d > 0
    ensures n > 0 && n * d > time && (n - 1) * d <= time
  {
    PassesBound(time, d);
    time / d + 1
  }

  lemma PassesBound(time: nat, d: nat)
    requires d > 0
    ensures (time / d + 1) * d > time && (time / d) * d <= time
  {}

  /** How many long presses are reported after `m` passes: the first after the keep time, then one a loop time. */
  function LongCount(p: Param, d: nat, m: nat): nat
    requires d > 0
  {
    var first, each := PassesFor(p.longKeepTime, d), PassesFor(p.longLoopTime, d);
    if m < first then 0 else (m - first) / each + 1
  }

  /** The machine after `m` passes of a hold. */
  ghost predicate Holding(o: Outcome, p: Param, cb: Callbacks, v: Mask, d: nat, m: nat)
    requires d > 0
  {
    var first, each := PassesFor(p.longKeepTime, d), PassesFor(p.longLoopTime, d);
    var n := LongCount(p, d, m);
    if m < first then
      o.ctrl.value == v && o.events == [] && o.ctrl.phase == ShortPressed && o.ctrl.keepTime == m * d
    else
      Looping(o, cb, v, n, (m - first) % each * d)
  }

  /** After `n` long presses, the last one `time` ago. */
  ghost predicate Looping(o: Outcome, cb: Callbacks, v: Mask, n: nat, time: nat) {
    && n > 0 && o.ctrl.value == v && o.ctrl.phase == LongPressed && o.ctrl.keepTime == time
    && o.events == (if cb.longPress then LongEvents(v, n) else [])
    && o.ctrl.longCnt == if cb.longPress then (n - 1) % 0x1_0000_0000 else 0
  }

  lemma FewerPasses(x: nat, n: nat, time: nat, d: nat)
    requires d > 0 && n > 0 && n * d > time && (n - 1) * d <= time
    ensures x * d > time <==> x >= n
  {
    if x >= n {
      assert x * d >= n * d;
    } else {
      assert x * d <= (n - 1) * d;
    }
  }

  lemma NextQuotient(k: nat, each: nat)
    requires each > 0
    ensures if k % each + 1 == each then (k + 1) / each == k / each + 1 && (k + 1) % each == 0
            else (k + 1) / each == k / each && (k + 1) % each == k % each + 1
  {
    var q, r := k / each, k % each;
    assert k == q * each + r;
    if r + 1 == each {
      QuotientIs(k + 1, each, q + 1, 0);
    } else {
      QuotientIs(k + 1, each, q, r + 1);
    }
  }

  lemma QuotientIs(k: nat, each: nat, q: nat, r: nat)
    requires each > 0 && r < each && k == q * each + r
    ensures k / each == q && k % each == r
  {
    var x, y := k / each, k % each;
    assert (x - q) * each == r - y;
    assert x - q >= 1 ==> (x - q) * each >= each;
    assert q - x >= 1 ==> (q - x) * each >= each;
  }

  /** One pass of a hold before the first long press. */
  lemma ShortPressedPass(c: Ctrl, p: Param, cb: Callbacks, v: Mask, d: nat)
    requires v != NONE && c.phase == ShortPressed && c.value == v && c.keepTime + d < 0x1_0000_0000
    ensures var o := Pass(c, p, cb, Input(d, v));
            && o.ctrl.value == v
            && if c.keepTime + d > p.longKeepTime then
                 o.ctrl.phase == LongPressed && o.ctrl.keepTime == 0 && o.ctrl.longCnt == 0
                 && o.events == if cb.longPress then [LongPress(v, 0)] else []
               else o.ctrl.phase == ShortPressed && o.ctrl.keepTime == c.keepTime + d && o.events == []
  {
    hide PressNum, Expire;
    ExpireWhilePressed(c, p, cb, d, v);
  }

  /** One pass of a hold after it. */
  lemma LongPressedPass(c: Ctrl, p: Param, cb: Callbacks, v: Mask, d: nat)
    requires v != NONE && c.phase == LongPressed && c.value == v && c.keepTime + d < 0x1_0000_0000
    ensures var o := Pass(c, p, cb, Input(d, v));
            && o.ctrl.value == v && o.ctrl.phase == LongPressed
            && if c.keepTime + d > p.longLoopTime then
                 var n := if cb.longPress then (c.longCnt + 1) % 0x1_0000_0000 else c.longCnt;
                 o.ctrl.keepTime == 0 && o.ctrl.longCnt == n && o.events == if cb.longPress then [LongPress(v, n)] else []
               else o.ctrl.keepTime == c.keepTime + d && o.ctrl.longCnt == c.longCnt && o.events == []
  {
    hide PressNum, Expire;
    ExpireWhilePressed(c, p, cb, d, v);
  }

  lemma OneMoreLong(v: Mask, n: nat)
    ensures LongEvents(v, n) + [LongPress(v, n % 0x1_0000_0000)] == LongEvents(v, n + 1)
  {}

  lemma FirstPasses(o: Outcome, p: Param, cb: Callbacks, v: Mask, d: nat, m: nat)
    requires d > 0 && v != NONE && p.longKeepTime + d < 0x1_0000_0000 && m < PassesFor(p.longKeepTime, d)
    requires Holding(o, p, cb, v, d, m)
    ensures var o' := Pass(o.ctrl, p, cb, Input(d, v));
            Holding(Outcome(o'.ctrl, o.events + o'.events), p, cb, v, d, m + 1)
  {
    hide Pass, LongEvents, PassesFor;
    var first, each := PassesFor(p.longKeepTime, d), PassesFor(p.longLoopTime, d);
    NoLongYet(v);
    OneMoreLong(v, 0);
    FewerPasses(m, first, p.longKeepTime, d);
    FewerPasses(m + 1, first, p.longKeepTime, d);
    assert (m + 1) * d == m * d + d;
    ShortPressedPass(o.ctrl, p, cb, v, d);
    QuotientIs(0, each, 0, 0);
  }

  lemma NoLongYet(v: Mask)
    ensures LongEvents(v, 0) == []
  {}

  lemma LoopPass(o: Outcome, p: Param, cb: Callbacks, v: Mask, d: nat, n: nat, time: nat)
    requires v != NONE && Looping(o, cb, v, n, time) && time + d < 0x1_0000_0000
    ensures var o' := Pass(o.ctrl, p, cb, Input(d, v));
            var all := Outcome(o'.ctrl, o.events + o'.events);
            if time + d > p.longLoopTime then Looping(all, cb, v, n + 1, 0) else Looping(all, cb, v, n, time + d)
  {
    hide Pass, LongEvents;
    OneMoreLong(v, n);
    LongPressedPass(o.ctrl, p, cb, v, d);
  }

  lemma LaterPasses(o: Outcome, p: Param, cb: Callbacks, v: Mask, d: nat, m: nat)
    requires d > 0 && v != NONE && p.longLoopTime + d < 0x1_0000_0000 && m >= PassesFor(p.longKeepTime, d)
    requires Holding(o, p, cb, v, d, m)
    ensures var o' := Pass(o.ctrl, p, cb, Input(d, v));
            Holding(Outcome(o'.ctrl, o.events + o'.events), p, cb, v, d, m + 1)
  {
    hide Pass, Looping, PassesFor;
    var first, each := PassesFor(p.longKeepTime, d), PassesFor(p.longLoopTime, d);
    var k := m - first;
    NextQuotient(k, each);
    FewerPasses(k % each, each, p.longLoopTime, d);
    FewerPasses(k % each + 1, each, p.longLoopTime, d);
    assert (k % each + 1) * d == k % each * d + d;
    LoopPass(o, p, cb, v, d, k / each + 1, k % each * d);
    assert m + 1 - first == k + 1;
  }

  lemma HoldStep(o: Outcome, p: Param, cb: Callbacks, v: Mask, d: nat, m: nat)
    requires d > 0 && v != NONE && p.longKeepTime + d < 0x1_0000_0000 && p.longLoopTime + d < 0x1_0000_0000
    requires Holding(o, p, cb, v, d, m)
    ensures var o' := Pass(o.ctrl, p, cb, Input(d, v));
            Holding(Outcome(o'.ctrl, o.events + o'.events), p, cb, v, d, m + 1)
  {
    hide *;
    if m < PassesFor(p.longKeepTime, d) {
      FirstPasses(o, p, cb, v, d, m);
    } else {
      LaterPasses(o, p, cb, v, d, m);
    }
  }

  lemma {:induction false} HoldFrom(c: Ctrl, p: Param, cb: Callbacks, v: Mask, d: nat, m: nat)
    requires d > 0 && v != NONE && p.longKeepTime + d < 0x1_0000_0000 && p.longLoopTime + d < 0x1_0000_0000
    requires c.phase == ShortPressed && c.value == v && c.keepTime == 0
    ensures Holding(RunFrom(c, p, cb, Hold(v, d, m)), p, cb, v, d, m)
  {
    hide Pass, PassesFor;
    if m > 0 {
      hide Holding;
      HoldFrom(c, p, cb, v, d, m - 1);
      assert Hold(v, d, m)[..m - 1] == Hold(v, d, m - 1);
      HoldStep(RunFrom(c, p, cb, Hold(v, d, m - 1)), p, cb, v, d, m - 1);
    }
  }

  /** A press from the idle machine. */
  lemma PressStarts(c: Ctrl, p: Param, cb: Callbacks, v: Mask, t: nat)
    requires c.phase == Idle && v != NONE
    ensures var o := Pass(c, p, cb, Input(t, v)); o.ctrl.phase == ShortPressed && o.ctrl.value == v && o.ctrl.keepTime == 0
  {}

  /** The release of a long press, as the last event of its pass; the press still counts as a click while the window is open. */
  lemma LongReleasePass(c: Ctrl, p: Param, cb: Callbacks, v: Mask, t: nat)
    requires FitsWords(p) && c.phase == LongPressed && c.value == v
    ensures var o := Pass(c, p, cb, Input(t, NONE));
            && (cb.longRelease ==> o.events != [] && o.events[|o.events| - 1] == LongRelease(v, c.longCnt))
            && (c.doubleValue != NONE && c.doubleDelay + t < p.doubleInterval ==>
                  o == Outcome(c.(value := NONE, phase := LongReleased, keepTime := 0, doubleDelay := c.doubleDelay + t),
                               if cb.longRelease then [LongRelease(v, c.longCnt)] else []))
  {
    hide BitCount;
  }

  /**
   In every run, keys that are pressed while the machine is idle and then held for m passes of d
   milliseconds are reported by exactly the long presses that the keep time and the loop time ask
   for: none until the hold exceeds the keep time, the first then, and one more each time that the
   loop time is exceeded, with counts from 0 on. Their release carries the count of the last one.
   */
  lemma HoldReported(p: Param, cb: Callbacks, before: seq<Input>, v: Mask, t: nat, d: nat, m: nat, u: nat)
    requires d > 0 && v != NONE && FitsWords(p) && p.longKeepTime + d < 0x1_0000_0000 && p.longLoopTime + d < 0x1_0000_0000
    requires Run(p, cb, before).ctrl.phase == Idle
    ensures var all, n := before + [Input(t, v)] + Hold(v, d, m), LongCount(p, d, m);
            var o, o' := Run(p, cb, all), Run(p, cb, all + [Input(u, NONE)]);
            && o.events == Run(p, cb, before + [Input(t, v)]).events + (if cb.longPress then LongEvents(v, n) else [])
            && (n > 0 && cb.longRelease ==>
                  o'.events != [] && o'.events[|o'.events| - 1] == LongRelease(v, if cb.longPress then (n - 1) % 0x1_0000_0000 else 0))
  {
    hide Pass, Run, RunFrom, PassesFor, LongEvents, Hold;
    RunOneMore(p, cb, before, Input(t, v));
    PressStarts(Run(p, cb, before).ctrl, p, cb, v, t);
    var pressed := before + [Input(t, v)];
    HoldFrom(Run(p, cb, pressed).ctrl, p, cb, v, d, m);
    RunIsRunFrom(p, cb, pressed, Hold(v, d, m));
    var o := Run(p, cb, pressed + Hold(v, d, m));
    RunOneMore(p, cb, pressed + Hold(v, d, m), Input(u, NONE));
    if LongCount(p, d, m) > 0 && cb.longRelease {
      LongReleasePass(o.ctrl, p, cb, v, u);
    }
  }
}
