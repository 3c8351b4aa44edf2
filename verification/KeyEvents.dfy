/**
 The timed press, click and long-press machine of myKeyboard.c (`myKeyboardStatusMachine` and
 the double-press part of `myKeyboardLoop`) as a step function, and what every run of it
 reports through the callbacks.
 */
module KeyEvents {
  import opened Words

  /** The set of pressed keys, one bit a key. */
  datatype Mask = Mask(bits: bv32)

  const NONE: Mask := Mask(0)

  datatype Phase = Idle | ShortPressed | ShortReleased | LongPressed | LongReleased

  datatype Event =
    | ShortPress(value: Mask, count: nat)
    | ShortRelease(value: Mask, count: nat)
    | LongPress(value: Mask, count: nat)
    | LongRelease(value: Mask, count: nat)

  datatype Param = Param(checkInterval: nat, filterCount: nat, longKeepTime: nat, longLoopTime: nat, doubleInterval: nat)

  /** Which callbacks the user registered. */
  datatype Callbacks = Callbacks(shortPress: bool, shortRelease: bool, longPress: bool, longRelease: bool)

  datatype Ctrl = Ctrl(value: Mask, phase: Phase, keepTime: nat, pressCnt: nat, doubleDelay: nat, doubleValue: Mask, longCnt: nat)

  const START: Ctrl := Ctrl(NONE, Idle, 0, 0, 0, NONE, 0)

  /** One pass of the loop: the time since the last pass and the debounced keys. */
  datatype Input = Input(interval: nat, cur: Mask)

  datatype Outcome = Outcome(ctrl: Ctrl, events: seq<Event>)

  function Plus(a: nat, b: nat): nat { (a + b) % WORD }

  /** The number of set bits. */
  function BitCount(v: bv32): (n: nat)
    decreases v
  {
    if v == 0 then 0 else (if v & 1 == 1 then 1 else 0) + BitCount(v >> 1)
  }

  function PressNum(m: Mask): nat { BitCount(m.bits) }

  function Report(registered: bool, e: Event): seq<Event> {
    if registered then [e] else []
  }

  /** A new press of `v`: a first click, or one more of the same keys. */
  function CountPress(c: Ctrl, v: Mask): Ctrl {
    if c.doubleValue != v then c.(pressCnt := 1, doubleDelay := 0, doubleValue := v)
    else c.(pressCnt := Plus(c.pressCnt, 1))
  }

  function FromIdle(c: Ctrl, cb: Callbacks, cur: Mask): Outcome {
    if cur == NONE then Outcome(c, [])
    else
      var c' := CountPress(c.(value := cur, phase := ShortPressed, keepTime := 0), cur);
      Outcome(c', Report(cb.shortPress, ShortPress(cur, c'.pressCnt)))
  }

  /** The keys changed while pressed: only more keys than before count as a press. */
  function Changed(c: Ctrl, cb: Callbacks, cur: Mask): Outcome {
    if PressNum(cur) > PressNum(c.value) then
      var c' := CountPress(c, c.value);
      Outcome(c'.(value := cur, phase := ShortPressed, keepTime := 0), Report(cb.shortPress, ShortPress(cur, c'.pressCnt)))
    else
      Outcome(c.(value := cur, phase := ShortPressed, keepTime := 0), [])
  }

  function FromShortPressed(c: Ctrl, p: Param, cb: Callbacks, interval: nat, cur: Mask): Outcome {
    if cur == NONE then
      Outcome(c.(value := cur, phase := ShortReleased, keepTime := 0),
              if c.pressCnt > 1 || (c.doubleValue == NONE && c.pressCnt != 0)
              then Report(cb.shortRelease, ShortRelease(c.value, c.pressCnt)) else [])
    else if cur == c.value then
      var keep := Plus(c.keepTime, interval);
      if keep > p.longKeepTime then
        Outcome(c.(keepTime := 0, phase := LongPressed, longCnt := 0), Report(cb.longPress, LongPress(c.value, 0)))
      else
        Outcome(c.(keepTime := keep), [])
    else Changed(c, cb, cur)
  }

  /** The count of a long press advances only when its callback is registered. */
  function FromLongPressed(c: Ctrl, p: Param, cb: Callbacks, interval: nat, cur: Mask): Outcome {
    if cur == NONE then
      Outcome(c.(value := cur, phase := LongReleased, keepTime := 0), Report(cb.longRelease, LongRelease(c.value, c.longCnt)))
    else if cur == c.value then
      var keep := Plus(c.keepTime, interval);
      if keep > p.longLoopTime then
        var n := if cb.longPress then Plus(c.longCnt, 1) else c.longCnt;
        Outcome(c.(keepTime := 0, longCnt := n), Report(cb.longPress, LongPress(c.value, n)))
      else
        Outcome(c.(keepTime := keep), [])
    else Changed(c, cb, cur)
  }

  function Machine(c: Ctrl, p: Param, cb: Callbacks, interval: nat, cur: Mask): Outcome {
    match c.phase
    case Idle => FromIdle(c, cb, cur)
    case ShortPressed => FromShortPressed(c, p, cb, interval, cur)
    case LongPressed => FromLongPressed(c, p, cb, interval, cur)
    case ShortReleased => Outcome(c.(phase := Idle), [])
    case LongReleased => Outcome(c.(phase := Idle), [])
  }

  /** The double-press window; a single click is reported when it closes. */
  function Expire(c: Ctrl, p: Param, cb: Callbacks, interval: nat, cur: Mask): Outcome {
    if c.doubleValue == NONE then Outcome(c, [])
    else
      var delay := Plus(c.doubleDelay, interval);
      if delay < p.doubleInterval then Outcome(c.(doubleDelay := delay), [])
      else if cur == NONE && c.pressCnt == 1 then
        Outcome(c.(pressCnt := 0, doubleValue := NONE, doubleDelay := 0), Report(cb.shortRelease, ShortRelease(c.doubleValue, c.pressCnt)))
      else
        Outcome(c.(doubleValue := NONE, doubleDelay := 0), [])
  }

  /** One pass of the loop after the keys are read. */
  function Pass(c: Ctrl, p: Param, cb: Callbacks, input: Input): Outcome {
    var o1 := Expire(c, p, cb, input.interval, input.cur);
    var o2 := Machine(o1.ctrl, p, cb, input.interval, input.cur);
    Outcome(o2.ctrl, o1.events + o2.events)
  }

  /** All passes, oldest first, from the state at start-up. */
  function Run(p: Param, cb: Callbacks, inputs: seq<Input>): Outcome {
    if inputs == [] then Outcome(START, [])
    else
      var o := Run(p, cb, inputs[..|inputs| - 1]);
      var o' := Pass(o.ctrl, p, cb, inputs[|inputs| - 1]);
      Outcome(o'.ctrl, o.events + o'.events)
  }

  // ---------- long presses ----------

  predicate IsLong(e: Event) { e.LongPress? || e.LongRelease? }

  /** The long-press and long-release callbacks of a trace. */
  function Longs(events: seq<Event>): seq<Event> {
    if events == [] then []
    else Longs(events[..|events| - 1]) + if IsLong(events[|events| - 1]) then [events[|events| - 1]] else []
  }

  /** LongPress(v, 0), ..., LongPress(v, n). */
  function LongPresses(v: Mask, n: nat): (s: seq<Event>)
    ensures |s| == n + 1
  {
    seq(n + 1, k requires 0 <= k => LongPress(v, k))
  }

  ghost predicate EndsWith(s: seq<Event>, t: seq<Event>) {
    |t| <= |s| && s[|s| - |t|..] == t
  }

  /** Every long release directly follows the long presses 0 to n of the same keys. */
  ghost predicate ReleasesFollowPresses(longs: seq<Event>) {
    forall k :: 0 <= k < |longs| && longs[k].LongRelease? ==>
      EndsWith(longs[..k], LongPresses(longs[k].value, longs[k].count))
  }

  ghost predicate LongInvariant(o: Outcome) {
    var longs := Longs(o.events);
    && o.ctrl.longCnt < WORD
    && ReleasesFollowPresses(longs)
    && (o.ctrl.phase == LongPressed ==> EndsWith(longs, LongPresses(o.ctrl.value, o.ctrl.longCnt)))
  }

  lemma LongsOfOne(e: Event)
    ensures Longs([e]) == if IsLong(e) then [e] else []
  {
    assert [e][..0] == [];
  }

  lemma {:induction false} LongsAppend(a: seq<Event>, b: seq<Event>)
    ensures Longs(a + b) == Longs(a) + Longs(b)
  {
    if b == [] {
      assert a + b == a;
    } else {
      assert (a + b)[..|a + b| - 1] == a + b[..|b| - 1];
      LongsAppend(a, b[..|b| - 1]);
    }
  }

  /** The double-press window reports no long event. */
  lemma ExpireLongs(c: Ctrl, p: Param, cb: Callbacks, interval: nat, cur: Mask)
    ensures var o := Expire(c, p, cb, interval, cur);
            && Longs(o.events) == [] && (forall e :: e in o.events ==> !IsLong(e))
            && o.ctrl.phase == c.phase && o.ctrl.value == c.value && o.ctrl.longCnt == c.longCnt && o.ctrl.keepTime == c.keepTime
  {
    var e := Expire(c, p, cb, interval, cur).events;
    if |e| == 1 { LongsOfOne(e[0]); }
  }

  /** The long event `e` of a step from `c` to `c'` under keys `cur`, if any; `releases` are reported. */
  ghost predicate LongStep(c: Ctrl, cur: Mask, c': Ctrl, e: seq<Event>, releases: bool) {
    && c'.longCnt < WORD
    && if c.phase == LongPressed && cur == NONE then
         e == Report(releases, LongRelease(c.value, c.longCnt)) && c'.phase != LongPressed
       else if c'.phase == LongPressed && c.phase != LongPressed then
         e == [LongPress(c'.value, 0)] && c'.longCnt == 0
       else if c'.phase == LongPressed && c'.longCnt != c.longCnt then
         e == [LongPress(c'.value, c'.longCnt)] && c'.value == c.value && c'.longCnt in {0, c.longCnt + 1}
       else
         e == [] && (c'.phase == LongPressed ==> c'.value == c.value)
  }

  lemma MachineLongs(c: Ctrl, p: Param, cb: Callbacks, interval: nat, cur: Mask)
    requires cb.longPress && c.longCnt < WORD
    ensures var o := Machine(c, p, cb, interval, cur); LongStep(c, cur, o.ctrl, Longs(o.events), cb.longRelease)
  {
    hide PressNum;
    var e := Machine(c, p, cb, interval, cur).events;
    if |e| == 1 { LongsOfOne(e[0]); }
  }

  lemma PassLongs(c: Ctrl, p: Param, cb: Callbacks, input: Input)
    requires cb.longPress && c.longCnt < WORD
    ensures var o := Pass(c, p, cb, input); LongStep(c, input.cur, o.ctrl, Longs(o.events), cb.longRelease)
  {
    hide Machine, Expire, Longs;
    ExpireLongs(c, p, cb, input.interval, input.cur);
    var o1 := Expire(c, p, cb, input.interval, input.cur);
    var o2 := Machine(o1.ctrl, p, cb, input.interval, input.cur);
    LongsAppend(o1.events, o2.events);
    MachineLongs(o1.ctrl, p, cb, input.interval, input.cur);
  }

  lemma FirstLongPress(longs: seq<Event>, v: Mask)
    ensures EndsWith(longs + [LongPress(v, 0)], LongPresses(v, 0))
  {}

  lemma NextLongPress(longs: seq<Event>, v: Mask, n: nat)
    requires EndsWith(longs, LongPresses(v, n))
    ensures EndsWith(longs + [LongPress(v, n + 1)], LongPresses(v, n + 1))
  {
    var s, t := longs + [LongPress(v, n + 1)], LongPresses(v, n + 1);
    assert t == LongPresses(v, n) + [LongPress(v, n + 1)];
    assert s[|s| - |t|..] == longs[|longs| - (n + 1)..] + [LongPress(v, n + 1)];
  }

  lemma OneMore(longs: seq<Event>, e: Event)
    requires ReleasesFollowPresses(longs)
    requires e.LongRelease? ==> EndsWith(longs, LongPresses(e.value, e.count))
    ensures ReleasesFollowPresses(longs + [e])
  {
    var all := longs + [e];
    forall k | 0 <= k < |all| && all[k].LongRelease?
      ensures EndsWith(all[..k], LongPresses(all[k].value, all[k].count))
    {
      assert all[..k] == longs[..k];
      if k == |longs| {
        assert longs[..k] == longs;
      }
    }
  }

  /**
   Over every run with a long-press callback, each LongRelease(v, n) comes directly after
   LongPress(v, 0), ..., LongPress(v, n) among the long events, even when the 32-bit count wraps.
   */
  lemma {:induction false} LongReleasesFollowPresses(p: Param, cb: Callbacks, inputs: seq<Input>)
    requires cb.longPress
    ensures LongInvariant(Run(p, cb, inputs))
  {
    hide Pass, EndsWith, ReleasesFollowPresses;
    if inputs == [] {
      NoReleases();
    } else {
      var o, input := Run(p, cb, inputs[..|inputs| - 1]), inputs[|inputs| - 1];
      LongReleasesFollowPresses(p, cb, inputs[..|inputs| - 1]);
      var o' := Pass(o.ctrl, p, cb, input);
      PassLongs(o.ctrl, p, cb, input);
      LongsAppend(o.events, o'.events);
      hide Run;
      var longs, e := Longs(o.events), Longs(o'.events);
      if e == [] {
        assert longs + e == longs;
      } else {
        OneMore(longs, e[0]);
        if o'.ctrl.phase == LongPressed {
          if o'.ctrl.longCnt == 0 {
            FirstLongPress(longs, o'.ctrl.value);
          } else {
            NextLongPress(longs, o'.ctrl.value, o.ctrl.longCnt);
          }
        }
      }
    }
  }

  lemma NoReleases()
    ensures ReleasesFollowPresses([])
  {}

  /** The parameters are 32-bit words. */
  predicate FitsWords(p: Param) {
    p.checkInterval < WORD && p.filterCount < WORD && p.longKeepTime < WORD && p.longLoopTime < WORD && p.doubleInterval < WORD
  }

  /** The claim about long releases, for all runs. */
  ghost predicate AlwaysFollow(p: Param, cb: Callbacks) {
    forall inputs: seq<Input> :: ReleasesFollowPresses(Longs(Run(p, cb, inputs).events))
  }

  /** No long press can be recognized, or none of the two callbacks is there. */
  predicate NoLongs(p: Param, cb: Callbacks) {
    p.longKeepTime == WORD - 1 || (!cb.longPress && !cb.longRelease)
  }

  lemma PassNoLongs(c: Ctrl, p: Param, cb: Callbacks, input: Input)
    requires NoLongs(p, cb) && (p.longKeepTime == WORD - 1 ==> c.phase != LongPressed)
    ensures var o := Pass(c, p, cb, input);
            Longs(o.events) == [] && (p.longKeepTime == WORD - 1 ==> o.ctrl.phase != LongPressed)
  {
    hide PressNum, Longs, Expire;
    ExpireLongs(c, p, cb, input.interval, input.cur);
    var o1 := Expire(c, p, cb, input.interval, input.cur);
    var o2 := Machine(o1.ctrl, p, cb, input.interval, input.cur);
    LongsAppend(o1.events, o2.events);
    if |o2.events| == 1 { LongsOfOne(o2.events[0]); } else { NothingLong(); }
  }

  lemma NothingLong()
    ensures Longs([]) == []
  {}

  lemma {:induction false} RunNoLongs(p: Param, cb: Callbacks, inputs: seq<Input>)
    requires NoLongs(p, cb)
    ensures var o := Run(p, cb, inputs);
            Longs(o.events) == [] && (p.longKeepTime == WORD - 1 ==> o.ctrl.phase != LongPressed)
  {
    hide Pass;
    if inputs != [] {
      var o := Run(p, cb, inputs[..|inputs| - 1]);
      RunNoLongs(p, cb, inputs[..|inputs| - 1]);
      PassNoLongs(o.ctrl, p, cb, inputs[|inputs| - 1]);
      LongsAppend(o.events, Pass(o.ctrl, p, cb, inputs[|inputs| - 1]).events);
    }
  }

  const ONE_KEY: Mask := Mask(1)

  lemma RunOneMore(p: Param, cb: Callbacks, inputs: seq<Input>, input: Input)
    ensures var o := Run(p, cb, inputs);
            var o' := Pass(o.ctrl, p, cb, input);
            Run(p, cb, inputs + [input]) == Outcome(o'.ctrl, o.events + o'.events)
  {
    hide Pass;
    assert (inputs + [input])[..|inputs|] == inputs;
  }

  /** Without a long-press callback, a key pressed, held and released is a release without presses. */
  lemma LoneLongRelease(p: Param, cb: Callbacks) returns (inputs: seq<Input>)
    requires FitsWords(p) && !cb.longPress && cb.longRelease && p.longKeepTime < WORD - 1
    ensures Longs(Run(p, cb, inputs).events) == [LongRelease(ONE_KEY, 0)]
  {
    var press, hold, release := Input(0, ONE_KEY), Input(WORD - 1, ONE_KEY), Input(0, NONE);
    inputs := [press] + [hold] + [release];
    assert [] + [press] == [press];
    RunOneMore(p, cb, [], press);
    RunOneMore(p, cb, [press], hold);
    RunOneMore(p, cb, [press] + [hold], release);
    var a := Pass(START, p, cb, press);
    var b := Pass(a.ctrl, p, cb, hold);
    var c := Pass(b.ctrl, p, cb, release);
    FirstPass(p, cb);
    SecondPass(a.ctrl, p, cb);
    ThirdPass(b.ctrl, p, cb);
    hide Pass, Longs;
    NothingLong();
    assert Run(p, cb, []) == Outcome(START, []);
    LongsAppend([], a.events);
    LongsAppend([] + a.events, b.events);
    LongsAppend([] + a.events + b.events, c.events);
  }

  lemma FirstPass(p: Param, cb: Callbacks)
    ensures var o := Pass(START, p, cb, Input(0, ONE_KEY));
            && Longs(o.events) == [] && o.ctrl.phase == ShortPressed && o.ctrl.value == ONE_KEY && o.ctrl.keepTime == 0
            && o.ctrl.pressCnt == 1 && o.ctrl.doubleDelay == 0 && o.ctrl.doubleValue == ONE_KEY
            && o.events == Report(cb.shortPress, ShortPress(ONE_KEY, 1))
  {
    var e := Pass(START, p, cb, Input(0, ONE_KEY)).events;
    if |e| == 1 { LongsOfOne(e[0]); }
  }

  lemma SecondPass(c: Ctrl, p: Param, cb: Callbacks)
    requires c.phase == ShortPressed && c.value == ONE_KEY && c.keepTime == 0 && p.longKeepTime < WORD - 1 && !cb.longPress
    ensures var o := Pass(c, p, cb, Input(WORD - 1, ONE_KEY));
            Longs(o.events) == [] && o.ctrl.phase == LongPressed && o.ctrl.value == ONE_KEY && o.ctrl.longCnt == 0
  {
    hide Longs, PressNum, Expire;
    NothingLong();
    ExpireLongs(c, p, cb, WORD - 1, ONE_KEY);
    var o1 := Expire(c, p, cb, WORD - 1, ONE_KEY);
    LongsAppend(o1.events, Machine(o1.ctrl, p, cb, WORD - 1, ONE_KEY).events);
  }

  lemma ThirdPass(c: Ctrl, p: Param, cb: Callbacks)
    requires c.phase == LongPressed && c.value == ONE_KEY && c.longCnt == 0 && cb.longRelease
    ensures Longs(Pass(c, p, cb, Input(0, NONE)).events) == [LongRelease(ONE_KEY, 0)]
  {
    hide Longs, PressNum, Expire;
    LongsOfOne(LongRelease(ONE_KEY, 0));
    ExpireLongs(c, p, cb, 0, NONE);
    var o1 := Expire(c, p, cb, 0, NONE);
    LongsAppend(o1.events, [LongRelease(ONE_KEY, 0)]);
  }

  /** When the claim holds: with a long-press callback, or when there are no long events or no releases to report. */
  lemma LongReleasesExactly(p: Param, cb: Callbacks)
    requires FitsWords(p)
    ensures AlwaysFollow(p, cb) <==> cb.longPress || !cb.longRelease || p.longKeepTime == WORD - 1
  {
    hide Run, ReleasesFollowPresses;
    if cb.longPress {
      forall inputs: seq<Input>
        ensures ReleasesFollowPresses(Longs(Run(p, cb, inputs).events))
      {
        LongReleasesFollowPresses(p, cb, inputs);
      }
    } else if NoLongs(p, cb) {
      NoReleases();
      forall inputs: seq<Input>
        ensures ReleasesFollowPresses(Longs(Run(p, cb, inputs).events))
      {
        RunNoLongs(p, cb, inputs);
      }
    } else {
      var inputs := LoneLongRelease(p, cb);
      LoneRelease(Longs(Run(p, cb, inputs).events));
    }
  }

  lemma LoneRelease(longs: seq<Event>)
    requires longs == [LongRelease(ONE_KEY, 0)]
    ensures !ReleasesFollowPresses(longs)
  {
    assert longs[0].LongRelease? && |longs[..0]| == 0;
    assert !EndsWith(longs[..0], LongPresses(longs[0].value, longs[0].count));
  }

  // ---------- how long a long press was held ----------

  /**
   For how long the keys of the last pass have been unchanged: the intervals of the trailing
   passes with the same keys, without the one that first saw them.
   */
  function HeldTime(inputs: seq<Input>): nat {
    if |inputs| < 2 then 0
    else if inputs[|inputs| - 2].cur != inputs[|inputs| - 1].cur then 0
    else HeldTime(inputs[..|inputs| - 1]) + inputs[|inputs| - 1].interval
  }

  /** What the phases say about the keys and the time. */
  ghost predicate HoldInvariant(c: Ctrl, p: Param, inputs: seq<Input>) {
    && (c.phase == ShortPressed || c.phase == LongPressed ==> inputs != [] && c.value == inputs[|inputs| - 1].cur)
    && (c.phase == ShortPressed ==> c.keepTime <= HeldTime(inputs))
    && (c.phase == LongPressed ==> HeldTime(inputs) > p.longKeepTime)
  }

  /** One pass keeps it and reports long presses only of keys held long enough. */
  lemma PassHolds(c: Ctrl, p: Param, cb: Callbacks, before: seq<Input>, input: Input)
    requires HoldInvariant(c, p, before)
    ensures HoldInvariant(Pass(c, p, cb, input).ctrl, p, before + [input])
    ensures forall e :: e in Pass(c, p, cb, input).events && e.LongPress? ==>
              e.value == input.cur && HeldTime(before + [input]) > p.longKeepTime
  {
    hide PressNum, HeldTime, Expire;
    HeldStep(before, input);
    ExpireLongs(c, p, cb, input.interval, input.cur);
  }

  lemma HeldStep(before: seq<Input>, input: Input)
    ensures HeldTime(before + [input]) ==
            if before != [] && before[|before| - 1].cur == input.cur then HeldTime(before) + input.interval else 0
  {
    assert (before + [input])[..|before|] == before;
  }

  /** Every run keeps it. */
  lemma {:induction false} RunHolds(p: Param, cb: Callbacks, inputs: seq<Input>)
    ensures HoldInvariant(Run(p, cb, inputs).ctrl, p, inputs)
  {
    if inputs != [] {
      var before, input := inputs[..|inputs| - 1], inputs[|inputs| - 1];
      RunHolds(p, cb, before);
      assert before + [input] == inputs;
      hide Pass, HoldInvariant;
      PassHolds(Run(p, cb, before).ctrl, p, cb, before, input);
    }
  }

  /** Every long-press callback needs more than `longKeepTime` of unchanged keys. */
  lemma LongPressNeedsHold(p: Param, cb: Callbacks, before: seq<Input>, input: Input, e: Event)
    requires e in Pass(Run(p, cb, before).ctrl, p, cb, input).events && e.LongPress?
    ensures e.value == input.cur && HeldTime(before + [input]) > p.longKeepTime
  {
    hide Pass, HoldInvariant, HeldTime;
    RunHolds(p, cb, before);
    PassHolds(Run(p, cb, before).ctrl, p, cb, before, input);
  }

  // ---------- single clicks ----------

  /** Callbacks that report a first press, and releases of a single press. */
  function FirstPresses(events: seq<Event>): nat {
    if events == [] then 0
    else FirstPresses(events[..|events| - 1]) + if events[|events| - 1].ShortPress? && events[|events| - 1].count == 1 then 1 else 0
  }

  function SingleReleases(events: seq<Event>): nat {
    if events == [] then 0
    else SingleReleases(events[..|events| - 1]) + if events[|events| - 1].ShortRelease? && events[|events| - 1].count == 1 then 1 else 0
  }

  lemma {:induction false} CountsAppend(a: seq<Event>, b: seq<Event>)
    ensures FirstPresses(a + b) == FirstPresses(a) + FirstPresses(b)
    ensures SingleReleases(a + b) == SingleReleases(a) + SingleReleases(b)
  {
    if b == [] {
      assert a + b == a;
    } else {
      assert (a + b)[..|a + b| - 1] == a + b[..|b| - 1];
      CountsAppend(a, b[..|b| - 1]);
    }
  }

  lemma CountsOfOne(e: Event)
    ensures FirstPresses([e]) == if e.ShortPress? && e.count == 1 then 1 else 0
    ensures SingleReleases([e]) == if e.ShortRelease? && e.count == 1 then 1 else 0
  {
    assert [e][..0] == [];
  }

  /** A first press that may still be reported as a single release. */
  predicate Pending(c: Ctrl) {
    c.pressCnt == 1 && (c.phase == ShortPressed || c.phase == LongPressed || c.doubleValue != NONE)
  }

  function PendingCount(c: Ctrl): nat {
    if Pending(c) then 1 else 0
  }

  lemma ExpireBalance(c: Ctrl, p: Param, cb: Callbacks, interval: nat, cur: Mask)
    ensures var o := Expire(c, p, cb, interval, cur);
            SingleReleases(o.events) + PendingCount(o.ctrl) <= FirstPresses(o.events) + PendingCount(c)
  {
    var e := Expire(c, p, cb, interval, cur).events;
    if |e| == 1 { CountsOfOne(e[0]); }
  }

  lemma MachineBalance(c: Ctrl, p: Param, cb: Callbacks, interval: nat, cur: Mask)
    requires cb.shortPress
    ensures var o := Machine(c, p, cb, interval, cur);
            SingleReleases(o.events) + PendingCount(o.ctrl) <= FirstPresses(o.events) + PendingCount(c)
  {
    hide PressNum;
    var e := Machine(c, p, cb, interval, cur).events;
    if |e| == 1 { CountsOfOne(e[0]); }
  }

  lemma PassBalance(c: Ctrl, p: Param, cb: Callbacks, input: Input)
    requires cb.shortPress
    ensures var o := Pass(c, p, cb, input);
            SingleReleases(o.events) + PendingCount(o.ctrl) <= FirstPresses(o.events) + PendingCount(c)
  {
    hide Expire, Machine, PendingCount;
    var o1 := Expire(c, p, cb, input.interval, input.cur);
    var o2 := Machine(o1.ctrl, p, cb, input.interval, input.cur);
    ExpireBalance(c, p, cb, input.interval, input.cur);
    MachineBalance(o1.ctrl, p, cb, input.interval, input.cur);
    CountsAppend(o1.events, o2.events);
  }

  /** Over every run, releases of a single press never outnumber first presses. */
  lemma {:induction false} SingleReleasesAreBacked(p: Param, cb: Callbacks, inputs: seq<Input>)
    requires cb.shortPress
    ensures var o := Run(p, cb, inputs);
            SingleReleases(o.events) + PendingCount(o.ctrl) <= FirstPresses(o.events)
  {
    if inputs != [] {
      var before := inputs[..|inputs| - 1];
      SingleReleasesAreBacked(p, cb, before);
      hide Pass;
      var o, o' := Run(p, cb, before), Pass(Run(p, cb, before).ctrl, p, cb, inputs[|inputs| - 1]);
      PassBalance(o.ctrl, p, cb, inputs[|inputs| - 1]);
      CountsAppend(o.events, o'.events);
    }
  }

  /** The claim about single clicks, for all runs. */
  ghost predicate AlwaysBacked(p: Param, cb: Callbacks) {
    forall inputs: seq<Input> :: SingleReleases(Run(p, cb, inputs).events) <= FirstPresses(Run(p, cb, inputs).events)
  }

  lemma PassNoReleases(c: Ctrl, p: Param, cb: Callbacks, input: Input)
    requires !cb.shortRelease
    ensures SingleReleases(Pass(c, p, cb, input).events) == 0
  {
    hide PressNum, SingleReleases, FirstPresses;
    var o1 := Expire(c, p, cb, input.interval, input.cur);
    var o2 := Machine(o1.ctrl, p, cb, input.interval, input.cur);
    NothingSingle();
    if |o2.events| == 1 { CountsOfOne(o2.events[0]); }
    CountsAppend(o1.events, o2.events);
  }

  lemma NothingSingle()
    ensures SingleReleases([]) == 0 && FirstPresses([]) == 0
  {}

  lemma {:induction false} RunNoReleases(p: Param, cb: Callbacks, inputs: seq<Input>)
    requires !cb.shortRelease
    ensures SingleReleases(Run(p, cb, inputs).events) == 0
  {
    hide Pass;
    if inputs != [] {
      var o := Run(p, cb, inputs[..|inputs| - 1]);
      RunNoReleases(p, cb, inputs[..|inputs| - 1]);
      PassNoReleases(o.ctrl, p, cb, inputs[|inputs| - 1]);
      CountsAppend(o.events, Pass(o.ctrl, p, cb, inputs[|inputs| - 1]).events);
    }
  }

  /** Without a short-press callback, a click is a single release without a press. */
  lemma LoneClick(p: Param, cb: Callbacks) returns (inputs: seq<Input>)
    requires FitsWords(p) && !cb.shortPress && cb.shortRelease
    ensures SingleReleases(Run(p, cb, inputs).events) == 1 && FirstPresses(Run(p, cb, inputs).events) == 0
  {
    var press, release := Input(0, ONE_KEY), Input(p.doubleInterval, NONE);
    inputs := [press] + [release];
    assert [] + [press] == [press];
    RunOneMore(p, cb, [], press);
    RunOneMore(p, cb, [press], release);
    FirstPass(p, cb);
    var a := Pass(START, p, cb, press);
    ClickEnds(a.ctrl, p, cb);
    hide Pass, FirstPresses, SingleReleases;
    assert Run(p, cb, []) == Outcome(START, []) && [] + a.events == [];
    CountsOfOne(ShortRelease(ONE_KEY, 1));
    assert [] + [ShortRelease(ONE_KEY, 1)] == [ShortRelease(ONE_KEY, 1)];
  }

  lemma ClickEnds(c: Ctrl, p: Param, cb: Callbacks)
    requires c.phase == ShortPressed && c.pressCnt == 1 && c.doubleDelay == 0 && c.doubleValue == ONE_KEY
    requires FitsWords(p) && cb.shortRelease
    ensures Pass(c, p, cb, Input(p.doubleInterval, NONE)).events == [ShortRelease(ONE_KEY, 1)]
  {}

  /** When the claim holds: with a short-press callback, or without one for short releases. */
  lemma SingleReleasesExactly(p: Param, cb: Callbacks)
    requires FitsWords(p)
    ensures AlwaysBacked(p, cb) <==> cb.shortPress || !cb.shortRelease
  {
    hide Run, FirstPresses, SingleReleases;
    if cb.shortPress {
      forall inputs: seq<Input>
        ensures SingleReleases(Run(p, cb, inputs).events) <= FirstPresses(Run(p, cb, inputs).events)
      {
        SingleReleasesAreBacked(p, cb, inputs);
      }
    } else if !cb.shortRelease {
      forall inputs: seq<Input>
        ensures SingleReleases(Run(p, cb, inputs).events) <= FirstPresses(Run(p, cb, inputs).events)
      {
        RunNoReleases(p, cb, inputs);
      }
    } else {
      var inputs := LoneClick(p, cb);
      assert SingleReleases(Run(p, cb, inputs).events) > FirstPresses(Run(p, cb, inputs).events);
    }
  }
}
