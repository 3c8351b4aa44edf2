/** The quadrature decoder of myRotaryKey.c: a rotary switch read as one of four positions. */
module Rotary {
  import opened Words

  const NO_CODE: nat := 0xFF

  type Quarter = q: nat | q < 4

  /** One of the four positions, or none yet. */
  datatype Pos = Nowhere | At(q: Quarter)

  /** The interval between readings, the delay between reports, and which functions the user gave. */
  datatype Setup = Setup(hasTick: bool, interval: nat, resetDelay: nat, callback: bool)

  datatype Knob = Knob(state: Pos, action: Pos, pressed: nat, code: nat, count: int, lastTick: nat, lastReset: nat)

  const START: Knob := Knob(Nowhere, Nowhere, 0, NO_CODE, 0, 0, 0)

  /** One pass of the loop: both clock readings, the push button, and the two contacts as one number. */
  datatype Input = Input(readTick: nat, pressed: nat, code: nat, eventTick: nat)

  /** A report to the user. */
  datatype Report = Report(pressed: nat, count: int)

  /** The knob, the reports, and the sum of the counts that were cleared unreported. */
  datatype Outcome = Outcome(knob: Knob, reports: seq<Report>, dropped: int)

  /** The Gray code of the contacts. */
  function Decode(code: nat): Pos {
    if code == 0 then At(0) else if code == 1 then At(1) else if code == 3 then At(2) else if code == 2 then At(3) else Nowhere
  }

  /** The next position clockwise. */
  function After(p: Quarter): Quarter { if p == 3 then 0 else p + 1 }

  /** The step between neighbouring positions; a jump across counts as none. */
  function Turn(p: Quarter, q: Quarter): int {
    if q == After(p) then 1 else if p == After(q) then -1 else 0
  }

  function Since(tick: nat, last: nat): nat { (tick - last) % WORD }

  predicate ReadDue(s: Setup, last: nat, tick: nat) {
    !s.hasTick || Since(tick, last) >= s.interval
  }

  /** `rotarySwitchRead`. */
  function Read(k: Knob, s: Setup, i: Input): Outcome {
    if !ReadDue(s, k.lastTick, i.readTick) then Outcome(k, [], 0)
    else
      var k1 := if s.hasTick then k.(lastTick := i.readTick) else k;
      var k2 := if k1.pressed != i.pressed then k1.(pressed := i.pressed, count := 0) else k1;
      var k3 := if i.code == k2.code then k2
                else k2.(code := i.code, action := if Decode(i.code) == Nowhere then k2.action else Decode(i.code));
      Outcome(k3, [], if k1.pressed != i.pressed then k.count else 0)
  }

  /** `rotarySwitchStatusMachine`, for all five states. */
  function Machine(k: Knob): Outcome {
    match k.state
    case Nowhere => Outcome(k.(count := 0, state := k.action, action := Nowhere), [], k.count)
    case At(p) =>
      if k.action == Nowhere then Outcome(k, [], 0)
      else Outcome(k.(count := k.count + Turn(p, k.action.q), state := k.action, action := Nowhere), [], 0)
  }

  /** `rotaryEventProc`: without a clock its counter is local and starts at 0 every time. */
  function Events(k: Knob, s: Setup, tick: nat): Outcome {
    if if s.hasTick then Since(tick, k.lastReset) >= s.resetDelay else s.resetDelay == 0 then
      Outcome(k.(count := 0, lastReset := if s.hasTick && k.count != 0 then tick else k.lastReset),
              if s.callback && k.count != 0 then [Report(k.pressed, k.count)] else [],
              if s.callback then 0 else k.count)
    else Outcome(k, [], 0)
  }

  /** `myRotaryKeyLoop`. */
  function Pass(k: Knob, s: Setup, i: Input): Outcome {
    var a := Read(k, s, i);
    var b := Machine(a.knob);
    var c := Events(b.knob, s, i.eventTick);
    Outcome(c.knob, a.reports + b.reports + c.reports, a.dropped + b.dropped + c.dropped)
  }

  function Run(s: Setup, inputs: seq<Input>): Outcome {
    if inputs == [] then Outcome(START, [], 0)
    else
      var o := Run(s, inputs[..|inputs| - 1]);
      var o' := Pass(o.knob, s, inputs[|inputs| - 1]);
      Outcome(o'.knob, o.reports + o'.reports, o.dropped + o'.dropped)
  }

  // ---------- what was turned ----------

  /** The movement of the contacts alone: where they are, where they were first, and the steps so far. */
  datatype Track = Track(last: Pos, first: Pos, clockwise: nat, anticlockwise: nat, jumps: nat)

  const UNTRACKED: Track := Track(Nowhere, Nowhere, 0, 0, 0)

  function Follow(t: Track, code: nat): Track {
    var next := Decode(code);
    if next == Nowhere || next == t.last then t
    else if t.last == Nowhere then t.(last := next, first := next)
    else
      var d := Turn(t.last.q, next.q);
      if d == 1 then t.(last := next, clockwise := t.clockwise + 1)
      else if d == -1 then t.(last := next, anticlockwise := t.anticlockwise + 1)
      else t.(last := next, jumps := t.jumps + 1)
  }

  /** The time of the last reading, and the movement in all readings that were due. */
  datatype Watched = Watched(lastTick: nat, track: Track)

  function Watch(s: Setup, inputs: seq<Input>): Watched {
    if inputs == [] then Watched(0, UNTRACKED)
    else
      var w := Watch(s, inputs[..|inputs| - 1]);
      var i := inputs[|inputs| - 1];
      if ReadDue(s, w.lastTick, i.readTick) then
        Watched(if s.hasTick then i.readTick else w.lastTick, Follow(w.track, i.code))
      else w
  }

  function Reported(reports: seq<Report>): int {
    if reports == [] then 0 else Reported(reports[..|reports| - 1]) + reports[|reports| - 1].count
  }

  lemma {:induction false} ReportedConcat(a: seq<Report>, b: seq<Report>)
    ensures Reported(a + b) == Reported(a) + Reported(b)
    decreases |b|
  {
    if b == [] {
      assert a + b == a;
    } else {
      ReportedConcat(a, b[..|b| - 1]);
      assert (a + b)[..|a + b| - 1] == a + b[..|b| - 1];
    }
  }

  /** The knob is where the contacts are, has nothing left to do, and counts nothing before it is anywhere. */
  predicate Follows(k: Knob, w: Watched) {
    && k.state == w.track.last && k.action == Nowhere && k.lastTick == w.lastTick
    && (k.code == NO_CODE || Decode(k.code) == Nowhere || Decode(k.code) == k.state)
    && (k.state == Nowhere ==> k.count == 0)
  }

  function Net(t: Track): int { t.clockwise - t.anticlockwise }

  lemma MachineFollows(k: Knob, s: Setup, i: Input, w: Watched)
    requires Follows(k, w)
    ensures var a := Read(k, s, i);
            var b := Machine(a.knob);
            var w' := if ReadDue(s, w.lastTick, i.readTick) then Watched(if s.hasTick then i.readTick else w.lastTick, Follow(w.track, i.code)) else w;
            Follows(b.knob, w') && b.knob.count + a.dropped + b.dropped - k.count == Net(w'.track) - Net(w.track)
  {}

  lemma EventsReport(k: Knob, s: Setup, tick: nat, w: Watched)
    requires Follows(k, w)
    ensures var c := Events(k, s, tick);
            Reported(c.reports) + c.dropped + c.knob.count == k.count
            && Follows(c.knob, w) && c.knob.pressed == k.pressed && (s.callback ==> c.dropped == 0)
  {
    var one := [Report(k.pressed, k.count)];
    assert one[..0] == [];
  }

  /**
   Conservation over every run: what was reported, what was dropped and what is pending add up
   to the clockwise less the anticlockwise steps of the contacts.
   */
  lemma {:induction false} CountsConserved(s: Setup, inputs: seq<Input>)
    ensures var o, w := Run(s, inputs), Watch(s, inputs);
            Follows(o.knob, w) && Reported(o.reports) + o.dropped + o.knob.count == Net(w.track)
  {
    hide Read, Machine, Events, Follow, Follows, ReadDue, Net;
    if inputs == [] {
      NothingTracked();
    } else {
      var before, i := inputs[..|inputs| - 1], inputs[|inputs| - 1];
      CountsConserved(s, before);
      var o, w := Run(s, before), Watch(s, before);
      MachineFollows(o.knob, s, i, w);
      var a := Read(o.knob, s, i);
      var b := Machine(a.knob);
      var c := Events(b.knob, s, i.eventTick);
      EventsReport(b.knob, s, i.eventTick, Watch(s, inputs));
      NoReports(o.knob, s, i, a.knob);
      assert a.reports + b.reports + c.reports == c.reports;
      ReportedConcat(o.reports, c.reports);
      hide Reported;
    }
  }

  lemma NothingTracked()
    ensures Follows(START, Watched(0, UNTRACKED)) && Net(UNTRACKED) == 0
  {}

  lemma NoReports(k: Knob, s: Setup, i: Input, m: Knob)
    ensures Read(k, s, i).reports == [] && Machine(m).reports == []
  {}

  /** Either no reading has been due, or the push button has been read as `v`. */
  predicate Steady(k: Knob, v: nat) {
    k.pressed == v || (k.count == 0 && k.state == Nowhere && k.action == Nowhere)
  }

  /** With a callback and a push button that is held or released throughout, nothing is dropped. */
  lemma {:induction false} DropsNeedAPress(s: Setup, inputs: seq<Input>, v: nat)
    requires s.callback && forall k :: 0 <= k < |inputs| ==> inputs[k].pressed == v
    ensures Run(s, inputs).dropped == 0 && Steady(Run(s, inputs).knob, v)
  {
    hide Events, Machine, Read, Steady, Reported, Pass;
    if inputs == [] {
      StartSteady(v);
    } else {
      var before, i := inputs[..|inputs| - 1], inputs[|inputs| - 1];
      DropsNeedAPress(s, before, v);
      CountsConserved(s, before);
      QuietPass(Run(s, before).knob, s, i, Watch(s, before), v);
    }
  }

  lemma StartSteady(v: nat)
    ensures Steady(START, v)
  {}

  lemma QuietPass(k: Knob, s: Setup, i: Input, w: Watched, v: nat)
    requires s.callback && i.pressed == v && Steady(k, v) && Follows(k, w)
    ensures Pass(k, s, i).dropped == 0 && Steady(Pass(k, s, i).knob, v)
  {
    var a := Read(k, s, i);
    var b := Machine(a.knob);
    assert a.dropped == 0 && b.dropped == 0 && Steady(b.knob, v);
    hide Read, Machine;
  }

  /** The position is the first one, moved by the net steps and by two for every jump across. */
  predicate Congruent(t: Track) {
    if t.last == Nowhere then t.first == Nowhere && Net(t) == 0 && t.jumps == 0
    else t.first != Nowhere && Divides4(t.last.q - t.first.q - Net(t) - 2 * t.jumps)
  }

  predicate Divides4(x: int) { x % 4 == 0 }

  lemma Divides4Shift(x: int)
    requires Divides4(x)
    ensures Divides4(x + 4) && Divides4(x - 4)
  {}

  lemma FollowCongruent(t: Track, code: nat)
    requires Congruent(t)
    ensures Congruent(Follow(t, code))
  {
    if t.last != Nowhere {
      Divides4Shift(t.last.q - t.first.q - Net(t) - 2 * t.jumps);
    } else {
      assert Divides4(0);
    }
    hide Divides4;
  }

  lemma {:induction false} PositionCongruent(s: Setup, inputs: seq<Input>)
    ensures Congruent(Watch(s, inputs).track)
  {
    if inputs != [] {
      PositionCongruent(s, inputs[..|inputs| - 1]);
      FollowCongruent(Watch(s, inputs[..|inputs| - 1]).track, inputs[|inputs| - 1].code);
      hide Congruent, Follow;
    }
  }

  /** The counts explain the position: all counted steps, and two for every jump, lead from the first position to this one. */
  lemma CountsExplainPosition(s: Setup, inputs: seq<Input>)
    ensures var o, t := Run(s, inputs), Watch(s, inputs).track;
            o.knob.state.At? ==>
              t.first.At? && Divides4(o.knob.state.q - t.first.q - (Reported(o.reports) + o.dropped + o.knob.count) - 2 * t.jumps)
  {
    hide Run, Watch, Reported;
    CountsConserved(s, inputs);
    PositionCongruent(s, inputs);
  }

  // ---------- the contacts ----------

  /** The time of the last reading that was due, and the contact codes below 4 of all that were. */
  datatype Heard = Heard(lastTick: nat, codes: seq<nat>)

  function Hear(s: Setup, inputs: seq<Input>): Heard {
    if inputs == [] then Heard(0, [])
    else
      var h := Hear(s, inputs[..|inputs| - 1]);
      var i := inputs[|inputs| - 1];
      if s.hasTick && (i.readTick - h.lastTick) % 0x1_0000_0000 < s.interval then h
      else Heard(if s.hasTick then i.readTick else h.lastTick, if i.code < 4 then h.codes + [i.code] else h.codes)
  }

  /** How many neighbours in `codes` are one of `steps`. */
  function Pairs(codes: seq<nat>, steps: set<(nat, nat)>): nat {
    if |codes| < 2 then 0
    else Pairs(codes[..|codes| - 1], steps) + if (codes[|codes| - 2], codes[|codes| - 1]) in steps then 1 else 0
  }

  const CLOCKWISE: set<(nat, nat)> := {(0, 1), (1, 3), (3, 2), (2, 0)}
  const ANTICLOCKWISE: set<(nat, nat)> := {(1, 0), (3, 1), (2, 3), (0, 2)}

  lemma OneMorePair(codes: seq<nat>, code: nat, steps: set<(nat, nat)>)
    ensures Pairs(codes + [code], steps) ==
            Pairs(codes, steps) + if codes != [] && (codes[|codes| - 1], code) in steps then 1 else 0
  {
    assert (codes + [code])[..|codes|] == codes;
  }

  /** The movement is that of the codes. */
  predicate Moved(t: Track, codes: seq<nat>) {
    && (forall k :: 0 <= k < |codes| ==> codes[k] < 4)
    && t.last == (if codes == [] then Nowhere else Decode(codes[|codes| - 1]))
    && t.clockwise == Pairs(codes, CLOCKWISE) && t.anticlockwise == Pairs(codes, ANTICLOCKWISE)
  }

  lemma FollowMoves(t: Track, codes: seq<nat>, code: nat)
    requires Moved(t, codes)
    ensures Moved(Follow(t, code), if code < 4 then codes + [code] else codes)
  {
    OneMorePair(codes, code, CLOCKWISE);
    OneMorePair(codes, code, ANTICLOCKWISE);
    hide Pairs;
  }

  lemma {:induction false} WatchHears(s: Setup, inputs: seq<Input>)
    ensures Watch(s, inputs).lastTick == Hear(s, inputs).lastTick && Moved(Watch(s, inputs).track, Hear(s, inputs).codes)
  {
    if inputs != [] {
      WatchHears(s, inputs[..|inputs| - 1]);
      FollowMoves(Watch(s, inputs[..|inputs| - 1]).track, Hear(s, inputs[..|inputs| - 1]).codes, inputs[|inputs| - 1].code);
      hide Moved, Follow;
    }
  }

  /**
   Conservation over every run, in terms of the contact codes alone: what was reported, dropped and
   is pending adds up to the readings that follow each other clockwise, 0, 1, 3, 2 and 0 again, less
   those that follow each other the other way.
   */
  lemma CodesConserved(s: Setup, inputs: seq<Input>)
    ensures var o, codes := Run(s, inputs), Hear(s, inputs).codes;
            Reported(o.reports) + o.dropped + o.knob.count ==
            Pairs(codes, {(0, 1), (1, 3), (3, 2), (2, 0)}) - Pairs(codes, {(1, 0), (3, 1), (2, 3), (0, 2)})
  {
    hide Run, Reported, Pairs;
    CountsConserved(s, inputs);
    WatchHears(s, inputs);
  }

  /** With a callback, a pass on which the delay since the last report has passed leaves nothing pending. */
  lemma DuePassReports(s: Setup, inputs: seq<Input>, i: Input)
    requires s.callback
    requires if s.hasTick then (i.eventTick - Run(s, inputs).knob.lastReset) % 0x1_0000_0000 >= s.resetDelay else s.resetDelay == 0
    ensures var o, o', codes := Run(s, inputs), Run(s, inputs + [i]), Hear(s, inputs + [i]).codes;
            && Reported(o'.reports) + o'.dropped ==
               Pairs(codes, {(0, 1), (1, 3), (3, 2), (2, 0)}) - Pairs(codes, {(1, 0), (3, 1), (2, 3), (0, 2)})
            && (|o'.reports| == |o.reports| || (|o'.reports| == |o.reports| + 1 && o'.reports[|o.reports|].pressed == o'.knob.pressed))
            && o'.knob.count == 0
  {
    hide Run, Pairs, Hear, Reported, Pass;
    CodesConserved(s, inputs + [i]);
    RunThen(s, inputs, i);
    PassReports(Run(s, inputs).knob, s, i);
  }

  /** A pass that is not due reports nothing and keeps its count. */
  lemma EarlyPassWaits(s: Setup, inputs: seq<Input>, i: Input)
    requires if s.hasTick then (i.eventTick - Run(s, inputs).knob.lastReset) % 0x1_0000_0000 < s.resetDelay else s.resetDelay > 0
    ensures var o, o' := Run(s, inputs), Run(s, inputs + [i]);
            o'.reports == o.reports && o'.knob.lastReset == o.knob.lastReset
  {
    RunThen(s, inputs, i);
    hide Run, Decode;
  }

  /** When the push button changes, what is pending is dropped, and never reported with the new state of the button. */
  lemma PressDrops(s: Setup, inputs: seq<Input>, i: Input)
    requires s.callback && i.pressed != Run(s, inputs).knob.pressed
    requires !s.hasTick || (i.readTick - Run(s, inputs).knob.lastTick) % 0x1_0000_0000 >= s.interval
    ensures var o, o' := Run(s, inputs), Run(s, inputs + [i]);
            o'.dropped == o.dropped + o.knob.count && o'.knob.pressed == i.pressed
  {
    hide Run, Decode, Follows;
    RunThen(s, inputs, i);
  }

  lemma PassReports(k: Knob, s: Setup, i: Input)
    requires if s.hasTick then (i.eventTick - k.lastReset) % 0x1_0000_0000 >= s.resetDelay else s.resetDelay == 0
    ensures var o := Pass(k, s, i);
            o.knob.count == 0 && (o.reports == [] || (|o.reports| == 1 && o.reports[0].pressed == o.knob.pressed))
  {
    hide Decode;
  }

  // ---------- the object ----------

  class RotaryKey {
    var setup: Setup
    var curState: Pos
    var curAction: Pos
    var curPressedKeyOn: nat
    var curRotaryVal: nat
    var rotaryCount: int
    var lastTick: nat
    var lastResetCountTick: nat
    ghost var reports: seq<Report>
    ghost var dropped: int
    ghost var inputs: seq<Input>

    ghost function Value(): Knob
      reads this
    {
      Knob(curState, curAction, curPressedKeyOn, curRotaryVal, rotaryCount, lastTick, lastResetCountTick)
    }

    ghost predicate Valid()
      reads this
    {
      Outcome(Value(), reports, dropped) == Run(setup, inputs)
    }

    /** `myRotaryKeyInit` at start-up. */
    constructor (setup: Setup)
      ensures Valid() && this.setup == setup && inputs == []
    {
      this.setup := setup;
      curState, curAction, curPressedKeyOn, curRotaryVal := Nowhere, Nowhere, 0, NO_CODE;
      rotaryCount, lastTick, lastResetCountTick := 0, 0, 0;
      reports, dropped, inputs := [], 0, [];
    }

    /** `rotarySwitchRead`. */
    method SwitchRead(i: Input)
      modifies this`curPressedKeyOn, this`rotaryCount, this`curRotaryVal, this`curAction, this`lastTick, this`dropped
      ensures var o := Read(old(Value()), setup, i); Value() == o.knob && dropped == old(dropped) + o.dropped
    {
      if setup.hasTick {
        if Since(i.readTick, lastTick) < setup.interval {
          return;
        }
        lastTick := i.readTick;
      }
      if curPressedKeyOn != i.pressed {
        curPressedKeyOn := i.pressed;
        dropped := dropped + rotaryCount;
        rotaryCount := 0;
      }
      if i.code != curRotaryVal {
        curRotaryVal := i.code;
        if curRotaryVal == 0 {
          curAction := At(0);
        } else if curRotaryVal == 1 {
          curAction := At(1);
        } else if curRotaryVal == 3 {
          curAction := At(2);
        } else if curRotaryVal == 2 {
          curAction := At(3);
        }
      }
    }

    /** `rotarySwitchStatusInitProcess`. */
    method InitProcess()
      requires curState == Nowhere
      modifies this`rotaryCount, this`curState, this`curAction, this`dropped
      ensures var o := Machine(old(Value())); Value() == o.knob && dropped == old(dropped) + o.dropped
    {
      dropped := dropped + rotaryCount;
      rotaryCount := 0;
      match curAction {
        case At(q) => curState := At(q);
        case Nowhere =>
      }
      curAction := Nowhere;
    }

    /** `rotarySwitchStatus1Process` to `rotarySwitchStatus4Process`: the four tables of steps. */
    method StatusProcess()
      requires curState != Nowhere
      modifies this`rotaryCount, this`curState, this`curAction
      ensures Machine(old(Value())) == Outcome(Value(), [], 0)
    {
      if curAction != Nowhere {
        var q := curAction.q;
        var step := 0;
        match curState.q {
          case 0 => step := if q == 1 then 1 else if q == 3 then -1 else 0;
          case 1 => step := if q == 2 then 1 else if q == 0 then -1 else 0;
          case 2 => step := if q == 3 then 1 else if q == 1 then -1 else 0;
          case _ => step := if q == 0 then 1 else if q == 2 then -1 else 0;
        }
        rotaryCount := rotaryCount + step;
        curState := At(q);
      }
      curAction := Nowhere;
    }

    /** `rotaryEventProc`. */
    method EventProc(tick: nat)
      modifies this`rotaryCount, this`lastResetCountTick, this`reports, this`dropped
      ensures var o := Events(old(Value()), setup, tick);
              Value() == o.knob && reports == old(reports) + o.reports && dropped == old(dropped) + o.dropped
    {
      if setup.hasTick {
        if Since(tick, lastResetCountTick) < setup.resetDelay {
          return;
        }
        if rotaryCount != 0 {
          lastResetCountTick := tick;
        }
      } else if 0 < setup.resetDelay {
        return;
      }
      if setup.callback && rotaryCount != 0 {
        reports := reports + [Report(curPressedKeyOn, rotaryCount)];
      } else {
        dropped := dropped + rotaryCount;
      }
      rotaryCount := 0;
    }

    /** `myRotaryKeyLoop`: one more pass of the run. */
    method Loop(i: Input)
      requires Valid()
      modifies this
      ensures Valid() && inputs == old(inputs) + [i] && setup == old(setup)
    {
      hide Read, Machine, Events;
      RunThen(setup, inputs, i);
      ghost var k := Value();
      SwitchRead(i);
      ghost var a := Value();
      if curState == Nowhere {
        InitProcess();
      } else {
        StatusProcess();
      }
      EventProc(i.eventTick);
      inputs := inputs + [i];
      NoReports(k, setup, i, a);
      var events := Events(Machine(a).knob, setup, i.eventTick).reports;
      assert [] + [] + events == events;
    }
  }

  lemma RunThen(s: Setup, inputs: seq<Input>, i: Input)
    ensures var o := Run(s, inputs);
            var o' := Pass(o.knob, s, i);
            Run(s, inputs + [i]) == Outcome(o'.knob, o.reports + o'.reports, o.dropped + o'.dropped)
  {
    hide Pass;
    assert (inputs + [i])[..|inputs|] == inputs;
  }
}
