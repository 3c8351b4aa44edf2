/**
 The keyboard object of myKeyboard.c: registration of keys, the scan with its coupled
 debounce filter, and the loop that drives the event machine.
 */
module Keyboard {
  import opened Debounce
  import opened KeyEvents
  import opened Words

  const KEY_CNT_MAX: nat := 32

  // ---------- counting pressed keys ----------

  function LowBit(v: bv32): nat { if v & 1 == 1 then 1 else 0 }

  function Half(v: bv32): bv32 { v >> 1 }

  function And(v: bv32, w: bv32): bv32 { v & w }

  function Minus1(v: bv32): bv32 { v - 1 }

  function ClearLowest(v: bv32): bv32 { And(v, Minus1(v)) }

  lemma BitCountUnfold(v: bv32)
    ensures BitCount(v) == LowBit(v) + BitCount(Half(v))
  {}

  lemma ClearLowestOdd(v: bv32)
    requires v & 1 == 1
    ensures LowBit(ClearLowest(v)) == 0 && Half(ClearLowest(v)) == Half(v)
  {
    assert v & (v - 1) == v ^ 1;
  }

  function Double(h: bv32): bv32 { h << 1 }

  function DoubleOne(h: bv32): bv32 { (h << 1) + 1 }

  lemma Minus1Double(h: bv32)
    ensures Minus1(Double(h)) == DoubleOne(Minus1(h))
  {}

  function DoubleOrOne(g: bv32): bv32 { (g << 1) | 1 }

  lemma DoubleOneIsOr(g: bv32)
    ensures DoubleOne(g) == DoubleOrOne(g)
  {}

  lemma AndDoubleOr(h: bv32, g: bv32)
    ensures And(Double(h), DoubleOrOne(g)) == Double(And(h, g))
  {}

  lemma AndDouble(h: bv32, g: bv32)
    ensures And(Double(h), DoubleOne(g)) == Double(And(h, g))
  {
    hide *;
    DoubleOneIsOr(g);
    AndDoubleOr(h, g);
  }

  lemma ClearLowestDouble(h: bv32)
    ensures ClearLowest(Double(h)) == Double(ClearLowest(h))
  {
    hide Double, DoubleOne, And, Minus1;
    Minus1Double(h);
    AndDouble(h, Minus1(h));
  }

  lemma DoubleParts(h: bv32)
    requires h < 0x8000_0000
    ensures LowBit(Double(h)) == 0 && Half(Double(h)) == h
  {}

  lemma ClearLowestSmall(h: bv32)
    requires h < 0x8000_0000
    ensures ClearLowest(h) < 0x8000_0000
  {}

  lemma HalfParts(v: bv32)
    requires v != 0
    ensures Half(v) < v && Half(v) < 0x8000_0000
    ensures LowBit(v) == 0 ==> Half(v) != 0 && v == Double(Half(v))
    ensures LowBit(v) != 0 ==> v & 1 == 1
  {}

  lemma ClearLowestParts(v: bv32)
    requires v != 0
    ensures LowBit(v) != 0 ==> LowBit(ClearLowest(v)) == 0 && Half(ClearLowest(v)) == Half(v) && LowBit(v) == 1
    ensures LowBit(v) == 0 ==> Half(v) != 0 && LowBit(ClearLowest(v)) == 0 && Half(ClearLowest(v)) == ClearLowest(Half(v))
    ensures Half(v) < v
  {
    assert LowBit(v) != 0 ==> LowBit(v) == 1;
    hide *;
    HalfParts(v);
    if LowBit(v) != 0 {
      ClearLowestOdd(v);
    } else {
      var h := Half(v);
      ClearLowestDouble(h);
      ClearLowestSmall(h);
      DoubleParts(ClearLowest(h));
    }
  }

  /** `v & (v - 1)` has one bit less. */
  lemma {:induction false} ClearLowestCounts(v: bv32)
    requires v != 0
    ensures BitCount(v) == BitCount(ClearLowest(v)) + 1
    decreases v
  {
    hide *;
    BitCountUnfold(v);
    BitCountUnfold(ClearLowest(v));
    ClearLowestParts(v);
    if LowBit(v) == 0 {
      ClearLowestCounts(Half(v));
    }
  }

  /** `myKeyboardGetKeyPressNum`. */
  method GetKeyPressNum(value: bv32) returns (cnt: nat)
    ensures cnt == BitCount(value)
  {
    hide ClearLowest;
    cnt := 0;
    var v := value;
    while v != 0
      invariant cnt + BitCount(v) == BitCount(value)
      decreases BitCount(v)
    {
      ClearLowestCounts(v);
      v := ClearLowest(v);
      cnt := cnt + 1;
    }
  }

  /** The mask of the keys whose accepted status is pressed. */
  function PressedMask(keys: seq<Key>): bv32 {
    if keys == [] then 0
    else
      var k := keys[|keys| - 1];
      if k.status != 0 then PressedMask(keys[..|keys| - 1]) | k.value else PressedMask(keys[..|keys| - 1])
  }

  /** Registered keys have one bit each, and no two the same. */
  ghost predicate DistinctKeys(keys: seq<Key>) {
    && (forall i :: 0 <= i < |keys| ==> BitCount(keys[i].value) == 1)
    && (forall i, j :: 0 <= i < j < |keys| ==> keys[i].value != keys[j].value)
  }

  ghost predicate HasKey(keys: seq<Key>, value: bv32) {
    exists i :: 0 <= i < |keys| && keys[i].value == value
  }

  /** `after` is `before` without the key at `pos`, whose value is `value`. */
  ghost predicate RemovedAt(before: seq<Key>, after: seq<Key>, pos: int, value: bv32) {
    && 0 <= pos < |before| && before[pos].value == value
    && after == Drop(before, pos)
  }

  lemma RemovalKeepsDistinct(before: seq<Key>, after: seq<Key>, pos: int, value: bv32)
    requires RemovedAt(before, after, pos, value) && DistinctKeys(before)
    ensures DistinctKeys(after)
  {
    hide BitCount;
  }

  class KeyboardLib {
    const key: array<Key>
    var keyNum: nat
    var param: Param
    var callbacks: Callbacks
    var keyValue: Mask
    var keyStatus: Phase
    var keyTaskInterval: nat
    var keyPressKeepTime: nat
    var keyPressCnt: nat
    var keyDoublePressDelay: nat
    var keyDoublePressValue: Mask
    var keyLongPressCnt: nat
    var lTick: nat
    /** The callbacks made so far. */
    ghost var trace: seq<Event>
    /** The passes that were due so far. */
    ghost var inputs: seq<Input>
    /** The registrations, removals and scans so far. */
    ghost var changes: seq<Change>

    ghost predicate Sized()
      reads this
    {
      key.Length == KEY_CNT_MAX && keyNum <= KEY_CNT_MAX
    }

    /** The keys are well formed; keys, control and trace are those of the run so far. */
    ghost predicate Valid()
      reads this, key
    {
      && Sized() && DistinctKeys(key[..keyNum])
      && key[..keyNum] == Replay(changes, param.filterCount).keys
      && Outcome(Control(), trace) == Run(param, callbacks, inputs)
    }

    ghost function Keys(): seq<Key>
      reads this, key
      requires Valid()
    {
      key[..keyNum]
    }

    ghost function Control(): Ctrl
      reads this
    {
      Ctrl(keyValue, keyStatus, keyPressKeepTime, keyPressCnt, keyDoublePressDelay, keyDoublePressValue, keyLongPressCnt)
    }

    /** `myKeyboardInit` on the zeroed static object. */
    constructor (param: Param, callbacks: Callbacks)
      ensures Valid() && Keys() == [] && Control() == START && trace == [] && inputs == [] && changes == [] && lTick == 0
      ensures this.param == param && this.callbacks == callbacks && fresh(key)
    {
      key := new Key[KEY_CNT_MAX](i => Key(0, 0, 0, 0));
      keyNum, lTick, keyTaskInterval := 0, 0, 0;
      this.param, this.callbacks := param, callbacks;
      keyValue, keyStatus, keyPressKeepTime, keyPressCnt := NONE, Idle, 0, 0;
      keyDoublePressDelay, keyDoublePressValue, keyLongPressCnt := 0, NONE, 0;
      trace, inputs, changes := [], [], [];
    }

    /** `myKeyboardFindKey`: the position of a key, or -1 for the source's error result. */
    method FindKey(value: bv32) returns (pos: int)
      requires Valid()
      ensures -1 <= pos < keyNum
      ensures pos >= 0 ==> key[pos].value == value
      ensures pos < 0 ==> forall i :: 0 <= i < keyNum ==> key[i].value != value
    {
      var i := 0;
      while i < keyNum
        invariant 0 <= i <= keyNum
        invariant forall j :: 0 <= j < i ==> key[j].value != value
      {
        if value == key[i].value {
          return i;
        }
        i := i + 1;
      }
      return -1;
    }

    /** `myKeyboardRegisterKeyByType`. */
    method RegisterKey(value: bv32) returns (res: int)
      requires Valid()
      modifies this`keyNum, this`changes, key
      ensures Valid()
      ensures res == if old(keyNum) >= KEY_CNT_MAX then -1
                     else if BitCount(value) != 1 then -2
                     else if HasKey(old(Keys()), value) then -3
                     else 0
      ensures Keys() == if res == 0 then old(Keys()) + [Key(value, 0, 0, 0)] else old(Keys())
      ensures changes == if res == 0 then old(changes) + [Register(value)] else old(changes)
    {
      hide BitCount, Run, Replay;
      if keyNum >= KEY_CNT_MAX {
        return -1;
      }
      var cnt := GetKeyPressNum(value);
      if cnt != 1 {
        return -2;
      }
      var pos := FindKey(value);
      if pos >= 0 {
        assert Keys()[pos].value == value;
        return -3;
      }
      key[keyNum] := Key(value, 0, 0, 0);
      keyNum := keyNum + 1;
      ReplayStep(changes, Register(value), param.filterCount);
      changes := changes + [Register(value)];
      return 0;
    }

    /** `myKeyboardUnRegisterKey`: the later keys move up. `at` is where the key was. */
    method UnRegisterKey(value: bv32) returns (res: int, ghost at: int)
      requires Valid()
      modifies this`keyNum, this`changes, key
      ensures Valid()
      ensures res == if HasKey(old(Keys()), value) then 0 else -1
      ensures res == -1 ==> Keys() == old(Keys())
      ensures res == 0 ==> RemovedAt(old(Keys()), Keys(), at, value) && changes == old(changes) + [Remove(at)]
      ensures res == -1 ==> changes == old(changes)
    {
      hide DistinctKeys, Run, Replay;
      var pos := FindKey(value);
      if pos < 0 {
        return -1, pos;
      }
      ghost var ks := Keys();
      assert ks[pos].value == value;
      MoveUp(key, pos, keyNum);
      keyNum := keyNum - 1;
      assert RemovedAt(ks, key[..keyNum], pos, value);
      ReplayStep(changes, Remove(pos), param.filterCount);
      changes := changes + [Remove(pos)];
      RemovalKeepsDistinct(ks, key[..keyNum], pos, value);
      return 0, pos;
    }

    /** `myKeyboardFilterReset`. */
    method FilterReset()
      requires Sized()
      modifies key
      ensures forall j :: 0 <= j < keyNum ==> key[j] == old(key[j]).(filter := param.filterCount)
    {
      for i := 0 to keyNum
        invariant forall j :: 0 <= j < i ==> key[j] == old(key[j]).(filter := param.filterCount)
        invariant forall j :: i <= j < keyNum ==> key[j] == old(key[j])
      {
        key[i] := key[i].(filter := param.filterCount);
      }
    }

    /** The three branches of `myKeyboardRead` for key `i`. */
    method ReadKey(i: nat, keyStatus: nat)
      requires Sized() && i < keyNum
      modifies key
      ensures key[i] == Process(old(key[i]), keyStatus, param.filterCount)
      ensures forall j :: 0 <= j < keyNum && j != i ==>
                key[j] == Restarted(old(key[j]), Restarts(old(key[i]), keyStatus), param.filterCount)
      ensures forall j :: 0 <= j < keyNum && j != i ==>
                key[j] == (if keyStatus != old(key[i].status) && keyStatus != old(key[i].tmp)
                           then old(key[j]).(filter := param.filterCount) else old(key[j]))
    {
      if keyStatus == key[i].status {
        key[i] := key[i].(filter := 0, tmp := key[i].status);
      } else if keyStatus != key[i].tmp {
        FilterReset();
        key[i] := key[i].(filter := param.filterCount, tmp := keyStatus);
      } else {
        key[i] := key[i].(filter := if key[i].filter > 0 then key[i].filter - 1 else 0);
        if key[i].filter == 0 {
          key[i] := key[i].(status := keyStatus);
        }
      }
    }

    /** `myKeyboardRead`: one scan of all keys. `raw` is what each key reads. */
    method Read(raw: seq<nat>) returns (pressed: bv32)
      requires Valid() && |raw| == keyNum
      modifies this`changes, key
      ensures changes == old(changes) + [ScanOf(raw)]
      ensures Valid() && Keys() == Scan(old(Keys()), raw, param.filterCount)
      ensures pressed == PressedMask(Keys())
    {
      hide DistinctKeys, Replay, KeysAfter, Process, Restarts, Restarted;
      ghost var ks, count := Keys(), param.filterCount;
      NothingProcessed(ks, raw, count);
      for i := 0 to keyNum
        invariant key[..keyNum] == KeysAfter(ks, raw, count, i) && DistinctKeys(key[..keyNum])
        modifies key
      {
        ghost var before := key[..keyNum];
        ReadKey(i, raw[i]);
        OneMoreProcessed(ks, raw, count, i, before, key[..keyNum]);
        ProcessingKeepsValues(ks, raw, count, i + 1);
      }
      ReplayStep(changes, ScanOf(raw), count);
      changes := changes + [ScanOf(raw)];
      pressed := Collect(key, keyNum);
    }

    /** The double-press window at the start of the event part of `myKeyboardLoop`. */
    method DoublePressWindow(cur: Mask)
      modifies this
      ensures var o := Expire(old(Control()), param, callbacks, keyTaskInterval, cur);
              Control() == o.ctrl && trace == old(trace) + o.events
      ensures Fixed()
    {
      if keyDoublePressValue != NONE {
        keyDoublePressDelay := Plus(keyDoublePressDelay, keyTaskInterval);
        if keyDoublePressDelay >= param.doubleInterval {
          if cur == NONE && keyPressCnt == 1 {
            trace := trace + Report(callbacks.shortRelease, ShortRelease(keyDoublePressValue, keyPressCnt));
            keyPressCnt := 0;
          }
          keyDoublePressValue := NONE;
          keyDoublePressDelay := 0;
        }
      }
    }

    /** The fields that the event part never touches. */
    twostate predicate Fixed()
      reads this
    {
      && keyNum == old(keyNum) && param == old(param) && callbacks == old(callbacks)
      && lTick == old(lTick) && keyTaskInterval == old(keyTaskInterval) && inputs == old(inputs) && changes == old(changes)
    }

    /** The shared part of the two branches in which more or other keys are pressed. */
    method KeysChanged(cur: Mask)
      modifies this
      ensures var o := Changed(old(Control()), callbacks, cur);
              Control() == o.ctrl && trace == old(trace) + o.events
      ensures Fixed()
    {
      hide BitCount;
      var now := GetKeyPressNum(cur.bits);
      var was := GetKeyPressNum(keyValue.bits);
      if now > was {
        if keyDoublePressValue != keyValue {
          keyPressCnt := 1;
          keyDoublePressDelay := 0;
          keyDoublePressValue := keyValue;
        } else {
          keyPressCnt := Plus(keyPressCnt, 1);
        }
        trace := trace + Report(callbacks.shortPress, ShortPress(cur, keyPressCnt));
      }
      keyValue := cur;
      keyStatus := ShortPressed;
      keyPressKeepTime := 0;
    }

    /** `KEY_STATUS_IDLE` of the status machine. */
    method WhileIdle(cur: Mask)
      modifies this
      ensures var o := FromIdle(old(Control()), callbacks, cur);
              Control() == o.ctrl && trace == old(trace) + o.events
      ensures Fixed()
    {
      if cur != NONE {
        keyValue := cur;
        keyStatus := ShortPressed;
        keyPressKeepTime := 0;
        if keyDoublePressValue != keyValue {
          keyPressCnt := 1;
          keyDoublePressDelay := 0;
          keyDoublePressValue := keyValue;
        } else {
          keyPressCnt := Plus(keyPressCnt, 1);
        }
        trace := trace + Report(callbacks.shortPress, ShortPress(keyValue, keyPressCnt));
      }
    }

    /** `KEY_STATUS_SHORT_PRESS` of the status machine. */
    method WhileShortPressed(cur: Mask)
      modifies this
      ensures var o := FromShortPressed(old(Control()), param, callbacks, keyTaskInterval, cur);
              Control() == o.ctrl && trace == old(trace) + o.events
      ensures Fixed()
    {
      hide PressNum, Changed;
      if cur == NONE {
        if keyPressCnt > 1 || (keyDoublePressValue == NONE && keyPressCnt != 0) {
          trace := trace + Report(callbacks.shortRelease, ShortRelease(keyValue, keyPressCnt));
        }
        keyValue := cur;
        keyStatus := ShortReleased;
        keyPressKeepTime := 0;
      } else if cur == keyValue {
        keyPressKeepTime := Plus(keyPressKeepTime, keyTaskInterval);
        if keyPressKeepTime > param.longKeepTime {
          keyPressKeepTime := 0;
          keyStatus := LongPressed;
          keyLongPressCnt := 0;
          trace := trace + Report(callbacks.longPress, LongPress(keyValue, 0));
        }
      } else {
        KeysChanged(cur);
      }
    }

    /** `KEY_STATUS_LONG_PRESS` of the status machine. */
    method WhileLongPressed(cur: Mask)
      modifies this
      ensures var o := FromLongPressed(old(Control()), param, callbacks, keyTaskInterval, cur);
              Control() == o.ctrl && trace == old(trace) + o.events
      ensures Fixed()
    {
      hide PressNum, Changed;
      if cur == NONE {
        trace := trace + Report(callbacks.longRelease, LongRelease(keyValue, keyLongPressCnt));
        keyValue := cur;
        keyStatus := LongReleased;
        keyPressKeepTime := 0;
      } else if cur == keyValue {
        keyPressKeepTime := Plus(keyPressKeepTime, keyTaskInterval);
        if keyPressKeepTime > param.longLoopTime {
          keyPressKeepTime := 0;
          if callbacks.longPress {
            keyLongPressCnt := Plus(keyLongPressCnt, 1);
            trace := trace + [LongPress(keyValue, keyLongPressCnt)];
          }
        }
      } else {
        KeysChanged(cur);
      }
    }

    /** `myKeyboardStatusMachine`. */
    method StatusMachine(cur: Mask)
      modifies this
      ensures var o := Machine(old(Control()), param, callbacks, keyTaskInterval, cur);
              Control() == o.ctrl && trace == old(trace) + o.events
      ensures Fixed()
    {
      hide FromIdle, FromShortPressed, FromLongPressed;
      match keyStatus {
        case Idle => WhileIdle(cur);
        case ShortPressed => WhileShortPressed(cur);
        case LongPressed => WhileLongPressed(cur);
        case ShortReleased => keyStatus := Idle;
        case LongReleased => keyStatus := Idle;
      }
    }

    /**
     `myKeyboardLoop`: nothing until the check interval has passed; then one scan and one pass
     of the event machine. `tick` is the millisecond clock, if there is one.
     */
    method Loop(tick: nat, hasClock: bool, raw: seq<nat>) returns (ran: bool)
      requires Valid() && |raw| == keyNum && tick < WORD
      modifies this, key
      ensures Valid()
      ensures ran <==> !hasClock || (tick - old(lTick)) % WORD >= param.checkInterval
      ensures !ran ==> Keys() == old(Keys()) && Control() == old(Control()) && trace == old(trace) && lTick == old(lTick) && inputs == old(inputs) && changes == old(changes)
      ensures ran ==>
                && Keys() == Scan(old(Keys()), raw, param.filterCount) && changes == old(changes) + [ScanOf(raw)]
                && lTick == (if hasClock then tick else old(lTick))
                && var interval := if hasClock then (tick - old(lTick)) % WORD else param.checkInterval;
                   inputs == old(inputs) + [Input(interval, Mask(PressedMask(Keys())))]
      ensures param == old(param) && callbacks == old(callbacks) && keyNum == old(keyNum)
    {
      hide DistinctKeys, Scan, Replay, PressedMask, Expire, Machine, Run;
      if hasClock {
        if (tick - lTick) % WORD < param.checkInterval {
          return false;
        }
        keyTaskInterval := (tick - lTick) % WORD;
        lTick := tick;
      } else {
        keyTaskInterval := param.checkInterval;
      }
      var pressed := Read(raw);
      DoublePressWindow(Mask(pressed));
      StatusMachine(Mask(pressed));
      RunStep(param, callbacks, inputs, Input(keyTaskInterval, Mask(pressed)));
      inputs := inputs + [Input(keyTaskInterval, Mask(pressed))];
      return true;
    }
  }

  lemma ReplayStep(changes: seq<Change>, c: Change, count: nat)
    ensures Replay(changes + [c], count) == Apply(Replay(changes, count), c, count)
  {
    hide Apply;
    assert (changes + [c])[..|changes|] == changes;
  }

  lemma RunStep(p: Param, cb: Callbacks, inputs: seq<Input>, input: Input)
    ensures var o := Run(p, cb, inputs);
            var o' := Pass(o.ctrl, p, cb, input);
            Run(p, cb, inputs + [input]) == Outcome(o'.ctrl, o.events + o'.events)
  {
    hide Pass;
    assert (inputs + [input])[..|inputs|] == inputs;
  }

  /** The last loop of `myKeyboardRead`. */
  method Collect(key: array<Key>, num: nat) returns (pressed: bv32)
    requires num <= key.Length
    ensures pressed == PressedMask(key[..num])
  {
    hide PressedMask;
    pressed := 0;
    EmptyMask();
    for i := 0 to num
      invariant pressed == PressedMask(key[..i])
    {
      MaskStep(key[..i + 1]);
      assert key[..i + 1][..i] == key[..i];
      if key[i].status != 0 {
        pressed := pressed | key[i].value;
      }
    }
  }

  /** The loop that closes the gap at `pos`. */
  method MoveUp(key: array<Key>, pos: nat, num: nat)
    requires pos < num <= key.Length
    modifies key
    ensures key[..num - 1] == old(key[..num])[..pos] + old(key[..num])[pos + 1..]
  {
    ghost var was := key[..num];
    var i := pos;
    while i < num - 1
      invariant pos <= i <= num - 1
      invariant forall j :: 0 <= j < pos ==> key[j] == was[j]
      invariant forall j :: pos < j <= i ==> key[j - 1] == was[j]
      invariant forall j :: i < j < num ==> key[j] == was[j]
    {
      key[i] := key[i + 1];
      i := i + 1;
    }
    GapClosed(was, key[..num - 1], pos);
  }

  lemma GapClosed(was: seq<Key>, now: seq<Key>, pos: nat)
    requires pos < |was| == |now| + 1
    requires forall j :: 0 <= j < pos ==> now[j] == was[j]
    requires forall j :: pos < j < |was| ==> now[j - 1] == was[j]
    ensures now == was[..pos] + was[pos + 1..]
  {
    forall j | 0 <= j < |now|
      ensures now[j] == (was[..pos] + was[pos + 1..])[j]
    {
      if j >= pos {
        assert now[(j + 1) - 1] == was[j + 1];
      }
    }
  }

  lemma ProcessingKeepsValues(keys: seq<Key>, raw: seq<nat>, count: nat, m: nat)
    requires m <= |keys| == |raw| && DistinctKeys(keys)
    ensures DistinctKeys(KeysAfter(keys, raw, count, m))
  {
    hide AnyRestart, BitCount;
    var after := KeysAfter(keys, raw, count, m);
    assert forall i :: 0 <= i < |keys| ==> after[i].value == keys[i].value;
  }

  lemma EmptyMask()
    ensures PressedMask([]) == 0
  {}

  lemma MaskStep(keys: seq<Key>)
    requires keys != []
    ensures var k, rest := keys[|keys| - 1], PressedMask(keys[..|keys| - 1]);
            PressedMask(keys) == if k.status != 0 then rest | k.value else rest
  {}

  lemma NothingProcessed(keys: seq<Key>, raw: seq<nat>, count: nat)
    requires |keys| == |raw|
    ensures KeysAfter(keys, raw, count, 0) == keys
  {}

  /** One iteration of the scan loop advances the closed form by one key. */
  lemma OneMoreProcessed(keys: seq<Key>, raw: seq<nat>, count: nat, i: nat, before: seq<Key>, after: seq<Key>)
    requires i < |keys| == |raw| && before == KeysAfter(keys, raw, count, i) && |after| == |keys|
    requires after[i] == Process(before[i], raw[i], count)
    requires forall j :: 0 <= j < |keys| && j != i ==>
               after[j] == Restarted(before[j], Restarts(before[i], raw[i]), count)
    ensures after == KeysAfter(keys, raw, count, i + 1)
  {
    forall j | 0 <= j < |keys|
      ensures after[j] == KeyAfter(keys, raw, count, i + 1, j)
    {
      assert Restarts(before[i], raw[i]) == Restarts(keys[i], raw[i]);
      if j < i {
        AnyRestartStep(keys, raw, j + 1, i);
      } else if j > i {
        AnyRestartStep(keys, raw, 0, i);
      } else {
        assert !AnyRestart(keys, raw, i + 1, i + 1);
      }
    }
  }

  lemma AnyRestartStep(keys: seq<Key>, raw: seq<nat>, lo: nat, hi: nat)
    requires lo <= hi < |keys| == |raw|
    ensures AnyRestart(keys, raw, lo, hi + 1) <==> AnyRestart(keys, raw, lo, hi) || Restarts(keys[hi], raw[hi])
  {}
}
