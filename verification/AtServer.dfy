/** The server object of ln_at_server.c: the two threads as procedures over the shared buffer. */
module AtServer {
  import opened AtLine
  import opened Words

  /** How many steps of `ln_at_preparser` are left at most. */
  function StepsLeft(pre: Pre): nat {
    match pre
    case Ready => 0
    case Dropping => 1
    case Tail => 2
    case Notifying => 3
    case Checking(_) => 4
    case Editing(_) => 5
  }

  /** The character thread runs to the end of the character it is at. */
  function Settled(s: Server): (s': Server)
    requires Safe(s)
    ensures Safe(s') && s'.pre == Ready
    decreases StepsLeft(s.pre)
  {
    if s.pre == Ready then s else Settled(PreMove(s, 0))
  }

  /** A whole call of `ln_at_preparser`, undisturbed by the parser task. */
  function Arrived(s: Server, ch: Byte): Server
    requires Safe(s)
  {
    Settled(PreMove(s, ch))
  }

  /** One round of the parser task on a released semaphore. */
  function Served(s: Server, left: Buffer): Server
    requires Safe(s)
  {
    TaskMove(TaskMove(TaskMove(TaskMove(TaskMove(s, left), left), left), left), left)
  }

  /** The overflow check. */
  function Overflowed(s: Server): Server {
    if s.index >= LINE_SIZE then Emptied(s) else s
  }

  lemma ReadySettles(s: Server)
    requires Safe(s) && s.pre == Ready
    ensures Settled(s) == s
  {}

  lemma SettledStep(s: Server)
    requires Safe(s) && s.pre != Ready
    ensures Settled(s) == Settled(PreMove(s, 0))
  {
    hide PreMove, Safe;
  }

  lemma TailSettles(s: Server)
    requires Safe(s) && s.pre == Tail
    ensures Settled(s) == Overflowed(s.(pre := Ready))
  {
    hide Settled, HasCrLf, EditMove;
    SettledStep(s);
    var s1 := PreMove(s, 0);
    if s.index >= LINE_SIZE {
      SettledStep(s1);
      ReadySettles(PreMove(s1, 0));
    } else {
      ReadySettles(s1);
    }
  }

  lemma CheckSettles(s: Server, ch: Byte)
    requires Safe(s) && s.pre == Checking(ch)
    ensures var t := s.(accepted := s.accepted + [ch], pre := Ready);
            Settled(s) == Overflowed(if s.index > 2 && HasCrLf(s.buff[..s.index]) then t.(busy := true, sem := s.sem + 1) else t)
  {
    hide Settled, HasCrLf, EditMove;
    SettledStep(s);
    var s1 := PreMove(s, 0);
    if s1.pre == Notifying {
      SettledStep(s1);
      TailSettles(PreMove(s1, 0));
    } else {
      TailSettles(s1);
    }
  }

  lemma BusyArrives(s: Server, ch: Byte)
    requires Safe(s) && s.pre == Ready && s.busy
    ensures Arrived(s, ch) == s
  {}

  /** A whole call on an idle server, branch by branch. */
  lemma ArrivedIs(s: Server, ch: Byte)
    requires Safe(s) && s.pre == Ready && !s.busy
    ensures var t := s.(accepted := s.accepted + [ch]);
            var more := t.(buff := t.buff[t.index := ch], index := t.index + 1);
            Arrived(s, ch) ==
            if Stored(ch) then Overflowed(more)
            else if ch == ESC then Emptied(t)
            else if ch == BACKSPACE || ch == DELETE then
              if t.index > 0 then t.(buff := t.buff[t.index - 1 := 0], index := t.index - 1) else t
            else if IsEnd(ch) then
              Overflowed(if more.index > 2 && HasCrLf(more.buff[..more.index]) then more.(busy := true, sem := s.sem + 1) else more)
            else t
  {
    hide HasCrLf, Settled;
    var s1 := PreMove(s, ch);
    SettledStep(s1);
    var s2 := PreMove(s1, 0);
    match s2.pre {
      case Ready => ReadySettles(s2);
      case Tail => TailSettles(s2);
      case Checking(c) => CheckSettles(s2, ch);
    }
  }

  /** What the two procedures do is a run of the two threads. */
  lemma {:induction false} SettledIsRun(moves: seq<Move>) returns (all: seq<Move>)
    ensures Run(all) == Settled(Run(moves))
    decreases StepsLeft(Run(moves).pre)
  {
    if Run(moves).pre == Ready {
      all := moves;
    } else {
      RunThen(moves, Char(0));
      all := SettledIsRun(moves + [Char(0)]);
    }
  }

  lemma ArrivedIsRun(moves: seq<Move>, ch: Byte) returns (all: seq<Move>)
    ensures Run(all) == Arrived(Run(moves), ch)
  {
    RunThen(moves, Char(ch));
    all := SettledIsRun(moves + [Char(ch)]);
  }

  lemma ServedIsRun(moves: seq<Move>, left: Buffer) returns (all: seq<Move>)
    ensures Run(all) == Served(Run(moves), left)
  {
    var p := Parser(left);
    all := moves + [p] + [p] + [p] + [p] + [p];
    hide Run, TaskMove;
    RunThen(moves, p);
    RunThen(moves + [p], p);
    RunThen(moves + [p] + [p], p);
    RunThen(moves + [p] + [p] + [p], p);
    RunThen(moves + [p] + [p] + [p] + [p], p);
  }

  class AtServer {
    const inBuff: array<Byte>
    var index: nat
    var busy: bool
    var sem: nat
    ghost var accepted: seq<Byte>
    ghost var parsed: seq<seq<Byte>>

    ghost predicate Valid()
      reads this, inBuff
    {
      && Safe(View())
      && (forall k :: 0 <= k < index ==> inBuff[k] != 0)
      && (forall k :: index <= k < LINE_SIZE ==> inBuff[k] == 0)
    }

    /** The shared variables, with both threads between two rounds. */
    ghost function View(): Server
      reads this, inBuff
    {
      Server(inBuff[..], index, busy, sem, Ready, Waiting, accepted, parsed)
    }

    constructor ()
      ensures Valid() && View() == START && fresh(inBuff)
    {
      inBuff := new Byte[LINE_SIZE](_ => 0);
      index, busy, sem := 0, false, 0;
      accepted, parsed := [], [];
      new;
      assert inBuff[..] == Zeros(LINE_SIZE);
    }

    /** `strstr` for CR LF: it stops at the first zero. */
    method FindEndMark() returns (found: bool)
      requires inBuff.Length == LINE_SIZE && index <= LINE_SIZE
      requires forall k :: 0 <= k < index ==> inBuff[k] != 0
      requires forall k :: index <= k < LINE_SIZE ==> inBuff[k] == 0
      ensures found == HasCrLf(inBuff[..index])
    {
      var i := 0;
      while i < LINE_SIZE && inBuff[i] != 0
        invariant 0 <= i <= index
        invariant forall k :: 0 <= k < i && k < index - 1 ==> !CrLfAt(inBuff[..index], k)
      {
        if inBuff[i] == CR && i + 1 < LINE_SIZE && inBuff[i + 1] == LF {
          assert CrLfAt(inBuff[..index], i);
          return true;
        }
        i := i + 1;
      }
      return false;
    }

    /** `LN_AT_RESET_PARSER_ENV`. */
    method ResetParserEnv()
      requires inBuff.Length == LINE_SIZE
      modifies this`index, inBuff
      ensures index == 0 && inBuff[..] == Zeros(LINE_SIZE)
    {
      index := 0;
      for i := 0 to LINE_SIZE
        invariant forall k :: 0 <= k < i ==> inBuff[k] == 0
        modifies inBuff
      {
        inBuff[i] := 0;
      }
    }

    method Append(ch: Byte)
      requires inBuff.Length == LINE_SIZE && index < LINE_SIZE && ch != 0
      requires forall k :: 0 <= k < index ==> inBuff[k] != 0
      requires forall k :: index <= k < LINE_SIZE ==> inBuff[k] == 0
      modifies this`index, inBuff
      ensures index == old(index) + 1 && inBuff[..] == old(inBuff[..])[old(index) := ch]
      ensures forall k :: 0 <= k < index ==> inBuff[k] != 0
      ensures forall k :: index <= k < LINE_SIZE ==> inBuff[k] == 0
    {
      inBuff[index] := ch;
      index := index + 1;
    }

    /** The overflow check at the end of `ln_at_preparser`. */
    method CheckOverflow()
      requires inBuff.Length == LINE_SIZE && index <= LINE_SIZE
      modifies this`index, inBuff
      ensures if old(index) >= LINE_SIZE then index == 0 && inBuff[..] == Zeros(LINE_SIZE)
              else index == old(index) && inBuff[..] == old(inBuff[..])
    {
      if index >= LINE_SIZE {
        ResetParserEnv();
      }
    }

    /** `ln_at_preparser`; the echo to the terminal is left out. */
    method Preparser(ch: Byte)
      requires Valid()
      modifies this, inBuff
      ensures Valid() && View() == Arrived(old(View()), ch)
    {
      hide HasCrLf, Settled, Arrived, PreMove;
      ghost var s := View();
      if busy {
        BusyArrives(s, ch);
        return;
      }
      ArrivedIs(s, ch);
      accepted := accepted + [ch];
      if IsPrint(ch) || ch >= 0x80 {
        Append(ch);
      } else if ch == ESC {
        ResetParserEnv();
        return;
      } else if ch == BACKSPACE || ch == DELETE {
        if index > 0 {
          index := index - 1;
          inBuff[index] := 0;
        }
        return;
      } else if ch == CR || ch == LF {
        Append(ch);
        if index > 2 {
          var found := FindEndMark();
          if found {
            busy := true;
            sem := sem + 1;
          }
        }
      }
      CheckOverflow();
    }

    /**
     One round of `ln_at_parser_task`; `line` is what `ln_at_cmd_parse` is given, and `left` is
     what parser and command leave in the buffer.
     */
    method Serve(left: Buffer) returns (line: seq<Byte>)
      requires Valid() && sem > 0
      modifies this, inBuff
      ensures Valid() && View() == Served(old(View()), left)
      ensures line == old(inBuff[..index]) && parsed == old(parsed) + [line]
    {
      sem := sem - 1;
      line := inBuff[..index];
      parsed := parsed + [line];
      Overwrite(left);
      ResetParserEnv();
      busy := false;
    }

    /** The writes of the parser and the command to the buffer. */
    method Overwrite(left: Buffer)
      requires inBuff.Length == LINE_SIZE
      modifies inBuff
      ensures inBuff[..] == left
    {
      for i := 0 to LINE_SIZE
        invariant forall k :: 0 <= k < i ==> inBuff[k] == left[k]
        modifies inBuff
      {
        inBuff[i] := left[i];
      }
    }
  }
}
