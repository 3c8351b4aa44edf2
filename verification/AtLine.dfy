/**
 The AT command line of ln_at_server.c: characters arrive in one thread (`ln_at_preparser`)
 and complete lines are handled in another (`ln_at_parser_task`). The two share the buffer,
 its index, the status and a semaphore. Every interleaving of their steps is a run.
 */
module AtLine {
  import opened Words

  const LINE_SIZE: nat := 512
  const CR: nat := 13
  const LF: nat := 10
  const ESC: nat := 0x1B
  const BACKSPACE: nat := 0x08
  const DELETE: nat := 0x7F

  predicate IsPrint(ch: Byte) { 0x20 <= ch <= 0x7E }

  /** Characters that are stored: printable ones and those of other encodings. */
  predicate Stored(ch: Byte) { IsPrint(ch) || ch >= 0x80 }

  predicate IsEnd(ch: Byte) { ch == CR || ch == LF }

  // ---------- the line editor, one character after the other ----------

  /** The line so far, and the lines completed before. */
  datatype Editor = Editor(line: seq<Byte>, lines: seq<seq<Byte>>)

  const FRESH: Editor := Editor([], [])

  predicate HasCrLf(s: seq<Byte>) {
    exists k :: 0 <= k < |s| - 1 && CrLfAt(s, k)
  }

  predicate CrLfAt(s: seq<Byte>, k: nat)
    requires k < |s| - 1
  {
    s[k] == CR && s[k + 1] == LF
  }

  predicate Complete(s: seq<Byte>) { |s| > 2 && HasCrLf(s) }

  /** A line that fills the buffer is dropped. */
  function Kept(s: seq<Byte>): seq<Byte> {
    if |s| >= LINE_SIZE then [] else s
  }

  function Type(e: Editor, ch: Byte): Editor {
    if Stored(ch) then e.(line := Kept(e.line + [ch]))
    else if ch == ESC then e.(line := [])
    else if ch == BACKSPACE || ch == DELETE then e.(line := if e.line == [] then [] else e.line[..|e.line| - 1])
    else if IsEnd(ch) then
      var s := e.line + [ch];
      if Complete(s) then Editor([], e.lines + [s]) else e.(line := Kept(s))
    else e
  }

  function Typed(chars: seq<Byte>): Editor {
    if chars == [] then FRESH else Type(Typed(chars[..|chars| - 1]), chars[|chars| - 1])
  }

  // ---------- the two threads ----------

  /** Where the character thread is inside `ln_at_preparser`. */
  datatype Pre = Ready | Editing(ch: Byte) | Checking(ch: Byte) | Notifying | Tail | Dropping

  /** Where the parser task is in its loop. */
  datatype Task = Waiting | Parsing | Doing | Resetting | Clearing

  /** The shared variables, the positions of the threads, and what was accepted and parsed so far. */
  datatype Server = Server(buff: seq<Byte>, index: nat, busy: bool, sem: nat, pre: Pre, task: Task,
                           accepted: seq<Byte>, parsed: seq<seq<Byte>>)

  function Zeros(n: nat): (z: seq<Byte>)
    ensures |z| == n
  {
    seq(n, _ => 0)
  }

  type Buffer = b: seq<Byte> | |b| == LINE_SIZE witness Zeros(LINE_SIZE)

  /** A buffer that holds `s` and zeros. */
  function Pad(s: seq<Byte>): (b: seq<Byte>)
    requires |s| <= LINE_SIZE
    ensures |b| == LINE_SIZE
  {
    s + Zeros(LINE_SIZE - |s|)
  }

  const START: Server := Server(Zeros(LINE_SIZE), 0, false, 0, Ready, Waiting, [], [])

  function Count(b: bool): nat { if b then 1 else 0 }

  /**
   The handshake: while the server is busy, exactly one of a pending release, the semaphore and
   the parser task holds the line; while it is idle, none does, and there is room in the buffer
   for a character that is let in.
   */
  predicate Safe(s: Server) {
    && |s.buff| == LINE_SIZE && s.index <= LINE_SIZE
    && s.sem + Count(s.task != Waiting) + Count(s.pre == Notifying) == Count(s.busy)
    && (s.pre.Editing? || s.pre.Checking? ==> !s.busy)
    && (s.pre.Editing? || (s.pre.Ready? && !s.busy) ==> s.index < LINE_SIZE)
    && (s.task == Clearing ==> s.index == 0)
  }

  function Emptied(s: Server): Server {
    s.(buff := Zeros(LINE_SIZE), index := 0)
  }

  /** The status has been read as idle: the branch for the character. */
  function EditMove(s: Server, ch: Byte): Server
    requires |s.buff| == LINE_SIZE && s.index < LINE_SIZE
  {
    var accepted := s.accepted + [ch];
    if Stored(ch) then
      s.(buff := s.buff[s.index := ch], index := s.index + 1, accepted := accepted, pre := Tail)
    else if ch == ESC then
      Emptied(s).(accepted := accepted, pre := Ready)
    else if ch == BACKSPACE || ch == DELETE then
      if s.index > 0 then s.(index := s.index - 1, buff := s.buff[s.index - 1 := 0], accepted := accepted, pre := Ready)
      else s.(accepted := accepted, pre := Ready)
    else if IsEnd(ch) then
      s.(buff := s.buff[s.index := ch], index := s.index + 1, pre := Checking(ch))
    else
      s.(accepted := accepted, pre := Tail)
  }

  /** The next step of the character thread; `ch` is the character that arrives if it is ready for one. */
  function PreMove(s: Server, ch: Byte): Server
    requires Safe(s)
  {
    match s.pre
    case Ready => if s.busy then s else s.(pre := Editing(ch))
    case Editing(c) => EditMove(s, c)
    case Checking(c) =>
      if s.index > 2 && HasCrLf(s.buff[..s.index]) then s.(busy := true, accepted := s.accepted + [c], pre := Notifying)
      else s.(accepted := s.accepted + [c], pre := Tail)
    case Notifying => s.(sem := s.sem + 1, pre := Tail)
    case Tail => s.(pre := if s.index >= LINE_SIZE then Dropping else Ready)
    case Dropping => Emptied(s).(pre := Ready)
  }

  /**
   The next step of the parser task. `ln_at_cmd_parse` and the command it finds may write to the
   buffer while they run; `left` is what they leave there.
   */
  function TaskMove(s: Server, left: Buffer): Server
    requires Safe(s)
  {
    match s.task
    case Waiting => if s.sem > 0 then s.(sem := s.sem - 1, task := Parsing) else s
    case Parsing => s.(parsed := s.parsed + [s.buff[..s.index]], buff := left, task := Doing)
    case Doing => s.(buff := left, task := Resetting)
    case Resetting => Emptied(s).(task := Clearing)
    case Clearing => s.(busy := false, task := Waiting)
  }

  /** Who moves next. */
  datatype Move = Char(ch: Byte) | Parser(left: Buffer)

  /** Every step of either thread keeps the handshake. */
  function Next(s: Server, m: Move): (s': Server)
    requires Safe(s)
    ensures Safe(s')
  {
    match m
    case Char(ch) => PreMove(s, ch)
    case Parser(left) => TaskMove(s, left)
  }

  /** All steps, oldest first, in whatever order the threads are scheduled. */
  function Run(moves: seq<Move>): (s: Server)
    ensures Safe(s)
  {
    if moves == [] then START else Next(Run(moves[..|moves| - 1]), moves[|moves| - 1])
  }

  // ---------- what the parser gets ----------

  /** A completed line that has not been handed to the parser yet. */
  predicate Pending(s: Server) { s.sem > 0 || s.task == Parsing || s.pre == Notifying }

  /** The parse call has begun and the reset is still to come: the buffer is the parser's. */
  predicate ParserOwns(s: Server) { s.task == Doing || s.task == Resetting }

  predicate Holds(s: Server, line: seq<Byte>) {
    |line| < LINE_SIZE && s.buff == Pad(line) && s.index == |line|
  }

  /** The buffer of an idle server is the line of the editor; the last character may be under way. */
  predicate IdleBuffer(s: Server) {
    var line := Typed(s.accepted).line;
    match s.pre
    case Ready => Holds(s, line)
    case Editing(_) => Holds(s, line)
    case Checking(ch) => |line| < LINE_SIZE && s.buff == Pad(line + [ch]) && s.index == |line| + 1 && IsEnd(ch)
    case Notifying => true
    case Tail => Holds(s, line) || (s.index == LINE_SIZE && line == [])
    case Dropping => line == []
  }

  /** Lines that do not fill the buffer are handed over as they were typed. */
  ghost predicate Delivered(s: Server) {
    var lines := Typed(s.accepted).lines;
    && |lines| == |s.parsed| + Count(Pending(s))
    && (forall k :: 0 <= k < |s.parsed| && |lines[k]| < LINE_SIZE ==> s.parsed[k] == lines[k])
    && (s.busy ==> lines != [] && (|lines[|lines| - 1]| < LINE_SIZE ==> s.index < LINE_SIZE && s.pre != Dropping))
    && (Pending(s) ==> lines != [] && (|lines[|lines| - 1]| < LINE_SIZE ==> Holds(s, lines[|lines| - 1])))
  }

  /** Past the index there are only zeros. */
  ghost predicate ZeroPast(s: Server)
    requires |s.buff| == LINE_SIZE
  {
    forall k :: s.index <= k < LINE_SIZE ==> s.buff[k] == 0
  }

  ghost predicate Sound(s: Server) {
    && Safe(s) && Delivered(s) && (!ParserOwns(s) ==> ZeroPast(s))
    && (s.busy ==> Typed(s.accepted).line == [])
    && (!s.busy ==> IdleBuffer(s))
  }

  lemma PadAppend(line: seq<Byte>, ch: Byte)
    requires |line| < LINE_SIZE
    ensures Pad(line)[|line| := ch] == Pad(line + [ch])
  {}

  lemma PadBack(line: seq<Byte>)
    requires 0 < |line| <= LINE_SIZE
    ensures Pad(line)[|line| - 1 := 0] == Pad(line[..|line| - 1])
  {}

  lemma PadTake(line: seq<Byte>)
    requires |line| <= LINE_SIZE
    ensures Pad(line)[..|line|] == line
  {}

  lemma PadEmpty(buff: seq<Byte>)
    requires |buff| == LINE_SIZE && forall k :: 0 <= k < LINE_SIZE ==> buff[k] == 0
    ensures buff == Pad([])
  {}

  lemma ZerosEmpty()
    ensures Zeros(LINE_SIZE) == Pad([])
  {}

  lemma TypedStep(chars: seq<Byte>, ch: Byte)
    ensures Typed(chars + [ch]) == Type(Typed(chars), ch)
  {
    assert (chars + [ch])[..|chars|] == chars;
  }

  lemma EditingHolds(s: Server, ch: Byte)
    requires Sound(s) && s.pre == Editing(ch)
    ensures Holds(s, Typed(s.accepted).line) && !s.busy && !Pending(s) && ZeroPast(s)
  {
    hide Typed, Pad, Delivered;
  }

  /** The line and buffer after a character of a line that is not at its end. */
  lemma EditLine(s: Server, ch: Byte)
    requires Sound(s) && s.pre == Editing(ch)
    ensures var s', e := EditMove(s, ch), Type(Typed(s.accepted), ch);
            && ZeroPast(s') && s'.parsed == s.parsed && s'.busy == s.busy && s'.sem == s.sem && s'.task == s.task
            && (if s'.pre.Checking? then s'.accepted == s.accepted else s'.accepted == s.accepted + [ch] && e.lines == Typed(s.accepted).lines)
            && (s'.pre.Ready? ==> Holds(s', e.line))
            && (s'.pre.Checking? ==> IsEnd(ch) && s'.pre == Checking(ch) && s'.index == |Typed(s.accepted).line| + 1
                                     && s'.buff == Pad(Typed(s.accepted).line + [ch]))
            && (s'.pre.Tail? ==> Holds(s', e.line) || (s'.index == LINE_SIZE && e.line == []))
            && (s'.pre.Ready? || s'.pre.Checking? || s'.pre.Tail?)
  {
    EditingHolds(s, ch);
    hide Typed, Pad, Delivered, IdleBuffer, Safe;
    var line := Typed(s.accepted).line;
    PadAppend(line, ch);
    ZerosEmpty();
    if line != [] {
      PadBack(line);
    }
  }

  lemma EditSound(s: Server, ch: Byte)
    requires Sound(s) && s.pre == Editing(ch)
    ensures Sound(EditMove(s, ch))
  {
    EditingHolds(s, ch);
    EditLine(s, ch);
    TypedStep(s.accepted, ch);
    assert Safe(PreMove(s, ch));
    hide Typed, Pad, Type, EditMove, ZeroPast, HasCrLf;
  }

  lemma CheckSound(s: Server, ch: Byte)
    requires Sound(s) && s.pre == Checking(ch)
    ensures Sound(PreMove(s, ch))
  {
    assert Safe(PreMove(s, ch));
    var e := Typed(s.accepted);
    assert Holds(s, e.line + [ch]) || |e.line + [ch]| >= LINE_SIZE;
    PadTake(e.line + [ch]);
    TypedStep(s.accepted, ch);
    EndIsNotStored(ch);
    hide Typed, Pad, ZeroPast, HasCrLf, Stored, Safe, IsEnd;
  }

  lemma EndIsNotStored(ch: Byte)
    requires IsEnd(ch)
    ensures !Stored(ch) && ch != ESC && ch != BACKSPACE && ch != DELETE
  {}

  lemma PreSound(s: Server, ch: Byte)
    requires Sound(s)
    ensures Sound(PreMove(s, ch))
  {
    match s.pre {
      case Editing(c) => EditSound(s, c);
      case Checking(c) => CheckSound(s, c); CheckIgnoresArrival(s, c, ch);
      case Dropping => DropSound(s, ch);
      case _ => hide Typed, Pad, HasCrLf;
    }
  }

  lemma CheckIgnoresArrival(s: Server, c: Byte, ch: Byte)
    requires Safe(s) && s.pre == Checking(c)
    ensures PreMove(s, c) == PreMove(s, ch)
  {}

  lemma DropSound(s: Server, ch: Byte)
    requires Sound(s) && s.pre == Dropping
    ensures Sound(PreMove(s, ch))
  {
    ZerosEmpty();
    hide Typed, Pad, HasCrLf;
  }

  lemma TaskSound(s: Server, left: Buffer)
    requires Sound(s)
    ensures Sound(TaskMove(s, left))
  {
    assert Safe(TaskMove(s, left));
    match s.task {
      case Parsing =>
        var lines := Typed(s.accepted).lines;
        assert |lines| == |s.parsed| + 1;
        if |lines[|lines| - 1]| < LINE_SIZE {
          PadTake(lines[|lines| - 1]);
        }
        hide Typed, Pad, HasCrLf, Safe;
      case Clearing =>
        PadEmpty(s.buff);
        hide Typed, Pad, HasCrLf, Safe;
      case _ => hide Typed, Pad, HasCrLf, Safe;
    }
  }

  /** Every reachable state of every interleaving is sound. */
  lemma {:induction false} RunSound(moves: seq<Move>)
    ensures Sound(Run(moves))
  {
    hide Sound, PreMove, TaskMove;
    if moves == [] {
      StartSound();
    } else {
      RunSound(moves[..|moves| - 1]);
      var s := Run(moves[..|moves| - 1]);
      match moves[|moves| - 1] {
        case Char(ch) => PreSound(s, ch);
        case Parser(left) => TaskSound(s, left);
      }
    }
  }

  lemma StartSound()
    ensures Sound(START)
  {
    ZerosEmpty();
  }

  /**
   The handshake over every interleaving: the parser has been given the completed lines of the
   line editor, in order and each once, at most one of them still on its way; those shorter than
   the buffer are given exactly as typed. The semaphore is never above 1. Except while the
   parser is at work, the buffer is zero past the index.
   */
  lemma ParserGetsLines(moves: seq<Move>)
    ensures var s, lines := Run(moves), Typed(Run(moves).accepted).lines;
            && s.sem <= 1
            && |s.parsed| <= |lines| <= |s.parsed| + 1
            && (!s.busy ==> |lines| == |s.parsed|)
            && (forall k :: 0 <= k < |s.parsed| && |lines[k]| < LINE_SIZE ==> s.parsed[k] == lines[k])
            && (!ParserOwns(s) ==> forall k :: s.index <= k < LINE_SIZE ==> s.buff[k] == 0)
  {
    RunSound(moves);
    hide Typed, Run, IdleBuffer;
  }

  /**
   While the server is busy no character is let in, and unless the line fills the buffer no
   step of the character thread touches buffer or index.
   */
  lemma BusyFrozen(moves: seq<Move>, ch: Byte)
    requires Run(moves).busy
    ensures var s, s', lines := Run(moves), Run(moves + [Char(ch)]), Typed(Run(moves).accepted).lines;
            && lines != [] && s'.accepted == s.accepted && s'.busy
            && (|lines[|lines| - 1]| < LINE_SIZE ==> s'.buff == s.buff && s'.index == s.index)
  {
    RunSound(moves);
    RunThen(moves, Char(ch));
    hide Typed, Pad, Run, IdleBuffer, ZeroPast;
  }

  /**
   From its completion to the parse call, a line that does not fill the buffer stays there: no
   step of either thread but the parse call itself touches it.
   */
  lemma LineWaits(moves: seq<Move>, m: Move)
    requires Pending(Run(moves)) && !(m.Parser? && Run(moves).task == Parsing)
    ensures var s, s', lines := Run(moves), Run(moves + [m]), Typed(Run(moves).accepted).lines;
            && lines != [] && Pending(s') && s'.accepted == s.accepted
            && (|lines[|lines| - 1]| < LINE_SIZE ==>
                  s'.buff == s.buff == Pad(lines[|lines| - 1]) && s'.index == s.index == |lines[|lines| - 1]|)
  {
    RunSound(moves);
    RunThen(moves, m);
    hide Typed, Pad, Run, IdleBuffer, ZeroPast;
  }

  // ---------- lines that begin with CR LF ----------

  predicate StartsCrLf(s: seq<Byte>) { |s| >= 2 && CrLfAt(s, 0) }

  predicate EndsCrLf(s: seq<Byte>) { |s| >= 2 && CrLfAt(s, |s| - 2) }

  /** The end mark is at the end and nowhere before. */
  predicate EndsProperly(s: seq<Byte>) {
    EndsCrLf(s) && !HasCrLf(s[..|s| - 1])
  }

  /** What the lines of an editor look like: an end mark inside can only be one that nothing preceded. */
  ghost predicate Marked(e: Editor) {
    && (HasCrLf(e.line) ==> StartsCrLf(e.line))
    && (forall k :: 0 <= k < |e.lines| ==> |e.lines[k]| > 2 && (StartsCrLf(e.lines[k]) || EndsProperly(e.lines[k])))
  }

  lemma AppendMark(s: seq<Byte>, ch: Byte)
    ensures HasCrLf(s + [ch]) <==> HasCrLf(s) || (ch == LF && s != [] && s[|s| - 1] == CR)
    ensures StartsCrLf(s) ==> StartsCrLf(s + [ch])
    ensures HasCrLf(s + [ch]) && !HasCrLf(s) ==> EndsCrLf(s + [ch])
  {
    var t := s + [ch];
    if HasCrLf(s) {
      var k :| 0 <= k < |s| - 1 && CrLfAt(s, k);
      assert CrLfAt(t, k);
    }
    if HasCrLf(t) {
      var k :| 0 <= k < |t| - 1 && CrLfAt(t, k);
      if k < |s| - 1 {
        assert CrLfAt(s, k);
      }
    }
    if s != [] && s[|s| - 1] == CR && ch == LF {
      assert CrLfAt(t, |s| - 1);
    }
  }

  lemma DropMark(s: seq<Byte>)
    requires s != [] && HasCrLf(s[..|s| - 1])
    ensures HasCrLf(s)
  {
    var t := s[..|s| - 1];
    var k :| 0 <= k < |t| - 1 && CrLfAt(t, k);
    assert CrLfAt(s, k);
  }

  lemma TypeMarked(e: Editor, ch: Byte)
    requires Marked(e)
    ensures Marked(Type(e, ch))
  {
    AppendMark(e.line, ch);
    if e.line != [] && HasCrLf(e.line[..|e.line| - 1]) {
      DropMark(e.line);
    }
    assert (e.line + [ch])[..|e.line|] == e.line;
    if Complete(e.line + [ch]) {} else if IsEnd(ch) && HasCrLf(e.line + [ch]) {
      assert CrLfAt(e.line + [ch], 0);
    }
    hide HasCrLf;
  }

  /**
   Every line that is completed either ends with the first CR LF in it, or begins with CR LF;
   a line in progress that has an end mark begins with it.
   */
  lemma {:induction false} LinesAreMarked(chars: seq<Byte>)
    ensures Marked(Typed(chars))
  {
    hide Marked, Type;
    if chars == [] {
      FreshMarked();
    } else {
      LinesAreMarked(chars[..|chars| - 1]);
      TypeMarked(Typed(chars[..|chars| - 1]), chars[|chars| - 1]);
    }
  }

  lemma FreshMarked()
    ensures Marked(FRESH)
  {}

  /** The second case occurs: CR LF on an empty line completes nothing, and the next CR completes a line without its LF. */
  lemma LoneCrLfStays()
    ensures Typed([CR, LF]) == Editor([CR, LF], [])
    ensures Typed([CR, LF, 65, CR]) == Editor([], [[CR, LF, 65, CR]])
    ensures !EndsCrLf([CR, LF, 65, CR])
  {
    hide Type, Typed, HasCrLf;
    FirstTwo();
    NextTwo();
    TypedStep([], CR);
    TypedStep([CR], LF);
    TypedStep([CR, LF], 65);
    TypedStep([CR, LF, 65], CR);
    TypedNothing();
    assert [] + [CR] == [CR] && [CR] + [LF] == [CR, LF] && [CR, LF] + [65] == [CR, LF, 65] && [CR, LF, 65] + [CR] == [CR, LF, 65, CR];
  }

  lemma TypedNothing()
    ensures Typed([]) == FRESH
  {}

  lemma FirstTwo()
    ensures Type(FRESH, CR) == Editor([CR], []) && Type(Editor([CR], []), LF) == Editor([CR, LF], [])
  {
    hide HasCrLf;
    assert [] + [CR] == [CR] && [CR] + [LF] == [CR, LF];
  }

  lemma NextTwo()
    ensures Type(Editor([CR, LF], []), 65) == Editor([CR, LF, 65], [])
    ensures Type(Editor([CR, LF, 65], []), CR) == Editor([], [[CR, LF, 65, CR]])
  {
    assert CrLfAt([CR, LF, 65, CR], 0);
    assert HasCrLf([CR, LF, 65, CR]);
    hide HasCrLf;
    assert [CR, LF] + [65] == [CR, LF, 65] && [CR, LF, 65] + [CR] == [CR, LF, 65, CR];
  }

  // ---------- a line that fills the buffer ----------

  lemma RunThen(moves: seq<Move>, m: Move)
    ensures Run(moves + [m]) == Next(Run(moves), m)
  {
    assert (moves + [m])[..|moves|] == moves;
  }

  const LETTER: Byte := 65

  const IDLE: Buffer := Zeros(LINE_SIZE)

  function Letters(n: nat): (s: seq<Byte>)
    ensures |s| == n
  {
    seq(n, _ => LETTER)
  }

  /** The server is idle and holds `line`, and `line` is what was typed. */
  predicate At(s: Server, line: seq<Byte>) {
    && |line| < LINE_SIZE && s == START.(buff := Pad(line), index := |line|, accepted := line)
    && Typed(line) == Editor(line, [])
  }

  /** What three or four steps of the character thread do with a character that does not complete the line. */
  lemma StoreMoves(s: Server, line: seq<Byte>, ch: Byte)
    requires Safe(s) && At(s, line) && |line| < LINE_SIZE - 1
    requires Stored(ch) || (IsEnd(ch) && !HasCrLf(line + [ch]))
    ensures var s3 := PreMove(PreMove(PreMove(s, ch), ch), ch);
            At(if Stored(ch) then s3 else PreMove(s3, ch), line + [ch])
  {
    PadAppend(line, ch);
    PadTake(line + [ch]);
    TypedStep(line, ch);
    hide Typed, Pad, HasCrLf;
  }

  lemma {:induction false} TypeLetters(n: nat) returns (moves: seq<Move>)
    requires n <= 510
    ensures At(Run(moves), Letters(n))
  {
    if n == 0 {
      moves := [];
      ZerosEmpty();
      assert Letters(0) == [];
    } else {
      var before := TypeLetters(n - 1);
      var m := Char(LETTER);
      moves := before + [m] + [m] + [m];
      assert Letters(n) == Letters(n - 1) + [LETTER];
      hide Run, At, PreMove, Letters;
      RunThen(before, m);
      RunThen(before + [m], m);
      RunThen(before + [m] + [m], m);
      StoreMoves(Run(before), Letters(n - 1), LETTER);
    }
  }

  lemma NoCrLf(n: nat)
    ensures !HasCrLf(Letters(n) + [CR]) && HasCrLf(Letters(n) + [CR] + [LF])
  {
    assert CrLfAt(Letters(n) + [CR] + [LF], n);
  }

  lemma TypeCr() returns (moves: seq<Move>)
    ensures At(Run(moves), Letters(510) + [CR])
  {
    var before := TypeLetters(510);
    var m := Char(CR);
    moves := before + [m] + [m] + [m] + [m];
    NoCrLf(510);
    hide Run, At, PreMove, HasCrLf, Letters;
    RunThen(before, m);
    RunThen(before + [m], m);
    RunThen(before + [m] + [m], m);
    RunThen(before + [m] + [m] + [m], m);
    StoreMoves(Run(before), Letters(510), CR);
  }

  /** The character that completes a line of 512 characters, up to the overflow check. */
  lemma FillMoves(s: Server, line: seq<Byte>, ch: Byte) returns (s6: Server)
    requires Safe(s) && At(s, line) && |line| == LINE_SIZE - 1
    requires IsEnd(ch) && HasCrLf(line + [ch])
    ensures s6 == PreMove(PreMove(PreMove(PreMove(PreMove(PreMove(s, ch), ch), ch), ch), ch), ch)
    ensures s6.parsed == [] && s6.index == 0 && s6.sem == 1 && s6.task == Waiting && s6.accepted == line + [ch]
    ensures Typed(line + [ch]) == Editor([], [line + [ch]])
  {
    PadAppend(line, ch);
    PadTake(line + [ch]);
    TypedStep(line, ch);
    hide Typed, Pad, HasCrLf;
    var s3 := PreMove(PreMove(PreMove(s, ch), ch), ch);
    assert s3.pre == Notifying && s3.parsed == [] && s3.index == LINE_SIZE && s3.sem == 0 && s3.task == Waiting && s3.accepted == line + [ch];
    s6 := PreMove(PreMove(PreMove(s3, ch), ch), ch);
  }

  lemma EmptyParse(s: Server)
    requires Safe(s) && s.parsed == [] && s.index == 0 && s.sem == 1 && s.task == Waiting
    ensures var s' := TaskMove(TaskMove(s, IDLE), IDLE); s'.parsed == [[]] && s'.accepted == s.accepted
  {}

  /**
   The bound in `ParserGetsLines` is exact: a line of 512 characters can be completed and then
   emptied by the overflow check before the parser gets to it.
   */
  lemma FullLineCanBeLost() returns (moves: seq<Move>)
    ensures var s, lines := Run(moves), Typed(Run(moves).accepted).lines;
            |lines| == 1 && |lines[0]| == LINE_SIZE && s.parsed == [[]]
  {
    var before := TypeCr();
    var m := Char(LF);
    moves := before + [m] + [m] + [m] + [m] + [m] + [m] + [Parser(IDLE)] + [Parser(IDLE)];
    NoCrLf(510);
    hide Run, At, PreMove, TaskMove, HasCrLf, Letters, Typed;
    RunThen(before, m);
    RunThen(before + [m], m);
    RunThen(before + [m] + [m], m);
    RunThen(before + [m] + [m] + [m], m);
    RunThen(before + [m] + [m] + [m] + [m], m);
    RunThen(before + [m] + [m] + [m] + [m] + [m], m);
    RunThen(before + [m] + [m] + [m] + [m] + [m] + [m], Parser(IDLE));
    RunThen(before + [m] + [m] + [m] + [m] + [m] + [m] + [Parser(IDLE)], Parser(IDLE));
    var s6 := FillMoves(Run(before), Letters(510) + [CR], LF);
    EmptyParse(s6);
  }

  // ---------- what typing means ----------

  /** Bytes that end up in a line: printable ASCII and everything above it but DEL. */
  ghost predicate Text(s: seq<Byte>) {
    forall k :: 0 <= k < |s| ==> (0x20 <= s[k] && s[k] != 0x7F)
  }

  lemma {:induction false} TextIsKept(before: seq<Byte>, s: seq<Byte>)
    requires Text(s) && |Typed(before).line| + |s| < 512
    ensures Typed(before + s) == Editor(Typed(before).line + s, Typed(before).lines)
    decreases |s|
  {
    if s == [] {
      assert before + s == before;
    } else {
      var n := |s| - 1;
      TextIsKept(before, s[..n]);
      TypedStep(before + s[..n], s[n]);
      assert before + s[..n] + [s[n]] == before + s;
      assert Typed(before).line + s[..n] + [s[n]] == Typed(before).line + s;
      hide Typed;
    }
  }

  lemma NoEndInText(s: seq<Byte>)
    requires Text(s)
    ensures !HasCrLf(s + [13])
    ensures HasCrLf(s + [13, 10])
  {
    assert CrLfAt(s + [13, 10], |s|);
  }

  lemma EndTyped(e: Editor, s: seq<Byte>)
    requires e.line == s && s != [] && Text(s) && |s| + 2 < 512
    ensures Type(e, 13) == Editor(s + [13], e.lines)
    ensures Type(Editor(s + [13], e.lines), 10) == Editor([], e.lines + [s + [13, 10]])
  {
    NoEndInText(s);
    assert s + [13] + [10] == s + [13, 10];
    hide HasCrLf, Text;
  }

  /** On an empty line, text that ends with CR LF is one more completed line, whatever came before. */
  lemma LineTyped(before: seq<Byte>, s: seq<Byte>)
    requires Typed(before).line == [] && s != [] && Text(s) && |s| + 2 < 512
    ensures Typed(before + s + [13, 10]) == Editor([], Typed(before).lines + [s + [13, 10]])
  {
    hide Typed, Type, Text;
    TextIsKept(before, s);
    assert [] + s == s;
    EndTyped(Typed(before + s), s);
    TypedStep(before + s, 13);
    TypedStep(before + s + [13], 10);
    assert before + s + [13] + [10] == before + s + [13, 10];
  }

  /** Escape empties the line, and other control characters do nothing. */
  lemma ControlsTyped(before: seq<Byte>, ch: Byte)
    ensures Typed(before + [0x1B]) == Editor([], Typed(before).lines)
    ensures ch < 0x20 && ch !in {0x08, 0x0A, 0x0D, 0x1B} ==> Typed(before + [ch]) == Typed(before)
  {
    TypedStep(before, 0x1B);
    TypedStep(before, ch);
    hide Typed, HasCrLf;
  }

  /** Backspace and delete take back one character, if there is one. */
  lemma BackspaceTyped(before: seq<Byte>, ch: Byte, back: Byte)
    requires back == 0x08 || back == 0x7F
    ensures Typed(before).line == [] ==> Typed(before + [back]) == Typed(before)
    ensures Text([ch]) && |Typed(before).line| + 1 < 512 ==> Typed(before + [ch] + [back]) == Typed(before)
  {
    TypedStep(before, back);
    TypedStep(before + [ch], back);
    hide Typed, HasCrLf;
    if Text([ch]) && |Typed(before).line| + 1 < 512 {
      TextIsKept(before, [ch]);
      assert (Typed(before).line + [ch])[..|Typed(before).line|] == Typed(before).line;
    }
  }

  /** The character that fills the buffer drops the whole line. */
  lemma FullLineDropped(before: seq<Byte>, ch: Byte)
    requires |Typed(before).line| == 511 && Text([ch])
    ensures Typed(before + [ch]) == Editor([], Typed(before).lines)
  {
    TypedStep(before, ch);
    assert [ch][0] == ch;
  }
}
