/**
 * Reads of one process through its own descriptor, over any run of the machine: other terminals,
 * its own children and its other descriptors come in between, and still it gets the file in order.
 */
module ProcessReads {
  import opened Basics
  import opened ProcessModel
  import opened ProcessRuns
  import FS = FileSystem

  /** The process at height `h` of terminal `t`'s stack, and its descriptor `fd`. */
  datatype Reader = Reader(terminal: nat, height: nat, fd: nat)

  predicate ReaderOk(who: Reader) {
    who.terminal < TERMINALS && who.height > 0 && 2 <= who.fd < 8
  }

  ghost function TableOf(m: Machine, who: Reader): (r: seq<Fd>)
    requires WellFormed(m) && ReaderOk(who) && who.height <= |m.stacks[who.terminal]|
    ensures TableOk(r)
  {
    assert StackOk(m.stacks[who.terminal], who.terminal);
    m.stacks[who.terminal][who.height - 1].fds
  }

  /** It is the process that runs. */
  predicate IsRunning(m: Machine, who: Reader)
    requires |m.stacks| == TERMINALS && ReaderOk(who)
  {
    m.scheduled == who.terminal && |m.stacks[who.terminal]| == who.height
  }

  /** What the event does to the descriptors of the running process. */
  function TableAfter(fds: seq<Fd>, e: Event): seq<Fd>
    requires |fds| == 8
  {
    match e
    case Open(found) => OpenTable(fds, found).0
    case Close(fd) => if IsOpen(fds, fd) then fds[fd := CLOSED] else fds
    case Move(fd, position) => if IsOpen(fds, fd) then fds[fd := fds[fd].(position := position)] else fds
    case _ => fds
  }

  lemma ReaderShape(m: Machine, who: Reader)
    requires WellFormed(m) && ReaderOk(who)
    ensures Shaped(m)
    ensures who.height <= |m.stacks[who.terminal]| ==> |TableOf(m, who)| == 8
  {
    ShapeOf(m);
  }

  /** A process that is not running, or whose terminal is not, keeps its descriptors. */
  lemma OthersKeepTables(m: Machine, e: Event, who: Reader)
    requires WellFormed(m) && Admissible(m, e) && m.booted == TERMINALS && ReaderOk(who)
    requires who.height <= |m.stacks[who.terminal]| && who.height <= |Next(m, e).stacks[who.terminal]|
    requires |m.stacks| == TERMINALS && !IsRunning(m, who)
    ensures TableOf(Next(m, e), who) == TableOf(m, who)
  {
    hide WellFormed, Admissible, Next;
    StepTouchesOneStack(m, e);
    ShapeOf(Next(m, e));
    var s, r := m.stacks[who.terminal], Next(m, e).stacks[who.terminal];
    if m.scheduled == who.terminal {
      assert s[who.height - 1] == s[..|s| - 1][who.height - 1];
      assert r[who.height - 1] == r[..|s| - 1][who.height - 1];
    }
  }

  /** The running process, unless it ends: only its own calls touch its descriptors. */
  lemma RunningTable(m: Machine, e: Event, who: Reader)
    requires WellFormed(m) && Admissible(m, e) && m.booted == TERMINALS && ReaderOk(who)
    requires |m.stacks| == TERMINALS && IsRunning(m, who) && who.height <= |Next(m, e).stacks[who.terminal]|
    ensures |TableOf(m, who)| == 8 && TableOf(Next(m, e), who) == TableAfter(TableOf(m, who), e)
  {
    hide WellFormed, TickStep, HaltStep, ExecuteStep, OpenTable, TableAfter, IsOpen, SetTop, Admissible;
    ReaderShape(m, who);
    ShapeOf(Next(m, e));
    SameTable(TableOf(m, who), e);
    match e
    case Tick(frame) => TickTable(m, frame, who);
    case Halt => HaltTable(m, who);
    case Execute(loadable, frame) => ExecuteTable(m, loadable, frame, who);
    case SwitchKey(_) =>
    case QuitKey =>
    case _ => CallTable(m, e, who);
  }

  lemma SameTable(fds: seq<Fd>, e: Event)
    requires |fds| == 8
    ensures e.Tick? || e.Halt? || e.Execute? || e.SwitchKey? || e.QuitKey? ==> TableAfter(fds, e) == fds
  {
  }

  lemma ExecuteTable(m: Machine, loadable: bool, frame: int, who: Reader)
    requires WellFormed(m) && ReaderOk(who) && |m.stacks| == TERMINALS && IsRunning(m, who)
    ensures |ExecuteStep(m, loadable, frame).0.stacks| == TERMINALS
    ensures var s := ExecuteStep(m, loadable, frame).0.stacks[who.terminal];
            who.height <= |s| && s[who.height - 1] == m.stacks[who.terminal][who.height - 1]
  {
    hide WellFormed, LowestFree, Used;
  }

  lemma CallTable(m: Machine, e: Event, who: Reader)
    requires WellFormed(m) && Admissible(m, e) && m.booted == TERMINALS && ReaderOk(who)
    requires |m.stacks| == TERMINALS && IsRunning(m, who) && (e.Open? || e.Close? || e.Move?)
    ensures |Next(m, e).stacks| == TERMINALS && |Next(m, e).stacks[who.terminal]| == who.height
    ensures |TableOf(m, who)| == 8 && TableOf(Next(m, e), who) == TableAfter(TableOf(m, who), e)
  {
    hide WellFormed, OpenTable, TickStep, HaltStep, ExecuteStep;
    ReaderShape(m, who);
  }

  lemma HaltTable(m: Machine, who: Reader)
    requires WellFormed(m) && m.booted == TERMINALS && ReaderOk(who) && |m.stacks| == TERMINALS
    requires IsRunning(m, who) && |HaltStep(m).0.stacks| == TERMINALS
    requires who.height <= |HaltStep(m).0.stacks[who.terminal]|
    ensures HaltStep(m).0.stacks[who.terminal] == m.stacks[who.terminal]
  {
    if who.height == 1 { RootRestartsInPlace(m); }
    hide WellFormed, LowestFree, Used;
  }

  lemma TickTable(m: Machine, frame: int, who: Reader)
    requires WellFormed(m) && Admissible(m, Tick(frame)) && m.booted == TERMINALS && ReaderOk(who)
    requires |m.stacks| == TERMINALS && IsRunning(m, who) && who.height <= |Next(m, Tick(frame)).stacks[who.terminal]|
    ensures Next(m, Tick(frame)).stacks[who.terminal] == m.stacks[who.terminal]
  {
    hide WellFormed, Admissible, HaltStep, FirstSwitch;
    SaveKeeps(m, frame);
    ShapeOf(m);
    if FirstSwitch(m).None? && m.quits[m.scheduled] {
      HaltTouchesOneStack(ClearQuit(SaveFrame(m, frame)));
      ShapeOf(HaltStep(ClearQuit(SaveFrame(m, frame))).0);
      HaltTable(ClearQuit(SaveFrame(m, frame)), who);
    }
  }

  // ---------------------------------------------------------------- runs with reads

  /** An event, and for a read the number of bytes asked for. */
  datatype Call = Call(event: Event, size: nat)

  /** The process reads from its descriptor. */
  predicate IsRead(m: Machine, e: Event, who: Reader)
    requires |m.stacks| == TERMINALS && ReaderOk(who)
  {
    IsRunning(m, who) && e.Move? && e.fd == who.fd
  }

  /** The descriptor is open on the file `inode` at a position inside its contents. */
  ghost predicate ReadsAt(m: Machine, who: Reader, inode: nat, content: seq<byte>, position: nat)
    requires WellFormed(m) && ReaderOk(who) && who.height <= |m.stacks[who.terminal]|
  {
    && position <= |content| < 0x8000_0000
    && TableOf(m, who)[who.fd] == Fd(File, inode, position, 1)
  }

  /**
   * In the run the process stays alive, does not close the descriptor, and moves it only as a read of
   * `size` bytes does; everything else is left open.
   */
  ghost predicate Reading(m: Machine, calls: seq<Call>, who: Reader, content: seq<byte>)
    requires WellFormed(m) && m.booted == TERMINALS && ReaderOk(who)
    decreases |calls|
  {
    && who.height <= |m.stacks[who.terminal]|
    && (calls == [] ||
        (&& Admissible(m, calls[0].event)
         && CallOk(m, calls[0], who, content)
         && Next(m, calls[0].event).booted == TERMINALS
         && Reading(Next(m, calls[0].event), calls[1..], who, content)))
  }

  ghost predicate CallOk(m: Machine, call: Call, who: Reader, content: seq<byte>)
    requires WellFormed(m) && ReaderOk(who) && who.height <= |m.stacks[who.terminal]|
  {
    && (IsRunning(m, who) ==> call.event != Close(who.fd))
    && (IsRead(m, call.event, who) ==>
          && call.size < 0x8000_0000
          && var position := TableOf(m, who)[who.fd].position;
             && position <= |content|
             && call.event.position == FS.ReadStep(content, position, call.size).position)
  }

  /** The bytes that the reads of the run deliver, one after the other. */
  ghost function Delivered(m: Machine, calls: seq<Call>, who: Reader, content: seq<byte>): seq<byte>
    requires WellFormed(m) && m.booted == TERMINALS && ReaderOk(who) && Reading(m, calls, who, content)
    decreases |calls|
  {
    if calls == [] then []
    else
      var e, size := calls[0].event, calls[0].size;
      (if IsRead(m, e, who) then FS.ReadStep(content, TableOf(m, who)[who.fd].position, size).bytes else []) +
      Delivered(Next(m, e), calls[1..], who, content)
  }

  /** The number of bytes that they ask for. */
  ghost function Asked(m: Machine, calls: seq<Call>, who: Reader, content: seq<byte>): nat
    requires WellFormed(m) && m.booted == TERMINALS && ReaderOk(who) && Reading(m, calls, who, content)
    decreases |calls|
  {
    if calls == [] then 0
    else
      (if IsRead(m, calls[0].event, who) then calls[0].size else 0) +
      Asked(Next(m, calls[0].event), calls[1..], who, content)
  }

  lemma FreshReading(content: seq<byte>, position: nat, size: nat)
    requires position <= |content| < 0x8000_0000 && size < 0x8000_0000
    ensures var s := FS.ReadStep(content, position, size);
            s.position == Min(|content|, position + size) && s.bytes == content[position..s.position]
  {
    if size > 0 { FS.ReadKeepsPosition(content, position, size); }
  }

  /** An open descriptor survives every call on another one. */
  lemma OtherDescriptor(fds: seq<Fd>, e: Event, fd: nat)
    requires |fds| == 8 && 2 <= fd < 8 && fds[fd].flags != 0 && e != Close(fd) && !(e.Move? && e.fd == fd)
    ensures |TableAfter(fds, e)| == 8 && TableAfter(fds, e)[fd] == fds[fd]
  {
  }

  /** One event of the run: a read delivers the next bytes, and nothing else moves the descriptor. */
  lemma OneCall(m: Machine, e: Event, size: nat, who: Reader, inode: nat, content: seq<byte>, position: nat)
    requires WellFormed(m) && Admissible(m, e) && m.booted == TERMINALS && ReaderOk(who)
    requires who.height <= |m.stacks[who.terminal]| && who.height <= |Next(m, e).stacks[who.terminal]|
    requires |m.stacks| == TERMINALS && ReadsAt(m, who, inode, content, position)
    requires CallOk(m, Call(e, size), who, content)
    ensures ReadsAt(Next(m, e), who, inode, content,
                    if IsRead(m, e, who) then Min(|content|, position + size) else position)
  {
    hide WellFormed, Admissible, Next, TableOf, TableAfter;
    ReaderShape(m, who);
    if IsRunning(m, who) {
      RunningTable(m, e, who);
      var fds := TableOf(m, who);
      if IsRead(m, e, who) {
        FreshReading(content, position, size);
        ReadMoves(fds, e);
      } else {
        OtherDescriptor(fds, e, who.fd);
      }
    } else {
      OthersKeepTables(m, e, who);
    }
  }

  lemma ReadMoves(fds: seq<Fd>, e: Event)
    requires |fds| == 8 && e.Move? && IsOpen(fds, e.fd)
    ensures |TableAfter(fds, e)| == 8 && TableAfter(fds, e)[e.fd] == fds[e.fd].(position := e.position)
  {
  }

  /**
   * Over every run, whatever happens on the other terminals, whatever children the process starts
   * and awaits in between and whatever it does with its other descriptors: its reads deliver the
   * next bytes of the file, each once and in order, as many as it asked for while there are any.
   */
  lemma {:induction false} ReadsInterleaved(
    m: Machine, calls: seq<Call>, who: Reader, inode: nat, content: seq<byte>, position: nat)
    requires WellFormed(m) && m.booted == TERMINALS && ReaderOk(who) && Reading(m, calls, who, content)
    requires ReadsAt(m, who, inode, content, position)
    ensures var end := Min(|content|, position + Asked(m, calls, who, content));
            position <= end && Delivered(m, calls, who, content) == content[position..end]
    decreases |calls|
  {
    hide WellFormed, Admissible, Next, TableOf, ReadsAt, CallOk, IsRead, FS.ReadStep, Reading, Delivered, Asked;
    Alive(m, calls, who, content);
    ReadPositionIs(m, who, inode, content, position);
    if calls == [] {
      NoneDelivered(m, who, content);
    } else {
      var e, size := calls[0].event, calls[0].size;
      ReachesNext(m, calls, who, content);
      var next := Next(m, e);
      OneCall(m, e, size, who, inode, content, position);
      var after := if IsRead(m, e, who) then Min(|content|, position + size) else position;
      ReadsInterleaved(next, calls[1..], who, inode, content, after);
      if IsRead(m, e, who) { FreshReading(content, position, size); }
      var end := Min(|content|, after + Asked(next, calls[1..], who, content));
      Rejoined(content, position, after, end);
    }
  }

  lemma ReachesNext(m: Machine, calls: seq<Call>, who: Reader, content: seq<byte>)
    requires WellFormed(m) && m.booted == TERMINALS && ReaderOk(who) && calls != [] && Reading(m, calls, who, content)
    ensures Admissible(m, calls[0].event) && Next(m, calls[0].event).booted == TERMINALS
    ensures Reading(Next(m, calls[0].event), calls[1..], who, content)
    ensures |m.stacks| == TERMINALS && CallOk(m, calls[0], who, content)
    ensures var e, size, n := calls[0].event, calls[0].size, Next(m, calls[0].event);
            && who.height <= |m.stacks[who.terminal]|
            && (IsRead(m, e, who) ==> size < 0x8000_0000 && TableOf(m, who)[who.fd].position <= |content|)
            && Delivered(m, calls, who, content) ==
               (if IsRead(m, e, who) then FS.ReadStep(content, TableOf(m, who)[who.fd].position, size).bytes else []) +
               Delivered(n, calls[1..], who, content)
            && Asked(m, calls, who, content) ==
               (if IsRead(m, e, who) then size else 0) + Asked(n, calls[1..], who, content)
    ensures who.height <= |Next(m, calls[0].event).stacks[who.terminal]|
  {
    hide WellFormed, Admissible, Next, IsRead, FS.ReadStep;
    ShapeOf(m);
    ShapeOf(Next(m, calls[0].event));
  }

  lemma Alive(m: Machine, calls: seq<Call>, who: Reader, content: seq<byte>)
    requires WellFormed(m) && m.booted == TERMINALS && ReaderOk(who) && Reading(m, calls, who, content)
    ensures |m.stacks| == TERMINALS && who.height <= |m.stacks[who.terminal]|
  {
    hide WellFormed, Admissible, Next;
    ShapeOf(m);
  }

  lemma NoneDelivered(m: Machine, who: Reader, content: seq<byte>)
    requires WellFormed(m) && m.booted == TERMINALS && ReaderOk(who) && Reading(m, [], who, content)
    ensures Delivered(m, [], who, content) == [] && Asked(m, [], who, content) == 0
  {
  }

  lemma ReadPositionIs(m: Machine, who: Reader, inode: nat, content: seq<byte>, position: nat)
    requires WellFormed(m) && ReaderOk(who) && who.height <= |m.stacks[who.terminal]|
    requires ReadsAt(m, who, inode, content, position)
    ensures |TableOf(m, who)| == 8 && TableOf(m, who)[who.fd].position == position <= |content| < 0x8000_0000
  {
    hide WellFormed;
  }
}
