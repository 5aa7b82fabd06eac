/**
 * The process table as its designers think of it: each of the three terminals owns a stack of
 * processes, root shell first and running program last, and the timer passes the processor
 * from terminal to terminal. Module Kernel implements this on a slot table with parent links.
 */
module ProcessModel {
  import opened Basics

  const SLOTS: nat := 6
  const EIGHT_MB: int := 0x80_0000
  const EIGHT_KB: int := 0x2000

  /** The jump table stored in a descriptor: none, or that of one of the drivers. */
  datatype Ops = NoOps | StdIn | StdOut | Rtc | Directory | File

  datatype Fd = Fd(ops: Ops, inode: nat, position: nat, flags: nat)

  const CLOSED: Fd := Fd(NoOps, 0, 0, 0)

  const STD_IN_FD: Fd := Fd(StdIn, 0, 0, 1)
  const STD_OUT_FD: Fd := Fd(StdOut, 0, 0, 1)

  const EMPTY_TABLE: seq<Fd> := [CLOSED, CLOSED, CLOSED, CLOSED, CLOSED, CLOSED, CLOSED, CLOSED]

  const FRESH_TABLE: seq<Fd> := [STD_IN_FD, STD_OUT_FD, CLOSED, CLOSED, CLOSED, CLOSED, CLOSED, CLOSED]

  /** What a directory entry tells `sys_open`. */
  datatype Entry = Entry(fileType: nat, inode: nat)

  /** A process: its slot, the frame of the `sys_execute` its halt returns to, its descriptors. */
  datatype Proc = Proc(pid: nat, caller: Option<int>, fds: seq<Fd>)

  datatype Machine = Machine(
    booted: nat,             // terminals whose root shell has been started
    stacks: seq<seq<Proc>>,  // per terminal, root first
    saved: seq<int>,         // per terminal, the frame saved by the last timer tick
    scheduled: nat,
    displayed: nat,
    switches: seq<bool>,     // pending ALT+F1..F3 requests
    quits: seq<bool>)        // pending CTRL+C requests

  datatype Event =
    | Tick(frame: int)
    | Execute(loadable: bool, frame: int)
    | Halt
    | SwitchKey(terminal: nat)
    | QuitKey
    | Open(found: Option<Entry>)
    | Close(fd: int)
    | Move(fd: int, position: nat)  // a read that leaves the descriptor at `position`

  /** Where the processor goes when the kernel is done. */
  datatype Control =
    | Return(value: int)  // back to the interrupted program or the caller of the system call
    | Start(pid: nat)     // into the entry point of a program just loaded
    | Resume(frame: int)  // back into a kernel frame saved earlier

  // ---------------------------------------------------------------- slots and frames

  function Pids(stack: seq<Proc>): set<nat> {
    set i | 0 <= i < |stack| :: stack[i].pid
  }

  function Used(m: Machine): set<nat>
    requires |m.stacks| == TERMINALS
  {
    Pids(m.stacks[0]) + Pids(m.stacks[1]) + Pids(m.stacks[2])
  }

  function Count(m: Machine): nat
    requires |m.stacks| == TERMINALS
  {
    |m.stacks[0]| + |m.stacks[1]| + |m.stacks[2]|
  }

  /** The free slot a search from `from` upwards meets first. */
  function LowestFree(used: set<nat>, from: nat := 0): (r: Option<nat>)
    ensures r.None? ==> forall p | from <= p < SLOTS :: p in used
    ensures r.Some? ==> from <= r.value < SLOTS && r.value !in used && forall p | from <= p < r.value :: p in used
    decreases SLOTS - from
  {
    if from >= SLOTS then None
    else if from !in used then Some(from)
    else LowestFree(used, from + 1)
  }

  /** A frame inside the 8 KB kernel stack of slot `pid`. */
  predicate InKernelStack(frame: int, pid: nat) {
    EIGHT_MB - (pid + 1) * EIGHT_KB <= frame < EIGHT_MB - pid * EIGHT_KB
  }

  function Leaf(m: Machine, t: nat): Proc
    requires t < |m.stacks| && m.stacks[t] != []
  {
    m.stacks[t][|m.stacks[t]| - 1]
  }

  // ---------------------------------------------------------------- the invariant

  ghost predicate Shaped(m: Machine) {
    && |m.stacks| == |m.saved| == |m.switches| == |m.quits| == TERMINALS
    && m.booted <= TERMINALS && m.scheduled < TERMINALS && m.displayed < TERMINALS
    && (m.booted == 0 || m.scheduled < m.booted)
    && (forall t | 0 <= t < TERMINALS :: m.stacks[t] != [] <==> t < m.booted)
    && (m.booted < TERMINALS ==> forall t | 0 <= t < m.booted :: |m.stacks[t]| == 1)
  }

  /** Entries 0 and 1 are the terminal; any other open entry has a driver's jump table. */
  ghost predicate TableOk(fds: seq<Fd>) {
    && |fds| == 8 && fds[0] == STD_IN_FD && fds[1] == STD_OUT_FD
    && forall i | 2 <= i < 8 :: FdOk(fds[i])
  }

  predicate FdOk(fd: Fd) {
    fd == CLOSED || (fd.flags == 1 && (fd.ops == Rtc || fd.ops == Directory || fd.ops == File))
  }

  /**
   * The stack of terminal `t`: distinct slots with the root in slot `t`; the root has no caller and
   * every other process returns into the kernel stack of the one below it.
   */
  ghost predicate StackOk(stack: seq<Proc>, t: nat) {
    && (forall i | 0 <= i < |stack| :: stack[i].pid < SLOTS && TableOk(stack[i].fds))
    && (forall i, j | 0 <= i < j < |stack| :: stack[i].pid != stack[j].pid)
    && (stack != [] ==> stack[0].pid == t && stack[0].caller.None?)
    && (forall i | 0 < i < |stack| :: CallerOk(stack, i))
  }

  ghost predicate CallerOk(stack: seq<Proc>, i: nat)
    requires 0 < i < |stack|
  {
    stack[i].caller.Some? && InKernelStack(stack[i].caller.value, stack[i - 1].pid)
  }

  ghost predicate WellFormed(m: Machine) {
    && Shaped(m)
    && (forall t | 0 <= t < TERMINALS :: StackOk(m.stacks[t], t))
    && (forall t, u | 0 <= t < u < TERMINALS :: Pids(m.stacks[t]) !! Pids(m.stacks[u]))
    && SavedOk(m)
  }

  /** A terminal that is not scheduled waits in the kernel stack of its running process. */
  ghost predicate SavedOk(m: Machine)
    requires Shaped(m)
  {
    forall t | 0 <= t < m.booted && t != m.scheduled :: InKernelStack(m.saved[t], Leaf(m, t).pid)
  }

  /**
   * What the hardware and the boot order grant: an interrupt or system call arrives on the kernel
   * stack of the running process, and no program runs a system call before the third shell starts.
   */
  ghost predicate Admissible(m: Machine, e: Event)
    requires Shaped(m)
  {
    match e
    case Tick(frame) => m.booted == 0 || InKernelStack(frame, Leaf(m, m.scheduled).pid)
    case Execute(_, frame) => m.booted == TERMINALS && InKernelStack(frame, Leaf(m, m.scheduled).pid)
    case SwitchKey(t) => t < TERMINALS
    case QuitKey => true
    case _ => m.booted == TERMINALS
  }

  // ---------------------------------------------------------------- steps

  function Push(m: Machine, p: Proc): Machine
    requires |m.stacks| == TERMINALS && m.scheduled < TERMINALS
  {
    m.(stacks := m.stacks[m.scheduled := m.stacks[m.scheduled] + [p]])
  }

  function Pop(m: Machine): Machine
    requires |m.stacks| == TERMINALS && m.scheduled < TERMINALS && m.stacks[m.scheduled] != []
  {
    m.(stacks := m.stacks[m.scheduled := m.stacks[m.scheduled][..|m.stacks[m.scheduled]| - 1]])
  }

  function SetTable(m: Machine, fds: seq<Fd>): Machine
    requires |m.stacks| == TERMINALS && m.scheduled < TERMINALS && m.stacks[m.scheduled] != []
  {
    m.(stacks := m.stacks[m.scheduled := SetTop(m.stacks[m.scheduled], fds)])
  }

  function SetTop(stack: seq<Proc>, fds: seq<Fd>): seq<Proc>
    requires stack != []
  {
    stack[|stack| - 1 := stack[|stack| - 1].(fds := fds)]
  }

  ghost function ExecuteStep(m: Machine, loadable: bool, frame: int): (Machine, Control)
    requires WellFormed(m)
  {
    if !loadable then (m, Return(-1))
    else match LowestFree(Used(m))
      case None => (m, Return(-1))
      case Some(p) => (Push(m, Proc(p, Some(frame), FRESH_TABLE)), Start(p))
  }

  /** A root shell is started again in whatever slot the search finds once its own is released. */
  ghost function HaltStep(m: Machine): (Machine, Control)
    requires WellFormed(m) && m.booted == TERMINALS
  {
    var leaf := Leaf(m, m.scheduled);
    if |m.stacks[m.scheduled]| == 1 then
      assert leaf.pid !in Used(m) - {leaf.pid};
      var p := LowestFree(Used(m) - {leaf.pid}).value;
      (Push(Pop(m), leaf.(pid := p)), Start(p))
    else
      assert CallerOk(m.stacks[m.scheduled], |m.stacks[m.scheduled]| - 1);
      (Pop(m), Resume(leaf.caller.value))
  }

  function FirstSwitch(m: Machine): Option<nat>
    requires |m.switches| == TERMINALS
  {
    if m.switches[0] then Some(0) else if m.switches[1] then Some(1) else if m.switches[2] then Some(2) else None
  }

  function SaveFrame(m: Machine, frame: int): Machine
    requires |m.saved| == TERMINALS && m.scheduled < TERMINALS
  {
    m.(saved := m.saved[m.scheduled := frame])
  }

  function ClearQuit(m: Machine): Machine
    requires |m.quits| == TERMINALS && m.scheduled < TERMINALS
  {
    m.(quits := m.quits[m.scheduled := false])
  }

  function SwitchDisplay(m: Machine, k: nat): Machine
    requires |m.switches| == TERMINALS && k < TERMINALS
  {
    m.(switches := m.switches[k := false], displayed := k)
  }

  function Rotate(m: Machine): (Machine, Control)
    requires |m.saved| == TERMINALS && m.scheduled < TERMINALS
  {
    var next := (m.scheduled + 1) % TERMINALS;
    (m.(scheduled := next), Resume(m.saved[next]))
  }

  /** The next terminal becomes the scheduled one and its root shell starts in the lowest free slot. */
  ghost function BootStep(m: Machine): (Machine, Control)
    requires Shaped(m) && m.booted < TERMINALS
  {
    match LowestFree(Used(m))
    case None => (m, Return(-1))
    case Some(p) =>
      (Push(m.(booted := m.booted + 1, scheduled := m.booted), Proc(p, None, FRESH_TABLE)), Start(p))
  }

  /** Save the interrupted frame; then boot a terminal, or serve one switch, or one quit, or rotate. */
  ghost function TickStep(m: Machine, frame: int): (Machine, Control)
    requires WellFormed(m) && Admissible(m, Tick(frame))
  {
    var m1 := SaveFrame(m, frame);
    if m.booted < TERMINALS then BootStep(m1)
    else match FirstSwitch(m)
      case Some(k) => (SwitchDisplay(m1, k), Return(0))
      case None =>
        SaveKeeps(m, frame);
        if m.quits[m.scheduled] then HaltStep(ClearQuit(m1)) else Rotate(m1)
  }

  function LowestClosed(fds: seq<Fd>, from: nat): (r: Option<nat>)
    requires |fds| == 8
    ensures r.None? ==> forall i | from <= i < 8 :: fds[i].flags != 0
    ensures r.Some? ==> from <= r.value < 8 && fds[r.value].flags == 0
                        && forall i | from <= i < r.value :: fds[i].flags != 0
    decreases 8 - from
  {
    if from >= 8 then None else if fds[from].flags == 0 then Some(from) else LowestClosed(fds, from + 1)
  }

  /** `sys_open`; an entry whose type is not 0, 1 or 2 fails but keeps its descriptor. */
  function OpenTable(fds: seq<Fd>, found: Option<Entry>): (seq<Fd>, int)
    requires |fds| == 8
  {
    match LowestClosed(fds, 2)
    case None => (fds, -1)
    case Some(i) =>
      match found
      case None => (fds, -1)
      case Some(Entry(0, _)) => (fds[i := Fd(Rtc, 0, 0, 1)], i as int)
      case Some(Entry(1, _)) => (fds[i := Fd(Directory, 0, 0, 1)], i as int)
      case Some(Entry(2, inode)) => (fds[i := Fd(File, inode, 0, 1)], i as int)
      case Some(_) => (fds[i := Fd(File, 0, 0, 1)], -1)
  }

  predicate IsOpen(fds: seq<Fd>, fd: int)
    requires |fds| == 8
  {
    2 <= fd < 8 && fds[fd].flags != 0
  }

  ghost function Step(m: Machine, e: Event): (r: (Machine, Control))
    requires WellFormed(m) && Admissible(m, e)
  {
    match e
    case Tick(frame) => TickStep(m, frame)
    case Execute(loadable, frame) => ExecuteStep(m, loadable, frame)
    case Halt => HaltStep(m)
    case SwitchKey(t) => (m.(switches := m.switches[t := true]), Return(0))
    case QuitKey => (m.(quits := m.quits[m.displayed := true]), Return(0))
    case Open(found) =>
      var (fds, r) := OpenTable(Leaf(m, m.scheduled).fds, found);
      (SetTable(m, fds), Return(r))
    case Close(fd) =>
      var fds := Leaf(m, m.scheduled).fds;
      if IsOpen(fds, fd) then (SetTable(m, fds[fd := CLOSED]), Return(0)) else (m, Return(-1))
    case Move(fd, position) =>
      var fds := Leaf(m, m.scheduled).fds;
      if IsOpen(fds, fd) then (SetTable(m, fds[fd := fds[fd].(position := position)]), Return(0)) else (m, Return(-1))
  }

  /** The machine when the timer is enabled: no process yet. */
  ghost predicate Initial(m: Machine) {
    Shaped(m) && m.booted == 0 && m.scheduled == 0 && m.displayed == 0
  }

  // ---------------------------------------------------------------- one step keeps the invariant

  lemma PushPids(stack: seq<Proc>, p: Proc)
    ensures Pids(stack + [p]) == Pids(stack) + {p.pid}
  {
    var s := stack + [p];
    assert s[|stack|].pid in Pids(s);
    forall q | q in Pids(stack) ensures q in Pids(s) {
      var i :| 0 <= i < |stack| && stack[i].pid == q;
      assert s[i].pid == q;
    }
  }

  lemma PushStackOk(stack: seq<Proc>, t: nat, p: Proc)
    requires StackOk(stack, t) && p.pid < SLOTS && p.pid !in Pids(stack) && TableOk(p.fds)
    requires if stack == [] then p.pid == t && p.caller.None?
             else p.caller.Some? && InKernelStack(p.caller.value, stack[|stack| - 1].pid)
    ensures StackOk(stack + [p], t)
    ensures Pids(stack + [p]) == Pids(stack) + {p.pid}
  {
    PushPids(stack, p);
    var s := stack + [p];
    assert forall i | 0 <= i < |stack| :: s[i] == stack[i] && stack[i].pid in Pids(stack);
    hide Pids, TableOk, InKernelStack;
    forall i | 0 < i < |s| ensures CallerOk(s, i) {
      if i < |stack| { assert CallerOk(stack, i); }
    }
  }

  lemma PopStackOk(stack: seq<Proc>, t: nat)
    requires StackOk(stack, t) && stack != []
    ensures StackOk(stack[..|stack| - 1], t)
    ensures Pids(stack[..|stack| - 1]) == Pids(stack) - {stack[|stack| - 1].pid}
  {
    var s := stack[..|stack| - 1];
    forall i | 0 < i < |s| ensures CallerOk(s, i) { assert CallerOk(stack, i); }
    forall q | q in Pids(stack) - {stack[|stack| - 1].pid} ensures q in Pids(s) {
      var i :| 0 <= i < |stack| && stack[i].pid == q;
      assert s[i].pid == q;
    }
  }

  /** Replacing one stack by a good one that takes no slot from the other terminals keeps the invariant. */
  lemma ReplaceKeeps(m: Machine, r: Machine, t: nat)
    requires WellFormed(m) && Shaped(r) && t < TERMINALS && SavedOk(r)
    requires forall u | 0 <= u < TERMINALS && u != t :: r.stacks[u] == m.stacks[u]
    requires StackOk(r.stacks[t], t)
    requires forall q | q in Pids(r.stacks[t]) :: q in Pids(m.stacks[t]) || q !in Used(m)
    ensures WellFormed(r)
  {
  }

  lemma ShapeOf(m: Machine)
    requires WellFormed(m)
    ensures Shaped(m)
  {
  }

  lemma PopPush(m: Machine)
    requires |m.stacks| == TERMINALS && m.scheduled < TERMINALS && m.stacks[m.scheduled] != []
    ensures Push(Pop(m), Leaf(m, m.scheduled)) == m
  {
    var s := m.stacks[m.scheduled];
    assert s == s[..|s| - 1] + [s[|s| - 1]];
    assert Push(Pop(m), Leaf(m, m.scheduled)).stacks == m.stacks;
  }

  lemma PushKeeps(m: Machine, p: Proc)
    requires WellFormed(m) && m.booted == TERMINALS
    requires p.pid < SLOTS && p.pid !in Used(m) && TableOk(p.fds)
    requires p.caller.Some? && InKernelStack(p.caller.value, Leaf(m, m.scheduled).pid)
    ensures WellFormed(Push(m, p))
  {
    assert StackOk(m.stacks[m.scheduled], m.scheduled);
    assert p.pid !in Pids(m.stacks[m.scheduled]);
    hide StackOk, Pids, Used, TableOk, InKernelStack;
    PushStackOk(m.stacks[m.scheduled], m.scheduled, p);
    ReplaceKeeps(m, Push(m, p), m.scheduled);
  }

  lemma PopKeeps(m: Machine)
    requires WellFormed(m) && m.booted == TERMINALS && |m.stacks[m.scheduled]| > 1
    ensures WellFormed(Pop(m))
  {
    assert StackOk(m.stacks[m.scheduled], m.scheduled);
    hide StackOk, Pids, Used, InKernelStack;
    PopStackOk(m.stacks[m.scheduled], m.scheduled);
    ReplaceKeeps(m, Pop(m), m.scheduled);
  }

  lemma RootSlotUsed(m: Machine, t: nat)
    requires WellFormed(m) && t < m.booted
    ensures t in Used(m) && m.stacks[t][0].pid == t
  {
    assert StackOk(m.stacks[t], t);
    assert m.stacks[t][0].pid == t && t in Pids(m.stacks[t]);
  }

  /** The slot of a halting root shell is the lowest free one as soon as it is released. */
  lemma RootSlotIsNext(m: Machine, t: nat)
    requires WellFormed(m) && m.booted == TERMINALS && t < TERMINALS
    ensures LowestFree(Used(m) - {t}) == Some(t)
  {
    forall q | 0 <= q < t ensures q in Used(m) - {t} { RootSlotUsed(m, q); }
    hide *;
    assert t !in Used(m) - {t};
  }

  /** So a root shell never moves: halting it changes nothing, and the program starts afresh. */
  lemma RootRestartsInPlace(m: Machine)
    requires WellFormed(m) && m.booted == TERMINALS && |m.stacks[m.scheduled]| == 1
    ensures HaltStep(m) == (m, Start(m.scheduled))
  {
    var t := m.scheduled;
    RootSlotUsed(m, t);
    RootSlotIsNext(m, t);
    PopPush(m);
    hide WellFormed, Used, LowestFree, Push, Pop;
  }

  /** The restarted shell finds what it had open still open: its table is fresh exactly if that was nothing. */
  lemma RestartedTableFreshExactly(m: Machine)
    requires WellFormed(m) && m.booted == TERMINALS && |m.stacks[m.scheduled]| == 1
    ensures |Leaf(m, m.scheduled).fds| == 8 && |HaltStep(m).0.stacks| == TERMINALS
    ensures HaltStep(m).0.stacks[m.scheduled] != []
    ensures Leaf(HaltStep(m).0, m.scheduled).fds == FRESH_TABLE <==>
            forall fd :: !IsOpen(Leaf(m, m.scheduled).fds, fd)
  {
    RootRestartsInPlace(m);
    LeafTable(m);
    var fds := Leaf(m, m.scheduled).fds;
    hide WellFormed, HaltStep;
    if forall fd :: !IsOpen(fds, fd) {
      forall i | 2 <= i < 8 ensures fds[i] == CLOSED { assert !IsOpen(fds, i) && FdOk(fds[i]); }
      assert fds == FRESH_TABLE;
    }
  }

  lemma SetTopOk(stack: seq<Proc>, t: nat, fds: seq<Fd>)
    requires StackOk(stack, t) && stack != [] && TableOk(fds)
    ensures StackOk(SetTop(stack, fds), t)
    ensures Pids(SetTop(stack, fds)) == Pids(stack)
  {
    var s := SetTop(stack, fds);
    assert forall i | 0 <= i < |s| :: s[i].pid == stack[i].pid && s[i].caller == stack[i].caller;
    hide TableOk, InKernelStack;
    forall i | 0 < i < |s| ensures CallerOk(s, i) { assert CallerOk(stack, i); }
  }

  lemma SetTableKeeps(m: Machine, fds: seq<Fd>)
    requires WellFormed(m) && m.booted == TERMINALS && TableOk(fds)
    ensures WellFormed(SetTable(m, fds))
  {
    var t := m.scheduled;
    assert StackOk(m.stacks[t], t);
    hide StackOk, Pids, Used, TableOk, InKernelStack, SetTop;
    SetTopOk(m.stacks[t], t, fds);
    SetTopLeaf(m.stacks[t], fds);
    ReplaceKeeps(m, SetTable(m, fds), t);
  }

  lemma SetTopLeaf(stack: seq<Proc>, fds: seq<Fd>)
    requires stack != []
    ensures |SetTop(stack, fds)| == |stack|
  {
  }

  lemma SaveKeeps(m: Machine, frame: int)
    requires WellFormed(m) && Admissible(m, Tick(frame))
    ensures WellFormed(SaveFrame(m, frame))
    ensures WellFormed(ClearQuit(SaveFrame(m, frame)))
  {
  }

  /** While terminals boot, the processes are exactly the root shells started so far. */
  lemma BootSlot(m: Machine)
    requires WellFormed(m) && m.booted < TERMINALS
    ensures LowestFree(Used(m)) == Some(m.booted)
    ensures m.booted !in Used(m)
  {
    forall q | 0 <= q < m.booted ensures q in Used(m) {
      RootSlotUsed(m, q);
    }
    forall q | 0 <= q < TERMINALS ensures m.booted !in Pids(m.stacks[q]) {
      if q >= m.booted { assert m.stacks[q] == []; }
    }
  }

  /** Each of the first three ticks starts the root shell of the next terminal in its own slot. */
  lemma BootStarts(m: Machine)
    requires WellFormed(m) && m.booted < TERMINALS
    ensures BootStep(m) ==
            (m.(booted := m.booted + 1, scheduled := m.booted,
                stacks := m.stacks[m.booted := [Proc(m.booted, None, FRESH_TABLE)]]),
             Start(m.booted))
  {
    BootSlot(m);
    var shell := Proc(m.booted, None, FRESH_TABLE);
    assert m.stacks[m.booted] == [] && [] + [shell] == [shell];
    hide StackOk, Pids, Used, LowestFree;
  }

  lemma BootKeeps(m: Machine)
    requires WellFormed(m) && m.booted < TERMINALS
    requires m.booted == 0 || InKernelStack(m.saved[m.scheduled], Leaf(m, m.scheduled).pid)
    ensures WellFormed(BootStep(m).0)
  {
    hide StackOk, Pids, Used, InKernelStack, BootStep, LowestFree;
    BootStarts(m);
    BootSlot(m);
    ShellStackOk(m.booted);
    ReplaceKeeps(m, BootStep(m).0, m.booted);
  }

  lemma ShellStackOk(t: nat)
    requires t < TERMINALS
    ensures StackOk([Proc(t, None, FRESH_TABLE)], t) && Pids([Proc(t, None, FRESH_TABLE)]) == {t}
  {
    assert [Proc(t, None, FRESH_TABLE)][0].pid == t;
  }

  lemma RotateKeeps(m: Machine)
    requires WellFormed(m) && m.booted == TERMINALS
    requires InKernelStack(m.saved[m.scheduled], Leaf(m, m.scheduled).pid)
    ensures WellFormed(Rotate(m).0)
  {
    hide StackOk, Pids, InKernelStack;
  }

  lemma ExecuteKeeps(m: Machine, loadable: bool, frame: int)
    requires WellFormed(m) && Admissible(m, Execute(loadable, frame))
    ensures WellFormed(ExecuteStep(m, loadable, frame).0)
  {
    match LowestFree(Used(m))
    case Some(p) => if loadable { PushKeeps(m, Proc(p, Some(frame), FRESH_TABLE)); }
    case None =>
  }

  lemma HaltKeeps(m: Machine)
    requires WellFormed(m) && m.booted == TERMINALS
    ensures WellFormed(HaltStep(m).0)
  {
    if |m.stacks[m.scheduled]| == 1 { RootRestartsInPlace(m); } else { PopKeeps(m); }
  }

  lemma TickKeeps(m: Machine, frame: int)
    requires WellFormed(m) && Admissible(m, Tick(frame))
    ensures WellFormed(TickStep(m, frame).0)
  {
    SaveKeeps(m, frame);
    var m1 := SaveFrame(m, frame);
    hide StackOk, Pids, InKernelStack, BootStep, Rotate, HaltStep;
    if m.booted < TERMINALS {
      BootKeeps(m1);
    } else if FirstSwitch(m).None? {
      if m.quits[m.scheduled] { HaltKeeps(ClearQuit(m1)); } else { RotateKeeps(m1); }
    }
  }

  lemma OpenKeeps(fds: seq<Fd>, found: Option<Entry>)
    requires TableOk(fds)
    ensures TableOk(OpenTable(fds, found).0)
  {
  }

  lemma StepKeeps(m: Machine, e: Event)
    requires WellFormed(m) && Admissible(m, e)
    ensures WellFormed(Step(m, e).0)
  {
    match e
    case Tick(frame) => TickKeeps(m, frame);
    case Execute(loadable, frame) => ExecuteKeeps(m, loadable, frame);
    case Halt => HaltKeeps(m);
    case SwitchKey(_) =>
    case QuitKey =>
    case Open(found) =>
      LeafTable(m);
      var fds := Leaf(m, m.scheduled).fds;
      OpenKeeps(fds, found);
      SetTableKeeps(m, OpenTable(fds, found).0);
    case Close(fd) =>
      LeafTable(m);
      var fds := Leaf(m, m.scheduled).fds;
      if IsOpen(fds, fd) { SetTableKeeps(m, fds[fd := CLOSED]); }
    case Move(fd, position) =>
      LeafTable(m);
      var fds := Leaf(m, m.scheduled).fds;
      if IsOpen(fds, fd) { SetTableKeeps(m, fds[fd := fds[fd].(position := position)]); }
  }

  lemma LeafTable(m: Machine)
    requires WellFormed(m) && m.booted == TERMINALS
    ensures TableOk(Leaf(m, m.scheduled).fds)
  {
  }

  // ---------------------------------------------------------------- runs

  ghost function Next(m: Machine, e: Event): (r: Machine)
    requires WellFormed(m) && Admissible(m, e)
    ensures WellFormed(r)
  {
    StepKeeps(m, e);
    Step(m, e).0
  }

  ghost predicate AdmissibleRun(m: Machine, es: seq<Event>)
    requires WellFormed(m)
    decreases |es|
  {
    es == [] || (Admissible(m, es[0]) && AdmissibleRun(Next(m, es[0]), es[1..]))
  }

  ghost function Run(m: Machine, es: seq<Event>): (r: Machine)
    requires WellFormed(m) && AdmissibleRun(m, es)
    ensures WellFormed(r)
    decreases |es|
  {
    if es == [] then m else Run(Next(m, es[0]), es[1..])
  }
}
