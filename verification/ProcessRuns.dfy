/** What holds of the process machine over every run. */
module ProcessRuns {
  import opened Basics
  import opened ProcessModel

  // ---------------------------------------------------------------- capacity

  lemma InjectiveSize(stack: seq<Proc>)
    requires forall i, j | 0 <= i < j < |stack| :: stack[i].pid != stack[j].pid
    ensures |Pids(stack)| == |stack|
  {
    if stack != [] {
      var s := stack[..|stack| - 1];
      InjectiveSize(s);
      forall q | q in Pids(stack) - {stack[|stack| - 1].pid} ensures q in Pids(s) {
        var i :| 0 <= i < |stack| && stack[i].pid == q;
        assert s[i].pid == q;
      }
      assert Pids(stack) == Pids(s) + {stack[|stack| - 1].pid};
    }
  }

  /** No two processes share a slot, so there are never more than six of them. */
  lemma CountIsUsed(m: Machine)
    requires WellFormed(m)
    ensures Count(m) == |Used(m)| <= SLOTS
    ensures Count(m) == SLOTS <==> LowestFree(Used(m)).None?
  {
    InjectiveSize(m.stacks[0]);
    InjectiveSize(m.stacks[1]);
    InjectiveSize(m.stacks[2]);
    FullSet(Used(m), SLOTS);
  }

  lemma PushPop(m: Machine, p: Proc)
    requires |m.stacks| == TERMINALS && m.scheduled < TERMINALS
    ensures Pop(Push(m, p)) == m && Leaf(Push(m, p), m.scheduled) == p
    ensures Count(Push(m, p)) == Count(m) + 1
  {
    var s := m.stacks[m.scheduled];
    assert (s + [p])[..|s|] == s;
    assert Pop(Push(m, p)).stacks == m.stacks;
  }

  /** Executing a valid program fails exactly when six processes exist, and then changes nothing. */
  lemma ExecuteFailsExactlyWhenFull(m: Machine, frame: int)
    requires WellFormed(m) && Admissible(m, Execute(true, frame))
    ensures Step(m, Execute(true, frame)).1 == Return(-1) <==> Count(m) == SLOTS
    ensures Count(m) == SLOTS ==> Next(m, Execute(true, frame)) == m
    ensures Admissible(m, Execute(false, frame)) && Step(m, Execute(false, frame)) == (m, Return(-1))
    ensures Count(m) < SLOTS ==>
              var r := Next(m, Execute(true, frame));
              && Count(r) == Count(m) + 1 && Pop(r) == m
              && Leaf(r, m.scheduled).caller == Some(frame) && Leaf(r, m.scheduled).fds == FRESH_TABLE
  {
    CountIsUsed(m);
    assert Admissible(m, Execute(false, frame));
    hide WellFormed, Used, LowestFree, Push, Pop, Leaf, Admissible;
    if Count(m) < SLOTS {
      var p := LowestFree(Used(m)).value;
      PushPop(m, Proc(p, Some(frame), FRESH_TABLE));
    }
  }

  // ---------------------------------------------------------------- stack discipline

  /** How one step may change the stack of the running terminal, and that it touches no other. */
  ghost predicate OneStackStep(s: seq<Proc>, r: seq<Proc>) {
    && s != [] && r != [] && |s| - 1 <= |r|
    && r[..|s| - 1] == s[..|s| - 1]
    && (|s| <= |r| ==> r[|s| - 1].pid == s[|s| - 1].pid && r[|s| - 1].caller == s[|s| - 1].caller)
  }

  ghost predicate Touches(m: Machine, n: Machine)
    requires WellFormed(m) && WellFormed(n)
  {
    && m.booted == n.booted == TERMINALS
    && (forall u | 0 <= u < TERMINALS && u != m.scheduled :: n.stacks[u] == m.stacks[u])
    && OneStackStep(m.stacks[m.scheduled], n.stacks[m.scheduled])
  }

  lemma OneStackSteps(s: seq<Proc>, p: Proc, fds: seq<Fd>)
    requires s != []
    ensures OneStackStep(s, s) && OneStackStep(s, s + [p]) && OneStackStep(s, SetTop(s, fds))
    ensures |s| > 1 ==> OneStackStep(s, s[..|s| - 1])
  {
  }

  lemma HaltTouchesOneStack(m: Machine)
    requires WellFormed(m) && m.booted == TERMINALS
    ensures WellFormed(HaltStep(m).0) && Touches(m, HaltStep(m).0)
    ensures HaltStep(m).0 == m.(stacks := HaltStep(m).0.stacks)
  {
    HaltKeeps(m);
    ShapeOf(m);
    if |m.stacks[m.scheduled]| == 1 { RootRestartsInPlace(m); }
    OneStackSteps(m.stacks[m.scheduled], m.stacks[m.scheduled][0], []);
    hide WellFormed, LowestFree, Used, OneStackStep;
  }

  lemma TickTouchesOneStack(m: Machine, frame: int)
    requires WellFormed(m) && Admissible(m, Tick(frame)) && m.booted == TERMINALS
    ensures WellFormed(TickStep(m, frame).0) && Touches(m, TickStep(m, frame).0)
  {
    TickKeeps(m, frame);
    SaveKeeps(m, frame);
    ShapeOf(m);
    if FirstSwitch(m).None? && m.quits[m.scheduled] { HaltTouchesOneStack(ClearQuit(SaveFrame(m, frame))); }
    OneStackSteps(m.stacks[m.scheduled], m.stacks[m.scheduled][0], []);
    hide WellFormed, OneStackStep, HaltStep, BootStep;
  }

  /** One step changes only the stack of the scheduled terminal, and there only its top. */
  lemma StepTouchesOneStack(m: Machine, e: Event)
    requires WellFormed(m) && Admissible(m, e) && m.booted == TERMINALS
    ensures Touches(m, Next(m, e))
  {
    StepKeeps(m, e);
    ShapeOf(m);
    var s := m.stacks[m.scheduled];
    OneStackSteps(s, s[0], []);
    match e
    case Tick(frame) => TickTouchesOneStack(m, frame); hide *;
    case Halt => HaltTouchesOneStack(m);
    case Execute(_, frame) =>
      hide WellFormed, LowestFree, Used, OneStackStep, Admissible;
      var free := LowestFree(Used(m));
      if free.Some? { OneStackSteps(s, Proc(free.value, Some(frame), FRESH_TABLE), []); }
    case Open(found) =>
      hide WellFormed, OneStackStep, Admissible, OpenTable, SetTop;
      OneStackSteps(s, s[0], OpenTable(Leaf(m, m.scheduled).fds, found).0);
    case Close(fd) =>
      var fds := Leaf(m, m.scheduled).fds;
      hide WellFormed, OneStackStep, Admissible, SetTop;
      if IsOpen(fds, fd) { OneStackSteps(s, s[0], fds[fd := CLOSED]); }
    case Move(fd, position) =>
      var fds := Leaf(m, m.scheduled).fds;
      hide WellFormed, OneStackStep, Admissible, SetTop;
      if IsOpen(fds, fd) { OneStackSteps(s, s[0], fds[fd := fds[fd].(position := position)]); }
    case _ =>
  }

  /** Through the whole run, terminal `t` keeps at least `h` processes. */
  ghost predicate StaysAbove(m: Machine, es: seq<Event>, t: nat, h: nat)
    requires WellFormed(m) && AdmissibleRun(m, es) && t < TERMINALS
    decreases |es|
  {
    |m.stacks[t]| >= h && (es == [] || StaysAbove(Next(m, es[0]), es[1..], t, h))
  }

  /** What lies below a level that is never left stays as it is, whatever all terminals do. */
  lemma {:induction false} LowerStackIsKept(m: Machine, es: seq<Event>, t: nat, h: nat)
    requires WellFormed(m) && AdmissibleRun(m, es) && m.booted == TERMINALS && t < TERMINALS && h > 0
    requires StaysAbove(m, es, t, h)
    ensures var r := Run(m, es);
            && r.booted == TERMINALS && |r.stacks[t]| >= h
            && r.stacks[t][..h - 1] == m.stacks[t][..h - 1]
            && r.stacks[t][h - 1].pid == m.stacks[t][h - 1].pid
            && r.stacks[t][h - 1].caller == m.stacks[t][h - 1].caller
    decreases |es|
  {
    hide WellFormed, Admissible, Next;
    if es != [] {
      var n := Next(m, es[0]);
      StepTouchesOneStack(m, es[0]);
      ShapeOf(m);
      ShapeOf(n);
      LowerStackIsKept(n, es[1..], t, h);
      var s, r := m.stacks[t], n.stacks[t];
      assert s[..|s| - 1][..h - 1] == s[..h - 1];
      assert r[..|s| - 1][..h - 1] == r[..h - 1];
      assert h < |s| ==> s[h - 1] == s[..|s| - 1][h - 1] && r[h - 1] == r[..|s| - 1][h - 1];
    }
  }

  lemma LeafHalts(m: Machine)
    requires WellFormed(m) && m.booted == TERMINALS && |m.stacks[m.scheduled]| > 1
    ensures Admissible(m, Halt) && Leaf(m, m.scheduled).caller.Some?
    ensures Step(m, Halt).1 == Resume(Leaf(m, m.scheduled).caller.value)
    ensures Next(m, Halt).stacks[m.scheduled] == m.stacks[m.scheduled][..|m.stacks[m.scheduled]| - 1]
  {
    assert StackOk(m.stacks[m.scheduled], m.scheduled);
    assert CallerOk(m.stacks[m.scheduled], |m.stacks[m.scheduled]| - 1);
    hide StackOk, InKernelStack, Used, Pids;
  }

  /** The tick that serves CTRL+C halts the running program just as its own halt does. */
  lemma LeafQuits(m: Machine, tick: int)
    requires WellFormed(m) && m.booted == TERMINALS && |m.stacks[m.scheduled]| > 1
    requires Admissible(m, Tick(tick)) && FirstSwitch(m).None? && m.quits[m.scheduled]
    ensures Leaf(m, m.scheduled).caller.Some?
    ensures Step(m, Tick(tick)).1 == Resume(Leaf(m, m.scheduled).caller.value)
    ensures Next(m, Tick(tick)).stacks[m.scheduled] == m.stacks[m.scheduled][..|m.stacks[m.scheduled]| - 1]
  {
    SaveKeeps(m, tick);
    ShapeOf(m);
    LeafHalts(ClearQuit(SaveFrame(m, tick)));
    hide WellFormed, InKernelStack, FirstSwitch;
  }

  /**
   * A program started with `Execute` and ended, by its own halt or by CTRL+C, after any run in which
   * its terminal never fell below it: the very frame that execute saved is resumed, and the
   * terminal's stack is what it was before, whatever other programs were started and halted there
   * and elsewhere.
   */
  lemma HaltReturnsToItsExecute(m: Machine, frame: int, es: seq<Event>, last: Event)
    requires WellFormed(m) && Admissible(m, Execute(true, frame)) && Count(m) < SLOTS
    requires var child := Next(m, Execute(true, frame));
             var t, h := m.scheduled, |m.stacks[m.scheduled]| + 1;
             && AdmissibleRun(child, es) && StaysAbove(child, es, t, h)
             && Run(child, es).scheduled == t && |Run(child, es).stacks[t]| == h
    requires var end := Run(Next(m, Execute(true, frame)), es);
             || last == Halt
             || (last.Tick? && Admissible(end, last) && FirstSwitch(end).None? && end.quits[end.scheduled])
    ensures var end := Run(Next(m, Execute(true, frame)), es);
            && Admissible(end, last)
            && Step(end, last).1 == Resume(frame)
            && Next(end, last).stacks[m.scheduled] == m.stacks[m.scheduled]
  {
    hide WellFormed, AdmissibleRun, StaysAbove, Run, Next, Admissible, Step, FirstSwitch;
    ExecuteFailsExactlyWhenFull(m, frame);
    ShapeOf(m);
    var child := Next(m, Execute(true, frame));
    var t, h := m.scheduled, |m.stacks[m.scheduled]| + 1;
    ShapeOf(child);
    LowerStackIsKept(child, es, t, h);
    var end := Run(child, es);
    ShapeOf(end);
    LeafHalts(end);
    if last.Tick? { LeafQuits(end, last.frame); }
  }

  // ---------------------------------------------------------------- frames resumed

  /** A resumed frame lies in the kernel stack of the process then running; a program just started is that process. */
  ghost predicate ControlOk(n: Machine, c: Control)
    requires WellFormed(n)
  {
    && (c.Resume? ==> n.stacks[n.scheduled] != [] && InKernelStack(c.frame, Leaf(n, n.scheduled).pid))
    && (c.Start? ==> n.stacks[n.scheduled] != [] && c.pid == Leaf(n, n.scheduled).pid)
  }

  lemma HaltResumesParent(m: Machine)
    requires WellFormed(m) && m.booted == TERMINALS
    ensures WellFormed(HaltStep(m).0) && ControlOk(HaltStep(m).0, HaltStep(m).1)
  {
    HaltKeeps(m);
    ShapeOf(m);
    var s := m.stacks[m.scheduled];
    assert StackOk(s, m.scheduled);
    if |s| > 1 { assert CallerOk(s, |s| - 1); } else { RootRestartsInPlace(m); RootSlotUsed(m, m.scheduled); }
    hide WellFormed, LowestFree, Used, InKernelStack, StackOk;
  }

  lemma BootRunsShell(m: Machine)
    requires WellFormed(m) && m.booted < TERMINALS && WellFormed(BootStep(m).0)
    ensures ControlOk(BootStep(m).0, BootStep(m).1)
  {
    BootStarts(m);
    ShapeOf(m);
    hide WellFormed, BootStep;
  }

  lemma RotateResumesLeaf(m: Machine)
    requires WellFormed(m) && m.booted == TERMINALS && WellFormed(Rotate(m).0)
    ensures ControlOk(Rotate(m).0, Rotate(m).1)
  {
    ShapeOf(m);
    assert SavedOk(m);
    hide WellFormed, InKernelStack;
  }

  lemma TickResumes(m: Machine, frame: int)
    requires WellFormed(m) && Admissible(m, Tick(frame))
    ensures WellFormed(TickStep(m, frame).0) && ControlOk(TickStep(m, frame).0, TickStep(m, frame).1)
  {
    TickKeeps(m, frame);
    SaveKeeps(m, frame);
    ShapeOf(m);
    var m1 := SaveFrame(m, frame);
    hide WellFormed, BootStep, HaltStep, Rotate, InKernelStack;
    if m.booted < TERMINALS {
      BootRunsShell(m1);
    } else if FirstSwitch(m).None? {
      if m.quits[m.scheduled] { HaltResumesParent(ClearQuit(m1)); } else { RotateResumesLeaf(m1); }
    }
  }

  /** Whatever frame the kernel resumes lies in the kernel stack of the process that then runs. */
  lemma ResumesRunningProcess(m: Machine, e: Event)
    requires WellFormed(m) && Admissible(m, e)
    ensures WellFormed(Step(m, e).0) && ControlOk(Step(m, e).0, Step(m, e).1)
  {
    StepKeeps(m, e);
    match e
    case Tick(frame) => TickResumes(m, frame); hide WellFormed, TickStep, ControlOk;
    case Halt => HaltResumesParent(m); hide WellFormed, HaltStep, ControlOk;
    case _ => hide WellFormed, TickStep, HaltStep, LowestFree, Used, OpenTable, SetTop, InKernelStack;
  }

  // ---------------------------------------------------------------- fairness of the timer

  function Bit(b: bool): nat { if b then 1 else 0 }

  /** Requests not yet served. */
  function Pending(m: Machine): nat
    requires |m.switches| == |m.quits| == TERMINALS
  {
    Bit(m.switches[0]) + Bit(m.switches[1]) + Bit(m.switches[2]) + Bit(m.quits[0]) + Bit(m.quits[1]) + Bit(m.quits[2])
  }

  function Ticks(es: seq<Event>): nat {
    if es == [] then 0 else Bit(es[0].Tick?) + Ticks(es[1..])
  }

  function Keys(es: seq<Event>): nat {
    if es == [] then 0 else Bit(es[0].SwitchKey? || es[0].QuitKey?) + Keys(es[1..])
  }

  /** Terminal `t` is the scheduled one at some point of the run. */
  ghost predicate Runs(m: Machine, es: seq<Event>, t: nat)
    requires WellFormed(m) && AdmissibleRun(m, es)
    decreases |es|
  {
    m.scheduled == t || (es != [] && Runs(Next(m, es[0]), es[1..], t))
  }

  /** The terminal `d` places after `t` in round-robin order. */
  function Ahead(t: nat, d: nat): nat {
    if t + d < TERMINALS then t + d else t + d - TERMINALS
  }

  lemma SaveServesNone(m: Machine, frame: int)
    requires |m.switches| == |m.quits| == |m.saved| == TERMINALS && m.scheduled < TERMINALS
    ensures FirstSwitch(SaveFrame(m, frame)) == FirstSwitch(m) && Pending(SaveFrame(m, frame)) == Pending(m)
  {
  }

  lemma SwitchServes(m: Machine)
    requires |m.switches| == |m.quits| == TERMINALS && FirstSwitch(m).Some?
    ensures Pending(SwitchDisplay(m, FirstSwitch(m).value)) == Pending(m) - 1
  {
  }

  lemma QuitServes(m: Machine)
    requires |m.switches| == |m.quits| == TERMINALS && m.scheduled < TERMINALS && m.quits[m.scheduled]
    ensures Pending(ClearQuit(m)) == Pending(m) - 1
  {
  }

  lemma KeyAsks(m: Machine, t: nat)
    requires |m.switches| == |m.quits| == TERMINALS && t < TERMINALS
    ensures Pending(m.(switches := m.switches[t := true])) <= Pending(m) + 1
    ensures Pending(m.(quits := m.quits[t := true])) <= Pending(m) + 1
  {
  }

  /** A tick either passes the processor on or serves one request; only keys make requests. */
  ghost predicate Progress(m: Machine, e: Event, n: Machine)
    requires Shaped(m) && Shaped(n)
  {
    if e.Tick? then
      || (n.scheduled == Ahead(m.scheduled, 1) && Pending(n) == Pending(m))
      || (n.scheduled == m.scheduled && Pending(n) == Pending(m) - 1)
    else
      n.scheduled == m.scheduled && Pending(n) <= Pending(m) + Bit(e.SwitchKey? || e.QuitKey?)
  }

  lemma TickProgress(m: Machine, frame: int)
    requires WellFormed(m) && Admissible(m, Tick(frame)) && m.booted == TERMINALS
    ensures Shaped(m) && Shaped(TickStep(m, frame).0) && Progress(m, Tick(frame), TickStep(m, frame).0)
  {
    hide WellFormed, Admissible, HaltStep, Touches, FirstSwitch;
    TickKeeps(m, frame);
    SaveKeeps(m, frame);
    ShapeOf(m);
    ShapeOf(TickStep(m, frame).0);
    var m1 := SaveFrame(m, frame);
    SaveServesNone(m, frame);
    if FirstSwitch(m).Some? {
      SwitchServes(m1);
      hide Pending;
    } else if m.quits[m.scheduled] {
      QuitServes(m1);
      HaltTouchesOneStack(ClearQuit(m1));
    }
  }

  lemma StepProgress(m: Machine, e: Event)
    requires WellFormed(m) && Admissible(m, e) && m.booted == TERMINALS
    ensures Shaped(m) && Shaped(Next(m, e)) && Progress(m, e, Next(m, e))
  {
    StepKeeps(m, e);
    ShapeOf(m);
    ShapeOf(Next(m, e));
    match e
    case Tick(frame) => TickProgress(m, frame); hide WellFormed, TickStep, Progress;
    case Halt =>
      HaltTouchesOneStack(m);
      hide WellFormed, HaltStep, Touches;
    case SwitchKey(t) => KeyAsks(m, t);
    case QuitKey => KeyAsks(m, m.displayed);
    case _ =>
      hide WellFormed, LowestFree, Used, OpenTable, SetTop;
  }

  /** In a long enough run the processor reaches the terminal `d` places further on. */
  lemma {:induction false} Reaches(m: Machine, es: seq<Event>, d: nat)
    requires WellFormed(m) && AdmissibleRun(m, es) && m.booted == TERMINALS && d < TERMINALS
    requires Ticks(es) >= Pending(m) + Keys(es) + d
    ensures Runs(m, es, Ahead(m.scheduled, d))
    decreases |es|
  {
    hide WellFormed, Admissible, Next, Pending;
    ShapeOf(m);
    if d > 0 {
      assert es != [];
      var n := Next(m, es[0]);
      StepProgress(m, es[0]);
      StepTouchesOneStack(m, es[0]);
      hide OneStackStep;
      Reaches(n, es[1..], if n.scheduled == m.scheduled then d else d - 1);
    }
  }

  /**
   * Every terminal gets the processor within two ticks plus one for each request pending at the
   * start or made meanwhile, whatever the programs do.
   */
  lemma EveryTerminalRuns(m: Machine, es: seq<Event>, t: nat)
    requires WellFormed(m) && AdmissibleRun(m, es) && m.booted == TERMINALS && t < TERMINALS
    requires Ticks(es) >= Pending(m) + Keys(es) + 2
    ensures Runs(m, es, t)
  {
    hide WellFormed, AdmissibleRun, Runs, Pending, Ticks, Keys;
    ShapeOf(m);
    Reaches(m, es, if m.scheduled <= t then t - m.scheduled else t + TERMINALS - m.scheduled);
  }

  /** `n` times: press the switch key of terminal `k`, then let the timer tick. */
  function KeyEachTick(n: nat, k: nat, frame: int): seq<Event> {
    if n == 0 then [] else [SwitchKey(k), Tick(frame)] + KeyEachTick(n - 1, k, frame)
  }

  /** The bound must count new requests: one switch key a tick keeps the processor where it is for ever. */
  lemma {:induction false} KeysCanStarve(m: Machine, n: nat, k: nat, frame: int, t: nat)
    requires WellFormed(m) && m.booted == TERMINALS && k < TERMINALS && t != m.scheduled
    requires FirstSwitch(m).None? && InKernelStack(frame, Leaf(m, m.scheduled).pid)
    ensures var es := KeyEachTick(n, k, frame);
            AdmissibleRun(m, es) && Ticks(es) == n && !Runs(m, es, t)
    decreases n
  {
    hide WellFormed, Admissible, Next, Leaf, InKernelStack;
    ShapeOf(m);
    if n > 0 {
      var es := KeyEachTick(n, k, frame);
      assert es[0] == SwitchKey(k) && es[1..][0] == Tick(frame) && es[1..][1..] == KeyEachTick(n - 1, k, frame);
      ServesKey(m, k, frame);
      var m1 := Next(m, SwitchKey(k));
      var m2 := Next(m1, Tick(frame));
      KeysCanStarve(m2, n - 1, k, frame, t);
    }
  }

  lemma ServesKey(m: Machine, k: nat, frame: int)
    requires WellFormed(m) && m.booted == TERMINALS && k < TERMINALS
    requires FirstSwitch(m).None? && InKernelStack(frame, Leaf(m, m.scheduled).pid)
    ensures Admissible(m, SwitchKey(k))
    ensures var m1 := Next(m, SwitchKey(k));
            && Admissible(m1, Tick(frame))
            && var m2 := Next(m1, Tick(frame));
               && m1.scheduled == m2.scheduled == m.scheduled && m2.booted == TERMINALS
               && FirstSwitch(m2).None? && InKernelStack(frame, Leaf(m2, m2.scheduled).pid)
  {
    ShapeOf(m);
    hide WellFormed, HaltStep, LowestFree, Used;
  }

  // ---------------------------------------------------------------- boot and descriptors

  ghost predicate OnlyTicksAndKeys(es: seq<Event>) {
    forall i | 0 <= i < |es| :: es[i].Tick? || es[i].SwitchKey? || es[i].QuitKey?
  }

  /** The stacks while the first `n` terminals hold only their root shells. */
  function ShellStacks(n: nat): seq<seq<Proc>> {
    seq(TERMINALS, t requires 0 <= t => if t < n then [Proc(t, None, FRESH_TABLE)] else [])
  }

  lemma InitialIsWellFormed(m: Machine)
    requires Initial(m)
    ensures WellFormed(m) && m.stacks == ShellStacks(0)
  {
  }

  lemma BootTick(m: Machine, e: Event)
    requires WellFormed(m) && Admissible(m, e) && m.booted < TERMINALS && OnlyTicksAndKeys([e])
    requires m.stacks == ShellStacks(m.booted)
    ensures Next(m, e).booted == m.booted + Bit(e.Tick?) && Next(m, e).stacks == ShellStacks(Next(m, e).booted)
  {
    hide WellFormed, BootStep, Admissible;
    assert [e][0] == e;
    ShapeOf(m);
    if e.Tick? {
      SaveKeeps(m, e.frame);
      BootStarts(SaveFrame(m, e.frame));
      assert Next(m, e).stacks == m.stacks[m.booted := [Proc(m.booted, None, FRESH_TABLE)]];
    } else {
      KeyKeepsStacks(m, e);
    }
  }

  /**
   * Whatever keys are pressed during boot, the first three ticks start the root shells of
   * terminals 0, 1 and 2 in slots 0, 1 and 2, and nothing else.
   */
  lemma {:induction false} BootStartsThreeShells(m: Machine, es: seq<Event>)
    requires WellFormed(m) && AdmissibleRun(m, es) && OnlyTicksAndKeys(es)
    requires m.stacks == ShellStacks(m.booted) && m.booted + Ticks(es) <= TERMINALS
    ensures Run(m, es).booted == m.booted + Ticks(es)
    ensures Run(m, es).stacks == ShellStacks(m.booted + Ticks(es))
    decreases |es|
  {
    hide WellFormed, Admissible, Next, ShellStacks;
    if es != [] {
      var n := Next(m, es[0]);
      assert OnlyTicksAndKeys([es[0]]) && OnlyTicksAndKeys(es[1..]);
      if m.booted < TERMINALS { BootTick(m, es[0]); } else { StepProgress(m, es[0]); KeyKeepsStacks(m, es[0]); }
      BootStartsThreeShells(n, es[1..]);
    }
  }

  lemma KeyKeepsStacks(m: Machine, e: Event)
    requires WellFormed(m) && Admissible(m, e) && (e.SwitchKey? || e.QuitKey?)
    ensures Next(m, e).stacks == m.stacks && Next(m, e).booted == m.booted
  {
  }

  /** From the state before the first tick. */
  lemma BootRun(m: Machine, es: seq<Event>)
    requires Initial(m) && WellFormed(m) && AdmissibleRun(m, es) && OnlyTicksAndKeys(es) && Ticks(es) <= TERMINALS
    ensures Run(m, es).booted == Ticks(es) && Run(m, es).stacks == ShellStacks(Ticks(es))
  {
    InitialIsWellFormed(m);
    BootStartsThreeShells(m, es);
  }

  /**
   * `sys_open` succeeds exactly when a descriptor is closed and the name is found with a known
   * type, and then returns the lowest one; it fails without a trace exactly when it does not
   * reach the driver: an unknown type leaves the descriptor taken.
   */
  lemma OpenOutcome(m: Machine, found: Option<Entry>)
    requires WellFormed(m) && m.booted == TERMINALS
    ensures Admissible(m, Open(found)) && |Leaf(m, m.scheduled).fds| == 8
    ensures var fds, c := Leaf(m, m.scheduled).fds, Step(m, Open(found)).1;
            var full := forall i | 2 <= i < 8 :: fds[i].flags != 0;
            && c.Return?
            && (c.value >= 0 <==> !full && found.Some? && found.value.fileType <= 2)
            && (c.value < 0 ==> c.value == -1)
            && (c.value >= 0 ==>
                  && 2 <= c.value < 8 && fds[c.value] == CLOSED && (forall i | 2 <= i < c.value :: fds[i].flags != 0)
                  && Leaf(Next(m, Open(found)), m.scheduled).fds == fds[c.value := OpenedAs(found.value)])
            && (c.value < 0 ==> (Next(m, Open(found)) == m <==> full || found.None?))
  {
    ShapeOf(m);
    LeafTable(m);
    hide WellFormed;
    var fds := Leaf(m, m.scheduled).fds;
    SetTopLeaf(m.stacks[m.scheduled], OpenTable(fds, found).0);
    var free := LowestClosed(fds, 2);
    if free.Some? { assert FdOk(fds[free.value]); }
    SetSame(m, OpenTable(fds, found).0);
  }

  /** The descriptor of a freshly opened entry: at its start, and for a file naming the file's inode. */
  function OpenedAs(entry: Entry): Fd {
    if entry.fileType == 0 then Fd(Rtc, 0, 0, 1)
    else if entry.fileType == 1 then Fd(Directory, 0, 0, 1)
    else Fd(File, entry.inode, 0, 1)
  }

  /**
   * `sys_close` succeeds exactly for an open descriptor from 2 to 7: then that one is closed and
   * nothing else changes; otherwise nothing changes at all.
   */
  lemma CloseOutcome(m: Machine, fd: int)
    requires WellFormed(m) && m.booted == TERMINALS
    ensures Admissible(m, Close(fd)) && |Leaf(m, m.scheduled).fds| == 8
    ensures var fds, c := Leaf(m, m.scheduled).fds, Step(m, Close(fd)).1;
            if 2 <= fd < 8 && fds[fd].flags != 0 then
              && c == Return(0) && |m.stacks| == |Next(m, Close(fd)).stacks| == TERMINALS
              && Leaf(Next(m, Close(fd)), m.scheduled).fds == fds[fd := Fd(NoOps, 0, 0, 0)]
              && Next(m, Close(fd)) == SetTable(m, fds[fd := Fd(NoOps, 0, 0, 0)])
            else c == Return(-1) && Next(m, Close(fd)) == m
  {
    ShapeOf(m);
    LeafTable(m);
    hide WellFormed;
    if IsOpen(Leaf(m, m.scheduled).fds, fd) {
      SetTopLeaf(m.stacks[m.scheduled], Leaf(m, m.scheduled).fds[fd := CLOSED]);
    }
  }

  /** Closing what a successful open returned leaves the machine exactly as it was before the open. */
  lemma CloseUndoesOpen(m: Machine, found: Option<Entry>)
    requires WellFormed(m) && m.booted == TERMINALS
    ensures Admissible(m, Open(found))
    ensures var r := Step(m, Open(found)).1;
            r.Return? && r.value >= 0 ==>
              Admissible(Next(m, Open(found)), Close(r.value)) && Next(Next(m, Open(found)), Close(r.value)) == m
  {
    hide WellFormed, OpenTable, LowestClosed, Step, Next, SetTable;
    ShapeOf(m);
    OpenOutcome(m, found);
    OpenIsSet(m, found);
    var r, n := Step(m, Open(found)).1, Next(m, Open(found));
    if r.value >= 0 {
      var fds := Leaf(m, m.scheduled).fds;
      var opened' := fds[r.value := OpenedAs(found.value)];
      SetGives(m, opened');
      CloseOutcome(n, r.value);
      assert opened'[r.value := Fd(NoOps, 0, 0, 0)] == fds;
      SetTwice(m, opened', fds);
      SetSame(m, fds);
    }
  }

  lemma OpenIsSet(m: Machine, found: Option<Entry>)
    requires WellFormed(m) && m.booted == TERMINALS
    ensures Shaped(m) && |Leaf(m, m.scheduled).fds| == 8
    ensures Next(m, Open(found)) == SetTable(m, OpenTable(Leaf(m, m.scheduled).fds, found).0)
    ensures |Next(m, Open(found)).stacks| == TERMINALS && Next(m, Open(found)).stacks[m.scheduled] != []
    ensures Leaf(Next(m, Open(found)), m.scheduled).fds == OpenTable(Leaf(m, m.scheduled).fds, found).0
    ensures Next(m, Open(found)).booted == TERMINALS && Next(m, Open(found)).scheduled == m.scheduled
  {
    hide WellFormed, OpenTable;
    ShapeOf(m);
    LeafTable(m);
  }

  lemma SetGives(m: Machine, fds: seq<Fd>)
    requires Shaped(m) && m.booted == TERMINALS
    ensures |SetTable(m, fds).stacks| == TERMINALS && SetTable(m, fds).scheduled == m.scheduled < TERMINALS
    ensures SetTable(m, fds).stacks[m.scheduled] != []
    ensures Leaf(SetTable(m, fds), m.scheduled).fds == fds
  {
  }

  lemma SetTwice(m: Machine, a: seq<Fd>, b: seq<Fd>)
    requires Shaped(m) && m.booted == TERMINALS
    ensures SetTable(SetTable(m, a), b) == SetTable(m, b)
  {
    var s := m.stacks[m.scheduled];
    assert SetTop(SetTop(s, a), b) == SetTop(s, b);
    assert SetTable(SetTable(m, a), b).stacks == SetTable(m, b).stacks;
  }

  lemma SetSame(m: Machine, fds: seq<Fd>)
    requires Shaped(m) && m.booted == TERMINALS
    ensures SetTable(m, fds) == m <==> fds == Leaf(m, m.scheduled).fds
  {
    var s := m.stacks[m.scheduled];
    var r := SetTable(m, fds).stacks[m.scheduled];
    assert r[|s| - 1].fds == fds;
    if fds == Leaf(m, m.scheduled).fds {
      assert r == s;
      assert SetTable(m, fds).stacks == m.stacks;
    }
  }
}
