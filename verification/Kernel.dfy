/**
 * The system calls and interrupt handlers that change the process table, as they update the
 * kernel's variables in place. Each one does to the represented machine exactly one step.
 */
module Kernel {
  import opened Basics
  import opened ProcessModel
  import opened ProcessTable
  import ProcessRuns
  import opened OpenFiles
  import FS = FileSystem

  const SHELL: FS.CString := [115, 104, 101, 108, 108]
  const MAGIC: seq<byte> := [0x7F, 0x45, 0x4C, 0x46]

  /** Every directory entry's inode exists. */
  ghost predicate Linked(img: FS.Image) {
    FS.ImageOk(img) && forall i | 0 <= i < FS.ENTRIES :: img.dentries[i].inode < |img.inodes|
  }

  ghost predicate IsProgram(img: FS.Image, name: FS.CString) {
    && FS.ImageOk(img) && FS.Lookup(img, name).Some?
    && var inode := FS.Lookup(img, name).value.inode;
       FS.ValidFile(img, inode) && img.inodes[inode].length >= 4 && FS.Contents(img, inode)[..4] == MAGIC
  }

  /**
   * The file checks of `sys_execute` pass: the name is found, the blocks behind the first 30 bytes exist,
   * and the magic number stands in the first four bytes of the buffer, which held `stack` before.
   */
  ghost predicate Passes(img: FS.Image, name: FS.CString, stack: seq<byte>)
    requires Linked(img) && |stack| == 30
  {
    FS.Lookup(img, name).Some? &&
    (FS.LookupExact(img, name);
     var inode := FS.Lookup(img, name).value.inode;
     && FS.GoodRange(img, inode, 0, FS.UpperBound(img.inodes[inode].length, 0, 30))
     && forall i | 0 <= i < 4 ::
          if i < img.inodes[inode].length then FS.StoredAt(img, inode, i, MAGIC[i]) else stack[i] == MAGIC[i])
  }

  method CheckProgram(img: FS.Image, name: FS.CString, magic: array<byte>) returns (ok: bool)
    requires Linked(img) && magic.Length == 30
    modifies magic
    ensures ok <==> Passes(img, name, old(magic[..]))
  {
    hide FS.GoodRange, FS.ValidFile, FS.Contents, FS.Lookup;
    ghost var stack := magic[..];
    var entry := FS.ReadDentryByName(img, name);
    if entry.None? { return false; }
    FS.LookupExact(img, name);
    var inode := entry.value.inode;
    assert FS.InodeOk(img.inodes[inode]);
    var r := FS.ReadData(img, inode, 0, magic, 0, 30);
    if r == -1 { return false; }
    ok := magic[0] == MAGIC[0] && magic[1] == MAGIC[1] && magic[2] == MAGIC[2] && magic[3] == MAGIC[3];
    assert forall i | 0 <= i < 4 && i >= r :: magic[i] == stack[i];
    forall i | 0 <= i < 4 && i < r ensures FS.StoredAt(img, inode, i, magic[i]) {
      assert FS.StoredAt(img, inode, 0 + i, magic[0..r][i]);
    }
  }

  lemma ProgramPasses(img: FS.Image, name: FS.CString, stack: seq<byte>)
    requires Linked(img) && |stack| == 30 && IsProgram(img, name)
    ensures Passes(img, name, stack)
  {
    PassesExactly(img, name, stack);
  }

  /** A valid file of at least four bytes passes exactly if it starts with the ELF magic number. */
  lemma PassesExactly(img: FS.Image, name: FS.CString, stack: seq<byte>)
    requires Linked(img) && |stack| == 30 && FS.Lookup(img, name).Some?
    requires var inode := FS.Lookup(img, name).value.inode;
             FS.ValidFile(img, inode) && img.inodes[inode].length >= 4
    ensures Passes(img, name, stack) <==> IsProgram(img, name)
  {
    var inode := FS.Lookup(img, name).value.inode;
    var content := FS.Contents(img, inode);
    FS.ValidIsGood(img, inode, 0, FS.UpperBound(img.inodes[inode].length, 0, 30));
    forall i | 0 <= i < 4 ensures FS.StoredAt(img, inode, i, MAGIC[i]) <==> content[i] == MAGIC[i] {
      FS.ContentsAt(img, inode, i);
    }
    hide FS.StoredAt, FS.GoodRange, FS.ValidFile, FS.Lookup, FS.UpperBound;
    assert content[..4] == MAGIC <==> forall i | 0 <= i < 4 :: content[..4][i] == MAGIC[i];
  }

  lemma DoesInFiles(img: FS.Image, m: Machine, e: Event, n: Machine, c: Control)
    requires Linked(img) && Does(m, e, n, c) && InFiles(img, m.stacks) && RespectsImage(img, m, e)
    ensures InFiles(img, n.stacks)
  {
    assert img.dentries[0].inode < |img.inodes|;
    hide WellFormed, Admissible, Step, InFiles;
    StepInFiles(img, m, e);
  }

  /** The part of a directory entry that `sys_open` uses. */
  function EntryOf(found: Option<FS.Dentry>): Option<Entry> {
    match found
    case None => None
    case Some(d) => Some(Entry(d.fileType, d.inode))
  }

  /** How many bytes a read of `n` through descriptor `fd` may store. */
  ghost function Room(img: FS.Image, fd: Fd, n: nat): int
    requires FS.ImageOk(img)
  {
    if fd.ops == File && fd.inode < |img.inodes| then
      FS.UpperBound(img.inodes[fd.inode].length, fd.position, n) - fd.position
    else if fd.ops == Directory && fd.position <= 62 && img.dentries[fd.position].fileType < 256 then
      |FS.Listed(img.dentries[fd.position], n)|
    else 0
  }

  /** The result of a call dispatched through a jump table. */
  datatype Dispatch =
    | Refused                 // -1 before any driver is called
    | Done(value: int)        // the driver's result
    | Driver(ops: Ops)        // handed to a device driver, which this module does not follow

  /** What a read of `n` bytes from a regular file delivers. */
  ghost predicate FileServed(
    img: FS.Image, fds: seq<Fd>, fd: nat, n: nat, r: int, position: nat, at: nat, buf: seq<byte>)
    requires FS.ImageOk(img)
  {
    && fd < |fds|
    && var e := fds[fd];
       && (e.inode > FS.MAX_INODE ==> r == -1)
       && (e.inode <= FS.MAX_INODE && FS.ValidFile(img, e.inode) ==>
             && e.position <= |FS.Contents(img, e.inode)| && n < TWO_32
             && var s := FS.ReadStep(FS.Contents(img, e.inode), e.position, n);
                && r == s.value && position == s.position
                && at + |s.bytes| <= |buf| && buf[at..at + |s.bytes|] == s.bytes)
       && position == if r == -1 then e.position else e.position + r
  }

  /** What a read of `n` bytes from the directory delivers. */
  ghost predicate DirectoryServed(
    img: FS.Image, fds: seq<Fd>, fd: nat, n: nat, r: int, position: nat, at: nat, buf: seq<byte>)
    requires FS.ImageOk(img)
  {
    && fd < |fds|
    && var p := fds[fd].position;
       if p > 62 then r == -1 && position == p
       else
         && img.dentries[p].fileType < 256
         && var out := FS.Listed(img.dentries[p], n);
            && r == |out| && position == p + 1 && at + |out| <= |buf| && buf[at..at + |out|] == out
  }

  ghost predicate ReadServed(
    img: FS.Image, fds: seq<Fd>, fd: int, n: nat, d: Dispatch, position: nat, at: nat, buf: seq<byte>)
    requires FS.ImageOk(img)
  {
    && |fds| == 8
    && if fd == 1 || fd < 0 || fd > 7 || fds[fd].flags == 0 then d == Refused
       else match fds[fd].ops
         case NoOps => false
         case StdOut => false
         case File => d.Done? && FileServed(img, fds, fd, n, d.value, position, at, buf)
         case Directory => d.Done? && DirectoryServed(img, fds, fd, n, d.value, position, at, buf)
         case ops => d == Driver(ops)
  }

  class Kernel {
    const img: FS.Image
    const active: array<int>              // processes_active
    const pcbs: array<Pcb>                // the blocks PCB_array points to
    const terminals: array<TerminalInfo>  // terminal_processes
    const sigquit: array<bool>            // SIGQUIT_FLAG
    var terminal1Switch: bool
    var terminal2Switch: bool
    var terminal3Switch: bool
    var current: int                      // current_process_idx
    var scheduled: int
    var displayed: int
    var numActive: int
    var noParent: bool                    // no_parent_shell_flag
    var shellCount: int
    var pageBase: int                     // page_directory[32]
    var esp0: int                         // tss.esp0
    ghost var model: Machine

    ghost function Snapshot(): Tables
      reads this, active, pcbs, terminals, sigquit
    {
      Tables(active[..], pcbs[..], terminals[..], sigquit[..], [terminal1Switch, terminal2Switch, terminal3Switch],
             current, scheduled, displayed, numActive, noParent, shellCount, pageBase, esp0)
    }

    ghost predicate Valid()
      reads this, active, pcbs, terminals, sigquit
    {
      Linked(img) && IsProgram(img, SHELL) && Represents(Snapshot(), model) && InFiles(img, model.stacks)
    }

    /** `terminal_init` on zeroed memory. */
    constructor (img: FS.Image)
      requires Linked(img) && IsProgram(img, SHELL)
      ensures Valid() && fresh(active) && fresh(pcbs) && fresh(terminals) && fresh(sigquit)
      ensures this.img == img && Initial(model) && Count(model) == 0
    {
      this.img := img;
      active := new int[6](_ => 0);
      pcbs := new Pcb[6](_ => Pcb(0, 0, 0, EMPTY_TABLE));
      terminals := new TerminalInfo[3](i => TerminalInfo(i, 0));
      sigquit := new bool[3](_ => false);
      terminal1Switch, terminal2Switch, terminal3Switch := false, false, false;
      current, scheduled, displayed := 0, 0, 0;
      numActive, noParent, shellCount, pageBase, esp0 := 0, true, 0, 0, EIGHT_MB;
      model := INITIAL_MACHINE;
      new;
      hide Represents;
      InitialRepresents();
      assert Snapshot() == INITIAL_TABLES;
    }

    /** ALT+F1, F2 or F3. */
    method SwitchKey(t: nat)
      requires Valid() && t < TERMINALS
      modifies this
      ensures Valid() && Does(old(model), Event.SwitchKey(t), model, Return(0))
    {
      hide Represents, Does, InFiles;
      ghost var k := Snapshot();
      SwitchKeyRepresents(k, model, t);
      Sizes(k, model);
      match t {
        case 0 => terminal1Switch := true;
        case 1 => terminal2Switch := true;
        case _ => terminal3Switch := true;
      }
      model := model.(switches := model.switches[t := true]);
      assert Snapshot() == k.(switches := k.switches[t := true]);
    }

    /** CTRL+C. */
    method QuitKey()
      requires Valid()
      modifies this, sigquit
      ensures Valid() && Does(old(model), Event.QuitKey, model, Return(0))
    {
      hide Represents, Does, InFiles;
      ghost var k := Snapshot();
      QuitKeyRepresents(k, model);
      Sizes(k, model);
      sigquit[displayed] := true;
      model := model.(quits := model.quits[model.displayed := true]);
      assert Snapshot() == k.(sigquit := k.sigquit[displayed := true]);
    }

    // -------------------------------------------------------------- starting programs

    ghost predicate Sized()
      reads this, active, pcbs, terminals
    {
      && active.Length == pcbs.Length == SLOTS && terminals.Length == TERMINALS && 0 <= scheduled < TERMINALS
      && forall p | 0 <= p < SLOTS :: |pcbs[p].fds| == 8
    }

    /** The slot search; 500 stands for "none". */
    method FindIdle() returns (pid: int)
      requires active.Length == SLOTS
      ensures var p := FirstIdle(active[..], 0); pid == if p.Some? then p.value else 500
    {
      pid := 500;
      var i := 0;
      while i < SLOTS
        invariant 0 <= i <= SLOTS && pid == 500
        invariant FirstIdle(active[..], 0) == FirstIdle(active[..], i)
      {
        if active[i] == 0 { return i; }
        i := i + 1;
      }
    }

    /** The assignments made inside the slot search: the slot, its parent link, its page. */
    method TakeSlot(pid: nat)
      requires Sized() && pid < SLOTS
      modifies this, active, pcbs
      ensures model == old(model)
      ensures Snapshot() == Taken(old(Snapshot()), pid)
    {
      numActive := numActive + 1;
      active[pid] := 1;
      if noParent {
        pcbs[pid] := pcbs[pid].(parent := -1);
        noParent := false;
      } else {
        pcbs[pid] := pcbs[pid].(parent := current);
      }
      pageBase := pid + 2;
    }

    /** The assignments after the program is loaded. */
    method Install(pid: nat, ebp: int)
      requires Sized() && pid < SLOTS
      modifies this, pcbs, terminals
      ensures model == old(model)
      ensures Snapshot() == Installed(old(Snapshot()), pid, ebp)
    {
      terminals[scheduled] := terminals[scheduled].(activePid := pid);
      current := pid;
      var fds := pcbs[current].fds;
      fds := fds[0 := fds[0].(ops := StdIn, flags := 1)];
      fds := fds[1 := fds[1].(ops := StdOut, flags := 1)];
      pcbs[pid] := pcbs[pid].(pid := pid, ebp := ebp, fds := fds);
      esp0 := EIGHT_MB - pid * EIGHT_KB - 4;
    }

    /** The part of `sys_execute` that takes a slot and sets the new process up. */
    method Spawn(ebp: int) returns (c: Control)
      requires Sized()
      modifies this, active, pcbs, terminals
      ensures model == old(model)
      ensures var k, p := old(Snapshot()), FirstIdle(old(Snapshot()).active, 0);
              && c == (if p.Some? then Start(p.value) else Return(-1))
              && Snapshot() == (if p.Some? then Spawned(k, p.value, ebp) else k)
    {
      ghost var k := Snapshot();
      var pid := FindIdle();
      if pid == 500 { return Return(-1); }
      hide FirstIdle;
      TakeSlot(pid);
      Install(pid, ebp);
      SpawnedInTwo(k, pid, ebp);
      return Start(pid);
    }

    /** `sys_execute`: the file must pass the checks and a slot must be free; `stack` is what its buffer held. */
    method Execute(command: FS.CString, ebp: int, stack: seq<byte>) returns (c: Control, loaded: bool)
      requires Valid() && Admissible(model, Event.Execute(true, ebp)) && |stack| == 30
      modifies this, active, pcbs, terminals
      ensures Valid() && Does(old(model), Event.Execute(loaded, ebp), model, c)
      ensures Linked(img) && (loaded <==> Passes(img, command, stack))
    {
      hide Represents, Does, IsProgram, FirstIdle, Linked, Spawned, Push, InFiles, Passes;
      ghost var k := Snapshot();
      Sizes(k, model);
      ExecuteDoes(k, model, ebp);
      ExecuteRefused(k, model, ebp);
      assert Linked(img);
      var magic := new byte[30](i requires 0 <= i < 30 => stack[i]);
      assert magic[..] == stack;
      loaded := CheckProgram(img, command, magic);
      if !loaded { return Return(-1), false; }
      c := Spawn(ebp);
      if c.Start? {
        ghost var m := model;
        model := Push(model, Proc(c.pid, Some(ebp), FRESH_TABLE));
        DoesInFiles(img, m, Event.Execute(true, ebp), model, c);
      }
    }

    // -------------------------------------------------------------- halting programs

    /** The close functions of the drivers. */
    method DriverClose(ops: Ops, fd: int) returns (r: int)
      requires ops == Rtc || ops == Directory || ops == File
      ensures r == if ops != Rtc && (fd >= 8 || fd < 0) then -1 else 0
    {
      if ops == Rtc { return 0; }
      if fd >= 8 || fd < 0 { return -1; }
      return 0;
    }

    /** The body of `sys_close`, on the running process. */
    method CloseEntry(fd: int) returns (r: int)
      requires Sized() && 0 <= current < SLOTS && TableOk(pcbs[current].fds)
      modifies pcbs
      ensures var fds := old(pcbs[current].fds);
              && r == (if IsOpen(fds, fd) then 0 else -1)
              && pcbs[..] == (if IsOpen(fds, fd) then
                                old(pcbs[..])[current := old(pcbs[current]).(fds := fds[fd := CLOSED])]
                              else old(pcbs[..]))
    {
      if fd == 0 || fd == 1 { return -1; }
      if fd < 0 || fd > 7 { return -1; }
      var fds := pcbs[current].fds;
      if fds[fd].flags == 0 { return -1; }
      assert FdOk(fds[fd]);
      var retval := DriverClose(fds[fd].ops, fd);
      if retval == -1 { return -1; }
      pcbs[current] := pcbs[current].(fds := fds[fd := fds[fd].(ops := NoOps, position := 0, inode := 0, flags := 0)]);
      return 0;
    }

    /** The loop of `sys_halt` that closes what the process left open. */
    method CloseAll()
      requires Sized() && 0 <= current < SLOTS && TableOk(pcbs[current].fds)
      modifies pcbs
      ensures Clean(pcbs[current].fds)
      ensures pcbs[..] == old(pcbs[..])[current := old(pcbs[current]).(fds := pcbs[current].fds)]
    {
      ghost var was := pcbs[..];
      var i := 2;
      while i < 8
        invariant 2 <= i <= 8 && Sized() && TableOk(pcbs[current].fds)
        invariant pcbs[..] == was[current := was[current].(fds := pcbs[current].fds)]
        invariant forall j | 2 <= j < i :: pcbs[current].fds[j] == CLOSED
      {
        assert FdOk(pcbs[current].fds[i]);
        if pcbs[current].fds[i].flags == 1 {
          var r := CloseEntry(i);
        }
        i := i + 1;
      }
    }

    /** The file checks on "shell", whatever the stack holds. */
    method ShellPasses() returns (ok: bool)
      requires Linked(img) && IsProgram(img, SHELL)
      ensures ok
    {
      hide Linked, IsProgram, Passes;
      var magic := new byte[30];
      ProgramPasses(img, SHELL, magic[..]);
      ok := CheckProgram(img, SHELL, magic);
    }

    /** The branch of `sys_halt` for a root shell: release the slot and execute "shell" again. */
    method RestartShell(nested: int) returns (c: Control)
      requires Valid() && model.booted == TERMINALS && |model.stacks[model.scheduled]| == 1
      modifies this, active, pcbs, terminals
      ensures Valid() && Does(old(model), Event.Halt, model, c)
      ensures model == old(model)
    {
      hide Represents, Does, IsProgram, FirstIdle, Linked, Spawned, InFiles;
      ghost var k := Snapshot();
      Sizes(k, model);
      RestartDoes(k, model, nested);
      numActive := numActive - 1;
      active[current] := 0;
      noParent := true;
      assert Linked(img) && IsProgram(img, SHELL);
      var ok := ShellPasses();
      if !ok { return Return(-1); }
      assert active[..] == k.active[k.current := 0];
      assert Snapshot() == Released(k);
      c := Spawn(nested);
    }

    /** Release the slot and close what was left open. */
    method ReleaseSlot()
      requires Sized() && 0 <= current < SLOTS && TableOk(pcbs[current].fds)
      modifies active, pcbs
      ensures Clean(pcbs[current].fds)
      ensures var k := old(Snapshot());
              Snapshot() == k.(active := k.active[current := 0],
                               pcbs := k.pcbs[current := k.pcbs[current].(fds := pcbs[current].fds)])
    {
      hide TableOk, Clean;
      active[current] := 0;
      CloseAll();
    }

    /** Make the parent the running process; the frame its `sys_execute` saved is resumed. */
    method Ascend() returns (treg: int)
      requires pcbs.Length == SLOTS && terminals.Length == TERMINALS
      requires 0 <= scheduled < TERMINALS && 0 <= current < SLOTS
      modifies this, terminals
      ensures model == old(model)
      ensures Snapshot() == Ascended(old(Snapshot())) && treg == old(pcbs[current]).ebp
    {
      var parent := pcbs[current].parent;
      pageBase := parent + 2;
      esp0 := EIGHT_MB - parent * EIGHT_KB - 4;
      numActive := numActive - 1;
      treg := pcbs[current].ebp;
      current := parent;
      terminals[scheduled] := terminals[scheduled].(activePid := current);
    }

    /** The branch of `sys_halt` that returns to the parent. */
    method ReturnToParent() returns (c: Control)
      requires Valid() && model.booted == TERMINALS && |model.stacks[model.scheduled]| > 1
      modifies this, active, pcbs, terminals
      ensures Valid() && Does(old(model), Event.Halt, model, c)
    {
      hide Represents, Does, IsProgram, Linked, Pop, TableOk, Clean, InFiles;
      ghost var k := Snapshot();
      Sizes(k, model);
      LeafRunning(k, model);
      ReleaseSlot();
      HaltDoes(k, model, pcbs[current].fds);
      ghost var fds := pcbs[current].fds;
      var treg := Ascend();
      ghost var m := model;
      model := Pop(model);
      DoesInFiles(img, m, Event.Halt, model, Resume(treg));
      assert Snapshot() == Halted(k, fds);
      return Resume(treg);
    }

    /** `sys_halt`; an exception takes the same path. `nested` is the frame of a restarted shell's execute. */
    method Halt(nested: int) returns (c: Control)
      requires Valid() && model.booted == TERMINALS
      modifies this, active, pcbs, terminals
      ensures Valid() && Does(old(model), Event.Halt, model, c)
    {
      LeafRunning(Snapshot(), model);
      hide Represents, Does, IsProgram, Linked, InFiles;
      if pcbs[current].parent == -1 {
        c := RestartShell(nested);
      } else {
        c := ReturnToParent();
      }
    }

    // -------------------------------------------------------------- the timer

    method NextTerminal()
      modifies this
      ensures model == old(model)
      ensures Snapshot() ==
              old(Snapshot()).(shellCount := old(shellCount) + 1, scheduled := old(shellCount), noParent := true)
    {
      shellCount := shellCount + 1;
      scheduled := shellCount - 1;
      noParent := true;
    }

    /** The first three ticks: give the next terminal its root shell. */
    method BootTerminal(nested: int) returns (c: Control)
      requires Valid() && model.booted < TERMINALS && LowestFree(Used(model)) == Some(model.booted)
      requires model.booted == 0 || InKernelStack(model.saved[model.scheduled], Leaf(model, model.scheduled).pid)
      modifies this, active, pcbs, terminals
      ensures Valid() && WellFormed(old(model)) && model == BootStep(old(model)).0 && c == Start(old(model.booted))
    {
      hide Represents, IsProgram, FirstIdle, Linked, Spawned, BootStep, LowestFree, Used, InKernelStack, InFiles;
      ghost var k := Snapshot();
      Sizes(k, model);
      RepresentsWellFormed(k, model);
      IdleIsFree(k, model);
      BootRepresents(k, model, nested);
      NextTerminal();
      assert Linked(img) && IsProgram(img, SHELL);
      var ok := ShellPasses();
      if !ok { return Return(-1); }
      c := Spawn(nested);
      BootInFiles(img, model);
      model := BootStep(model).0;
    }

    /** Pass the processor to the next terminal and resume the frame it saved. */
    method PassOn() returns (c: Control)
      requires Valid() && model.booted == TERMINALS
      requires InKernelStack(model.saved[model.scheduled], Leaf(model, model.scheduled).pid)
      modifies this
      ensures Valid() && model == Rotate(old(model)).0 && c == Rotate(old(model)).1
    {
      hide Represents, IsProgram, Linked, InKernelStack, InFiles;
      ghost var k := Snapshot();
      Sizes(k, model);
      RotateRepresents(k, model);
      scheduled := (scheduled + 1) % TERMINALS;
      current := terminals[scheduled].activePid;
      pageBase := current + 2;
      esp0 := EIGHT_MB - current * EIGHT_KB - 4;
      model := Rotate(model).0;
      assert Snapshot() == Rotated(k);
      return Resume(terminals[scheduled].ebpSave);
    }

    /** Serve the first pending ALT+F request. */
    method ShowTerminal(t: nat)
      requires Valid() && t < TERMINALS
      modifies this
      ensures Valid() && model == SwitchDisplay(old(model), t)
    {
      hide Represents, IsProgram, Linked, InFiles;
      ghost var k := Snapshot();
      Sizes(k, model);
      SwitchRepresents(k, model, t);
      displayed := t;
      match t {
        case 0 => terminal1Switch := false;
        case 1 => terminal2Switch := false;
        case _ => terminal3Switch := false;
      }
      model := SwitchDisplay(model, t);
      assert Snapshot() == k.(switches := k.switches[t := false], displayed := t);
    }

    method SaveEbp(ebp: int)
      requires Valid() && Admissible(model, Event.Tick(ebp))
      modifies this`model, terminals
      ensures Valid() && model == SaveFrame(old(model), ebp)
    {
      hide Represents, IsProgram, Linked, Admissible, InFiles;
      ghost var k := Snapshot();
      Sizes(k, model);
      SaveRepresents(k, model, ebp);
      terminals[scheduled] := terminals[scheduled].(ebpSave := ebp);
      model := SaveFrame(model, ebp);
      assert Snapshot() == Saved(k, ebp);
    }

    method TakeQuit()
      requires Valid() && model.booted == TERMINALS
      modifies this`model, sigquit
      ensures Valid() && model == ClearQuit(old(model))
    {
      hide Represents, IsProgram, Linked, InFiles;
      ghost var k := Snapshot();
      Sizes(k, model);
      ClearRepresents(k, model);
      sigquit[scheduled] := false;
      model := ClearQuit(model);
      assert Snapshot() == k.(sigquit := k.sigquit[k.scheduled := false]);
    }

    /** `pit_handler` and `schedule`. */
    method Tick(ebp: int, nested: int) returns (c: Control)
      requires Valid() && Admissible(model, Event.Tick(ebp))
      modifies this, active, pcbs, terminals, sigquit
      ensures Valid() && Does(old(model), Event.Tick(ebp), model, c)
    {
      hide Represents, IsProgram, Linked, InFiles, Does, BootStep, Rotate, SwitchDisplay;
      hide LowestFree, Used, InKernelStack;
      ghost var m := model;
      RepresentsWellFormed(Snapshot(), m);
      Sizes(Snapshot(), m);
      SaveEbp(ebp);
      Sizes(Snapshot(), model);
      if shellCount < TERMINALS {
        TickBoots(m, ebp);
        c := BootTerminal(nested);
        return;
      }
      if terminal1Switch || terminal2Switch || terminal3Switch {
        TickSwitches(m, ebp);
        if terminal1Switch { ShowTerminal(0); } else if terminal2Switch { ShowTerminal(1); } else { ShowTerminal(2); }
        return Return(0);
      }
      if sigquit[scheduled] {
        TakeQuit();
        c := Halt(nested);
        TickHalts(m, ebp, model, c);
        return;
      }
      TickRotates(m, ebp);
      c := PassOn();
    }

    // -------------------------------------------------------------- descriptors

    lemma StoreTable(k: Tables, m: Machine, fds: seq<Fd>)
      requires Linked(img) && Represents(k, m) && InFiles(img, m.stacks) && m.booted == TERMINALS
      requires TableOk(fds) && TableInFiles(img, fds)
      ensures 0 <= k.current < |k.pcbs| && |m.stacks| == TERMINALS
      ensures m.scheduled < TERMINALS && m.stacks[m.scheduled] != []
      ensures Represents(k.(pcbs := k.pcbs[k.current := k.pcbs[k.current].(fds := fds)]), SetTable(m, fds))
      ensures InFiles(img, SetTable(m, fds).stacks)
    {
      hide Represents, InFiles, TableOk, TableInFiles, Linked, SetTable;
      RepresentsWellFormed(k, m);
      ShapeOf(m);
      TableRepresents(k, m, fds);
      SetInFiles(img, m, fds);
    }

    /** Store a descriptor table for the running process. */
    method SetFds(fds: seq<Fd>)
      requires Valid() && model.booted == TERMINALS && TableOk(fds) && TableInFiles(img, fds)
      modifies this`model, pcbs
      ensures Valid() && model == SetTable(old(model), fds)
    {
      hide Represents, IsProgram, Linked, TableOk, InFiles, TableInFiles;
      ghost var k := Snapshot();
      Sizes(k, model);
      LeafRunning(k, model);
      StoreTable(k, model, fds);
      pcbs[current] := pcbs[current].(fds := fds);
      model := SetTable(model, fds);
      assert Snapshot() == k.(pcbs := k.pcbs[k.current := k.pcbs[k.current].(fds := fds)]);
    }

    /** What the rest of the kernel sees of the running process's descriptors. */
    ghost predicate Table(fds: seq<Fd>)
      reads this, active, pcbs, terminals, sigquit
    {
      && Valid() && model.booted == TERMINALS
      && fds == Leaf(model, model.scheduled).fds && TableOk(fds) && TableInFiles(img, fds)
      && 0 <= current < pcbs.Length && pcbs[current].fds == fds
    }

    ghost method Descriptors()
      requires Valid() && model.booted == TERMINALS
      ensures Table(Leaf(model, model.scheduled).fds) && FS.ImageOk(img)
    {
      RepresentsWellFormed(Snapshot(), model);
      LeafRunning(Snapshot(), model);
      LeafInFiles(img, model);
      Sizes(Snapshot(), model);
      hide Represents, InFiles, TableOk, TableInFiles;
    }

    /** `sys_close`. */
    method Close(fd: int) returns (r: int)
      requires Valid() && model.booted == TERMINALS
      modifies this`model, pcbs
      ensures Valid() && Does(old(model), Event.Close(fd), model, Return(r))
    {
      hide Represents, InFiles, Does, Table, TableOk, TableInFiles, IsProgram, Linked, SetTable, IsOpen;
      ghost var k, m := Snapshot(), model;
      Descriptors();
      CloseDoes(fd);
      ghost var fds := pcbs[current].fds;
      r := CloseEntry(fd);
      if r == 0 {
        model := SetTable(m, fds[fd := CLOSED]);
        assert Snapshot() == k.(pcbs := k.pcbs[k.current := k.pcbs[k.current].(fds := fds[fd := CLOSED])]);
      } else {
        assert Snapshot() == k;
      }
    }

    /** What closing `fd` makes of the machine, and that the variables with the entry closed represent it. */
    lemma CloseDoes(fd: int)
      requires Valid() && model.booted == TERMINALS && Table(Leaf(model, model.scheduled).fds)
      ensures Sized() && 0 <= current < SLOTS && TableOk(pcbs[current].fds) && |pcbs[current].fds| == 8
      ensures |model.stacks| == TERMINALS && model.scheduled < TERMINALS && model.stacks[model.scheduled] != []
      ensures var k, fds := Snapshot(), pcbs[current].fds;
              && k.current == current && k.pcbs == pcbs[..]
              && if IsOpen(fds, fd) then
                   && 2 <= fd < 8
                   && Does(model, Event.Close(fd), SetTable(model, fds[fd := CLOSED]), Return(0))
                   && Represents(k.(pcbs := k.pcbs[current := k.pcbs[current].(fds := fds[fd := CLOSED])]),
                                 SetTable(model, fds[fd := CLOSED]))
                   && InFiles(img, SetTable(model, fds[fd := CLOSED]).stacks)
                 else Does(model, Event.Close(fd), model, Return(-1))
    {
      hide Represents, InFiles, Does, TableInFiles, IsProgram, Linked, SetTable, TableOk;
      var fds := pcbs[current].fds;
      Sizes(Snapshot(), model);
      LeafRunning(Snapshot(), model);
      RepresentsWellFormed(Snapshot(), model);
      ClosedOk(fds, fd);
      if IsOpen(fds, fd) {
        assert 2 <= fd < 8;
        CloseServed(model, fd);
        StoreTable(Snapshot(), model, fds[fd := CLOSED]);
      } else {
        CloseRefused(model, fd);
      }
    }

    lemma ClosedOk(fds: seq<Fd>, fd: int)
      requires TableOk(fds)
      ensures |fds| == 8
      ensures IsOpen(fds, fd) ==> TableOk(fds[fd := CLOSED])
      ensures IsOpen(fds, fd) && TableInFiles(img, fds) ==> TableInFiles(img, fds[fd := CLOSED])
    {
    }

    /** `sys_open`: the lowest closed descriptor, then the file's type decides the driver. */
    method Open(filename: FS.CString) returns (r: int)
      requires Valid() && model.booted == TERMINALS
      modifies this`model, pcbs
      ensures Valid() && Does(old(model), Event.Open(EntryOf(FS.Lookup(img, filename))), model, Return(r))
      ensures r >= 0 ==>
                && FS.Lookup(img, filename).Some? && |Leaf(model, model.scheduled).fds| == 8 && 2 <= r < 8
                && var d := FS.Lookup(img, filename).value;
                   && d.fileType <= 2
                   && Leaf(model, model.scheduled).fds[r] ==
                      if d.fileType == 0 then Fd(Rtc, 0, 0, 1)
                      else if d.fileType == 1 then Fd(Directory, 0, 0, 1)
                      else Fd(File, d.inode, 0, 1)
    {
      hide Represents, InFiles, Does, Table, TableOk, TableInFiles, IsProgram, Linked, SetTable;
      Descriptors();
      ghost var m := model;
      ghost var found := EntryOf(FS.Lookup(img, filename));
      OpenKnows(filename);
      var fds := pcbs[current].fds;
      ghost var result := OpenTable(fds, found);
      ProcessRuns.SetGives(m, result.0);
      if |filename| > 32 || |filename| == 0 { OpenNothing(m, fds); return -1; }
      var i := FindClosed(fds);
      if i == 8 { OpenNothing(m, fds); return -1; }
      var entry := FS.ReadDentryByName(img, filename);
      var slot := fds[i].(position := 0, inode := 0, flags := 1);
      if entry.None? { OpenNothing(m, fds); return -1; }
      if entry.value.fileType == 0 {
        SetFds(fds[i := slot.(ops := Rtc)]);
      } else if entry.value.fileType == 1 {
        var status := FS.OpenAs(img, filename, 1);
        if status == -1 { return -1; }
        SetFds(fds[i := slot.(ops := Directory)]);
      } else {
        var status := FS.OpenAs(img, filename, 2);
        if status == -1 {
          SetFds(fds[i := slot.(ops := File)]);
          return -1;
        }
        SetFds(fds[i := slot.(ops := File, inode := entry.value.inode)]);
      }
      return i;
    }

    /** What opening a name makes of the machine. */
    lemma OpenKnows(filename: FS.CString)
      requires Valid() && model.booted == TERMINALS && Table(Leaf(model, model.scheduled).fds)
      ensures Shaped(model) && 0 <= current < pcbs.Length && FS.ImageOk(img)
      ensures var fds, found := Leaf(model, model.scheduled).fds, EntryOf(FS.Lookup(img, filename));
              && pcbs[current].fds == fds && |fds| == 8
              && (forall i | 2 <= i < 8 :: FdOk(fds[i]))
              && var (t, r) := OpenTable(fds, found);
                 && TableOk(t) && TableInFiles(img, t)
                 && Does(model, Event.Open(found), SetTable(model, t), Return(r))
    {
      hide Represents, InFiles, Does, TableInFiles, IsProgram, SetTable;
      RepresentsWellFormed(Snapshot(), model);
      var fds, found := Leaf(model, model.scheduled).fds, EntryOf(FS.Lookup(img, filename));
      FS.LookupExact(img, filename);
      assert img.dentries[0].inode < |img.inodes|;
      OpenKeeps(fds, found);
      OpenInFiles(img, fds, found);
      OpenDoes(model, found);
    }

    /** The search of `sys_open`; 8 stands for "none". */
    method FindClosed(fds: seq<Fd>) returns (i: nat)
      requires |fds| == 8
      ensures var c := LowestClosed(fds, 2); i == if c.Some? then c.value else 8
    {
      i := 2;
      while i < 8
        invariant 2 <= i <= 8 && LowestClosed(fds, 2) == LowestClosed(fds, i)
      {
        if fds[i].flags == 0 { return i; }
        i := i + 1;
      }
    }

    /** `sys_read` on a regular file. */
    method ReadFile(fd: nat, buf: array<byte>, at: nat, n: nat) returns (r: int, position: nat)
      requires Valid() && model.booted == TERMINALS && 2 <= fd < 8 && n < TWO_32 && at <= buf.Length
      requires var fds := Leaf(model, model.scheduled).fds;
               |fds| == 8 && fds[fd].ops == File && fds[fd].flags != 0 && at + Room(img, fds[fd], n) <= buf.Length
      modifies this`model, pcbs, buf
      ensures Valid() && Does(old(model), Event.Move(fd, position), model, Return(0))
      ensures FS.ImageOk(img)
      ensures FileServed(img, Leaf(old(model), old(model).scheduled).fds, fd, n, r, position, at, buf[..])
    {
      hide Represents, InFiles, Does, IsProgram, TableOk, Linked;
      hide FS.Contents, FS.ValidFile, FS.UpperBound, FS.ImageOk, FS.ReadStep;
      Descriptors();
      ghost var fds := pcbs[current].fds;
      var entry := pcbs[current].fds[fd];
      assert FdInFile(img, entry);
      r, position := FS.FileRead(img, entry.inode, entry.position, buf, at, n);
      assert FileServed(img, fds, fd, n, r, position, at, buf[..]);
      MoveTo(fd, position);
    }

    /** `sys_read` on the directory. */
    method ReadDirectory(fd: nat, buf: array<byte>, at: nat, n: nat) returns (r: int, position: nat)
      requires Valid() && model.booted == TERMINALS && 2 <= fd < 8 && at <= buf.Length
      requires var fds := Leaf(model, model.scheduled).fds;
               |fds| == 8 && fds[fd].ops == Directory && fds[fd].flags != 0 && at + Room(img, fds[fd], n) <= buf.Length
      modifies this`model, pcbs, buf
      ensures Valid() && Does(old(model), Event.Move(fd, position), model, Return(0))
      ensures FS.ImageOk(img)
      ensures DirectoryServed(img, Leaf(old(model), old(model).scheduled).fds, fd, n, r, position, at, buf[..])
    {
      hide Represents, InFiles, Does, IsProgram, TableOk, FS.Listed, Linked;
      Descriptors();
      ghost var fds := pcbs[current].fds;
      var entry := pcbs[current].fds[fd];
      if entry.position <= 62 { assert FS.DentryOk(img.dentries[entry.position]); }
      r, position := FS.DirectoryRead(img, entry.position, buf, at, n);
      assert DirectoryServed(img, fds, fd, n, r, position, at, buf[..]);
      MoveTo(fd, position);
    }

    /**
     * `sys_read`. Only entry 1, a number outside 0..7 and a closed entry are refused; any other call
     * goes through a jump table that is set. Files and directories are read here.
     */
    method Read(fd: int, buf: array<byte>, at: nat, nbytes: int) returns (d: Dispatch, ghost position: nat)
      requires Valid() && model.booted == TERMINALS
      requires -0x8000_0000 <= nbytes < 0x8000_0000 && at <= buf.Length
      requires var fds := Leaf(model, model.scheduled).fds;
               |fds| == 8 && (0 <= fd < 8 ==> at + Room(img, fds[fd], nbytes % TWO_32) <= buf.Length)
      modifies this`model, pcbs, buf
      ensures Valid() && FS.ImageOk(img)
      ensures ReadServed(img, Leaf(old(model), old(model).scheduled).fds, fd, nbytes % TWO_32, d, position, at, buf[..])
      ensures if d.Done? then Does(old(model), Event.Move(fd, position), model, Return(0)) else model == old(model)
    {
      hide Represents, InFiles, Does, IsProgram, FileServed, DirectoryServed, Room, Linked, TableInFiles, FS.ImageOk;
      Descriptors();
      position := 0;
      var fds := pcbs[current].fds;
      if fd == 1 || fd < 0 || fd > 7 { return Refused, position; }
      if fds[fd].flags == 0 { return Refused, position; }
      assert fd >= 2 ==> FdOk(fds[fd]);
      if fds[fd].ops == File {
        var r, p := ReadFile(fd, buf, at, nbytes % TWO_32);
        return Done(r), p;
      } else if fds[fd].ops == Directory {
        var r, p := ReadDirectory(fd, buf, at, nbytes % TWO_32);
        return Done(r), p;
      }
      return Driver(fds[fd].ops), position;
    }

    /** `sys_write`: entry 0 is refused; files and directories are read-only. */
    method Write(fd: int) returns (d: Dispatch)
      requires Valid() && model.booted == TERMINALS
      ensures var fds := Leaf(model, model.scheduled).fds;
              |fds| == 8 &&
              if fd == 0 || fd < 0 || fd > 7 || fds[fd].flags == 0 then d == Refused
              else fds[fd].ops != NoOps && fds[fd].ops != StdIn
                   && d == if fds[fd].ops == File || fds[fd].ops == Directory then Done(-1) else Driver(fds[fd].ops)
    {
      hide Represents, InFiles, IsProgram, Linked, TableInFiles, FS.ImageOk;
      Descriptors();
      var fds := pcbs[current].fds;
      if fd < 0 || fd > 7 { return Refused; }
      if fd == 0 { return Refused; }
      if fds[fd].flags == 0 { return Refused; }
      assert fd >= 2 ==> FdOk(fds[fd]);
      if fds[fd].ops == File || fds[fd].ops == Directory { return Done(-1); }
      return Driver(fds[fd].ops);
    }

    lemma MovedOk(fds: seq<Fd>, fd: nat, position: nat)
      requires TableOk(fds) && TableInFiles(img, fds) && 2 <= fd < 8
      ensures |fds| == 8
      ensures fds[fd].flags != 0 && FdInFile(img, fds[fd].(position := position)) ==>
                var moved := fds[fd := fds[fd].(position := position)];
                TableOk(moved) && TableInFiles(img, moved)
    {
      assert |fds| == 8 && FdOk(fds[fd]);
    }

    method MoveTo(fd: nat, position: nat)
      requires Valid() && model.booted == TERMINALS && 2 <= fd < 8
      requires var fds := Leaf(model, model.scheduled).fds;
               |fds| == 8 && fds[fd].flags != 0 && FdInFile(img, fds[fd].(position := position))
      modifies this`model, pcbs
      ensures Valid() && Does(old(model), Event.Move(fd, position), model, Return(0))
    {
      hide Represents, InFiles, Does, TableOk, TableInFiles, IsProgram, Linked, SetTable;
      Descriptors();
      ghost var m := model;
      var fds := pcbs[current].fds;
      MovedOk(fds, fd, position);
      RepresentsWellFormed(Snapshot(), model);
      SetFds(fds[fd := fds[fd].(position := position)]);
      MoveServed(m, fd, position);
    }
  }
}