/** Over every run, an open file's descriptor names an existing inode and a position inside it. */
module OpenFiles {
  import opened Basics
  import opened ProcessModel
  import FS = FileSystem

  ghost predicate FdInFile(img: FS.Image, fd: Fd) {
    fd.ops == File ==> fd.inode < |img.inodes| && fd.position <= img.inodes[fd.inode].length
  }

  ghost predicate TableInFiles(img: FS.Image, fds: seq<Fd>) {
    forall i | 0 <= i < |fds| :: FdInFile(img, fds[i])
  }

  ghost predicate StackInFiles(img: FS.Image, stack: seq<Proc>) {
    forall i | 0 <= i < |stack| :: TableInFiles(img, stack[i].fds)
  }

  ghost predicate InFiles(img: FS.Image, stacks: seq<seq<Proc>>) {
    forall t | 0 <= t < |stacks| :: StackInFiles(img, stacks[t])
  }

  /** Openings and moves that respect the image. */
  ghost predicate RespectsImage(img: FS.Image, m: Machine, e: Event)
    requires Shaped(m)
  {
    match e
    case Open(Some(entry)) => entry.inode < |img.inodes|
    case Move(fd, position) =>
      m.booted == TERMINALS && 2 <= fd < 8 && |Leaf(m, m.scheduled).fds| == 8 ==>
        FdInFile(img, Leaf(m, m.scheduled).fds[fd].(position := position))
    case _ => true
  }

  lemma PushInFiles(img: FS.Image, m: Machine, p: Proc)
    requires Shaped(m) && InFiles(img, m.stacks) && TableInFiles(img, p.fds)
    ensures InFiles(img, Push(m, p).stacks)
  {
    assert StackInFiles(img, m.stacks[m.scheduled] + [p]);
  }

  lemma PopInFiles(img: FS.Image, m: Machine)
    requires Shaped(m) && InFiles(img, m.stacks) && m.stacks[m.scheduled] != []
    ensures InFiles(img, Pop(m).stacks)
  {
    assert StackInFiles(img, m.stacks[m.scheduled]);
  }

  lemma SetInFiles(img: FS.Image, m: Machine, fds: seq<Fd>)
    requires Shaped(m) && InFiles(img, m.stacks) && m.stacks[m.scheduled] != [] && TableInFiles(img, fds)
    ensures InFiles(img, SetTable(m, fds).stacks)
  {
    var s := SetTop(m.stacks[m.scheduled], fds);
    assert StackInFiles(img, m.stacks[m.scheduled]);
    assert StackInFiles(img, s);
  }

  lemma LeafInFiles(img: FS.Image, m: Machine)
    requires WellFormed(m) && m.booted == TERMINALS && InFiles(img, m.stacks)
    ensures TableOk(Leaf(m, m.scheduled).fds) && TableInFiles(img, Leaf(m, m.scheduled).fds)
  {
    var s := m.stacks[m.scheduled];
    assert StackInFiles(img, s) && StackOk(s, m.scheduled);
  }

  lemma HaltInFiles(img: FS.Image, m: Machine)
    requires WellFormed(m) && m.booted == TERMINALS && InFiles(img, m.stacks)
    ensures InFiles(img, HaltStep(m).0.stacks)
  {
    ShapeOf(m);
    if |m.stacks[m.scheduled]| == 1 { RootRestartsInPlace(m); }
    PopInFiles(img, m);
    hide WellFormed, InFiles, Used, LowestFree;
  }

  lemma BootInFiles(img: FS.Image, m: Machine)
    requires WellFormed(m) && m.booted < TERMINALS && InFiles(img, m.stacks)
    ensures InFiles(img, BootStep(m).0.stacks)
  {
    BootStarts(m);
    ShapeOf(m);
    hide WellFormed, BootStep;
    assert StackInFiles(img, [Proc(m.booted, None, FRESH_TABLE)]);
  }

  lemma OpenInFiles(img: FS.Image, fds: seq<Fd>, found: Option<Entry>)
    requires TableOk(fds) && TableInFiles(img, fds) && |img.inodes| > 0
    requires found.Some? ==> found.value.inode < |img.inodes|
    ensures TableInFiles(img, OpenTable(fds, found).0)
  {
  }

  /** Every step of the machine that respects the image keeps the descriptors inside their files. */
  lemma StepInFiles(img: FS.Image, m: Machine, e: Event)
    requires WellFormed(m) && Admissible(m, e) && InFiles(img, m.stacks) && |img.inodes| > 0 && RespectsImage(img, m, e)
    ensures InFiles(img, Step(m, e).0.stacks)
  {
    ShapeOf(m);
    match e
    case Tick(frame) =>
      SaveKeeps(m, frame);
      var m1 := SaveFrame(m, frame);
      if m.booted < TERMINALS {
        BootInFiles(img, m1);
      } else if FirstSwitch(m).None? && m.quits[m.scheduled] {
        HaltInFiles(img, ClearQuit(m1));
      }
      hide WellFormed, InFiles, BootStep, HaltStep;
    case Halt => HaltInFiles(img, m); hide WellFormed, InFiles, HaltStep;
    case Execute(loadable, frame) =>
      assert TableInFiles(img, FRESH_TABLE);
      hide WellFormed, InFiles, TableInFiles, LowestFree, Used, Push;
      var free := LowestFree(Used(m));
      if free.Some? { PushInFiles(img, m, Proc(free.value, Some(frame), FRESH_TABLE)); }
    case SwitchKey(_) =>
    case QuitKey =>
    case _ => TableStepInFiles(img, m, e);
  }

  lemma TableStepInFiles(img: FS.Image, m: Machine, e: Event)
    requires WellFormed(m) && Admissible(m, e) && InFiles(img, m.stacks) && |img.inodes| > 0 && RespectsImage(img, m, e)
    requires e.Open? || e.Close? || e.Move?
    ensures InFiles(img, Step(m, e).0.stacks)
  {
    ShapeOf(m);
    LeafInFiles(img, m);
    var fds := Leaf(m, m.scheduled).fds;
    hide WellFormed, InFiles, SetTable;
    match e
    case Open(found) =>
      OpenInFiles(img, fds, found);
      hide TableInFiles, OpenTable;
      SetInFiles(img, m, OpenTable(fds, found).0);
    case Close(fd) =>
      if IsOpen(fds, fd) { SetInFiles(img, m, fds[fd := CLOSED]); }
    case Move(fd, position) =>
      if IsOpen(fds, fd) { SetInFiles(img, m, fds[fd := fds[fd].(position := position)]); }
  }
}
