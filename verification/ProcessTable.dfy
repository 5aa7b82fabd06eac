/**
 * The kernel's variables: six process slots with parent links, shared by three terminals. Here is
 * what it means that they represent the three stacks of ProcessModel, and how each group of
 * assignments in the kernel keeps it so. Module Kernel has the code that makes them.
 */
module ProcessTable {
  import opened Basics
  import opened ProcessModel
  import ProcessRuns

  /** A process control block; `ebp` is the frame its `sys_execute` saved. */
  datatype Pcb = Pcb(pid: int, parent: int, ebp: int, fds: seq<Fd>)

  datatype TerminalInfo = TerminalInfo(activePid: int, ebpSave: int)

  /** A snapshot of the kernel's variables. */
  datatype Tables = Tables(
    active: seq<int>, pcbs: seq<Pcb>, terminals: seq<TerminalInfo>, sigquit: seq<bool>, switches: seq<bool>,
    current: int, scheduled: int, displayed: int, numActive: int, noParent: bool, shellCount: int,
    pageBase: int, esp0: int)

  // ---------------------------------------------------------------- representation

  ghost predicate ProcStored(pcbs: seq<Pcb>, stack: seq<Proc>, i: nat)
    requires i < |stack|
  {
    var p := stack[i];
    && p.pid < |pcbs|
    && pcbs[p.pid].pid == p.pid && pcbs[p.pid].fds == p.fds
    && pcbs[p.pid].parent == (if i == 0 then -1 else stack[i - 1].pid)
    && (i > 0 ==> p.caller == Some(pcbs[p.pid].ebp))
  }

  ghost predicate StackStored(pcbs: seq<Pcb>, stack: seq<Proc>) {
    forall i | 0 <= i < |stack| :: ProcStored(pcbs, stack, i)
  }

  /** A free slot: nothing open, the terminal entries untouched or left from an earlier process. */
  ghost predicate Clean(fds: seq<Fd>) {
    && |fds| == 8 && (fds[0] == CLOSED || fds[0] == STD_IN_FD) && (fds[1] == CLOSED || fds[1] == STD_OUT_FD)
    && forall i | 2 <= i < 8 :: fds[i] == CLOSED
  }

  ghost predicate SlotsStored(active: seq<int>, pcbs: seq<Pcb>, used: set<nat>) {
    && |active| == |pcbs| == SLOTS
    && forall p | 0 <= p < SLOTS ::
         && |pcbs[p].fds| == 8
         && if p in used then active[p] == 1 else active[p] == 0 && Clean(pcbs[p].fds)
  }

  /** The slot in use now: page directory entry 32 and the kernel stack pointer belong to it. */
  ghost predicate Running(k: Tables, pid: int) {
    k.current == pid && k.pageBase == pid + 2 && k.esp0 == EIGHT_MB - pid * EIGHT_KB - 4
  }

  ghost predicate Registers(k: Tables, m: Machine)
    requires Shaped(m)
  {
    && k.shellCount == m.booted && k.scheduled == m.scheduled && k.displayed == m.displayed
    && k.sigquit == m.quits && k.switches == m.switches
    && |k.terminals| == TERMINALS
    && (forall t | 0 <= t < TERMINALS :: k.terminals[t].ebpSave == m.saved[t])
    && (forall t | 0 <= t < m.booted :: k.terminals[t].activePid == Leaf(m, t).pid)
    && (m.booted > 0 ==> !k.noParent && Running(k, Leaf(m, m.scheduled).pid))
  }

  ghost predicate Represents(k: Tables, m: Machine) {
    && WellFormed(m) && Registers(k, m)
    && SlotsStored(k.active, k.pcbs, Used(m)) && k.numActive == Count(m)
    && forall t | 0 <= t < TERMINALS :: StackStored(k.pcbs, m.stacks[t])
  }

  /** The machine's step on event `e` takes `m` to `n` and leaves the processor at `c`. */
  ghost predicate Does(m: Machine, e: Event, n: Machine, c: Control) {
    WellFormed(m) && Admissible(m, e) && Step(m, e) == (n, c)
  }

  // ---------------------------------------------------------------- what the links say

  /** The process reached from `pid` by following `n` parent links. */
  function Ancestor(pcbs: seq<Pcb>, pid: int, n: nat): int
    decreases n
  {
    if n == 0 || pid < 0 || pid >= |pcbs| then pid else Ancestor(pcbs, pcbs[pid].parent, n - 1)
  }

  lemma {:induction false} LinksFollowStack(pcbs: seq<Pcb>, stack: seq<Proc>, i: nat, n: nat)
    requires StackStored(pcbs, stack) && i < |stack| && n <= i + 1
    ensures Ancestor(pcbs, stack[i].pid, n) == if n <= i then stack[i - n].pid else -1
    decreases n
  {
    assert ProcStored(pcbs, stack, i);
    if n > 0 && i > 0 { LinksFollowStack(pcbs, stack, i - 1, n - 1); }
  }

  /**
   * From the process recorded for any terminal, parent links visit exactly that terminal's
   * processes, youngest first, and end at -1: no cycle, no other terminal's process.
   */
  lemma ChainsEndAtRoots(k: Tables, m: Machine, t: nat, n: nat)
    requires Represents(k, m) && t < m.booted && n <= |m.stacks[t]|
    ensures Ancestor(k.pcbs, k.terminals[t].activePid, n) ==
            if n < |m.stacks[t]| then m.stacks[t][|m.stacks[t]| - 1 - n].pid else -1
  {
    hide WellFormed, Registers, SlotsStored, StackStored, Used;
    Sizes(k, m);
    LeafStored(k, m, t);
    LinksFollowStack(k.pcbs, m.stacks[t], |m.stacks[t]| - 1, n);
  }

  lemma SameStack(pcbs: seq<Pcb>, s: seq<Proc>, r: seq<Proc>)
    requires StackStored(pcbs, s) && StackStored(pcbs, r) && s != [] && r != []
    requires s[|s| - 1].pid == r[|r| - 1].pid
    requires s[0].caller.None? && r[0].caller.None?
    ensures s == r
    decreases |s|
  {
    assert ProcStored(pcbs, s, |s| - 1) && ProcStored(pcbs, r, |r| - 1);
    if |s| > 1 && |r| > 1 {
      var s', r' := s[..|s| - 1], r[..|r| - 1];
      forall i | 0 <= i < |s'| ensures ProcStored(pcbs, s', i) { assert ProcStored(pcbs, s, i); }
      forall i | 0 <= i < |r'| ensures ProcStored(pcbs, r', i) { assert ProcStored(pcbs, r, i); }
      SameStack(pcbs, s', r');
      assert s == s' + [s[|s| - 1]] && r == r' + [r[|r| - 1]];
    }
  }

  lemma LeafStored(k: Tables, m: Machine, t: nat)
    requires Represents(k, m) && t < m.booted
    ensures Shaped(m) && k.terminals[t].activePid == m.stacks[t][|m.stacks[t]| - 1].pid
    ensures m.stacks[t][0].caller.None?
  {
    assert StackOk(m.stacks[t], t);
    hide StackOk, Pids, SavedOk, SlotsStored, StackStored;
  }

  /** The variables determine the three stacks: nothing in the abstract machine is invented. */
  lemma RepresentationUnique(k: Tables, m: Machine, n: Machine)
    requires Represents(k, m) && Represents(k, n)
    ensures m == n
  {
    hide StackOk, Pids, SavedOk, SlotsStored, StackStored, Running;
    forall t | 0 <= t < TERMINALS ensures m.stacks[t] == n.stacks[t] {
      if t < m.booted {
        LeafStored(k, m, t);
        LeafStored(k, n, t);
        SameStack(k.pcbs, m.stacks[t], n.stacks[t]);
      }
    }
    assert m.stacks == n.stacks;
    assert m.saved == n.saved;
  }

  /** Terminal `t`'s chain of parent links reaches slot `p` after `n` links. */
  predicate OnChain(k: Tables, p: int, t: nat, n: nat)
    requires t < |k.terminals|
  {
    Ancestor(k.pcbs, k.terminals[t].activePid, n) == p
  }

  lemma ChainHolds(k: Tables, m: Machine, t: nat, i: nat)
    requires Represents(k, m) && t < m.booted && i < |m.stacks[t]|
    ensures |k.terminals| == TERMINALS && OnChain(k, m.stacks[t][i].pid, t, |m.stacks[t]| - 1 - i)
    ensures m.stacks[t][i].pid < |k.pcbs| && k.pcbs[m.stacks[t][i].pid].pid == m.stacks[t][i].pid
  {
    hide WellFormed, Registers, SlotsStored, Used;
    Sizes(k, m);
    ChainsEndAtRoots(k, m, t, |m.stacks[t]| - 1 - i);
    assert StackStored(k.pcbs, m.stacks[t]) && ProcStored(k.pcbs, m.stacks[t], i);
    hide Represents;
  }

  lemma UsedBySome(m: Machine, p: nat)
    requires Shaped(m) && p in Used(m)
    ensures exists t, i | 0 <= t < m.booted && 0 <= i < |m.stacks[t]| :: m.stacks[t][i].pid == p
  {
    var t :| 0 <= t < TERMINALS && p in Pids(m.stacks[t]);
    var i :| 0 <= i < |m.stacks[t]| && m.stacks[t][i].pid == p;
    assert t < m.booted;
  }

  /**
   * The chains cover the active slots: a slot is active exactly if it is on the chain of some
   * terminal, and then its block carries its own number; an idle slot has descriptors 2..7 closed.
   */
  lemma ActiveSlotsAreChains(k: Tables, m: Machine, p: nat)
    requires Represents(k, m) && p < SLOTS
    ensures |k.active| == |k.pcbs| == SLOTS && |k.terminals| == TERMINALS && |k.pcbs[p].fds| == 8
    ensures k.active[p] == 0 || k.active[p] == 1
    ensures k.active[p] == 1 <==> exists t, n | 0 <= t < m.booted && 0 <= n < |m.stacks[t]| :: OnChain(k, p, t, n)
    ensures k.active[p] == 1 ==> k.pcbs[p].pid == p
    ensures k.active[p] == 0 ==> forall i | 2 <= i < 8 :: k.pcbs[p].fds[i] == CLOSED
  {
    Sizes(k, m);
    hide WellFormed, Registers, StackStored, Used, OnChain;
    if p in Used(m) {
      UsedBySome(m, p);
      var t, i :| 0 <= t < m.booted && 0 <= i < |m.stacks[t]| && m.stacks[t][i].pid == p;
      ChainHolds(k, m, t, i);
    }
    forall t, n | 0 <= t < m.booted && 0 <= n < |m.stacks[t]| && OnChain(k, p, t, n) ensures p in Used(m) {
      ChainHolds(k, m, t, |m.stacks[t]| - 1 - n);
      SamePlace(k, m, t, n, p);
    }
  }

  lemma SamePlace(k: Tables, m: Machine, t: nat, n: nat, p: nat)
    requires Represents(k, m) && t < m.booted && n < |m.stacks[t]| && |k.terminals| == TERMINALS && OnChain(k, p, t, n)
    ensures Shaped(m) && p in Used(m)
  {
    Sizes(k, m);
    ChainsEndAtRoots(k, m, t, n);
    assert m.stacks[t][|m.stacks[t]| - 1 - n].pid in Pids(m.stacks[t]);
    hide Represents;
  }

  /** No slot is on two chains, or twice on one. */
  lemma ChainsAreDisjoint(k: Tables, m: Machine, t: nat, n: nat, u: nat, l: nat, p: int)
    requires Represents(k, m) && |k.terminals| == TERMINALS
    requires t < m.booted && n < |m.stacks[t]| && OnChain(k, p, t, n)
    requires u < m.booted && l < |m.stacks[u]| && OnChain(k, p, u, l)
    ensures t == u && n == l
  {
    hide Represents, WellFormed;
    RepresentsWellFormed(k, m);
    Sizes(k, m);
    ChainsEndAtRoots(k, m, t, n);
    ChainsEndAtRoots(k, m, u, l);
    StacksApart(m, t, |m.stacks[t]| - 1 - n, u, |m.stacks[u]| - 1 - l);
  }

  lemma StacksApart(m: Machine, t: nat, i: nat, u: nat, j: nat)
    requires WellFormed(m) && t < m.booted && u < m.booted && i < |m.stacks[t]| && j < |m.stacks[u]|
    requires m.stacks[t][i].pid == m.stacks[u][j].pid
    ensures t == u && i == j
  {
    var s, r := m.stacks[t], m.stacks[u];
    assert s[i].pid in Pids(s) && r[j].pid in Pids(r);
    assert StackOk(s, t);
    hide InKernelStack, TableOk, SavedOk;
  }

  /** The process that runs is its terminal's leaf, and the page entry and kernel stack pointer are its own. */
  lemma RunningIsLeaf(k: Tables, m: Machine)
    requires Represents(k, m) && m.booted > 0
    ensures |k.terminals| == TERMINALS && 0 <= k.scheduled < TERMINALS
    ensures k.current == k.terminals[k.scheduled].activePid && 0 <= k.current < SLOTS
    ensures k.pageBase == k.current + 2 && k.esp0 == EIGHT_MB - k.current * EIGHT_KB - 4
    ensures InKernelStack(k.esp0, k.current)
    ensures k.numActive == |Used(m)| <= SLOTS
  {
    ProcessRuns.CountIsUsed(m);
    LeafStored(k, m, m.scheduled);
    assert StackOk(m.stacks[m.scheduled], m.scheduled);
    assert m.stacks[m.scheduled][|m.stacks[m.scheduled]| - 1].pid < SLOTS;
    hide StackOk, SlotsStored, StackStored, Used, SavedOk;
  }

  // ---------------------------------------------------------------- keeping the representation

  lemma StoredFrame(pcbs: seq<Pcb>, pcbs': seq<Pcb>, stack: seq<Proc>, p: nat)
    requires StackStored(pcbs, stack) && |pcbs'| == |pcbs| && p !in Pids(stack)
    requires forall i | 0 <= i < |pcbs| && i != p :: pcbs'[i] == pcbs[i]
    ensures StackStored(pcbs', stack)
  {
    forall i | 0 <= i < |stack| ensures ProcStored(pcbs', stack, i) {
      assert ProcStored(pcbs, stack, i);
      assert stack[i].pid in Pids(stack);
    }
  }

  lemma StoredPush(pcbs: seq<Pcb>, stack: seq<Proc>, q: Proc)
    requires StackStored(pcbs, stack) && ProcStored(pcbs, stack + [q], |stack|)
    ensures StackStored(pcbs, stack + [q])
  {
    forall i | 0 <= i < |stack| ensures ProcStored(pcbs, stack + [q], i) { assert ProcStored(pcbs, stack, i); }
  }

  lemma StoredPop(pcbs: seq<Pcb>, stack: seq<Proc>)
    requires StackStored(pcbs, stack) && stack != []
    ensures StackStored(pcbs, stack[..|stack| - 1])
  {
    var s := stack[..|stack| - 1];
    forall i | 0 <= i < |s| ensures ProcStored(pcbs, s, i) { assert ProcStored(pcbs, stack, i); }
  }

  lemma UsedPush(m: Machine, q: Proc)
    requires Shaped(m)
    ensures Used(Push(m, q)) == Used(m) + {q.pid}
  {
    PushPids(m.stacks[m.scheduled], q);
    hide Pids;
  }

  lemma TopPid(s: seq<Proc>, t: nat)
    requires StackOk(s, t) && s != []
    ensures s[|s| - 1].pid < SLOTS && s[|s| - 1].pid in Pids(s)
  {
  }

  lemma UsedPop(m: Machine)
    requires WellFormed(m) && m.booted == TERMINALS
    ensures Used(Pop(m)) == Used(m) - {Leaf(m, m.scheduled).pid}
    ensures Leaf(m, m.scheduled).pid in Used(m) && Leaf(m, m.scheduled).pid < SLOTS
    ensures forall t | 0 <= t < TERMINALS && t != m.scheduled :: Leaf(m, m.scheduled).pid !in Pids(m.stacks[t])
  {
    hide Pids, StackOk, SavedOk;
    var s := m.stacks[m.scheduled];
    TopPid(s, m.scheduled);
    PopStackOk(s, m.scheduled);
    assert forall t | 0 <= t < TERMINALS && t != m.scheduled :: Pids(m.stacks[t]) !! Pids(s);
  }

  /** Entries 0 and 1 are set up as every execute does. */
  function WithTerminal(fds: seq<Fd>): seq<Fd>
    requires |fds| == 8
  {
    fds[0 := fds[0].(ops := StdIn, flags := 1)][1 := fds[1].(ops := StdOut, flags := 1)]
  }

  /** The variables after slot `p` has been taken and its program loaded. */
  function Spawned(k: Tables, p: nat, ebp: int): Tables
    requires p < |k.active| && p < |k.pcbs| && |k.pcbs[p].fds| == 8 && 0 <= k.scheduled < |k.terminals|
  {
    k.(active := k.active[p := 1], numActive := k.numActive + 1, noParent := false,
       pcbs := k.pcbs[p := Pcb(p, if k.noParent then -1 else k.current, ebp, WithTerminal(k.pcbs[p].fds))],
       terminals := k.terminals[k.scheduled := k.terminals[k.scheduled].(activePid := p)],
       current := p, pageBase := p + 2, esp0 := EIGHT_MB - p * EIGHT_KB - 4)
  }

  /** The first half: slot, parent link and page. */
  function Taken(k: Tables, p: nat): Tables
    requires p < |k.active| && p < |k.pcbs|
  {
    k.(active := k.active[p := 1], numActive := k.numActive + 1, noParent := false,
       pcbs := k.pcbs[p := k.pcbs[p].(parent := if k.noParent then -1 else k.current)], pageBase := p + 2)
  }

  /** The second half: the new process becomes the running one. */
  function Installed(k: Tables, p: nat, ebp: int): Tables
    requires p < |k.pcbs| && |k.pcbs[p].fds| == 8 && 0 <= k.scheduled < |k.terminals|
  {
    k.(pcbs := k.pcbs[p := k.pcbs[p].(pid := p, ebp := ebp, fds := WithTerminal(k.pcbs[p].fds))],
       terminals := k.terminals[k.scheduled := k.terminals[k.scheduled].(activePid := p)],
       current := p, esp0 := EIGHT_MB - p * EIGHT_KB - 4)
  }

  lemma SpawnedInTwo(k: Tables, p: nat, ebp: int)
    requires p < |k.active| && p < |k.pcbs| && |k.pcbs[p].fds| == 8 && 0 <= k.scheduled < |k.terminals|
    ensures Installed(Taken(k, p), p, ebp) == Spawned(k, p, ebp)
  {
    assert Installed(Taken(k, p), p, ebp).pcbs == Spawned(k, p, ebp).pcbs;
  }

  lemma SlotsSpawned(k: Tables, used: set<nat>, p: nat, ebp: int)
    requires SlotsStored(k.active, k.pcbs, used) && p < SLOTS && p !in used && 0 <= k.scheduled < |k.terminals|
    ensures |k.pcbs[p].fds| == 8 && Spawned(k, p, ebp).pcbs[p].fds == FRESH_TABLE
    ensures SlotsStored(Spawned(k, p, ebp).active, Spawned(k, p, ebp).pcbs, used + {p})
  {
    assert Clean(k.pcbs[p].fds);
    assert WithTerminal(k.pcbs[p].fds) == FRESH_TABLE;
  }

  lemma OthersStored(pcbs: seq<Pcb>, pcbs': seq<Pcb>, m: Machine, p: nat)
    requires |m.stacks| == TERMINALS && p !in Used(m) && |pcbs'| == |pcbs|
    requires forall i | 0 <= i < |pcbs| && i != p :: pcbs'[i] == pcbs[i]
    requires forall t | 0 <= t < TERMINALS :: StackStored(pcbs, m.stacks[t])
    ensures forall t | 0 <= t < TERMINALS :: StackStored(pcbs', m.stacks[t])
  {
    forall t | 0 <= t < TERMINALS ensures StackStored(pcbs', m.stacks[t]) {
      StoredFrame(pcbs, pcbs', m.stacks[t], p);
    }
  }

  lemma ExecuteRegisters(k: Tables, m: Machine, p: nat, ebp: int)
    requires Shaped(m) && Registers(k, m) && m.booted == TERMINALS
    requires p < |k.active| && p < |k.pcbs| && |k.pcbs[p].fds| == 8
    ensures Shaped(Push(m, Proc(p, Some(ebp), FRESH_TABLE)))
    ensures Registers(Spawned(k, p, ebp), Push(m, Proc(p, Some(ebp), FRESH_TABLE)))
  {
  }

  lemma ExecuteStored(k: Tables, m: Machine, p: nat, ebp: int)
    requires Shaped(m) && Registers(k, m) && m.booted == TERMINALS && p !in Used(m) && p < SLOTS
    requires SlotsStored(k.active, k.pcbs, Used(m))
    requires forall t | 0 <= t < TERMINALS :: StackStored(k.pcbs, m.stacks[t])
    ensures |k.pcbs| == SLOTS && |k.pcbs[p].fds| == 8
    ensures var q := Proc(p, Some(ebp), FRESH_TABLE);
            forall t | 0 <= t < TERMINALS :: StackStored(Spawned(k, p, ebp).pcbs, Push(m, q).stacks[t])
  {
    SlotsSpawned(k, Used(m), p, ebp);
    var k' := Spawned(k, p, ebp);
    OthersStored(k.pcbs, k'.pcbs, m, p);
    hide Used, Pids, SlotsStored, StackStored;
    StoredPush(k'.pcbs, m.stacks[m.scheduled], Proc(p, Some(ebp), FRESH_TABLE));
  }

  lemma Sizes(k: Tables, m: Machine)
    requires Represents(k, m)
    ensures Shaped(m) && |k.active| == |k.pcbs| == SLOTS && |k.terminals| == TERMINALS && k.scheduled == m.scheduled
    ensures k.sigquit == m.quits && k.switches == m.switches && k.shellCount == m.booted && k.displayed == m.displayed
    ensures forall p | 0 <= p < SLOTS :: |k.pcbs[p].fds| == 8
  {
    hide StackOk, StackStored, Pids, Used, SavedOk;
  }

  lemma ExecuteRepresents(k: Tables, m: Machine, p: nat, ebp: int)
    requires Represents(k, m) && m.booted == TERMINALS && p < SLOTS && p !in Used(m)
    requires InKernelStack(ebp, Leaf(m, m.scheduled).pid)
    ensures |k.pcbs| == |k.active| == SLOTS && |k.pcbs[p].fds| == 8 && 0 <= k.scheduled < |k.terminals|
    ensures Represents(Spawned(k, p, ebp), Push(m, Proc(p, Some(ebp), FRESH_TABLE)))
  {
    var q := Proc(p, Some(ebp), FRESH_TABLE);
    hide WellFormed, StackStored, SlotsStored, Used, Registers, TableOk, InKernelStack;
    FreshOk();
    Sizes(k, m);
    PushKeeps(m, q);
    UsedPush(m, q);
    SlotsSpawned(k, Used(m), p, ebp);
    ExecuteRegisters(k, m, p, ebp);
    ExecuteStored(k, m, p, ebp);
  }

  lemma FreshOk()
    ensures TableOk(FRESH_TABLE)
  {
  }

  /** The machine after the next root shell has been started. */
  function Booted(m: Machine): Machine
    requires |m.stacks| == TERMINALS && m.booted < TERMINALS
  {
    m.(booted := m.booted + 1, scheduled := m.booted,
       stacks := m.stacks[m.booted := [Proc(m.booted, None, FRESH_TABLE)]])
  }

  lemma UsedBooted(m: Machine)
    requires WellFormed(m) && m.booted < TERMINALS
    ensures Used(Booted(m)) == Used(m) + {m.booted} && Count(Booted(m)) == Count(m) + 1
  {
    var shell := Proc(m.booted, None, FRESH_TABLE);
    assert m.stacks[m.booted] == [] && [] + [shell] == [shell];
    PushPids([], shell);
    hide Pids, StackOk, SavedOk;
  }

  lemma BootRegisters(k: Tables, m: Machine, ebp: int)
    requires Shaped(m) && Registers(k, m) && m.booted < TERMINALS
    requires m.booted < |k.pcbs| && m.booted < |k.active| && |k.pcbs[m.booted].fds| == 8
    ensures Shaped(Booted(m))
    ensures Registers(Spawned(k.(noParent := true, shellCount := m.booted + 1, scheduled := m.booted), m.booted, ebp),
                      Booted(m))
  {
  }

  lemma BootRepresents(k: Tables, m: Machine, ebp: int)
    requires Represents(k, m) && m.booted < TERMINALS
    requires m.booted == 0 || InKernelStack(m.saved[m.scheduled], Leaf(m, m.scheduled).pid)
    ensures |k.pcbs| == |k.active| == SLOTS && |k.pcbs[m.booted].fds| == 8 && |k.terminals| == TERMINALS
    ensures Represents(Spawned(k.(noParent := true, shellCount := m.booted + 1, scheduled := m.booted), m.booted, ebp),
                       BootStep(m).0)
  {
    hide WellFormed, StackStored, SlotsStored, Used, InKernelStack, BootStep, Registers;
    var b := m.booted;
    var k1 := k.(noParent := true, shellCount := b + 1, scheduled := b);
    Sizes(k, m);
    BootSlot(m);
    BootStarts(m);
    BootKeeps(m);
    UsedBooted(m);
    SlotsSpawned(k1, Used(m), b, ebp);
    var k' := Spawned(k1, b, ebp);
    OthersStored(k.pcbs, k'.pcbs, m, b);
    BootRegisters(k, m, ebp);
    hide Registers;
    assert StackStored(k'.pcbs, [Proc(b, None, FRESH_TABLE)]) by { ShellStored(k'.pcbs, b); }
  }

  lemma ShellStored(pcbs: seq<Pcb>, b: nat)
    requires b < |pcbs| && pcbs[b].pid == b && pcbs[b].parent == -1 && pcbs[b].fds == FRESH_TABLE
    ensures StackStored(pcbs, [Proc(b, None, FRESH_TABLE)])
  {
  }

  /** The variables while a root shell restarts: its slot released, the no-parent flag raised. */
  function Released(k: Tables): Tables
    requires 0 <= k.current < |k.active|
  {
    k.(active := k.active[k.current := 0], numActive := k.numActive - 1, noParent := true)
  }

  lemma RestartRepresents(k: Tables, m: Machine, ebp: int)
    requires Represents(k, m) && m.booted == TERMINALS && |m.stacks[m.scheduled]| == 1
    ensures k.current == m.scheduled
    ensures |k.pcbs| == |k.active| == SLOTS && |k.pcbs[m.scheduled].fds| == 8 && |k.terminals| == TERMINALS
    ensures Represents(Spawned(Released(k), m.scheduled, ebp), m)
  {
    var t := m.scheduled;
    hide WellFormed, SlotsStored, Used, Registers, StackOk, StackStored;
    Sizes(k, m);
    RootSlotUsed(m, t);
    RootBlock(k, m);
    var k' := Spawned(Released(k), t, ebp);
    RestartSlots(k, m, Used(m), ebp);
    RestartRegisters(k, m, ebp);
    forall u | 0 <= u < TERMINALS ensures StackStored(k'.pcbs, m.stacks[u]) {
      RootFrameUnused(k.pcbs, k'.pcbs, m, u, ebp);
    }
    hide Spawned, Released;
  }

  /** A root shell that is alone on its terminal runs in the slot of the terminal's number. */
  lemma RootBlock(k: Tables, m: Machine)
    requires Represents(k, m) && m.booted == TERMINALS && |m.stacks[m.scheduled]| == 1
    ensures k.current == m.scheduled && |k.pcbs| == |k.active| == SLOTS
    ensures var b := k.pcbs[m.scheduled];
            b.pid == m.scheduled && b.parent == -1 && |b.fds| == 8 && WithTerminal(b.fds) == b.fds
  {
    hide WellFormed, SlotsStored, Used, StackStored, InKernelStack, TableOk;
    Sizes(k, m);
    LeafRunning(k, m);
    RootSlotUsed(m, m.scheduled);
    TableTerminal(k.pcbs[k.current].fds);
  }

  lemma TableTerminal(fds: seq<Fd>)
    requires TableOk(fds)
    ensures |fds| == 8 && WithTerminal(fds) == fds
  {
  }

  lemma RestartSlots(k: Tables, m: Machine, used: set<nat>, ebp: int)
    requires SlotsStored(k.active, k.pcbs, used) && m.scheduled in used && m.scheduled < SLOTS
    requires k.current == m.scheduled && 0 <= k.scheduled < |k.terminals|
    requires var b := k.pcbs[m.scheduled];
             b.pid == m.scheduled && b.parent == -1 && |b.fds| == 8 && WithTerminal(b.fds) == b.fds
    ensures var k' := Spawned(Released(k), m.scheduled, ebp);
            && SlotsStored(k'.active, k'.pcbs, used)
            && k'.pcbs == k.pcbs[m.scheduled := k.pcbs[m.scheduled].(ebp := ebp)]
            && k'.numActive == k.numActive
  {
  }

  lemma RestartRegisters(k: Tables, m: Machine, ebp: int)
    requires Shaped(m) && Registers(k, m) && m.booted == TERMINALS && |m.stacks[m.scheduled]| == 1
    requires k.current == m.scheduled && |k.active| == |k.pcbs| == SLOTS && |k.pcbs[m.scheduled].fds| == 8
    ensures |k.terminals| == TERMINALS && k.scheduled == m.scheduled
    ensures Registers(Spawned(Released(k), m.scheduled, ebp), m)
  {
  }

  /** No stack depends on the frame stored for a root. */
  lemma RootFrameUnused(pcbs: seq<Pcb>, pcbs': seq<Pcb>, m: Machine, u: nat, ebp: int)
    requires WellFormed(m) && m.booted == TERMINALS && u < TERMINALS && m.scheduled < |pcbs|
    requires StackStored(pcbs, m.stacks[u])
    requires pcbs' == pcbs[m.scheduled := pcbs[m.scheduled].(ebp := ebp)]
    ensures StackStored(pcbs', m.stacks[u])
  {
    var s := m.stacks[u];
    assert StackOk(s, u);
    RootSlotUsed(m, m.scheduled);
    forall i | 0 <= i < |s| ensures ProcStored(pcbs', s, i) {
      assert ProcStored(pcbs, s, i);
      if i > 0 { NotRoot(m, u, i); }
    }
  }

  lemma NotRoot(m: Machine, u: nat, i: nat)
    requires WellFormed(m) && m.booted == TERMINALS && u < TERMINALS && 0 < i < |m.stacks[u]|
    ensures m.stacks[u][i].pid != m.scheduled
  {
    assert StackOk(m.stacks[u], u);
    if u != m.scheduled {
      assert m.stacks[m.scheduled][0].pid in Pids(m.stacks[m.scheduled]) by {
        assert StackOk(m.stacks[m.scheduled], m.scheduled);
      }
      RootSlotUsed(m, m.scheduled);
      assert m.stacks[u][i].pid in Pids(m.stacks[u]);
    }
  }

  /** The variables after a process with a parent has halted. */
  function Halted(k: Tables, fds: seq<Fd>): Tables
    requires 0 <= k.current < |k.active| && k.current < |k.pcbs| && 0 <= k.scheduled < |k.terminals|
  {
    var parent := k.pcbs[k.current].parent;
    k.(active := k.active[k.current := 0], numActive := k.numActive - 1,
       pcbs := k.pcbs[k.current := k.pcbs[k.current].(fds := fds)],
       terminals := k.terminals[k.scheduled := k.terminals[k.scheduled].(activePid := parent)],
       current := parent, pageBase := parent + 2, esp0 := EIGHT_MB - parent * EIGHT_KB - 4)
  }

  /** Going up to the parent, after the slot has been released and its descriptors closed. */
  function Ascended(k: Tables): Tables
    requires 0 <= k.current < |k.pcbs| && 0 <= k.scheduled < |k.terminals|
  {
    var parent := k.pcbs[k.current].parent;
    k.(numActive := k.numActive - 1, current := parent, pageBase := parent + 2,
       esp0 := EIGHT_MB - parent * EIGHT_KB - 4,
       terminals := k.terminals[k.scheduled := k.terminals[k.scheduled].(activePid := parent)])
  }

  lemma HaltRegisters(k: Tables, m: Machine, fds: seq<Fd>)
    requires Shaped(m) && m.booted == TERMINALS && |m.stacks[m.scheduled]| > 1 && Registers(k, m)
    requires ProcStored(k.pcbs, m.stacks[m.scheduled], |m.stacks[m.scheduled]| - 1) && 0 <= k.current < |k.active|
    ensures k.current == Leaf(m, m.scheduled).pid < |k.pcbs|
    ensures Shaped(Pop(m)) && Registers(Halted(k, fds), Pop(m))
  {
  }

  lemma HaltSlots(k: Tables, used: set<nat>, fds: seq<Fd>)
    requires SlotsStored(k.active, k.pcbs, used) && Clean(fds)
    requires 0 <= k.current < SLOTS && 0 <= k.scheduled < |k.terminals|
    ensures SlotsStored(Halted(k, fds).active, Halted(k, fds).pcbs, used - {k.current})
  {
  }

  lemma HaltRepresents(k: Tables, m: Machine, fds: seq<Fd>)
    requires Represents(k, m) && m.booted == TERMINALS && |m.stacks[m.scheduled]| > 1
    requires Clean(fds)
    ensures 0 <= k.current < |k.active| && k.current < |k.pcbs| && 0 <= k.scheduled < |k.terminals|
    ensures HaltStep(m).1 == Resume(k.pcbs[k.current].ebp)
    ensures Represents(Halted(k, fds), Pop(m))
  {
    hide WellFormed, SlotsStored, StackStored, Used, Clean, Running, LowestFree;
    var t := m.scheduled;
    Sizes(k, m);
    UsedPop(m);
    PopKeeps(m);
    LeafRunning(k, m);
    HaltRegisters(k, m, fds);
    HaltSlots(k, Used(m), fds);
    var k' := Halted(k, fds);
    StoredPop(k.pcbs, m.stacks[t]);
    OthersStored(k.pcbs, k'.pcbs, Pop(m), Leaf(m, t).pid);
    hide Registers;
  }

  /** The running process is the one recorded everywhere, and what its block says of its caller. */
  lemma LeafRunning(k: Tables, m: Machine)
    requires Represents(k, m) && m.booted == TERMINALS
    ensures Shaped(m) && k.current == Leaf(m, m.scheduled).pid < SLOTS
    ensures |k.pcbs| == SLOTS && k.pcbs[k.current].fds == Leaf(m, m.scheduled).fds && TableOk(Leaf(m, m.scheduled).fds)
    ensures ProcStored(k.pcbs, m.stacks[m.scheduled], |m.stacks[m.scheduled]| - 1)
    ensures k.pcbs[k.current].parent == -1 <==> |m.stacks[m.scheduled]| == 1
    ensures |m.stacks[m.scheduled]| > 1 ==> Leaf(m, m.scheduled).caller == Some(k.pcbs[k.current].ebp)
  {
    var s := m.stacks[m.scheduled];
    Sizes(k, m);
    assert StackOk(s, m.scheduled);
    assert StackStored(k.pcbs, s);
    assert ProcStored(k.pcbs, s, |s| - 1);
    hide StackOk, Pids, SlotsStored, SavedOk, StackStored, TableOk;
  }

  lemma StackStoredTable(pcbs: seq<Pcb>, stack: seq<Proc>, fds: seq<Fd>)
    requires StackStored(pcbs, stack) && stack != []
    requires forall i | 0 <= i < |stack| - 1 :: stack[i].pid != stack[|stack| - 1].pid
    ensures var p := stack[|stack| - 1].pid;
            p < |pcbs| && StackStored(pcbs[p := pcbs[p].(fds := fds)], SetTop(stack, fds))
  {
    assert ProcStored(pcbs, stack, |stack| - 1);
    var p := stack[|stack| - 1].pid;
    var pcbs', stack' := pcbs[p := pcbs[p].(fds := fds)], SetTop(stack, fds);
    forall i | 0 <= i < |stack| ensures ProcStored(pcbs', stack', i) {
      assert ProcStored(pcbs, stack, i);
    }
  }

  lemma UsedTable(m: Machine, fds: seq<Fd>)
    requires WellFormed(m) && m.booted == TERMINALS && TableOk(fds)
    ensures Used(SetTable(m, fds)) == Used(m) && Count(SetTable(m, fds)) == Count(m)
  {
    assert StackOk(m.stacks[m.scheduled], m.scheduled);
    SetTopOk(m.stacks[m.scheduled], m.scheduled, fds);
    hide Pids, StackOk, SavedOk, TableOk;
  }

  lemma DistinctBelow(m: Machine)
    requires WellFormed(m) && m.booted == TERMINALS
    ensures var s := m.stacks[m.scheduled];
            forall i | 0 <= i < |s| - 1 :: s[i].pid != s[|s| - 1].pid
  {
    assert StackOk(m.stacks[m.scheduled], m.scheduled);
  }

  lemma TableRepresents(k: Tables, m: Machine, fds: seq<Fd>)
    requires Represents(k, m) && m.booted == TERMINALS && TableOk(fds)
    ensures 0 <= k.current < |k.pcbs|
    ensures Represents(k.(pcbs := k.pcbs[k.current := k.pcbs[k.current].(fds := fds)]), SetTable(m, fds))
  {
    hide WellFormed, StackStored, Used, TableOk, Pids, ProcStored;
    Sizes(k, m);
    LeafRunning(k, m);
    UsedPop(m);
    var t, p := m.scheduled, Leaf(m, m.scheduled).pid;
    var pcbs := k.pcbs[p := k.pcbs[p].(fds := fds)];
    SetTableKeeps(m, fds);
    UsedTable(m, fds);
    DistinctBelow(m);
    StackStoredTable(k.pcbs, m.stacks[t], fds);
    forall u | 0 <= u < TERMINALS && u != t ensures StackStored(pcbs, m.stacks[u]) {
      StoredFrame(k.pcbs, pcbs, m.stacks[u], p);
    }
    assert |fds| == 8 by { TableSize(fds); }
    TableRegisters(k, m, fds);
    hide Registers, Push, Pop;
  }

  lemma TableSize(fds: seq<Fd>)
    requires TableOk(fds)
    ensures |fds| == 8
  {
  }

  lemma TableRegisters(k: Tables, m: Machine, fds: seq<Fd>)
    requires Shaped(m) && Registers(k, m) && m.booted == TERMINALS && 0 <= k.current < |k.pcbs|
    ensures Shaped(SetTable(m, fds))
    ensures Registers(k.(pcbs := k.pcbs[k.current := k.pcbs[k.current].(fds := fds)]), SetTable(m, fds))
  {
  }

  /** Steps that only move the processor, the display or the requests leave the stacks represented. */
  lemma RegistersRepresent(k: Tables, k': Tables, m: Machine, m': Machine)
    requires Represents(k, m) && WellFormed(m') && m'.stacks == m.stacks
    requires k'.active == k.active && k'.pcbs == k.pcbs && k'.numActive == k.numActive && Registers(k', m')
    ensures Represents(k', m')
  {
    hide WellFormed, Registers, SlotsStored, StackStored;
  }

  /** The variables of zeroed memory once `terminal_init` has run. */
  const INITIAL_TABLES: Tables :=
    Tables([0, 0, 0, 0, 0, 0], seq(6, _ => Pcb(0, 0, 0, EMPTY_TABLE)),
           [TerminalInfo(0, 0), TerminalInfo(1, 0), TerminalInfo(2, 0)], [false, false, false], [false, false, false],
           0, 0, 0, 0, true, 0, 0, EIGHT_MB)

  const INITIAL_MACHINE: Machine :=
    Machine(0, [[], [], []], [0, 0, 0], 0, 0, [false, false, false], [false, false, false])

  lemma InitialWellFormed()
    ensures WellFormed(INITIAL_MACHINE) && Initial(INITIAL_MACHINE)
    ensures Used(INITIAL_MACHINE) == {} && Count(INITIAL_MACHINE) == 0
    ensures forall t | 0 <= t < TERMINALS :: INITIAL_MACHINE.stacks[t] == []
  {
    assert forall t | 0 <= t < TERMINALS :: INITIAL_MACHINE.stacks[t] == [] && Pids(INITIAL_MACHINE.stacks[t]) == {};
  }

  lemma InitialRepresents()
    ensures Represents(INITIAL_TABLES, INITIAL_MACHINE)
  {
    InitialWellFormed();
    hide WellFormed, Initial, Used, Count, Pids;
  }

  lemma RepresentsWellFormed(k: Tables, m: Machine)
    requires Represents(k, m)
    ensures WellFormed(m) && Shaped(m)
  {
  }

  lemma SwitchKeyRepresents(k: Tables, m: Machine, t: nat)
    requires Represents(k, m) && t < TERMINALS
    ensures |k.switches| == TERMINALS
    ensures Represents(k.(switches := k.switches[t := true]), m.(switches := m.switches[t := true]))
    ensures Does(m, SwitchKey(t), m.(switches := m.switches[t := true]), Return(0))
  {
    hide StackOk, Pids, Used, SlotsStored, StackStored;
    RegistersRepresent(k, k.(switches := k.switches[t := true]), m, m.(switches := m.switches[t := true]));
  }

  lemma QuitKeyRepresents(k: Tables, m: Machine)
    requires Represents(k, m)
    ensures 0 <= k.displayed < |k.sigquit|
    ensures Represents(k.(sigquit := k.sigquit[k.displayed := true]), m.(quits := m.quits[m.displayed := true]))
    ensures Does(m, QuitKey, m.(quits := m.quits[m.displayed := true]), Return(0))
  {
    hide StackOk, Pids, Used, SlotsStored, StackStored;
    RegistersRepresent(k, k.(sigquit := k.sigquit[k.displayed := true]), m, m.(quits := m.quits[m.displayed := true]));
  }

  /** The slot the search of `sys_execute` finds. */
  function FirstIdle(active: seq<int>, from: nat): (r: Option<nat>)
    requires |active| == SLOTS
    ensures r.None? ==> forall p | from <= p < SLOTS :: active[p] != 0
    ensures r.Some? ==> from <= r.value < SLOTS && active[r.value] == 0
                        && forall p | from <= p < r.value :: active[p] != 0
    decreases SLOTS - from
  {
    if from >= SLOTS then None else if active[from] == 0 then Some(from) else FirstIdle(active, from + 1)
  }

  lemma IdleIsFree(k: Tables, m: Machine)
    requires Represents(k, m)
    ensures |k.active| == SLOTS && FirstIdle(k.active, 0) == LowestFree(Used(m))
  {
    Sizes(k, m);
    hide WellFormed, Registers, StackStored, Used, Clean;
    var f, l := FirstIdle(k.active, 0), LowestFree(Used(m));
    assert f.Some? ==> f.value !in Used(m);
    assert l.Some? ==> k.active[l.value] == 0;
  }

  /** Once a root shell's slot is released, the search finds that slot again. */
  lemma IdleAfterRelease(k: Tables, m: Machine)
    requires Represents(k, m) && m.booted == TERMINALS && |m.stacks[m.scheduled]| == 1
    ensures 0 <= k.current < |k.active| == SLOTS && FirstIdle(Released(k).active, 0) == Some(m.scheduled)
  {
    RestartRepresents(k, m, 0);
    forall q | 0 <= q < m.scheduled ensures k.active[q] == 1 { RootSlotUsed(m, q); }
    hide WellFormed, Registers, StackStored, Used, Clean, SlotsStored, Represents;
  }

  // ---------------------------------------------------------------- whole system calls

  /** A user's execute of a valid program. */
  lemma ExecuteDoes(k: Tables, m: Machine, ebp: int)
    requires Represents(k, m) && Admissible(m, Execute(true, ebp))
    ensures |k.active| == SLOTS
    ensures var p := FirstIdle(k.active, 0);
            if p.Some? then
              && p.value < |k.pcbs| && |k.pcbs[p.value].fds| == 8 && 0 <= k.scheduled < |k.terminals|
              && var n := Push(m, Proc(p.value, Some(ebp), FRESH_TABLE));
                 Represents(Spawned(k, p.value, ebp), n) && Does(m, Execute(true, ebp), n, Start(p.value))
            else Does(m, Execute(true, ebp), m, Return(-1))
  {
    IdleIsFree(k, m);
    RepresentsWellFormed(k, m);
    hide WellFormed, FirstIdle, LowestFree, Used;
    var p := FirstIdle(k.active, 0);
    if p.Some? {
      hide Represents, InKernelStack, Push;
      ExecuteRepresents(k, m, p.value, ebp);
    }
  }

  lemma ExecuteRefused(k: Tables, m: Machine, ebp: int)
    requires Represents(k, m) && Admissible(m, Execute(true, ebp))
    ensures Does(m, Execute(false, ebp), m, Return(-1))
  {
    RepresentsWellFormed(k, m);
    hide WellFormed, Represents;
  }

  /** A root shell's halt. */
  lemma RestartDoes(k: Tables, m: Machine, ebp: int)
    requires Represents(k, m) && m.booted == TERMINALS && |m.stacks[m.scheduled]| == 1
    ensures 0 <= k.current < |k.active| == SLOTS && k.current == m.scheduled
    ensures FirstIdle(Released(k).active, 0) == Some(m.scheduled)
    ensures |k.pcbs| == SLOTS && |k.pcbs[m.scheduled].fds| == 8
    ensures |k.terminals| == TERMINALS && k.scheduled == m.scheduled
    ensures Represents(Spawned(Released(k), m.scheduled, ebp), m)
    ensures Does(m, Halt, m, Start(m.scheduled))
  {
    hide WellFormed, Represents, FirstIdle, HaltStep, Spawned, Used, LowestFree;
    Sizes(k, m);
    RepresentsWellFormed(k, m);
    RestartRepresents(k, m, ebp);
    IdleAfterRelease(k, m);
    RootRestartsInPlace(m);
  }

  /** A halt that returns to the parent. */
  lemma HaltDoes(k: Tables, m: Machine, fds: seq<Fd>)
    requires Represents(k, m) && m.booted == TERMINALS && |m.stacks[m.scheduled]| > 1 && Clean(fds)
    ensures 0 <= k.current < |k.active| && k.current < |k.pcbs| && 0 <= k.scheduled < |k.terminals|
    ensures Represents(Halted(k, fds), Pop(m))
    ensures Does(m, Halt, Pop(m), Resume(k.pcbs[k.current].ebp))
  {
    hide WellFormed, Represents, Pop, Halted, Used, LowestFree;
    RepresentsWellFormed(k, m);
    HaltRepresents(k, m, fds);
  }

  // ---------------------------------------------------------------- the timer tick

  /** The variables once the interrupted frame is saved. */
  function Saved(k: Tables, frame: int): Tables
    requires 0 <= k.scheduled < |k.terminals|
  {
    k.(terminals := k.terminals[k.scheduled := k.terminals[k.scheduled].(ebpSave := frame)])
  }

  lemma SaveRegisters(k: Tables, m: Machine, frame: int)
    requires Shaped(m) && Registers(k, m)
    ensures Shaped(SaveFrame(m, frame)) && Registers(Saved(k, frame), SaveFrame(m, frame))
  {
  }

  lemma SaveRepresents(k: Tables, m: Machine, frame: int)
    requires Represents(k, m) && Admissible(m, Tick(frame))
    ensures |k.terminals| == TERMINALS && 0 <= k.scheduled < TERMINALS
    ensures Represents(Saved(k, frame), SaveFrame(m, frame))
  {
    hide WellFormed, SlotsStored, StackStored, Admissible, Registers;
    Sizes(k, m);
    SaveKeeps(m, frame);
    SaveRegisters(k, m, frame);
    RegistersRepresent(k, Saved(k, frame), m, SaveFrame(m, frame));
  }

  lemma ClearRepresents(k: Tables, m: Machine)
    requires Represents(k, m) && m.booted == TERMINALS
    ensures 0 <= k.scheduled < |k.sigquit|
    ensures Represents(k.(sigquit := k.sigquit[k.scheduled := false]), ClearQuit(m))
  {
    hide StackOk, Pids, Used, SlotsStored, StackStored;
    RegistersRepresent(k, k.(sigquit := k.sigquit[k.scheduled := false]), m, ClearQuit(m));
  }

  lemma SwitchRepresents(k: Tables, m: Machine, t: nat)
    requires Represents(k, m) && t < TERMINALS
    ensures |k.switches| == TERMINALS
    ensures Represents(k.(switches := k.switches[t := false], displayed := t), SwitchDisplay(m, t))
  {
    hide StackOk, Pids, Used, SlotsStored, StackStored;
    RegistersRepresent(k, k.(switches := k.switches[t := false], displayed := t), m, SwitchDisplay(m, t));
  }

  /** The variables after the processor has been passed on. */
  function Rotated(k: Tables): Tables
    requires |k.terminals| == TERMINALS
  {
    var next := (k.scheduled + 1) % TERMINALS;
    var pid := k.terminals[next].activePid;
    k.(scheduled := next, current := pid, pageBase := pid + 2, esp0 := EIGHT_MB - pid * EIGHT_KB - 4)
  }

  lemma RotateRepresents(k: Tables, m: Machine)
    requires Represents(k, m) && m.booted == TERMINALS
    requires InKernelStack(m.saved[m.scheduled], Leaf(m, m.scheduled).pid)
    ensures |k.terminals| == TERMINALS && 0 <= k.scheduled < TERMINALS
    ensures Represents(Rotated(k), Rotate(m).0)
    ensures Rotate(m).1 == Resume(k.terminals[Rotated(k).scheduled].ebpSave)
  {
    hide WellFormed, Used, SlotsStored, StackStored, InKernelStack, Registers;
    RotateKeeps(m);
    ShapeOf(m);
    RotateRegisters(k, m);
    hide Rotate, Rotated;
    RegistersRepresent(k, Rotated(k), m, Rotate(m).0);
  }

  lemma RotateRegisters(k: Tables, m: Machine)
    requires Shaped(m) && Registers(k, m) && m.booted == TERMINALS
    ensures |k.terminals| == TERMINALS && 0 <= k.scheduled < TERMINALS
    ensures Shaped(Rotate(m).0) && Registers(Rotated(k), Rotate(m).0) && Rotate(m).0.stacks == m.stacks
    ensures var r := Rotated(k); r.active == k.active && r.pcbs == k.pcbs && r.numActive == k.numActive
    ensures Rotate(m).1 == Resume(k.terminals[Rotated(k).scheduled].ebpSave)
  {
  }

  lemma TickBoots(m: Machine, frame: int)
    requires WellFormed(m) && Admissible(m, Tick(frame)) && m.booted < TERMINALS
    ensures WellFormed(SaveFrame(m, frame)) && LowestFree(Used(SaveFrame(m, frame))) == Some(m.booted)
    ensures var m1 := SaveFrame(m, frame);
            m1.booted == 0 || InKernelStack(m1.saved[m1.scheduled], Leaf(m1, m1.scheduled).pid)
    ensures Does(m, Tick(frame), BootStep(SaveFrame(m, frame)).0, Start(m.booted))
  {
    SaveKeeps(m, frame);
    BootSlot(SaveFrame(m, frame));
    BootStarts(SaveFrame(m, frame));
    ShapeOf(m);
    hide WellFormed, BootStep, InKernelStack, LowestFree, Used;
  }

  lemma TickSwitches(m: Machine, frame: int)
    requires WellFormed(m) && Admissible(m, Tick(frame)) && m.booted == TERMINALS && FirstSwitch(m).Some?
    ensures Does(m, Tick(frame), SwitchDisplay(SaveFrame(m, frame), FirstSwitch(m).value), Return(0))
  {
    ShapeOf(m);
    hide WellFormed, Admissible, FirstSwitch;
  }

  lemma TickHalts(m: Machine, frame: int, n: Machine, c: Control)
    requires WellFormed(m) && Admissible(m, Tick(frame)) && m.booted == TERMINALS && FirstSwitch(m).None?
    requires m.quits[m.scheduled] && Does(ClearQuit(SaveFrame(m, frame)), Halt, n, c)
    ensures Does(m, Tick(frame), n, c)
  {
    ShapeOf(m);
    hide WellFormed, Admissible, FirstSwitch, HaltStep;
  }

  lemma TickRotates(m: Machine, frame: int)
    requires WellFormed(m) && Admissible(m, Tick(frame)) && m.booted == TERMINALS && FirstSwitch(m).None?
    requires !m.quits[m.scheduled]
    ensures var m1 := SaveFrame(m, frame);
            && InKernelStack(m1.saved[m1.scheduled], Leaf(m1, m1.scheduled).pid)
            && Does(m, Tick(frame), Rotate(m1).0, Rotate(m1).1)
  {
    ShapeOf(m);
    hide WellFormed, FirstSwitch, InKernelStack;
  }

  // ---------------------------------------------------------------- descriptors

  lemma CloseRefused(m: Machine, fd: int)
    requires WellFormed(m) && m.booted == TERMINALS
    requires |Leaf(m, m.scheduled).fds| == 8 && !IsOpen(Leaf(m, m.scheduled).fds, fd)
    ensures Does(m, Close(fd), m, Return(-1))
  {
    hide WellFormed;
  }

  lemma CloseServed(m: Machine, fd: int)
    requires WellFormed(m) && m.booted == TERMINALS
    requires |Leaf(m, m.scheduled).fds| == 8 && IsOpen(Leaf(m, m.scheduled).fds, fd)
    ensures Does(m, Close(fd), SetTable(m, Leaf(m, m.scheduled).fds[fd := CLOSED]), Return(0))
  {
    hide WellFormed, SetTable;
  }

  lemma MoveServed(m: Machine, fd: int, position: nat)
    requires WellFormed(m) && m.booted == TERMINALS
    requires |Leaf(m, m.scheduled).fds| == 8 && IsOpen(Leaf(m, m.scheduled).fds, fd)
    ensures var fds := Leaf(m, m.scheduled).fds;
            Does(m, Move(fd, position), SetTable(m, fds[fd := fds[fd].(position := position)]), Return(0))
  {
    hide WellFormed, SetTable;
  }

  lemma OpenDoes(m: Machine, found: Option<Entry>)
    requires WellFormed(m) && m.booted == TERMINALS && |Leaf(m, m.scheduled).fds| == 8
    ensures var (fds, r) := OpenTable(Leaf(m, m.scheduled).fds, found);
            Does(m, Open(found), SetTable(m, fds), Return(r))
  {
    hide WellFormed, SetTable, OpenTable;
  }

  /** Storing the table a process already has changes nothing. */
  lemma OpenNothing(m: Machine, fds: seq<Fd>)
    requires Shaped(m) && m.booted == TERMINALS && fds == Leaf(m, m.scheduled).fds
    ensures SetTable(m, fds) == m
  {
    var s := m.stacks[m.scheduled];
    assert SetTop(s, fds) == s;
    assert SetTable(m, fds).stacks == m.stacks;
  }
}
