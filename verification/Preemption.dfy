/**
 * What the timer and the keyboard do to a terminal over a run: a preempted program is resumed at
 * the frame at which it was interrupted, a switch key shows its terminal, and CTRL+C ends a program
 * of the terminal that was displayed, and of no other.
 */
module Preemption {
  import opened Basics
  import opened ProcessModel
  import opened ProcessRuns

  // ---------------------------------------------------------------- one tick

  /** The lowest terminal whose switch key waits to be served. */
  predicate NextToShow(m: Machine, k: nat)
    requires |m.switches| == TERMINALS
  {
    k < TERMINALS && m.switches[k] && forall u | 0 <= u < k :: !m.switches[u]
  }

  predicate NoneToShow(m: Machine)
    requires |m.switches| == TERMINALS
  {
    forall u | 0 <= u < TERMINALS :: !m.switches[u]
  }

  /** A tick that finds a switch key pressed: the lowest such terminal is displayed, the program goes on. */
  lemma TickShows(m: Machine, frame: int, k: nat)
    requires WellFormed(m) && Admissible(m, Tick(frame)) && m.booted == TERMINALS
    requires |m.switches| == TERMINALS && NextToShow(m, k)
    ensures |m.saved| == TERMINALS && m.scheduled < TERMINALS
    ensures Next(m, Tick(frame)) ==
            m.(saved := m.saved[m.scheduled := frame], switches := m.switches[k := false], displayed := k)
    ensures Step(m, Tick(frame)).1 == Return(0)
  {
    ShapeOf(m);
    hide WellFormed, HaltStep, BootStep;
  }

  /** With no switch to serve, a pending CTRL+C of the scheduled terminal ends its running program. */
  lemma TickQuits(m: Machine, frame: int)
    requires WellFormed(m) && Admissible(m, Tick(frame)) && m.booted == TERMINALS
    requires |m.switches| == |m.quits| == TERMINALS && m.scheduled < TERMINALS
    requires NoneToShow(m) && m.quits[m.scheduled]
    ensures |m.saved| == |m.stacks| == TERMINALS && m.stacks[m.scheduled] != []
    ensures var s, r := m.stacks[m.scheduled], Next(m, Tick(frame));
            r == m.(saved := m.saved[m.scheduled := frame], quits := m.quits[m.scheduled := false],
                    stacks := if |s| == 1 then m.stacks else m.stacks[m.scheduled := s[..|s| - 1]])
    ensures |m.stacks[m.scheduled]| == 1 ==> Step(m, Tick(frame)).1 == Start(m.scheduled)
  {
    hide WellFormed, HaltStep, BootStep, Admissible, LowestFree, Used;
    ShapeOf(m);
    SaveKeeps(m, frame);
    var m1 := ClearQuit(SaveFrame(m, frame));
    if |m.stacks[m.scheduled]| == 1 {
      RootRestartsInPlace(m1);
    } else {
      LeafHalts(m1);
      HaltTouchesOneStack(m1);
      var r := HaltStep(m1).0.stacks;
      assert r == m.stacks[m.scheduled := m.stacks[m.scheduled][..|m.stacks[m.scheduled]| - 1]] by {
        ShapeOf(HaltStep(m1).0);
      }
    }
  }

  /** Otherwise the processor goes to the next terminal, at the frame at which that one was interrupted. */
  lemma TickPassesOn(m: Machine, frame: int)
    requires WellFormed(m) && Admissible(m, Tick(frame)) && m.booted == TERMINALS
    requires |m.switches| == |m.quits| == TERMINALS && m.scheduled < TERMINALS
    requires NoneToShow(m) && !m.quits[m.scheduled]
    ensures |m.saved| == TERMINALS
    ensures Next(m, Tick(frame)) ==
            m.(saved := m.saved[m.scheduled := frame], scheduled := Ahead(m.scheduled, 1))
    ensures Step(m, Tick(frame)).1 == Resume(m.saved[Ahead(m.scheduled, 1)])
  {
    ShapeOf(m);
    hide WellFormed, HaltStep, BootStep;
  }

  // ---------------------------------------------------------------- interrupted frames

  /** Terminal `t` does not have the processor at any point of the run. */
  ghost predicate Away(m: Machine, es: seq<Event>, t: nat)
    requires WellFormed(m) && AdmissibleRun(m, es)
    decreases |es|
  {
    m.scheduled != t && (es == [] || Away(Next(m, es[0]), es[1..], t))
  }

  lemma BootTick(m: Machine, frame: int)
    requires WellFormed(m) && Admissible(m, Tick(frame)) && m.booted < TERMINALS
    ensures |m.saved| == |m.stacks| == TERMINALS && m.scheduled < TERMINALS
    ensures Next(m, Tick(frame)) ==
            m.(saved := m.saved[m.scheduled := frame], booted := m.booted + 1, scheduled := m.booted,
               stacks := m.stacks[m.booted := [Proc(m.booted, None, FRESH_TABLE)]])
    ensures Step(m, Tick(frame)).1 == Start(m.booted)
  {
    hide WellFormed, BootStep, Admissible;
    ShapeOf(m);
    SaveKeeps(m, frame);
    BootStarts(SaveFrame(m, frame));
  }

  /** What a tick does to the saved frames, the processor and the other terminals' stacks. */
  lemma TickSaves(m: Machine, frame: int)
    requires WellFormed(m) && Admissible(m, Tick(frame))
    ensures |m.saved| == |m.stacks| == TERMINALS && m.scheduled < TERMINALS
    ensures var n := Next(m, Tick(frame));
            && n.saved == m.saved[m.scheduled := frame] && |n.stacks| == TERMINALS
            && (n.scheduled != m.scheduled ==> forall u | 0 <= u < m.booted :: n.stacks[u] == m.stacks[u])
            && (forall u | 0 <= u < m.booted && u != m.scheduled :: n.stacks[u] == m.stacks[u])
            && m.booted <= n.booted
            && (m.booted > 0 && n.scheduled != m.scheduled && n.scheduled < m.booted ==>
                  Step(m, Tick(frame)).1 == Resume(m.saved[n.scheduled]))
  {
    hide WellFormed, Admissible, Step, Next, AdmissibleRun;
    ShapeOf(m);
    if m.booted < TERMINALS {
      BootTick(m, frame);
    } else if exists k :: NextToShow(m, k) {
      var k :| NextToShow(m, k);
      TickShows(m, frame, k);
    } else {
      LowestToShow(m);
      if m.quits[m.scheduled] { TickQuits(m, frame); } else { TickPassesOn(m, frame); }
    }
  }

  lemma LowestToShow(m: Machine)
    requires |m.switches| == TERMINALS
    ensures NoneToShow(m) || exists k :: NextToShow(m, k)
  {
    if m.switches[0] { assert NextToShow(m, 0); }
    else if m.switches[1] { assert NextToShow(m, 1); }
    else if m.switches[2] { assert NextToShow(m, 2); }
  }

  /** A terminal that does not have the processor keeps its interrupted frame and its stack. */
  lemma WaitingKeeps(m: Machine, e: Event, t: nat)
    requires WellFormed(m) && Admissible(m, e) && t < m.booted && t != m.scheduled
    ensures var n := Next(m, e);
            && |m.saved| == |n.saved| == |m.stacks| == |n.stacks| == TERMINALS && t < n.booted
            && n.saved[t] == m.saved[t] && n.stacks[t] == m.stacks[t]
  {
    hide WellFormed, Next, Step;
    ShapeOf(m);
    ShapeOf(Next(m, e));
    if e.Tick? {
      TickSaves(m, e.frame);
    } else {
      OthersSave(m, e);
      if !e.SwitchKey? && !e.QuitKey? { StepTouchesOneStack(m, e); } else { KeyKeepsStacks(m, e); }
    }
  }

  lemma OthersSave(m: Machine, e: Event)
    requires WellFormed(m) && Admissible(m, e) && !e.Tick?
    ensures Next(m, e).saved == m.saved && Next(m, e).booted == m.booted && Next(m, e).scheduled == m.scheduled
  {
    hide WellFormed, LowestFree, Used, OpenTable, SetTop;
    ShapeOf(m);
    if e.Halt? { HaltTouchesOneStack(m); }
  }

  lemma {:induction false} AwayKeeps(m: Machine, es: seq<Event>, t: nat)
    requires WellFormed(m) && AdmissibleRun(m, es) && t < m.booted && Away(m, es, t)
    ensures var r := Run(m, es);
            && |m.saved| == |r.saved| == |m.stacks| == |r.stacks| == TERMINALS && t < r.booted
            && r.scheduled != t && r.saved[t] == m.saved[t] && r.stacks[t] == m.stacks[t]
    decreases |es|
  {
    hide WellFormed, Admissible, Next;
    ShapeOf(m);
    if es != [] {
      WaitingKeeps(m, es[0], t);
      AwayKeeps(Next(m, es[0]), es[1..], t);
    }
  }

  /**
   * Preemption is invisible to the program preempted: a tick interrupts terminal `t` at `frame` and
   * gives the processor away; whatever the other terminals and the keys do until a tick gives it
   * back, that tick resumes exactly `frame`, with the terminal's processes as they were.
   */
  lemma PreemptedResumesItsFrame(m: Machine, frame: int, es: seq<Event>, last: int)
    requires WellFormed(m) && Admissible(m, Tick(frame)) && m.booted > 0
    requires AdmissibleRun(Next(m, Tick(frame)), es) && Away(Next(m, Tick(frame)), es, m.scheduled)
    requires var end := Run(Next(m, Tick(frame)), es);
             Admissible(end, Tick(last)) && Next(end, Tick(last)).scheduled == m.scheduled
    ensures var end := Run(Next(m, Tick(frame)), es);
            && Step(end, Tick(last)).1 == Resume(frame)
            && |m.stacks| == |Next(end, Tick(last)).stacks| == TERMINALS && m.scheduled < TERMINALS
            && Next(end, Tick(last)).stacks[m.scheduled] == m.stacks[m.scheduled]
  {
    hide WellFormed, Admissible, Next, Step, AdmissibleRun, Run, Away;
    ShapeOf(m);
    TickSaves(m, frame);
    var n := Next(m, Tick(frame));
    AwayNow(n, es, m.scheduled);
    AwayKeeps(n, es, m.scheduled);
    TickSaves(Run(n, es), last);
  }

  lemma AwayNow(m: Machine, es: seq<Event>, t: nat)
    requires WellFormed(m) && AdmissibleRun(m, es) && Away(m, es, t)
    ensures m.scheduled != t
  {
  }

  // ---------------------------------------------------------------- CTRL+C and the switch keys

  /** The tick ends the running program of terminal `t`. */
  ghost predicate Ends(m: Machine, e: Event, t: nat)
    requires Shaped(m) && t < TERMINALS
  {
    e.Tick? && m.booted == TERMINALS && m.scheduled == t && NoneToShow(m) && m.quits[t]
  }

  /** The tick displays terminal `t`. */
  ghost predicate Displays(m: Machine, e: Event, t: nat)
    requires Shaped(m)
  {
    e.Tick? && m.booted == TERMINALS && NextToShow(m, t)
  }

  lemma OthersAsk(m: Machine, e: Event)
    requires WellFormed(m) && Admissible(m, e) && !e.Tick? && m.booted == TERMINALS
    ensures Shaped(m)
    ensures Next(m, e).quits == if e.QuitKey? then m.quits[m.displayed := true] else m.quits
    ensures Next(m, e).switches == if e.SwitchKey? then m.switches[e.terminal := true] else m.switches
    ensures Next(m, e).displayed == m.displayed
  {
    hide WellFormed, LowestFree, Used, OpenTable, SetTop;
    ShapeOf(m);
    if e.Halt? { HaltTouchesOneStack(m); }
  }

  /** The requests and the display after any event, terminal by terminal. */
  lemma RequestStep(m: Machine, e: Event, t: nat)
    requires WellFormed(m) && Admissible(m, e) && m.booted == TERMINALS && t < TERMINALS
    ensures var n := Next(m, e);
            && Shaped(m) && Shaped(n) && n.booted == TERMINALS
            && (n.quits[t] <==> (m.quits[t] && !Ends(m, e, t)) || (e.QuitKey? && m.displayed == t))
            && (n.switches[t] <==> (m.switches[t] && !Displays(m, e, t)) || e == SwitchKey(t))
            && (n.displayed == t <==> Displays(m, e, t) || (m.displayed == t && forall u :: !Displays(m, e, u)))
  {
    hide WellFormed, Admissible, Step, Next;
    ShapeOf(m);
    ShapeOf(Next(m, e));
    StepTouchesOneStack(m, e);
    if !e.Tick? {
      OthersAsk(m, e);
    } else if exists k :: NextToShow(m, k) {
      var k :| NextToShow(m, k);
      TickShows(m, e.frame, k);
      assert Displays(m, e, k);
    } else {
      LowestToShow(m);
      if m.quits[m.scheduled] { TickQuits(m, e.frame); } else { TickPassesOn(m, e.frame); }
    }
  }

  /** At some point of the run a tick ends the running program of terminal `t`. */
  ghost predicate Ended(m: Machine, es: seq<Event>, t: nat)
    requires WellFormed(m) && AdmissibleRun(m, es) && t < TERMINALS
    decreases |es|
  {
    es != [] && (Ends(m, es[0], t) || Ended(Next(m, es[0]), es[1..], t))
  }

  /** CTRL+C is pressed at some point of the run while terminal `t` is displayed. */
  ghost predicate Interrupted(m: Machine, es: seq<Event>, t: nat)
    requires WellFormed(m) && AdmissibleRun(m, es) && t < TERMINALS
    decreases |es|
  {
    es != [] && ((es[0].QuitKey? && m.displayed == t) || Interrupted(Next(m, es[0]), es[1..], t))
  }

  /** At some point of the run a tick displays terminal `t`. */
  ghost predicate Displayed(m: Machine, es: seq<Event>, t: nat)
    requires WellFormed(m) && AdmissibleRun(m, es)
    decreases |es|
  {
    es != [] && (Displays(m, es[0], t) || Displayed(Next(m, es[0]), es[1..], t))
  }

  /** The switch key of terminal `t` is pressed at some point of the run. */
  predicate Asked(es: seq<Event>, t: nat) { exists i | 0 <= i < |es| :: es[i] == SwitchKey(t) }

  /** A pending CTRL+C waits until a tick ends a program of its terminal; without one no tick ends any. */
  lemma {:induction false} QuitsAreServed(m: Machine, es: seq<Event>, t: nat)
    requires WellFormed(m) && AdmissibleRun(m, es) && m.booted == TERMINALS && t < TERMINALS
    ensures Shaped(m) && Shaped(Run(m, es))
    ensures m.quits[t] ==> Run(m, es).quits[t] || Ended(m, es, t)
    ensures !m.quits[t] && !Interrupted(m, es, t) ==> !Run(m, es).quits[t] && !Ended(m, es, t)
    decreases |es|
  {
    hide WellFormed, Admissible, Next;
    ShapeOf(m);
    if es != [] {
      RequestStep(m, es[0], t);
      QuitsAreServed(Next(m, es[0]), es[1..], t);
    }
  }

  /** CTRL+C while terminal `t` is displayed ends a program of `t`, or is still pending. */
  lemma QuitKeyHitsDisplayed(m: Machine, es: seq<Event>)
    requires WellFormed(m) && m.booted == TERMINALS && Admissible(m, QuitKey) && AdmissibleRun(Next(m, QuitKey), es)
    ensures m.displayed < TERMINALS && Shaped(Run(Next(m, QuitKey), es))
    ensures Run(Next(m, QuitKey), es).quits[m.displayed] || Ended(Next(m, QuitKey), es, m.displayed)
  {
    hide WellFormed, Next, AdmissibleRun, Run, Ended;
    ShapeOf(m);
    RequestStep(m, QuitKey, m.displayed);
    QuitsAreServed(Next(m, QuitKey), es, m.displayed);
  }

  /** A pending switch waits until a tick displays its terminal; a terminal not asked for is not displayed. */
  lemma {:induction false} SwitchesAreServed(m: Machine, es: seq<Event>, t: nat)
    requires WellFormed(m) && AdmissibleRun(m, es) && m.booted == TERMINALS && t < TERMINALS
    ensures Shaped(m) && Shaped(Run(m, es))
    ensures m.switches[t] ==> Run(m, es).switches[t] || Displayed(m, es, t)
    ensures !m.switches[t] && m.displayed != t && !Asked(es, t) ==>
              Run(m, es).displayed != t && !Displayed(m, es, t)
    decreases |es|
  {
    hide WellFormed, Admissible, Next;
    ShapeOf(m);
    if es != [] {
      RequestStep(m, es[0], t);
      SwitchesAreServed(Next(m, es[0]), es[1..], t);
      AskedLater(es, t);
    }
  }

  lemma AskedLater(es: seq<Event>, t: nat)
    requires es != []
    ensures Asked(es, t) <==> es[0] == SwitchKey(t) || Asked(es[1..], t)
  {
    if Asked(es[1..], t) {
      var i :| 0 <= i < |es| - 1 && es[1..][i] == SwitchKey(t);
      assert es[i + 1] == SwitchKey(t);
    }
    if Asked(es, t) && es[0] != SwitchKey(t) {
      var i :| 0 <= i < |es| && es[i] == SwitchKey(t);
      assert es[1..][i - 1] == SwitchKey(t);
    }
  }
}
