/**
 * The process machine and the three private screens together: what a tick, a halt or an output
 * means for the one, it means for the other. Whoever has the processor writes on his own terminal.
 */
module WholeSystem {
  import opened Basics
  import PM = ProcessModel
  import PR = ProcessRuns
  import Pre = Preemption
  import PS = PrivateScreens
  import S = TextScreen

  /** A step of the machine, or something written, typed, mapped or stored between two steps. */
  datatype Act = Machine(event: PM.Event) | Screen(write: PS.Event)

  /** The timer and the halting of programs are the machine's business. */
  predicate Plain(e: PS.Event) { !e.SwitchTo? && !e.Rotate? && !e.Preset? }

  /** The machine and the display agree on who has the processor and who is displayed. */
  predicate Agree(m: PM.Machine, d: PS.Screens) { m.scheduled == d.scheduled && m.displayed == d.displayed }

  /** While terminals boot, the one that booted last has the processor. */
  predicate InBootOrder(m: PM.Machine) {
    m.booted < TERMINALS ==> m.scheduled == if m.booted == 0 then 0 else m.booted - 1
  }

  /**
   * What an event of the machine is for the display: a tick that serves a switch key is a switch, one
   * that gives the processor away is a rotation, and a program that returns to its parent presets
   * the column of the prompt.
   */
  ghost function Seen(m: PM.Machine, e: PM.Event): seq<PS.Event>
    requires PM.WellFormed(m) && PM.Admissible(m, e)
  {
    var n := PM.Next(m, e);
    if e.Tick? && exists k: nat :: Pre.Displays(m, e, k) then
      var k: nat :| Pre.Displays(m, e, k);
      [PS.SwitchTo(k)]
    else if n.scheduled != m.scheduled then [PS.Rotate]
    else if (e.Halt? || e.Tick?) && PM.Count(n) < PM.Count(m) then [PS.Preset]
    else []
  }

  ghost predicate Possible(m: PM.Machine, acts: seq<Act>)
    requires PM.WellFormed(m)
    decreases |acts|
  {
    acts == [] ||
    match acts[0]
    case Machine(e) => PM.Admissible(m, e) && Possible(PM.Next(m, e), acts[1..])
    case Screen(e) => Plain(e) && Possible(m, acts[1..])
  }

  /** The machine after the acts, which takes no notice of what is on the screens. */
  ghost function After(m: PM.Machine, acts: seq<Act>): (r: PM.Machine)
    requires PM.WellFormed(m) && Possible(m, acts)
    ensures PM.WellFormed(r)
    decreases |acts|
  {
    if acts == [] then m
    else match acts[0]
      case Machine(e) => After(PM.Next(m, e), acts[1..])
      case Screen(_) => After(m, acts[1..])
  }

  /** The acts as the display sees them. */
  ghost function AllSeen(m: PM.Machine, acts: seq<Act>): seq<PS.Event>
    requires PM.WellFormed(m) && Possible(m, acts)
    decreases |acts|
  {
    if acts == [] then []
    else match acts[0]
      case Machine(e) => Seen(m, e) + AllSeen(PM.Next(m, e), acts[1..])
      case Screen(e) => [e] + AllSeen(m, acts[1..])
  }

  // ---------------------------------------------------------------- one event

  lemma AtMostOne(m: PM.Machine, e: PM.Event, k: nat, l: nat)
    requires PM.Shaped(m) && Pre.Displays(m, e, k) && Pre.Displays(m, e, l)
    ensures k == l
  {
  }

  lemma NoneDisplayed(m: PM.Machine, e: PM.Event)
    requires PM.Shaped(m)
    ensures Pre.NoneToShow(m) ==> forall k: nat :: !Pre.Displays(m, e, k)
  {
  }

  /** Where a step of the machine leaves the processor and the display. */
  lemma MachineMoves(m: PM.Machine, e: PM.Event)
    requires PM.WellFormed(m) && PM.Admissible(m, e) && InBootOrder(m)
    ensures PM.Shaped(m) && InBootOrder(PM.Next(m, e))
    ensures var n := PM.Next(m, e);
            && (forall k: nat | Pre.Displays(m, e, k) ::
                  k < TERMINALS && n.displayed == k && n.scheduled == m.scheduled)
            && ((forall k: nat :: !Pre.Displays(m, e, k)) ==> n.displayed == m.displayed)
            && (n.scheduled != m.scheduled ==> n.scheduled == PR.Ahead(m.scheduled, 1))
  {
    hide PM.WellFormed, PM.Admissible, PM.Next, PM.Step;
    PM.ShapeOf(m);
    if e.Tick? && m.booted < TERMINALS {
      Pre.BootTick(m, e.frame);
    } else if e.Tick? {
      Pre.LowestToShow(m);
      NoneDisplayed(m, e);
      if k: nat :| Pre.NextToShow(m, k) {
        Pre.TickShows(m, e.frame, k);
        assert Pre.Displays(m, e, k);
        forall l: nat | Pre.Displays(m, e, l) ensures l == k { AtMostOne(m, e, k, l); }
      } else if m.quits[m.scheduled] {
        Pre.TickQuits(m, e.frame);
      } else {
        Pre.TickPassesOn(m, e.frame);
      }
    } else {
      Pre.OthersSave(m, e);
      DisplayStays(m, e);
    }
  }

  lemma DisplayStays(m: PM.Machine, e: PM.Event)
    requires PM.WellFormed(m) && PM.Admissible(m, e) && !e.Tick?
    ensures PM.Next(m, e).displayed == m.displayed
  {
    hide PM.WellFormed, PM.LowestFree, PM.Used, PM.OpenTable, PM.SetTop;
    PM.ShapeOf(m);
    if e.Halt? { PR.HaltTouchesOneStack(m); }
  }

  /** The display event of a machine step selects what the machine selects. */
  lemma SeenAgrees(m: PM.Machine, d: PS.Screens, e: PM.Event)
    requires PM.WellFormed(m) && PM.Admissible(m, e) && InBootOrder(m) && PS.Ok(d) && Agree(m, d)
    ensures PS.AdmissibleRun(d, Seen(m, e)) && Agree(PM.Next(m, e), PS.Run(d, Seen(m, e)))
    ensures InBootOrder(PM.Next(m, e))
  {
    hide PM.WellFormed, PM.Admissible, PM.Next, PS.Ok, PS.PrivateStep;
    MachineMoves(m, e);
    var es := Seen(m, e);
    if es != [] {
      assert es == [es[0]] && es[1..] == [];
      assert PS.Admissible(d, es[0]);
      assert PS.AdmissibleRun(PS.Step(d, es[0]), []);
      assert PS.Run(PS.Step(d, es[0]), []) == PS.Step(d, es[0]);
    }
  }

  lemma {:induction false} RunBoth(d: PS.Screens, es: seq<PS.Event>, fs: seq<PS.Event>)
    requires PS.Ok(d) && PS.AdmissibleRun(d, es)
    ensures PS.AdmissibleRun(d, es + fs) <==> PS.AdmissibleRun(PS.Run(d, es), fs)
    ensures PS.AdmissibleRun(d, es + fs) ==> PS.Run(d, es + fs) == PS.Run(PS.Run(d, es), fs)
    decreases |es|
  {
    hide PS.Ok, PS.Admissible, PS.Step;
    if es == [] {
      assert es + fs == fs;
    } else {
      assert (es + fs)[0] == es[0] && (es + fs)[1..] == es[1..] + fs;
      RunBoth(PS.Step(d, es[0]), es[1..], fs);
    }
  }

  // ---------------------------------------------------------------- every run

  /**
   * At every point of every run the process machine and the display agree on the terminal that has
   * the processor and on the one displayed, whatever is printed, typed, mapped and stored meanwhile.
   */
  lemma {:induction false} AlwaysAgree(m: PM.Machine, d: PS.Screens, acts: seq<Act>)
    requires PM.WellFormed(m) && InBootOrder(m) && Possible(m, acts) && PS.Ok(d) && Agree(m, d)
    requires PS.AdmissibleRun(d, AllSeen(m, acts))
    ensures Agree(After(m, acts), PS.Run(d, AllSeen(m, acts)))
    decreases |acts|
  {
    hide PM.WellFormed, PM.Admissible, PM.Next, PS.Ok, PS.Step, PS.Admissible, Seen;
    if acts != [] {
      match acts[0]
      case Machine(e) =>
        SeenAgrees(m, d, e);
        RunBoth(d, Seen(m, e), AllSeen(PM.Next(m, e), acts[1..]));
        AlwaysAgree(PM.Next(m, e), PS.Run(d, Seen(m, e)), acts[1..]);
      case Screen(e) =>
        var rest := AllSeen(m, acts[1..]);
        assert AllSeen(m, acts)[0] == e && AllSeen(m, acts)[1..] == rest;
        PlainAgrees(m, d, e);
        AlwaysAgree(m, PS.Step(d, e), acts[1..]);
    }
  }

  lemma PlainAgrees(m: PM.Machine, d: PS.Screens, e: PS.Event)
    requires PS.Ok(d) && PS.Admissible(d, e) && Plain(e) && Agree(m, d)
    ensures Agree(m, PS.Step(d, e))
  {
  }

  /**
   * So output reaches the right screen: after any run, what the running process prints appears on the
   * screen of the terminal that the process machine has scheduled, and nowhere else.
   */
  lemma OutputIsTheRunners(m: PM.Machine, d: PS.Screens, acts: seq<Act>, c: byte, t: nat)
    requires PM.WellFormed(m) && InBootOrder(m) && Possible(m, acts) && PS.Ok(d) && Agree(m, d) && t < TERMINALS
    requires PS.AdmissibleRun(d, AllSeen(m, acts))
    ensures var now := PS.Run(d, AllSeen(m, acts));
            && |now.terminals| == |PS.Step(now, PS.PutChar(c)).terminals| == TERMINALS
            && S.ScreenOk(now.terminals[t].screen)
            && PS.Step(now, PS.PutChar(c)).terminals[t].screen ==
               if t == After(m, acts).scheduled then S.Put(now.terminals[t].screen, c) else now.terminals[t].screen
  {
    AlwaysAgree(m, d, acts);
    PrintedAt(PS.Run(d, AllSeen(m, acts)), c, t);
  }

  lemma PrintedAt(d: PS.Screens, c: byte, t: nat)
    requires PS.Ok(d) && t < TERMINALS
    ensures |d.terminals| == |PS.Step(d, PS.PutChar(c)).terminals| == TERMINALS && S.ScreenOk(d.terminals[t].screen)
    ensures PS.Step(d, PS.PutChar(c)).terminals[t].screen ==
            if t == d.scheduled then S.Put(d.terminals[t].screen, c) else d.terminals[t].screen
  {
    hide S.Put;
    PS.StepAt(d, PS.PutChar(c), t);
  }

  function MachineEvents(acts: seq<Act>): seq<PM.Event> {
    if acts == [] then [] else (if acts[0].Machine? then [acts[0].event] else []) + MachineEvents(acts[1..])
  }

  /** The machine's part of a run of the whole system is a run of the machine. */
  lemma {:induction false} MachineRuns(m: PM.Machine, acts: seq<Act>)
    requires PM.WellFormed(m) && Possible(m, acts)
    ensures PM.AdmissibleRun(m, MachineEvents(acts)) && After(m, acts) == PM.Run(m, MachineEvents(acts))
    decreases |acts|
  {
    hide PM.WellFormed, PM.Admissible, PM.Next;
    if acts != [] {
      match acts[0]
      case Machine(e) =>
        var es := MachineEvents(acts);
        assert es[0] == e && es[1..] == MachineEvents(acts[1..]);
        MachineRuns(PM.Next(m, e), acts[1..]);
      case Screen(_) =>
        MachineRuns(m, acts[1..]);
        assert [] + MachineEvents(acts[1..]) == MachineEvents(acts[1..]);
    }
  }
}
