/**
 * The display as its users see it: three terminals, each with a screen of its own, of which one is
 * displayed and one belongs to the running process. Module Display implements it on one physical
 * page and three backing pages.
 */
module PrivateScreens {
  import opened Basics
  import opened TextScreen

  const PROMPT: nat := 7

  /** A terminal: its screen, the cursor saved when it was last switched away, its user mapping. */
  datatype Terminal = Terminal(screen: Screen, savedX: nat, savedY: nat, mapped: bool)

  datatype Screens = Screens(terminals: seq<Terminal>, displayed: nat, scheduled: nat)

  datatype Event =
    | PutChar(c: byte)               // output of the running process
    | PutKey(c: byte)                // echo of a key
    | EraseKey(inField: bool)        // echo of a backspace
    | ClearKey                       // CTRL+L
    | SwitchTo(terminal: nat)        // a timer tick that serves ALT+F1..F3
    | Rotate                         // a timer tick that passes the processor on
    | Preset                         // a halt to the parent sets the saved column for the shell's prompt
    | Map                            // a valid vidmap call
    | UserWrite(offset: nat, b: byte)  // a store of the running process through its mapping

  ghost predicate TerminalOk(t: Terminal) { ScreenOk(t.screen) && InScreen(t.savedX, t.savedY) }

  ghost predicate Ok(d: Screens) {
    && |d.terminals| == TERMINALS && d.displayed < TERMINALS && d.scheduled < TERMINALS
    && forall t | 0 <= t < TERMINALS :: TerminalOk(d.terminals[t])
  }

  ghost predicate Admissible(d: Screens, e: Event)
    requires Ok(d)
  {
    match e
    case SwitchTo(k) => k < TERMINALS
    case UserWrite(offset, _) => offset < PAGE && d.terminals[d.scheduled].mapped
    case _ => true
  }

  function OnScreen(t: Terminal, s: Screen): Terminal { t.(screen := s) }

  /** Leaving a terminal saves its cursor; entering one restores the saved one. */
  function Left(t: Terminal): Terminal { t.(savedX := t.screen.x, savedY := t.screen.y) }
  function Entered(t: Terminal): Terminal { t.(screen := t.screen.(x := t.savedX, y := t.savedY)) }

  /** What an event does to one terminal, which sees only whether it is displayed and running. */
  ghost function PrivateStep(t: Terminal, shown: bool, running: bool, self: nat, e: Event): (r: Terminal)
    requires TerminalOk(t)
    requires e.UserWrite? ==> e.offset < PAGE
    ensures TerminalOk(r)
  {
    match e
    case PutChar(c) => if running then OnScreen(t, Put(t.screen, c)) else t
    case PutKey(c) => if shown then OnScreen(t, Put(t.screen, c)) else t
    case EraseKey(inField) => if shown then OnScreen(t, Back(t.screen, inField)) else t
    case ClearKey => if shown then OnScreen(t, Screen(Cleared(t.screen.page), 0, 0)) else t
    case SwitchTo(k) =>
      var left := if shown then Left(t) else t;
      (if self == k then Entered(left) else left).(mapped := true)
    case Rotate => t
    case Preset => if running then t.(savedX := PROMPT) else t
    case Map => if running then t.(mapped := true) else t
    case UserWrite(offset, b) => if running then OnScreen(t, t.screen.(page := t.screen.page[offset := b])) else t
  }

  function Displayed(d: Screens, e: Event): nat { if e.SwitchTo? then e.terminal else d.displayed }

  function Scheduled(d: Screens, e: Event): nat {
    if e.Rotate? then (if d.scheduled == 2 then 0 else d.scheduled + 1) else d.scheduled
  }

  /** The whole display: each terminal makes its private step. */
  ghost function Step(d: Screens, e: Event): (r: Screens)
    requires Ok(d) && Admissible(d, e)
    ensures Ok(r)
  {
    Screens([PrivateStep(d.terminals[0], d.displayed == 0, d.scheduled == 0, 0, e),
             PrivateStep(d.terminals[1], d.displayed == 1, d.scheduled == 1, 1, e),
             PrivateStep(d.terminals[2], d.displayed == 2, d.scheduled == 2, 2, e)],
            Displayed(d, e), Scheduled(d, e))
  }

  lemma StepAt(d: Screens, e: Event, t: nat)
    requires Ok(d) && Admissible(d, e) && t < TERMINALS
    ensures Step(d, e).terminals[t] == PrivateStep(d.terminals[t], d.displayed == t, d.scheduled == t, t, e)
  {
  }

  /** `d` with terminal `t` replaced. */
  function With(d: Screens, t: nat, r: Terminal): Screens
    requires |d.terminals| == TERMINALS && t < TERMINALS
  {
    d.(terminals := d.terminals[t := r])
  }

  lemma StepPutChar(d: Screens, c: byte)
    requires Ok(d)
    ensures var t := d.terminals[d.scheduled];
            Step(d, PutChar(c)) == With(d, d.scheduled, OnScreen(t, Put(t.screen, c)))
  {
    hide Put;
  }

  lemma StepPutKey(d: Screens, c: byte)
    requires Ok(d)
    ensures var t := d.terminals[d.displayed];
            Step(d, PutKey(c)) == With(d, d.displayed, OnScreen(t, Put(t.screen, c)))
  {
    hide Put;
  }

  lemma StepErase(d: Screens, inField: bool)
    requires Ok(d)
    ensures var t := d.terminals[d.displayed];
            Step(d, EraseKey(inField)) == With(d, d.displayed, OnScreen(t, Back(t.screen, inField)))
  {
    hide Back;
  }

  lemma StepClear(d: Screens)
    requires Ok(d)
    ensures var t := d.terminals[d.displayed];
            Step(d, ClearKey) == With(d, d.displayed, OnScreen(t, Screen(Cleared(t.screen.page), 0, 0)))
  {
    hide Cleared;
  }

  lemma StepMap(d: Screens)
    requires Ok(d)
    ensures Step(d, Map) == With(d, d.scheduled, d.terminals[d.scheduled].(mapped := true))
  {
  }

  lemma StepPreset(d: Screens)
    requires Ok(d)
    ensures Step(d, Preset) == With(d, d.scheduled, d.terminals[d.scheduled].(savedX := PROMPT))
  {
  }

  lemma StepUserWrite(d: Screens, offset: nat, b: byte)
    requires Ok(d) && Admissible(d, UserWrite(offset, b))
    ensures var t := d.terminals[d.scheduled];
            Step(d, UserWrite(offset, b)) ==
            With(d, d.scheduled, OnScreen(t, t.screen.(page := t.screen.page[offset := b])))
  {
  }

  ghost predicate AdmissibleRun(d: Screens, es: seq<Event>)
    requires Ok(d)
    decreases |es|
  {
    es == [] || (Admissible(d, es[0]) && AdmissibleRun(Step(d, es[0]), es[1..]))
  }

  ghost function Run(d: Screens, es: seq<Event>): (r: Screens)
    requires Ok(d) && AdmissibleRun(d, es)
    ensures Ok(r)
    decreases |es|
  {
    if es == [] then d else Run(Step(d, es[0]), es[1..])
  }

  // ---------------------------------------------------------------- isolation

  /** The event writes on the screen of terminal `t`. */
  predicate WritesOn(d: Screens, e: Event, t: nat) {
    match e
    case PutChar(c) => d.scheduled == t
    case PutKey(c) => d.displayed == t
    case EraseKey(_) => d.displayed == t
    case ClearKey => d.displayed == t
    case UserWrite(_, _) => d.scheduled == t
    case _ => false
  }

  ghost predicate NeverWrites(d: Screens, es: seq<Event>, t: nat)
    requires Ok(d) && AdmissibleRun(d, es)
    decreases |es|
  {
    es == [] || (!WritesOn(d, es[0], t) && NeverWrites(Step(d, es[0]), es[1..], t))
  }

  /** No switch, rotation, output, typing, clearing or mapping elsewhere changes a terminal's page. */
  lemma {:induction false} OthersNeverShow(d: Screens, es: seq<Event>, t: nat)
    requires Ok(d) && AdmissibleRun(d, es) && t < TERMINALS && NeverWrites(d, es, t)
    ensures Run(d, es).terminals[t].screen.page == d.terminals[t].screen.page
    decreases |es|
  {
    if es != [] {
      StepAt(d, es[0], t);
      OthersNeverShow(Step(d, es[0]), es[1..], t);
    }
  }

  // ---------------------------------------------------------------- who has the processor and the display

  function Rotations(es: seq<Event>): nat {
    if es == [] then 0 else (if es[0].Rotate? then 1 else 0) + Rotations(es[1..])
  }

  /** The terminal of the last switch in the run, or `shown` if there is none. */
  function LastShown(es: seq<Event>, shown: nat): nat {
    if es == [] then shown else LastShown(es[1..], if es[0].SwitchTo? then es[0].terminal else shown)
  }

  /** Rotations alone move the processor, one terminal at a time; switches alone move the display. */
  lemma {:induction false} RotationsPassItRound(d: Screens, es: seq<Event>)
    requires Ok(d) && AdmissibleRun(d, es)
    ensures Run(d, es).scheduled == (d.scheduled + Rotations(es)) % 3
    ensures Run(d, es).displayed == LastShown(es, d.displayed)
    decreases |es|
  {
    hide Ok, Admissible, PrivateStep;
    SelectedBelow(d);
    if es != [] { RotationsPassItRound(Step(d, es[0]), es[1..]); }
  }

  lemma SelectedBelow(d: Screens)
    requires Ok(d)
    ensures d.scheduled < TERMINALS && d.displayed < TERMINALS
  {
  }

  /** In the run the running process of terminal `t` maps its page, or a switch maps every terminal's. */
  ghost predicate MapsIn(d: Screens, es: seq<Event>, t: nat)
    requires Ok(d) && AdmissibleRun(d, es)
    decreases |es|
  {
    es != [] && (es[0].SwitchTo? || (es[0].Map? && d.scheduled == t) || MapsIn(Step(d, es[0]), es[1..], t))
  }

  /** A terminal's page is mapped exactly from the first such event on. */
  lemma {:induction false} MappedExactly(d: Screens, es: seq<Event>, t: nat)
    requires Ok(d) && AdmissibleRun(d, es) && t < TERMINALS
    ensures |d.terminals| == |Run(d, es).terminals| == TERMINALS
    ensures Run(d, es).terminals[t].mapped <==> d.terminals[t].mapped || MapsIn(d, es, t)
    decreases |es|
  {
    hide Ok, Admissible, Step;
    SizeOf(d);
    if es != [] {
      MappedStep(d, es[0], t);
      MappedExactly(Step(d, es[0]), es[1..], t);
    }
  }

  lemma MappedStep(d: Screens, e: Event, t: nat)
    requires Ok(d) && Admissible(d, e) && t < TERMINALS
    ensures |d.terminals| == |Step(d, e).terminals| == TERMINALS
    ensures Step(d, e).terminals[t].mapped <==> d.terminals[t].mapped || e.SwitchTo? || (e.Map? && d.scheduled == t)
  {
    hide Put, Back, Cleared;
    StepAt(d, e, t);
  }

  /** A store of the running process changes one byte of its own terminal's page and nothing else. */
  lemma StoreChangesOneByte(d: Screens, offset: nat, b: byte, t: nat, i: nat)
    requires Ok(d) && Admissible(d, UserWrite(offset, b)) && t < TERMINALS && i < PAGE
    ensures |d.terminals| == |Step(d, UserWrite(offset, b)).terminals| == TERMINALS
    ensures |d.terminals[t].screen.page| == |Step(d, UserWrite(offset, b)).terminals[t].screen.page| == PAGE
    ensures Step(d, UserWrite(offset, b)).terminals[t].screen.page[i] ==
            if t == d.scheduled && i == offset then b else d.terminals[t].screen.page[i]
  {
    StepAt(d, UserWrite(offset, b), t);
  }

  // ---------------------------------------------------------------- cursors over a hidden spell

  /** What an event puts on the screen of terminal `t`, if anything. */
  function InputTo(d: Screens, e: Event, t: nat): seq<Input> {
    match e
    case PutChar(c) => if d.scheduled == t then [Print(c)] else []
    case PutKey(c) => if d.displayed == t then [Print(c)] else []
    case EraseKey(inField) => if d.displayed == t then [Erase(inField)] else []
    case ClearKey => if d.displayed == t then [Wipe] else []
    case _ => []
  }

  /** What a run puts on the screen of terminal `t`. */
  ghost function InputsTo(d: Screens, es: seq<Event>, t: nat): seq<Input>
    requires Ok(d) && AdmissibleRun(d, es)
    decreases |es|
  {
    if es == [] then [] else InputTo(d, es[0], t) + InputsTo(Step(d, es[0]), es[1..], t)
  }

  /** Terminal `t` is hidden all through the run. */
  ghost predicate Hidden(d: Screens, es: seq<Event>, t: nat)
    requires Ok(d) && AdmissibleRun(d, es)
    decreases |es|
  {
    d.displayed != t && (es == [] || Hidden(Step(d, es[0]), es[1..], t))
  }

  /** A process of terminal `t` halts to its parent in the run. */
  ghost predicate Halts(d: Screens, es: seq<Event>, t: nat)
    requires Ok(d) && AdmissibleRun(d, es)
    decreases |es|
  {
    es != [] && ((es[0].Preset? && d.scheduled == t) || Halts(Step(d, es[0]), es[1..], t))
  }

  lemma HiddenStep(d: Screens, e: Event, t: nat, s: Screen)
    requires Ok(d) && Admissible(d, e) && t < TERMINALS && d.displayed != t && Step(d, e).displayed != t
    requires ScreenOk(s) && s.x == d.terminals[t].screen.x && s.y == d.terminals[t].screen.y
    ensures var r := Step(d, e).terminals[t];
            && |Step(d, e).terminals| == TERMINALS
            && ApplyAll(s, InputTo(d, e, t)).x == r.screen.x && ApplyAll(s, InputTo(d, e, t)).y == r.screen.y
            && r.savedY == d.terminals[t].savedY
            && r.savedX == if e.Preset? && d.scheduled == t then PROMPT else d.terminals[t].savedX
  {
    StepAt(d, e, t);
    var old' := d.terminals[t];
    hide Put, Back, Cleared, Written;
    ApplyNothing(s);
    if e.PutChar? && d.scheduled == t {
      ApplyOne(s, Print(e.c));
      CursorIgnoresPage(s, old'.screen, Print(e.c));
    }
  }

  lemma ApplyNothing(s: Screen)
    requires ScreenOk(s)
    ensures ApplyAll(s, []) == s
  {
  }

  lemma ApplyOne(s: Screen, i: Input)
    requires ScreenOk(s)
    ensures ApplyAll(s, [i]) == Apply(s, i)
  {
    assert [i][1..] == [];
  }

  lemma {:induction false} ApplyBoth(s: Screen, a: seq<Input>, b: seq<Input>)
    requires ScreenOk(s)
    ensures ApplyAll(s, a + b) == ApplyAll(ApplyAll(s, a), b)
    decreases |a|
  {
    if a == [] {
      assert a + b == b;
    } else {
      assert (a + b)[0] == a[0] && (a + b)[1..] == a[1..] + b;
      ApplyBoth(Apply(s, a[0]), a[1..], b);
    }
  }

  /** A hidden terminal's cursor moves as its output says; the saved one only when a process halts. */
  lemma {:induction false} HiddenRun(d: Screens, es: seq<Event>, t: nat, s: Screen)
    requires Ok(d) && AdmissibleRun(d, es) && t < TERMINALS && Hidden(d, es, t)
    requires ScreenOk(s) && s.x == d.terminals[t].screen.x && s.y == d.terminals[t].screen.y
    ensures var r, moved := Run(d, es).terminals[t], ApplyAll(s, InputsTo(d, es, t));
            && moved.x == r.screen.x && moved.y == r.screen.y
            && r.savedY == d.terminals[t].savedY
            && r.savedX == if Halts(d, es, t) then 7 else d.terminals[t].savedX
    decreases |es|
  {
    hide Ok, Admissible, Step, ApplyAll;
    SizeOf(d);
    ApplyNothing(s);
    if es != [] {
      var input := InputTo(d, es[0], t);
      HiddenStep(d, es[0], t, s);
      HiddenRun(Step(d, es[0]), es[1..], t, ApplyAll(s, input));
      ApplyBoth(s, input, InputsTo(Step(d, es[0]), es[1..], t));
    }
  }

  /**
   * Terminal `t` is left for terminal `k`, hidden during a run, and entered again. The switch back
   * puts its cursor where it was left, or in the prompt's column if one of its processes halted
   * meanwhile; so it keeps the cursor exactly if the output made meanwhile has brought it there.
   */
  lemma ReturnKeepsCursorExactly(d: Screens, k: nat, es: seq<Event>, t: nat)
    requires Ok(d) && d.displayed == t && k < TERMINALS && k != t
    requires AdmissibleRun(Step(d, SwitchTo(k)), es) && Hidden(Step(d, SwitchTo(k)), es, t)
    ensures |d.terminals| == TERMINALS && ScreenOk(d.terminals[t].screen)
    ensures var left, away := d.terminals[t].screen, Run(Step(d, SwitchTo(k)), es);
            var back, moved := Step(away, SwitchTo(t)), ApplyAll(left, InputsTo(Step(d, SwitchTo(k)), es, t));
            var x := if Halts(Step(d, SwitchTo(k)), es, t) then 7 else left.x;
            && |away.terminals| == |back.terminals| == TERMINALS
            && back.terminals[t].screen.x == x && back.terminals[t].screen.y == left.y
            && (back.terminals[t].screen == away.terminals[t].screen <==> moved.x == x && moved.y == left.y)
  {
    hide Ok, Step, Run, ApplyAll, InputsTo, Halts, Hidden, AdmissibleRun;
    LeaveSaves(d, k, t);
    HiddenRun(Step(d, SwitchTo(k)), es, t, d.terminals[t].screen);
    HiddenEnds(Step(d, SwitchTo(k)), es, t);
    EnterRestores(Run(Step(d, SwitchTo(k)), es), t);
  }

  lemma LeaveSaves(d: Screens, k: nat, t: nat)
    requires Ok(d) && d.displayed == t && k < TERMINALS && k != t
    ensures Admissible(d, SwitchTo(k)) && |d.terminals| == |Step(d, SwitchTo(k)).terminals| == TERMINALS
    ensures t < TERMINALS && ScreenOk(d.terminals[t].screen)
    ensures var s, r := d.terminals[t].screen, Step(d, SwitchTo(k)).terminals[t];
            r.screen == s && r.savedX == s.x && r.savedY == s.y
  {
    StepAt(d, SwitchTo(k), t);
  }

  lemma EnterRestores(d: Screens, t: nat)
    requires Ok(d) && t < TERMINALS && d.displayed != t
    ensures Admissible(d, SwitchTo(t)) && |d.terminals| == |Step(d, SwitchTo(t)).terminals| == TERMINALS
    ensures var s, r := d.terminals[t], Step(d, SwitchTo(t)).terminals[t];
            r.screen == s.screen.(x := s.savedX, y := s.savedY)
  {
    StepAt(d, SwitchTo(t), t);
  }

  lemma {:induction false} HiddenEnds(d: Screens, es: seq<Event>, t: nat)
    requires Ok(d) && AdmissibleRun(d, es) && Hidden(d, es, t)
    ensures Run(d, es).displayed != t
    decreases |es|
  {
    hide Ok, Step;
    if es != [] { HiddenEnds(Step(d, es[0]), es[1..], t); }
  }

  // ---------------------------------------------------------------- each terminal is a window on its log

  /**
   * Whether, after the event, the saved cursor of the hidden terminal `t` may be out of date: it
   * has printed, or one of its processes has halted, since it was last left.
   */
  function Stale(d: Screens, e: Event, t: nat, stale: bool): bool {
    match e
    case SwitchTo(k) => stale && d.displayed != t && k != t
    case PutChar(c) => stale || (d.scheduled == t && d.displayed != t && c != TAB)
    case Preset => stale || (d.scheduled == t && d.displayed != t)
    case _ => stale
  }

  /** In the run no switch enters `t` while its saved cursor may be out of date, and no program stores on its page. */
  ghost predicate Orderly(d: Screens, es: seq<Event>, t: nat, stale: bool)
    requires Ok(d) && AdmissibleRun(d, es)
    decreases |es|
  {
    es == [] ||
    (&& (es[0] == SwitchTo(t) && d.displayed != t ==> !stale)
     && (es[0].UserWrite? ==> d.scheduled != t)
     && Orderly(Step(d, es[0]), es[1..], t, Stale(d, es[0], t, stale)))
  }

  /** Unless it is displayed or out of date, a terminal's saved cursor is its cursor. */
  ghost predicate SavedFor(d: Screens, t: nat, stale: bool)
    requires Ok(d) && t < TERMINALS
  {
    d.displayed == t || stale
    || (d.terminals[t].savedX == d.terminals[t].screen.x && d.terminals[t].savedY == d.terminals[t].screen.y)
  }

  lemma SavedStays(d: Screens, e: Event, t: nat, stale: bool)
    requires Ok(d) && Admissible(d, e) && t < TERMINALS && SavedFor(d, t, stale)
    requires e == SwitchTo(t) && d.displayed != t ==> !stale
    ensures SavedFor(Step(d, e), t, Stale(d, e, t, stale))
  {
    StepAt(d, e, t);
    hide Put, Back, Cleared;
    if e == PutChar(TAB) { TabPuts(d.terminals[t].screen); }
  }

  lemma TabPuts(s: Screen)
    requires ScreenOk(s)
    ensures Put(s, TAB) == s
  {
  }

  /** An event of an orderly run does to a terminal's screen what its input does. */
  lemma StepApplies(d: Screens, e: Event, t: nat, stale: bool)
    requires Ok(d) && Admissible(d, e) && t < TERMINALS && SavedFor(d, t, stale)
    requires e == SwitchTo(t) && d.displayed != t ==> !stale
    requires e.UserWrite? ==> d.scheduled != t
    ensures |d.terminals| == |Step(d, e).terminals| == TERMINALS && ScreenOk(d.terminals[t].screen)
    ensures Step(d, e).terminals[t].screen == ApplyAll(d.terminals[t].screen, InputTo(d, e, t))
  {
    StepAt(d, e, t);
    var s := d.terminals[t].screen;
    hide Put, Back, Cleared, ApplyAll;
    ApplyNothing(s);
    if InputTo(d, e, t) != [] { ApplyOne(s, InputTo(d, e, t)[0]); }
  }

  /**
   * In any orderly interleaving of the three terminals' output, typing, erasing, clearing, switches,
   * rotations and halts, a terminal that shows its log goes on showing it: exactly its own input is
   * recorded. Background output may come at any time.
   */
  lemma {:induction false} EachShowsItsOwnLog(d: Screens, es: seq<Event>, t: nat, stale: bool, log: Log)
    requires Ok(d) && AdmissibleRun(d, es) && t < TERMINALS && SavedFor(d, t, stale) && Orderly(d, es, t, stale)
    requires Shows(d.terminals[t].screen, log)
    ensures LogOk(log) && Shows(Run(d, es).terminals[t].screen, RecordAll(log, InputsTo(d, es, t)))
    decreases |es|
  {
    hide Shows, RecordAll, Step, Ok, Stale, SavedFor, LogOk, InputTo;
    SizeOf(d);
    ShowsOk(d.terminals[t].screen, log);
    RecordNothing(log);
    if es != [] {
      var next, input, rest := Step(d, es[0]), InputTo(d, es[0], t), InputsTo(Step(d, es[0]), es[1..], t);
      StepApplies(d, es[0], t, stale);
      SavedStays(d, es[0], t, stale);
      ApplyAllShows(d.terminals[t].screen, log, input);
      EachShowsItsOwnLog(next, es[1..], t, Stale(d, es[0], t, stale), RecordAll(log, input));
      RecordBoth(log, input, rest);
    }
  }

  lemma SizeOf(d: Screens)
    requires Ok(d)
    ensures |d.terminals| == TERMINALS
  {
  }
}
