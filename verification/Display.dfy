/**
 * One physical text page and three backing pages, shared by three terminals. A terminal's page is
 * the physical one while it is displayed and its backing page otherwise; every operation does to
 * the terminals what PrivateScreens says.
 */
module Display {
  import opened Basics
  import opened TextScreen
  import opened PrivateScreens

  /** Memory from 0xB8000 to 0xBD000: the physical page, a gap, and backing pages 0xBA..0xBC. */
  const MEMORY: nat := 0x5000
  const VIDEO: nat := 0x0
  const TERMINAL1_MEM: nat := 0x2000

  const VIDEO_PAGE: int := 0xB8
  const TERMINAL1_PAGE: int := 0xBA

  datatype Cursor = Cursor(x: nat, y: nat)       // screen_x, screen_y
  datatype SavedCursor = Saved(x: nat, y: nat)   // cursor_x, cursor_y of terminal_processes

  class Display {
    const mem: array<byte>
    const cursors: array<Cursor>
    const saved: array<SavedCursor>
    const vmap: array<int>        // vmem_page_table[0..2], as page numbers; 0 until first set
    var hardware: Cursor          // the CRT controller's cursor
    var displayed: nat
    var scheduled: nat

    /** Where the page of terminal `t` is in memory. */
    function PageOf(t: nat): nat
      reads this`displayed
    {
      if t == displayed then VIDEO else TERMINAL1_MEM + t * PAGE
    }

    function PageNumber(t: nat): int
      reads this`displayed
    {
      if t == displayed then VIDEO_PAGE else TERMINAL1_PAGE + t
    }

    ghost predicate Sized() {
      mem.Length == MEMORY && cursors.Length == saved.Length == vmap.Length == TERMINALS
    }

    ghost predicate Valid()
      reads this, mem, cursors, saved, vmap
    {
      && Sized() && displayed < TERMINALS && scheduled < TERMINALS
      && (forall t | 0 <= t < TERMINALS :: InScreen(cursors[t].x, cursors[t].y) && InScreen(saved[t].x, saved[t].y))
      // the hardware cursor follows the displayed terminal
      && hardware == cursors[displayed]
      // a user mapping, once set, names the page that holds its terminal's screen
      && (forall t | 0 <= t < TERMINALS :: vmap[t] == 0 || vmap[t] == PageNumber(t))
    }

    /** The page of terminal `t`. */
    ghost function PageAt(t: nat): (r: seq<byte>)
      requires mem.Length == MEMORY && t < TERMINALS
      reads this`displayed, mem
      ensures |r| == PAGE
    {
      mem[PageOf(t)..PageOf(t) + PAGE]
    }

    /** Terminal `t` as its user sees it. */
    ghost function Term(t: nat): Terminal
      requires Sized() && t < TERMINALS
      reads this, mem, cursors, saved, vmap
    {
      Terminal(Screen(PageAt(t), cursors[t].x, cursors[t].y), saved[t].x, saved[t].y, vmap[t] != 0)
    }

    ghost function Abs(): Screens
      requires Sized()
      reads this, mem, cursors, saved, vmap
    {
      Screens([Term(0), Term(1), Term(2)], displayed, scheduled)
    }

    /** Boot: all cursors at the top left, the first terminal displayed and scheduled, nothing mapped. */
    constructor (memory: array<byte>)
      requires memory.Length == MEMORY
      ensures Valid() && fresh(cursors) && fresh(saved) && fresh(vmap) && mem == memory
      ensures displayed == 0 && scheduled == 0 && forall t | 0 <= t < TERMINALS :: vmap[t] == 0
    {
      mem := memory;
      cursors := new Cursor[3](_ => Cursor(0, 0));
      saved := new SavedCursor[3](_ => Saved(0, 0));
      vmap := new int[3](_ => 0);
      hardware, displayed, scheduled := Cursor(0, 0), 0, 0;
    }

    // -------------------------------------------------------------- writing on one page

    method WriteCell(base: nat, x: nat, y: nat, c: byte)
      requires base + PAGE <= mem.Length && InScreen(x, y)
      modifies mem
      ensures mem[base..base + PAGE] == Written(old(mem[base..base + PAGE]), x, y, c)
      ensures forall k | 0 <= k < mem.Length && !(base <= k < base + PAGE) :: mem[k] == old(mem[k])
    {
      mem[base + ((COLS * y + x) * 2)] := c;
      mem[base + ((COLS * y + x) * 2) + 1] := ATTRIB;
    }

    /** The loops of `putc` that move every row up by one. */
    method MoveRows(base: nat)
      requires base + PAGE <= mem.Length
      modifies mem
      ensures forall k | base <= k < base + 3840 :: mem[k] == old(mem[..])[k + 160]
      ensures forall k | 0 <= k < mem.Length && !(base <= k < base + 3840) :: mem[k] == old(mem[k])
    {
      ghost var was := mem[..];
      var i := 0;
      while i < ROWS - 1
        invariant 0 <= i <= ROWS - 1
        invariant forall k | base <= k < base + 160 * i :: mem[k] == was[k + 160]
        invariant forall k | 0 <= k < mem.Length && !(base <= k < base + 160 * i) :: mem[k] == was[k]
      {
        var j := 0;
        while j < COLS
          invariant 0 <= j <= COLS
          invariant forall k | base <= k < base + 160 * i + 2 * j :: mem[k] == was[k + 160]
          invariant forall k | 0 <= k < mem.Length && !(base <= k < base + 160 * i + 2 * j) :: mem[k] == was[k]
        {
          mem[base + (COLS * i + j) * 2] := mem[base + (COLS * (i + 1) + j) * 2];
          mem[base + (COLS * i + j) * 2 + 1] := mem[base + (COLS * (i + 1) + j) * 2 + 1];
          j := j + 1;
        }
        i := i + 1;
      }
    }

    /** A loop over the cells from `from` to `to` that makes each of them blank. */
    method BlankCells(base: nat, from: nat, to: nat)
      requires base + PAGE <= mem.Length && from <= to <= ROWS * COLS
      modifies mem
      ensures forall k | base + 2 * from <= k < base + 2 * to :: mem[k] == BlankByte(k - base)
      ensures forall k | 0 <= k < mem.Length && !(base + 2 * from <= k < base + 2 * to) :: mem[k] == old(mem[k])
    {
      ghost var was := mem[..];
      var i := from;
      while i < to
        invariant from <= i <= to
        invariant forall k | base + 2 * from <= k < base + 2 * i :: mem[k] == BlankByte(k - base)
        invariant forall k | 0 <= k < mem.Length && !(base + 2 * from <= k < base + 2 * i) :: mem[k] == was[k]
      {
        mem[base + i * 2] := SPACE;
        mem[base + i * 2 + 1] := ATTRIB;
        i := i + 1;
      }
    }

    method ScrollUp(base: nat)
      requires base + PAGE <= mem.Length
      modifies mem
      ensures mem[base..base + PAGE] == Scrolled(old(mem[base..base + PAGE]))
      ensures forall k | 0 <= k < mem.Length && !(base <= k < base + PAGE) :: mem[k] == old(mem[k])
    {
      ghost var was := mem[..];
      MoveRows(base);
      BlankCells(base, (ROWS - 1) * COLS, ROWS * COLS);
      ghost var page, scrolled := mem[base..base + PAGE], Scrolled(was[base..base + PAGE]);
      hide BlankByte;
      assert forall k | 0 <= k < PAGE :: page[k] == scrolled[k];
    }

    /** The common body of `putc` and `putc_kb`: terminal `t`'s cursor, the page at `base`. */
    method PutOn(t: nat, base: nat, c: byte)
      requires t < cursors.Length && base + PAGE <= mem.Length && InScreen(cursors[t].x, cursors[t].y)
      modifies mem, cursors, this`hardware
      ensures var s := Put(Screen(old(mem[base..base + PAGE]), old(cursors[t].x), old(cursors[t].y)), c);
              mem[base..base + PAGE] == s.page && cursors[t] == Cursor(s.x, s.y)
      ensures hardware == if t == displayed && c != TAB then cursors[t] else old(hardware)
      ensures forall u | 0 <= u < cursors.Length && u != t :: cursors[u] == old(cursors[u])
      ensures forall k | 0 <= k < mem.Length && !(base <= k < base + PAGE) :: mem[k] == old(mem[k])
    {
      hide Written, Scrolled;
      if c == TAB { return; }
      var x, y := cursors[t].x, cursors[t].y;
      if (c == NEWLINE || c == RETURN) && y < ROWS - 1 {
        cursors[t] := Cursor(0, y + 1);
      } else if (x == COLS - 1 && y == ROWS - 1) || (c == NEWLINE && y == ROWS - 1) {
        if c != NEWLINE { WriteCell(base, x, y, c); }
        ScrollUp(base);
        cursors[t] := Cursor(0, ROWS - 1);
      } else if x == COLS - 1 {
        WriteCell(base, x, y, c);
        cursors[t] := Cursor(0, y + 1);
      } else {
        WriteCell(base, x, y, c);
        cursors[t] := Cursor(x + 1, y);
      }
      if t == displayed { hardware := cursors[t]; }
    }

    /** The pages of different terminals do not overlap. */
    lemma PagesApart(t: nat, u: nat)
      requires t < TERMINALS && u < TERMINALS && t != u && displayed < TERMINALS
      ensures PageOf(t) + PAGE <= PageOf(u) || PageOf(u) + PAGE <= PageOf(t)
      ensures PageOf(t) + PAGE <= MEMORY && PageOf(u) + PAGE <= MEMORY
    {
    }

    /** A change confined to one page leaves the pages of the other terminals. */
    twostate lemma OtherPages(t: nat)
      requires mem.Length == MEMORY && t < TERMINALS && displayed < TERMINALS && displayed == old(displayed)
      requires forall k | 0 <= k < mem.Length && !(PageOf(t) <= k < PageOf(t) + PAGE) :: mem[k] == old(mem[k])
      ensures forall u | 0 <= u < TERMINALS && u != t :: PageAt(u) == old(PageAt(u))
    {
      forall u | 0 <= u < TERMINALS && u != t ensures PageAt(u) == old(PageAt(u)) {
        PagesApart(t, u);
        hide PageOf;
      }
    }

    method PutTerm(t: nat, base: nat, c: byte)
      requires Valid() && t < TERMINALS && base == PageOf(t)
      modifies mem, cursors, this`hardware
      ensures Valid() && displayed == old(displayed)
      ensures Term(t) == OnScreen(old(Term(t)), Put(old(Term(t)).screen, c))
      ensures Abs() == With(old(Abs()), t, Term(t))
    {
      hide Put;
      TabPuts(Term(t).screen);
      PutOn(t, base, c);
      OtherPages(t);
      assert PageAt(t) == Put(old(Term(t)).screen, c).page;
      hide PageAt, PageOf;
      Assembled(old(Abs()), t, Term(0), Term(1), Term(2));
    }

    lemma AbsOk()
      requires Valid()
      ensures Ok(Abs())
    {
    }

    // -------------------------------------------------------------- the operations

    /** `putc`: output of the running process. */
    method PutC(c: byte)
      requires Valid()
      modifies mem, cursors, this`hardware
      ensures Valid() && Abs() == Step(old(Abs()), PutChar(c))
    {
      StepPutChar(Abs(), c);
      hide Put, Step, With;
      var base := if displayed == scheduled then VIDEO else TERMINAL1_MEM + scheduled * PAGE;
      PutTerm(scheduled, base, c);
    }

    /** `putc_kb`: echo of a key. */
    method PutCKb(c: byte)
      requires Valid()
      modifies mem, cursors, this`hardware
      ensures Valid() && Abs() == Step(old(Abs()), PutKey(c))
    {
      StepPutKey(Abs(), c);
      hide Put, Step, With;
      PutTerm(displayed, VIDEO, c);
    }

    /**
     * The echo of a backspace in a line that is not empty; `inField` says whether the cursor's row
     * is at or below the one where the line began.
     */
    method EraseKb(inField: bool)
      requires Valid()
      modifies mem, cursors, this`hardware
      ensures Valid() && Abs() == Step(old(Abs()), EraseKey(inField))
    {
      hide Step, With, Erased, PageAt, PageOf, Ok;
      AtCursor();
      ErasedIsBack(Abs(), inField);
      EraseEcho(inField);
    }

    method EraseEcho(inField: bool)
      requires Valid()
      modifies mem, cursors, this`hardware
      ensures Valid() && TerminalOk(old(Term(displayed)))
      ensures Abs() == With(old(Abs()), old(displayed), Erased(old(Term(displayed)), inField))
    {
      hide Valid, Ok, TerminalOk, PageAt, PageOf, Term, Abs, With, Erased, BlankedAt, MovedTo;
      AtCursor();
      ghost var d, t := Abs(), Term(displayed);
      WithTwice(d, displayed, t, t);
      var x, y := hardware.x, hardware.y;
      EraseCases(t, inField);
      if x == 0 && y == 0 { return; }
      var toX, toY := if x == 0 then COLS - 1 else x - 1, if x == 0 then y - 1 else y;
      EraseCell(toX, toY);
      WithTwice(d, displayed, Term(displayed), MovedTo(Term(displayed), toX, toY));
      if x != 0 || inField { MoveCursor(toX, toY); }
    }

    lemma AtCursor()
      requires Valid()
      ensures Sized() && displayed < TERMINALS
      ensures |Abs().terminals| == TERMINALS && Ok(Abs()) && Abs().displayed == displayed
      ensures Abs().terminals[displayed] == Term(displayed) && TerminalOk(Term(displayed))
      ensures hardware == Cursor(Term(displayed).screen.x, Term(displayed).screen.y) && InScreen(hardware.x, hardware.y)
    {
      hide PageAt, PageOf;
    }

    /** Blank the cell at the given place; the cursor ends up behind it. */
    method EraseCell(x: nat, y: nat)
      requires Valid() && InScreen(x, y)
      modifies mem, cursors, this`hardware
      ensures Valid()
      ensures displayed == old(displayed) && TerminalOk(old(Term(displayed)))
      ensures Term(displayed) == BlankedAt(old(Term(displayed)), x, y)
      ensures Abs() == With(old(Abs()), displayed, Term(displayed))
    {
      hide Put, PageAt, PageOf;
      ghost var d := Abs();
      cursors[displayed] := Cursor(x, y);
      hardware := Cursor(x, y);
      Assembled(d, displayed, Term(0), Term(1), Term(2));
      assert PageOf(displayed) == VIDEO by { DisplayedPage(); }
      PutTerm(displayed, VIDEO, SPACE);
    }

    lemma DisplayedPage()
      ensures PageOf(displayed) == VIDEO
    {
    }

    method MoveCursor(x: nat, y: nat)
      requires Valid() && InScreen(x, y)
      modifies cursors, this`hardware
      ensures Valid()
      ensures displayed == old(displayed) && Abs() == With(old(Abs()), displayed, MovedTo(old(Term(displayed)), x, y))
    {
      hide PageAt, PageOf;
      ghost var d := Abs();
      cursors[displayed] := Cursor(x, y);
      hardware := Cursor(x, y);
      Assembled(d, displayed, Term(0), Term(1), Term(2));
    }

    /** `clear`. */
    method ClearPage()
      requires mem.Length == MEMORY && displayed < TERMINALS
      modifies mem
      ensures PageAt(displayed) == Cleared(old(PageAt(displayed)))
      ensures forall u | 0 <= u < TERMINALS && u != displayed :: PageAt(u) == old(PageAt(u))
    {
      BlankCells(VIDEO, 0, ROWS * COLS);
      OtherPages(displayed);
      hide BlankByte;
    }

    /** CTRL+L: the screen cleared and the cursor at the top left. */
    method Clear()
      requires Valid()
      modifies mem, cursors, this`hardware
      ensures Valid() && Abs() == Step(old(Abs()), ClearKey)
    {
      hide Step, PageAt, PageOf, Ok, Cleared;
      AbsOk();
      StepClear(Abs());
      ClearPage();
      cursors[displayed] := Cursor(0, 0);
      hardware := Cursor(0, 0);
      Assembled(old(Abs()), displayed, Term(0), Term(1), Term(2));
    }

    /** A timer tick that passes the processor on. */
    method Rotate()
      requires Valid()
      modifies this`scheduled
      ensures Valid() && Abs() == Step(old(Abs()), Event.Rotate)
    {
      scheduled := (scheduled + 1) % 3;
    }

    /** The assignment of `sys_halt` to the saved column. */
    method PresetColumn()
      requires Valid()
      modifies saved
      ensures Valid() && Abs() == Step(old(Abs()), Preset)
    {
      hide Step, PageAt, PageOf, Ok;
      AbsOk();
      StepPreset(Abs());
      saved[scheduled] := Saved(7, saved[scheduled].y);
      Assembled(old(Abs()), scheduled, Term(0), Term(1), Term(2));
    }

    method MoveFourKb(src: nat, dst: nat)
      requires src + PAGE <= mem.Length && dst + PAGE <= mem.Length && (src + PAGE <= dst || dst + PAGE <= src)
      modifies mem
      ensures mem[dst..dst + PAGE] == old(mem[src..src + PAGE])
      ensures forall k | 0 <= k < mem.Length && !(dst <= k < dst + PAGE) :: mem[k] == old(mem[k])
    {
      var i := 0;
      while i < PAGE
        invariant 0 <= i <= PAGE
        invariant mem[dst..dst + i] == old(mem[src..src + i])
        invariant forall k | 0 <= k < mem.Length && !(dst <= k < dst + i) :: mem[k] == old(mem[k])
      {
        mem[dst + i] := mem[src + i];
        i := i + 1;
      }
    }

    /** The two copies of a switch: the physical page is put away and the new terminal's page brought in. */
    method SwapPages(k: nat)
      requires mem.Length == MEMORY && k < TERMINALS && displayed < TERMINALS
      modifies this`displayed, mem
      ensures displayed == k
      ensures forall t | 0 <= t < TERMINALS :: PageAt(t) == old(PageAt(t))
    {
      ghost var d, before := displayed, mem[..];
      MoveFourKb(VIDEO, TERMINAL1_MEM + displayed * PAGE);
      ghost var between := mem[..];
      displayed := k;
      MoveFourKb(TERMINAL1_MEM + displayed * PAGE, VIDEO);
      forall t | 0 <= t < TERMINALS ensures PageAt(t) == old(PageAt(t)) {
        SwapKeeps(before, between, mem[..], d, k, t);
      }
    }

    /** The user mappings follow the switch. */
    method MapAll(k: nat)
      requires vmap.Length == TERMINALS && k < TERMINALS
      modifies vmap
      ensures forall t | 0 <= t < TERMINALS :: vmap[t] == if t == k then VIDEO_PAGE else TERMINAL1_PAGE + t
    {
      vmap[0] := if k == 0 then 0xB8 else 0xBA;
      vmap[1] := if k == 1 then 0xB8 else 0xBB;
      vmap[2] := if k == 2 then 0xB8 else 0xBC;
    }

    /** The assignments of a switch, variable by variable. */
    method SwitchVariables(k: nat)
      requires Sized() && displayed < TERMINALS && k < TERMINALS
      modifies this`displayed, this`hardware, mem, cursors, saved, vmap
      ensures displayed == k && hardware == cursors[k]
      ensures forall t | 0 <= t < TERMINALS ::
                && PageAt(t) == old(PageAt(t)) && vmap[t] == (if t == k then VIDEO_PAGE else TERMINAL1_PAGE + t)
                && saved[t] ==
                   (if t == old(displayed) then Saved(old(cursors[t].x), old(cursors[t].y)) else old(saved[t]))
                && cursors[t] == (if t == k then Cursor(saved[t].x, saved[t].y) else old(cursors[t]))
    {
      hide PageAt, PageOf;
      MapAll(k);
      saved[displayed] := Saved(cursors[displayed].x, cursors[displayed].y);
      SwapPages(k);
      cursors[displayed] := Cursor(saved[displayed].x, saved[displayed].y);
      hardware := Cursor(saved[displayed].x, saved[displayed].y);
    }

    /** A timer tick that serves ALT+F1, F2 or F3. */
    method SwitchDisplay(k: nat)
      requires Valid() && k < TERMINALS
      modifies this`displayed, this`hardware, mem, cursors, saved, vmap
      ensures Valid() && Abs() == Step(old(Abs()), SwitchTo(k))
      ensures forall t | 0 <= t < TERMINALS :: vmap[t] == PageNumber(t)
    {
      hide Step, PageAt, PageOf, Ok;
      AbsOk();
      ghost var d := Abs();
      SwitchVariables(k);
      SwitchedTerms(d, k, Term(0), Term(1), Term(2));
    }

    /** `sys_vidmap`, given the address of the user's pointer; `None` where no mapping is made. */
    method Vidmap(address: int) returns (r: Option<int>)
      requires Valid()
      modifies vmap
      ensures Valid()
      ensures r.Some? <==> 0x0804_8000 < address < 0x0840_0000
      ensures r.Some? ==>
                && r == Some(0x0840_0000 + scheduled * PAGE)
                && Abs() == Step(old(Abs()), Map) && vmap[scheduled] == PageNumber(scheduled)
      ensures r.None? ==> Abs() == old(Abs())
    {
      hide Step, PageAt, PageOf, Ok;
      AbsOk();
      StepMap(Abs());
      if address < 0x0800_0000 || address >= 0x0840_0000 { return None; }
      if address > 0x0804_8000 {
        vmap[scheduled] := if scheduled == displayed then 0xB8 else 0xBA + scheduled;
        Assembled(old(Abs()), scheduled, Term(0), Term(1), Term(2));
        return Some(0x0840_0000 + scheduled * PAGE);
      }
      return None;
    }

    method StorePage(t: nat, offset: nat, b: byte)
      requires mem.Length == MEMORY && vmap.Length == TERMINALS && t < TERMINALS && displayed < TERMINALS
      requires vmap[t] == PageNumber(t) && offset < PAGE
      modifies mem
      ensures PageAt(t) == old(PageAt(t))[offset := b]
      ensures forall u | 0 <= u < TERMINALS && u != t :: PageAt(u) == old(PageAt(u))
    {
      mem[(vmap[t] - VIDEO_PAGE) * PAGE + offset] := b;
      OtherPages(t);
    }

    /** A store of the running process at offset `offset` of its mapped page. */
    method UserStore(offset: nat, b: byte)
      requires Valid() && offset < PAGE && vmap[scheduled] != 0
      modifies mem
      ensures Valid() && Abs() == Step(old(Abs()), UserWrite(offset, b))
    {
      hide Step, PageAt, PageOf, Ok;
      AbsOk();
      ghost var d := Abs();
      StepUserWrite(d, offset, b);
      StorePage(scheduled, offset, b);
      Assembled(d, scheduled, Term(0), Term(1), Term(2));
    }
  }

  /** Three terminals of which only the one at `t` is new. */
  lemma Assembled(d: Screens, t: nat, a: Terminal, b: Terminal, c: Terminal)
    requires |d.terminals| == TERMINALS && t < TERMINALS
    requires (t == 0 || a == d.terminals[0]) && (t == 1 || b == d.terminals[1]) && (t == 2 || c == d.terminals[2])
    ensures Screens([a, b, c], d.displayed, d.scheduled) == With(d, t, [a, b, c][t])
  {
  }

  /** A terminal's cursor put at a cell. */
  function MovedTo(t: Terminal, x: nat, y: nat): Terminal { OnScreen(t, t.screen.(x := x, y := y)) }

  /** A terminal's cursor put at a cell, and a blank printed there. */
  ghost function BlankedAt(t: Terminal, x: nat, y: nat): (r: Terminal)
    requires TerminalOk(t) && InScreen(x, y)
    ensures TerminalOk(r)
  {
    OnScreen(t, Put(t.screen.(x := x, y := y), SPACE))
  }

  /** The echo of a backspace on the displayed terminal, in the order in which the keyboard handler does it. */
  ghost function Erased(t: Terminal, inField: bool): Terminal
    requires TerminalOk(t)
  {
    var x, y := t.screen.x, t.screen.y;
    if x == 0 && y == 0 then t
    else if x == 0 then
      var r := BlankedAt(t, COLS - 1, y - 1);
      if inField then MovedTo(r, COLS - 1, y - 1) else r
    else MovedTo(BlankedAt(t, x - 1, y), x - 1, y)
  }

  lemma EraseCases(t: Terminal, inField: bool)
    requires TerminalOk(t)
    ensures var x, y := t.screen.x, t.screen.y;
            var toX, toY := if x == 0 then COLS - 1 else x - 1, if x == 0 then y - 1 else y;
            if x == 0 && y == 0 then Erased(t, inField) == t
            else
              && InScreen(toX, toY)
              && var r := BlankedAt(t, toX, toY);
                 Erased(t, inField) == if x != 0 || inField then MovedTo(r, toX, toY) else r
  {
    hide BlankedAt, MovedTo;
  }

  lemma ErasedIsBack(d: Screens, inField: bool)
    requires Ok(d)
    ensures |d.terminals| == TERMINALS && d.displayed < TERMINALS && TerminalOk(d.terminals[d.displayed])
    ensures Step(d, EraseKey(inField)) == With(d, d.displayed, Erased(d.terminals[d.displayed], inField))
  {
    StepErase(d, inField);
    hide Put, Step, With, Ok;
  }

  lemma WithTwice(d: Screens, t: nat, a: Terminal, b: Terminal)
    requires |d.terminals| == TERMINALS && t < TERMINALS
    ensures With(d, t, a).terminals[t] == a && With(With(d, t, a), t, b) == With(d, t, b)
    ensures With(d, t, d.terminals[t]) == d
  {
    assert With(d, t, d.terminals[t]).terminals == d.terminals;
  }

  /** What a switch does to a terminal, left or not and entered or not. */
  function Entering(t: Terminal, left: bool, entered: bool): Terminal {
    var x, y := if left then t.screen.x else t.savedX, if left then t.screen.y else t.savedY;
    Terminal(if entered then Screen(t.screen.page, x, y) else t.screen, x, y, true)
  }

  lemma SwitchedTerms(d: Screens, k: nat, a: Terminal, b: Terminal, c: Terminal)
    requires Ok(d) && k < TERMINALS
    requires a == Entering(d.terminals[0], d.displayed == 0, 0 == k)
    requires b == Entering(d.terminals[1], d.displayed == 1, 1 == k)
    requires c == Entering(d.terminals[2], d.displayed == 2, 2 == k)
    ensures Screens([a, b, c], k, d.scheduled) == Step(d, SwitchTo(k))
  {
  }

  function Slice(memory: seq<byte>, base: nat): seq<byte>
    requires base + PAGE <= |memory|
  {
    memory[base..base + PAGE]
  }

  /** Memory is as before outside the page at `base`. */
  ghost predicate OnlyPage(memory: seq<byte>, memory': seq<byte>, base: nat) {
    |memory'| == |memory| && forall k | 0 <= k < |memory| && !(base <= k < base + PAGE) :: memory'[k] == memory[k]
  }

  lemma OtherSlice(memory: seq<byte>, memory': seq<byte>, base: nat, other: nat)
    requires OnlyPage(memory, memory', base) && other + PAGE <= |memory|
    requires base + PAGE <= other || other + PAGE <= base
    ensures Slice(memory', other) == Slice(memory, other)
  {
  }

  /** Terminal `t`'s page through the two copies that take the display from `d` to `k`. */
  lemma SwapKeeps(before: seq<byte>, between: seq<byte>, after: seq<byte>, d: nat, k: nat, t: nat)
    requires |before| == |between| == |after| == MEMORY && d < TERMINALS && k < TERMINALS && t < TERMINALS
    requires OnlyPage(before, between, TERMINAL1_MEM + d * PAGE) && OnlyPage(between, after, VIDEO)
    requires Slice(between, TERMINAL1_MEM + d * PAGE) == Slice(before, VIDEO)
    requires Slice(after, VIDEO) == Slice(between, TERMINAL1_MEM + k * PAGE)
    ensures Slice(after, if t == k then VIDEO else TERMINAL1_MEM + t * PAGE) ==
            Slice(before, if t == d then VIDEO else TERMINAL1_MEM + t * PAGE)
  {
    hide Slice, OnlyPage;
    var back := TERMINAL1_MEM + t * PAGE;
    OtherSlice(between, after, VIDEO, back);
    if t != d { OtherSlice(before, between, TERMINAL1_MEM + d * PAGE, back); }
  }
}
