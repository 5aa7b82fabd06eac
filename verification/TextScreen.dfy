/** One 80 by 25 text screen, what `putc` does to it, and the unbounded log it is a window on. */
module TextScreen {
  import opened Basics

  const ROWS: nat := 25
  const COLS: nat := 80
  const ATTRIB: byte := 0xA
  const PAGE: nat := 4096
  const CELL_BYTES: nat := 4000

  /** The byte offset of the character at column `x` of row `y`; its attribute follows. */
  function Offset(x: nat, y: nat): nat { 2 * (80 * y + x) }

  predicate InScreen(x: int, y: int) { 0 <= x < COLS && 0 <= y < ROWS }

  function CharAt(page: seq<byte>, x: nat, y: nat): byte
    requires |page| == PAGE && InScreen(x, y)
  {
    page[Offset(x, y)]
  }

  function AttribAt(page: seq<byte>, x: nat, y: nat): byte
    requires |page| == PAGE && InScreen(x, y)
  {
    page[Offset(x, y) + 1]
  }

  function Written(page: seq<byte>, x: nat, y: nat, c: byte): (r: seq<byte>)
    requires |page| == PAGE && InScreen(x, y)
    ensures |r| == PAGE
  {
    page[Offset(x, y) := c][Offset(x, y) + 1 := ATTRIB]
  }

  /** The byte of a blank cell at page offset `i`: characters at even offsets, attributes at odd ones. */
  function BlankByte(i: nat): byte { if i % 2 == 0 then SPACE else ATTRIB }

  /** Every row moves up by one and the last becomes blank; what lies behind the cells stays. */
  function Scrolled(page: seq<byte>): (r: seq<byte>)
    requires |page| == PAGE
    ensures |r| == PAGE
  {
    seq(PAGE, i requires 0 <= i < PAGE =>
      if i < 3840 then page[i + 160] else if i < CELL_BYTES then BlankByte(i) else page[i])
  }

  function Cleared(page: seq<byte>): (r: seq<byte>)
    requires |page| == PAGE
    ensures |r| == PAGE
  {
    seq(PAGE, i requires 0 <= i < PAGE => if i < CELL_BYTES then BlankByte(i) else page[i])
  }

  datatype Screen = Screen(page: seq<byte>, x: nat, y: nat)

  ghost predicate ScreenOk(s: Screen) { |s.page| == PAGE && InScreen(s.x, s.y) }

  /** What `putc` and `putc_kb` do to the screen they write on. */
  function Put(s: Screen, c: byte): (r: Screen)
    requires ScreenOk(s)
    ensures ScreenOk(r)
  {
    if c == TAB then s
    else if (c == NEWLINE || c == RETURN) && s.y < ROWS - 1 then s.(x := 0, y := s.y + 1)
    else if s.y == ROWS - 1 && (s.x == COLS - 1 || c == NEWLINE) then
      Screen(Scrolled(if c == NEWLINE then s.page else Written(s.page, s.x, s.y, c)), 0, ROWS - 1)
    else if s.x == COLS - 1 then Screen(Written(s.page, s.x, s.y, c), 0, s.y + 1)
    else Screen(Written(s.page, s.x, s.y, c), s.x + 1, s.y)
  }

  /**
   * The echo of a backspace: the cell before the cursor is blanked and the cursor moves there. At
   * the start of a row it goes back only if that row belongs to the line being typed.
   */
  function Back(s: Screen, inField: bool): (r: Screen)
    requires ScreenOk(s)
    ensures ScreenOk(r)
  {
    if s.x == 0 && s.y == 0 then s
    else if s.x == 0 then
      var blanked := Put(s.(x := COLS - 1, y := s.y - 1), SPACE);
      if inField then blanked.(x := COLS - 1, y := s.y - 1) else blanked
    else Put(s.(x := s.x - 1), SPACE).(x := s.x - 1, y := s.y)
  }

  datatype Input =
    | Print(c: byte)
    | Erase(inField: bool)  // backspace
    | Wipe                  // CTRL+L

  function Apply(s: Screen, i: Input): (r: Screen)
    requires ScreenOk(s)
    ensures ScreenOk(r)
  {
    match i
    case Print(c) => Put(s, c)
    case Erase(inField) => Back(s, inField)
    case Wipe => Screen(Cleared(s.page), 0, 0)
  }

  function ApplyAll(s: Screen, inputs: seq<Input>): (r: Screen)
    requires ScreenOk(s)
    ensures ScreenOk(r)
    decreases |inputs|
  {
    if inputs == [] then s else ApplyAll(Apply(s, inputs[0]), inputs[1..])
  }

  /** Where the cursor goes does not depend on what the page holds. */
  lemma CursorIgnoresPage(s: Screen, r: Screen, i: Input)
    requires ScreenOk(s) && ScreenOk(r) && s.x == r.x && s.y == r.y
    ensures Apply(s, i).x == Apply(r, i).x && Apply(s, i).y == Apply(r, i).y
  {
  }

  /** The two pages agree behind the 4000 bytes of the cells. */
  ghost predicate SameTail(page: seq<byte>, page': seq<byte>) {
    |page| == |page'| == PAGE && forall i | CELL_BYTES <= i < PAGE :: page[i] == page'[i]
  }

  lemma ApplyStaysInCells(s: Screen, i: Input)
    requires ScreenOk(s)
    ensures SameTail(s.page, Apply(s, i).page)
  {
  }

  /** Whatever is printed, erased and wiped, nothing is written behind the 4000 bytes of the cells. */
  lemma {:induction false} NoWriteLeavesCells(s: Screen, inputs: seq<Input>)
    requires ScreenOk(s)
    ensures SameTail(s.page, ApplyAll(s, inputs).page)
    decreases |inputs|
  {
    hide Apply;
    if inputs != [] {
      ApplyStaysInCells(s, inputs[0]);
      NoWriteLeavesCells(Apply(s, inputs[0]), inputs[1..]);
    }
  }

  /** The last cell that was written, in reading order, when the cursor is at (x, y). */
  function CellBefore(x: nat, y: nat): (r: (nat, nat))
    requires InScreen(x, y) && (x > 0 || y > 0)
    ensures InScreen(r.0, r.1) && 80 * r.1 + r.0 + 1 == 80 * y + x
  {
    if x > 0 then (x - 1, y) else (79, y - 1)
  }

  /**
   * A backspace blanks exactly the cell before the cursor and puts the cursor there; above the row
   * where the line began it blanks the cell but leaves the cursor; in the top left corner it does nothing.
   */
  lemma BackErasesOneCell(s: Screen, inField: bool)
    requires ScreenOk(s)
    ensures s.x == 0 && s.y == 0 ==> Back(s, inField) == s
    ensures s.x > 0 || s.y > 0 ==>
              var (u, v), r := CellBefore(s.x, s.y), Back(s, inField);
              && CharAt(r.page, u, v) == SPACE
              && (forall i | 0 <= i < PAGE && i != Offset(u, v) && i != Offset(u, v) + 1 :: r.page[i] == s.page[i])
              && (if s.x > 0 || inField then r.x == u && r.y == v else r.x == s.x && r.y == s.y)
  {
  }

  // ---------------------------------------------------------------- the log

  /** All rows ever written, the last one being written now, and the first one that is still on the screen. */
  datatype Log = Log(rows: seq<seq<byte>>, top: nat)

  ghost predicate RowsOk(rows: seq<seq<byte>>) { rows != [] && |rows[|rows| - 1]| < COLS }

  ghost predicate LogOk(log: Log) { RowsOk(log.rows) && log.top < |log.rows| <= log.top + ROWS }

  /**
   * A character joins the last row, which is closed as soon as it has 80; a newline closes it at
   * once. Tabs are dropped.
   */
  function Grow(rows: seq<seq<byte>>, c: byte): (r: seq<seq<byte>>)
    requires RowsOk(rows)
    ensures RowsOk(r) && |rows| <= |r| <= |rows| + 1
  {
    if c == TAB then rows
    else if c == NEWLINE then rows + [[]]
    else
      var row := rows[|rows| - 1] + [c];
      var grown := rows[|rows| - 1 := row];
      if |row| == COLS then grown + [[]] else grown
  }

  /** The window never moves up; it moves down when a row would not fit. */
  function Framed(rows: seq<seq<byte>>, top: nat): Log {
    Log(rows, if |rows| <= top + ROWS then top else top + 1)
  }

  /** A carriage return counts as a newline while the last row is above the bottom of the screen. */
  function Feed(log: Log, c: byte): (r: Log)
    requires LogOk(log)
    ensures LogOk(r)
  {
    Framed(Grow(log.rows, if c == RETURN && |log.rows| < log.top + ROWS then NEWLINE else c), log.top)
  }

  /** A row without its last column. */
  function Shortened(row: seq<byte>): (r: seq<byte>)
    ensures |r| == COLS - 1 && forall i | 0 <= i < COLS - 1 :: r[i] == if i < |row| then row[i] else SPACE
  {
    seq(COLS - 1, i requires 0 <= i => if i < |row| then row[i] else SPACE)
  }

  /** A backspace takes back the last character, also across the start of a row that is on the screen. */
  function Unfeed(log: Log, inField: bool): (r: Log)
    requires LogOk(log)
    ensures LogOk(r)
  {
    var n := |log.rows| - 1;
    var last := log.rows[n];
    if last != [] then log.(rows := log.rows[n := last[..|last| - 1]])
    else if n == log.top then log
    else
      var before := Shortened(log.rows[n - 1]);
      log.(rows := if inField then log.rows[..n - 1] + [before] else log.rows[n - 1 := before])
  }

  function Record(log: Log, i: Input): (r: Log)
    requires LogOk(log)
    ensures LogOk(r)
  {
    match i
    case Print(c) => Feed(log, c)
    case Erase(inField) => Unfeed(log, inField)
    case Wipe => Log([[]], 0)
  }

  function RecordAll(log: Log, inputs: seq<Input>): (r: Log)
    requires LogOk(log)
    ensures LogOk(r)
    decreases |inputs|
  {
    if inputs == [] then log else RecordAll(Record(log, inputs[0]), inputs[1..])
  }

  function Column(row: seq<byte>, x: nat): byte { if x < |row| then row[x] else SPACE }

  /** The character the screen should show. */
  function Window(log: Log, x: nat, y: nat): byte {
    if log.top + y < |log.rows| then Column(log.rows[log.top + y], x) else SPACE
  }

  ghost predicate CellShows(page: seq<byte>, log: Log, x: nat, y: nat)
    requires |page| == PAGE && InScreen(x, y)
  {
    CharAt(page, x, y) == Window(log, x, y) && AttribAt(page, x, y) == ATTRIB
  }

  ghost predicate PageShows(page: seq<byte>, log: Log) {
    |page| == PAGE && forall x, y | InScreen(x, y) :: CellShows(page, log, x, y)
  }

  /** The screen shows the log from its top row on, with the cursor where the log ends. */
  ghost predicate Shows(s: Screen, log: Log) {
    && ScreenOk(s) && LogOk(log)
    && s.x == |log.rows[|log.rows| - 1]| && s.y == |log.rows| - 1 - log.top
    && PageShows(s.page, log)
  }

  lemma WrittenCells(page: seq<byte>, x: nat, y: nat, c: byte, u: nat, v: nat)
    requires |page| == PAGE && InScreen(x, y) && InScreen(u, v)
    ensures var r := Written(page, x, y, c);
            && CharAt(r, u, v) == (if u == x && v == y then c else CharAt(page, u, v))
            && AttribAt(r, u, v) == (if u == x && v == y then ATTRIB else AttribAt(page, u, v))
  {
  }

  lemma ScrolledCells(page: seq<byte>, u: nat, v: nat)
    requires |page| == PAGE && InScreen(u, v)
    ensures CharAt(Scrolled(page), u, v) == (if v < ROWS - 1 then CharAt(page, u, v + 1) else SPACE)
    ensures AttribAt(Scrolled(page), u, v) == (if v < ROWS - 1 then AttribAt(page, u, v + 1) else ATTRIB)
  {
  }

  /** Replacing row `n` of the log, on the screen in row `n - log.top`. */
  lemma WriteShows(page: seq<byte>, log: Log, n: nat, row: seq<byte>, x: nat, c: byte)
    requires PageShows(page, log) && log.top <= n < |log.rows| && InScreen(x, n - log.top)
    requires forall u | 0 <= u < COLS :: Column(row, u) == if u == x then c else Column(log.rows[n], u)
    ensures PageShows(Written(page, x, n - log.top, c), log.(rows := log.rows[n := row]))
  {
    var r, grown := Written(page, x, n - log.top, c), log.(rows := log.rows[n := row]);
    forall u, v | InScreen(u, v) ensures CellShows(r, grown, u, v) {
      assert CellShows(page, log, u, v);
      WrittenCells(page, x, n - log.top, c, u, v);
      assert Window(grown, u, v) == if v == n - log.top then Column(row, u) else Window(log, u, v);
    }
  }

  /** A new row: the page scrolls when the window must move. */
  lemma NewRowShows(page: seq<byte>, log: Log)
    requires PageShows(page, log) && log.top < |log.rows| <= log.top + ROWS
    ensures PageShows(if |log.rows| < log.top + ROWS then page else Scrolled(page), Framed(log.rows + [[]], log.top))
  {
    var taller := Framed(log.rows + [[]], log.top);
    var r := if |log.rows| < log.top + ROWS then page else Scrolled(page);
    forall u, v | InScreen(u, v) ensures CellShows(r, taller, u, v) { NewRowCell(page, log, u, v); }
  }

  lemma NewRowCell(page: seq<byte>, log: Log, u: nat, v: nat)
    requires PageShows(page, log) && log.top < |log.rows| <= log.top + ROWS && InScreen(u, v)
    ensures CellShows(if |log.rows| < log.top + ROWS then page else Scrolled(page),
                      Framed(log.rows + [[]], log.top), u, v)
  {
    assert CellShows(page, log, u, v);
    if v < ROWS - 1 { assert CellShows(page, log, u, v + 1); }
    hide PageShows, Scrolled;
    ScrolledCells(page, u, v);
  }

  /** `putc` is the log's `Feed` seen through the window, for every byte and every log. */
  lemma PutShows(s: Screen, log: Log, c: byte)
    requires Shows(s, log)
    ensures Shows(Put(s, c), Feed(log, c))
  {
    hide PageShows, Written, Scrolled;
    var n := |log.rows| - 1;
    if c == TAB {
    } else if c == NEWLINE || (c == RETURN && s.y < ROWS - 1) {
      NewRowShows(s.page, log);
    } else {
      var row := log.rows[n] + [c];
      WriteShows(s.page, log, n, row, s.x, c);
      var grown := log.(rows := log.rows[n := row]);
      if s.x == COLS - 1 { NewRowShows(Written(s.page, s.x, s.y, c), grown); }
    }
  }

  /** The echo of a backspace is the log's `Unfeed`. */
  lemma BackShows(s: Screen, log: Log, inField: bool)
    requires Shows(s, log)
    ensures Shows(Back(s, inField), Unfeed(log, inField))
  {
    hide PageShows, Written, Scrolled;
    var n := |log.rows| - 1;
    var last := log.rows[n];
    if last != [] {
      WriteShows(s.page, log, n, last[..|last| - 1], s.x - 1, SPACE);
    } else if n > log.top {
      var before := Shortened(log.rows[n - 1]);
      WriteShows(s.page, log, n - 1, before, COLS - 1, SPACE);
      DropShows(Written(s.page, COLS - 1, s.y - 1, SPACE), log.(rows := log.rows[n - 1 := before]));
      assert log.rows[n - 1 := before][..n] == log.rows[..n - 1] + [before];
    }
  }

  /** An empty last row shows nothing. */
  lemma DropShows(page: seq<byte>, log: Log)
    requires PageShows(page, log) && log.rows != [] && log.rows[|log.rows| - 1] == []
    ensures PageShows(page, log.(rows := log.rows[..|log.rows| - 1]))
  {
    var dropped := log.(rows := log.rows[..|log.rows| - 1]);
    forall u, v | InScreen(u, v) ensures CellShows(page, dropped, u, v) { assert CellShows(page, log, u, v); }
  }

  lemma ClearedShows(page: seq<byte>)
    requires |page| == PAGE
    ensures Shows(Screen(Cleared(page), 0, 0), Log([[]], 0))
  {
  }

  /** The screen goes on showing the log, whatever is printed, erased and wiped. */
  lemma ApplyShows(s: Screen, log: Log, i: Input)
    requires Shows(s, log)
    ensures Shows(Apply(s, i), Record(log, i))
  {
    hide Shows, Put, Back, Feed, Unfeed, Cleared;
    match i
    case Print(c) => PutShows(s, log, c);
    case Erase(inField) => BackShows(s, log, inField);
    case Wipe => ShowsOk(s, log); ClearedShows(s.page);
  }

  lemma UnfeedGrow(rows: seq<seq<byte>>, c: byte, top: nat)
    requires RowsOk(rows) && c != TAB && c != NEWLINE && top < |rows|
    requires LogOk(Log(Grow(rows, c), top))
    ensures Unfeed(Log(Grow(rows, c), top), true) == Log(rows, top)
  {
    var n := |rows| - 1;
    var row := rows[n];
    var longer := row + [c];
    if |longer| < COLS {
      assert longer[..|longer| - 1] == row;
    } else {
      assert Shortened(longer) == row;
      assert (rows[n := longer] + [[]])[..n] == rows[..n];
    }
    assert rows[..n] + [row] == rows;
  }

  /** A backspace takes back the character before it, and the whole log is as before unless the page scrolled. */
  lemma BackspaceUndoesExactly(s: Screen, log: Log, c: byte)
    requires Shows(s, log) && c != TAB && c != NEWLINE && c != RETURN
    ensures Unfeed(Feed(log, c), true).rows == log.rows
    ensures Unfeed(Feed(log, c), true) == log <==> !(s.x == COLS - 1 && s.y == ROWS - 1)
  {
    hide Unfeed, PageShows;
    UnfeedGrow(log.rows, c, Feed(log, c).top);
  }

  lemma ShowsOk(s: Screen, log: Log)
    requires Shows(s, log)
    ensures ScreenOk(s) && LogOk(log)
  {
  }

  lemma {:induction false} ApplyAllShows(s: Screen, log: Log, inputs: seq<Input>)
    requires Shows(s, log)
    ensures Shows(ApplyAll(s, inputs), RecordAll(log, inputs))
    decreases |inputs|
  {
    if inputs != [] {
      ApplyShows(s, log, inputs[0]);
      ApplyAllShows(Apply(s, inputs[0]), Record(log, inputs[0]), inputs[1..]);
    }
  }

  lemma {:induction false} RecordBoth(log: Log, a: seq<Input>, b: seq<Input>)
    requires LogOk(log)
    ensures RecordAll(log, a + b) == RecordAll(RecordAll(log, a), b)
    decreases |a|
  {
    if a == [] {
      assert a + b == b;
    } else {
      assert (a + b)[0] == a[0] && (a + b)[1..] == a[1..] + b;
      RecordBoth(Record(log, a[0]), a[1..], b);
    }
  }

  lemma RecordNothing(log: Log)
    requires LogOk(log)
    ensures RecordAll(log, []) == log
  {
  }

  /** On the bottom row a carriage return is a character like any other: 13 goes where the letter would. */
  lemma ReturnIsWrittenOnBottomRow(s: Screen, letter: byte)
    requires ScreenOk(s) && s.y == ROWS - 1 && letter != TAB && letter != NEWLINE && letter != RETURN
    ensures var r, l := Put(s, RETURN), Put(s, letter);
            && r.x == l.x && r.y == l.y == ROWS - 1
            && var v := if s.x == COLS - 1 then ROWS - 2 else ROWS - 1;
               && CharAt(r.page, s.x, v) == 13 && CharAt(l.page, s.x, v) == letter
               && forall i | 0 <= i < PAGE && i != Offset(s.x, v) :: r.page[i] == l.page[i]
  {
  }

  /**
   * A carriage return does what a newline does exactly while the cursor is above the bottom row:
   * on the bottom row it is written as a character, even in the last cell, where it then scrolls up.
   */
  lemma ReturnIsNewlineExactly(s: Screen, log: Log)
    requires Shows(s, log)
    ensures Put(s, RETURN) == Put(s, NEWLINE) <==> s.y < ROWS - 1
  {
    if s.y == ROWS - 1 && s.x == COLS - 1 {
      assert CellShows(s.page, log, s.x, s.y);
      WrittenCells(s.page, s.x, s.y, RETURN, s.x, s.y);
      ScrolledCells(Written(s.page, s.x, s.y, RETURN), s.x, s.y - 1);
      ScrolledCells(s.page, s.x, s.y - 1);
      assert CharAt(Put(s, RETURN).page, s.x, s.y - 1) != CharAt(Put(s, NEWLINE).page, s.x, s.y - 1);
    }
  }

  // ---------------------------------------------------------------- the log as a wrapped text

  /** A line cut every 80 characters; a line that fills its last row leaves an empty one behind. */
  function Chunks(line: seq<byte>): (r: seq<seq<byte>>)
    ensures RowsOk(r)
    decreases |line|
  {
    if |line| < COLS then [line] else [line[..COLS]] + Chunks(line[COLS..])
  }

  /** The rows of a text: its lines, each wrapped at 80 columns. */
  function Wrapped(text: seq<byte>): (r: seq<seq<byte>>)
    ensures RowsOk(r)
    decreases |text|
  {
    var k := LineLength(text);
    if k == |text| then Chunks(text) else Chunks(text[..k]) + Wrapped(text[k + 1..])
  }

  function WithoutTabs(text: seq<byte>): seq<byte> {
    if text == [] then [] else (if text[0] == TAB then [] else [text[0]]) + WithoutTabs(text[1..])
  }

  /** The log that shows the last 25 of some rows. */
  function LastRows(rows: seq<seq<byte>>): Log { Log(rows, if |rows| <= ROWS then 0 else |rows| - ROWS) }

  function Printed(text: seq<byte>): (r: seq<Input>)
    ensures |r| == |text| && forall i | 0 <= i < |text| :: r[i] == Print(text[i])
  {
    seq(|text|, i requires 0 <= i < |text| => Print(text[i]))
  }

  lemma GrowTail(a: seq<seq<byte>>, b: seq<seq<byte>>, c: byte)
    requires RowsOk(b)
    ensures RowsOk(a + b) && a + Grow(b, c) == Grow(a + b, c)
  {
    var n := |b| - 1;
    if c != TAB && c != NEWLINE {
      var row := b[n] + [c];
      assert (a + b)[|a| + n := row] == a + b[n := row];
    }
  }

  lemma {:induction false} ChunksGrow(line: seq<byte>, c: byte)
    requires c != TAB && c != NEWLINE
    ensures Chunks(line + [c]) == Grow(Chunks(line), c)
    decreases |line|
  {
    var more := line + [c];
    if |line| < COLS - 1 {
    } else if |line| == COLS - 1 {
      assert more[..COLS] == more && more[COLS..] == [];
    } else {
      assert more[..COLS] == line[..COLS] && more[COLS..] == line[COLS..] + [c];
      ChunksGrow(line[COLS..], c);
      GrowTail([line[..COLS]], Chunks(line[COLS..]), c);
    }
  }

  lemma {:induction false} WrappedGrow(text: seq<byte>, c: byte)
    requires c != TAB
    ensures Wrapped(text + [c]) == Grow(Wrapped(text), c)
    decreases |text|
  {
    var k, more := LineLength(text), text + [c];
    assert more[..k] == text[..k];
    if k < |text| {
      LineLengthIs(more, k);
      assert more[k + 1..] == text[k + 1..] + [c];
      WrappedGrow(text[k + 1..], c);
      GrowTail(Chunks(text[..k]), Wrapped(text[k + 1..]), c);
    } else if c == NEWLINE {
      LineLengthIs(more, k);
      assert text[..k] == text && more[k + 1..] == [];
      assert Wrapped([]) == [[]];
    } else {
      assert NEWLINE !in text by { assert text[..k] == text; }
      assert more[..k + 1] == more;
      LineLengthIs(more, k + 1);
      ChunksGrow(text, c);
    }
  }

  lemma FeedLastRows(rows: seq<seq<byte>>, c: byte)
    requires RowsOk(rows) && c != RETURN
    ensures LogOk(LastRows(rows)) && Feed(LastRows(rows), c) == LastRows(Grow(rows, c))
  {
  }

  lemma {:induction false} RecordAllWraps(before: seq<byte>, text: seq<byte>)
    requires RETURN !in text
    ensures LogOk(LastRows(Wrapped(before)))
    ensures RecordAll(LastRows(Wrapped(before)), Printed(text)) == LastRows(Wrapped(before + WithoutTabs(text)))
    decreases |text|
  {
    hide Wrapped, Feed, Grow, LastRows, RowsOk, LogOk, Printed;
    FeedLastRows(Wrapped(before), TAB);
    if text == [] {
      assert before + WithoutTabs(text) == before;
    } else {
      var c := text[0];
      assert Printed(text)[1..] == Printed(text[1..]);
      FeedLastRows(Wrapped(before), c);
      if c == TAB {
        GrowTab(Wrapped(before));
        RecordAllWraps(before, text[1..]);
        assert WithoutTabs(text) == WithoutTabs(text[1..]);
      } else {
        WrappedGrow(before, c);
        RecordAllWraps(before + [c], text[1..]);
        assert before + WithoutTabs(text) == before + [c] + WithoutTabs(text[1..]);
      }
    }
  }

  lemma GrowTab(rows: seq<seq<byte>>)
    requires RowsOk(rows)
    ensures Grow(rows, TAB) == rows
  {
  }

  /**
   * From a cleared screen: after any text without carriage returns, the screen shows the last 25
   * rows of the text wrapped at 80 columns (tabs dropped), with the cursor at its end.
   */
  lemma ScreenShowsWrappedText(page: seq<byte>, text: seq<byte>)
    requires |page| == PAGE && RETURN !in text
    ensures Shows(ApplyAll(Screen(Cleared(page), 0, 0), Printed(text)), LastRows(Wrapped(WithoutTabs(text))))
  {
    ClearedShows(page);
    ApplyAllShows(Screen(Cleared(page), 0, 0), Log([[]], 0), Printed(text));
    RecordAllWraps([], text);
    assert [] + WithoutTabs(text) == WithoutTabs(text);
    assert Wrapped([]) == [[]];
  }
}
