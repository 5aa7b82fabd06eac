/**
 * What is typed and erased at the keyboard, seen twice: as the line that the read delivers and as
 * the echo on the screen. They are the same text.
 */
module TypedLine {
  import opened Basics
  import L = LineEditor
  import S = TextScreen

  /** What a key puts on the screen: nothing when the buffer is full or there is nothing to erase. */
  function Echo(line: seq<byte>, k: L.Key): seq<S.Input> {
    match k
    case Backspace(atOrigin) => if atOrigin || line == [] then [] else [S.Erase(true)]
    case _ => S.Printed(L.Typed(line, k)[Min(|line|, |L.Typed(line, k)|)..])
  }

  function Echoes(line: seq<byte>, ks: seq<L.Key>): seq<S.Input>
    decreases |ks|
  {
    if ks == [] then [] else Echo(line, ks[0]) + Echoes(L.Typed(line, ks[0]), ks[1..])
  }

  function GrowAll(rows: seq<seq<byte>>, text: seq<byte>): (r: seq<seq<byte>>)
    requires S.RowsOk(rows)
    ensures S.RowsOk(r) && |rows| <= |r|
    decreases |text|
  {
    if text == [] then rows else S.Grow(GrowAll(rows, text[..|text| - 1]), text[|text| - 1])
  }

  /** No byte of the text ends a row early or is dropped. */
  predicate Plain(text: seq<byte>) {
    forall i | 0 <= i < |text| :: text[i] != TAB && text[i] != NEWLINE && text[i] != RETURN
  }

  /** Characters fill one row after another, so a line of 127 opens at most two rows. */
  lemma {:induction false} RowsFill(rows: seq<seq<byte>>, text: seq<byte>)
    requires S.RowsOk(rows) && Plain(text)
    ensures var r := GrowAll(rows, text);
            S.COLS * (|r| - |rows|) + |r[|r| - 1]| == |rows[|rows| - 1]| + |text|
    decreases |text|
  {
    if text != [] { RowsFill(rows, text[..|text| - 1]); }
  }

  /** The log shows what it did when the line began, and the line. */
  ghost predicate Shows(start: S.Log, log: S.Log, line: seq<byte>)
    requires S.LogOk(start)
  {
    && S.LogOk(log) && Plain(line) && |line| <= L.CAPACITY
    && log.rows == GrowAll(start.rows, line) && log.top < |start.rows|
  }

  lemma PrintShows(start: S.Log, log: S.Log, line: seq<byte>, c: byte)
    requires S.LogOk(start) && Shows(start, log, line) && Plain([c]) && |line| < L.CAPACITY
    ensures Shows(start, S.Feed(log, c), line + [c])
  {
    assert [c][0] == c;
    var longer := line + [c];
    assert longer[..|longer| - 1] == line;
    RowsFill(start.rows, longer);
  }

  lemma EraseShows(start: S.Log, log: S.Log, line: seq<byte>)
    requires S.LogOk(start) && Shows(start, log, line) && line != []
    ensures Shows(start, S.Unfeed(log, true), line[..|line| - 1])
  {
    S.UnfeedGrow(GrowAll(start.rows, line[..|line| - 1]), line[|line| - 1], log.top);
  }

  lemma {:induction false} PrintAllShows(start: S.Log, log: S.Log, line: seq<byte>, text: seq<byte>)
    requires S.LogOk(start) && Shows(start, log, line) && Plain(text) && |line| + |text| <= L.CAPACITY
    ensures S.LogOk(log) && Shows(start, S.RecordAll(log, S.Printed(text)), line + text)
    decreases |text|
  {
    hide S.Feed, GrowAll;
    if text == [] {
      assert line + text == line;
    } else {
      var c := text[0];
      PrintShows(start, log, line, c);
      PrintAllShows(start, S.Feed(log, c), line + [c], text[1..]);
      assert S.Printed(text)[1..] == S.Printed(text[1..]);
      assert line + [c] + text[1..] == line + text;
    }
  }

  /** The part of the line that a key adds. */
  lemma TypedAdds(line: seq<byte>, k: L.Key)
    requires |line| <= L.CAPACITY && Plain(line) && L.Plain(k) && !k.Backspace?
    ensures var typed := L.Typed(line, k);
            |line| <= |typed| <= L.CAPACITY && typed[..|line|] == line && Plain(typed[|line|..])
  {
  }

  lemma KeyShows(start: S.Log, log: S.Log, line: seq<byte>, k: L.Key)
    requires S.LogOk(start) && Shows(start, log, line) && L.Plain(k)
    ensures S.LogOk(log) && Shows(start, S.RecordAll(log, Echo(line, k)), L.Typed(line, k))
  {
    hide GrowAll, S.Unfeed, S.Feed;
    if k.Backspace? {
      if !k.atOrigin && line != [] {
        EraseShows(start, log, line);
        assert [S.Erase(true)][1..] == [];
        assert S.RecordAll(S.Unfeed(log, true), []) == S.Unfeed(log, true);
      }
    } else {
      TypedAdds(line, k);
      var typed := L.Typed(line, k);
      hide L.Typed;
      PrintAllShows(start, log, line, typed[|line|..]);
      assert line + typed[|line|..] == typed;
    }
  }

  lemma {:induction false} EchoesShow(start: S.Log, log: S.Log, line: seq<byte>, ks: seq<L.Key>)
    requires S.LogOk(start) && Shows(start, log, line) && forall i | 0 <= i < |ks| :: L.Plain(ks[i])
    ensures S.LogOk(log) && Shows(start, S.RecordAll(log, Echoes(line, ks)), L.Edited(line, ks))
    decreases |ks|
  {
    hide Shows, Echo, L.Typed, S.Record, S.LogOk;
    ShowsLog(start, log, line);
    if ks != [] {
      KeyShows(start, log, line, ks[0]);
      var next := S.RecordAll(log, Echo(line, ks[0]));
      EchoesShow(start, next, L.Typed(line, ks[0]), ks[1..]);
      S.RecordBoth(log, Echo(line, ks[0]), Echoes(L.Typed(line, ks[0]), ks[1..]));
    }
  }

  lemma ShowsLog(start: S.Log, log: S.Log, line: seq<byte>)
    requires S.LogOk(start) && Shows(start, log, line)
    ensures S.LogOk(log)
  {
  }

  /**
   * Any keys typed and erased during a read, on a screen that shows its log: afterwards the screen
   * shows the old rows continued by exactly the line that the read will deliver, wrapped at 80
   * columns, with the cursor behind it; only how far the page has scrolled depends on the way there.
   */
  lemma ScreenShowsTheLine(s: S.Screen, log: S.Log, ks: seq<L.Key>)
    requires S.Shows(s, log) && forall i | 0 <= i < |ks| :: L.Plain(ks[i])
    ensures S.LogOk(log) && S.RowsOk(log.rows) && S.ScreenOk(s)
    ensures var after := S.RecordAll(log, Echoes([], ks));
            && after.rows == GrowAll(log.rows, L.Edited([], ks))
            && S.Shows(S.ApplyAll(s, Echoes([], ks)), after)
  {
    S.ShowsOk(s, log);
    assert GrowAll(log.rows, []) == log.rows;
    EchoesShow(log, log, [], ks);
    S.ApplyAllShows(s, log, Echoes([], ks));
  }
}
