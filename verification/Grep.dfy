/**
 * The line scanner of `grep`: a 1024-byte buffer carries the tail of one read over to the next.
 * Whatever the chunk boundaries, it prints exactly the matching pieces of the file, where a piece
 * is a line, or 1024 bytes of one if the line is longer.
 */
module Grep {
  import opened Basics
  import FS = FileSystem

  const BUFSIZE: nat := 1024

  // ---------------------------------------------------------------- pieces and matches

  /** The length of the first piece: up to a newline, the end, or a full buffer. */
  function PieceLength(text: seq<byte>, from: nat := 0): (r: nat)
    requires from <= |text| && from <= BUFSIZE
    ensures from <= r <= |text| && r <= BUFSIZE && (forall i | from <= i < r :: text[i] != NEWLINE)
    ensures r == |text| || r == BUFSIZE || text[r] == NEWLINE
    decreases |text| - from
  {
    if from == |text| || from == BUFSIZE || text[from] == NEWLINE then from else PieceLength(text, from + 1)
  }

  /** What follows the first piece; a newline that ends it is dropped. */
  function AfterPiece(text: seq<byte>): (r: seq<byte>)
    ensures text != [] ==> |r| < |text|
  {
    var n := PieceLength(text);
    if n < BUFSIZE && n < |text| then text[n + 1..] else text[n..]
  }

  /** The text cut at newlines and, within a line, every 1024 bytes. */
  function Pieces(text: seq<byte>): seq<seq<byte>>
    decreases |text|
  {
    if text == [] then [] else [text[..PieceLength(text)]] + Pieces(AfterPiece(text))
  }

  predicate OccursAt(line: seq<byte>, s: seq<byte>, i: nat) {
    i + |s| <= |line| && line[i..i + |s|] == s
  }

  /** The line contains `s`; the empty string is never found. */
  ghost predicate Matches(line: seq<byte>, s: seq<byte>) {
    s != [] && exists i :: 0 <= i < |line| && OccursAt(line, s, i)
  }

  ghost function Hits(pieces: seq<seq<byte>>, s: seq<byte>): seq<seq<byte>> {
    if pieces == [] then [] else (if Matches(pieces[0], s) then [pieces[0]] else []) + Hits(pieces[1..], s)
  }

  /** What is written for one hit. */
  function Printed(fname: seq<byte>, line: seq<byte>): seq<byte> { fname + [58] + line + [NEWLINE] }

  function Report(fname: seq<byte>, hits: seq<seq<byte>>): seq<byte> {
    if hits == [] then [] else Printed(fname, hits[0]) + Report(fname, hits[1..])
  }

  ghost function Output(fname: seq<byte>, text: seq<byte>, s: seq<byte>): seq<byte> {
    Report(fname, Hits(Pieces(text), s))
  }

  lemma HitsCons(line: seq<byte>, rest: seq<seq<byte>>, s: seq<byte>)
    ensures Hits([line] + rest, s) == (if Matches(line, s) then [line] else []) + Hits(rest, s)
  {
    assert ([line] + rest)[1..] == rest;
  }

  lemma ReportCons(fname: seq<byte>, hit: seq<byte>, hits: seq<seq<byte>>)
    ensures Report(fname, [hit] + hits) == Printed(fname, hit) + Report(fname, hits)
  {
    assert ([hit] + hits)[1..] == hits;
  }

  lemma OutputStep(fname: seq<byte>, text: seq<byte>, s: seq<byte>)
    requires text != []
    ensures var line := text[..PieceLength(text)];
            Output(fname, text, s) ==
            (if Matches(line, s) then Printed(fname, line) else []) + Output(fname, AfterPiece(text), s)
  {
    hide Matches, Printed, PieceLength, AfterPiece, Hits, Report;
    var line := text[..PieceLength(text)];
    var rest := Pieces(AfterPiece(text));
    HitsCons(line, rest, s);
    if Matches(line, s) {
      ReportCons(fname, line, Hits(rest, s));
    } else {
      assert [] + Hits(rest, s) == Hits(rest, s);
    }
  }

  lemma PieceLengthIs(text: seq<byte>, from: nat, n: nat)
    requires from <= n <= |text| && n <= BUFSIZE && (forall i | from <= i < n :: text[i] != NEWLINE)
    requires n == |text| || n == BUFSIZE || text[n] == NEWLINE
    ensures PieceLength(text, from) == n
    decreases n - from
  {
    if from < n { PieceLengthIs(text, from + 1, n); }
  }

  // ---------------------------------------------------------------- string helpers

  lemma OccursHas(line: seq<byte>, s: seq<byte>, off: nat, i: nat)
    requires i < |s|
    ensures OccursAt(line, s, off) ==> off + i < |line| && line[off + i] == s[i]
  {
    if OccursAt(line, s, off) { assert line[off..off + |s|][i] == line[off + i]; }
  }

  lemma OccursAtLast(text: seq<byte>, end: nat, s: seq<byte>, off: nat, i: nat)
    requires i + 1 == |s| && off + |s| <= end <= |text|
    requires text[off..off + i] == s[..i] && text[off + i] == s[i]
    ensures OccursAt(text[..end], s, off)
  {
    var found := text[..end][off..off + |s|];
    forall k | 0 <= k < |s| ensures found[k] == s[k] {
      if k < i { assert text[off..off + i][k] == s[..i][k]; }
    }
  }

  /** `ece391_strncmp(data + off, s, strlen(s))`, for data with a NUL at `end`. */
  method StrNCmp(data: array<byte>, off: nat, s: FS.CString, end: nat) returns (r: int)
    requires off <= end < data.Length && data[end] == NUL && NUL !in data[off..end]
    ensures r == 0 <==> OccursAt(data[..end], s, off)
  {
    var n := |s|;
    if n == 0 {
      assert data[..end][off..off + 0] == s;
      return 0;
    }
    var i := 0;
    while data[off + i] == FS.CharAt(s, i)
      invariant 0 <= i < |s| && off + i <= end && n == |s| - i
      invariant data[off..off + i] == s[..i]
      decreases |s| - i
    {
      if data[off + i] == NUL { return 0; }
      assert off + i < end;
      n := n - 1;
      if n == 0 {
        OccursAtLast(data[..], end, s, off, i);
        return 0;
      }
      i := i + 1;
    }
    OccursHas(data[..end], s, off, i);
    r := data[off + i] as int - FS.CharAt(s, i) as int;
  }

  /** `ece391_strcpy(data, data + src)`: the string at `src`, whose NUL is at `end`, moves to the front. */
  method StrCpyDown(data: array<byte>, src: nat, ghost end: nat)
    requires 0 < src <= end < data.Length && data[end] == NUL && (forall k | src <= k < end :: data[k] != NUL)
    modifies data
    ensures data[..end - src] == old(data[src..end]) && data[end - src] == NUL
    ensures forall k | end - src < k < data.Length :: data[k] == old(data[k])
  {
    var i := 0;
    while true
      invariant 0 <= i <= end - src
      invariant forall k | 0 <= k < i :: data[k] == old(data[src + k])
      invariant forall k | i <= k < data.Length :: data[k] == old(data[k])
      decreases end - src - i
    {
      data[i] := data[src + i];
      if data[i] == NUL {
        break;
      }
      i := i + 1;
    }
  }

  lemma NotBefore(text: seq<byte>, i: nat)
    requires NUL !in text
    ensures i < |text| ==> text[i] != NUL
  {
  }

  /** What `ece391_fdputs(1, data + start)` writes: the bytes before the first NUL. */
  method StringAt(data: array<byte>, start: nat, ghost end: nat) returns (text: seq<byte>)
    requires start <= end < data.Length && data[end] == NUL && NUL !in data[start..end]
    ensures text == data[start..end]
  {
    var len := 0;
    while data[start + len] != NUL
      invariant 0 <= len <= end - start
      decreases end - start - len
    {
      assert start + len < end;
      len := len + 1;
    }
    NotBefore(data[start..end], len);
    return data[start..start + len];
  }

  // ---------------------------------------------------------------- the scanner

  /** The search of one line: print it at the first place where `s` occurs. */
  method SearchLine(data: array<byte>, start: nat, end: nat, s: FS.CString, fname: seq<byte>) returns (out: seq<byte>)
    requires start <= end < data.Length && data[end] == NUL && NUL !in data[start..end]
    ensures out == if Matches(data[start..end], s) then Printed(fname, data[start..end]) else []
  {
    ghost var line := data[start..end];
    var check := start;
    while check < end
      invariant start <= check <= end
      invariant s != [] ==> forall i | 0 <= i < check - start :: !OccursAt(line, s, i)
    {
      assert data[..end][check..] == line[check - start..];
      if s != [] { OccursShift(data[..end], s, start, check); }
      if FS.CharAt(s, 0) == data[check] {
        assert data[check] == line[check - start];
        var c := StrNCmp(data, check, s, end);
        if c == 0 {
          assert OccursAt(line, s, check - start);
          var text := StringAt(data, start, end);
          return Printed(fname, text);
        }
      } else if s != [] {
        OccursHas(line, s, check - start, 0);
      }
      check := check + 1;
    }
    return [];
  }

  lemma OccursShift(text: seq<byte>, s: seq<byte>, start: nat, i: nat)
    requires start <= i <= |text|
    ensures OccursAt(text, s, i) <==> OccursAt(text[start..], s, i - start)
  {
    if i + |s| <= |text| { assert text[i..i + |s|] == text[start..][i - start..i - start + |s|]; }
  }

  /** Where the scan of a line stops. */
  method LineEnd(data: array<byte>, start: nat, last: nat) returns (end: nat)
    requires start <= last < data.Length
    ensures start <= end <= last && (forall i | start <= i < end :: data[i] != NEWLINE)
    ensures end < last ==> data[end] == NEWLINE
  {
    end := start;
    while end < last && data[end] != NEWLINE
      invariant start <= end <= last && (forall i | start <= i < end :: data[i] != NEWLINE)
    {
      end := end + 1;
    }
  }

  /** One step of the scan: the piece that ends at `end`, and the text that remains after it. */
  lemma PieceStep(text: seq<byte>, line: seq<byte>, rest: seq<byte>, fname: seq<byte>, s: seq<byte>)
    requires NEWLINE !in line && |line| <= BUFSIZE
    requires || (text == line + [NEWLINE] + rest && |line| < BUFSIZE)
             || (text == line + rest && |line| == BUFSIZE)
             || (text == line && rest == [])
    ensures Output(fname, text, s) == (if Matches(line, s) then Printed(fname, line) else []) + Output(fname, rest, s)
  {
    if text == [] {
      assert line == [] && rest == [];
    } else {
      assert forall i | 0 <= i < |line| :: text[i] == line[i];
      PieceLengthIs(text, 0, |line|);
      assert text[..|line|] == line;
      assert AfterPiece(text) == rest;
      OutputStep(fname, text, s);
    }
  }

  /** Terminate the piece that ends at `end` and report it if it matches. */
  method ReportPiece(
    data: array<byte>, start: nat, end: nat, last: nat, s: FS.CString, fname: seq<byte>, ghost tail: seq<byte>
  ) returns (hit: seq<byte>)
    requires start <= end <= last < data.Length && NUL !in data[start..last] && last - start <= BUFSIZE
    requires forall i | start <= i < end :: data[i] != NEWLINE
    requires if end < last then data[end] == NEWLINE else tail == [] || end - start == BUFSIZE
    modifies data
    ensures data[end] == NUL && forall k | 0 <= k < data.Length && k != end :: data[k] == old(data[k])
    ensures end < last ==> data[end + 1..last] == old(data[end + 1..last]) && NUL !in data[end + 1..last]
    ensures var rest := (if end < last then old(data[end + 1..last]) else []) + tail;
            Output(fname, old(data[start..last]) + tail, s) == hit + Output(fname, rest, s)
  {
    hide Output, Matches, Printed;
    ghost var text := data[start..last] + tail;
    ghost var line := data[start..end];
    ghost var rest := (if end < last then data[end + 1..last] else []) + tail;
    if end < last {
      assert data[start..last] == line + [NEWLINE] + data[end + 1..last];
      assert text == line + [NEWLINE] + rest;
    } else {
      assert rest == tail;
    }
    PieceStep(text, line, rest, fname, s);
    PartsHaveNoNul(data[..], start, end, last);
    data[end] := NUL;
    assert data[start..end] == line;
    hit := SearchLine(data, start, end, s, fname);
  }

  lemma PartsHaveNoNul(text: seq<byte>, start: nat, end: nat, last: nat)
    requires start <= end <= last <= |text| && NUL !in text[start..last]
    ensures NUL !in text[start..end] && (end < last ==> NUL !in text[end + 1..last])
  {
    Rejoined(text, start, end, last);
    if end < last { Rejoined(text, end, end + 1, last); }
  }

  /** An unfinished last line is terminated and moved to the front. */
  method MoveTail(data: array<byte>, start: nat, last: nat)
    requires 0 < start <= last <= BUFSIZE && data.Length == BUFSIZE + 1 && data[BUFSIZE] != NEWLINE
    requires NUL !in data[start..last]
    modifies data
    ensures data[..last - start] == old(data[start..last]) && data[BUFSIZE] != NEWLINE
  {
    ghost var text := data[start..last];
    assert forall k | start <= k < last :: data[k] == text[k - start];
    data[last] := NUL;
    assert data[start..last] == text;
    StrCpyDown(data, start, last);
  }

  /**
   * The inner loop: report the lines in the buffer and move an unfinished last one to the front.
   * `tail` is the part of the file not read yet.
   */
  method ScanBuffer(data: array<byte>, last: nat, cnt: nat, s: FS.CString, fname: seq<byte>, ghost tail: seq<byte>)
    returns (out: seq<byte>, last': nat)
    requires data.Length == BUFSIZE + 1 && data[BUFSIZE] != NEWLINE
    requires last <= BUFSIZE && NUL !in data[..last]
    requires (last == BUFSIZE || tail == []) && (cnt == 0 ==> tail == [])
    modifies data
    ensures data[BUFSIZE] != NEWLINE && last' < BUFSIZE && NUL !in data[..last'] && (cnt == 0 ==> last' == 0)
    ensures Output(fname, old(data[..last]) + tail, s) == out + Output(fname, data[..last'] + tail, s)
  {
    hide Output;
    ghost var all := data[..last] + tail;
    out := [];
    var start := 0;
    assert data[0..last] + tail == all;
    while true
      invariant 0 <= start <= last && (start == last ==> last == 0)
      invariant data[BUFSIZE] != NEWLINE && NUL !in data[start..last]
      invariant Output(fname, all, s) == out + Output(fname, data[start..last] + tail, s)
      decreases last - start
    {
      var end := LineEnd(data, start, last);
      if data[end] != NEWLINE && cnt != 0 && start != 0 {
        MoveTail(data, start, last);
        return out, last - start;
      }
      ghost var rest := if end < last then data[end + 1..last] else [];
      var hit := ReportPiece(data, start, end, last, s, fname, tail);
      Regrouped(out, hit, Output(fname, rest + tail, s));
      out := out + hit;
      start := end + 1;
      if start >= last {
        assert data[..0] == [] == rest;
        return out, 0;
      }
    }
  }

  /** One `ece391_read` behind what the buffer still holds: it is filled up unless the file ends. */
  method Fill(file: FS.OpenFile, data: array<byte>, last: nat) returns (cnt: int)
    requires file.Valid() && data.Length == BUFSIZE + 1 && last < BUFSIZE
    modifies file`position, data
    ensures file.Valid() && data[BUFSIZE] == old(data[BUFSIZE])
    ensures file.inode > FS.MAX_INODE ==> cnt == -1
    ensures file.inode <= FS.MAX_INODE ==>
              var content := FS.Contents(file.img, file.inode);
              && 0 <= cnt <= BUFSIZE - last && file.position == old(file.position) + cnt
              && data[..last + cnt] == old(data[..last]) + content[old(file.position)..file.position]
              && (last + cnt == BUFSIZE || content[file.position..] == [])
              && (cnt == 0 ==> content[file.position..] == [])
  {
    hide FS.Contents, FS.ValidFile, FS.ReadStep;
    FS.ReadKeepsPosition(FS.Contents(file.img, file.inode), file.position, BUFSIZE - last);
    cnt := file.Read(data, last, BUFSIZE - last);
    if cnt != -1 {
      assert data[..last + cnt] == data[..last] + data[last..last + cnt];
      assert data[..last] == old(data[..last]);
    }
  }

  lemma Regroup(before: seq<byte>, content: seq<byte>, from: nat, to: nat)
    requires from <= to <= |content| && NUL !in before && NUL !in content[from..]
    ensures before + content[from..] == before + content[from..to] + content[to..]
    ensures NUL !in before + content[from..to] && NUL !in content[to..]
  {
    Rejoined(content, from, to, |content|);
    assert content[from..|content|] == content[from..] && content[to..|content|] == content[to..];
    Regrouped(before, content[from..to], content[to..]);
  }

  /** `do_one_file` on an open file whose unread part holds no NUL; `data` is the uninitialised buffer. */
  method DoOneFile(file: FS.OpenFile, s: FS.CString, fname: seq<byte>, data: array<byte>)
    returns (status: int, out: seq<byte>)
    requires file.Valid() && data.Length == BUFSIZE + 1 && data[BUFSIZE] != NEWLINE
    requires NUL !in FS.Contents(file.img, file.inode)[file.position..]
    modifies file`position, data
    ensures file.inode <= FS.MAX_INODE ==>
              status == 0 && out == Output(fname, FS.Contents(file.img, file.inode)[old(file.position)..], s)
    ensures file.inode > FS.MAX_INODE ==> status == -1 && out == []
  {
    hide Output, FS.Contents, FS.ValidFile;
    ghost var content := FS.Contents(file.img, file.inode);
    ghost var all := content[file.position..];
    out := [];
    var last := 0;
    assert data[..0] + content[file.position..] == all;
    while true
      invariant file.Valid() && content == FS.Contents(file.img, file.inode)
      invariant 0 <= last < BUFSIZE && data[BUFSIZE] != NEWLINE
      invariant NUL !in data[..last] && NUL !in content[file.position..]
      invariant Output(fname, all, s) == out + Output(fname, data[..last] + content[file.position..], s)
      invariant file.inode > FS.MAX_INODE ==> out == []
      decreases |content| - file.position
    {
      ghost var before, position := data[..last], file.position;
      var cnt := Fill(file, data, last);
      if cnt == -1 { return -1, out; }
      ghost var tail := content[file.position..];
      Regroup(before, content, position, file.position);
      var chunk;
      chunk, last := ScanBuffer(data, last + cnt, cnt, s, fname, tail);
      out := out + chunk;
      if cnt == 0 {
        assert data[..last] + tail == [];
        NoOutput(fname, s);
        break;
      }
    }
    return 0, out;
  }

  lemma NoOutput(fname: seq<byte>, s: seq<byte>)
    ensures Output(fname, [], s) == []
  {
  }

  // ---------------------------------------------------------------- lines

  function AfterLine(text: seq<byte>): (r: seq<byte>)
    ensures text != [] ==> |r| < |text|
  {
    if LineLength(text) < |text| then text[LineLength(text) + 1..] else []
  }

  /** The lines of a text; a last line needs no newline. */
  function Lines(text: seq<byte>): seq<seq<byte>>
    decreases |text|
  {
    if text == [] then [] else [text[..LineLength(text)]] + Lines(AfterLine(text))
  }

  ghost predicate AllShort(lines: seq<seq<byte>>) {
    forall i | 0 <= i < |lines| :: |lines[i]| <= BUFSIZE
  }

  /** A text with a short first line: its first piece is that line. */
  lemma FirstPieceIsLine(text: seq<byte>)
    requires text != [] && LineLength(text) <= BUFSIZE
    ensures Pieces(text) == [text[..LineLength(text)]] + Pieces(AfterPiece(text))
    ensures AfterPiece(text) ==
            if LineLength(text) == BUFSIZE then text[BUFSIZE..]
            else AfterLine(text)
  {
    var n := LineLength(text);
    assert forall i | 0 <= i < n :: text[i] == text[..n][i];
    PieceLengthIs(text, 0, n);
    hide LineLength, PieceLength;
  }

  /** A newline right at the start of a text gives an empty piece. */
  lemma EmptyPiece(rest: seq<byte>)
    requires rest != [] && rest[0] == NEWLINE
    ensures Pieces(rest) == [[]] + Pieces(rest[1..])
  {
    PieceLengthIs(rest, 0, 0);
    assert rest[..0] == [];
  }

  /** The hits among the pieces start with the first line, if it is short and matches. */
  lemma FirstPiece(text: seq<byte>, s: seq<byte>)
    requires text != [] && LineLength(text) <= BUFSIZE
    ensures Hits(Pieces(text), s) ==
            (if Matches(text[..LineLength(text)], s) then [text[..LineLength(text)]] else []) +
            Hits(Pieces(AfterLine(text)), s)
  {
    var n := LineLength(text);
    FirstPieceIsLine(text);
    NoMatch(s);
    HitsCons(text[..n], Pieces(AfterPiece(text)), s);
    hide Matches, Hits, Pieces, AfterPiece, LineLength;
    if n == BUFSIZE && n < |text| {
      EmptyPiece(text[n..]);
      assert text[n..][1..] == AfterLine(text);
      HitsCons([], Pieces(AfterLine(text)), s);
      assert [] + Hits(Pieces(AfterLine(text)), s) == Hits(Pieces(AfterLine(text)), s);
    }
  }

  lemma NoMatch(s: seq<byte>)
    ensures !Matches([], s)
  {
  }

  /** With lines of at most 1024 bytes, the pieces that match are the lines that match. */
  lemma {:induction false} ShortLinesAreFound(text: seq<byte>, s: seq<byte>)
    requires AllShort(Lines(text))
    ensures Hits(Pieces(text), s) == Hits(Lines(text), s)
    decreases |text|
  {
    hide Matches, Pieces;
    if text != [] {
      var line, rest := text[..LineLength(text)], Lines(AfterLine(text));
      assert Lines(text)[0] == line && Lines(text)[1..] == rest;
      FirstPiece(text, s);
      ShortLinesAreFound(AfterLine(text), s);
      HitsCons(line, rest, s);
    } else {
      NoPieces();
    }
  }

  lemma NoPieces()
    ensures Pieces([]) == []
  {
  }

  lemma {:induction false} HitsAre(lines: seq<seq<byte>>, s: seq<byte>, x: seq<byte>)
    ensures x in Hits(lines, s) <==> x in lines && Matches(x, s)
  {
    if lines != [] { HitsAre(lines[1..], s, x); }
  }

  lemma {:induction false} PiecesAreShort(text: seq<byte>, x: seq<byte>)
    requires x in Pieces(text)
    ensures |x| <= BUFSIZE
    decreases |text|
  {
    if x != text[..PieceLength(text)] { PiecesAreShort(AfterPiece(text), x); }
  }

  /**
   * What `grep` is for, and exactly when it does it: for every search string the lines printed are
   * the lines that contain it if and only if no line is longer than the buffer.
   */
  lemma GrepFindsLinesExactly(text: seq<byte>)
    ensures (forall s :: Hits(Pieces(text), s) == Hits(Lines(text), s)) <==> AllShort(Lines(text))
  {
    if AllShort(Lines(text)) {
      forall s ensures Hits(Pieces(text), s) == Hits(Lines(text), s) { ShortLinesAreFound(text, s); }
    } else {
      var i :| 0 <= i < |Lines(text)| && |Lines(text)[i]| > BUFSIZE;
      var line := Lines(text)[i];
      var s := line[..1];
      assert OccursAt(line, s, 0);
      HitsAre(Lines(text), s, line);
      HitsAre(Pieces(text), s, line);
      if line in Pieces(text) { PiecesAreShort(text, line); }
      assert Hits(Pieces(text), s) != Hits(Lines(text), s);
    }
  }

  // ---------------------------------------------------------------- the bytes written

  /** Containing, said without positions. */
  lemma MatchesIsContaining(line: seq<byte>, s: seq<byte>)
    ensures Matches(line, s) <==> s != [] && exists a, b :: line == a + s + b
  {
    if Matches(line, s) {
      var i :| 0 <= i < |line| && OccursAt(line, s, i);
      assert line == line[..i] + s + line[i + |s|..];
    }
    if s != [] && exists a, b :: line == a + s + b {
      var a, b :| line == a + s + b;
      assert line[|a|..|a| + |s|] == s;
      assert OccursAt(line, s, |a|);
    }
  }

  lemma LinesCons(line: seq<byte>, rest: seq<byte>)
    requires NEWLINE !in line
    ensures Lines(line + [NEWLINE] + rest) == [line] + Lines(rest)
  {
    var text := line + [NEWLINE] + rest;
    assert text[..|line|] == line;
    LineLengthIs(text, |line|);
    assert text[|line| + 1..] == rest;
  }

  lemma {:induction false} PiecesHaveNoNewline(text: seq<byte>, x: seq<byte>)
    requires x in Pieces(text)
    ensures NEWLINE !in x
    decreases |text|
  {
    if x != text[..PieceLength(text)] { PiecesHaveNoNewline(AfterPiece(text), x); }
  }

  lemma {:induction false} ReportLines(fname: seq<byte>, hits: seq<seq<byte>>)
    requires NEWLINE !in fname && forall i | 0 <= i < |hits| :: NEWLINE !in hits[i]
    ensures |Lines(Report(fname, hits))| == |hits|
    ensures forall i | 0 <= i < |hits| :: Lines(Report(fname, hits))[i] == fname + [58] + hits[i]
    decreases |hits|
  {
    if hits != [] {
      var line, rest := fname + [58] + hits[0], Report(fname, hits[1..]);
      ReportLines(fname, hits[1..]);
      assert Report(fname, hits) == line + [NEWLINE] + rest;
      LinesCons(line, rest);
    }
  }

  /**
   * The output read back as lines: one for each hit, in order, and each is the file's name, a colon
   * (58) and the hit.
   */
  lemma OutputReadsBack(fname: seq<byte>, text: seq<byte>, s: seq<byte>)
    requires NEWLINE !in fname
    ensures var lines, hits := Lines(Output(fname, text, s)), Hits(Pieces(text), s);
            |lines| == |hits| && forall i | 0 <= i < |hits| ::
              && |lines[i]| == |fname| + 1 + |hits[i]|
              && lines[i][..|fname|] == fname && lines[i][|fname|] == 58 && lines[i][|fname| + 1..] == hits[i]
  {
    var hits := Hits(Pieces(text), s);
    forall i | 0 <= i < |hits| ensures NEWLINE !in hits[i] {
      HitsAre(Pieces(text), s, hits[i]);
      PiecesHaveNoNewline(text, hits[i]);
    }
    ReportLines(fname, hits);
  }

  function WithoutNewlines(text: seq<byte>): seq<byte> {
    if text == [] then [] else (if text[0] == NEWLINE then [] else [text[0]]) + WithoutNewlines(text[1..])
  }

  function Flat(pieces: seq<seq<byte>>): seq<byte> { if pieces == [] then [] else pieces[0] + Flat(pieces[1..]) }

  lemma {:induction false} WithoutPrefix(line: seq<byte>, rest: seq<byte>)
    requires NEWLINE !in line
    ensures WithoutNewlines(line + rest) == line + WithoutNewlines(rest)
    decreases |line|
  {
    if line == [] {
      assert line + rest == rest;
    } else {
      assert (line + rest)[1..] == line[1..] + rest;
      WithoutPrefix(line[1..], rest);
      assert [line[0]] + (line[1..] + WithoutNewlines(rest)) == line + WithoutNewlines(rest);
    }
  }

  /** Cutting into pieces loses nothing but the newlines, long lines included. */
  lemma {:induction false} PiecesKeepEveryByte(text: seq<byte>)
    ensures Flat(Pieces(text)) == WithoutNewlines(text)
    decreases |text|
  {
    if text != [] {
      hide PieceLength, AfterPiece, WithoutNewlines;
      var line, rest := text[..PieceLength(text)], AfterPiece(text);
      assert ([line] + Pieces(rest))[1..] == Pieces(rest);
      PiecesKeepEveryByte(rest);
      FirstPieceKept(text);
    }
  }

  lemma FirstPieceKept(text: seq<byte>)
    requires text != []
    ensures WithoutNewlines(text) == text[..PieceLength(text)] + WithoutNewlines(AfterPiece(text))
  {
    hide PieceLength;
    var n := PieceLength(text);
    var line := text[..n];
    WithoutPrefix(line, text[n..]);
    assert text == line + text[n..];
    if n < BUFSIZE && n < |text| { assert text[n..][0] == NEWLINE && text[n..][1..] == AfterPiece(text); }
  }
}
