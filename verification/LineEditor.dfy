/**
 * The keyboard line of a terminal: keys edit a 128-byte buffer while a read is active, Enter ends
 * the line, `t_read` hands it over and `sys_getargs` later returns what follows the command.
 */
module LineEditor {
  import opened Basics
  import FS = FileSystem

  const SIZE: nat := 128
  const CAPACITY: nat := 127

  /** A key that reaches the buffer; `atOrigin` says that the cursor is in the top left corner. */
  datatype Key = Char(c: byte) | Space | Tab | Backspace(atOrigin: bool)

  /** The key table has no blank, tab, newline or carriage return. */
  predicate Plain(k: Key) {
    k.Char? ==> k.c != NUL && k.c != SPACE && k.c != TAB && k.c != NEWLINE && k.c != RETURN
  }

  // ---------------------------------------------------------------- the editor as typed

  function Typed(line: seq<byte>, k: Key): seq<byte> {
    match k
    case Char(c) => if |line| < CAPACITY then line + [c] else line
    case Space => if |line| < CAPACITY then line + [SPACE] else line
    case Tab => line + Blanks(if |line| + 4 <= CAPACITY then 4 else if |line| < CAPACITY then CAPACITY - |line| else 0)
    case Backspace(atOrigin) => if atOrigin || line == [] then line else line[..|line| - 1]
  }

  function Blanks(n: nat): (r: seq<byte>)
    ensures |r| == n && forall i | 0 <= i < n :: r[i] == SPACE
  {
    seq(n, _ => SPACE)
  }

  function Edited(line: seq<byte>, ks: seq<Key>): seq<byte>
    decreases |ks|
  {
    if ks == [] then line else Edited(Typed(line, ks[0]), ks[1..])
  }

  predicate LineOk(line: seq<byte>) {
    |line| <= CAPACITY && NoStop(line)
  }

  predicate NoStop(line: seq<byte>) {
    forall i | 0 <= i < |line| :: line[i] != NUL && line[i] != NEWLINE
  }

  lemma TypedOk(line: seq<byte>, k: Key)
    requires LineOk(line) && Plain(k)
    ensures LineOk(Typed(line, k))
  {
  }

  // ---------------------------------------------------------------- the words of a line

  /** Where the first space of the line is, or its length. */
  function FirstSpace(line: seq<byte>): (r: nat)
    ensures r <= |line| && (forall i | 0 <= i < r :: line[i] != SPACE) && (r < |line| ==> line[r] == SPACE)
  {
    if line == [] || line[0] == SPACE then 0 else 1 + FirstSpace(line[1..])
  }

  function FirstWord(line: seq<byte>): seq<byte> { line[..FirstSpace(line)] }

  /** What follows the first space; none if there is no space. */
  function Rest(line: seq<byte>): Option<seq<byte>> {
    if FirstSpace(line) < |line| then Some(line[FirstSpace(line) + 1..]) else None
  }

  /** As a read delivers it: every space is a NUL. */
  function Nulled(line: seq<byte>): (r: seq<byte>)
    ensures |r| == |line| && forall i | 0 <= i < |line| :: r[i] == if line[i] == SPACE then NUL else line[i]
  {
    seq(|line|, i requires 0 <= i < |line| => if line[i] == SPACE then NUL else line[i])
  }

  /** `text` begins with the line as a read delivers it. */
  predicate Holds(text: seq<byte>, line: seq<byte>) {
    |line| < |text| && text[..|line|] == Nulled(line) && text[|line|] == NEWLINE
  }

  /** The argument bytes `sys_getargs` copies out; none for its error. */
  function Arguments(line: seq<byte>, nbytes: int): Option<seq<byte>> {
    var n := Min(nbytes, SIZE);
    if FirstSpace(line) >= n then
      (if 0 < |line| && line[0] == SPACE then None
       else if n <= 0 then Some([])
       else Some(line[..n]))
    else match Rest(line)
      case None => None
      case Some(rest) =>
        if rest != [] && rest[0] == SPACE then None
        else Some(FirstWord(rest)[..Min(|FirstWord(rest)|, n - (FirstSpace(line) + 1))])
  }

  // ---------------------------------------------------------------- what the editor promises

  /** The bytes a key adds when there is room. */
  function Adds(k: Key): seq<byte> {
    match k
    case Char(c) => [c]
    case Space => [SPACE]
    case Tab => Blanks(4)
    case Backspace(_) => []
  }

  function AddsAll(ks: seq<Key>): seq<byte> {
    if ks == [] then [] else Adds(ks[0]) + AddsAll(ks[1..])
  }

  function Cut(s: seq<byte>): seq<byte> { if |s| <= CAPACITY then s else s[..CAPACITY] }

  lemma TypedAdds(line: seq<byte>, k: Key)
    requires |line| <= CAPACITY && !k.Backspace?
    ensures Typed(line, k) == Cut(line + Adds(k))
  {
  }

  lemma CutTwice(a: seq<byte>, b: seq<byte>, c: seq<byte>)
    ensures Cut(Cut(a + b) + c) == Cut(a + (b + c))
  {
    assert a + (b + c) == a + b + c;
    var s := a + b;
    if |s| > CAPACITY { assert (s + c)[..CAPACITY] == s[..CAPACITY] == (s[..CAPACITY] + c)[..CAPACITY]; }
  }

  /** Without backspaces the line is what was typed, a tab being four spaces, cut at 127 bytes. */
  lemma {:induction false} EditedIsTyped(line: seq<byte>, ks: seq<Key>)
    requires |line| <= CAPACITY && forall i | 0 <= i < |ks| :: !ks[i].Backspace?
    ensures Edited(line, ks) == Cut(line + AddsAll(ks))
    decreases |ks|
  {
    if ks == [] {
      assert line + [] == line;
    } else {
      TypedAdds(line, ks[0]);
      var k, rest, next := ks[0], ks[1..], Typed(line, ks[0]);
      assert |next| <= CAPACITY;
      hide Typed, Adds, Cut;
      EditedIsTyped(next, rest);
      CutTwice(line, Adds(k), AddsAll(rest));
    }
  }

  lemma {:induction false} EditedAppend(line: seq<byte>, ks: seq<Key>, k: Key)
    ensures Edited(line, ks + [k]) == Typed(Edited(line, ks), k)
    decreases |ks|
  {
    if ks == [] {
      assert Edited(Typed(line, k), []) == Typed(line, k);
    } else {
      assert (ks + [k])[1..] == ks[1..] + [k];
      EditedAppend(Typed(line, ks[0]), ks[1..], k);
    }
  }

  /** However the keys are mixed, the line stays within 127 bytes and has no stop character. */
  lemma {:induction false} EditedOk(line: seq<byte>, ks: seq<Key>)
    requires LineOk(line) && forall i | 0 <= i < |ks| :: Plain(ks[i])
    ensures LineOk(Edited(line, ks))
    decreases |ks|
  {
    if ks != [] {
      TypedOk(line, ks[0]);
      EditedOk(Typed(line, ks[0]), ks[1..]);
    }
  }

  function WithoutIdle(ks: seq<Key>): seq<Key> {
    if ks == [] then []
    else (if ks[0] == Backspace(true) then [] else [ks[0]]) + WithoutIdle(ks[1..])
  }

  /** A backspace with the cursor in the top left corner, or on an empty line, might as well not be pressed. */
  lemma {:induction false} IdleBackspaces(line: seq<byte>, ks: seq<Key>)
    ensures Edited(line, WithoutIdle(ks)) == Edited(line, ks)
    ensures Edited([], [Backspace(false)] + ks) == Edited([], ks)
    decreases |ks|
  {
    assert ([Backspace(false)] + ks)[1..] == ks;
    if ks != [] {
      var rest := WithoutIdle(ks[1..]);
      IdleBackspaces(Typed(line, ks[0]), ks[1..]);
      assert ([ks[0]] + rest)[1..] == rest;
      assert [] + rest == rest;
    }
  }

  /** Backspace takes back the key before it exactly when that key added exactly one byte. */
  lemma BackspaceUndoesExactly(ks: seq<Key>, k: Key)
    requires !k.Backspace? && Plain(k) && forall i | 0 <= i < |ks| :: Plain(ks[i])
    ensures var line := Edited([], ks);
            Edited([], ks + [k] + [Backspace(false)]) == line <==>
            if k.Tab? then |line| == CAPACITY - 1 else |line| < CAPACITY
  {
    EditedAppend([], ks, k);
    EditedAppend([], ks + [k], Backspace(false));
    EditedOk([], ks);
    var line := Edited([], ks);
    var longer := Typed(line, k);
    assert |longer| == |line| + 1 ==> longer[..|line|] == line;
  }

  /**
   * What `sys_getargs` returns for a typed line. Given room for the command and the argument it is
   * the second word; with a smaller buffer that still sees the separator, the word is cut; and a
   * buffer no longer than the command receives the beginning of the command instead.
   */
  lemma ArgumentsAreSecondWord(line: seq<byte>, nbytes: int)
    requires LineOk(line) && 0 < nbytes
    ensures FirstSpace(line) < nbytes ==>
              (Arguments(line, nbytes).None? <==>
                 Rest(line).None? || (Rest(line).value != [] && Rest(line).value[0] == SPACE))
    ensures FirstSpace(line) < nbytes && Arguments(line, nbytes).Some? ==>
              (Arguments(line, nbytes) == Some(FirstWord(Rest(line).value)) <==>
                 nbytes >= FirstSpace(line) + 1 + |FirstWord(Rest(line).value)|)
    ensures FirstSpace(line) >= nbytes ==> Arguments(line, nbytes) == Some(FirstWord(line)[..nbytes])
  {
    if FirstSpace(line) >= nbytes {
      assert FirstWord(line)[..nbytes] == line[..nbytes];
    } else if Rest(line).Some? {
      var word := FirstWord(Rest(line).value);
      var kept := Min(|word|, Min(nbytes, SIZE) - (FirstSpace(line) + 1));
      assert |word[..kept]| == kept;
      assert word[..|word|] == word;
    }
  }

  /** Once the newline of a delivered line is overwritten by NUL, the string is the first word. */
  lemma CommandIsFirstWord(text: seq<byte>, line: seq<byte>)
    requires LineOk(line) && Holds(text, line)
    ensures FS.CName(text[|line| := NUL]) == FirstWord(line)
  {
    Stops(text, line);
    var cut := text[|line| := NUL];
    assert forall i | 0 <= i < FirstSpace(line) :: cut[i] == line[i];
    assert cut[..FirstSpace(line)] == FirstWord(line);
    FS.CNameUnique(cut, FirstSpace(line));
  }

  /** What the shell does with the `cnt` bytes of a line read: the string it then executes is its first word. */
  method ShellCommand(buf: array<byte>, cnt: nat, ghost line: seq<byte>)
    requires LineOk(line) && Holds(buf[..], line) && cnt == |line| + 1
    modifies buf
    ensures FS.CName(buf[..]) == FirstWord(line)
    ensures forall k | 0 <= k < buf.Length && k != |line| :: buf[k] == old(buf[k])
  {
    CommandIsFirstWord(buf[..], line);
    var n := cnt;
    if n > 0 && buf[n - 1] == NEWLINE { n := n - 1; }
    buf[n] := NUL;
    assert buf[..] == old(buf[..])[|line| := NUL];
  }

  /** Where a word of the stored text stops. */
  predicate StopsAt(text: seq<byte>, i: nat)
    requires i < |text|
  {
    text[i] == NUL || text[i] == NEWLINE
  }

  /** The stored text stops exactly where the line has a space or ends. */
  lemma Stops(text: seq<byte>, line: seq<byte>)
    requires LineOk(line) && Holds(text, line)
    ensures forall i | 0 <= i < |line| ::
              text[i] != SPACE && text[i] != NEWLINE && (text[i] == NUL <==> line[i] == SPACE)
    ensures forall i | 0 <= i < |line| && line[i] != SPACE :: text[i] == line[i]
    ensures |line| <= CAPACITY && |line| < |text| && text[|line|] == NEWLINE && NoStop(line)
  {
    var r := Nulled(line);
    assert forall i | 0 <= i < |line| :: text[i] == text[..|line|][i] == r[i];
  }

  /** The bytes from the start of the arguments to the next stop within the limit are `Arguments`. */
  lemma CopiedArguments(text: seq<byte>, line: seq<byte>, nbytes: int, start: nat, end: nat)
    requires LineOk(line) && Holds(text, line)
    requires var n, sp := Min(nbytes, SIZE), FirstSpace(line);
             && (sp < n ==> sp < |line|) && start == (if sp < n then sp + 1 else 0)
             && start <= end <= |text| && (end <= n || end == start)
             && (end < n ==> end < |text| && StopsAt(text, end))
    requires text[start] != NUL && forall i | start <= i < end :: !StopsAt(text, i)
    ensures Arguments(line, nbytes) == Some(text[start..end])
  {
    hide LineOk, Holds, NoStop, StopsAt, Nulled, FirstWord;
    Stops(text, line);
    var n, sp := Min(nbytes, SIZE), FirstSpace(line);
    if sp < n {
      SecondWord(text, line, n, end);
    } else if n > 0 {
      FirstBytes(text, line, n, end);
    }
  }

  lemma FirstBytes(text: seq<byte>, line: seq<byte>, n: nat, end: nat)
    requires n <= FirstSpace(line) && |line| < |text| && end <= n
    requires forall i | 0 <= i < |line| && line[i] != SPACE :: text[i] == line[i]
    requires NoStop(line) && (end < n ==> StopsAt(text, end))
    ensures end == n && text[..end] == line[..n]
  {
  }

  lemma StartsPlain(text: seq<byte>, line: seq<byte>, start: nat)
    requires start <= |line| < |text|
    requires forall i | 0 <= i < |line| :: text[i] == NUL <==> line[i] == SPACE
    ensures text[start] != NUL ==> line[start..] == [] || line[start..][0] != SPACE
  {
  }

  /** Behind the first space: the text has the bytes of the next word and stops right after them. */
  lemma WordThenStop(text: seq<byte>, line: seq<byte>)
    requires FirstSpace(line) < |line| < |text|
    requires forall i | 0 <= i < |line| ::
               text[i] != SPACE && text[i] != NEWLINE && (text[i] == NUL <==> line[i] == SPACE)
    requires forall i | 0 <= i < |line| && line[i] != SPACE :: text[i] == line[i]
    requires text[|line|] == NEWLINE
    ensures var start, rest := FirstSpace(line) + 1, line[FirstSpace(line) + 1..];
            && start + FirstSpace(rest) <= |line|
            && (forall i | 0 <= i < FirstSpace(rest) :: text[start + i] == rest[i])
            && (forall i | start <= i < start + FirstSpace(rest) :: !StopsAt(text, i))
            && StopsAt(text, start + FirstSpace(rest))
  {
    hide FirstSpace;
    var start := FirstSpace(line) + 1;
    var rest := line[start..];
    var len := FirstSpace(rest);
    forall i | 0 <= i < len ensures text[start + i] == rest[i] { assert line[start + i] == rest[i]; }
    forall i | start <= i < start + len ensures !StopsAt(text, i) { assert line[i] == rest[i - start]; }
    if len < |rest| { assert line[start + len] == rest[len]; }
  }

  lemma SecondWord(text: seq<byte>, line: seq<byte>, n: nat, end: nat)
    requires FirstSpace(line) < n && FirstSpace(line) < |line| < |text|
    requires forall i | 0 <= i < |line| ::
               text[i] != SPACE && text[i] != NEWLINE && (text[i] == NUL <==> line[i] == SPACE)
    requires forall i | 0 <= i < |line| && line[i] != SPACE :: text[i] == line[i]
    requires text[|line|] == NEWLINE
    requires var start := FirstSpace(line) + 1;
             && start <= end <= n && end <= |text| && (end < n ==> end < |text| && StopsAt(text, end))
             && text[start] != NUL && forall i | start <= i < end :: !StopsAt(text, i)
    ensures var start, rest := FirstSpace(line) + 1, line[FirstSpace(line) + 1..];
            && (rest == [] || rest[0] != SPACE)
            && text[start..end] == FirstWord(rest)[..Min(|FirstWord(rest)|, n - start)]
  {
    hide FirstSpace, StopsAt;
    WordThenStop(text, line);
    var start := FirstSpace(line) + 1;
    var rest := line[start..];
    var len := FirstSpace(rest);
    assert text[start] != NUL ==> rest == [] || rest[0] != SPACE by { StartsPlain(text, line, start); }
    assert end == Min(start + len, n);
    SameSlice(text, rest, start, end);
    PrefixOfPrefix(rest, len, end - start);
  }

  lemma SameSlice(text: seq<byte>, rest: seq<byte>, start: nat, end: nat)
    requires start <= end <= |text| && end - start <= |rest|
    requires forall i | 0 <= i < end - start :: text[start + i] == rest[i]
    ensures text[start..end] == rest[..end - start]
  {
  }

  // ---------------------------------------------------------------- the driver

  class Editor {
    const kbBuff: array<byte>
    const getArgsBuf: array<byte>
    var kbIdx: int
    var reading: bool
    ghost var line: seq<byte>           // the line as edited
    ghost var entered: bool             // Enter has ended it and no read has taken it yet
    ghost var last: Option<seq<byte>>   // the line whose arguments can still be asked for

    ghost predicate Valid()
      reads this, kbBuff, getArgsBuf
    {
      && kbBuff != getArgsBuf && kbBuff.Length == getArgsBuf.Length == SIZE
      && LineOk(line) && kbBuff[..|line|] == line
      && (if entered then kbIdx == 0 && kbBuff[|line|] == NEWLINE
          else kbIdx == |line| && forall i | 0 <= i < SIZE :: kbBuff[i] != NEWLINE)
      && match last
         case Some(text) => LineOk(text) && Holds(getArgsBuf[..], text)
         case None => forall i | 0 <= i < SIZE :: getArgsBuf[i] == NUL
    }

    /** Zeroed variables, as at boot. */
    constructor ()
      ensures Valid() && line == [] && !entered && !reading && last.None? && fresh(kbBuff) && fresh(getArgsBuf)
    {
      kbBuff := new byte[SIZE](_ => NUL);
      getArgsBuf := new byte[SIZE](_ => NUL);
      kbIdx, reading, line, entered, last := 0, false, [], false, None;
    }

    /** One byte into the buffer, unless it is full. */
    method Insert(c: byte)
      requires Valid() && !entered && c != NUL && c != NEWLINE
      modifies this`kbIdx, this`line, kbBuff
      ensures Valid() && line == if |old(line)| < CAPACITY then old(line) + [c] else old(line)
    {
      if kbIdx != SIZE - 1 {
        kbBuff[kbIdx] := c;
        kbIdx := kbIdx + 1;
        line := line + [c];
      }
    }

    /** A key that edits the line; ignored unless the terminal is reading. */
    method Press(k: Key)
      requires Valid() && !entered && Plain(k)
      modifies this`kbIdx, this`line, kbBuff
      ensures Valid() && line == if reading then Typed(old(line), k) else old(line)
    {
      if !reading { return; }
      match k
      case Char(c) => Insert(c);
      case Space => Insert(SPACE);
      case Tab => PressTab();
      case Backspace(atOrigin) =>
        if atOrigin || kbIdx <= 0 { return; }
        kbIdx := kbIdx - 1;
        kbBuff[kbIdx] := TAB;
        line := line[..|line| - 1];
    }

    method PressTab()
      requires Valid() && !entered
      modifies this`kbIdx, this`line, kbBuff
      ensures Valid() && line == Typed(old(line), Tab)
    {
      ghost var was := line;
      var i := 0;
      while i < 4
        invariant 0 <= i <= 4 && Valid()
        invariant line == was + Blanks(if |was| + i <= CAPACITY then i else CAPACITY - |was|)
      {
        Insert(SPACE);
        i := i + 1;
      }
    }

    /** The Enter key. */
    method PressEnter()
      requires Valid() && !entered
      modifies this`kbIdx, this`entered, kbBuff
      ensures Valid() && entered == reading
    {
      if !reading { return; }
      kbBuff[kbIdx] := NEWLINE;
      kbIdx := 0;
      entered := true;
    }

    /** The entry of `t_read`. */
    method ReadEnter()
      requires Valid()
      modifies this`reading
      ensures Valid() && reading
    {
      reading := true;
    }

    /**
     * One pass of its loop over the buffer. The read ends exactly when Enter was pressed and the
     * caller's buffer has room for the line and its newline; then the line is handed over.
     */
    method ReadPass(buf: array<byte>, nbytes: int) returns (done: bool, count: nat)
      requires Valid() && buf != kbBuff && buf != getArgsBuf && buf.Length >= SIZE && nbytes <= buf.Length
      modifies this`reading, this`line, this`entered, this`last, kbBuff, getArgsBuf, buf
      ensures Valid() && done == (old(entered) && |old(line)| < Min(nbytes, SIZE))
      ensures done ==> !reading && line == [] && !entered && last == Some(old(line))
      ensures done ==> count == |old(line)| + 1 && Holds(buf[..], old(line)) && buf[..SIZE] == getArgsBuf[..]
      ensures !done ==> reading == old(reading) && line == old(line) && entered == old(entered) && last == old(last)
      ensures forall k | 0 <= k < buf.Length && k >= nbytes :: buf[k] == old(buf[k])
    {
      done, count := CopyLine(buf, nbytes);
      if !done { return; }
      assert Holds(buf[..], line);
      last := Some(line);
      FillTabs();
      CopyArgs(buf);
      reading, line, entered := false, [], false;
    }

    /** The inner loop: copy up to the newline, writing each space as NUL. */
    method CopyLine(buf: array<byte>, nbytes: int) returns (done: bool, count: nat)
      requires Valid() && buf != kbBuff && buf != getArgsBuf && buf.Length >= SIZE && nbytes <= buf.Length
      modifies buf
      ensures Valid() && done == (entered && |line| < Min(nbytes, SIZE))
      ensures done ==> count == |line| + 1 && Holds(buf[..], line)
      ensures forall k | 0 <= k < buf.Length && k >= nbytes :: buf[k] == old(buf[k])
    {
      var bound := if nbytes > SIZE then SIZE else nbytes;
      var i := 0;
      while i < bound
        invariant 0 <= i && (i <= bound || i == 0)
        invariant entered ==> i <= |line|
        invariant forall k | 0 <= k < i :: buf[k] == if kbBuff[k] == SPACE then NUL else kbBuff[k]
        invariant forall k | 0 <= k < buf.Length && k >= i :: buf[k] == old(buf[k])
      {
        buf[i] := kbBuff[i];
        assert i < |line| ==> kbBuff[i] == line[i];
        if kbBuff[i] == NEWLINE {
          assert buf[..i] == Nulled(line);
          return true, i + 1;
        }
        if kbBuff[i] == SPACE { buf[i] := NUL; }
        i := i + 1;
      }
      return false, 0;
    }

    method FillTabs()
      requires kbBuff.Length == SIZE
      modifies kbBuff
      ensures forall k | 0 <= k < SIZE :: kbBuff[k] == TAB
    {
      for i := 0 to SIZE
        invariant forall k | 0 <= k < i :: kbBuff[k] == TAB
      {
        kbBuff[i] := TAB;
      }
    }

    method CopyArgs(buf: array<byte>)
      requires getArgsBuf.Length == SIZE <= buf.Length && buf != getArgsBuf
      modifies getArgsBuf
      ensures getArgsBuf[..] == buf[..SIZE]
    {
      for i := 0 to SIZE
        invariant forall k | 0 <= k < i :: getArgsBuf[k] == buf[k]
      {
        getArgsBuf[i] := buf[i];
      }
    }

    /** `sys_getargs`; a call that succeeds uses the arguments up. */
    method GetArgs(buf: array<byte>, nbytes: int) returns (r: int)
      requires Valid() && buf != kbBuff && buf != getArgsBuf && nbytes <= buf.Length
      modifies this`last, getArgsBuf, buf
      ensures Valid() && last == if r == 0 then None else old(last)
      ensures var found := if old(last).Some? then Arguments(old(last).value, nbytes) else None;
              if found.None? then r == -1 && forall k | 0 <= k < nbytes :: buf[k] == NUL
              else r == 0 && |found.value| <= buf.Length && buf[..|found.value|] == found.value
                   && forall k | |found.value| <= k < nbytes :: buf[k] == NUL
      ensures forall k | 0 <= k < buf.Length && k >= nbytes :: buf[k] == old(buf[k])
    {
      hide Arguments, Holds, StopsAt, NoStop, LineOk, FirstSpace;
      ClearOut(buf, nbytes);
      var n := if nbytes > SIZE then SIZE else nbytes;
      var none, start := FindArguments(n);
      NoArguments(nbytes);
      if none || getArgsBuf[start] == NUL { return -1; }
      var end := CopyWord(buf, start, n);
      CopiedArguments(getArgsBuf[..], last.value, nbytes, start, end);
      ClearArgs();
      last := None;
      return 0;
    }

    /** When there is nothing to copy, `Arguments` is none. */
    lemma NoArguments(nbytes: int)
      requires Valid()
      ensures last.Some? ==>
        var n, sp := Min(nbytes, SIZE), FirstSpace(last.value);
        Arguments(last.value, nbytes).None? <==>
          sp == |last.value| < n || getArgsBuf[if sp < n then sp + 1 else 0] == NUL
    {
      if last.Some? { Stops(getArgsBuf[..], last.value); }
    }

    method ClearOut(buf: array<byte>, nbytes: int)
      requires nbytes <= buf.Length
      modifies buf
      ensures forall k | 0 <= k < nbytes :: buf[k] == NUL
      ensures forall k | 0 <= k < buf.Length && k >= nbytes :: buf[k] == old(buf[k])
    {
      for i := 0 to if nbytes < 0 then 0 else nbytes
        invariant forall k | 0 <= k < i :: buf[k] == NUL
        invariant forall k | 0 <= k < buf.Length && k >= i :: buf[k] == old(buf[k])
      {
        buf[i] := NUL;
      }
    }

    method CopyWord(buf: array<byte>, start: nat, n: int) returns (end: nat)
      requires getArgsBuf.Length == SIZE && buf != getArgsBuf && start <= SIZE && n <= SIZE && n <= buf.Length
      modifies buf
      ensures start <= end <= SIZE && (end <= n || end == start) && end - start <= buf.Length
      ensures end < n ==> StopsAt(getArgsBuf[..], end)
      ensures forall i | start <= i < end :: !StopsAt(getArgsBuf[..], i)
      ensures buf[..end - start] == getArgsBuf[start..end]
      ensures forall k | end - start <= k < buf.Length :: buf[k] == old(buf[k])
    {
      end := start;
      while end < n
        invariant start <= end <= SIZE && (end <= n || end == start) && end - start <= buf.Length
        invariant forall i | start <= i < end :: !StopsAt(getArgsBuf[..], i)
        invariant forall k | 0 <= k < end - start :: buf[k] == getArgsBuf[start + k]
        invariant forall k | end - start <= k < buf.Length :: buf[k] == old(buf[k])
      {
        if getArgsBuf[end] == NUL || getArgsBuf[end] == NEWLINE { break; }
        buf[end - start] := getArgsBuf[end];
        end := end + 1;
      }
    }

    /** The search for the separator; `none` if the line ends first, 0 if it is out of sight. */
    method FindArguments(n: int) returns (none: bool, start: nat)
      requires Valid() && n <= SIZE
      ensures start < SIZE
      ensures last.None? ==> !none && start == if n > 0 then 1 else 0
      ensures last.Some? ==> var sp := FirstSpace(last.value);
                             && none == (sp == |last.value| < n)
                             && (!none ==> start == if sp < n then sp + 1 else 0)
    {
      var i := 0;
      start := 0;
      if last.Some? { Stops(getArgsBuf[..], last.value); }
      while i < n
        invariant 0 <= i && (i <= n || i == 0)
        invariant last.Some? ==> i <= FirstSpace(last.value)
        invariant last.None? ==> i == 0
      {
        if getArgsBuf[i] == NEWLINE { return true, 0; }
        if getArgsBuf[i] == SPACE || getArgsBuf[i] == NUL { return false, i + 1; }
        i := i + 1;
      }
      return false, 0;
    }

    method ClearArgs()
      requires getArgsBuf.Length == SIZE
      modifies getArgsBuf
      ensures forall k | 0 <= k < SIZE :: getArgsBuf[k] == NUL
    {
      for i := 0 to SIZE
        invariant forall k | 0 <= k < i :: getArgsBuf[k] == NUL
      {
        getArgsBuf[i] := NUL;
      }
    }
  }
}
