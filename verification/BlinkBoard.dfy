/** The blinkers of `fish` as a list, most recently added first, and the screen they write to. */
module BlinkBoard {
  import opened Basics
  import opened Blinkers

  const SCREEN: nat := 4096

  datatype Board = Board(list: seq<Blinker>, screen: seq<byte>)

  datatype Op =
    | Add(user: Blinker)
    | Remove(arg: nat)   // low 16 bits: the location
    | Sync(arg: nat)     // high 16 bits: the source location, low 16 bits: the target
    | Tick

  ghost predicate BoardOk(d: Board) {
    && |d.screen| == SCREEN && |d.list| <= CELLS
    && forall i | 0 <= i < |d.list| :: Words(d.list[i]) && 0 < d.list[i].location < CELLS
  }

  /** Location 0 marks a free slot, so it is never added. */
  ghost predicate Proper(op: Op) {
    match op
    case Add(user) => Words(user) && user.location != 0
    case _ => true
  }

  /** The most recently added blinker at a location. */
  function FirstAt(list: seq<Blinker>, location: nat): (r: Option<nat>)
    ensures r.Some? ==> r.value < |list| && list[r.value].location == location
                        && forall i | 0 <= i < r.value :: list[i].location != location
    ensures r.None? ==> forall i | 0 <= i < |list| :: list[i].location != location
  {
    if list == [] then None
    else if list[0].location == location then Some(0)
    else match FirstAt(list[1..], location)
      case None => None
      case Some(k) =>
        assert forall i | 0 <= i < k + 1 :: i > 0 ==> list[i] == list[1..][i - 1];
        Some(k + 1)
  }

  lemma {:induction false} FirstAtIs(list: seq<Blinker>, location: nat, k: nat)
    requires k < |list| && list[k].location == location && forall i | 0 <= i < k :: list[i].location != location
    ensures FirstAt(list, location) == Some(k)
  {
    if k > 0 {
      assert forall i | 0 <= i < k - 1 :: list[1..][i] == list[i + 1];
      FirstAtIs(list[1..], location, k - 1);
    }
  }

  function Poke(screen: seq<byte>, location: nat, c: byte): seq<byte>
    requires |screen| == SCREEN && location < CELLS
  {
    screen[2 * location := c]
  }

  /** One tick of every blinker, head first; those that change state draw. */
  function TickList(list: seq<Blinker>, screen: seq<byte>): (r: Board)
    requires |screen| == SCREEN && forall i | 0 <= i < |list| :: list[i].location < CELLS
    ensures |r.list| == |list| && |r.screen| == SCREEN
    ensures forall i | 0 <= i < |list| :: r.list[i] == Ticked(list[i]).0
  {
    if list == [] then Board([], screen)
    else
      var (b, changed) := Ticked(list[0]);
      var rest := TickList(list[1..], if changed then Poke(screen, b.location, Shown(b)) else screen);
      Board([b] + rest.list, rest.screen)
  }

  function Without(list: seq<Blinker>, k: nat): seq<Blinker>
    requires k < |list|
  {
    list[..k] + list[k + 1..]
  }

  ghost function Step(d: Board, op: Op): (Board, int)
    requires BoardOk(d)
  {
    match op
    case Add(user) =>
      if user.location >= CELLS || |d.list| == CELLS then (d, -1)
      else (Board([Started(user)] + d.list, Poke(d.screen, user.location, user.onChar)), 0)
    case Remove(arg) =>
      (match FirstAt(d.list, arg % WORD)
       case None => (d, -1)
       case Some(k) => (d.(list := Without(d.list, k)), 0))
    case Sync(arg) =>
      var source, target := FirstAt(d.list, arg / WORD % WORD), FirstAt(d.list, arg % WORD);
      if source.None? || target.None? then (d, -1)
      else
        var b := Synced(d.list[source.value], d.list[target.value]);
        (Board(d.list[target.value := b], Poke(d.screen, b.location, b.offChar)), 0)
    case Tick => (TickList(d.list, d.screen), 0)
  }

  lemma StepOk(d: Board, op: Op)
    requires BoardOk(d) && Proper(op)
    ensures BoardOk(Step(d, op).0)
  {
    match op
    case Tick =>
      var r := TickList(d.list, d.screen);
      forall i | 0 <= i < |r.list| ensures Words(r.list[i]) && 0 < r.list[i].location < CELLS { TickLasts(d.list[i]); }
    case _ =>
  }

  // ---------------------------------------------------------------- what each operation does

  ghost predicate LiveAt(list: seq<Blinker>, location: nat) {
    exists i | 0 <= i < |list| :: list[i].location == location
  }

  /** Only the character in the cell at `location` may differ, and it is `c` now. */
  ghost predicate Drawn(screen: seq<byte>, screen': seq<byte>, location: nat, c: byte) {
    && |screen| == |screen'| == SCREEN && 2 * location < SCREEN && screen'[2 * location] == c
    && forall i | 0 <= i < SCREEN && i != 2 * location :: screen'[i] == screen[i]
  }

  /**
   * Adding succeeds exactly for a location on the screen while fewer than 2000 blinkers live. The new
   * blinker is on with a full countdown, comes before all others, and draws its on character; it is
   * the one that its location finds from now on.
   */
  lemma AddOutcome(d: Board, user: Blinker)
    requires BoardOk(d) && Proper(Add(user))
    ensures var (r, status) := Step(d, Add(user));
            && (status == 0 <==> user.location < 2000 && |d.list| < 2000)
            && (status != 0 ==> status == -1 && r == d)
            && (status == 0 ==>
                  && |r.list| == |d.list| + 1 && r.list[1..] == d.list
                  && r.list[0] == user.(status := 1, countdown := user.onLength)
                  && Drawn(d.screen, r.screen, user.location, user.onChar)
                  && FirstAt(r.list, user.location) == Some(0))
  {
    var r := Step(d, Add(user)).0;
    if Step(d, Add(user)).1 == 0 { FirstAtIs(r.list, user.location, 0); }
  }

  /**
   * Removing succeeds exactly if a blinker has the location. Then exactly the most recently added
   * one of them is gone: one fewer is in the list, the others keep their order, and the screen stays.
   */
  lemma RemoveOutcome(d: Board, arg: nat)
    requires BoardOk(d)
    ensures var (r, status) := Step(d, Remove(arg));
            && (status == 0 <==> LiveAt(d.list, arg % WORD))
            && (status != 0 ==> status == -1 && r == d)
            && (status == 0 ==>
                  && FirstAt(d.list, arg % WORD).Some? && r.screen == d.screen
                  && var k := FirstAt(d.list, arg % WORD).value;
                     && |r.list| == |d.list| - 1
                     && r.list[..k] == d.list[..k] && r.list[k..] == d.list[k + 1..]
                     && multiset(d.list) == multiset(r.list) + multiset{d.list[k]})
  {
    var found := FirstAt(d.list, arg % WORD);
    if found.Some? {
      var k := found.value;
      assert d.list == d.list[..k] + [d.list[k]] + d.list[k + 1..];
      assert Without(d.list, k)[k..] == d.list[k + 1..];
    }
  }

  /** With one blinker to a cell, a location that has been removed is found no more. */
  lemma RemovedIsGone(d: Board, arg: nat)
    requires BoardOk(d) && OneEach(d)
    ensures FirstAt(Step(d, Remove(arg)).0.list, arg % WORD).None?
  {
    RemoveOutcome(d, arg);
    var r := Step(d, Remove(arg)).0.list;
    var found := FirstAt(d.list, arg % WORD);
    if found.Some? {
      var k := found.value;
      forall i | 0 <= i < |r| ensures r[i].location != arg % WORD {
        if i < k { assert r[i] == r[..k][i]; } else { assert r[i] == r[k..][i - k] == d.list[i + 1]; }
      }
    }
  }

  /** Removing a location right after adding there takes back exactly the addition. */
  lemma RemoveUndoesAdd(d: Board, user: Blinker)
    requires BoardOk(d) && Proper(Add(user)) && Step(d, Add(user)).1 == 0
    ensures BoardOk(Step(d, Add(user)).0)
    ensures var (r, status) := Step(Step(d, Add(user)).0, Remove(user.location));
            status == 0 && r.list == d.list
  {
    StepOk(d, Add(user));
    AddOutcome(d, user);
    var added := Step(d, Add(user)).0;
    assert user.location % WORD == user.location;
    hide Step, BoardOk;
    RemoveOutcome(added, user.location);
    assert added.list[0].location == user.location;
    var r := Step(added, Remove(user.location)).0;
    assert r.list == r.list[0..] == added.list[1..];
  }

  /**
   * A sync succeeds exactly if both locations have a blinker. Then the target takes over the source's
   * lengths, countdown and status and keeps its own place and characters; all others stay, and its
   * cell gets its off character.
   */
  lemma SyncOutcome(d: Board, arg: nat)
    requires BoardOk(d)
    ensures var (r, status) := Step(d, Sync(arg));
            && (status == 0 <==> LiveAt(d.list, arg / WORD % WORD) && LiveAt(d.list, arg % WORD))
            && (status != 0 ==> status == -1 && r == d)
            && (status == 0 ==>
                  && FirstAt(d.list, arg / WORD % WORD).Some? && FirstAt(d.list, arg % WORD).Some?
                  && var i, j := FirstAt(d.list, arg / WORD % WORD).value, FirstAt(d.list, arg % WORD).value;
                     && |r.list| == |d.list| && InStep(r.list[j], d.list[i])
                     && r.list[j].location == d.list[j].location
                     && r.list[j].onChar == d.list[j].onChar && r.list[j].offChar == d.list[j].offChar
                     && (forall k | 0 <= k < |d.list| && k != j :: r.list[k] == d.list[k])
                     && Drawn(d.screen, r.screen, d.list[j].location, d.list[j].offChar))
  {
  }

  // ---------------------------------------------------------------- blinkers in step over a run

  /** Where the blinker at index `i` is after the operation, if it is still there. */
  ghost function Moved(d: Board, op: Op, i: nat): Option<nat>
    requires BoardOk(d) && i < |d.list|
  {
    match op
    case Add(_) => if Step(d, op).1 == 0 then Some(i + 1) else Some(i)
    case Remove(arg) =>
      (match FirstAt(d.list, arg % WORD)
       case None => Some(i)
       case Some(k) => if i < k then Some(i) else if i == k then None else Some(i - 1))
    case _ => Some(i)
  }

  /** The operation neither removes nor resyncs the blinker at `i`. */
  ghost predicate Spares(d: Board, op: Op, i: nat)
    requires BoardOk(d) && i < |d.list|
  {
    && Moved(d, op, i).Some?
    && (op.Sync? && Step(d, op).1 == 0 ==> FirstAt(d.list, op.arg % WORD) != Some(i))
  }

  lemma SparedBlinker(d: Board, op: Op, i: nat)
    requires BoardOk(d) && Proper(op) && i < |d.list| && Spares(d, op, i)
    ensures var k := Moved(d, op, i).value;
            && k < |Step(d, op).0.list|
            && Step(d, op).0.list[k] == if op.Tick? then Ticked(d.list[i]).0 else d.list[i]
  {
  }

  /** Through the run, both blinkers stay and are not resynced. */
  ghost predicate Undisturbed(d: Board, ops: seq<Op>, i: nat, j: nat)
    requires BoardOk(d) && i < |d.list| && j < |d.list|
    decreases |ops|
  {
    ops == [] ||
    (&& Proper(ops[0]) && Spares(d, ops[0], i) && Spares(d, ops[0], j)
     && BoardOk(Step(d, ops[0]).0)
     && Moved(d, ops[0], i).value < |Step(d, ops[0]).0.list| && Moved(d, ops[0], j).value < |Step(d, ops[0]).0.list|
     && Undisturbed(Step(d, ops[0]).0, ops[1..], Moved(d, ops[0], i).value, Moved(d, ops[0], j).value))
  }

  /** The two blinkers after the run. */
  ghost function Followed(d: Board, ops: seq<Op>, i: nat, j: nat): (Blinker, Blinker)
    requires BoardOk(d) && i < |d.list| && j < |d.list| && Undisturbed(d, ops, i, j)
    decreases |ops|
  {
    if ops == [] then (d.list[i], d.list[j])
    else Followed(Step(d, ops[0]).0, ops[1..], Moved(d, ops[0], i).value, Moved(d, ops[0], j).value)
  }

  function TickCount(ops: seq<Op>): nat {
    if ops == [] then 0 else (if ops[0].Tick? then 1 else 0) + TickCount(ops[1..])
  }

  /** A blinker that stays and is not resynced only ticks: the other operations leave it alone. */
  lemma {:induction false} OnlyTicksCount(d: Board, ops: seq<Op>, i: nat)
    requires BoardOk(d) && i < |d.list| && Undisturbed(d, ops, i, i)
    ensures Followed(d, ops, i, i).0 == Ticks(d.list[i], TickCount(ops))
    decreases |ops|
  {
    hide BoardOk, Step, Spares, Moved, Ticked, Undisturbed, Followed;
    if ops == [] {
      FollowedNone(d, i);
    } else {
      FollowedStep(d, ops, i);
      TicksFromFirst(d.list[i], TickCount(ops[1..]));
      OnlyTicksCount(Step(d, ops[0]).0, ops[1..], Moved(d, ops[0], i).value);
    }
  }

  lemma FollowedNone(d: Board, i: nat)
    requires BoardOk(d) && i < |d.list| && Undisturbed(d, [], i, i)
    ensures Followed(d, [], i, i).0 == d.list[i]
  {
  }

  /** The first operation of a run that spares the blinker. */
  lemma FollowedStep(d: Board, ops: seq<Op>, i: nat)
    requires BoardOk(d) && i < |d.list| && ops != [] && Undisturbed(d, ops, i, i)
    ensures Moved(d, ops[0], i).Some? && BoardOk(Step(d, ops[0]).0)
    ensures var n, k := Step(d, ops[0]).0, Moved(d, ops[0], i).value;
            && k < |n.list| && Undisturbed(n, ops[1..], k, k)
            && Followed(d, ops, i, i) == Followed(n, ops[1..], k, k)
            && n.list[k] == if ops[0].Tick? then Ticked(d.list[i]).0 else d.list[i]
  {
    SparedBlinker(d, ops[0], i);
    hide BoardOk, Step, Moved, Ticked;
  }

  /**
   * In any run that neither removes nor resyncs it, whatever happens to other blinkers, a blinker
   * just added is on exactly in the first `onLength` ticks of each period; a length outside
   * 1..32768 counts as 1.
   */
  lemma AddedBlinksInPeriod(d: Board, user: Blinker, ops: seq<Op>)
    requires BoardOk(d) && Proper(Add(user)) && Step(d, Add(user)).1 == 0
    requires BoardOk(Step(d, Add(user)).0) && Undisturbed(Step(d, Add(user)).0, ops, 0, 0)
    ensures var on, off := Lasts(user.onLength), Lasts(user.offLength);
            On(Followed(Step(d, Add(user)).0, ops, 0, 0).0) <==> TickCount(ops) % (on + off) < on
    ensures 1 <= user.onLength <= 0x8000 && 1 <= user.offLength <= 0x8000 ==>
              (On(Followed(Step(d, Add(user)).0, ops, 0, 0).0) <==>
                 TickCount(ops) % (user.onLength + user.offLength) < user.onLength)
  {
    var r := Step(d, Add(user)).0;
    assert r.list[0] == Started(user);
    hide BoardOk, Step, Undisturbed, Followed, Ticks, Lasts, On, Started;
    OnlyTicksCount(r, ops, 0);
    BlinksAsLongAsItLasts(user, TickCount(ops));
    if 1 <= user.onLength <= 0x8000 && 1 <= user.offLength <= 0x8000 { BlinksInPeriod(user, TickCount(ops)); }
  }

  /** Blinkers in step stay in step, whatever else is added, removed, synced or ticked. */
  lemma {:induction false} StayInStep(d: Board, ops: seq<Op>, i: nat, j: nat)
    requires BoardOk(d) && i < |d.list| && j < |d.list| && Undisturbed(d, ops, i, j)
    requires InStep(d.list[i], d.list[j])
    ensures var (a, b) := Followed(d, ops, i, j); InStep(a, b)
    decreases |ops|
  {
    if ops != [] {
      SparedBlinker(d, ops[0], i);
      SparedBlinker(d, ops[0], j);
      hide BoardOk, Step, Spares, Moved;
      StayInStep(Step(d, ops[0]).0, ops[1..], Moved(d, ops[0], i).value, Moved(d, ops[0], j).value);
    }
  }

  /** A successful sync puts the target in step with the source, and so they stay. */
  lemma SyncedStayInStep(d: Board, arg: nat, ops: seq<Op>)
    requires BoardOk(d) && Step(d, Sync(arg)).1 == 0
    requires var i, j := FirstAt(d.list, arg / WORD % WORD).value, FirstAt(d.list, arg % WORD).value;
             BoardOk(Step(d, Sync(arg)).0) && Undisturbed(Step(d, Sync(arg)).0, ops, i, j)
    ensures var i, j := FirstAt(d.list, arg / WORD % WORD).value, FirstAt(d.list, arg % WORD).value;
            var (a, b) := Followed(Step(d, Sync(arg)).0, ops, i, j);
            InStep(a, b)
  {
    var i, j := FirstAt(d.list, arg / WORD % WORD).value, FirstAt(d.list, arg % WORD).value;
    StayInStep(Step(d, Sync(arg)).0, ops, i, j);
  }

  // ---------------------------------------------------------------- what the screen shows

  /** No two blinkers share a cell. */
  ghost predicate OneEach(d: Board) {
    forall i, j | 0 <= i < j < |d.list| :: d.list[i].location != d.list[j].location
  }

  ghost predicate ShowsAt(d: Board, i: nat)
    requires BoardOk(d) && i < |d.list|
  {
    d.screen[2 * d.list[i].location] == Shown(d.list[i])
  }

  /** Every blinker's cell shows its present state. */
  ghost predicate AllShown(d: Board)
    requires BoardOk(d)
  {
    forall i | 0 <= i < |d.list| :: ShowsAt(d, i)
  }

  lemma {:induction false} TickListShows(list: seq<Blinker>, screen: seq<byte>, c: nat)
    requires |screen| == SCREEN && c < CELLS && forall i | 0 <= i < |list| :: list[i].location < CELLS
    requires forall i, j | 0 <= i < j < |list| :: list[i].location != list[j].location
    ensures var r := TickList(list, screen);
            && (forall i | 0 <= i < |list| && list[i].location == c ::
                  r.screen[2 * c] == if Ticked(list[i]).1 then Shown(Ticked(list[i]).0) else screen[2 * c])
            && ((forall i | 0 <= i < |list| :: list[i].location != c) ==> r.screen[2 * c] == screen[2 * c])
  {
    if list != [] {
      var (b, changed) := Ticked(list[0]);
      var screen' := if changed then Poke(screen, b.location, Shown(b)) else screen;
      TickListShows(list[1..], screen', c);
      assert forall i | 0 < i < |list| :: list[i] == list[1..][i - 1];
    }
  }

  /** The blinker at `i` changes state at cell `c` in this tick. */
  predicate ChangesAt(list: seq<Blinker>, i: nat, c: nat)
    requires i < |list|
  {
    list[i].location == c && Ticked(list[i]).1
  }

  /** The last blinker in the list of those that change state at cell `c`. */
  function LastToChange(list: seq<Blinker>, c: nat): (r: Option<nat>)
    ensures r.Some? ==> r.value < |list| && ChangesAt(list, r.value, c)
                        && forall i | r.value < i < |list| :: !ChangesAt(list, i, c)
    ensures r.None? ==> forall i | 0 <= i < |list| :: !ChangesAt(list, i, c)
  {
    if list == [] then None
    else match LastToChange(list[1..], c)
      case Some(k) =>
        assert forall i | k + 1 < i < |list| :: ChangesAt(list[1..], i - 1, c) == ChangesAt(list, i, c);
        Some(k + 1)
      case None =>
        assert forall i | 0 < i < |list| :: ChangesAt(list[1..], i - 1, c) == ChangesAt(list, i, c);
        if ChangesAt(list, 0, c) then Some(0) else None
  }

  /**
   * What a tick draws, cells with several blinkers included: the state of the last one in the list of
   * those that change there, that is of the one added first; a cell where none changes, and every
   * attribute byte, stays as it was.
   */
  lemma {:induction false} TickDrawsExactly(list: seq<Blinker>, screen: seq<byte>, c: nat)
    requires |screen| == SCREEN && c < CELLS && forall i | 0 <= i < |list| :: list[i].location < CELLS
    ensures var r, last := TickList(list, screen).screen, LastToChange(list, c);
            && r[2 * c] == (if last.Some? then Shown(Ticked(list[last.value]).0) else screen[2 * c])
            && r[2 * c + 1] == screen[2 * c + 1]
  {
    if list != [] {
      hide Ticked, Shown;
      var (b, changed) := Ticked(list[0]);
      TickedStays(list[0]);
      TickDrawsExactly(list[1..], if changed then Poke(screen, b.location, Shown(b)) else screen, c);
    }
  }

  lemma TickedStays(b: Blinker)
    ensures Ticked(b).0.location == b.location
  {
  }

  lemma TickKeepsShown(d: Board)
    requires BoardOk(d) && OneEach(d) && AllShown(d)
    ensures var r := Step(d, Tick).0; BoardOk(r) && OneEach(r) && AllShown(r)
  {
    StepOk(d, Tick);
    var r := Step(d, Tick).0;
    forall i | 0 <= i < |r.list| ensures ShowsAt(r, i) {
      assert ShowsAt(d, i);
      TickListShows(d.list, d.screen, d.list[i].location);
    }
  }

  lemma RemoveKeepsShown(d: Board, arg: nat)
    requires BoardOk(d) && OneEach(d) && AllShown(d)
    ensures var r := Step(d, Remove(arg)).0; BoardOk(r) && OneEach(r) && AllShown(r)
  {
    StepOk(d, Remove(arg));
    var found := FirstAt(d.list, arg % WORD);
    if found.Some? {
      var k, r := found.value, Step(d, Remove(arg)).0;
      assert forall i | 0 <= i < |r.list| :: r.list[i] == d.list[if i < k then i else i + 1];
      forall i | 0 <= i < |r.list| ensures ShowsAt(r, i) { assert ShowsAt(d, if i < k then i else i + 1); }
    }
  }

  lemma AddKeepsShown(d: Board, user: Blinker)
    requires BoardOk(d) && Proper(Add(user)) && OneEach(d) && AllShown(d) && FirstAt(d.list, user.location).None?
    ensures var r := Step(d, Add(user)).0; BoardOk(r) && OneEach(r) && AllShown(r)
  {
    StepOk(d, Add(user));
    var r := Step(d, Add(user)).0;
    if Step(d, Add(user)).1 == 0 {
      assert forall i | 0 < i < |r.list| :: r.list[i] == d.list[i - 1];
      forall i | 0 <= i < |r.list| ensures ShowsAt(r, i) { if i > 0 { assert ShowsAt(d, i - 1); } }
    }
  }

  /** Ticks, removals and additions in free cells keep every blinker's cell up to date. */
  lemma ShownIsKept(d: Board, op: Op)
    requires BoardOk(d) && Proper(op) && OneEach(d) && AllShown(d) && !op.Sync?
    requires op.Add? ==> FirstAt(d.list, op.user.location).None?
    ensures var r := Step(d, op).0; BoardOk(r) && OneEach(r) && AllShown(r)
  {
    hide BoardOk, OneEach, AllShown, Step;
    match op
    case Tick => TickKeepsShown(d);
    case Remove(arg) => RemoveKeepsShown(d, arg);
    case Add(user) => AddKeepsShown(d, user);
  }

  /** A sync draws the target's off character whatever its new state: right only if it is off now. */
  lemma SyncShowsExactly(d: Board, arg: nat)
    requires BoardOk(d) && OneEach(d) && AllShown(d) && Step(d, Sync(arg)).1 == 0
    ensures BoardOk(Step(d, Sync(arg)).0)
    ensures AllShown(Step(d, Sync(arg)).0) <==>
              var source, target := FirstAt(d.list, arg / WORD % WORD).value, FirstAt(d.list, arg % WORD).value;
              !On(d.list[source]) || d.list[target].onChar == d.list[target].offChar
  {
    StepOk(d, Sync(arg));
    var r := Step(d, Sync(arg)).0;
    var source, target := FirstAt(d.list, arg / WORD % WORD).value, FirstAt(d.list, arg % WORD).value;
    forall i | 0 <= i < |r.list| && i != target ensures ShowsAt(r, i) { assert ShowsAt(d, i); }
    assert ShowsAt(r, target) <==> !On(d.list[source]) || d.list[target].onChar == d.list[target].offChar;
  }

  /**
   * Additions go to free cells, and a sync that succeeds has a source that is off or a target whose
   * two characters are the same.
   */
  ghost predicate Tidy(d: Board, op: Op)
    requires BoardOk(d)
  {
    && Proper(op)
    && (op.Add? ==> FirstAt(d.list, op.user.location).None?)
    && (op.Sync? && Step(d, op).1 == 0 ==>
          var source, target := FirstAt(d.list, op.arg / WORD % WORD).value, FirstAt(d.list, op.arg % WORD).value;
          !On(d.list[source]) || d.list[target].onChar == d.list[target].offChar)
  }

  ghost predicate TidyRun(d: Board, ops: seq<Op>)
    requires BoardOk(d)
    decreases |ops|
  {
    ops == [] || (Tidy(d, ops[0]) && BoardOk(Step(d, ops[0]).0) && TidyRun(Step(d, ops[0]).0, ops[1..]))
  }

  ghost function Run(d: Board, ops: seq<Op>): (r: Board)
    requires BoardOk(d) && TidyRun(d, ops)
    ensures BoardOk(r)
    decreases |ops|
  {
    if ops == [] then d else Run(Step(d, ops[0]).0, ops[1..])
  }

  lemma TidyKeepsShown(d: Board, op: Op)
    requires BoardOk(d) && OneEach(d) && AllShown(d) && Tidy(d, op)
    ensures var r := Step(d, op).0; BoardOk(r) && OneEach(r) && AllShown(r)
  {
    if op.Sync? {
      SyncKeepsApart(d, op.arg);
      if Step(d, op).1 == 0 { SyncShowsExactly(d, op.arg); }
    } else {
      ShownIsKept(d, op);
    }
  }

  lemma SyncKeepsApart(d: Board, arg: nat)
    requires BoardOk(d) && OneEach(d)
    ensures BoardOk(Step(d, Sync(arg)).0) && OneEach(Step(d, Sync(arg)).0)
    ensures Step(d, Sync(arg)).1 != 0 ==> Step(d, Sync(arg)).0 == d
  {
    StepOk(d, Sync(arg));
    var r := Step(d, Sync(arg)).0;
    assert forall i | 0 <= i < |d.list| :: r.list[i].location == d.list[i].location;
  }

  /** Over any tidy run, ticks and syncs included, every blinker's cell goes on showing its present state. */
  lemma {:induction false} ShownOverRun(d: Board, ops: seq<Op>)
    requires BoardOk(d) && OneEach(d) && AllShown(d) && TidyRun(d, ops)
    ensures OneEach(Run(d, ops)) && AllShown(Run(d, ops))
    decreases |ops|
  {
    hide BoardOk, OneEach, AllShown, Step, Tidy;
    if ops != [] {
      TidyKeepsShown(d, ops[0]);
      ShownOverRun(Step(d, ops[0]).0, ops[1..]);
    }
  }
}
