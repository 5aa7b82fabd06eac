/**
 * The linked list of `fish` inside its 2000-slot arena: a slot is free when its location is 0,
 * the list is threaded through `next`, and every operation does to the list and the screen what
 * BlinkBoard says.
 */
module BlinkList {
  import opened Basics
  import opened Blinkers
  import opened BlinkBoard

  const NIL: int := -1

  datatype Slot = Slot(b: Blinker, next: int)

  const FREE_SLOT: Slot := Slot(Blinker(0, 0, 0, 0, 0, 0, 0), NIL)

  // ---------------------------------------------------------------- the list in the arena

  /** The slot at position `i` of the list, or NIL at its end. */
  function Link(order: seq<nat>, i: nat): int { if i < |order| then order[i] else NIL }

  /** The links visit the slots of `order`, in that order. */
  ghost predicate Chained(arena: seq<Slot>, head: int, order: seq<nat>) {
    && |arena| == CELLS && head == Link(order, 0)
    && (forall i | 0 <= i < |order| :: order[i] < CELLS)
    && forall i | 0 <= i < |order| :: LinkOk(arena, order, i)
  }

  ghost predicate LinkOk(arena: seq<Slot>, order: seq<nat>, i: nat)
    requires i < |order|
  {
    order[i] < |arena| && arena[order[i]].next == Link(order, i + 1)
  }

  ghost predicate NoRepeat(order: seq<nat>) {
    forall i, j | 0 <= i < j < |order| :: order[i] != order[j]
  }

  ghost predicate ExactlyUsed(arena: seq<Slot>, order: seq<nat>) {
    forall k | 0 <= k < |arena| :: k in order <==> arena[k].b.location != 0
  }

  /** `order` is the list: acyclic, without repetition, and made of exactly the slots in use. */
  ghost predicate Linked(arena: seq<Slot>, head: int, order: seq<nat>) {
    Chained(arena, head, order) && NoRepeat(order) && ExactlyUsed(arena, order)
  }

  function Values(arena: seq<Slot>, order: seq<nat>): (r: seq<Blinker>)
    requires forall i | 0 <= i < |order| :: order[i] < |arena|
    ensures |r| == |order| && forall i | 0 <= i < |order| :: r[i] == arena[order[i]].b
  {
    seq(|order|, i requires 0 <= i < |order| => arena[order[i]].b)
  }

  /** `mp1_malloc`: the lowest slot whose location is 0. */
  function LowestFree(arena: seq<Slot>, from: nat := 0): (r: Option<nat>)
    requires from <= |arena|
    ensures r.None? ==> forall k | from <= k < |arena| :: arena[k].b.location != 0
    ensures r.Some? ==> from <= r.value < |arena| && arena[r.value].b.location == 0
                        && forall k | from <= k < r.value :: arena[k].b.location != 0
    decreases |arena| - from
  {
    if from == |arena| then None else if arena[from].b.location == 0 then Some(from) else LowestFree(arena, from + 1)
  }

  /** The arena has a free slot exactly when the list is shorter than the arena. */
  lemma FreeExactly(arena: seq<Slot>, head: int, order: seq<nat>)
    requires Linked(arena, head, order)
    ensures |order| <= CELLS
    ensures LowestFree(arena).None? <==> |order| == CELLS
  {
    var s := Elements(order);
    DistinctSize(order);
    assert forall q | q in s :: q < CELLS;
    FullSet(s, CELLS);
    var free := LowestFree(arena);
    hide LowestFree, Chained;
    if free.Some? {
      assert free.value !in s;
    } else {
      assert forall q | 0 <= q < CELLS :: q in order && q in s;
    }
  }

  // ---------------------------------------------------------------- list surgery

  function Pushed(p: nat, order: seq<nat>): (r: seq<nat>)
    ensures |r| == |order| + 1 && r[0] == p && forall i | 0 <= i < |order| :: r[i + 1] == order[i]
    ensures forall k | k != p :: k in r <==> k in order
  {
    [p] + order
  }

  lemma InsertChained(arena: seq<Slot>, head: int, order: seq<nat>, p: nat, b: Blinker)
    requires Chained(arena, head, order) && p < CELLS && p !in order
    ensures Chained(arena[p := Slot(b, head)], p, Pushed(p, order))
  {
    var order', arena' := Pushed(p, order), arena[p := Slot(b, head)];
    hide Pushed;
    forall i | 0 <= i < |order'| ensures LinkOk(arena', order', i) {
      if i > 0 { assert order'[i] == order[i - 1] && LinkOk(arena, order, i - 1); }
    }
  }

  lemma InsertUsed(arena: seq<Slot>, order: seq<nat>, p: nat, slot: Slot)
    requires ExactlyUsed(arena, order) && p < |arena| && slot.b.location != 0
    ensures ExactlyUsed(arena[p := slot], Pushed(p, order))
  {
    assert Pushed(p, order)[0] == p;
    hide Pushed;
  }

  lemma InsertValueAt(arena: seq<Slot>, order: seq<nat>, p: nat, slot: Slot, i: nat)
    requires p < |arena| && i <= |order| && forall j | 0 <= j < |order| :: order[j] < |arena| && order[j] != p
    ensures Pushed(p, order)[i] < |arena|
    ensures arena[p := slot][Pushed(p, order)[i]].b == if i == 0 then slot.b else arena[order[i - 1]].b
  {
    if i > 0 { assert Pushed(p, order)[i] == order[i - 1]; }
  }

  lemma InsertValues(arena: seq<Slot>, order: seq<nat>, p: nat, slot: Slot)
    requires p < |arena| && forall i | 0 <= i < |order| :: order[i] < |arena| && order[i] != p
    ensures forall i | 0 <= i < |Pushed(p, order)| :: Pushed(p, order)[i] < |arena|
    ensures Values(arena[p := slot], Pushed(p, order)) == [slot.b] + Values(arena, order)
  {
    hide Values, Pushed;
    forall i | 0 <= i < |Pushed(p, order)| ensures Pushed(p, order)[i] < |arena| {
      InsertValueAt(arena, order, p, slot, i);
    }
    var new', old' := Values(arena[p := slot], Pushed(p, order)), [slot.b] + Values(arena, order);
    forall i | 0 <= i < |new'| ensures new'[i] == old'[i] { InsertValueAt(arena, order, p, slot, i); }
  }

  lemma InsertLinked(arena: seq<Slot>, head: int, order: seq<nat>, p: nat, b: Blinker)
    requires Linked(arena, head, order) && p < CELLS && arena[p].b.location == 0 && b.location != 0
    ensures Linked(arena[p := Slot(b, head)], p, Pushed(p, order))
    ensures Values(arena[p := Slot(b, head)], Pushed(p, order)) == [b] + Values(arena, order)
  {
    assert p !in order;
    InsertChained(arena, head, order, p, b);
    InsertUsed(arena, order, p, Slot(b, head));
    InsertValues(arena, order, p, Slot(b, head));
    assert NoRepeat(Pushed(p, order)) by {
      var order' := Pushed(p, order);
      assert forall i | 0 < i < |order'| :: order'[i] == order[i - 1] && order'[i] != p;
    }
    hide ExactlyUsed, NoRepeat;
  }

  /** Unlinking position `i`: its predecessor, or the head, takes over its link. */
  ghost predicate Unlinked(arena: seq<Slot>, head: int, order: seq<nat>, i: nat, arena': seq<Slot>, head': int)
    requires Chained(arena, head, order) && i < |order|
  {
    && |arena'| == CELLS && head' == (if i == 0 then Link(order, 1) else head)
    && arena'[order[i]] == FREE_SLOT
    && (i > 0 ==> arena'[order[i - 1]] == arena[order[i - 1]].(next := Link(order, i + 1)))
    && forall k | 0 <= k < CELLS && k != order[i] && (i > 0 ==> k != order[i - 1]) :: arena'[k] == arena[k]
  }

  function Dropped(order: seq<nat>, i: nat): (r: seq<nat>)
    requires i < |order|
    ensures |r| == |order| - 1 && forall j | 0 <= j < |r| :: r[j] == order[if j < i then j else j + 1]
  {
    order[..i] + order[i + 1..]
  }

  lemma DroppedHas(order: seq<nat>, i: nat, k: nat)
    requires NoRepeat(order) && i < |order|
    ensures k in Dropped(order, i) <==> k in order && k != order[i]
  {
    if k in order && k != order[i] {
      var j :| 0 <= j < |order| && order[j] == k;
      assert Dropped(order, i)[if j < i then j else j - 1] == k;
    }
  }

  lemma RemoveChained(arena: seq<Slot>, head: int, order: seq<nat>, i: nat, arena': seq<Slot>, head': int)
    requires Chained(arena, head, order) && NoRepeat(order) && i < |order|
    requires Unlinked(arena, head, order, i, arena', head')
    ensures Chained(arena', head', Dropped(order, i))
  {
    var order' := Dropped(order, i);
    hide Dropped;
    forall j | 0 <= j < |order'| ensures LinkOk(arena', order', j) {
      if j < i { assert order'[j] == order[j] && LinkOk(arena, order, j); }
      else { assert order'[j] == order[j + 1] && LinkOk(arena, order, j + 1); }
    }
  }

  lemma RemoveValues(arena: seq<Slot>, head: int, order: seq<nat>, i: nat, arena': seq<Slot>, head': int)
    requires Chained(arena, head, order) && NoRepeat(order) && i < |order|
    requires Unlinked(arena, head, order, i, arena', head')
    ensures forall j | 0 <= j < |order| - 1 :: Dropped(order, i)[j] < |arena'|
    ensures Values(arena', Dropped(order, i)) == Without(Values(arena, order), i)
  {
    var order' := Dropped(order, i);
    hide Dropped;
    forall j | 0 <= j < |order'|
      ensures order'[j] < CELLS && arena'[order'[j]].b == Without(Values(arena, order), i)[j] {
      if j < i { assert order'[j] == order[j]; } else { assert order'[j] == order[j + 1]; }
    }
  }

  lemma RemoveUsed(arena: seq<Slot>, head: int, order: seq<nat>, i: nat, arena': seq<Slot>, head': int)
    requires Chained(arena, head, order) && NoRepeat(order) && ExactlyUsed(arena, order)
    requires i < |order| && Unlinked(arena, head, order, i, arena', head')
    ensures ExactlyUsed(arena', Dropped(order, i))
  {
    forall k | 0 <= k < CELLS ensures k in Dropped(order, i) <==> arena'[k].b.location != 0 {
      DroppedHas(order, i, k);
      hide Dropped;
    }
  }

  lemma RemoveLinked(arena: seq<Slot>, head: int, order: seq<nat>, i: nat, arena': seq<Slot>, head': int)
    requires Linked(arena, head, order) && i < |order| && Unlinked(arena, head, order, i, arena', head')
    ensures Linked(arena', head', Dropped(order, i))
    ensures Values(arena', Dropped(order, i)) == Without(Values(arena, order), i)
  {
    assert NoRepeat(Dropped(order, i));
    hide ExactlyUsed, NoRepeat, Dropped, Unlinked;
    RemoveChained(arena, head, order, i, arena', head');
    RemoveUsed(arena, head, order, i, arena', head');
    RemoveValues(arena, head, order, i, arena', head');
  }

  /** Changing a blinker without its location keeps the list. */
  lemma UpdateLinked(arena: seq<Slot>, head: int, order: seq<nat>, i: nat, b: Blinker)
    requires Linked(arena, head, order) && i < |order| && b.location == arena[order[i]].b.location
    ensures var arena' := arena[order[i] := arena[order[i]].(b := b)];
            && Linked(arena', head, order) && Values(arena', order) == Values(arena, order)[i := b]
  {
    var arena' := arena[order[i] := arena[order[i]].(b := b)];
    forall j | 0 <= j < |order| ensures LinkOk(arena', order, j) { assert LinkOk(arena, order, j); }
  }

  /**
   * Why location 0 must not be added: the new head still looks free, so it is no list of the slots
   * in use, and the next addition takes the same slot and links it to itself.
   */
  lemma LocationZeroLoops(arena: seq<Slot>, head: int, order: seq<nat>, b: Blinker, c: Blinker)
    requires Linked(arena, head, order) && LowestFree(arena).Some? && b.location == 0
    ensures var p := LowestFree(arena).value;
            var arena' := arena[p := Slot(b, head)];
            && (forall order' :: !Linked(arena', p, order'))
            && LowestFree(arena') == Some(p)
            && arena'[p := Slot(c, p)][p].next == p
  {
    var p := LowestFree(arena).value;
    var arena' := arena[p := Slot(b, head)];
    forall order' ensures !Linked(arena', p, order') {
      assert Link(order', 0) == p ==> order'[0] == p && p in order';
    }
    var q := LowestFree(arena');
    assert arena'[p].b.location == 0;
    assert forall k | 0 <= k < p :: arena'[k] == arena[k];
  }

  // ---------------------------------------------------------------- the program's variables

  class BlinkList {
    const arena: array<Slot>  // blink_array
    const vmem: array<byte>   // the mapped screen page
    var head: int             // mp1_list_head
    ghost var order: seq<nat>

    ghost predicate Valid()
      reads this, arena, vmem
    {
      && arena.Length == CELLS && vmem.Length == SCREEN
      && Linked(arena[..], head, order) && BoardOk(Abs())
    }

    /** The list and the screen. */
    ghost function Abs(): Board
      requires arena.Length == CELLS && Linked(arena[..], head, order)
      reads this, arena, vmem
    {
      Board(Values(arena[..], order), vmem[..])
    }

    /** The zeroed arena of `main`. */
    constructor (vmem: array<byte>)
      requires vmem.Length == SCREEN
      ensures Valid() && fresh(arena) && this.vmem == vmem && Abs() == Board([], vmem[..])
    {
      this.vmem := vmem;
      arena := new Slot[CELLS](_ => FREE_SLOT);
      head := NIL;
      order := [];
    }

    method Malloc() returns (p: int)
      requires arena.Length == CELLS
      ensures var free := LowestFree(arena[..]); p == if free.Some? then free.value else NIL
    {
      p := 0;
      while p < CELLS
        invariant 0 <= p <= CELLS && LowestFree(arena[..]) == LowestFree(arena[..], p)
      {
        if arena[p].b.location == 0 { return p; }
        p := p + 1;
      }
      return NIL;
    }

    /** `mp1_ioctl` RTC_ADD. With location 0 the structure is linked in a slot that still looks free. */
    method Add(user: Blinker) returns (r: int)
      requires Valid() && Words(user)
      modifies this, arena, vmem
      ensures user.location != 0 ==> Valid() && (Abs(), r) == Step(old(Abs()), BlinkBoard.Add(user))
      ensures user.location == 0 && LowestFree(old(arena[..])).Some? ==>
                && r == 0 && head == LowestFree(old(arena[..])).value
                && arena[..] == old(arena[..])[head := Slot(Started(user), old(head))]
    {
      hide Chained, NoRepeat, LowestFree, Pushed;
      if user.location >= CELLS { return -1; }
      var temp := user.(status := 1, countdown := user.onLength);
      FreeExactly(arena[..], head, order);
      var p := Malloc();
      if p == NIL { return -1; }
      ghost var slots := arena[..];
      arena[p] := Slot(temp, head);
      if user.location != 0 { InsertLinked(slots, head, order, p, temp); }
      order := Pushed(p, order);
      head := p;
      vmem[2 * temp.location] := temp.onChar;
      return 0;
    }

    /** `mp1_find_helper`. */
    method FindHelper(location: nat) returns (p: int)
      requires Valid()
      ensures var k := FirstAt(Abs().list, location); p == if k.Some? then order[k.value] else NIL
    {
      hide BoardOk, NoRepeat, ExactlyUsed, FirstAt;
      ghost var list := Abs().list;
      p := head;
      ghost var i := 0;
      while p != NIL
        invariant 0 <= i <= |order| && p == Link(order, i)
        invariant forall j | 0 <= j < i :: list[j].location != location
        decreases |order| - i
      {
        if arena[p].b.location == location {
          FirstAtIs(list, location, i);
          return p;
        }
        assert LinkOk(arena[..], order, i);
        p := arena[p].next;
        i := i + 1;
      }
    }

    /** `mp1_ioctl` RTC_FIND: a copy of the structure found. */
    method Find(location: nat) returns (r: Option<Blinker>)
      requires Valid()
      ensures var k := FirstAt(Abs().list, location); r == if k.Some? then Some(Abs().list[k.value]) else None
    {
      var p := FindHelper(location);
      if p == NIL { return None; }
      return Some(arena[p].b);
    }

    /** The walk of `mp1_ioctl_remove` to the cell that points to `p`; NIL stands for the list head's cell. */
    method FindCell(p: nat, ghost k: nat) returns (cell: int)
      requires Valid() && k < |order| && order[k] == p
      ensures cell == (if k == 0 then NIL else order[k - 1])
    {
      hide BoardOk, ExactlyUsed;
      cell := NIL;
      ghost var i := 0;
      while (if cell == NIL then head else arena[cell].next) != p
        invariant 0 <= i <= k && cell == (if i == 0 then NIL else order[i - 1])
        invariant (if cell == NIL then head else arena[cell].next) == order[i]
        decreases k - i
      {
        assert LinkOk(arena[..], order, i);
        cell := if cell == NIL then head else arena[cell].next;
        i := i + 1;
      }
    }

    /** `mp1_ioctl` RTC_REMOVE. */
    method Remove(arg: nat) returns (r: int)
      requires Valid()
      modifies this, arena
      ensures Valid() && (Abs(), r) == Step(old(Abs()), BlinkBoard.Remove(arg))
      ensures r == 0 ==>
                && FirstAt(old(Abs().list), arg % WORD).Some?
                && var slot := old(order)[FirstAt(old(Abs().list), arg % WORD).value];
                   arena[slot].b.location == 0 && slot !in order && LowestFree(arena[..]).Some?
    {
      hide BoardOk, NoRepeat, ExactlyUsed;
      ghost var slots, was, d := arena[..], order, Abs();
      ghost var h := head;
      var p := FindHelper(arg % WORD);
      if p == NIL { return -1; }
      ghost var k := FirstAt(d.list, arg % WORD).value;
      StepOk(d, BlinkBoard.Remove(arg));
      var cell := FindCell(p, k);
      var next := arena[p].next;
      assert LinkOk(slots, was, k);
      assert cell != p by { Apart(slots, h, was, k); }
      if cell == NIL { head := next; } else { arena[cell] := arena[cell].(next := next); }
      arena[p] := FREE_SLOT;
      RemoveLinked(slots, h, was, k, arena[..], head);
      order := Dropped(was, k);
      return 0;
    }

    /** `mp1_ioctl` RTC_SYNC. The conditional move to the on character is never taken. */
    method Sync(arg: nat) returns (r: int)
      requires Valid()
      modifies arena, vmem
      ensures Valid() && (Abs(), r) == Step(old(Abs()), BlinkBoard.Sync(arg))
    {
      hide BoardOk, NoRepeat, ExactlyUsed, FirstAt;
      ghost var slots, d := arena[..], Abs();
      var esi := FindHelper(arg / WORD % WORD);
      if esi == NIL { return -1; }
      var edi := FindHelper(arg % WORD);
      if edi == NIL { return -1; }
      StepOk(d, BlinkBoard.Sync(arg));
      ghost var i, j := FirstAt(d.list, arg / WORD % WORD).value, FirstAt(d.list, arg % WORD).value;
      var b := Synced(arena[esi].b, arena[edi].b);
      assert b.location < CELLS by { InRange(d, j); }
      UpdateLinked(slots, head, order, j, b);
      arena[edi] := arena[edi].(b := b);
      assert arena[..] == slots[order[j] := slots[order[j]].(b := b)];
      vmem[2 * b.location] := b.offChar;
      return 0;
    }

    /** The loop body of `mp1_rtc_tasklet` for the node at list position `i`. */
    method TickNode(p: nat, ghost i: nat)
      requires arena.Length == CELLS && vmem.Length == SCREEN && Linked(arena[..], head, order)
      requires i < |order| && order[i] == p && Values(arena[..], order)[i].location < CELLS
      modifies arena, vmem
      ensures Linked(arena[..], head, order)
      ensures var (b, changed) := Ticked(old(Values(arena[..], order))[i]);
              && Values(arena[..], order) == old(Values(arena[..], order))[i := b]
              && vmem[..] == if changed then Poke(old(vmem[..]), b.location, Shown(b)) else old(vmem[..])
    {
      LinkAt(arena[..], head, order, i);
      hide Linked;
      ghost var slots := arena[..];
      var b := arena[p].b;
      var c := Decremented(b.countdown);
      if Signed(c) > 0 {
        b := b.(countdown := c);
      } else if b.status % 2 == 1 {
        vmem[2 * b.location] := b.offChar;
        b := b.(countdown := b.offLength, status := Flipped(b.status));
      } else {
        vmem[2 * b.location] := b.onChar;
        b := b.(countdown := b.onLength, status := Flipped(b.status));
      }
      UpdateLinked(slots, head, order, i, b);
      arena[p] := arena[p].(b := b);
      assert arena[..] == slots[order[i] := slots[order[i]].(b := b)];
    }

    /** The loop of `mp1_rtc_tasklet` over the list `list`. */
    method TickAll(ghost list: seq<Blinker>, ghost final: Board)
      requires arena.Length == CELLS && vmem.Length == SCREEN && Linked(arena[..], head, order)
      requires (forall j | 0 <= j < |order| :: order[j] < CELLS) && list == Values(arena[..], order)
      requires (forall j | 0 <= j < |list| :: list[j].location < CELLS) && final == TickList(list, vmem[..])
      modifies arena, vmem
      ensures Linked(arena[..], head, order)
      ensures Values(arena[..], order) == final.list && vmem[..] == final.screen
    {
      hide TickList, Linked, Values, Mixed, Ticked, Poke, Shown;
      MixedEnds(final.list, list);
      LinkAt(arena[..], head, order, 0);
      assert list[0..] == list;
      var p := head;
      ghost var i := 0;
      while p != NIL
        invariant 0 <= i <= |order| && p == Link(order, i)
        invariant Linked(arena[..], head, order)
        invariant Values(arena[..], order) == Mixed(final.list, list, i)
        invariant TickList(list[i..], vmem[..]).screen == final.screen
        decreases |order| - i
      {
        LinkAt(arena[..], head, order, i);
        TickTail(list, i, vmem[..]);
        Advance(final.list, list, i);
        var next := arena[p].next;
        TickNode(p, i);
        p := next;
        i := i + 1;
      }
      TickNone(vmem[..]);
      assert list[i..] == [];
    }

    /** `mp1_rtc_tasklet`. */
    method Tick()
      requires Valid()
      modifies arena, vmem
      ensures Valid() && Abs() == Step(old(Abs()), BlinkBoard.Tick).0
    {
      ghost var d := Abs();
      StepOk(d, BlinkBoard.Tick);
      InRangeAll(d);
      hide BoardOk, NoRepeat, ExactlyUsed, TickList;
      TickAll(d.list, TickList(d.list, d.screen));
    }
  }

  lemma InRangeAll(d: Board)
    requires BoardOk(d)
    ensures forall j | 0 <= j < |d.list| :: d.list[j].location < CELLS
  {
  }

  /** The blinkers while a tick is under way: those before `i` done, the others still to do. */
  function Mixed(done: seq<Blinker>, todo: seq<Blinker>, i: nat): (r: seq<Blinker>)
    requires i <= |done| == |todo|
    ensures |r| == |done|
  {
    done[..i] + todo[i..]
  }

  lemma MixedEnds(done: seq<Blinker>, todo: seq<Blinker>)
    requires |done| == |todo|
    ensures Mixed(done, todo, 0) == todo && Mixed(done, todo, |done|) == done
  {
  }

  lemma Advance(done: seq<Blinker>, todo: seq<Blinker>, i: nat)
    requires i < |done| == |todo|
    ensures Mixed(done, todo, i)[i] == todo[i]
    ensures Mixed(done, todo, i)[i := done[i]] == Mixed(done, todo, i + 1)
  {
    var a, b := Mixed(done, todo, i)[i := done[i]], Mixed(done, todo, i + 1);
    assert forall k | 0 <= k < |a| :: a[k] == b[k];
  }

  lemma LinkAt(arena: seq<Slot>, head: int, order: seq<nat>, i: nat)
    requires Linked(arena, head, order)
    ensures |arena| == CELLS && head == Link(order, 0) && forall j | 0 <= j < |order| :: order[j] < CELLS
    ensures i < |order| ==> arena[order[i]].next == Link(order, i + 1)
  {
    if i < |order| { assert LinkOk(arena, order, i); }
  }

  lemma TickTail(list: seq<Blinker>, i: nat, screen: seq<byte>)
    requires i < |list| && |screen| == SCREEN && forall j | 0 <= j < |list| :: list[j].location < CELLS
    ensures var (b, changed) := Ticked(list[i]);
            TickList(list[i..], screen).screen ==
            TickList(list[i + 1..], if changed then Poke(screen, b.location, Shown(b)) else screen).screen
  {
    assert list[i..][0] == list[i] && list[i..][1..] == list[i + 1..];
  }

  lemma TickNone(screen: seq<byte>)
    requires |screen| == SCREEN
    ensures TickList([], screen).screen == screen
  {
  }

  lemma InRange(d: Board, j: nat)
    requires BoardOk(d) && j < |d.list|
    ensures d.list[j].location < CELLS
  {
  }

  lemma Apart(arena: seq<Slot>, head: int, order: seq<nat>, k: nat)
    requires Linked(arena, head, order) && k < |order|
    ensures k > 0 ==> order[k - 1] != order[k]
  {
  }
}
