/**
 * One blinker of `fish`: a character cell that shows one character for `onLength` ticks and
 * another for `offLength` ticks, on 16-bit fields as the assembly code keeps them.
 */
module Blinkers {
  import opened Basics

  const WORD: nat := 0x1_0000
  const CELLS: nat := 2000

  datatype Blinker = Blinker(
    location: nat, onChar: byte, offChar: byte, onLength: nat, offLength: nat, countdown: nat, status: nat)

  predicate Words(b: Blinker) {
    b.location < WORD && b.onLength < WORD && b.offLength < WORD && b.countdown < WORD && b.status < WORD
  }

  predicate On(b: Blinker) { b.status % 2 == 1 }

  /** A 16-bit word read as a signed number. */
  function Signed(x: nat): int { if x < 0x8000 then x else x - WORD }

  function Decremented(x: nat): nat { if x == 0 then WORD - 1 else x - 1 }

  function Flipped(status: nat): nat { if status % 2 == 1 then status - 1 else status + 1 }

  /** One timer tick; the second result says whether the blinker changes state. */
  function Ticked(b: Blinker): (Blinker, bool) {
    var c := Decremented(b.countdown);
    if Signed(c) > 0 then (b.(countdown := c), false)
    else (b.(countdown := if On(b) then b.offLength else b.onLength, status := Flipped(b.status)), true)
  }

  /** The character the cell should show. */
  function Shown(b: Blinker): byte { if On(b) then b.onChar else b.offChar }

  /** What adding makes of the user's structure: on, with a full countdown. */
  function Started(user: Blinker): Blinker { user.(status := 1, countdown := user.onLength) }

  function Ticks(b: Blinker, n: nat): Blinker {
    if n == 0 then b else Ticked(Ticks(b, n - 1)).0
  }

  /** The first tick may be taken out of a run of ticks. */
  lemma {:induction false} TicksFromFirst(b: Blinker, n: nat)
    ensures Ticks(Ticked(b).0, n) == Ticks(b, n + 1)
  {
    if n > 0 { TicksFromFirst(b, n - 1); } else { assert Ticks(b, 0) == b; }
  }

  /** How many ticks a countdown value lasts: 0 and everything above 32768 count as 1. */
  function Lasts(c: nat): (r: nat)
    ensures r > 0
  {
    if 1 <= c <= 0x8000 then c else 1
  }

  lemma TickLasts(b: Blinker)
    requires Words(b)
    ensures Words(Ticked(b).0) && Ticked(b).0.onLength == b.onLength && Ticked(b).0.offLength == b.offLength
    ensures Ticked(b).1 <==> Lasts(b.countdown) == 1
    ensures !Ticked(b).1 ==> On(Ticked(b).0) == On(b) && Lasts(Ticked(b).0.countdown) == Lasts(b.countdown) - 1
    ensures Ticked(b).1 ==>
              On(Ticked(b).0) == !On(b) && Ticked(b).0.countdown == (if On(b) then b.offLength else b.onLength)
  {
  }

  lemma {:induction false} Grows(a: nat, b: nat, p: nat)
    requires a < b
    ensures a * p + p <= b * p
    decreases b - a
  {
    if a + 1 < b { Grows(a + 1, b, p); }
    assert (a + 1) * p == a * p + p;
  }

  lemma ModIs(m: nat, p: nat, q: nat, r: nat)
    requires p > 0 && r < p && m == q * p + r
    ensures m / p == q && m % p == r
  {
    var k := m / p;
    assert m == k * p + m % p;
    if q < k { Grows(q, k, p); }
    if k < q { Grows(k, q, p); }
  }

  lemma ModNext(n: nat, p: nat)
    requires p > 0
    ensures (n + 1) % p == if n % p == p - 1 then 0 else n % p + 1
  {
    if n % p == p - 1 {
      assert n + 1 == (n / p + 1) * p + 0;
      ModIs(n + 1, p, n / p + 1, 0);
    } else {
      ModIs(n + 1, p, n / p, n % p + 1);
    }
  }

  /** The state `n` ticks after adding: its phase, and how long the phase still lasts. */
  lemma {:induction false} PhaseAfter(user: Blinker, n: nat)
    requires Words(user)
    ensures var b, on, off := Ticks(Started(user), n), Lasts(user.onLength), Lasts(user.offLength);
            var r := n % (on + off);
            && Words(b) && b.onLength == user.onLength && b.offLength == user.offLength
            && (On(b) <==> r < on)
            && Lasts(b.countdown) == (if r < on then on - r else on + off - r)
  {
    if n > 0 {
      PhaseAfter(user, n - 1);
      TickLasts(Ticks(Started(user), n - 1));
      ModNext(n - 1, Lasts(user.onLength) + Lasts(user.offLength));
    }
  }

  lemma BlinksAsLongAsItLasts(user: Blinker, n: nat)
    requires Words(user)
    ensures On(Ticks(Started(user), n)) <==> n % (Lasts(user.onLength) + Lasts(user.offLength)) < Lasts(user.onLength)
  {
    PhaseAfter(user, n);
  }

  /** For lengths from 1 to 32768 the blinker is on in the first `onLength` ticks of every period. */
  lemma BlinksInPeriod(user: Blinker, n: nat)
    requires Words(user) && 1 <= user.onLength <= 0x8000 && 1 <= user.offLength <= 0x8000
    ensures On(Ticks(Started(user), n)) <==> n % (user.onLength + user.offLength) < user.onLength
  {
    PhaseAfter(user, n);
  }

  /** Those are exactly the lengths that are kept: any other makes some tick go wrong. */
  lemma PeriodIsKeptExactly(user: Blinker)
    requires Words(user) && user.onLength + user.offLength > 0
    ensures (forall n: nat :: On(Ticks(Started(user), n)) <==> n % (user.onLength + user.offLength) < user.onLength)
            <==> 1 <= user.onLength <= 0x8000 && 1 <= user.offLength <= 0x8000
  {
    var a, b := user.onLength, user.offLength;
    if 1 <= a <= 0x8000 && 1 <= b <= 0x8000 {
      forall n: nat ensures On(Ticks(Started(user), n)) <==> n % (a + b) < a { BlinksInPeriod(user, n); }
    } else if a == 0 {
      PhaseAfter(user, 0);
      assert On(Ticks(Started(user), 0)) && !(0 % (a + b) < a);
    } else if a > 0x8000 {
      PhaseAfter(user, 1);
      ModIs(1, a + b, 0, 1);
      ModIs(1, 1 + Lasts(b), 0, 1);
      assert !(On(Ticks(Started(user), 1)) <==> 1 % (a + b) < a);
    } else if b == 0 {
      PhaseAfter(user, a);
      ModIs(a, a + 1, 0, a);
      ModIs(a, a, 1, 0);
      assert !(On(Ticks(Started(user), a)) <==> a % (a + b) < a);
    } else {
      PhaseAfter(user, a + 1);
      ModIs(a + 1, a + 1, 1, 0);
      ModIs(a + 1, a + b, 0, a + 1);
      assert !(On(Ticks(Started(user), a + 1)) <==> (a + 1) % (a + b) < a);
    }
  }

  // ---------------------------------------------------------------- two blinkers in step

  /** Same lengths, same state, same countdown: what `sync` establishes. */
  predicate InStep(a: Blinker, b: Blinker) {
    a.onLength == b.onLength && a.offLength == b.offLength && a.countdown == b.countdown && a.status == b.status
  }

  function Synced(source: Blinker, target: Blinker): Blinker {
    target.(onLength := source.onLength, offLength := source.offLength, countdown := source.countdown,
            status := source.status)
  }
}
