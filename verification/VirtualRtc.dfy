/**
 * The virtual real-time clock: every hardware tick advances a counter of each terminal, and a
 * read waits for its terminal's counter to reach the period its last write asked for.
 */
module VirtualRtc {
  import opened Basics

  const HARDWARE: int := 512
  const MAX_INT: int := 0x7fff_ffff

  /** One terminal's clock: `rtc_int`, `RTC_FLAG`, `RTC_COUNTER_MAX`. */
  datatype Clock = Clock(count: int, flag: int, max: int)

  datatype Event =
    | Tick
    | Enter(terminal: nat)                 // `rtc_read` is called
    | Look(terminal: nat)                  // its loop looks at the flag, and returns if it is set
    | Write(terminal: nat, frequency: int)

  predicate Possible(e: Event) {
    match e
    case Tick => true
    case Enter(t) => t < TERMINALS
    case Look(t) => t < TERMINALS
    case Write(t, f) => t < TERMINALS && f != 0
  }

  /** C's division truncates towards zero. */
  function Quotient(a: int, b: int): int
    requires a >= 0 && b != 0
  {
    if b > 0 then a / b else -(a / -b)
  }

  /** The ticks a read really waits for: at least one, as only a tick raises the flag. */
  function Period(max: int): nat { if max < 1 then 1 else max }

  // ---------------------------------------------------------------- one clock

  function Ticked(c: Clock): Clock {
    var count := if c.count == MAX_INT then -MAX_INT - 1 else c.count + 1;
    c.(count := count, flag := if count >= c.max then 1 else c.flag)
  }

  function ClockStep(c: Clock, e: Event, t: nat): Clock
    requires Possible(e)
  {
    match e
    case Tick => Ticked(c)
    case Enter(u) => if u == t then c.(count := 0) else c
    case Look(u) => if u == t && c.flag != 0 then c.(flag := 0, count := 0) else c
    case Write(u, f) => if u == t then c.(max := Quotient(HARDWARE, f), count := 0) else c
  }

  /** While the flag is down the counter has not reached the period. */
  predicate ClockOk(c: Clock) {
    c.max <= HARDWARE && (c.flag == 0 ==> 0 <= c.count < Period(c.max))
  }

  predicate RunPossible(es: seq<Event>) { forall i | 0 <= i < |es| :: Possible(es[i]) }

  /** The clock of terminal `t` after a run. */
  function ClockAfter(c: Clock, es: seq<Event>, t: nat): Clock
    requires RunPossible(es)
    decreases |es|
  {
    if es == [] then c else ClockAfter(ClockStep(c, es[0], t), es[1..], t)
  }

  function Ticks(es: seq<Event>): nat { if es == [] then 0 else (if es[0].Tick? then 1 else 0) + Ticks(es[1..]) }

  /** How often `rtc_read` returns to terminal `t` in a run. */
  function Returns(c: Clock, es: seq<Event>, t: nat): nat
    requires RunPossible(es)
    decreases |es|
  {
    if es == [] then 0
    else (if es[0] == Look(t) && c.flag != 0 then 1 else 0) + Returns(ClockStep(c, es[0], t), es[1..], t)
  }

  /** Nobody changes the frequency of terminal `t`. */
  predicate Steady(es: seq<Event>, t: nat) {
    forall i | 0 <= i < |es| :: es[i].Write? ==> es[i].terminal != t
  }

  /** Ticks already gathered towards the next return. */
  function Credit(c: Clock): int { if c.flag != 0 then Period(c.max) else c.count }

  lemma ClockKept(c: Clock, e: Event, t: nat)
    requires ClockOk(c) && Possible(e)
    ensures ClockOk(ClockStep(c, e, t))
  {
    if e.Write? && e.frequency > 0 { Slower(e.frequency); }
    if e.Write? && e.frequency < 0 { Slower(-e.frequency); }
  }

  lemma Slower(f: int)
    requires f > 0
    ensures 0 <= HARDWARE / f <= HARDWARE
  {
  }

  /**
   * Whatever the three terminals do, `k` returns of `rtc_read` to a terminal at a steady frequency
   * cost at least `k` periods of ticks, less what the clock had gathered at the start.
   */
  lemma {:induction false} ReturnsCostTicks(c: Clock, es: seq<Event>, t: nat)
    requires ClockOk(c) && RunPossible(es) && Steady(es, t)
    ensures Returns(c, es, t) * Period(c.max) <= Ticks(es) + Credit(c)
    decreases |es|
  {
    if es != [] {
      var d := ClockStep(c, es[0], t);
      ClockKept(c, es[0], t);
      assert Possible(es[0]) && (es[0].Write? ==> es[0].terminal != t);
      assert RunPossible(es[1..]) && Steady(es[1..], t);
      ReturnsCostTicks(d, es[1..], t);
      assert d.max == c.max;
      assert Credit(d) <= Credit(c) + (if es[0].Tick? then 1 else 0)
                          - (if es[0] == Look(t) && c.flag != 0 then Period(c.max) else 0);
      Distribute(Returns(d, es[1..], t), Period(c.max));
    }
  }

  lemma Distribute(n: nat, p: nat)
    ensures (1 + n) * p == p + n * p
  {
  }

  /** The clock just after a return. */
  function JustReturned(max: int): Clock { Clock(0, 0, max) }

  /** Consecutive returns are a period apart: `k` more returns after one take `k` periods of ticks. */
  lemma ReturnsArePeriodsApart(max: int, es: seq<Event>, t: nat)
    requires max <= HARDWARE && RunPossible(es) && Steady(es, t)
    ensures Returns(JustReturned(max), es, t) * Period(max) <= Ticks(es)
  {
    ReturnsCostTicks(JustReturned(max), es, t);
  }

  function TickRun(n: nat): seq<Event> { seq(n, _ => Tick) }

  lemma {:induction false} AfterTicks(c: Clock, n: nat, t: nat)
    requires ClockOk(c) && n <= MAX_INT - HARDWARE
    ensures var d := ClockAfter(c, TickRun(n), t);
            && ClockOk(d) && d.max == c.max
            && (d.flag != 0 <==> c.flag != 0 || (c.count + n >= Period(c.max) && n > 0))
            && (d.flag == 0 ==> d.count == c.count + n)
    decreases n
  {
    if n > 0 {
      var es := TickRun(n);
      assert es[0] == Tick && es[1..] == TickRun(n - 1);
      ClockKept(c, Tick, t);
      AfterTicks(Ticked(c), n - 1, t);
    }
  }

  /**
   * A program that comes back `d` ticks after a return finds the flag up `n` ticks later exactly
   * when `d` or `n` is a full period: from return to return it takes a period if it comes back
   * at once, `d` plus a period if it comes back within one, and `d` if it comes later.
   */
  lemma NextReturn(max: int, d: nat, n: nat, t: nat)
    requires max <= HARDWARE && d + n <= MAX_INT - HARDWARE && t < TERMINALS
    ensures var called := ClockStep(ClockAfter(JustReturned(max), TickRun(d), t), Enter(t), t);
            var looked := ClockAfter(called, TickRun(n), t);
            looked.flag != 0 <==> d >= Period(max) || n >= Period(max)
  {
    AfterTicks(JustReturned(max), d, t);
    var c := ClockAfter(JustReturned(max), TickRun(d), t);
    ClockKept(c, Enter(t), t);
    AfterTicks(ClockStep(c, Enter(t), t), n, t);
  }

  lemma {:induction false} RunTwo(c: Clock, es: seq<Event>, fs: seq<Event>, t: nat)
    requires RunPossible(es) && RunPossible(fs)
    ensures RunPossible(es + fs)
    ensures ClockAfter(c, es + fs, t) == ClockAfter(ClockAfter(c, es, t), fs, t)
    ensures Returns(c, es + fs, t) == Returns(c, es, t) + Returns(ClockAfter(c, es, t), fs, t)
    ensures Ticks(es + fs) == Ticks(es) + Ticks(fs)
    decreases |es|
  {
    if es == [] {
      assert es + fs == fs;
    } else {
      assert (es + fs)[0] == es[0] && (es + fs)[1..] == es[1..] + fs;
      RunTwo(ClockStep(c, es[0], t), es[1..], fs, t);
    }
  }

  lemma {:induction false} TickRunIs(c: Clock, n: nat, t: nat)
    ensures Ticks(TickRun(n)) == n && Returns(c, TickRun(n), t) == 0
    decreases n
  {
    if n > 0 {
      assert TickRun(n)[0] == Tick && TickRun(n)[1..] == TickRun(n - 1);
      TickRunIs(Ticked(c), n - 1, t);
    }
  }

  /** A program of terminal `t` that calls `rtc_read` `k` times in a loop, each returning as early as it can. */
  function Busy(k: nat, period: nat, t: nat): seq<Event> {
    if k == 0 then [] else OneRead(period, t) + Busy(k - 1, period, t)
  }

  function OneRead(period: nat, t: nat): seq<Event> { [Enter(t)] + TickRun(period) + [Look(t)] }

  lemma OneReadReturns(max: int, t: nat)
    requires max <= HARDWARE && t < TERMINALS
    ensures var es, c := OneRead(Period(max), t), JustReturned(max);
            && RunPossible(es) && Steady(es, t) && Ticks(es) == Period(max)
            && Returns(c, es, t) == 1 && ClockAfter(c, es, t) == c
  {
    var c, p := JustReturned(max), Period(max);
    var wait := TickRun(p);
    AfterTicks(c, p, t);
    TickRunIs(c, p, t);
    RunTwo(c, [Enter(t)], wait, t);
    var d := ClockAfter(c, wait, t);
    assert [Enter(t)][1..] == [] && [Look(t)][1..] == [];
    assert ClockAfter(c, [Enter(t)], t) == c by { assert ClockAfter(c, [], t) == c; }
    assert Returns(c, [Enter(t)], t) == 0;
    assert ClockAfter(d, [Look(t)], t) == c by { assert ClockAfter(c, [], t) == c; }
    assert Returns(d, [Look(t)], t) == 1 by { assert Returns(c, [], t) == 0; }
    RunTwo(c, [Enter(t)] + wait, [Look(t)], t);
  }

  lemma {:induction false} BusyReturns(k: nat, max: int, t: nat)
    requires max <= HARDWARE && t < TERMINALS
    ensures var es := Busy(k, Period(max), t);
            && RunPossible(es) && Steady(es, t)
            && Returns(JustReturned(max), es, t) == k && Ticks(es) == k * Period(max)
  {
    if k > 0 {
      OneReadReturns(max, t);
      BusyReturns(k - 1, max, t);
      RunTwo(JustReturned(max), OneRead(Period(max), t), Busy(k - 1, Period(max), t), t);
      Distribute(k - 1, Period(max));
    }
  }

  /** What is known of the clock of terminal `t` after any run without a write of its own. */
  lemma {:induction false} SteadyKeeps(c: Clock, es: seq<Event>, t: nat)
    requires ClockOk(c) && RunPossible(es) && Steady(es, t)
    ensures ClockOk(ClockAfter(c, es, t)) && ClockAfter(c, es, t).max == c.max
    decreases |es|
  {
    if es != [] {
      ClockKept(c, es[0], t);
      assert Possible(es[0]) && (es[0].Write? ==> es[0].terminal != t);
      SteadyKeeps(ClockStep(c, es[0], t), es[1..], t);
    }
  }

  /** The run of a program that writes frequency `f` and whose first read then returns after `before`. */
  function Opening(f: int, before: seq<Event>, t: nat): seq<Event> {
    [Write(t, f)] + before + [Look(t)]
  }

  /** The first return after a write leaves a clock whose period is that of the frequency written. */
  lemma AfterFirstReturn(c: Clock, f: int, before: seq<Event>, t: nat)
    requires ClockOk(c) && f != 0 && t < TERMINALS && RunPossible(before) && Steady(before, t)
    requires RunPossible([Write(t, f)] + before) && ClockAfter(c, [Write(t, f)] + before, t).flag != 0
    ensures RunPossible(Opening(f, before, t))
    ensures ClockAfter(c, Opening(f, before, t), t) == JustReturned(Quotient(HARDWARE, f))
    ensures Quotient(HARDWARE, f) <= HARDWARE
  {
    var d := ClockStep(c, Write(t, f), t);
    ClockKept(c, Write(t, f), t);
    assert [Write(t, f)][1..] == [] && ClockAfter(d, [], t) == d;
    assert ClockAfter(c, [Write(t, f)], t) == d;
    RunTwo(c, [Write(t, f)], before, t);
    SteadyKeeps(d, before, t);
    RunTwo(c, [Write(t, f)] + before, [Look(t)], t);
    var e := ClockAfter(c, [Write(t, f)] + before, t);
    assert [Look(t)][1..] == [] && ClockAfter(e, [Look(t)], t) == ClockStep(e, Look(t), t) by {
      assert ClockAfter(ClockStep(e, Look(t), t), [], t) == ClockStep(e, Look(t), t);
    }
  }

  /**
   * A program writes a frequency, whatever its clock was, and reads. After its first return `k` more
   * returns take at least `k` periods of `512 / f` ticks (one tick if that is less), over every run in
   * which it writes no other frequency, writes of other terminals included; and a busy loop attains it.
   */
  lemma WrittenFrequencyHolds(c: Clock, f: int, before: seq<Event>, after: seq<Event>, k: nat, t: nat)
    requires ClockOk(c) && f != 0 && t < TERMINALS && RunPossible(before) && Steady(before, t)
    requires RunPossible([Write(t, f)] + before) && ClockAfter(c, [Write(t, f)] + before, t).flag != 0
    requires RunPossible(after) && Steady(after, t)
    ensures RunPossible(Opening(f, before, t)) && RunPossible(Busy(k, Period(Quotient(HARDWARE, f)), t))
    ensures var d, p := ClockAfter(c, Opening(f, before, t), t), Period(Quotient(HARDWARE, f));
            && Returns(d, after, t) * p <= Ticks(after)
            && Returns(d, Busy(k, p, t), t) == k && Ticks(Busy(k, p, t)) == k * p
  {
    AfterFirstReturn(c, f, before, t);
    ReturnsArePeriodsApart(Quotient(HARDWARE, f), after, t);
    BusyReturns(k, Quotient(HARDWARE, f), t);
  }

  /** A write to another terminal is not seen: the clock goes on as if it had not happened. */
  lemma {:induction false} OthersWritesUnseen(c: Clock, es: seq<Event>, u: nat, f: int, t: nat)
    requires RunPossible(es) && u < TERMINALS && u != t && f != 0
    ensures RunPossible([Write(u, f)] + es)
    ensures Returns(c, [Write(u, f)] + es, t) == Returns(c, es, t)
    ensures ClockAfter(c, [Write(u, f)] + es, t) == ClockAfter(c, es, t)
  {
    assert ([Write(u, f)] + es)[1..] == es;
  }

  /**
   * A program that writes frequency `f` is promised `f` reads a second, that is in 512 ticks. After
   * its first return, the least number of ticks in which `f` more reads return is 512 exactly if
   * `f` divides 512: the busy loop takes that many ticks, and no run of the three terminals has
   * `f` returns in fewer.
   */
  lemma FrequencyIsExact(c: Clock, f: int, before: seq<Event>, t: nat)
    requires ClockOk(c) && f > 0 && t < TERMINALS && RunPossible(before) && Steady(before, t)
    requires RunPossible([Write(t, f)] + before) && ClockAfter(c, [Write(t, f)] + before, t).flag != 0
    ensures RunPossible(Opening(f, before, t)) && RunPossible(Busy(f, Period(Quotient(HARDWARE, f)), t))
    ensures var d, busy := ClockAfter(c, Opening(f, before, t), t), Busy(f, Period(Quotient(HARDWARE, f)), t);
            && Steady(busy, t) && Returns(d, busy, t) == f
            && (forall es | RunPossible(es) && Steady(es, t) && Returns(d, es, t) >= f :: Ticks(busy) <= Ticks(es))
            && (Ticks(busy) == HARDWARE <==> HARDWARE % f == 0)
  {
    AfterFirstReturn(c, f, before, t);
    var max := Quotient(HARDWARE, f);
    BusyReturns(f, max, t);
    forall es | RunPossible(es) && Steady(es, t) && Returns(JustReturned(max), es, t) >= f
      ensures f * Period(max) <= Ticks(es)
    {
      ReturnsArePeriodsApart(max, es, t);
      Monotone(f, Returns(JustReturned(max), es, t), Period(max));
    }
    WholePeriods(f);
  }

  lemma Monotone(a: nat, b: nat, p: nat)
    requires a <= b
    ensures a * p <= b * p
  {
  }

  lemma WholePeriods(f: int)
    requires f > 0
    ensures f * Period(Quotient(HARDWARE, f)) == HARDWARE <==> HARDWARE % f == 0
  {
    assert HARDWARE == f * (HARDWARE / f) + HARDWARE % f;
    if f > HARDWARE {
      assert HARDWARE / f == 0;
    } else {
      assert HARDWARE / f >= 1;
    }
  }

  // ---------------------------------------------------------------- the driver

  class Driver {
    const rtcInt: array<int>
    const rtcFlag: array<int>
    const counterMax: array<int>

    ghost predicate Valid()
      reads this, rtcInt, rtcFlag, counterMax
    {
      && rtcInt.Length == rtcFlag.Length == counterMax.Length == TERMINALS
      && rtcInt != rtcFlag && rtcFlag != counterMax && rtcInt != counterMax
      && forall t | 0 <= t < TERMINALS :: ClockOk(Clock(rtcInt[t], rtcFlag[t], counterMax[t]))
    }

    ghost function ClockOf(t: nat): Clock
      requires Valid() && t < TERMINALS
      reads this, rtcInt, rtcFlag, counterMax
    {
      Clock(rtcInt[t], rtcFlag[t], counterMax[t])
    }

    /** All three clocks made the step. */
    twostate predicate Stepped(e: Event)
      requires old(Valid()) && Valid() && Possible(e)
      reads this, rtcInt, rtcFlag, counterMax
    {
      forall t | 0 <= t < TERMINALS :: ClockOf(t) == ClockStep(old(ClockOf(t)), e, t)
    }

    /** Zeroed variables, as at boot: the period is 0 until the first write. */
    constructor ()
      ensures Valid() && fresh(rtcInt) && fresh(rtcFlag) && fresh(counterMax)
      ensures forall t | 0 <= t < TERMINALS :: ClockOf(t) == Clock(0, 0, 0)
    {
      rtcInt := new int[TERMINALS](_ => 0);
      rtcFlag := new int[TERMINALS](_ => 0);
      counterMax := new int[TERMINALS](_ => 0);
    }

    /** `rtc_handler`. */
    method Handler()
      requires Valid()
      modifies rtcInt, rtcFlag
      ensures Valid() && Stepped(Tick)
    {
      forall t | 0 <= t < TERMINALS ensures ClockOk(Ticked(ClockOf(t))) { ClockKept(ClockOf(t), Tick, t); }
      hide ClockOk;
      CountTick();
      RaiseFlags();
    }

    method CountTick()
      requires rtcInt.Length == TERMINALS
      modifies rtcInt
      ensures forall t | 0 <= t < TERMINALS :: rtcInt[t] == Wrapped(old(rtcInt[t]) + 1)
    {
      rtcInt[0] := Wrapped(rtcInt[0] + 1);
      rtcInt[1] := Wrapped(rtcInt[1] + 1);
      rtcInt[2] := Wrapped(rtcInt[2] + 1);
    }

    method RaiseFlags()
      requires rtcInt.Length == rtcFlag.Length == counterMax.Length == TERMINALS
      requires rtcInt != rtcFlag && rtcFlag != counterMax
      modifies rtcFlag
      ensures forall t | 0 <= t < TERMINALS :: rtcFlag[t] == if rtcInt[t] >= counterMax[t] then 1 else old(rtcFlag[t])
    {
      if rtcInt[0] >= counterMax[0] { rtcFlag[0] := 1; }
      if rtcInt[1] >= counterMax[1] { rtcFlag[1] := 1; }
      if rtcInt[2] >= counterMax[2] { rtcFlag[2] := 1; }
    }

    function Wrapped(v: int): int { if v == MAX_INT + 1 then -MAX_INT - 1 else v }

    /** The entry of `rtc_read`. */
    method ReadEnter(scheduled: nat)
      requires Valid() && scheduled < TERMINALS
      modifies rtcInt
      ensures Valid() && Stepped(Enter(scheduled))
    {
      rtcInt[scheduled] := 0;
    }

    /** One turn of its loop, and the return when the flag is up. */
    method ReadLook(scheduled: nat) returns (returned: bool)
      requires Valid() && scheduled < TERMINALS
      modifies rtcInt, rtcFlag
      ensures Valid() && Stepped(Look(scheduled))
      ensures returned <==> old(ClockOf(scheduled)).flag != 0
    {
      if rtcFlag[scheduled] == 0 { return false; }
      rtcFlag[scheduled] := 0;
      rtcInt[scheduled] := 0;
      return true;
    }

    /** `rtc_write`; only a call of four bytes sets a frequency, and zero is a divide error. */
    method WriteFrequency(scheduled: nat, nbytes: int, frequency: int) returns (r: int)
      requires Valid() && scheduled < TERMINALS && frequency != 0
      modifies rtcInt, counterMax
      ensures Valid()
      ensures if nbytes == 4 then r == 0 && Stepped(Write(scheduled, frequency))
              else r == -1 && forall t | 0 <= t < TERMINALS :: ClockOf(t) == old(ClockOf(t))
    {
      if nbytes != 4 { return -1; }
      ClockKept(ClockOf(scheduled), Write(scheduled, frequency), scheduled);
      counterMax[scheduled] := Quotient(HARDWARE, frequency);
      rtcInt[scheduled] := 0;
      return 0;
    }
  }
}
