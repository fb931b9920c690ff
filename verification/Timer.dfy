/** The periodic timer: each interrupt programs the deadline of the next one. */
module Timer {
  import opened Basics

  const NANOS_PER_SEC: nat := 1_000_000_000
  const TICKS_PER_SEC: nat := 100
  const PERIOD: nat := NANOS_PER_SEC / TICKS_PER_SEC
  const U32_MAX: nat := 0xFFFF_FFFF

  /** Local APIC ticks and nanoseconds per second, the ratio that turns one into the other. */
  const LAPIC_TICKS_PER_SEC: nat := 1_000_000_000

  /** The deadline programmed last, and the stored `NEXT_DEADLINE`. */
  datatype Clock = Clock(armed: nat, next: nat)

  /** `update_timer` at time `now`. */
  function Fire(c: Clock, now: nat): Clock {
    var deadline := if now >= c.next then now + PERIOD else c.next;
    Clock(deadline, deadline + PERIOD)
  }

  /** The count loaded into the timer; `None` is the failed assertion. */
  function TimerCount(deadline: nat, now: nat): Option<nat> {
    if now < deadline then
      var ticks := (deadline - now) * LAPIC_TICKS_PER_SEC / NANOS_PER_SEC;
      if ticks > U32_MAX then None else Some(if ticks == 0 then 1 else ticks)
    else Some(1)
  }

  class PeriodicTimer {
    var nextDeadline: nat
    /** The deadline and the count the hardware was given. */
    var armed: nat
    var count: nat

    ghost function State(): Clock reads this {
      Clock(armed, nextDeadline)
    }

    constructor ()
      ensures State() == BOOT
    {
      nextDeadline, armed, count := 0, 0, 0;
    }

    /**
     * `update_timer` and the `set_oneshot_timer` it ends with, which reads the clock again; `ok` is false
     * when the assertion on the count fails.
     */
    method UpdateTimer(now: nat, later: nat) returns (ok: bool)
      modifies this
      ensures State() == Fire(old(State()), now)
      ensures ok <==> TimerCount(armed, later).Some?
      ensures ok ==> TimerCount(armed, later) == Some(count)
    {
      var deadline := nextDeadline;
      if now >= deadline {
        deadline := now + PERIOD;
      }
      nextDeadline := deadline + PERIOD;
      armed := deadline;
      ok := true;
      if later < deadline {
        var ticks := (deadline - later) * LAPIC_TICKS_PER_SEC / NANOS_PER_SEC;
        if ticks > U32_MAX { return false; }
        count := if ticks > 1 then ticks else 1;
      } else {
        count := 1;
      }
    }
  }

  const BOOT := Clock(0, 0)

  /** The stored deadline is at most one period after the programmed one, as it is before the first interrupt. */
  predicate InStep(c: Clock) {
    c.next <= c.armed + PERIOD
  }

  /**
   * A deadline lies in the future and is followed by the stored one; it is at most a period away if and only
   * if the stored deadline was, and so whenever the interrupt did not come early.
   */
  lemma {:induction false} DeadlineNearIff(c: Clock, now: nat)
    ensures var f := Fire(c, now);
      && now < f.armed && c.next <= f.armed && f.next == f.armed + PERIOD && InStep(f)
      && (f.armed <= now + PERIOD <==> c.next <= now + PERIOD)
    ensures InStep(c) && c.armed <= now ==> Fire(c, now).armed <= now + PERIOD
  {
  }

  // ---- runs

  function FireAll(c: Clock, times: seq<nat>): Clock
    decreases |times|
  {
    if times == [] then c else FireAll(Fire(c, times[0]), times[1..])
  }

  /** Every interrupt fires at or after the deadline programmed for it. */
  predicate NeverEarly(c: Clock, times: seq<nat>)
    decreases |times|
  {
    times == [] || (c.armed <= times[0] && NeverEarly(Fire(c, times[0]), times[1..]))
  }

  /** Every interrupt fires before the deadline stored for the one after it. */
  predicate InTime(c: Clock, times: seq<nat>)
    decreases |times|
  {
    times == [] || (times[0] < c.next && InTime(Fire(c, times[0]), times[1..]))
  }

  /** Over any run the stored deadline advances by at least a period each, and by no more iff all were in time. */
  lemma {:induction false} NoDriftIff(c: Clock, times: seq<nat>)
    ensures FireAll(c, times).next >= c.next + |times| * PERIOD
    ensures FireAll(c, times).next == c.next + |times| * PERIOD <==> InTime(c, times)
    decreases |times|
  {
    if times != [] {
      NoDriftIff(Fire(c, times[0]), times[1..]);
    }
  }

  /** After any run without early interrupts the timer is a period away at most, and its count fits 32 bits. */
  lemma {:induction false} CountAlwaysFits(c: Clock, times: seq<nat>, later: nat)
    requires InStep(c) && NeverEarly(c, times) && times != [] && times[|times| - 1] <= later
    ensures var now, r := times[|times| - 1], FireAll(c, times);
      now < r.armed <= now + PERIOD && TimerCount(r.armed, later).Some?
    decreases |times|
  {
    var c' := Fire(c, times[0]);
    DeadlineNearIff(c, times[0]);
    if |times| > 1 {
      CountAlwaysFits(c', times[1..], later);
    } else {
      assert FireAll(c', times[1..]) == c';
    }
  }

  /** The first interrupt after a stored deadline that has passed sets the pace of those that follow. */
  lemma {:induction false} PaceIff(c: Clock, times: seq<nat>)
    requires times != [] && c.next <= times[0]
    ensures FireAll(c, times).armed >= times[0] + |times| * PERIOD
    ensures FireAll(c, times).armed == times[0] + |times| * PERIOD <==> InTime(Fire(c, times[0]), times[1..])
  {
    NoDriftIff(Fire(c, times[0]), times[1..]);
    NextFollows(c, times);
    OnePeriodMore(|times| - 1);
  }

  lemma {:induction false} OnePeriodMore(n: nat)
    ensures (n + 1) * PERIOD == n * PERIOD + PERIOD
  {
  }

  /** From boot on, deadlines lie whole periods apart iff no interrupt after the first misses its period. */
  lemma {:induction false} NoDriftFromBoot(times: seq<nat>)
    requires times != []
    ensures FireAll(BOOT, times).armed >= times[0] + |times| * PERIOD
    ensures FireAll(BOOT, times).armed == times[0] + |times| * PERIOD
       <==> InTime(Fire(BOOT, times[0]), times[1..])
  {
    PaceIff(BOOT, times);
  }

  /** From boot on, the count of every interrupt fits 32 bits, the first one's included, if none comes early. */
  lemma {:induction false} CountFitsFromBoot(times: seq<nat>, later: nat)
    requires times != [] && NeverEarly(BOOT, times) && times[|times| - 1] <= later
    ensures TimerCount(FireAll(BOOT, times).armed, later).Some?
  {
    CountAlwaysFits(BOOT, times, later);
  }

  lemma {:induction false} NextFollows(c: Clock, times: seq<nat>)
    requires times != []
    ensures FireAll(c, times).next == FireAll(c, times).armed + PERIOD
    decreases |times|
  {
    var c' := Fire(c, times[0]);
    if |times| > 1 {
      NextFollows(c', times[1..]);
    } else {
      assert FireAll(c', times[1..]) == c';
    }
  }

  /** Early interrupts are not caught: each one pushes the deadline a whole period further out. */
  lemma {:induction false} EarlyInterruptsRunAway(c: Clock, now: nat, n: nat)
    requires now < c.next
    ensures FireAll(c, seq(n, _ => now)).next == c.next + n * PERIOD
    decreases n
  {
    if n > 0 {
      var times := seq(n, _ => now);
      assert times[1..] == seq(n - 1, _ => now);
      EarlyInterruptsRunAway(Fire(c, now), now, n - 1);
    }
  }

  // ---- what is loaded

  /**
   * A nanosecond being a tick, the count runs down at the deadline, or a tick from now if that has passed; there
   * is none if and only if the deadline is more than 32 bits away.
   */
  lemma {:induction false} CountIsTimeLeft(deadline: nat, now: nat)
    ensures TimerCount(deadline, now).None? <==> deadline > now + 0xFFFF_FFFF
    ensures TimerCount(deadline, now).Some? ==>
      var count := TimerCount(deadline, now).value;
      count >= 1 && now + count == if deadline > now then deadline else now + 1
  {
    if now < deadline {
      assert (deadline - now) * LAPIC_TICKS_PER_SEC / NANOS_PER_SEC == deadline - now;
    }
  }

  /** The times at which a timer fires that runs down each count as it is loaded, with the clock read just once. */
  function OnCount(c: Clock, now: nat, n: nat): seq<nat>
    decreases n
  {
    if n == 0 then []
    else
      var f := Fire(c, now);
      [now] + OnCount(f, now + (if TimerCount(f.armed, now).Some? then TimerCount(f.armed, now).value else 1), n - 1)
  }

  lemma {:induction false} OneOnCount(c: Clock, now: nat, n: nat)
    requires (c.next <= now || c.next == now + PERIOD) && n > 0
    ensures var f, due := Fire(c, now), now + PERIOD;
      f.armed == due && f.next == due + PERIOD && OnCount(c, now, n) == [now] + OnCount(f, due, n - 1)
  {
    CountIsTimeLeft(now + PERIOD, now);
  }

  lemma {:induction false} EarlyCons(c: Clock, now: nat, times: seq<nat>)
    requires c.armed <= now && NeverEarly(Fire(c, now), times)
    ensures NeverEarly(c, [now] + times)
  {
    ConsTail([now], times);
    EmptyAppend(times);
  }

  /** `n` times, a period apart. */
  function Every(now: nat, n: nat): seq<nat> {
    seq(n, k => now + k * PERIOD)
  }

  lemma {:induction false} EveryCons(now: nat, n: nat)
    requires n > 0
    ensures Every(now, n) == [now] + Every(now + PERIOD, n - 1)
  {
    var a, b := Every(now, n), Every(now + PERIOD, n - 1);
    forall k | 0 < k < n ensures a[k] == b[k - 1] {
      assert a[k] == now + k * PERIOD && b[k - 1] == now + PERIOD + (k - 1) * PERIOD;
    }
  }

  lemma {:induction false} OnCountIsEvery(c: Clock, now: nat, n: nat)
    requires c.next <= now || c.next == now + PERIOD
    ensures OnCount(c, now, n) == Every(now, n)
    decreases n
  {
    if n > 0 {
      OneOnCount(c, now, n);
      EveryCons(now, n);
      OnCountIsEvery(Fire(c, now), now + PERIOD, n - 1);
    }
  }

  lemma {:induction false} EveryIsNotEarly(c: Clock, now: nat, n: nat)
    requires c.armed <= now && (c.next <= now || c.next == now + PERIOD)
    ensures NeverEarly(c, Every(now, n))
    decreases n
  {
    if n > 0 {
      OneOnCount(c, now, n);
      EveryCons(now, n);
      EveryIsNotEarly(Fire(c, now), now + PERIOD, n - 1);
      EarlyCons(c, now, Every(now + PERIOD, n - 1));
    }
  }

  /** From boot on, with the first interrupt at any time, such a timer is never early and fires once a period. */
  lemma {:induction false} PeriodicFromBoot(now: nat, n: nat)
    ensures OnCount(BOOT, now, n) == Every(now, n) && NeverEarly(BOOT, Every(now, n))
  {
    OnCountIsEvery(BOOT, now, n);
    EveryIsNotEarly(BOOT, now, n);
  }

  // ---- exactly when the count assertion holds

  /** The count of an interrupt fits if and only if the stored deadline is not too far ahead of the second reading. */
  lemma {:induction false} CountFitsIff(c: Clock, now: nat, later: nat)
    requires now <= later
    ensures TimerCount(Fire(c, now).armed, later).Some? <==> c.next <= later + U32_MAX
  {
    var armed := Fire(c, now).armed;
    assert PERIOD <= U32_MAX;
    if later < armed {
      SameTicks(armed - later);
    }
  }

  /** A nanosecond is a tick. */
  lemma {:induction false} SameTicks(n: nat)
    ensures n * LAPIC_TICKS_PER_SEC / NANOS_PER_SEC == n
  {
  }

  /** An interrupt, with the times at which its handler reads the clock. */
  datatype Tick = Tick(now: nat, later: nat)

  function Nows(ticks: seq<Tick>): (times: seq<nat>)
    ensures |times| == |ticks|
  {
    seq(|ticks|, i requires 0 <= i < |ticks| => ticks[i].now)
  }

  /** No interrupt of the run fails the assertion. */
  predicate CountsFit(c: Clock, ticks: seq<Tick>)
    decreases |ticks|
  {
    ticks == [] ||
    (TimerCount(Fire(c, ticks[0].now).armed, ticks[0].later).Some? && CountsFit(Fire(c, ticks[0].now), ticks[1..]))
  }

  /** Before each interrupt the stored deadline is at most a full count ahead of its second reading of the clock. */
  predicate NeverFarAhead(c: Clock, ticks: seq<Tick>) {
    forall i :: 0 <= i < |ticks| ==> FireAll(c, Nows(ticks)[..i]).next <= ticks[i].later + U32_MAX
  }

  lemma {:induction false} AheadFromNext(c: Clock, ticks: seq<Tick>)
    requires ticks != []
    ensures NeverFarAhead(c, ticks) <==>
      c.next <= ticks[0].later + U32_MAX && NeverFarAhead(Fire(c, ticks[0].now), ticks[1..])
  {
    var times, c', rest := Nows(ticks), Fire(c, ticks[0].now), ticks[1..];
    assert times[..0] == [];
    forall i | 0 <= i < |rest| ensures FireAll(c', Nows(rest)[..i]) == FireAll(c, times[..i + 1]) {
      assert times[..i + 1][1..] == Nows(rest)[..i] && times[..i + 1][0] == ticks[0].now;
    }
    if NeverFarAhead(c, ticks) {
      assert FireAll(c, times[..0]).next <= ticks[0].later + U32_MAX;
      forall i | 0 <= i < |rest| ensures FireAll(c', Nows(rest)[..i]).next <= rest[i].later + U32_MAX {
        assert FireAll(c, times[..i + 1]).next <= ticks[i + 1].later + U32_MAX;
      }
    }
    if c.next <= ticks[0].later + U32_MAX && NeverFarAhead(c', rest) {
      forall i | 0 <= i < |ticks| ensures FireAll(c, times[..i]).next <= ticks[i].later + U32_MAX {
        if i > 0 {
          assert FireAll(c', Nows(rest)[..i - 1]).next <= rest[i - 1].later + U32_MAX;
        }
      }
    }
  }

  /** A run passes all its assertions if and only if the stored deadline never gets too far ahead. */
  lemma {:induction false} CountsFitIff(c: Clock, ticks: seq<Tick>)
    requires forall i :: 0 <= i < |ticks| ==> ticks[i].now <= ticks[i].later
    ensures CountsFit(c, ticks) <==> NeverFarAhead(c, ticks)
    decreases |ticks|
  {
    if ticks != [] {
      CountFitsIff(c, ticks[0].now, ticks[0].later);
      CountsFitIff(Fire(c, ticks[0].now), ticks[1..]);
      AheadFromNext(c, ticks);
    }
  }

  /** With all of them at time 0 after boot, the 430th interrupt is the first to fail it. */
  lemma {:induction false} BootRunFailsIff(n: nat)
    requires n >= 1
    ensures TimerCount(FireAll(BOOT, seq(n, _ => 0)).armed, 0).None? <==> n >= 430
  {
    var times := seq(n, _ => 0);
    assert times[1..] == seq(n - 1, _ => 0) && times[0] == 0;
    EarlyInterruptsRunAway(Fire(BOOT, 0), 0, n - 1);
    NextFollows(BOOT, times);
    OnePeriodMore(n - 1);
    assert FireAll(BOOT, times).armed == n * PERIOD;
    SameTicks(n * PERIOD);
    PeriodsPast(n);
  }

  lemma {:induction false} PeriodsPast(n: nat)
    ensures n * PERIOD > U32_MAX <==> n >= 430
  {
    assert PERIOD == 10_000_000;
  }
}
