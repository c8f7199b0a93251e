/**
 * The simulated clock: the globals `timer` (hour) and `Day`, advanced by one
 * iteration of the timer thread's endless loop per tick. An iteration first
 * wraps an hour of 24 to 0 on a new day, then sleeps, then increments the
 * hour; `Ticks` is the state at the loop head, `Sleeping` the state while
 * an iteration sleeps, which is what the rest of the program reads.
 */
module SimClock {
  datatype Time = Time(timer: int, day: int)

  /** The clock before the timer thread has ticked. */
  const Start: Time := Time(0, 1)

  /** One iteration of the timer loop: wrap a full hour 24 to 0 on a new day, then advance the hour. */
  function Step(t: Time): (r: Time)
    ensures 0 <= t.timer <= 24 ==> 1 <= r.timer <= 24
    ensures r.day == t.day || (t.timer == 24 && r.day == t.day + 1)
  {
    if t.timer == 24 then Time(1, t.day + 1) else Time(t.timer + 1, t.day)
  }

  /** The clock after `k` ticks. */
  function Ticks(k: nat): Time {
    if k == 0 then Start else Step(Ticks(k - 1))
  }

  /** After k ≥ 1 ticks the hour is (k-1) mod 24 + 1 and the day is 1 + (k-1) div 24. */
  lemma {:induction false} TicksClosedForm(k: nat)
    requires k >= 1
    ensures Ticks(k) == Time((k - 1) % 24 + 1, 1 + (k - 1) / 24)
  {
    if k > 1 {
      TicksClosedForm(k - 1);
      var q, m := (k - 2) / 24, (k - 2) % 24;
      assert k - 2 == 24 * q + m && 0 <= m < 24;
      if m == 23 {
        assert k - 1 == 24 * (q + 1) + 0;
      } else {
        assert k - 1 == 24 * q + (m + 1);
      }
    }
  }

  /** At the loop head, once ticked, the hour is in 1..24 and the day at least 1. */
  lemma TickedRange(k: nat)
    requires k >= 1
    ensures 1 <= Ticks(k).timer <= 24 && Ticks(k).day >= 1
  {
    TicksClosedForm(k);
  }

  /** The globals while iteration `k` sleeps: the head state of iteration `k`, with an hour of 24 wrapped. */
  function Sleeping(k: nat): Time
    requires k >= 1
  {
    var t := Ticks(k - 1);
    if t.timer == 24 then Time(0, t.day + 1) else t
  }

  /**
   * While iteration k ≥ 1 sleeps the hour is (k-1) mod 24, in 0..23, and
   * the day is 1 + (k-1) div 24: hour 0 recurs every day.
   */
  lemma SleepingClosedForm(k: nat)
    requires k >= 1
    ensures Sleeping(k) == Time((k - 1) % 24, 1 + (k - 1) / 24)
    ensures 0 <= Sleeping(k).timer <= 23
  {
    if k > 1 {
      TicksClosedForm(k - 1);
      var q, m := (k - 2) / 24, (k - 2) % 24;
      assert k - 2 == 24 * q + m && 0 <= m < 24;
      if m == 23 {
        assert k - 1 == 24 * (q + 1) + 0;
      } else {
        assert k - 1 == 24 * q + (m + 1);
      }
    }
  }

  /** The clock as the timer thread updates it in place; `ticks` counts iterations so far. */
  class Clock {
    var timer: int
    var day: int
    ghost var ticks: nat

    ghost predicate Valid()
      reads this
    {
      Time(timer, day) == Ticks(ticks)
    }

    constructor ()
      ensures Valid() && ticks == 0
      ensures timer == 0 && day == 1
    {
      timer, day, ticks := 0, 1, 0;
    }

    /** One iteration of the timer loop. */
    method Tick()
      requires Valid()
      modifies this
      ensures Valid() && ticks == old(ticks) + 1
      ensures Time(timer, day) == Step(old(Time(timer, day)))
    {
      if timer == 24 {
        timer := 0;
        day := day + 1;
      }
      timer := timer + 1;
      ticks := ticks + 1;
    }

    /** `k` iterations of the timer loop. */
    method Run(k: nat)
      requires Valid()
      modifies this
      ensures Valid() && ticks == old(ticks) + k
      ensures ticks >= 1 ==> timer == (ticks - 1) % 24 + 1 && day == 1 + (ticks - 1) / 24
    {
      var i := 0;
      while i < k
        invariant 0 <= i <= k && Valid() && ticks == old(ticks) + i
      {
        Tick();
        i := i + 1;
      }
      if ticks >= 1 {
        TicksClosedForm(ticks);
      }
    }
  }
}
