/** The passing of time, as a session sees it. */
module Clocks {

  const NANOS_PER_SEC: nat := 1_000_000_000

  /** A wall clock reading is truncated to whole seconds. */
  function Seconds(ns: nat): nat {
    ns / NANOS_PER_SEC
  }

  /** Truncation loses less than a second. */
  lemma SecondsExactly(ns: nat, secs: nat)
    ensures Seconds(ns) == secs <==> secs * NANOS_PER_SEC <= ns < (secs + 1) * NANOS_PER_SEC
  {
  }

  /**
   One clock, in nanoseconds since the Unix epoch. `Instant` and `SystemTime` are both read from it,
   so the wall clock is assumed not to be set back during a session. Time passes by an arbitrary
   amount at every observation.
   */
  class Clock {
    var now: nat

    constructor (start: nat)
      ensures now == start
    {
      now := start;
    }

    /** Some time passes. */
    method Pass()
      modifies this
      ensures old(now) <= now
    {
      var delay: nat :| true;
      now := now + delay;
    }

    /** `Instant::now()`. */
    method Instant() returns (t: nat)
      modifies this
      ensures old(now) <= now == t
    {
      Pass();
      t := now;
    }

    /** `SystemTime::now()` in whole seconds since the epoch. */
    method NowSecs() returns (t: nat)
      modifies this
      ensures old(now) <= now && t == Seconds(now)
    {
      Pass();
      t := Seconds(now);
    }

    /** `thread::sleep`: at least the given time passes. */
    method Sleep(secs: nat)
      modifies this
      ensures old(now) + secs * NANOS_PER_SEC <= now
    {
      now := now + secs * NANOS_PER_SEC;
      Pass();
    }
  }
}
