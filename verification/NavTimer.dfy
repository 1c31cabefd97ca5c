/** Cycle-counting timers of the Navigator. */
module NavTimers {

  /** One Navigator cycle, in seconds: 1 / 20 Hz. */
  const TICK := 0.05

  /** The value of a timer. */
  datatype Timer = Timer(running: bool, remaining: real) {
    function Cancelled(): Timer { this.(running := false) }
    function Ticked(): Timer { if running then this.(remaining := remaining - TICK) else this }
    predicate Expired() { running && remaining <= 0.0 }
    function Restarted(duration: real): Timer {
      if running && remaining > 0.0 then this else Timer(true, duration)
    }
  }

  class NavTimer {
    var running: bool
    var remaining: real

    constructor () ensures !running { running, remaining := false, 0.0; }

    function Value(): Timer reads this { Timer(running, remaining) }

    method Cancel()
      modifies this
      ensures Value() == old(Value()).Cancelled()
    {
      running := false;
    }

    /** Called once per cycle: count this cycle, report expiry. */
    method Check() returns (expired: bool)
      modifies this
      ensures Value() == old(Value()).Ticked() && expired == Value().Expired()
    {
      if !running { return false; }
      remaining := remaining - TICK;
      return remaining <= 0.0;
    }

    method Start(duration: real)
      modifies this
      ensures Value() == Timer(true, duration)
    {
      running, remaining := true, duration;
    }

    /** Start unless running and not expired. */
    method Restart(duration: real)
      modifies this
      ensures Value() == old(Value()).Restarted(duration)
      ensures running && (duration > 0.0 ==> !Value().Expired())
    {
      if running && remaining > 0.0 { return; }
      Start(duration);
    }
  }

  function Checks(t: Timer, n: nat): Timer { if n == 0 then t else Checks(t, n - 1).Ticked() }

  /** A started timer has expired after n checks exactly when n ticks cover its duration. */
  lemma {:induction false} ExpiresAfter(duration: real, n: nat)
    ensures Checks(Timer(true, duration), n) == Timer(true, duration - n as real * TICK)
    ensures Checks(Timer(true, duration), n).Expired() <==> duration <= n as real * TICK
  {
    if n > 0 { ExpiresAfter(duration, n - 1); }
  }

  /** Rounds of Restart and Check, as a controller makes them that restarts its timer in every cycle. */
  function Rounds(t: Timer, duration: real, n: nat): Timer {
    if n == 0 then t else Rounds(t, duration, n - 1).Restarted(duration).Ticked()
  }

  /**
   * Restarting in every cycle does not put off the expiry: from a cancelled timer it comes in
   * round n exactly when n ticks cover the duration and n - 1 did not, as after a single start.
   */
  lemma {:induction false} RestartingKeepsDeadline(remaining: real, duration: real, n: nat)
    requires n > 0 && (n - 1) as real * TICK < duration
    ensures Rounds(Timer(false, remaining), duration, n) == Checks(Timer(true, duration), n)
    ensures Rounds(Timer(false, remaining), duration, n).Expired() <==> duration <= n as real * TICK
  {
    ExpiresAfter(duration, n);
    if n > 1 {
      assert (n - 2) as real * TICK < (n - 1) as real * TICK;
      RestartingKeepsDeadline(remaining, duration, n - 1);
      ExpiresAfter(duration, n - 1);
    } else {
      assert Rounds(Timer(false, remaining), duration, 0) == Timer(false, remaining);
    }
  }
}
