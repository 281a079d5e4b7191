/**
 * lib/LimitConcurrent.js: at most `max` calls in flight.
 */
module ConcurrentLimit {
  import opened Values
  import Policy

  class LimitConcurrent {
    var onUnblock: Notifier
    const max: int
    var running: int

    ghost function State(): Policy.PolicyState
      reads this
    {
      Policy.Concurrent(onUnblock, max, running)
    }

    constructor (max: int)
      ensures State() == Policy.Concurrent(Default, max, 0)
    {
      onUnblock := Default;
      this.max := max;
      running := 0;
    }

    /** Inherited from the base limit: installs `f`, or refuses a non-function. */
    method SetOnUnblock(f: Value) returns (ok: bool)
      modifies this`onUnblock
      ensures ok == f.Fn?
      ensures onUnblock == if ok then Installed(f.f) else old(onUnblock)
    {
      if !f.Fn? {
        return false;
      }
      onUnblock := Installed(f.f);
      ok := true;
    }

    /** Refuses when `running >= max`; otherwise adds one and returns the new
        count, which the limiter reads as granted unless it is 0. */
    method Acquire() returns (granted: bool)
      modifies this`running
      ensures old(running) >= max ==> !granted && running == old(running)
      ensures old(running) < max ==> running == old(running) + 1 && granted == (running != 0)
    {
      if running >= max {
        return false;
      }
      running := running + 1;
      granted := running != 0;
    }

    /** Takes one off `running` and notifies, also on an undo. */
    method Release(isUndo: bool) returns (signal: Signal)
      modifies this`running
      ensures running == old(running) - 1
      ensures signal == Unblock(onUnblock)
    {
      running := running - 1;
      signal := Unblock(onUnblock);
    }
  }
}
