/**
 * lib/LimitPerInterval.js: at most `max` calls whose slot has not expired;
 * a completed call keeps its slot until an expiry `interval + 1` ms later.
 */
module PerIntervalLimit {
  import opened Values
  import Policy

  class LimitPerInterval {
    var onUnblock: Notifier
    const max: int
    const interval: int
    var runningCount: int
    var finishTimes: seq<int>
    /** Expiry timers started by `Release` that have not fired yet. */
    var pendingExpiries: nat

    ghost function State(): Policy.PolicyState
      reads this
    {
      Policy.PerInterval(onUnblock, max, interval, runningCount, finishTimes, pendingExpiries)
    }

    constructor (max: int, interval: int)
      ensures State() == Policy.PerInterval(Default, max, interval, 0, [], 0)
    {
      onUnblock := Default;
      this.max := max;
      this.interval := interval;
      runningCount := 0;
      finishTimes := [];
      pendingExpiries := 0;
    }

    /** Inherited from the base limit: installs `f`, or refuses a non-function. */
    method SetOnUnblock(f: Value) returns (ok: bool)
      modifies this`onUnblock
      ensures ok == f.Fn?
      ensures onUnblock == if ok then Installed(f.f) else old(onUnblock)
    {
      if !f.Fn? {
        return false;
      }
      onUnblock := Installed(f.f);
      ok := true;
    }

    /** Refuses when `runningCount >= max`; otherwise takes a slot. */
    method Acquire() returns (granted: bool)
      modifies this`runningCount
      ensures granted == (old(runningCount) < max)
      ensures runningCount == if granted then old(runningCount) + 1 else old(runningCount)
    {
      if runningCount >= max {
        return false;
      }
      runningCount := runningCount + 1;
      granted := true;
    }

    /** An undo frees the slot at once, silently.  A completion keeps the
        slot, records `now` and schedules one expiry `interval + 1` ms later. */
    method Release(now: int, isUndo: bool) returns (signal: Signal)
      modifies this`runningCount, this`finishTimes, this`pendingExpiries
      ensures isUndo ==>
        && runningCount == old(runningCount) - 1 && signal == Quiet
        && finishTimes == old(finishTimes) && pendingExpiries == old(pendingExpiries)
      ensures !isUndo ==>
        && runningCount == old(runningCount) && signal == ExpireAfter(interval + 1)
        && finishTimes == old(finishTimes) + [now]
        && pendingExpiries == old(pendingExpiries) + 1
    {
      if isUndo {
        runningCount := runningCount - 1;
        return Quiet;
      }
      finishTimes := finishTimes + [now];
      pendingExpiries := pendingExpiries + 1;
      signal := ExpireAfter(interval + 1);
    }

    /** `_expire`, run by a timer `Release` started: frees one slot and notifies. */
    method Expire() returns (signal: Signal)
      requires pendingExpiries > 0
      modifies this`runningCount, this`pendingExpiries
      ensures runningCount == old(runningCount) - 1
      ensures pendingExpiries == old(pendingExpiries) - 1
      ensures signal == Unblock(onUnblock)
    {
      runningCount := runningCount - 1;
      pendingExpiries := pendingExpiries - 1;
      signal := Unblock(onUnblock);
    }
  }
}
