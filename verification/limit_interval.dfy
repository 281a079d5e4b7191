/**
 * lib/LimitInterval.js: at most one call admitted per `interval` ms.
 */
module IntervalLimit {
  import opened Values
  import Policy

  class LimitInterval {
    var onUnblock: Notifier
    const interval: int
    var lastAt: int
    var nextAt: int

    ghost function State(): Policy.PolicyState
      reads this
    {
      Policy.Interval(onUnblock, interval, lastAt, nextAt)
    }

    constructor (interval: int)
      ensures State() == Policy.Interval(Default, interval, 0, 0)
    {
      onUnblock := Default;
      this.interval := interval;
      lastAt := 0;
      nextAt := 0;
    }

    /** Inherited from the base limit: installs `f`, or refuses a non-function. */
    method SetOnUnblock(f: Value) returns (ok: bool)
      modifies this`onUnblock
      ensures ok == f.Fn?
      ensures onUnblock == if ok then Installed(f.f) else old(onUnblock)
    {
      if !f.Fn? {
        return false;
      }
      onUnblock := Installed(f.f);
      ok := true;
    }

    /** Refuses before `nextAt`; otherwise remembers the old threshold in
        `lastAt` and moves `nextAt` to `now + interval`. */
    method Acquire(now: int) returns (granted: bool)
      modifies this`lastAt, this`nextAt
      ensures granted == (now >= old(nextAt))
      ensures !granted ==> lastAt == old(lastAt) && nextAt == old(nextAt)
      ensures granted ==> lastAt == old(nextAt) && nextAt == now + interval
    {
      if now < nextAt {
        return false;
      }
      lastAt := nextAt;
      nextAt := now + interval;
      granted := true;
    }

    /** An undo puts `nextAt` back to `lastAt`; a completion notifies now if
        `nextAt` has passed, else asks for a notification 1 ms after it. */
    method Release(now: int, isUndo: bool) returns (signal: Signal)
      modifies this`nextAt
      ensures isUndo ==> nextAt == old(lastAt) && signal == Quiet
      ensures !isUndo ==> nextAt == old(nextAt)
      ensures !isUndo && now >= nextAt ==> signal == Unblock(onUnblock)
      ensures !isUndo && now < nextAt ==> signal == UnblockAfter(nextAt - now + 1, onUnblock)
    {
      if isUndo {
        nextAt := lastAt;
        signal := Quiet;
      } else if now >= nextAt {
        signal := Unblock(onUnblock);
      } else {
        signal := UnblockAfter(nextAt - now + 1, onUnblock);
      }
    }
  }
}
