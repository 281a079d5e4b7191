/**
 * lib/Limit.js: the base limit.  It admits every call and calls its
 * notifier on every release; every other policy inherits `setOnUnblock`
 * and the notifier field from it.
 */
module BaseLimit {
  import opened Values
  import Policy

  class Limit {
    var onUnblock: Notifier

    ghost function State(): Policy.PolicyState
      reads this
    {
      Policy.Plain(onUnblock)
    }

    /** A new limit holds the no-op notifier. */
    constructor ()
      ensures State() == Policy.Plain(Default)
    {
      onUnblock := Default;
    }

    /** Installs `f` as the notifier; anything but a function is refused
        (`ok` false stands for the thrown error) and the old notifier stays. */
    method SetOnUnblock(f: Value) returns (ok: bool)
      modifies this`onUnblock
      ensures ok == f.Fn?
      ensures onUnblock == if ok then Installed(f.f) else old(onUnblock)
    {
      if !f.Fn? {
        return false;
      }
      onUnblock := Installed(f.f);
      ok := true;
    }

    /** Always admits. */
    method Acquire() returns (granted: bool)
      ensures granted
    {
      granted := true;
    }

    /** Calls the notifier once, whether or not the release is an undo. */
    method Release(isUndo: bool) returns (signal: Signal)
      ensures signal == Unblock(onUnblock)
    {
      signal := Unblock(onUnblock);
    }
  }
}
