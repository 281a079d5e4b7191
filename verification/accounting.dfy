/**
 * Runs of one limit over a sequence of events, and the invariants that hold
 * along every run in which each release answers an earlier successful
 * acquire and each expiry answers a timer that was started.
 */
module Accounting {
  import opened Values
  import opened Policy

  /**
   * One operation on a limit.  `Roll` is a whole refused transaction as this
   * limit sees it: an acquire and, when it was granted, its undo at once,
   * because a later limit refused.
   */
  datatype Event = Acq(now: int) | Rel(now: int, undo: bool) | Exp | Roll(now: int)

  /** A limit's state together with how often each operation has happened to it. */
  datatype Tally = Tally(state: PolicyState, acquired: nat, undone: nat, completed: nat, expired: nat)

  /** Acquisitions granted and not yet released. */
  function Held(t: Tally): int
  {
    t.acquired - t.undone - t.completed
  }

  /** A release needs an outstanding acquisition; an expiry needs a started timer. */
  predicate Enabled(t: Tally, e: Event)
  {
    match e
    case Acq(_) => true
    case Rel(_, _) => Held(t) > 0
    case Exp => t.state.PerInterval? && t.state.pending > 0
    case Roll(_) => true
  }

  function Apply(t: Tally, e: Event): Tally
    requires Enabled(t, e)
  {
    match e
    case Acq(now) =>
      var a := Acquire(t.state, now);
      t.(state := a.next, acquired := if a.granted then t.acquired + 1 else t.acquired)
    case Rel(now, undo) =>
      var r := Release(t.state, now, undo);
      if undo then t.(state := r.next, undone := t.undone + 1)
      else t.(state := r.next, completed := t.completed + 1)
    case Exp =>
      t.(state := Expire(t.state).next, expired := t.expired + 1)
    case Roll(now) =>
      var a := Acquire(t.state, now);
      if a.granted then
        t.(state := Release(a.next, now, true).next, acquired := t.acquired + 1, undone := t.undone + 1)
      else t.(state := a.next)
  }

  /** Every event of `evs` is enabled when it happens. */
  ghost predicate Matched(t: Tally, evs: seq<Event>)
    decreases |evs|
  {
    evs == [] || (Enabled(t, evs[0]) && Matched(Apply(t, evs[0]), evs[1..]))
  }

  /** The tallies a run passes through, the initial one first. */
  ghost function Run(t: Tally, evs: seq<Event>): (r: seq<Tally>)
    requires Matched(t, evs)
    ensures |r| == |evs| + 1 && r[0] == t
    ensures forall k :: 0 <= k < |evs| ==> Enabled(r[k], evs[k]) && r[k + 1] == Apply(r[k], evs[k])
    decreases |evs|
  {
    if evs == [] then [t] else [t] + Run(Apply(t, evs[0]), evs[1..])
  }

  /**
   * The counters agree with the tally: `running` is the number of calls
   * acquired and not yet released; `runningCount` is acquisitions minus
   * undos minus expiries, and every completed call not yet expired has a
   * timer pending.
   */
  ghost predicate Accounted(t: Tally)
  {
    && t.acquired >= t.undone + t.completed
    && match t.state
       case Plain(_) => true
       case Interval(_, _, _, _) => true
       case Concurrent(_, max, running) =>
         running == Held(t) && running <= max
       case PerInterval(_, max, _, runningCount, _, pending) =>
         && t.completed >= t.expired
         && pending == t.completed - t.expired
         && runningCount == t.acquired - t.undone - t.expired
         && runningCount <= max
  }

  /** The cap of a counting policy holds. */
  predicate WithinCap(s: PolicyState)
  {
    && (s.Concurrent? ==> 0 <= s.running <= s.max)
    && (s.PerInterval? ==> 0 <= s.runningCount <= s.max)
  }

  lemma AccountedStep(t: Tally, e: Event)
    requires Accounted(t) && Enabled(t, e)
    ensures Accounted(Apply(t, e)) && WithinCap(t.state)
  {
  }

  /** Along every matched run, `0 <= running <= max` (LimitConcurrent) and
      `0 <= runningCount <= max` (LimitPerInterval), and the counters equal
      their tallies. */
  lemma {:induction false} CountersStayWithinCap(t: Tally, evs: seq<Event>)
    requires Accounted(t) && Matched(t, evs)
    ensures forall u :: u in Run(t, evs) ==> Accounted(u) && WithinCap(u.state)
    decreases |evs|
  {
    if evs == [] {
      AccountedStep(t, Acq(0));
    } else {
      AccountedStep(t, evs[0]);
      CountersStayWithinCap(Apply(t, evs[0]), evs[1..]);
      assert Run(t, evs) == [t] + Run(Apply(t, evs[0]), evs[1..]);
    }
  }

  /** A limit fresh from its constructor starts accounted, so the caps hold
      along every matched run from it. */
  lemma FreshLimitsStayWithinCap(n: Notifier, max: nat, interval: int, evs: seq<Event>)
    ensures Matched(Tally(Concurrent(n, max, 0), 0, 0, 0, 0), evs) ==>
      forall u :: u in Run(Tally(Concurrent(n, max, 0), 0, 0, 0, 0), evs) ==> WithinCap(u.state)
    ensures Matched(Tally(PerInterval(n, max, interval, 0, [], 0), 0, 0, 0, 0), evs) ==>
      forall u :: u in Run(Tally(PerInterval(n, max, interval, 0, [], 0), 0, 0, 0, 0), evs) ==> WithinCap(u.state)
  {
    if Matched(Tally(Concurrent(n, max, 0), 0, 0, 0, 0), evs) {
      CountersStayWithinCap(Tally(Concurrent(n, max, 0), 0, 0, 0, 0), evs);
    }
    if Matched(Tally(PerInterval(n, max, interval, 0, [], 0), 0, 0, 0, 0), evs) {
      CountersStayWithinCap(Tally(PerInterval(n, max, interval, 0, [], 0), 0, 0, 0, 0), evs);
    }
  }

  // ---------------------------------------------------------------------
  // LimitInterval spacing

  /** No undo outside a `Roll`: every rollback comes right after its acquire. */
  predicate NoUndo(evs: seq<Event>)
  {
    forall k :: 0 <= k < |evs| ==> !(evs[k].Rel? && evs[k].undo)
  }

  /** The times at which a run admitted a call for good, in order; a `Roll`
      admits nothing. */
  ghost function Admissions(t: Tally, evs: seq<Event>): seq<int>
    requires Matched(t, evs)
    decreases |evs|
  {
    if evs == [] then []
    else
      var rest := Admissions(Apply(t, evs[0]), evs[1..]);
      if evs[0].Acq? && Acquire(t.state, evs[0].now).granted then [evs[0].now] + rest else rest
  }

  /**
   * When every rollback comes right after its acquire, as inside the
   * limiter's transaction, LimitInterval never admits a call for good before
   * `nextAt`, and any two successive admissions are at least `interval` ms
   * apart.
   */
  lemma {:induction false} IntervalSpacing(t: Tally, evs: seq<Event>)
    requires t.state.Interval?
    requires Matched(t, evs) && NoUndo(evs)
    ensures var times := Admissions(t, evs);
      && (|times| > 0 ==> times[0] >= t.state.nextAt)
      && forall a :: 0 <= a < |times| - 1 ==> times[a] + t.state.interval <= times[a + 1]
    decreases |evs|
  {
    if evs != [] {
      var next := Apply(t, evs[0]);
      assert NoUndo(evs[1..]) by {
        forall k | 0 <= k < |evs[1..]| ensures !(evs[1..][k].Rel? && evs[1..][k].undo) {
          assert evs[1..][k] == evs[k + 1];
        }
      }
      IntervalSpacing(next, evs[1..]);
      assert !(evs[0].Rel? && evs[0].undo);
      if evs[0].Acq? && Acquire(t.state, evs[0].now).granted {
        assert next.state.nextAt == evs[0].now + t.state.interval;
      } else if evs[0].Roll? {
        assert next.state.nextAt == t.state.nextAt && next.state.interval == t.state.interval;
      } else {
        assert next.state == t.state;
      }
    }
  }
}
