/**
 * The four admission policies as state machines over integers.
 *
 * The classes in limit.dfy, limit_concurrent.dfy, limit_interval.dfy and
 * limit_per_interval.dfy update their fields in place; the functions here
 * are the specifications those methods are proved against, and the lemmas
 * state what each policy promises.  Time is the parameter `now`, and a
 * timer the source would start is a returned Signal.
 */
module Policy {
  import opened Values

  /** The state of one limit: its notifier plus the policy's own fields. */
  datatype PolicyState =
    | Plain(onUnblock: Notifier)
    | Concurrent(onUnblock: Notifier, max: int, running: int)
    | Interval(onUnblock: Notifier, interval: int, lastAt: int, nextAt: int)
      // `pending` counts expiry timers started by `release` that have not fired yet
    | PerInterval(onUnblock: Notifier, max: int, interval: int, runningCount: int,
                  finishTimes: seq<int>, pending: nat)

  datatype Acquired = Acquired(granted: bool, next: PolicyState)
  datatype Released = Released(next: PolicyState, signal: Signal)

  /** Same kind of policy, same notifier, same fixed parameters. */
  predicate SameConfig(a: PolicyState, b: PolicyState)
  {
    match a
    case Plain(n) => b == Plain(n)
    case Concurrent(n, max, _) => b.Concurrent? && b.onUnblock == n && b.max == max
    case Interval(n, interval, _, _) => b.Interval? && b.onUnblock == n && b.interval == interval
    case PerInterval(n, max, interval, _, _, _) =>
      b.PerInterval? && b.onUnblock == n && b.max == max && b.interval == interval
  }

  /** The counters are not negative: no limit was released more often than it was acquired. */
  predicate Sane(s: PolicyState)
  {
    (s.Concurrent? ==> s.running >= 0) && (s.PerInterval? ==> s.runningCount >= 0)
  }

  /**
   * `acquire`: reserve one unit for a call, or refuse.  LimitConcurrent returns
   * the incremented count, which is falsy exactly when it becomes 0.
   */
  function Acquire(s: PolicyState, now: int): (r: Acquired)
    ensures SameConfig(s, r.next)
    ensures !r.granted && Sane(s) ==> r.next == s
    ensures Sane(s) ==> Sane(r.next)
  {
    match s
    case Plain(_) => Acquired(true, s)
    case Concurrent(_, max, running) =>
      if running >= max then Acquired(false, s)
      else Acquired(running + 1 != 0, s.(running := running + 1))
    case Interval(_, interval, _, nextAt) =>
      if now < nextAt then Acquired(false, s)
      else Acquired(true, s.(lastAt := nextAt, nextAt := now + interval))
    case PerInterval(_, max, _, runningCount, _, _) =>
      if runningCount >= max then Acquired(false, s)
      else Acquired(true, s.(runningCount := runningCount + 1))
  }

  /**
   * `release`: give back a unit.  `isUndo` marks the rollback of an acquire
   * inside a transaction that a later limit refused.
   */
  function Release(s: PolicyState, now: int, isUndo: bool): (r: Released)
    ensures SameConfig(s, r.next)
    ensures isUndo ==> r.signal == Quiet || r.signal == Unblock(s.onUnblock)
    ensures !isUndo ==> r.signal != Quiet
    ensures r.signal.UnblockAfter? ==>
              s.Interval? && r.signal.delay >= 2 && now + r.signal.delay == s.nextAt + 1
  {
    match s
    case Plain(n) => Released(s, Unblock(n))
    case Concurrent(n, _, running) => Released(s.(running := running - 1), Unblock(n))
    case Interval(n, _, lastAt, nextAt) =>
      if isUndo then Released(s.(nextAt := lastAt), Quiet)
      else if now >= nextAt then Released(s, Unblock(n))
      // one extra millisecond, because a timer may fire 1 ms early
      else Released(s, UnblockAfter(nextAt - now + 1, n))
    case PerInterval(_, _, interval, runningCount, finishTimes, pending) =>
      if isUndo then Released(s.(runningCount := runningCount - 1), Quiet)
      else Released(s.(finishTimes := finishTimes + [now], pending := pending + 1),
                    ExpireAfter(interval + 1))
  }

  /** LimitPerInterval `_expire`: one scheduled expiry fires. */
  function Expire(s: PolicyState): (r: Released)
    requires s.PerInterval? && s.pending > 0
    ensures SameConfig(s, r.next) && r.signal == Unblock(s.onUnblock)
    ensures r.next.runningCount == s.runningCount - 1 && r.next.pending == s.pending - 1
    ensures r.next.finishTimes == s.finishTimes
  {
    Released(s.(runningCount := s.runningCount - 1, pending := s.pending - 1), Unblock(s.onUnblock))
  }

  /** `setOnUnblock`: `None` stands for the thrown "function required" error. */
  function Install(s: PolicyState, f: Value): (r: Option<PolicyState>)
    ensures r.Some? <==> f.Fn?
    ensures r.Some? ==> r.value.onUnblock == Installed(f.f)
    ensures r.Some? ==> SameConfig(s.(onUnblock := Installed(f.f)), r.value)
  {
    if f.Fn? then Some(s.(onUnblock := Installed(f.f))) else None
  }

  /** Acquire a unit and immediately roll it back. */
  function Rollback(s: PolicyState, now: int): PolicyState
  {
    Release(Acquire(s, now).next, now, true).next
  }

  /**
   * `after` is `before` as far as any later operation can tell.  For
   * LimitInterval the rollback restores `nextAt` but leaves `lastAt` at the
   * old `nextAt`; IntervalLastAtUnobserved shows no operation can tell.
   */
  predicate Restored(before: PolicyState, after: PolicyState)
  {
    if before.Interval? then after == before.(lastAt := before.nextAt) else after == before
  }

  // ---------------------------------------------------------------------
  // The base Limit

  /** A base Limit admits every call and changes nothing. */
  lemma PlainAdmitsAll(n: Notifier, now: int)
    ensures Acquire(Plain(n), now) == Acquired(true, Plain(n))
  {
  }

  /** A base Limit calls its notifier exactly once on every release, undo or not. */
  lemma PlainReleaseNotifies(n: Notifier, now: int, isUndo: bool)
    ensures Release(Plain(n), now, isUndo) == Released(Plain(n), Unblock(n))
  {
  }

  /** `setOnUnblock` with something other than a function fails and keeps the old notifier. */
  lemma InstallRejectsNonFunction(s: PolicyState, d: int)
    ensures Install(s, Data(d)) == None
  {
  }

  /** After `setOnUnblock(f)`, a release of a base Limit calls `f`. */
  lemma InstalledNotifierIsCalled(f: Callable, now: int, isUndo: bool)
    ensures Install(Plain(Default), Fn(f)) == Some(Plain(Installed(f)))
    ensures Release(Plain(Installed(f)), now, isUndo).signal == Unblock(Installed(f))
  {
  }

  // ---------------------------------------------------------------------
  // LimitConcurrent

  /** Acquire admits exactly while `running < max`, adding one; a refusal changes nothing. */
  lemma ConcurrentAcquire(n: Notifier, max: int, running: int, now: int)
    requires running >= 0
    ensures var r := Acquire(Concurrent(n, max, running), now);
      && (r.granted <==> running < max)
      && r.next.running == (if running < max then running + 1 else running)
  {
  }

  /** With max = 2, two acquires succeed, the third fails, and `running` stays 2. */
  lemma ConcurrentCapOfTwo(n: Notifier, now: int)
    ensures var a1 := Acquire(Concurrent(n, 2, 0), now);
      var a2 := Acquire(a1.next, now);
      var a3 := Acquire(a2.next, now);
      a1.granted && a2.granted && !a3.granted && a3.next.running == 2
  {
  }

  /** Release takes one off `running` and notifies once, also when it is an undo. */
  lemma ConcurrentRelease(n: Notifier, max: int, running: int, now: int, isUndo: bool)
    ensures Release(Concurrent(n, max, running), now, isUndo)
         == Released(Concurrent(n, max, running - 1), Unblock(n))
  {
  }

  /**
   * The copy of LimitConcurrent embedded in qlimiter.js notifies on release
   * only when `running < max` afterwards.
   */
  function EmbeddedConcurrentRelease(s: PolicyState): (r: Released)
    requires s.Concurrent?
    ensures r.next == s.(running := s.running - 1)
    ensures r.signal == (if s.running - 1 < s.max then Unblock(s.onUnblock) else Quiet)
  {
    var next := s.(running := s.running - 1);
    if next.running < next.max then Released(next, Unblock(s.onUnblock)) else Released(next, Quiet)
  }

  /** The embedded copy behaves like lib/LimitConcurrent.js whenever `running <= max`. */
  lemma EmbeddedConcurrentReleaseAgrees(s: PolicyState, now: int, isUndo: bool)
    requires s.Concurrent? && s.running <= s.max
    ensures EmbeddedConcurrentRelease(s) == Release(s, now, isUndo)
  {
  }

  // ---------------------------------------------------------------------
  // LimitInterval

  /** A fresh LimitInterval admits its first call at any time `now >= 0`. */
  lemma IntervalFirstAcquire(n: Notifier, interval: int, now: int)
    requires now >= 0
    ensures var r := Acquire(Interval(n, interval, 0, 0), now);
      r.granted && r.next == Interval(n, interval, 0, now + interval)
  {
  }

  /** Before `nextAt` acquire refuses and changes nothing; from `nextAt` on it
      admits, remembering the old threshold in `lastAt`. */
  lemma IntervalAcquire(s: PolicyState, now: int)
    requires s.Interval?
    ensures var r := Acquire(s, now);
      && (r.granted <==> now >= s.nextAt)
      && (!r.granted ==> r.next == s)
      && (r.granted ==> r.next.lastAt == s.nextAt && r.next.nextAt == now + s.interval)
  {
  }

  /** Acquire then undo puts `nextAt` back to its value before the acquire. */
  lemma IntervalUndoRestoresThreshold(s: PolicyState, now: int)
    requires s.Interval? && Acquire(s, now).granted
    ensures Rollback(s, now).nextAt == s.nextAt
  {
  }

  /** `lastAt` is never read before an acquire overwrites it: two states that
      differ only there behave alike under every completion and acquire. */
  lemma IntervalLastAtUnobserved(a: PolicyState, b: PolicyState, now: int)
    requires a.Interval? && b.Interval? && b == a.(lastAt := b.lastAt)
    ensures Acquire(a, now).granted == Acquire(b, now).granted
    ensures Acquire(a, now).granted ==> Acquire(a, now).next == Acquire(b, now).next
    ensures !Acquire(a, now).granted ==> Acquire(b, now).next == b
    ensures Release(a, now, false).signal == Release(b, now, false).signal
  {
  }

  /** A completion at or after `nextAt` notifies at once and changes nothing. */
  lemma IntervalReleaseReady(s: PolicyState, now: int)
    requires s.Interval? && now >= s.nextAt
    ensures Release(s, now, false) == Released(s, Unblock(s.onUnblock))
  {
  }

  /** A completion before `nextAt` changes nothing and schedules one
      notification, for strictly after `nextAt`. */
  lemma IntervalReleaseEarly(s: PolicyState, now: int)
    requires s.Interval? && now < s.nextAt
    ensures var r := Release(s, now, false);
      && r.next == s
      && r.signal == UnblockAfter(s.nextAt - now + 1, s.onUnblock)
      && now + r.signal.delay > s.nextAt
  {
  }

  // ---------------------------------------------------------------------
  // LimitPerInterval

  /** Acquire admits exactly while `runningCount < max`, adding one; a refusal changes nothing. */
  lemma PerIntervalAcquire(s: PolicyState, now: int)
    requires s.PerInterval?
    ensures var r := Acquire(s, now);
      && (r.granted <==> s.runningCount < s.max)
      && r.next == (if r.granted then s.(runningCount := s.runningCount + 1) else s)
  {
  }

  /** With max = 2, the third acquire fails and `runningCount` stays 2. */
  lemma PerIntervalCapOfTwo(n: Notifier, now: int)
    ensures var a1 := Acquire(PerInterval(n, 2, 10, 0, [], 0), now);
      var a2 := Acquire(a1.next, now);
      var a3 := Acquire(a2.next, now);
      a1.granted && a2.granted && !a3.granted && a3.next.runningCount == 2
  {
  }

  /** An undo gives the slot back at once, silently. */
  lemma PerIntervalUndo(s: PolicyState, now: int)
    requires s.PerInterval?
    ensures Release(s, now, true) == Released(s.(runningCount := s.runningCount - 1), Quiet)
  {
  }

  /** A completion keeps the slot, records the finish time and schedules one
      expiry `interval + 1` ms later. */
  lemma PerIntervalCompletion(s: PolicyState, now: int)
    requires s.PerInterval?
    ensures var r := Release(s, now, false);
      && r.next.runningCount == s.runningCount
      && r.next.finishTimes == s.finishTimes + [now]
      && r.next.pending == s.pending + 1
      && r.signal == ExpireAfter(s.interval + 1)
  {
  }

  // ---------------------------------------------------------------------
  // All policies

  /** Rolling back a granted acquire leaves the limit as it was (up to the
      unobservable `lastAt` of LimitInterval). */
  lemma UndoRestores(s: PolicyState, now: int)
    requires Acquire(s, now).granted
    ensures Restored(s, Rollback(s, now))
  {
  }
}
