/**
 * The limiter's all-or-nothing admission over an ordered list of limits, and
 * the release of every limit when an admitted call completes, as functions
 * of the limits' states.  Limiter.RunCall and Limiter.Complete are proved
 * against them.
 */
module Admission {
  import opened Values
  import opened Policy

  /** A call record: its identity and its positional arguments, the completion callback last. */
  datatype Call = Call(id: CallId, args: seq<Value>)

  /** What the limiter did to which limit, on behalf of which call. */
  datatype Op =
    | AcquireOp(limit: nat, call: CallId)
    | ReleaseOp(limit: nat, call: CallId, undo: bool)
    | CallbackOp(call: CallId)       // the call's original callback was invoked

  datatype Transaction = Transaction(admitted: bool, states: seq<PolicyState>, signals: seq<Signal>)

  datatype Effects = Effects(states: seq<PolicyState>, signals: seq<Signal>)

  /** The index of the first limit that refuses, or `|ss|` when all admit. */
  function FirstDenial(ss: seq<PolicyState>, now: int): (i: nat)
    ensures i <= |ss|
    decreases |ss|
  {
    if ss == [] || !Acquire(ss[0], now).granted then 0 else 1 + FirstDenial(ss[1..], now)
  }

  /** Every limit before FirstDenial admits, and the one at it refuses. */
  lemma {:induction false} FirstDenialIsFirst(ss: seq<PolicyState>, now: int)
    ensures forall k :: 0 <= k < FirstDenial(ss, now) ==> Acquire(ss[k], now).granted
    ensures FirstDenial(ss, now) < |ss| ==> !Acquire(ss[FirstDenial(ss, now)], now).granted
    decreases |ss|
  {
    if ss != [] && Acquire(ss[0], now).granted {
      FirstDenialIsFirst(ss[1..], now);
      forall k | 0 <= k < FirstDenial(ss, now) ensures Acquire(ss[k], now).granted {
        if k > 0 {
          assert ss[k] == ss[1..][k - 1];
        }
      }
    }
  }

  /** FirstDenial is the only index before which every limit admits and at
      which one refuses. */
  lemma FirstDenialUnique(ss: seq<PolicyState>, now: int, i: nat)
    requires i <= |ss|
    requires forall k :: 0 <= k < i ==> Acquire(ss[k], now).granted
    requires i < |ss| ==> !Acquire(ss[i], now).granted
    ensures FirstDenial(ss, now) == i
  {
    FirstDenialIsFirst(ss, now);
  }

  /** Limits 0 .. i-1 acquired at `now`, the others as they were. */
  function AcquiredUpTo(ss: seq<PolicyState>, i: nat, now: int): (r: seq<PolicyState>)
    ensures |r| == |ss|
  {
    seq(|ss|, k requires 0 <= k < |ss| => if k < i then Acquire(ss[k], now).next else ss[k])
  }

  /** Limits lo .. hi-1 released at `now`, the others as they were. */
  function ReleasedRange(ss: seq<PolicyState>, lo: nat, hi: nat, now: int, isUndo: bool): (r: seq<PolicyState>)
    ensures |r| == |ss|
  {
    seq(|ss|, k requires 0 <= k < |ss| => if lo <= k < hi then Release(ss[k], now, isUndo).next else ss[k])
  }

  /** The signals of releasing limits i-1 down to 0, in that order. */
  function ReleaseSignals(ss: seq<PolicyState>, i: nat, now: int, isUndo: bool): (r: seq<Signal>)
    requires i <= |ss|
    ensures |r| == i
  {
    seq(i, m requires 0 <= m < i => Release(ss[i - 1 - m], now, isUndo).signal)
  }

  /**
   * Acquire left to right; at the first refusal, undo the acquisitions
   * already made, last first.  `signals` are the undo releases' signals in
   * the order they were made.
   */
  function Transact(ss: seq<PolicyState>, now: int): (t: Transaction)
    ensures |t.states| == |ss|
    ensures t.admitted ==> t.signals == []
    ensures !t.admitted ==> |t.signals| == FirstDenial(ss, now)
  {
    var i := FirstDenial(ss, now);
    if i == |ss| then
      Transaction(true, AcquiredUpTo(ss, i, now), [])
    else
      var taken := AcquiredUpTo(ss, i + 1, now);
      Transaction(false, ReleasedRange(taken, 0, i, now, true), ReleaseSignals(taken, i, now, true))
  }

  /** Release every limit as a completion, last limit first. */
  function CompleteAll(ss: seq<PolicyState>, now: int): (e: Effects)
    ensures |e.states| == |ss| && |e.signals| == |ss|
  {
    Effects(ReleasedRange(ss, 0, |ss|, now, false), ReleaseSignals(ss, |ss|, now, false))
  }

  /** A call is admitted exactly when every limit grants it. */
  lemma TransactAdmitsIffAllGrant(ss: seq<PolicyState>, now: int)
    ensures Transact(ss, now).admitted <==> forall k :: 0 <= k < |ss| ==> Acquire(ss[k], now).granted
  {
    FirstDenialIsFirst(ss, now);
  }

  /** A completion releases every limit, keeps its configuration, and each
      release notifies (or schedules a notification or an expiry). */
  lemma CompleteAllKeepsConfig(ss: seq<PolicyState>, now: int)
    ensures forall k :: 0 <= k < |ss| ==> SameConfig(ss[k], CompleteAll(ss, now).states[k])
    ensures forall j :: 0 <= j < |ss| ==> CompleteAll(ss, now).signals[j] != Quiet
  {
  }

  /** Every limit notifies `n`. */
  predicate AllNotify(ss: seq<PolicyState>, n: Notifier)
  {
    forall k :: 0 <= k < |ss| ==> ss[k].onUnblock == n
  }

  /** A transaction and a completion keep each limit's notifier. */
  lemma NotifiersKept(ss: seq<PolicyState>, now: int, n: Notifier)
    requires AllNotify(ss, n)
    ensures AllNotify(Transact(ss, now).states, n)
    ensures AllNotify(CompleteAll(ss, now).states, n)
  {
    var t := Transact(ss, now);
    forall k | 0 <= k < |ss| ensures t.states[k].onUnblock == n {
      if !t.admitted && k < FirstDenial(ss, now) {
        assert SameConfig(ss[k], Acquire(ss[k], now).next);
      }
    }
  }

  lemma AcquiredUpToStep(ss: seq<PolicyState>, i: nat, now: int)
    requires i < |ss|
    ensures AcquiredUpTo(ss, i, now)[i] == ss[i]
    ensures AcquiredUpTo(ss, i, now)[i := Acquire(ss[i], now).next] == AcquiredUpTo(ss, i + 1, now)
  {
  }

  lemma ReleasedRangeStep(ss: seq<PolicyState>, lo: nat, hi: nat, now: int, isUndo: bool)
    requires 0 < lo <= hi <= |ss|
    ensures ReleasedRange(ss, lo, hi, now, isUndo)[lo - 1] == ss[lo - 1]
    ensures ReleasedRange(ss, lo, hi, now, isUndo)[lo - 1 := Release(ss[lo - 1], now, isUndo).next]
         == ReleasedRange(ss, lo - 1, hi, now, isUndo)
  {
  }

  lemma ReleaseSignalsStep(ss: seq<PolicyState>, i: nat, m: nat, now: int, isUndo: bool)
    requires m < i <= |ss|
    ensures ReleaseSignals(ss, i, now, isUndo)[..m + 1]
         == ReleaseSignals(ss, i, now, isUndo)[..m] + [Release(ss[i - 1 - m], now, isUndo).signal]
  {
  }

  /** The call as dispatched: its callback replaced by the limiter's completion wrapper. */
  function Wrapped(c: Call): (w: Call)
    requires HasCallback(c.args)
    ensures w.id == c.id && |w.args| == |c.args|
    ensures forall k :: 0 <= k < |c.args| - 1 ==> w.args[k] == c.args[k]
    ensures w.args[|w.args| - 1] == Fn(Completion(c.id))
  {
    Call(c.id, c.args[..|c.args| - 1] + [Fn(Completion(c.id))])
  }

  /** `acquire` asked of limits 0 .. n-1, in that order. */
  function AcquireOps(id: CallId, n: nat): seq<Op>
  {
    seq(n, k requires 0 <= k < n => AcquireOp(k, id))
  }

  /** `release` of limits n-1 down to 0, in that order. */
  function ReleaseOps(id: CallId, n: nat, undo: bool): seq<Op>
  {
    seq(n, j requires 0 <= j < n => ReleaseOp(n - 1 - j, id, undo))
  }

  /** What a transaction over `n` limits does when limit `i` is the first to
      refuse (`i == n`: none refuses). */
  function TransactTrace(id: CallId, n: nat, i: nat): seq<Op>
    requires i <= n
  {
    if i == n then AcquireOps(id, n) else AcquireOps(id, i + 1) + ReleaseOps(id, i, true)
  }

  // ---------------------------------------------------------------------

  /** A transaction either takes every limit or, when it is refused, leaves
      each limit as it was: the ones before the refusal rolled back, the
      refusing one and those after it never changed. */
  lemma TransactAllOrNothing(ss: seq<PolicyState>, now: int)
    ensures var t := Transact(ss, now);
      && (t.admitted ==> forall k :: 0 <= k < |ss| ==> t.states[k] == Acquire(ss[k], now).next)
      && (!t.admitted ==>
            var i := FirstDenial(ss, now);
            && (forall k :: 0 <= k < i ==> Restored(ss[k], t.states[k]))
            && (Sane(ss[i]) ==> t.states[i] == ss[i])
            && (forall k :: i < k < |ss| ==> t.states[k] == ss[k]))
  {
    var t := Transact(ss, now);
    FirstDenialIsFirst(ss, now);
    if !t.admitted {
      var i := FirstDenial(ss, now);
      forall k | 0 <= k < i ensures Restored(ss[k], t.states[k]) {
        UndoRestores(ss[k], now);
      }
    }
  }

  /** When every limit's counters are sane before, they are sane after. */
  lemma TransactKeepsSane(ss: seq<PolicyState>, now: int)
    requires forall k :: 0 <= k < |ss| ==> Sane(ss[k])
    ensures forall k :: 0 <= k < |ss| ==> Sane(Transact(ss, now).states[k])
  {
    var t := Transact(ss, now);
    FirstDenialIsFirst(ss, now);
    if !t.admitted {
      var i := FirstDenial(ss, now);
      forall k | 0 <= k < i ensures Sane(t.states[k]) {
        UndoRestores(ss[k], now);
      }
    }
  }

  // ---------------------------------------------------------------------
  // Rollback notifications

  /**
   * Retrying a refused call at the same instant meets the same refusal: the
   * limits end exactly as after the first try, and the same undo signals are
   * given again.
   */
  lemma RefusalIsFixedPoint(ss: seq<PolicyState>, now: int)
    requires FirstDenial(ss, now) < |ss| && Sane(ss[FirstDenial(ss, now)])
    ensures Transact(Transact(ss, now).states, now) == Transact(ss, now)
  {
    var i := FirstDenial(ss, now);
    var us := Transact(ss, now).states;
    TransactAllOrNothing(ss, now);
    FirstDenialIsFirst(ss, now);
    forall k | 0 <= k < i
      ensures Acquire(us[k], now).granted && Acquire(us[k], now).next == Acquire(ss[k], now).next
    {
      if ss[k].Interval? {
        IntervalLastAtUnobserved(ss[k], us[k], now);
      }
    }
    FirstDenialUnique(us, now, i);
    assert AcquiredUpTo(us, i + 1, now) == AcquiredUpTo(ss, i + 1, now);
  }

  /** A refused transaction undoes every base Limit and LimitConcurrent before
      the refusal, and each of those undos notifies its limit's notifier. */
  lemma RefusalNotifies(ss: seq<PolicyState>, now: int, k: nat)
    requires k < FirstDenial(ss, now) < |ss| && (ss[k].Plain? || ss[k].Concurrent?)
    ensures Unblock(ss[k].onUnblock) in Transact(ss, now).signals
  {
    var i := FirstDenial(ss, now);
    assert Transact(ss, now).signals[i - 1 - k] == Unblock(ss[k].onUnblock);
  }

  /**
   * With `maxConcurrent: 2, minInterval: 100`, one call running and the
   * interval not yet over, a retry is refused, leaves both limits as they
   * were and notifies the limiter: the limiter's own retry is what it
   * triggers, and that retry does the same again.
   */
  lemma ConcurrentThenIntervalRetriesForever()
    ensures var ss := [Concurrent(Installed(Unblocker), 2, 1), Interval(Installed(Unblocker), 100, 0, 100)];
      var t := Transact(ss, 20);
      !t.admitted && t.states == ss && t.signals == [Unblock(Installed(Unblocker))]
  {
  }

  /**
   * The transaction as evidently intended: a rollback gives back only what
   * the same transaction had just taken, which frees nothing a waiting call
   * could use, so it notifies nobody.  Its signals are those the limiter
   * delivers.
   */
  function QuietTransact(ss: seq<PolicyState>, now: int): (t: Transaction)
    ensures t.admitted <==> forall k :: 0 <= k < |ss| ==> Acquire(ss[k], now).granted
    ensures t.states == Transact(ss, now).states && t.signals == []
  {
    TransactAdmitsIffAllGrant(ss, now);
    var t := Transact(ss, now);
    Transaction(t.admitted, t.states, [])
  }

  /** With quiet rollbacks a refused call retried at the same instant is
      refused again, changes nothing and notifies nobody, so no chain of
      retries follows a refusal. */
  lemma QuietRefusalSettles(ss: seq<PolicyState>, now: int)
    requires FirstDenial(ss, now) < |ss| && Sane(ss[FirstDenial(ss, now)])
    ensures var t := QuietTransact(ss, now);
      !t.admitted && t.signals == [] && QuietTransact(t.states, now) == t
  {
    RefusalIsFixedPoint(ss, now);
    FirstDenialIsFirst(ss, now);
  }

  /** Every operation of `ReleaseOps(id, n, undo)` is a release of one of
      the limits 0 .. n-1 for call `id`, and the indices strictly decrease. */
  lemma ReleaseOpsShape(id: CallId, n: nat, undo: bool)
    ensures forall op :: op in ReleaseOps(id, n, undo) ==> op.ReleaseOp? && op.limit < n && op.call == id && op.undo == undo
    ensures forall a, b :: 0 <= a < b < n ==> ReleaseOps(id, n, undo)[a].limit > ReleaseOps(id, n, undo)[b].limit
  {
    var r := ReleaseOps(id, n, undo);
    forall op | op in r ensures op.ReleaseOp? && op.limit < n && op.call == id && op.undo == undo {
      var j :| 0 <= j < n && r[j] == op;
    }
  }

  /** `ReleaseOps(id, n, undo)` releases each of the limits 0 .. n-1 exactly once. */
  lemma {:induction false} ReleaseOpsOnceEach(id: CallId, n: nat, undo: bool)
    ensures forall k :: 0 <= k < n ==> multiset(ReleaseOps(id, n, undo))[ReleaseOp(k, id, undo)] == 1
  {
    if n > 0 {
      ReleaseOpsOnceEach(id, n - 1, undo);
      ReleaseOpsShape(id, n - 1, undo);
      var rest := ReleaseOps(id, n - 1, undo);
      var first := ReleaseOp(n - 1, id, undo);
      assert ReleaseOps(id, n, undo) == [first] + rest;
      assert first !in rest;
      forall k | 0 <= k < n ensures multiset(ReleaseOps(id, n, undo))[ReleaseOp(k, id, undo)] == 1 {
        if k < n - 1 {
          assert ReleaseOp(k, id, undo) != first;
        }
      }
    }
  }

  /** A refused transaction asks limits 0 .. i and no later one, and undoes
      exactly limits 0 .. i-1, once each, last first. */
  lemma TransactTraceStopsAtDenial(id: CallId, n: nat, i: nat)
    requires i < n
    ensures forall k :: 0 <= k < n ==> (AcquireOp(k, id) in TransactTrace(id, n, i) <==> k <= i)
    ensures forall k :: 0 <= k < n ==>
      multiset(TransactTrace(id, n, i))[ReleaseOp(k, id, true)] == (if k < i then 1 else 0)
    ensures forall k :: 0 <= k < n ==> ReleaseOp(k, id, false) !in TransactTrace(id, n, i)
  {
    ReleaseOpsOnceEach(id, i, true);
    ReleaseOpsShape(id, i, true);
    var tr := TransactTrace(id, n, i);
    forall k | 0 <= k < n ensures AcquireOp(k, id) in tr <==> k <= i {
      if k <= i {
        assert AcquireOps(id, i + 1)[k] == AcquireOp(k, id);
      }
    }
    forall k | 0 <= k < n
      ensures multiset(tr)[ReleaseOp(k, id, true)] == (if k < i then 1 else 0)
    {
      assert ReleaseOp(k, id, true) !in AcquireOps(id, i + 1);
      assert k >= i ==> ReleaseOp(k, id, true) !in ReleaseOps(id, i, true);
    }
  }
}
