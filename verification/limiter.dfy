/**
 * qlimiter.js: the Limiter.  It runs each call through an all-or-nothing
 * acquire over its ordered list of limits, queues the calls that are
 * refused, retries the queue head whenever a limit reports freed capacity,
 * and releases every limit when an admitted call completes.
 *
 * The event loop is explicit: `now` is a parameter, the calls handed to
 * `nextTick` wait in `dispatched` until `Tick`, the completion wrapper of a
 * call is `Complete(id, ...)`, and what a limit would notify is returned as
 * Signals for the caller to act on (an `Unblock(Installed(Unblocker))` means
 * "call OnUnblock").  The limiter passes on no notification from the undo
 * releases of a refused call (see RunCall).
 */
module QLimiter {
  import opened Values
  import P = Policy
  import opened Admission
  import BaseLimit
  import ConcurrentLimit
  import IntervalLimit
  import PerIntervalLimit

  /** A reference to one limit object, of whichever policy. */
  datatype LimitRef =
    | BaseRef(b: BaseLimit.Limit)
    | ConcurrentRef(c: ConcurrentLimit.LimitConcurrent)
    | IntervalRef(iv: IntervalLimit.LimitInterval)
    | PerIntervalRef(p: PerIntervalLimit.LimitPerInterval)
  {
    function Obj(): object
    {
      match this
      case BaseRef(b) => b
      case ConcurrentRef(c) => c
      case IntervalRef(iv) => iv
      case PerIntervalRef(p) => p
    }

    ghost function State(): P.PolicyState
      reads Obj()
    {
      match this
      case BaseRef(b) => b.State()
      case ConcurrentRef(c) => c.State()
      case IntervalRef(iv) => iv.State()
      case PerIntervalRef(p) => p.State()
    }
  }

  function Objects(ls: seq<LimitRef>): set<object>
  {
    set l | l in ls :: l.Obj()
  }

  /** No limit object appears twice in the list. */
  ghost predicate Distinct(ls: seq<LimitRef>)
  {
    forall a, b :: 0 <= a < b < |ls| ==> ls[a].Obj() != ls[b].Obj()
  }

  /** The states of the limits, in list order. */
  ghost function StatesOf(ls: seq<LimitRef>): (ss: seq<P.PolicyState>)
    reads Objects(ls)
    ensures |ss| == |ls|
    decreases |ls|
  {
    if ls == [] then [] else StatesOf(ls[..|ls| - 1]) + [ls[|ls| - 1].State()]
  }

  lemma {:induction false} StatesOfIndex(ls: seq<LimitRef>)
    ensures forall k :: 0 <= k < |ls| ==> StatesOf(ls)[k] == ls[k].State()
    decreases |ls|
  {
    if ls != [] {
      StatesOfIndex(ls[..|ls| - 1]);
    }
  }

  method AcquireOn(l: LimitRef, now: int) returns (granted: bool)
    modifies l.Obj()
    ensures granted == P.Acquire(old(l.State()), now).granted
    ensures l.State() == P.Acquire(old(l.State()), now).next
  {
    match l
    case BaseRef(b) => granted := b.Acquire();
    case ConcurrentRef(c) => granted := c.Acquire();
    case IntervalRef(iv) => granted := iv.Acquire(now);
    case PerIntervalRef(p) => granted := p.Acquire();
  }

  method ReleaseOn(l: LimitRef, now: int, isUndo: bool) returns (signal: Signal)
    modifies l.Obj()
    ensures signal == P.Release(old(l.State()), now, isUndo).signal
    ensures l.State() == P.Release(old(l.State()), now, isUndo).next
  {
    match l
    case BaseRef(b) => signal := b.Release(isUndo);
    case ConcurrentRef(c) => signal := c.Release(isUndo);
    case IntervalRef(iv) => signal := iv.Release(now, isUndo);
    case PerIntervalRef(p) => signal := p.Release(now, isUndo);
  }

  method InstallOn(l: LimitRef, f: Value) returns (ok: bool)
    modifies l.Obj()
    ensures ok == f.Fn?
    ensures l.State() == if ok then P.Install(old(l.State()), f).value else old(l.State())
  {
    match l
    case BaseRef(b) => ok := b.SetOnUnblock(f);
    case ConcurrentRef(c) => ok := c.SetOnUnblock(f);
    case IntervalRef(iv) => ok := iv.SetOnUnblock(f);
    case PerIntervalRef(p) => ok := p.SetOnUnblock(f);
  }

  lemma DistinctAppend(ls: seq<LimitRef>, l: LimitRef)
    requires Distinct(ls) && l.Obj() !in Objects(ls)
    ensures Distinct(ls + [l])
  {
  }

  /** Acquire limit `i` of `ls`; no other limit changes. */
  method AcquireAt(ls: seq<LimitRef>, i: nat, now: int) returns (granted: bool)
    requires Distinct(ls) && i < |ls|
    modifies ls[i].Obj()
    ensures var a := P.Acquire(old(StatesOf(ls))[i], now);
      granted == a.granted && StatesOf(ls) == old(StatesOf(ls))[i := a.next]
  {
    StatesOfIndex(ls);
    granted := AcquireOn(ls[i], now);
    StatesOfIndex(ls);
  }

  /** Release limit `i` of `ls`; no other limit changes. */
  method ReleaseAt(ls: seq<LimitRef>, i: nat, now: int, isUndo: bool) returns (signal: Signal)
    requires Distinct(ls) && i < |ls|
    modifies ls[i].Obj()
    ensures var r := P.Release(old(StatesOf(ls))[i], now, isUndo);
      signal == r.signal && StatesOf(ls) == old(StatesOf(ls))[i := r.next]
  {
    StatesOfIndex(ls);
    signal := ReleaseOn(ls[i], now, isUndo);
    StatesOfIndex(ls);
  }

  /** Run the pending expiry of limit `i` of `ls`; no other limit changes. */
  method ExpireAt(ls: seq<LimitRef>, i: nat) returns (signal: Signal)
    requires Distinct(ls) && i < |ls| && StatesOf(ls)[i].PerInterval? && StatesOf(ls)[i].pending > 0
    modifies ls[i].Obj()
    ensures var r := P.Expire(old(StatesOf(ls))[i]);
      signal == r.signal && StatesOf(ls) == old(StatesOf(ls))[i := r.next]
  {
    StatesOfIndex(ls);
    signal := ls[i].p.Expire();
    StatesOfIndex(ls);
  }

  /** Give limit `i` of `ls` the notifier `f`; no other limit changes. */
  method InstallAt(ls: seq<LimitRef>, i: nat, f: Callable)
    requires Distinct(ls) && i < |ls|
    modifies ls[i].Obj()
    ensures StatesOf(ls) == old(StatesOf(ls))[i := old(StatesOf(ls))[i].(onUnblock := Installed(f))]
  {
    StatesOfIndex(ls);
    var _ := InstallOn(ls[i], Fn(f));
    StatesOfIndex(ls);
  }

  /**
   * The limit half of `runCall`: acquire every limit left to right; at the
   * first refusal release the ones already taken, last first, as undos.
   */
  method TransactOn(ls: seq<LimitRef>, now: int, ghost id: CallId)
    returns (admitted: bool, signals: seq<Signal>, ghost ops: seq<Op>)
    requires Distinct(ls)
    modifies Objects(ls)
    ensures var t := Transact(old(StatesOf(ls)), now);
      admitted == t.admitted && StatesOf(ls) == t.states && signals == t.signals
    ensures ops == TransactTrace(id, |ls|, FirstDenial(old(StatesOf(ls)), now))
  {
    var i;
    i, ops := AcquireAll(ls, now, id);
    if i < |ls| {
      // give back every permission already taken, last first
      ghost var undoOps;
      signals, undoOps := ReleaseDownFrom(ls, i, now, true, id);
      ops := ops + undoOps;
      admitted := false;
    } else {
      admitted, signals := true, [];
    }
  }

  /** Every state with its notifier replaced by `n`. */
  function WithNotifier(ss: seq<P.PolicyState>, n: Notifier): (r: seq<P.PolicyState>)
    ensures |r| == |ss|
  {
    seq(|ss|, k requires 0 <= k < |ss| => ss[k].(onUnblock := n))
  }

  /** Give every limit of `ls` the notifier `f` (`setOnUnblock`). */
  method InstallAll(ls: seq<LimitRef>, f: Callable)
    requires Distinct(ls)
    modifies Objects(ls)
    ensures StatesOf(ls) == WithNotifier(old(StatesOf(ls)), Installed(f))
  {
    ghost var pre := StatesOf(ls);
    var i := 0;
    while i < |ls|
      invariant 0 <= i <= |ls|
      invariant |StatesOf(ls)| == |ls|
      invariant forall k :: 0 <= k < |ls| ==>
        StatesOf(ls)[k] == if k < i then pre[k].(onUnblock := Installed(f)) else pre[k]
    {
      InstallAt(ls, i, f);
      i := i + 1;
    }
    assert StatesOf(ls) == WithNotifier(pre, Installed(f));
  }

  /**
   * The acquire half of `runCall`: acquire the limits left to right and stop
   * at the first refusal.  `i` is the refusing limit, or `|ls|`; the limits
   * after it are not asked.
   */
  method AcquireAll(ls: seq<LimitRef>, now: int, ghost id: CallId) returns (i: nat, ghost ops: seq<Op>)
    requires Distinct(ls)
    modifies Objects(ls)
    ensures i == FirstDenial(old(StatesOf(ls)), now)
    ensures StatesOf(ls) == AcquiredUpTo(old(StatesOf(ls)), if i < |ls| then i + 1 else i, now)
    ensures ops == AcquireOps(id, if i < |ls| then i + 1 else i)
  {
    ghost var pre := StatesOf(ls);
    i, ops := 0, [];
    while i < |ls|
      invariant 0 <= i <= |ls|
      invariant forall k :: 0 <= k < i ==> P.Acquire(pre[k], now).granted
      invariant StatesOf(ls) == AcquiredUpTo(pre, i, now)
      invariant ops == AcquireOps(id, i)
    {
      AcquiredUpToStep(pre, i, now);
      var granted := AcquireAt(ls, i, now);
      assert AcquireOps(id, i + 1) == AcquireOps(id, i) + [AcquireOp(i, id)];
      ops := ops + [AcquireOp(i, id)];
      if !granted {
        FirstDenialUnique(pre, now, i);
        return;
      }
      i := i + 1;
    }
    FirstDenialUnique(pre, now, i);
  }

  /**
   * Release limits `i-1` down to 0: the undo half of `runCall` (`isUndo`),
   * or, with `i == |ls|`, what a call's completion does to every limit.
   */
  method ReleaseDownFrom(ls: seq<LimitRef>, i: nat, now: int, isUndo: bool, ghost id: CallId)
    returns (signals: seq<Signal>, ghost ops: seq<Op>)
    requires Distinct(ls) && i <= |ls|
    modifies Objects(ls)
    ensures StatesOf(ls) == ReleasedRange(old(StatesOf(ls)), 0, i, now, isUndo)
    ensures signals == ReleaseSignals(old(StatesOf(ls)), i, now, isUndo)
    ensures ops == ReleaseOps(id, i, isUndo)
  {
    ghost var pre := StatesOf(ls);
    signals, ops := [], [];
    var j := i;
    while j > 0
      invariant 0 <= j <= i
      invariant StatesOf(ls) == ReleasedRange(pre, j, i, now, isUndo)
      invariant signals == ReleaseSignals(pre, i, now, isUndo)[..i - j]
      invariant ops == ReleaseOps(id, i, isUndo)[..i - j]
    {
      ReleasedRangeStep(pre, j, i, now, isUndo);
      ReleaseSignalsStep(pre, i, i - j, now, isUndo);
      var signal := ReleaseAt(ls, j - 1, now, isUndo);
      signals := signals + [signal];
      assert ReleaseOps(id, i, isUndo)[..i - j + 1] == ops + [ReleaseOp(j - 1, id, isUndo)];
      ops := ops + [ReleaseOp(j - 1, id, isUndo)];
      j := j - 1;
    }
    assert ReleaseOps(id, i, isUndo)[..i] == ReleaseOps(id, i, isUndo);
    assert ReleaseSignals(pre, i, now, isUndo)[..i] == ReleaseSignals(pre, i, now, isUndo);
  }

  /** The recognised options: caller-built limits, `maxConcurrent`, `minInterval`. */
  datatype Options = Options(limits: seq<LimitRef>, maxConcurrent: int, minInterval: int)

  /** The states of the limits the options add after the caller's own: a
      LimitConcurrent for a positive `maxConcurrent`, then a LimitInterval
      for a positive `minInterval`, each fresh. */
  function BuiltIn(opts: Options): seq<P.PolicyState>
  {
    (if opts.maxConcurrent > 0 then [P.Concurrent(Default, opts.maxConcurrent, 0)] else [])
    + (if opts.minInterval > 0 then [P.Interval(Default, opts.minInterval, 0, 0)] else [])
  }

  /** `ls` followed by a fresh LimitConcurrent. */
  method AppendConcurrent(ls: seq<LimitRef>, max: int) returns (r: seq<LimitRef>)
    requires Distinct(ls)
    ensures Distinct(r) && |r| == |ls| + 1 && r[..|ls|] == ls && fresh(r[|ls|].Obj())
    ensures StatesOf(r) == old(StatesOf(ls)) + [P.Concurrent(Default, max, 0)]
  {
    var c := new ConcurrentLimit.LimitConcurrent(max);
    DistinctAppend(ls, ConcurrentRef(c));
    r := ls + [ConcurrentRef(c)];
    assert r[..|ls|] == ls;
  }

  /** `ls` followed by a fresh LimitInterval. */
  method AppendInterval(ls: seq<LimitRef>, interval: int) returns (r: seq<LimitRef>)
    requires Distinct(ls)
    ensures Distinct(r) && |r| == |ls| + 1 && r[..|ls|] == ls && fresh(r[|ls|].Obj())
    ensures StatesOf(r) == old(StatesOf(ls)) + [P.Interval(Default, interval, 0, 0)]
  {
    var iv := new IntervalLimit.LimitInterval(interval);
    DistinctAppend(ls, IntervalRef(iv));
    r := ls + [IntervalRef(iv)];
    assert r[..|ls|] == ls;
  }

  /** `options.limits`, then a fresh LimitConcurrent when `maxConcurrent > 0`,
      then a fresh LimitInterval when `minInterval > 0`. */
  method AddBuiltIns(opts: Options) returns (ls: seq<LimitRef>)
    requires Distinct(opts.limits)
    ensures Distinct(ls)
    ensures |ls| == |opts.limits| + |BuiltIn(opts)| && ls[..|opts.limits|] == opts.limits
    ensures forall k :: |opts.limits| <= k < |ls| ==> fresh(ls[k].Obj())
    ensures StatesOf(ls) == old(StatesOf(opts.limits)) + BuiltIn(opts)
  {
    ls := opts.limits;
    if opts.maxConcurrent > 0 {
      ls := AppendConcurrent(ls, opts.maxConcurrent);
    }
    ghost var mid := ls;
    if opts.minInterval > 0 {
      ls := AppendInterval(ls, opts.minInterval);
      assert ls[..|opts.limits|] == mid[..|opts.limits|];
    }
  }

  /**
   * The limit list of a new limiter: the caller's limits and the built-in
   * ones, every limit with the limiter's unblock handler as its notifier.
   */
  method BuildLimits(opts: Options) returns (ls: seq<LimitRef>)
    requires Distinct(opts.limits)
    modifies Objects(opts.limits)
    ensures Distinct(ls)
    ensures |ls| == |opts.limits| + |BuiltIn(opts)| && ls[..|opts.limits|] == opts.limits
    ensures forall k :: |opts.limits| <= k < |ls| ==> fresh(ls[k].Obj())
    ensures StatesOf(ls) == WithNotifier(old(StatesOf(opts.limits)) + BuiltIn(opts), Installed(Unblocker))
  {
    ls := AddBuiltIns(opts);
    InstallAll(ls, Unblocker);
  }

  /** The limiter itself is none of its limits. */
  lemma LimiterIsNoLimit(ls: seq<LimitRef>, x: Limiter)
    ensures x !in Objects(ls)
  {
  }

  // ---------------------------------------------------------------------
  // The limiter's call bookkeeping, as values

  /** The identities of `q`, in order. */
  function Ids(q: seq<Call>): (ids: seq<CallId>)
    ensures |ids| == |q|
  {
    seq(|q|, k requires 0 <= k < |q| => q[k].id)
  }

  predicate Increasing(ids: seq<CallId>)
  {
    forall a, b :: 0 <= a < b < |ids| ==> ids[a] < ids[b]
  }

  /**
   * Queued calls wait in arrival order, with distinct identities already
   * handed out and a callback each; a non-empty queue keeps the process
   * alive; every admitted call keeps its original callback for good (its
   * completion wrapper may be called more than once), and every dispatched
   * call is an admitted one.
   */
  ghost predicate CallsOk(queue: seq<Call>, keepAlive: bool, nextId: CallId,
                          callbacks: map<CallId, Callable>, dispatched: seq<Call>)
  {
    && (queue != [] ==> keepAlive)
    && (forall k :: 0 <= k < |queue| ==>
          queue[k].id < nextId && queue[k].id !in callbacks && HasCallback(queue[k].args))
    && Increasing(Ids(queue))
    && (forall id :: id in callbacks ==> id < nextId)
    && (forall k :: 0 <= k < |dispatched| ==> dispatched[k].id in callbacks)
  }

  /** A new call takes the next identity and is either admitted (its callback
      kept, the call dispatched) or queued last, keeping the process alive. */
  lemma NewCallKeepsCallsOk(queue: seq<Call>, keepAlive: bool, nextId: CallId,
                            callbacks: map<CallId, Callable>, dispatched: seq<Call>,
                            args: seq<Value>, started: bool)
    requires CallsOk(queue, keepAlive, nextId, callbacks, dispatched) && HasCallback(args)
    ensures var c := Call(nextId, args);
      CallsOk(if started then queue else queue + [c], if started then keepAlive else true, nextId + 1,
              if started then callbacks[c.id := CallbackOf(args)] else callbacks,
              if started then dispatched + [Wrapped(c)] else dispatched)
  {
    assert Ids(queue + [Call(nextId, args)]) == Ids(queue) + [nextId];
  }

  /** Retrying the queue head: admitted, it leaves the queue and is dispatched;
      refused, nothing changes. */
  lemma RetryKeepsCallsOk(queue: seq<Call>, keepAlive: bool, nextId: CallId,
                          callbacks: map<CallId, Callable>, dispatched: seq<Call>, started: bool)
    requires CallsOk(queue, keepAlive, nextId, callbacks, dispatched) && queue != []
    ensures var head := queue[0];
      CallsOk(if started then queue[1..] else queue, keepAlive, nextId,
              if started then callbacks[head.id := CallbackOf(head.args)] else callbacks,
              if started then dispatched + [Wrapped(head)] else dispatched)
  {
    var head := queue[0];
    var cb := callbacks[head.id := CallbackOf(head.args)];
    if started {
      assert Ids(queue[1..]) == Ids(queue)[1..];
      forall k | 0 <= k < |queue[1..]| ensures queue[1..][k].id !in cb {
        assert queue[1..][k] == queue[k + 1];
        assert Ids(queue)[0] < Ids(queue)[k + 1];
      }
    }
  }

  class Limiter {
    const limits: seq<LimitRef>
    ghost const Repr: set<object>
    /** Calls refused admission, oldest first. */
    var queue: seq<Call>
    /** Whether the limiter's timer keeps the process alive (`timer.ref()`). */
    var keepAlive: bool
    /** The identity the next accepted call gets. */
    var nextId: CallId
    /** The original callback of every admitted call, kept by its completion wrapper. */
    var callbacks: map<CallId, Callable>
    /** Admitted calls handed to `nextTick` and not yet started, with their wrapped arguments. */
    var dispatched: seq<Call>
    /** Every acquire, release and callback the limiter has performed, in order. */
    ghost var trace: seq<Op>

    ghost predicate LimitsValid()
      reads this, Repr
    {
      && Repr == Objects(limits)
      && this !in Repr
      && Distinct(limits)
      && AllNotify(StatesOf(limits), Installed(Unblocker))
    }

    ghost predicate Valid()
      reads this, Repr
    {
      LimitsValid() && CallsValid()
    }

    ghost predicate CallsValid()
      reads this
    {
      CallsOk(queue, keepAlive, nextId, callbacks, dispatched)
    }

    ghost function States(): seq<P.PolicyState>
      reads Objects(limits)
    {
      StatesOf(limits)
    }

    /**
     * The limit list is `options.limits`, then a LimitConcurrent when
     * `maxConcurrent > 0`, then a LimitInterval when `minInterval > 0`; every
     * limit gets the limiter's unblock handler as its notifier.
     */
    constructor (opts: Options)
      requires Distinct(opts.limits)
      modifies Objects(opts.limits)
      ensures Valid()
      ensures |limits| == |opts.limits| + |BuiltIn(opts)| && limits[..|opts.limits|] == opts.limits
      ensures fresh(Repr - Objects(opts.limits))
      ensures States() == WithNotifier(old(StatesOf(opts.limits)) + BuiltIn(opts), Installed(Unblocker))
      ensures queue == [] && !keepAlive && nextId == 0 && callbacks == map[] && dispatched == []
      ensures trace == []
    {
      var ls := BuildLimits(opts);
      limits := ls;
      Repr := Objects(ls);
      queue := [];
      keepAlive := false;
      nextId := 0;
      callbacks := map[];
      dispatched := [];
      trace := [];
      new;
      LimiterIsNoLimit(ls, this);
    }

    /**
     * `runCall`: acquire every limit left to right; at the first refusal
     * release the ones already taken, last first, as undos, and report
     * failure.  On success the call's callback is swapped for its completion
     * wrapper and the call is handed to `nextTick`.  The undo releases'
     * notifications are not delivered: a rollback frees nothing a waiting
     * call could use, and delivering them retries the refused queue head
     * without end (Admission.RefusalIsFixedPoint).
     */
    method RunCall(c: Call, now: int) returns (started: bool, signals: seq<Signal>)
      requires LimitsValid() && HasCallback(c.args) && c.id !in callbacks
      modifies this, Repr
      ensures LimitsValid()
      ensures var t := QuietTransact(old(States()), now);
        started == t.admitted && States() == t.states && signals == t.signals
      ensures trace == old(trace) + TransactTrace(c.id, |limits|, FirstDenial(old(States()), now))
      ensures queue == old(queue) && keepAlive == old(keepAlive) && nextId == old(nextId)
      ensures callbacks == if started then old(callbacks)[c.id := CallbackOf(c.args)] else old(callbacks)
      ensures dispatched == if started then old(dispatched) + [Wrapped(c)] else old(dispatched)
    {
      ghost var ss := States();
      ghost var ops;
      var undoSignals;
      started, undoSignals, ops := TransactOn(limits, now, c.id);
      signals := [];
      trace := trace + ops;
      if started {
        callbacks := callbacks[c.id := CallbackOf(c.args)];
        dispatched := dispatched + [Wrapped(c)];
      }
      NotifiersKept(ss, now, Installed(Unblocker));
    }

    /**
     * The limiter's wrapped function (`qlimiter_wrapper` and `scheduleCall`):
     * a call whose last argument is not a function is dropped (`None`, the
     * source's `undefined`); otherwise it gets a fresh identity and is
     * admitted at once if every limit allows, else appended to the queue
     * with the keep-alive timer referenced.
     */
    method ScheduleCall(args: seq<Value>, now: int) returns (started: Option<bool>, signals: seq<Signal>)
      requires Valid()
      modifies this, Repr
      ensures Valid()
      ensures !HasCallback(args) ==>
        && started == None && signals == [] && States() == old(States())
        && queue == old(queue) && keepAlive == old(keepAlive) && nextId == old(nextId)
        && callbacks == old(callbacks) && dispatched == old(dispatched) && trace == old(trace)
      ensures HasCallback(args) ==>
        var c := Call(old(nextId), args);
        var t := QuietTransact(old(States()), now);
        && started == Some(t.admitted) && signals == t.signals && States() == t.states
        && nextId == old(nextId) + 1
        && queue == (if t.admitted then old(queue) else old(queue) + [c])
        && keepAlive == (if t.admitted then old(keepAlive) else true)
        && callbacks == (if t.admitted then old(callbacks)[c.id := CallbackOf(args)] else old(callbacks))
        && dispatched == (if t.admitted then old(dispatched) + [Wrapped(c)] else old(dispatched))
        && trace == old(trace) + TransactTrace(c.id, |limits|, FirstDenial(old(States()), now))
    {
      if !HasCallback(args) {
        return None, [];
      }
      var ok;
      ok, signals := Admit(args, now);
      started := Some(ok);
    }

    /** `scheduleCall` for a call that carries a callback: it gets the next
        identity, then runs at once or joins the end of the queue. */
    method Admit(args: seq<Value>, now: int) returns (started: bool, signals: seq<Signal>)
      requires Valid() && HasCallback(args)
      modifies this, Repr
      ensures Valid()
      ensures var c := Call(old(nextId), args);
        var t := QuietTransact(old(States()), now);
        && started == t.admitted && signals == t.signals && States() == t.states
        && nextId == old(nextId) + 1
        && queue == (if started then old(queue) else old(queue) + [c])
        && keepAlive == (if started then old(keepAlive) else true)
        && callbacks == (if started then old(callbacks)[c.id := CallbackOf(args)] else old(callbacks))
        && dispatched == (if started then old(dispatched) + [Wrapped(c)] else old(dispatched))
        && trace == old(trace) + TransactTrace(c.id, |limits|, FirstDenial(old(States()), now))
    {
      ghost var q, k, n, cb, d := queue, keepAlive, nextId, callbacks, dispatched;
      var c := Call(nextId, args);
      started, signals := RunCall(c, now);
      nextId := nextId + 1;
      if !started {
        // do not let the program exit while calls are waiting
        queue, keepAlive := queue + [c], true;
      }
      NewCallKeepsCallsOk(q, k, n, cb, d, args, started);
    }

    /**
     * `onUnblock`: on an empty queue, only drop the keep-alive reference;
     * otherwise try to admit the queue head, and remove it only if it was
     * admitted.  At most one call is admitted per notification.
     */
    method OnUnblock(now: int) returns (signals: seq<Signal>)
      requires Valid()
      modifies this, Repr
      ensures Valid()
      ensures old(queue) == [] ==>
        && !keepAlive && signals == [] && States() == old(States()) && queue == []
        && callbacks == old(callbacks) && dispatched == old(dispatched) && trace == old(trace)
      ensures old(queue) != [] ==>
        var head := old(queue)[0];
        var t := QuietTransact(old(States()), now);
        && States() == t.states && signals == t.signals && keepAlive == old(keepAlive)
        && queue == (if t.admitted then old(queue)[1..] else old(queue))
        && callbacks == (if t.admitted then old(callbacks)[head.id := CallbackOf(head.args)] else old(callbacks))
        && dispatched == (if t.admitted then old(dispatched) + [Wrapped(head)] else old(dispatched))
        && trace == old(trace) + TransactTrace(head.id, |limits|, FirstDenial(old(States()), now))
      ensures nextId == old(nextId)
    {
      if queue == [] {
        keepAlive := false;
        return [];
      }
      ghost var q, k, n, cb, d := queue, keepAlive, nextId, callbacks, dispatched;
      var head := queue[0];
      var ok;
      ok, signals := RunCall(head, now);
      if ok {
        queue := queue[1..];
      }
      RetryKeepsCallsOk(q, k, n, cb, d, ok);
    }

    /** `nextTick` runs the next dispatched call: the target function is
        invoked with the wrapped arguments. */
    method Tick() returns (next: Option<Call>)
      requires Valid()
      modifies this`dispatched
      ensures Valid()
      ensures old(dispatched) == [] ==> next == None && dispatched == []
      ensures old(dispatched) != [] ==> next == Some(old(dispatched)[0]) && dispatched == old(dispatched)[1..]
    {
      if dispatched == [] {
        return None;
      }
      next := Some(dispatched[0]);
      dispatched := dispatched[1..];
    }

    /**
     * The completion wrapper of call `id`, invoked with `results`: the
     * original callback gets the same results first, then every limit is
     * released, last first, as a completion (not an undo).
     */
    method Complete(id: CallId, results: seq<Value>, now: int)
      returns (callback: Callable, delivered: seq<Value>, signals: seq<Signal>)
      requires Valid() && id in callbacks
      // the wrapper reaches the call's function only when `nextTick` runs it
      requires forall k :: 0 <= k < |dispatched| ==> dispatched[k].id != id
      modifies this, Repr
      ensures Valid()
      ensures callback == old(callbacks)[id] && delivered == results
      ensures var e := CompleteAll(old(States()), now); States() == e.states && signals == e.signals
      ensures trace == old(trace) + [CallbackOp(id)] + ReleaseOps(id, |limits|, false)
      ensures queue == old(queue) && keepAlive == old(keepAlive) && nextId == old(nextId)
      ensures callbacks == old(callbacks) && dispatched == old(dispatched)
    {
      callback, delivered := callbacks[id], results;
      ghost var ss := States();
      ghost var ops;
      signals, ops := ReleaseDownFrom(limits, |limits|, now, false, id);
      trace := trace + [CallbackOp(id)] + ops;
      NotifiersKept(ss, now, Installed(Unblocker));
    }

    /** A LimitPerInterval expiry timer started by an earlier completion fires. */
    method FireExpiry(k: nat) returns (signal: Signal)
      requires Valid() && k < |limits| && States()[k].PerInterval? && States()[k].pending > 0
      modifies limits[k].Obj()
      ensures Valid()
      ensures var e := P.Expire(old(States())[k]); States() == old(States())[k := e.next] && signal == e.signal
    {
      signal := ExpireAt(limits, k);
    }
  }

  /**
   * A limiter built with `maxConcurrent: 1` runs one call at a time: the
   * first call is admitted, the second is queued with the process kept
   * alive; the first call's completion notifies the limiter, and the retry
   * that follows admits the second call.
   */
  method OneAtATime(a: seq<Value>, b: seq<Value>, now: int)
    returns (first: bool, second: bool, done: seq<Signal>, l: Limiter)
    requires HasCallback(a) && HasCallback(b)
    ensures first && !second
    ensures done == [Unblock(Installed(Unblocker))]
    ensures l.queue == [] && l.dispatched == [Wrapped(Call(1, b))]
    ensures l.States() == [P.Concurrent(Installed(Unblocker), 1, 1)]
  {
    var u := Installed(Unblocker);
    SingleConcurrentLimit(u, now);
    first, second, l := OneRunningOneWaiting(a, b, now);
    var running := l.Tick();
    var callback, delivered;
    callback, delivered, done := l.Complete(0, [], now);
    assert l.States() == [P.Concurrent(u, 1, 0)] && l.queue == [Call(1, b)];
    var signals := l.OnUnblock(now);
  }

  /** The first two calls to a new limiter with `maxConcurrent: 1`. */
  method OneRunningOneWaiting(a: seq<Value>, b: seq<Value>, now: int)
    returns (first: bool, second: bool, l: Limiter)
    requires HasCallback(a) && HasCallback(b)
    ensures fresh(l) && fresh(l.Repr) && l.Valid()
    ensures first && !second && l.keepAlive
    ensures l.queue == [Call(1, b)] && l.dispatched == [Wrapped(Call(0, a))] && 0 in l.callbacks
    ensures l.States() == [P.Concurrent(Installed(Unblocker), 1, 1)]
  {
    var u := Installed(Unblocker);
    SingleConcurrentLimit(u, now);
    l := NewOneAtATime();
    var signals;
    first, signals := l.Admit(a, now);
    assert l.States() == [P.Concurrent(u, 1, 1)] && l.dispatched == [Wrapped(Call(0, a))];
    second, signals := l.Admit(b, now);
  }

  /** `new Limiter(call, {maxConcurrent: 1})`: one fresh LimitConcurrent of
      capacity one, notifying the limiter, and nothing waiting. */
  method NewOneAtATime() returns (l: Limiter)
    ensures fresh(l) && fresh(l.Repr) && l.Valid()
    ensures l.queue == [] && l.nextId == 0 && l.callbacks == map[] && l.dispatched == []
    ensures l.States() == [P.Concurrent(Installed(Unblocker), 1, 0)]
  {
    l := new Limiter(Options([], 1, 0));
    assert WithNotifier([] + BuiltIn(Options([], 1, 0)), Installed(Unblocker))
        == [P.Concurrent(Installed(Unblocker), 1, 0)];
  }

  /** A single LimitConcurrent of capacity one: a call is admitted when it is
      free and refused when it is taken, and a completion frees it and
      notifies. */
  lemma SingleConcurrentLimit(n: Notifier, now: int)
    ensures QuietTransact([P.Concurrent(n, 1, 0)], now) == Transaction(true, [P.Concurrent(n, 1, 1)], [])
    ensures QuietTransact([P.Concurrent(n, 1, 1)], now) == Transaction(false, [P.Concurrent(n, 1, 1)], [])
    ensures CompleteAll([P.Concurrent(n, 1, 1)], now) == Effects([P.Concurrent(n, 1, 0)], [Unblock(n)])
    ensures FirstDenial([P.Concurrent(n, 1, 0)], now) == 1 && FirstDenial([P.Concurrent(n, 1, 1)], now) == 0
  {
    FirstDenialUnique([P.Concurrent(n, 1, 0)], now, 1);
    FirstDenialUnique([P.Concurrent(n, 1, 1)], now, 0);
  }
}
