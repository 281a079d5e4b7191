# qlimiter, modelled in Dafny

qlimiter wraps an asynchronous function so that calls to it are admitted
only while every *limit* in an ordered list allows. A call whose last
argument is its completion callback is run through an all-or-nothing
acquire over the limits. If a limit refuses, the limits already taken are
released again, last first, as undos, and the call waits in a FIFO queue.
When a limit reports freed capacity, the limiter retries the queue head. When
an admitted call completes, its original callback runs, and then every limit
is released, last first. Four limit policies exist:

- the base `Limit`, which admits everything;
- `LimitConcurrent`, with at most `max` calls in flight;
- `LimitInterval`, with at most one call per `interval` ms;
- `LimitPerInterval`, with at most `max` calls whose slot has not expired. A completed call keeps its slot until an expiry timer fires.

The model is imperative where the source is:

- one class per limit, with the source's fields;
- a `Limiter` class holding the wait queue, the keep-alive flag and the bookkeeping of admitted calls.

Each class method is proved against a pure specification:

- `Policy.Acquire`, `Release`, `Expire` and `Install` specify the limits;
- `Admission.Transact` and `CompleteAll` specify the limiter's transaction and its completion.

Lemmas about these functions state what each policy and the limiter promise.

The event loop is explicit:

- time is a parameter `now`;
- a timer the source would start, and a notifier call it would make, come back as a `Signal` (`Unblock`, `UnblockAfter(delay)`, `ExpireAfter(delay)` or `Quiet`);
- a call handed to `nextTick` waits in `dispatched` until `Tick`;
- the completion wrapper of call `id` is `Limiter.Complete(id, …)`;
- a LimitPerInterval expiry timer firing is `Limiter.FireExpiry(k)`.

A ghost `trace` records every acquire, release and callback the limiter
performs. The ordering properties are stated on this trace.

The limiter delivers no notification from the undo releases of a refused
call. The source does, and that makes the limiter retry its queue head
without end; see "## Findings".

Files:

- `values.dfy`: calls, function values, notifiers, signals.
- `policy.dfy`: the four policies as functions and their lemmas.
- `accounting.dfy`: runs of one limit over many events, and the counter invariants.
- `limit.dfy`, `limit_concurrent.dfy`, `limit_interval.dfy`, `limit_per_interval.dfy`: the limit classes.
- `admission.dfy`: the transaction, the completion and the trace, as functions of the limits' states.
- `limiter.dfy`: the `Limiter` class.

## Model

| member | source | states |
|---|---|---|
| Policy.Acquire | lib/LimitConcurrent.js:20-23 | acquire keeps a limit's kind, notifier and parameters; a refusal of a limit with sane counters leaves it unchanged; sane counters stay sane |
| Policy.Release | lib/LimitInterval.js:35-45 | release keeps the configuration; an undo is silent or notifies its own notifier; a completion always signals something; a deferred notification only comes from LimitInterval, at least 2 ms ahead and 1 ms after `nextAt` |
| Policy.Expire | lib/LimitPerInterval.js:46-49 | an expiry takes one off `runningCount`, consumes one pending timer, keeps `finishTimes` and notifies once |
| Policy.Install | lib/Limit.js:14-17 | `setOnUnblock` succeeds exactly for a function, which becomes the notifier; nothing else changes |
| Policy.PlainAdmitsAll | lib/Limit.js:19-22 | a base Limit admits and changes nothing |
| Policy.PlainReleaseNotifies | lib/Limit.js:24-27 | a base Limit notifies once on every release, undo or not, and changes nothing |
| Policy.InstallRejectsNonFunction | lib/Limit.js:14-15 | a non-function is refused (the thrown error) |
| Policy.InstalledNotifierIsCalled | lib/Limit.js:14-27 | after `setOnUnblock(f)` on a fresh Limit, a release calls `f` |
| Policy.ConcurrentAcquire | lib/LimitConcurrent.js:20-23 | acquire admits exactly when `running < max`, adding one; a refusal leaves `running` |
| Policy.ConcurrentCapOfTwo | test/test-LimitConcurrent.js:25-34 | with max 2, two acquires succeed, the third fails, `running` stays 2 |
| Policy.ConcurrentRelease | lib/LimitConcurrent.js:25-28 | release takes one off `running` and notifies once, also on an undo |
| Policy.EmbeddedConcurrentRelease | qlimiter.js:174-177 | the embedded copy's release decrements `running` and notifies only when `running < max` afterwards |
| Policy.EmbeddedConcurrentReleaseAgrees | qlimiter.js:174-177 | the embedded release equals lib's whenever `running <= max` |
| Policy.IntervalFirstAcquire | lib/LimitInterval.js:18-32 | a fresh LimitInterval admits its first call at any `now >= 0` and sets `nextAt` to `now + interval` |
| Policy.IntervalAcquire | lib/LimitInterval.js:23-33 | admits exactly when `now >= nextAt`; a refusal changes nothing; admission sets `lastAt` to the old `nextAt` and `nextAt` to `now + interval` |
| Policy.IntervalUndoRestoresThreshold | lib/LimitInterval.js:30-37 | acquire followed by an undo restores `nextAt` |
| Policy.IntervalLastAtUnobserved | lib/LimitInterval.js:23-45 | states differing only in `lastAt` decide acquires, their results and completion signals alike |
| Policy.IntervalReleaseReady | lib/LimitInterval.js:41 | a completion at or after `nextAt` notifies now and changes nothing |
| Policy.IntervalReleaseEarly | lib/LimitInterval.js:43 | a completion before `nextAt` changes nothing and schedules one notification `nextAt - now + 1` ms later, strictly after `nextAt` |
| Policy.PerIntervalAcquire | lib/LimitPerInterval.js:30-34 | admits exactly when `runningCount < max`, adding one; a refusal changes nothing |
| Policy.PerIntervalCapOfTwo | test/test-LimitPerInterval.js:24-33 | with max 2, the third acquire fails and `runningCount` stays 2 |
| Policy.PerIntervalUndo | lib/LimitPerInterval.js:37-40 | an undo frees the slot at once, silently |
| Policy.PerIntervalCompletion | lib/LimitPerInterval.js:42-43 | a completion keeps the slot, appends `now` to `finishTimes` and schedules one expiry `interval + 1` ms later |
| Policy.UndoRestores | qlimiter.js:106-110 | undoing a granted acquire restores every policy's state (LimitInterval up to the unobservable `lastAt`) |
| Accounting.AccountedStep | lib/LimitConcurrent.js:20-28 | one enabled operation (an acquire, a release, an expiry or a whole rollback) keeps the counters equal to their tallies and within the cap |
| Accounting.CountersStayWithinCap | lib/LimitPerInterval.js:30-48 | along every run whose releases answer earlier grants and whose expiries answer started timers: `0 <= running <= max`, `0 <= runningCount <= max`, `runningCount` = grants − undos − expiries |
| Accounting.FreshLimitsStayWithinCap | lib/LimitConcurrent.js:13-28 | from a fresh LimitConcurrent or LimitPerInterval, every matched run stays within the cap |
| Accounting.IntervalSpacing | lib/LimitInterval.js:23-37 | along every run whose undos each come right after their acquire (a `Roll`, as inside the limiter's transaction), LimitInterval admits nothing for good before `nextAt`, and successive admissions are at least `interval` ms apart |
| BaseLimit.Limit.constructor | lib/Limit.js:10-12 | a new Limit holds the no-op notifier |
| BaseLimit.Limit.SetOnUnblock | lib/Limit.js:14-17 | installs a function as notifier, refuses anything else and keeps the old one |
| BaseLimit.Limit.Acquire | lib/Limit.js:19-22 | always admits |
| BaseLimit.Limit.Release | lib/Limit.js:24-27 | notifies once |
| ConcurrentLimit.LimitConcurrent.constructor | lib/LimitConcurrent.js:13-17 | `running` starts at 0 with the no-op notifier |
| ConcurrentLimit.LimitConcurrent.SetOnUnblock | lib/Limit.js:14-17 | as the base limit's |
| ConcurrentLimit.LimitConcurrent.Acquire | lib/LimitConcurrent.js:20-23 | refuses at `running >= max` without change; otherwise increments `running` and returns the new count's truth |
| ConcurrentLimit.LimitConcurrent.Release | lib/LimitConcurrent.js:25-28 | decrements `running` and notifies |
| IntervalLimit.LimitInterval.constructor | lib/LimitInterval.js:14-20 | `lastAt = nextAt = 0` with the no-op notifier |
| IntervalLimit.LimitInterval.SetOnUnblock | lib/Limit.js:14-17 | as the base limit's |
| IntervalLimit.LimitInterval.Acquire | lib/LimitInterval.js:23-33 | refuses before `nextAt` without change; otherwise `lastAt := nextAt`, `nextAt := now + interval` |
| IntervalLimit.LimitInterval.Release | lib/LimitInterval.js:35-45 | an undo restores `nextAt := lastAt` silently; a completion notifies now or 1 ms after `nextAt` |
| PerIntervalLimit.LimitPerInterval.constructor | lib/LimitPerInterval.js:13-25 | `runningCount` 0, no finish times, no pending expiry |
| PerIntervalLimit.LimitPerInterval.SetOnUnblock | lib/Limit.js:14-17 | as the base limit's |
| PerIntervalLimit.LimitPerInterval.Acquire | lib/LimitPerInterval.js:30-34 | admits exactly when `runningCount < max`, taking a slot |
| PerIntervalLimit.LimitPerInterval.Release | lib/LimitPerInterval.js:36-44 | an undo frees the slot silently; a completion records `now` and starts one expiry timer |
| PerIntervalLimit.LimitPerInterval.Expire | lib/LimitPerInterval.js:46-49 | frees one slot, consumes the timer and notifies |
| Admission.FirstDenialIsFirst | qlimiter.js:106-107 | every limit before `FirstDenial` grants and the one at it refuses |
| Admission.FirstDenialUnique | qlimiter.js:106-107 | `FirstDenial` is the only index with that property |
| Admission.Transact | qlimiter.js:104-111 | the transaction keeps the number of limits; an admission signals nothing; a refusal at limit `i` gives exactly `i` undo signals |
| Admission.TransactAdmitsIffAllGrant | qlimiter.js:106-112 | a call is admitted exactly when every limit grants it |
| Admission.TransactAllOrNothing | qlimiter.js:106-110 | an admission acquires every limit; a refusal restores the limits before the refusing one, leaves the refusing one unchanged when its counters are sane (a LimitConcurrent at `running == -1` keeps its increment while refusing) and never touches later ones |
| Admission.TransactKeepsSane | qlimiter.js:106-110 | sane counters stay sane through a transaction |
| Admission.CompleteAll | qlimiter.js:131-134 | a completion releases every limit and returns one signal per limit |
| Admission.CompleteAllKeepsConfig | qlimiter.js:131-134 | a completion keeps each limit's configuration and every release signals something |
| Admission.NotifiersKept | qlimiter.js:51 | transactions and completions keep every limit's notifier |
| Admission.Wrapped | qlimiter.js:114-117 | the dispatched call keeps its identity and every argument except the last, which becomes the completion wrapper |
| Admission.ReleaseOpsShape | qlimiter.js:132-134 | the release sequence only releases limits below `n`, for the call, with the given undo flag, in strictly decreasing index order |
| Admission.ReleaseOpsOnceEach | qlimiter.js:132-134 | every limit is released exactly once |
| Admission.TransactTraceStopsAtDenial | qlimiter.js:106-110 | a refusal at `i` asks limits `0..i` and no later one, undoes each of `0..i-1` exactly once and completes none |
| Admission.RefusalIsFixedPoint | qlimiter.js:53-57 | retrying a refused call at the same instant (the refusing limit sane) is refused again, leaves the limits exactly as the first try left them and gives the same undo signals again |
| Admission.RefusalNotifies | qlimiter.js:109 | every base Limit or LimitConcurrent before the refusing limit notifies its notifier when undone |
| Admission.ConcurrentThenIntervalRetriesForever | qlimiter.js:106-110 | with `maxConcurrent: 2, minInterval: 100`, one call running and `nextAt` = 100, a transaction at time 20 is refused, leaves both limits as they were and notifies the limiter once |
| Admission.QuietTransact | qlimiter.js:104-111 | the transaction with silent undos: admitted exactly when every limit grants, the same final states as `Transact`, no signal |
| Admission.QuietRefusalSettles | qlimiter.js:53-57 | with silent undos, a refused call retried at the same instant is refused again, changes nothing and notifies nobody |
| QLimiter.AcquireOn | qlimiter.js:107 | `limits[i].acquire()` on any of the four kinds grants and updates exactly as `Policy.Acquire` |
| QLimiter.ReleaseOn | qlimiter.js:133 | `limits[i].release(isUndo)` signals and updates exactly as `Policy.Release` |
| QLimiter.InstallOn | qlimiter.js:51 | `setOnUnblock` on any kind succeeds exactly for a function and updates as `Policy.Install` |
| QLimiter.TransactOn | qlimiter.js:104-111 | the acquire and undo loops over the limit objects leave exactly `Transact`'s states and signals, with the trace of acquires then undos |
| QLimiter.AcquireAll | qlimiter.js:106-107 | the acquire loop stops at `FirstDenial`, having acquired the limits up to and including it |
| QLimiter.ReleaseDownFrom | qlimiter.js:109 | releases limits `i-1` down to 0, one each, returning their signals in that order |
| QLimiter.InstallAll | qlimiter.js:51 | every limit gets the notifier, nothing else changes |
| QLimiter.AddBuiltIns | qlimiter.js:33-36 | the caller's limits, then a fresh LimitConcurrent when `maxConcurrent > 0`, then a fresh LimitInterval when `minInterval > 0` |
| QLimiter.BuildLimits | qlimiter.js:33-51 | that list, the built-in limits newly allocated, every limit notifying the limiter |
| QLimiter.NewCallKeepsCallsOk | qlimiter.js:82-88 | a new call with the next identity, admitted or queued last with the process kept alive, keeps the call bookkeeping consistent |
| QLimiter.RetryKeepsCallsOk | qlimiter.js:53-57 | retrying the queue head, admitted or not, keeps it consistent |
| QLimiter.Limiter.constructor | qlimiter.js:29-51 | the limit list as above, all notifying the limiter, every limit but the caller's own newly allocated; empty queue, not kept alive |
| QLimiter.Limiter.RunCall | qlimiter.js:104-141 | the limits end as `Transact` says and no notification is passed on (`QuietTransact`); on admission the callback is kept and the wrapped call dispatched; the queue is untouched |
| QLimiter.Limiter.ScheduleCall | qlimiter.js:76-89 | a call without callback is dropped with nothing consulted; otherwise it is admitted, or queued last with keep-alive on |
| QLimiter.Limiter.Admit | qlimiter.js:82-88 | the call with a callback gets the next identity and is admitted or queued last, keeping the process alive |
| QLimiter.Limiter.OnUnblock | qlimiter.js:53-59 | on an empty queue only keep-alive drops; otherwise the head is retried and removed only if admitted, and a refused retry notifies nobody |
| QLimiter.Limiter.Tick | qlimiter.js:139 | the deferred call runs with its wrapped arguments, in dispatch order |
| QLimiter.Limiter.Complete | qlimiter.js:117-135 | for a call already started by `nextTick`: the original callback gets the same results first, then every limit is released once, last first, as a completion |
| QLimiter.Limiter.FireExpiry | lib/LimitPerInterval.js:43-49 | an expiry timer of limit `k` frees one slot of that limit only |
| QLimiter.SingleConcurrentLimit | lib/LimitConcurrent.js:20-28 | with one LimitConcurrent of capacity one: a call is admitted while it is free and refused while it is taken, and a completion frees it and notifies |
| QLimiter.NewOneAtATime | qlimiter.js:29-51 | `maxConcurrent: 1` gives a new limiter with one fresh LimitConcurrent of capacity one that notifies the limiter, and nothing waiting |
| QLimiter.OneRunningOneWaiting | test/test-qlimiter.js:71-86 | on that limiter the first call is admitted and dispatched, the second is queued with the process kept alive |
| QLimiter.OneAtATime | test/test-qlimiter.js:71-86 | after the first call starts and completes, the limiter is notified once, and the retry admits and dispatches the second call with its wrapper |

## Left out

- Time and timers. `Date.now()` is the parameter `now`, read once per limiter operation; the source reads the clock again for each limit. `setTimeout` and the limits' notifier calls come back as `Signal`s for the caller to act on. The 1 ms early-firing tolerance of real timers is not modelled.
- Re-entrant notification. In the source, a base Limit or LimitConcurrent undo calls `onUnblock` synchronously, before `scheduleCall` has queued the refused call. The model's limiter passes these notifications on to nobody (see "## Findings"). The completion releases' notifications are returned to the caller after all releases, where the source runs `onUnblock` between one release and the next.
- QLimiter.Limiter.Complete: the callback and the releases are one step. In the source the user callback runs (qlimiter.js:129) while every limit is still held. A call it schedules therefore meets the held limits, and when they refuse it, it queues behind the earlier waiters. A callback that throws skips the releases, so every limit stays taken. "Callback first" is stated only on the ghost `trace`.
- `parseInt`. `Options` holds integers. The source tests `maxConcurrent > 0` and `minInterval > 0` on the raw option and truncates with `parseInt` afterwards (qlimiter.js:35-36). For example, `maxConcurrent: 0.5` builds a `LimitConcurrent(0)` that refuses every call.
- Aliasing. The limits in `options.limits` must be distinct objects. The source also appends the built-in limits to the caller's own array, and that mutation of the caller's array is not modelled.
- Custom limits. The source accepts any object with `acquire`, `release` and `setOnUnblock`; the model knows only the four policies.
- The embedded copies of the limits in qlimiter.js (lines 146-211). The model uses the lib/ classes. The only behavioural difference, `LimitConcurrent.release`, is modelled as a function and shown to agree while `running <= max`.
- `LimitPerInterval` constructors. The broken ones at lib/LimitInterval.js:53-65 and qlimiter.js:216-227 reference an undefined `QHeap`.
- Dead code. The code after the `return` in `_expire` (lib/LimitPerInterval.js:51-57) is unreachable.
- lib/Timer.js is not part of this model.
- The 100-year timer is only the `keepAlive` flag.
- The `qlist` queue is a sequence.
- The variable-arity argument copying and `_runCall` are positional argument sequences.
- `console.log` and the `maxWaiting`/`maxWaitTime` TODO.
- Identity of calls. The source identifies a call by its argument array; the model gives each call a fresh `id`. QLimiter.Limiter.RunCall requires the id not to be admitted already, which the limiter's own bookkeeping guarantees.

## Findings

| source | as written | input that shows it | evidently intended | confidence | as-written member | corrected member |
|---|---|---|---|---|---|---|
| qlimiter.js:109 with qlimiter.js:53-57 and lib/LimitConcurrent.js:27 | the undo release of a base Limit or LimitConcurrent calls the limiter's `onUnblock` at once, which retries the queue head; that retry is refused the same way and notifies again, so the recursion does not end while the clock stays before the refusing interval | `{maxConcurrent: 2, minInterval: 100}`, one call running, one call queued, a new call at time 20 | an undo gives back only what the same transaction just took and should notify nobody, as the LimitInterval and LimitPerInterval undos already do | medium, not executed; the clock moving past `nextAt` during the recursion would end it | Admission.RefusalIsFixedPoint, Admission.RefusalNotifies, Admission.ConcurrentThenIntervalRetriesForever | Admission.QuietTransact, Admission.QuietRefusalSettles (used by QLimiter.Limiter.RunCall, Admit, ScheduleCall and OnUnblock) |
