/**
 * Values that cross the limiter's boundary: call arguments, the function
 * values among them, the notifier a limit holds, and the notifications a
 * limit operation hands back to the event loop instead of calling it
 * re-entrantly.
 */
module Values {

  /** Identity of one scheduled call; the source uses the identity of the call's argument array. */
  type CallId = nat

  /** A function value, as far as the limiter can tell functions apart. */
  datatype Callable =
    | UserFn(name: nat)          // a function supplied by the caller
    | Completion(call: CallId)   // the wrapper the limiter substitutes for a call's callback
    | Unblocker                  // the limiter's own unblock handler

  /** A positional argument: plain data or a function. */
  datatype Value = Data(n: int) | Fn(f: Callable)

  /** The unblock notifier a limit holds; `Default` is the no-op every limit starts with. */
  datatype Notifier = Default | Installed(f: Callable)

  /** What a limit operation asks of the event loop. */
  datatype Signal =
    | Quiet                                   // nothing to notify
    | Unblock(to: Notifier)                   // call the notifier now
    | UnblockAfter(delay: int, to: Notifier)  // call the notifier after `delay` ms
    | ExpireAfter(delay: int)                 // run the limit's own expiry after `delay` ms

  datatype Option<T> = None | Some(value: T)

  /** The last argument is a function: the call carries a completion callback. */
  predicate HasCallback(args: seq<Value>)
  {
    |args| > 0 && args[|args| - 1].Fn?
  }

  function CallbackOf(args: seq<Value>): Callable
    requires HasCallback(args)
  {
    args[|args| - 1].f
  }
}
