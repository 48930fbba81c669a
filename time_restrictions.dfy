/** `time_restricted`: a decorator that lets a handler run only when a
    predicate holds for the current UTC time, and answers 503 otherwise. */
module TimeRestrictions {

  import opened Common
  import opened Calendar

  const DEFAULT_NOT_ALLOWED_MSG: string := "Service Unavailable. This endpoint is time-constrained"

  /** `msg or '<default>'`: a missing or empty message falls back to the default. */
  function NotAllowedMessage(msg: Option<string>): (m: string)
    ensures (msg.None? || msg.value == "") ==> m == DEFAULT_NOT_ALLOWED_MSG
    ensures (msg.Some? && msg.value != "") ==> m == msg.value
  {
    if msg.Some? && msg.value != "" then msg.value else DEFAULT_NOT_ALLOWED_MSG
  }

  /** The decision the wrapper takes at `now`, the one reading of the clock:
      `Some(response)` when it answers by itself, `None` when the wrapped
      handler runs. */
  function Gate(restriction: Instant -> bool, msg: Option<string>, now: Instant): (g: Option<Response>)
    ensures g.None? <==> restriction(now)
    ensures g.Some? ==> g.value == Msg(503, NotAllowedMessage(msg))
  {
    if restriction(now) then None else Some(Msg(503, NotAllowedMessage(msg)))
  }

  /** The wrapped handler for a handler that only computes its response. */
  function TimeRestricted<A>(restriction: Instant -> bool, msg: Option<string>, handler: A -> Response, now: Instant, args: A): (r: Response)
    ensures restriction(now) ==> r == handler(args)
    ensures !restriction(now) ==> r.status == 503 && r == Msg(503, NotAllowedMessage(msg))
  {
    var g := Gate(restriction, msg, now);
    if g.Some? then g.value else handler(args)
  }

  /** When the predicate rejects `now`, the handler is not consulted: any two
      handlers give the same answer. */
  lemma RejectedIgnoresHandler<A>(restriction: Instant -> bool, msg: Option<string>, h1: A -> Response, h2: A -> Response, now: Instant, args: A)
    requires !restriction(now)
    ensures TimeRestricted(restriction, msg, h1, now, args) == TimeRestricted(restriction, msg, h2, now, args)
  {
  }
}
