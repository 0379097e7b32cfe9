// The atomic reactions of the circuit breaker as functions of its state: permission, success,
// error, transition and reset. The class CircuitBreaker implements them; the run theorems are
// about them. `now` is the clock reading, frozen within one reaction.

module BreakerCore {
  import opened CallMetrics
  import opened Common
  import opened BreakerConfig
  import opened SlidingWindow

  datatype StateType = CLOSED | OPEN | HALF_OPEN | DISABLED | FORCED_OPEN | METRICS_ONLY

  datatype State =
    | Closed
    | Open(openedAt: real)
    | HalfOpen(permitsUsed: int, calls: seq<CallOutcome>, enteredAt: real)
    | Disabled
    | ForcedOpen
    | MetricsOnly
  {
    function Type(): StateType {
      match this
      case Closed => CLOSED
      case Open(_) => OPEN
      case HalfOpen(_, _, _) => HALF_OPEN
      case Disabled => DISABLED
      case ForcedOpen => FORCED_OPEN
      case MetricsOnly => METRICS_ONLY
    }

    // States whose on_success and on_error raise RuntimeError.
    predicate Refuses() {
      Open? || ForcedOpen?
    }
  }

  datatype Event =
    | Success(durationMs: real)
    | Error(durationMs: real, error: Exn)
    | CallNotPermitted
    | Transition(from: StateType, to: StateType)
    | ResetDone
    | IgnoredError(error: Exn)
    | FailureRateExceeded(rate: real)
    | SlowCallRateExceeded(rate: real)

  // `instance` numbers the state objects ever installed; `log` holds the published events.
  datatype Breaker = Breaker(state: State, instance: nat, window: seq<CallOutcome>, log: seq<Event>)

  // How the protected function ended, and what leaves `_execute_async`.
  datatype Ending = Returned(value: int) | Raised(error: Exn)
  datatype Reply = Value(value: int) | Failure(error: Exn) | NotPermitted(state: StateType)

  const INITIAL := Breaker(Closed, 0, [], [])

  function RuntimeError(message: string): Exn {
    Exn({"RuntimeError", "Exception"}, message)
  }

  function RefusalOf(handler: string, s: StateType): Exn {
    RuntimeError(handler + (if s == OPEN then " called in open state" else " called in forced open state"))
  }

  function Fresh(s: StateType, now: real): State {
    match s
    case CLOSED => Closed
    case OPEN => Open(now)
    case HALF_OPEN => HalfOpen(0, [], now)
    case DISABLED => Disabled
    case FORCED_OPEN => ForcedOpen
    case METRICS_ONLY => MetricsOnly
  }

  function TransitionTo(b: Breaker, s: StateType, now: real): Breaker {
    if b.state.Type() == s then b
    else Breaker(Fresh(s, now), b.instance + 1, b.window, b.log + [Transition(b.state.Type(), s)])
  }

  function Reset(b: Breaker): Breaker {
    Breaker(Closed, b.instance + 1, [], b.log + [ResetDone])
  }

  function Publish(b: Breaker, e: Event): Breaker {
    b.(log := b.log + [e])
  }

  // ---------- Permission ----------

  function AcquireHalfOpen(cfg: Config, b: Breaker, now: real): (Breaker, bool)
    requires b.state.HalfOpen?
  {
    if cfg.maxWaitInHalfOpen > 0.0 && now - b.state.enteredAt >= cfg.maxWaitInHalfOpen then
      (TransitionTo(b, OPEN, now), false)
    else if b.state.permitsUsed < cfg.permittedInHalfOpen then
      (b.(state := b.state.(permitsUsed := b.state.permitsUsed + 1)), true)
    else
      (b, false)
  }

  function Acquire(cfg: Config, b: Breaker, now: real): (Breaker, bool) {
    match b.state
    case Open(openedAt) =>
      if cfg.automaticHalfOpen && now - openedAt >= cfg.waitInOpen then
        AcquireHalfOpen(cfg, TransitionTo(b, HALF_OPEN, now), now)
      else (b, false)
    case HalfOpen(_, _, _) => AcquireHalfOpen(cfg, b, now)
    case ForcedOpen => (b, false)
    case _ => (b, true)
  }

  // ---------- Completion ----------

  function Record(cfg: Config, b: Breaker, o: CallOutcome, now: real): Breaker {
    b.(window := Added(cfg.window, b.window, o, now))
  }

  function CheckThresholds(cfg: Config, b: Breaker, now: real): Breaker {
    var pruned := b.(window := Pruned(cfg.window, b.window, now));
    var s := Snap(pruned.window);
    if s.totalCalls < cfg.minimumCalls then pruned
    else if s.failureRate >= cfg.failureRateThreshold then
      Publish(TransitionTo(pruned, OPEN, now), FailureRateExceeded(s.failureRate))
    else if s.slowCallRate >= cfg.slowCallRateThreshold then
      Publish(TransitionTo(pruned, OPEN, now), SlowCallRateExceeded(s.slowCallRate))
    else pruned
  }

  function RecordHalfOpen(cfg: Config, b: Breaker, o: CallOutcome): Breaker
    requires b.state.HalfOpen?
  {
    b.(state := b.state.(calls := Capped(b.state.calls, cfg.permittedInHalfOpen, o)))
  }

  function CheckTransition(cfg: Config, b: Breaker, now: real): Breaker
    requires b.state.HalfOpen?
  {
    if |b.state.calls| < cfg.permittedInHalfOpen then b
    else
      var s := Snap(b.state.calls);
      if s.failureRate >= cfg.failureRateThreshold then TransitionTo(b, OPEN, now)
      else if s.slowCallRate >= cfg.slowCallRateThreshold then TransitionTo(b, OPEN, now)
      else TransitionTo(b, CLOSED, now)
  }

  // on_success in a state that does not refuse.
  function OnSuccess(cfg: Config, b: Breaker, durationMs: real, now: real): Breaker
    requires !b.state.Refuses()
  {
    var o := Outcome(now, durationMs, true, cfg.SlowThresholdMs());
    match b.state
    case Closed => CheckThresholds(cfg, Record(cfg, b, o, now), now)
    case HalfOpen(_, _, _) => CheckTransition(cfg, RecordHalfOpen(cfg, b, o), now)
    case MetricsOnly => Record(cfg, b, o, now)
    case _ => b
  }

  // on_error in a state that does not refuse.
  function OnError(cfg: Config, b: Breaker, durationMs: real, e: Exn, now: real): Breaker
    requires !b.state.Refuses()
  {
    var recorded := cfg.ShouldRecord(e);
    var o := Outcome(now, durationMs, !recorded, cfg.SlowThresholdMs());
    match b.state
    case Closed =>
      if recorded then CheckThresholds(cfg, Record(cfg, b, o, now), now) else Record(cfg, b, o, now)
    case HalfOpen(_, _, _) => CheckTransition(cfg, RecordHalfOpen(cfg, b, o), now)
    case MetricsOnly => Record(cfg, b, o, now)
    case _ => b
  }

  // The part of `_execute_async` after the function ended. A refusal by on_success is itself
  // caught by the error path, whose on_error refuses again.
  function HandleError(cfg: Config, b: Breaker, durationMs: real, e: Exn, now: real): (Breaker, Reply) {
    var b1 := if cfg.ShouldRecord(e) then b else Publish(b, IgnoredError(e));
    if b.state.Refuses() then (b1, Failure(RefusalOf("on_error", b.state.Type())))
    else (Publish(OnError(cfg, b1, durationMs, e, now), Error(durationMs, e)), Failure(e))
  }

  function Complete(cfg: Config, b: Breaker, ending: Ending, durationMs: real, now: real): (Breaker, Reply) {
    match ending
    case Raised(e) => HandleError(cfg, b, durationMs, e, now)
    case Returned(v) =>
      if b.state.Refuses() then HandleError(cfg, b, durationMs, RefusalOf("on_success", b.state.Type()), now)
      else (Publish(OnSuccess(cfg, b, durationMs, now), Success(durationMs)), Value(v))
  }

  // The part before the function starts.
  function Admit(cfg: Config, b: Breaker, now: real): (Breaker, Option<Reply>) {
    var (b1, granted) := Acquire(cfg, b, now);
    if granted then (b1, None)
    else (Publish(b1, CallNotPermitted), Some(NotPermitted(b1.state.Type())))
  }

  // `get_metrics`: taking a snapshot also prunes the window.
  function Observe(cfg: Config, b: Breaker, now: real): Breaker {
    b.(window := Pruned(cfg.window, b.window, now))
  }
}
