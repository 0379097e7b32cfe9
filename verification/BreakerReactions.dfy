// What one reaction of the breaker can do, case by case. The run theorems use only these facts.

module BreakerReactions {
  import opened CallMetrics
  import opened Common
  import opened BreakerConfig
  import opened BreakerCore

  ghost predicate Unfit(cfg: Config, calls: seq<CallOutcome>) {
    Unhealthy(calls, cfg.failureRateThreshold, cfg.slowCallRateThreshold)
  }

  // A HALF_OPEN state that has outlived its time limit; a limit of 0 means none.
  predicate TimedOut(cfg: Config, s: State, now: real) {
    s.HalfOpen? && cfg.maxWaitInHalfOpen > 0.0 && now - s.enteredAt >= cfg.maxWaitInHalfOpen
  }

  // The state after a granted permission.
  function WithPermit(s: State, now: real): State {
    match s
    case Open(_) => HalfOpen(1, [], now)
    case HalfOpen(used, calls, entered) => HalfOpen(used + 1, calls, entered)
    case _ => s
  }

  // A permission is granted iff the state accepts calls, has a probe left, or is an OPEN state
  // whose cool-down is over; it never leaves the breaker in a refusing state.
  lemma Permission(cfg: Config, b: Breaker, now: real)
    requires cfg.Valid()
    ensures var (b1, refusal) := Admit(cfg, b, now);
      && b1.window == b.window
      && (refusal.None? <==>
          match b.state
          case Open(t) => cfg.automaticHalfOpen && now - t >= cfg.waitInOpen
          case ForcedOpen => false
          case HalfOpen(used, _, _) => used < cfg.permittedInHalfOpen && !TimedOut(cfg, b.state, now)
          case _ => true)
      && (refusal.None? ==> !b1.state.Refuses() && b1.instance == if b.state.Open? then b.instance + 1 else b.instance)
      && (refusal.None? ==> b1.state == WithPermit(b.state, now))
      && (refusal.Some? ==> refusal == Some(NotPermitted(b1.state.Type())))
      && (refusal.Some? ==>
          if TimedOut(cfg, b.state, now) then b1.state == Open(now) && b1.instance == b.instance + 1
          else b1.state == b.state && b1.instance == b.instance)
  {
  }

  // What asking for permission publishes: the automatic transition, if there is one, and then exactly
  // the rejections.
  lemma AdmissionAnnounced(cfg: Config, b: Breaker, now: real)
    requires cfg.Valid()
    ensures var (b1, refusal) := Admit(cfg, b, now);
      b1.log == b.log
                + (if b.state.Open? && refusal.None? then [Transition(OPEN, HALF_OPEN)]
                   else if TimedOut(cfg, b.state, now) then [Transition(HALF_OPEN, OPEN)] else [])
                + (if refusal.Some? then [CallNotPermitted] else [])
  {
  }

  // OPEN and FORCED_OPEN let a late completion change nothing but the log.
  lemma RefusedCompletion(cfg: Config, b: Breaker, ending: Ending, durationMs: real, now: real)
    requires b.state.Refuses()
    ensures var (b1, reply) := Complete(cfg, b, ending, durationMs, now);
      && (b1.state, b1.instance, b1.window) == (b.state, b.instance, b.window)
      && reply == Failure(RefusalOf("on_error", b.state.Type()))
  {
  }

  // In CLOSED an exception that is not recorded is announced as ignored before it is announced as an
  // error, and leaves the call unchanged.
  lemma IgnoredCompletion(cfg: Config, b: Breaker, e: Exn, durationMs: real, now: real)
    requires b.state.Closed? && !cfg.ShouldRecord(e)
    ensures var (b1, reply) := Complete(cfg, b, Raised(e), durationMs, now);
      b1.log == b.log + [IgnoredError(e), Error(durationMs, e)] && b1.state == Closed && reply == Failure(e)
  {
  }

  // What these two states raise is an Exception, so that the refusal of on_success reaches on_error.
  lemma RefusalTexts(e: Exn, s: StateType)
    requires (s == OPEN || s == FORCED_OPEN) && e == RefusalOf("on_error", s)
    ensures e.classes == {"RuntimeError", "Exception"}
    ensures e.message == if s == OPEN then "on_error called in open state" else "on_error called in forced open state"
  {
  }

  // Any other state hands the function's own result to the caller, after announcing it.
  lemma AcceptedCompletion(cfg: Config, b: Breaker, ending: Ending, durationMs: real, now: real)
    requires !b.state.Refuses()
    ensures Complete(cfg, b, ending, durationMs, now).1 ==
            match ending case Returned(v) => Value(v) case Raised(e) => Failure(e)
    ensures var log := Complete(cfg, b, ending, durationMs, now).0.log;
      log != [] && log[|log| - 1] == OutcomeEvent(ending, durationMs)
  {
  }

  function OutcomeEvent(ending: Ending, durationMs: real): Event {
    match ending case Returned(_) => Success(durationMs) case Raised(e) => Error(durationMs, e)
  }

  function Recording(cfg: Config, ending: Ending, durationMs: real, now: real): CallOutcome {
    Outcome(now, durationMs, ending.Raised? ==> !cfg.ShouldRecord(ending.error), cfg.SlowThresholdMs())
  }

  // The verdict on a complete set of outcomes.
  lemma VerdictExact(cfg: Config, b: Breaker, now: real)
    requires cfg.Valid() && b.state.HalfOpen? && |b.state.calls| == cfg.permittedInHalfOpen
    ensures CheckTransition(cfg, b, now) == TransitionTo(b, if Unfit(cfg, b.state.calls) then OPEN else CLOSED, now)
  {
    SnapshotIsExact(b.state.calls, cfg.failureRateThreshold, cfg.slowCallRateThreshold);
  }

  lemma ProbeCompletion(cfg: Config, b: Breaker, ending: Ending, durationMs: real, now: real)
    requires cfg.Valid() && b.state.HalfOpen? && |b.state.calls| < cfg.permittedInHalfOpen
    ensures var b1 := Complete(cfg, b, ending, durationMs, now).0;
      var calls := b.state.calls + [Recording(cfg, ending, durationMs, now)];
      && b1.window == b.window
      && (|calls| < cfg.permittedInHalfOpen ==>
          b1.state == b.state.(calls := calls) && b1.instance == b.instance)
      && (|calls| == cfg.permittedInHalfOpen ==>
          b1.instance == b.instance + 1 && b1.state == if Unfit(cfg, calls) then Open(now) else Closed)
  {
    var o := Recording(cfg, ending, durationMs, now);
    var b0 := if ending.Raised? && !cfg.ShouldRecord(ending.error) then Publish(b, IgnoredError(ending.error)) else b;
    var recorded := RecordHalfOpen(cfg, b0, o);
    var calls := b.state.calls + [o];
    assert recorded.state == b.state.(calls := calls);
    if |calls| == cfg.permittedInHalfOpen {
      VerdictExact(cfg, recorded, now);
    }
  }

  // Whether thresholds are looked at: not when an exception is ignored.
  predicate Checked(cfg: Config, ending: Ending) {
    ending.Raised? ==> cfg.ShouldRecord(ending.error)
  }

  lemma ThresholdsExact(cfg: Config, b: Breaker, now: real, b1: Breaker, pruned: seq<CallOutcome>)
    requires cfg.Valid() && b.state.Closed? && b1 == CheckThresholds(cfg, b, now)
    requires pruned == Pruned(cfg.window, b.window, now)
    ensures b1.window == pruned
    ensures if |pruned| >= cfg.minimumCalls && Unfit(cfg, pruned)
            then b1.state == Open(now) && b1.instance == b.instance + 1
            else b1.state == Closed && b1.instance == b.instance
  {
    if pruned != [] {
      SnapshotIsExact(pruned, cfg.failureRateThreshold, cfg.slowCallRateThreshold);
    }
  }

  lemma ClosedCompletion(cfg: Config, b: Breaker, ending: Ending, durationMs: real, now: real)
    requires cfg.Valid() && b.state.Closed?
    ensures var b1 := Complete(cfg, b, ending, durationMs, now).0;
      var added := Added(cfg.window, b.window, Recording(cfg, ending, durationMs, now), now);
      var pruned := Pruned(cfg.window, added, now);
      && b1.window == (if Checked(cfg, ending) then pruned else added)
      && (if Checked(cfg, ending) && |pruned| >= cfg.minimumCalls && Unfit(cfg, pruned)
          then b1.state == Open(now) && b1.instance == b.instance + 1
          else b1.state == Closed && b1.instance == b.instance)
  {
    var added := Added(cfg.window, b.window, Recording(cfg, ending, durationMs, now), now);
    var pruned := Pruned(cfg.window, added, now);
    var recorded := b.(window := added);
    ThresholdsExact(cfg, recorded, now, CheckThresholds(cfg, recorded, now), pruned);
  }

  lemma PassiveCompletion(cfg: Config, b: Breaker, ending: Ending, durationMs: real, now: real)
    requires b.state.MetricsOnly? || b.state.Disabled?
    ensures var b1 := Complete(cfg, b, ending, durationMs, now).0;
      && b1.state == b.state && b1.instance == b.instance
      && b1.window == if b.state.Disabled? then b.window
                      else Added(cfg.window, b.window, Recording(cfg, ending, durationMs, now), now)
  {
  }

  // Opening from CLOSED is announced by the transition, then by the rate that was exceeded (the
  // failure rate if both were), then by the outcome of the call itself.
  lemma TripAnnounced(cfg: Config, b: Breaker, ending: Ending, durationMs: real, now: real, window: seq<CallOutcome>)
    requires cfg.Valid() && b.state.Closed? && Checked(cfg, ending)
    requires window == Complete(cfg, b, ending, durationMs, now).0.window
    requires |window| >= cfg.minimumCalls && Unfit(cfg, window)
    ensures var failing := AtLeastPercent(|FailedAt(window)|, |window|, cfg.failureRateThreshold);
      Complete(cfg, b, ending, durationMs, now).0.log == b.log + [
        Transition(CLOSED, OPEN),
        if failing then FailureRateExceeded(Percent(|FailedAt(window)|, |window|))
        else SlowCallRateExceeded(Percent(|SlowAt(window)|, |window|)),
        OutcomeEvent(ending, durationMs)]
  {
    PercentMeets(CountFailed(window), |window|, cfg.failureRateThreshold);
    PercentMeets(CountSlow(window), |window|, cfg.slowCallRateThreshold);
    ClosedCompletion(cfg, b, ending, durationMs, now);
  }

  // The exception that reaches the error path: the function's own, or the refusal of on_success.
  function Caught(b: Breaker, ending: Ending): Option<Exn> {
    match ending
    case Raised(e) => Some(e)
    case Returned(_) => if b.state.Refuses() then Some(RefusalOf("on_success", b.state.Type())) else None
  }

  // A replaced state object is announced by its transition, and from CLOSED then by the rate that was
  // exceeded.
  ghost predicate Announces(b: Breaker, b1: Breaker, announced: seq<Event>) {
    && b1.log == b.log + announced
    && (if b1.instance == b.instance then announced == []
        else
          && 0 < |announced| <= 2 && announced[0] == Transition(b.state.Type(), b1.state.Type())
          && (|announced| == 2 <==> b.state.Closed?)
          && (|announced| == 2 ==> announced[1].FailureRateExceeded? || announced[1].SlowCallRateExceeded?))
  }

  lemma ThresholdsAnnounced(cfg: Config, b: Breaker, now: real, b1: Breaker) returns (announced: seq<Event>)
    requires b.state.Closed? && b1 == CheckThresholds(cfg, b, now)
    ensures Announces(b, b1, announced)
  {
    announced := b1.log[|b.log|..];
  }

  lemma VerdictAnnounced(cfg: Config, b: Breaker, now: real, b1: Breaker) returns (announced: seq<Event>)
    requires b.state.HalfOpen? && b1 == CheckTransition(cfg, b, now)
    ensures Announces(b, b1, announced)
  {
    announced := b1.log[|b.log|..];
  }

  lemma HandlerAnnounced(cfg: Config, b: Breaker, ending: Ending, durationMs: real, now: real, b1: Breaker)
    returns (announced: seq<Event>)
    requires !b.state.Refuses()
    requires b1 == match ending
                   case Returned(_) => OnSuccess(cfg, b, durationMs, now)
                   case Raised(e) => OnError(cfg, b, durationMs, e, now)
    ensures Announces(b, b1, announced)
  {
    var o := Recording(cfg, ending, durationMs, now);
    announced := [];
    if b.state.Closed? && Checked(cfg, ending) {
      announced := ThresholdsAnnounced(cfg, Record(cfg, b, o, now), now, b1);
    } else if b.state.HalfOpen? {
      announced := VerdictAnnounced(cfg, RecordHalfOpen(cfg, b, o), now, b1);
    }
  }

  function Ignoring(cfg: Config, caught: Option<Exn>): seq<Event> {
    if caught.Some? && !cfg.ShouldRecord(caught.value) then [IgnoredError(caught.value)] else []
  }

  // What a completion publishes, in order: that the exception is ignored, if it is not to be recorded;
  // the replacement of the state object, if there is one; and the outcome, unless the state refuses.
  lemma CompletionAnnounced(cfg: Config, b: Breaker, ending: Ending, durationMs: real, now: real, b1: Breaker)
    returns (b0: Breaker, announced: seq<Event>)
    requires b1 == Complete(cfg, b, ending, durationMs, now).0
    ensures b0 == b.(log := b.log + Ignoring(cfg, Caught(b, ending)))
    ensures if b.state.Refuses() then b1 == b0
            else b1.log != [] && b1.log[|b1.log| - 1] == OutcomeEvent(ending, durationMs)
                 && Announces(b0, b1.(log := b1.log[..|b1.log| - 1]), announced)
  {
    b0 := b.(log := b.log + Ignoring(cfg, Caught(b, ending)));
    announced := [];
    if !b.state.Refuses() {
      var handled := AcceptedParts(cfg, b, ending, durationMs, now, b0, b1);
      announced := HandlerAnnounced(cfg, b0, ending, durationMs, now, handled);
    }
  }

  // A completion that is not refused: the ignored exception, the handler, the outcome.
  lemma AcceptedParts(
    cfg: Config, b: Breaker, ending: Ending, durationMs: real, now: real, b0: Breaker, b1: Breaker)
    returns (handled: Breaker)
    requires !b.state.Refuses() && b1 == Complete(cfg, b, ending, durationMs, now).0
    requires b0 == b.(log := b.log + Ignoring(cfg, Caught(b, ending)))
    ensures handled == match ending
                       case Returned(_) => OnSuccess(cfg, b0, durationMs, now)
                       case Raised(e) => OnError(cfg, b0, durationMs, e, now)
    ensures b1 == Publish(handled, OutcomeEvent(ending, durationMs)) && handled == b1.(log := b1.log[..|b1.log| - 1])
  {
    assert b.log + [] == b.log;
    handled := match ending
      case Returned(_) => OnSuccess(cfg, b0, durationMs, now)
      case Raised(e) => OnError(cfg, b0, durationMs, e, now);
  }
}
