// The mutable circuit breaker: state objects, metrics and published events, each method proved
// to perform exactly the corresponding reaction of BreakerCore on the abstract value View().

module CircuitBreakers {
  import opened CallMetrics
  import opened Common
  import opened BreakerConfig
  import opened SlidingWindow
  import Core = BreakerCore

  // HalfOpenState; the other state objects carry no mutable data.
  class Probation {
    const metrics: HalfOpenMetrics
    const enteredAt: real
    var permitsUsed: int

    constructor (permittedCalls: int, slowThresholdMs: real, now: real)
      ensures fresh(metrics) && metrics.calls == [] && permitsUsed == 0 && enteredAt == now
      ensures metrics.permittedCalls == permittedCalls && metrics.slowThresholdMs == slowThresholdMs
    {
      metrics := new HalfOpenMetrics(permittedCalls, slowThresholdMs);
      enteredAt, permitsUsed := now, 0;
    }
  }

  datatype StateObject =
    | ClosedState
    | OpenState(openedAt: real)
    | HalfOpenState(probation: Probation)
    | DisabledState
    | ForcedOpenState
    | MetricsOnlyState

  class CircuitBreaker {
    const config: Config
    const metrics: SlidingWindowMetrics
    var state: StateObject
    var log: seq<Core.Event>
    ghost var instance: nat
    ghost var Repr: set<object>

    ghost predicate Valid()
      reads this, Repr
    {
      && config.Valid()
      && {this, metrics} <= Repr
      && metrics.shape == config.window
      && metrics.slowThresholdMs == config.SlowThresholdMs()
      && (state.HalfOpenState? ==>
          var p := state.probation;
          && {p, p.metrics} <= Repr
          && p.metrics.permittedCalls == config.permittedInHalfOpen
          && p.metrics.slowThresholdMs == config.SlowThresholdMs())
    }

    ghost function StateView(): Core.State
      reads this, Repr
      requires Valid()
    {
      match state
      case ClosedState => Core.Closed
      case OpenState(t) => Core.Open(t)
      case HalfOpenState(p) => Core.HalfOpen(p.permitsUsed, p.metrics.calls, p.enteredAt)
      case DisabledState => Core.Disabled
      case ForcedOpenState => Core.ForcedOpen
      case MetricsOnlyState => Core.MetricsOnly
    }

    ghost function View(): Core.Breaker
      reads this, Repr
      requires Valid()
    {
      Core.Breaker(StateView(), instance, metrics.calls, log)
    }

    constructor (config: Config)
      requires config.Valid()
      ensures Valid() && fresh(Repr) && this.config == config
      ensures View() == Core.INITIAL
    {
      this.config := config;
      metrics := new SlidingWindowMetrics(config.window, config.SlowThresholdMs());
      state, log, instance := ClosedState, [], 0;
      Repr := {this, metrics};
    }

    method StateName() returns (name: Core.StateType)
      requires Valid()
      ensures name == View().state.Type()
    {
      match state
      case ClosedState => name := Core.CLOSED;
      case OpenState(_) => name := Core.OPEN;
      case HalfOpenState(_) => name := Core.HALF_OPEN;
      case DisabledState => name := Core.DISABLED;
      case ForcedOpenState => name := Core.FORCED_OPEN;
      case MetricsOnlyState => name := Core.METRICS_ONLY;
    }

    method Publish(e: Core.Event)
      requires Valid()
      modifies `log
      ensures Valid() && View() == Core.Publish(old(View()), e)
    {
      log := log + [e];
    }

    method TransitionToState(newState: Core.StateType, now: real)
      requires Valid()
      modifies this
      ensures Valid() && fresh(Repr - old(Repr))
      ensures View() == Core.TransitionTo(old(View()), newState, now)
    {
      var oldState := StateName();
      if oldState == newState {
        return;
      }
      match newState {
        case CLOSED => state := ClosedState;
        case OPEN => state := OpenState(now);
        case HALF_OPEN =>
          var p := new Probation(config.permittedInHalfOpen, config.SlowThresholdMs(), now);
          state := HalfOpenState(p);
          Repr := Repr + {p, p.metrics};
        case DISABLED => state := DisabledState;
        case FORCED_OPEN => state := ForcedOpenState;
        case METRICS_ONLY => state := MetricsOnlyState;
      }
      instance := instance + 1;
      Publish(Core.Transition(oldState, newState));
    }

    method Reset()
      requires Valid()
      modifies this, metrics
      ensures Valid() && fresh(Repr - old(Repr))
      ensures View() == Core.Reset(old(View()))
    {
      metrics.Reset();
      state := ClosedState;
      instance := instance + 1;
      Publish(Core.ResetDone);
    }

    // ---------- Permission ----------

    method AcquirePermission(now: real) returns (granted: bool)
      requires Valid()
      modifies Repr
      ensures Valid() && fresh(Repr - old(Repr))
      ensures (View(), granted) == Core.Acquire(config, old(View()), now)
    {
      match state {
        case OpenState(openedAt) =>
          granted := false;
          if config.automaticHalfOpen {
            var elapsed := now - openedAt;
            if elapsed >= config.waitInOpen {
              TransitionToState(Core.HALF_OPEN, now);
              granted := AcquireHalfOpen(now);
            }
          }
        case HalfOpenState(_) => granted := AcquireHalfOpen(now);
        case ForcedOpenState => granted := false;
        case _ => granted := true;
      }
    }

    method AcquireHalfOpen(now: real) returns (granted: bool)
      requires Valid() && state.HalfOpenState?
      modifies this, state.probation
      ensures Valid() && fresh(Repr - old(Repr))
      ensures (View(), granted) == Core.AcquireHalfOpen(config, old(View()), now)
    {
      var p := state.probation;
      if config.maxWaitInHalfOpen > 0.0 {
        var elapsed := now - p.enteredAt;
        if elapsed >= config.maxWaitInHalfOpen {
          TransitionToState(Core.OPEN, now);
          return false;
        }
      }
      if p.permitsUsed < config.permittedInHalfOpen {
        p.permitsUsed := p.permitsUsed + 1;
        return true;
      }
      return false;
    }

    // ---------- Completion ----------

    method CheckThresholds(now: real)
      requires Valid()
      modifies this, metrics
      ensures Valid() && fresh(Repr - old(Repr))
      ensures View() == Core.CheckThresholds(config, old(View()), now)
    {
      var s := metrics.GetSnapshot(now);
      if s.totalCalls < config.minimumCalls {
        return;
      }
      if s.failureRate >= config.failureRateThreshold {
        TransitionToState(Core.OPEN, now);
        Publish(Core.FailureRateExceeded(s.failureRate));
        return;
      }
      if s.slowCallRate >= config.slowCallRateThreshold {
        TransitionToState(Core.OPEN, now);
        Publish(Core.SlowCallRateExceeded(s.slowCallRate));
      }
    }

    method CheckTransition(now: real)
      requires Valid() && state.HalfOpenState?
      modifies this
      ensures Valid() && fresh(Repr - old(Repr))
      ensures View() == Core.CheckTransition(config, old(View()), now)
    {
      var complete := state.probation.metrics.IsComplete();
      if !complete {
        return;
      }
      var s := state.probation.metrics.GetSnapshot();
      if s.failureRate >= config.failureRateThreshold {
        TransitionToState(Core.OPEN, now);
      } else if s.slowCallRate >= config.slowCallRateThreshold {
        TransitionToState(Core.OPEN, now);
      } else {
        TransitionToState(Core.CLOSED, now);
      }
    }

    method OnSuccess(durationMs: real, now: real) returns (refusal: Option<Exn>)
      requires Valid()
      modifies Repr
      ensures Valid() && fresh(Repr - old(Repr))
      ensures refusal == if old(View()).state.Refuses()
                         then Some(Core.RefusalOf("on_success", old(View()).state.Type())) else None
      ensures View() == if old(View()).state.Refuses() then old(View())
                        else Core.OnSuccess(config, old(View()), durationMs, now)
    {
      refusal := None;
      match state {
        case ClosedState =>
          metrics.RecordSuccess(durationMs, now);
          CheckThresholds(now);
        case OpenState(_) => refusal := Some(Core.RefusalOf("on_success", Core.OPEN));
        case HalfOpenState(p) =>
          p.metrics.Record(durationMs, true, now);
          CheckTransition(now);
        case DisabledState =>
        case ForcedOpenState => refusal := Some(Core.RefusalOf("on_success", Core.FORCED_OPEN));
        case MetricsOnlyState => metrics.RecordSuccess(durationMs, now);
      }
    }

    method OnError(durationMs: real, e: Exn, now: real) returns (refusal: Option<Exn>)
      requires Valid()
      modifies Repr
      ensures Valid() && fresh(Repr - old(Repr))
      ensures refusal == if old(View()).state.Refuses()
                         then Some(Core.RefusalOf("on_error", old(View()).state.Type())) else None
      ensures View() == if old(View()).state.Refuses() then old(View())
                        else Core.OnError(config, old(View()), durationMs, e, now)
    {
      refusal := None;
      match state {
        case ClosedState =>
          if config.ShouldRecord(e) {
            metrics.RecordFailure(durationMs, now);
            CheckThresholds(now);
          } else {
            metrics.RecordSuccess(durationMs, now);
          }
        case OpenState(_) => refusal := Some(Core.RefusalOf("on_error", Core.OPEN));
        case HalfOpenState(p) =>
          if config.ShouldRecord(e) {
            p.metrics.Record(durationMs, false, now);
            CheckTransition(now);
          } else {
            p.metrics.Record(durationMs, true, now);
            CheckTransition(now);
          }
        case DisabledState =>
        case ForcedOpenState => refusal := Some(Core.RefusalOf("on_error", Core.FORCED_OPEN));
        case MetricsOnlyState =>
          if config.ShouldRecord(e) {
            metrics.RecordFailure(durationMs, now);
          } else {
            metrics.RecordSuccess(durationMs, now);
          }
      }
    }

    // ---------- _execute_async, split where the protected function runs ----------

    method BeginCall(now: real) returns (rejected: Option<Core.Reply>)
      requires Valid()
      modifies Repr
      ensures Valid() && fresh(Repr - old(Repr))
      ensures (View(), rejected) == Core.Admit(config, old(View()), now)
    {
      var granted := AcquirePermission(now);
      if granted {
        return None;
      }
      Publish(Core.CallNotPermitted);
      var name := StateName();
      return Some(Core.NotPermitted(name));
    }

    method EndCall(ending: Core.Ending, startTime: real, now: real) returns (reply: Core.Reply)
      requires Valid()
      modifies Repr
      ensures Valid() && fresh(Repr - old(Repr))
      ensures (View(), reply) == Core.Complete(config, old(View()), ending, (now - startTime) * 1000.0, now)
    {
      var durationMs := (now - startTime) * 1000.0;
      match ending {
        case Returned(v) =>
          var refusal := OnSuccess(durationMs, now);
          if refusal.Some? {
            reply := HandleError(durationMs, refusal.value, now);
          } else {
            Publish(Core.Success(durationMs));
            reply := Core.Value(v);
          }
        case Raised(e) =>
          reply := HandleError(durationMs, e, now);
      }
    }

    method HandleError(durationMs: real, e: Exn, now: real) returns (reply: Core.Reply)
      requires Valid()
      modifies Repr
      ensures Valid() && fresh(Repr - old(Repr))
      ensures (View(), reply) == Core.HandleError(config, old(View()), durationMs, e, now)
    {
      if !config.ShouldRecord(e) {
        Publish(Core.IgnoredError(e));
      }
      var refusal := OnError(durationMs, e, now);
      if refusal.Some? {
        return Core.Failure(refusal.value);
      }
      Publish(Core.Error(durationMs, e));
      return Core.Failure(e);
    }
 
    method GetMetrics(now: real) returns (name: Core.StateType, snapshot: Snapshot)
      requires Valid()
      modifies metrics
      ensures Valid() && View() == Core.Observe(config, old(View()), now)
      ensures name == View().state.Type() && snapshot == Snap(View().window)
    {
      snapshot := metrics.GetSnapshot(now);
      name := StateName();
    }
  }
}
