// The invariant of every reachable system state.

module BreakerInvariant {
  import opened CallMetrics
  import opened Common
  import opened BreakerConfig
  import opened BreakerCore
  import opened BreakerReactions
  import opened BreakerRuns

  lemma InvBegin(cfg: Config, s: System, id: nat)
    requires cfg.Valid() && Inv(cfg, s)
    ensures Inv(cfg, Step(cfg, s, Begin(id)))
  {
    if id !in s.inFlight {
      if Admit(cfg, s.cb, s.now).1.None? {
        InvAdmitted(cfg, s, id, Admit(cfg, s.cb, s.now).0);
      } else {
        InvRejected(cfg, s, Admit(cfg, s.cb, s.now).0);
      }
    }
  }

  lemma InvAdmitted(cfg: Config, s: System, id: nat, cb: Breaker)
    requires cfg.Valid() && Inv(cfg, s) && id !in s.inFlight
    requires Admit(cfg, s.cb, s.now) == (cb, None)
    ensures Inv(cfg, System(s.now, cb, s.inFlight[id := Flight(cb.instance, s.now)],
                            s.trail + [Admitted(id, cb.instance)]))
  {
    Permission(cfg, s.cb, s.now);
    LedgerLater(s.cb.instance, s.now, s.inFlight, s.trail, cb.instance, s.now);
    LedgerAdmit(cb.instance, s.now, s.inFlight, s.trail, id);
    Extend(s.trail, Admitted(id, cb.instance));
  }

  lemma InvRejected(cfg: Config, s: System, cb: Breaker)
    requires cfg.Valid() && Inv(cfg, s)
    requires Admit(cfg, s.cb, s.now).0 == cb && Admit(cfg, s.cb, s.now).1.Some?
    ensures Inv(cfg, s.(cb := cb))
  {
    Permission(cfg, s.cb, s.now);
    LedgerLater(s.cb.instance, s.now, s.inFlight, s.trail, cb.instance, s.now);
  }

  lemma InvEnd(cfg: Config, s: System, id: nat, ending: Ending)
    requires cfg.Valid() && Inv(cfg, s)
    ensures Inv(cfg, Step(cfg, s, End(id, ending)))
  {
    var t := Step(cfg, s, End(id, ending));
    if id in s.inFlight {
      var o := t.trail[|s.trail|];
      InstanceSteps(cfg, s, End(id, ending));
      LedgerLeave(s.cb.instance, s.now, s.inFlight, s.trail, id, o);
      LedgerLater(s.cb.instance, s.now, t.inFlight, t.trail, t.cb.instance, s.now);
      Extend(s.trail, o);
      match s.cb.state
      case Open(_) => RefusedCompletion(cfg, s.cb, ending, DurationMs(s, id), s.now);
      case ForcedOpen => RefusedCompletion(cfg, s.cb, ending, DurationMs(s, id), s.now);
      case HalfOpen(_, _, _) => ProbeCompletion(cfg, s.cb, ending, DurationMs(s, id), s.now);
      case _ =>
        EndOutsideProbation(cfg, s, id, ending);
    }
  }

  // Recording agrees with the history, whether or not a snapshot follows.
  lemma RecordAgrees(cfg: Config, window: seq<CallOutcome>, history: seq<CallOutcome>, now: real, o: CallOutcome)
    requires Agrees(cfg.window, window, history, now) && o.timestamp == now
    ensures var added := Added(cfg.window, window, o, now);
      && Agrees(cfg.window, added, history + [o], now)
      && Agrees(cfg.window, Pruned(cfg.window, added, now), history + [o], now)
      && Pruned(cfg.window, added, now) == InWindow(cfg.window, history + [o], now)
  {
    AddAgrees(cfg.window, window, history, now, now, o);
    PruneAgrees(cfg.window, Added(cfg.window, window, o, now), history + [o], now, now);
  }

  lemma EndOutsideProbation(cfg: Config, s: System, id: nat, ending: Ending)
    requires cfg.Valid() && Inv(cfg, s) && id in s.inFlight
    requires s.cb.state.Closed? || s.cb.state.MetricsOnly? || s.cb.state.Disabled?
    ensures var t := Step(cfg, s, End(id, ending));
      Probing(cfg, t.cb, t.now, t.trail) && Agrees(cfg.window, t.cb.window, History(t.trail), t.now)
  {
    var t := Step(cfg, s, End(id, ending));
    var o := OutcomeOf(cfg, s, id, ending);
    RecordAgrees(cfg, s.cb.window, History(s.trail), s.now, o);
    var obs := Completed(id, s.inFlight[id].issuer, s.cb.instance, s.cb.state.Type(), o, SeenOf(s, id, ending));
    assert t.trail == s.trail + [obs] && t.now == s.now;
    Extend(s.trail, obs);
    if s.cb.state.Closed? {
      ClosedCompletion(cfg, s.cb, ending, DurationMs(s, id), s.now);
    } else {
      PassiveCompletion(cfg, s.cb, ending, DurationMs(s, id), s.now);
    }
  }

  lemma InvStep(cfg: Config, s: System, a: Action)
    requires cfg.Valid() && Inv(cfg, s)
    ensures Inv(cfg, Step(cfg, s, a))
  {
    match a
    case Begin(id) => InvBegin(cfg, s, id);
    case End(id, ending) => InvEnd(cfg, s, id, ending);
    case Manual(target) => InvManual(cfg, s, target);
    case ResetBreaker => InvReset(cfg, s);
    case _ => InvQuiet(cfg, s, a);
  }

  lemma InvManual(cfg: Config, s: System, target: StateType)
    requires cfg.Valid() && Inv(cfg, s)
    ensures Inv(cfg, Step(cfg, s, Manual(target)))
  {
    if s.cb.state.Type() != target {
      InvInstalled(cfg, s, TransitionTo(s.cb, target, s.now));
    }
  }

  lemma InvInstalled(cfg: Config, s: System, cb: Breaker)
    requires cfg.Valid() && Inv(cfg, s)
    requires cb.instance == s.cb.instance + 1 && cb.window == s.cb.window && cb.state == Fresh(cb.state.Type(), s.now)
    ensures Inv(cfg, s.(cb := cb))
  {
    LedgerLater(s.cb.instance, s.now, s.inFlight, s.trail, cb.instance, s.now);
    assert Probing(cfg, cb, s.now, s.trail);
  }

  lemma InvReset(cfg: Config, s: System)
    requires cfg.Valid() && Inv(cfg, s)
    ensures Inv(cfg, Step(cfg, s, ResetBreaker))
  {
    LedgerLater(s.cb.instance, s.now, s.inFlight, s.trail, s.cb.instance + 1, s.now);
    LedgerClear(s.cb.instance + 1, s.now, s.inFlight, s.trail);
    Extend(s.trail, Cleared);
  }

  // Cancellation, the passage of time and reading the metrics.
  lemma InvQuiet(cfg: Config, s: System, a: Action)
    requires cfg.Valid() && Inv(cfg, s) && (a.Cancel? || a.Tick? || a.ReadMetrics?)
    ensures Inv(cfg, Step(cfg, s, a))
  {
    var t := Step(cfg, s, a);
    PruneAgrees(cfg.window, s.cb.window, History(s.trail), s.now, t.now);
    if a.Cancel? && a.call in s.inFlight {
      var o := Cancelled(a.call, s.inFlight[a.call].issuer);
      LedgerLeave(s.cb.instance, s.now, s.inFlight, s.trail, a.call, o);
      Extend(s.trail, o);
    } else if a.Tick? {
      LedgerLater(s.cb.instance, s.now, s.inFlight, s.trail, s.cb.instance, t.now);
    }
  }

  lemma {:induction false} InvRun(cfg: Config, s: System, acts: seq<Action>)
    requires cfg.Valid() && Inv(cfg, s)
    ensures Inv(cfg, Run(cfg, s, acts))
  {
    if acts != [] {
      InvRun(cfg, s, acts[..|acts| - 1]);
      InvStep(cfg, Run(cfg, s, acts[..|acts| - 1]), acts[|acts| - 1]);
    }
  }

  ghost predicate Reachable(cfg: Config, s: System) {
    exists t0: real, acts: seq<Action> :: s == Reach(cfg, t0, acts)
  }

  // Every state reached by any interleaving satisfies the invariant.
  lemma ReachableInv(cfg: Config, s: System)
    requires cfg.Valid() && Reachable(cfg, s)
    ensures Inv(cfg, s)
  {
    var t0: real, acts: seq<Action> :| s == Reach(cfg, t0, acts);
    InvStart(cfg, t0);
    InvRun(cfg, Start(t0), acts);
  }

  lemma InvStart(cfg: Config, t0: real)
    requires cfg.Valid()
    ensures Inv(cfg, Start(t0))
  {
    assert forall e: nat :: Flying(map[], e) == {};
    assert forall e: nat :: Balanced(map[], [], e);
    assert PrunedAt(cfg.window, [], [], t0, t0 - cfg.window.size as real);
  }
}
