// The sliding window in every run: what the deque holds, when it can change, and exactly when a
// completed call opens the breaker.

module WindowTheorems {
  import opened CallMetrics
  import opened BreakerConfig
  import opened BreakerCore
  import opened BreakerReactions
  import opened BreakerRuns
  import opened BreakerInvariant

  // The deque agrees with the outcomes completed in CLOSED or METRICS_ONLY since the last reset: a
  // count-based one is exactly the last `size` of them; reading the metrics counts exactly those in
  // the window and changes nothing else.
  lemma DequeIsWindow(cfg: Config, s: System, history: seq<CallOutcome>)
    requires cfg.Valid() && Reachable(cfg, s) && history == History(s.trail)
    ensures Agrees(cfg.window, s.cb.window, history, s.now)
    ensures cfg.window.kind.CountBased? ==> s.cb.window == LastN(history, cfg.window.size)
    ensures Observe(cfg, s.cb, s.now) == s.cb.(window := InWindow(cfg.window, history, s.now))
  {
    ReachableInv(cfg, s);
    PruneAgrees(cfg.window, s.cb.window, history, s.now, s.now);
  }

  // Outside CLOSED and METRICS_ONLY nothing is recorded: only a reset changes the history, and only
  // a reset or a reading of the metrics touches the deque. In particular closing after HALF_OPEN
  // keeps the outcomes that had opened the breaker.
  lemma FrozenOutsideClosed(cfg: Config, s: System, a: Action, t: System)
    requires cfg.Valid() && t == Step(cfg, s, a) && !a.ResetBreaker?
    requires !s.cb.state.Closed? && !s.cb.state.MetricsOnly?
    requires s.cb.state.HalfOpen? ==> Reachable(cfg, s)
    ensures History(t.trail) == History(s.trail)
    ensures !a.ReadMetrics? ==> t.cb.window == s.cb.window
  {
    if t.trail != s.trail {
      assert t.trail == s.trail + [t.trail[|s.trail|]];
      Extend(s.trail, t.trail[|s.trail|]);
    }
    match a
    case Begin(_) => Permission(cfg, s.cb, s.now);
    case End(id, ending) =>
      if id in s.inFlight {
        if s.cb.state.HalfOpen? {
          ReachableInv(cfg, s);
          ProbeCompletion(cfg, s.cb, ending, DurationMs(s, id), s.now);
        }
      }
    case _ =>
  }

  // A completion in CLOSED opens the breaker iff it is checked (a success or a recorded failure)
  // and the reference window, this outcome included, is large enough and meets a threshold.
  lemma TripExact(cfg: Config, s: System, id: nat, ending: Ending, t: System, window: seq<CallOutcome>)
    requires cfg.Valid() && Reachable(cfg, s) && s.cb.state.Closed? && id in s.inFlight
    requires t == Step(cfg, s, End(id, ending))
    requires window == InWindow(cfg.window, History(s.trail) + [OutcomeOf(cfg, s, id, ending)], s.now)
    ensures History(t.trail) == History(s.trail) + [OutcomeOf(cfg, s, id, ending)]
    ensures t.cb.state == if Checked(cfg, ending) && |window| >= cfg.minimumCalls && Unfit(cfg, window)
                          then Open(s.now) else Closed
    ensures t.cb.instance == if t.cb.state.Closed? then s.cb.instance else s.cb.instance + 1
    ensures Checked(cfg, ending) ==> t.cb.window == window
  {
    ReachableInv(cfg, s);
    var o := OutcomeOf(cfg, s, id, ending);
    RecordAgrees(cfg, s.cb.window, History(s.trail), s.now, o);
    ClosedCompletion(cfg, s.cb, ending, DurationMs(s, id), s.now);
    Extend(s.trail, Completed(id, s.inFlight[id].issuer, s.cb.instance, CLOSED, o, SeenOf(s, id, ending)));
  }
}
