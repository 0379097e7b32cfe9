// Which configurations can be wedged without manual help, and that it takes a cancelled probe.

module WedgeReachability {
  import opened BreakerConfig
  import opened BreakerReactions
  import opened BreakerRuns
  import opened BreakerInvariant
  import opened EventLog
  import opened HalfOpenTheorems
  import opened Wedge
  import opened TripReachability

  lemma FewerFlying(inFlight: map<nat, Flight>, e: nat)
    ensures |Flying(inFlight, e)| <= |inFlight|
    decreases |inFlight|
  {
    if inFlight != map[] {
      var id :| id in inFlight;
      OneLess(inFlight, id);
      FewerFlying(inFlight - {id}, e);
      FlyingChange(inFlight - {id}, id, inFlight[id], e);
      assert (inFlight - {id})[id := inFlight[id]] == inFlight;
    }
  }

  // A starved state object has lost at least as many probes to cancellation as outcomes can no
  // longer come.
  lemma StarvationNeedsCancellation(cfg: Config, s: System, e: nat)
    requires cfg.Valid() && Reachable(cfg, s) && Starved(cfg, s) && e == s.cb.instance
    ensures Count(s.trail, CancelledOf(e)) >= cfg.permittedInHalfOpen - |s.cb.state.calls| - |s.inFlight| > 0
  {
    PermitLedger(cfg, s, e);
    ReachableInv(cfg, s);
    FewerFlying(s.inFlight, e);
  }

  // ---------- Without manual transitions ----------

  // Without the automatic transition a breaker is CLOSED or OPEN unless told otherwise.
  lemma {:induction false} NoProbation(cfg: Config, t0: real, acts: seq<Action>, s: System)
    requires cfg.Valid() && !cfg.automaticHalfOpen && NoManual(acts) && s == Reach(cfg, t0, acts)
    ensures s.cb.state.Closed? || s.cb.state.Open?
  {
    if acts != [] {
      var before, a := Reach(cfg, t0, acts[..|acts| - 1]), acts[|acts| - 1];
      NoProbation(cfg, t0, acts[..|acts| - 1], before);
      NoProbationStep(cfg, before, a, s);
    }
  }

  lemma NoProbationStep(cfg: Config, s: System, a: Action, t: System)
    requires cfg.Valid() && !cfg.automaticHalfOpen && !a.Manual? && t == Step(cfg, s, a)
    requires s.cb.state.Closed? || s.cb.state.Open?
    ensures t.cb.state.Closed? || t.cb.state.Open?
  {
    match a
    case Begin(_) => Permission(cfg, s.cb, s.now);
    case End(id, ending) =>
      if id in s.inFlight {
        if s.cb.state.Open? {
          RefusedCompletion(cfg, s.cb, ending, DurationMs(s, id), s.now);
        } else {
          ClosedCompletion(cfg, s.cb, ending, DurationMs(s, id), s.now);
        }
      }
    case _ =>
  }

  // The first n probes were cancelled; n = 0 is OPEN with the wait over.
  ghost predicate LostProbes(cfg: Config, s: System, n: nat) {
    && s.inFlight == map[]
    && (if n == 0 then s.cb.state.Open? && s.now - s.cb.state.openedAt >= cfg.waitInOpen
        else s.cb.state.HalfOpen? && s.cb.state.permitsUsed == n && s.cb.state.calls == [])
  }

  lemma LoseProbe(cfg: Config, s: System, n: nat, t: System)
    requires cfg.Valid() && cfg.automaticHalfOpen && cfg.maxWaitInHalfOpen == 0.0 && n < cfg.permittedInHalfOpen
    requires LostProbes(cfg, s, n) && t == Step(cfg, Step(cfg, s, Begin(0)), Cancel(0))
    ensures LostProbes(cfg, t, n + 1)
  {
    Permission(cfg, s.cb, s.now);
    assert Step(cfg, s, Begin(0)).inFlight - {0} == map[];
  }

  lemma {:induction false} LoseProbes(cfg: Config, t0: real, n: nat) returns (s: System)
    requires cfg.Valid() && cfg.automaticHalfOpen && cfg.maxWaitInHalfOpen == 0.0 && !Unreachable(cfg)
    requires n <= cfg.permittedInHalfOpen
    ensures Automatically(cfg, t0, s) && LostProbes(cfg, s, n)
  {
    if n == 0 {
      var open := Opened(cfg, t0, 0);
      s := Step(cfg, open, Tick(cfg.waitInOpen));
      AutomaticStep(cfg, t0, open, Tick(cfg.waitInOpen));
      assert s.inFlight == map[];
    } else {
      var before := LoseProbes(cfg, t0, n - 1);
      var m := Step(cfg, before, Begin(0));
      s := Step(cfg, m, Cancel(0));
      AutomaticStep(cfg, t0, before, Begin(0));
      AutomaticStep(cfg, t0, m, Cancel(0));
      LoseProbe(cfg, before, n - 1, s);
    }
  }

  ghost predicate Wedged(cfg: Config, s: System) {
    s.cb.state.HalfOpen? && forall more: seq<Action> :: !Moves(cfg, s, more)
  }

  // A valid configuration can get stuck for good without manual help iff HALF_OPEN has no time limit
  // and can be entered automatically.
  lemma CanWedgeIff(cfg: Config, t0: real)
    requires cfg.Valid()
    ensures (exists s :: Automatically(cfg, t0, s) && Wedged(cfg, s))
            <==> cfg.maxWaitInHalfOpen == 0.0 && cfg.automaticHalfOpen && !Unreachable(cfg)
  {
    if cfg.maxWaitInHalfOpen == 0.0 && cfg.automaticHalfOpen && !Unreachable(cfg) {
      var s := LoseProbes(cfg, t0, cfg.permittedInHalfOpen);
      AutomaticIsReachable(cfg, t0, s);
      WedgedIffStarved(cfg, s);
      assert Wedged(cfg, s);
    }
    forall s | Automatically(cfg, t0, s) && Wedged(cfg, s)
      ensures cfg.maxWaitInHalfOpen == 0.0 && cfg.automaticHalfOpen && !Unreachable(cfg)
    {
      WedgeNeeds(cfg, t0, s);
    }
  }

  lemma AutomaticIsReachable(cfg: Config, t0: real, s: System)
    requires Automatically(cfg, t0, s)
    ensures Reachable(cfg, s)
  {
  }

  lemma WedgeNeeds(cfg: Config, t0: real, s: System)
    requires cfg.Valid() && Automatically(cfg, t0, s) && Wedged(cfg, s)
    ensures cfg.maxWaitInHalfOpen == 0.0 && cfg.automaticHalfOpen && !Unreachable(cfg)
  {
    AutomaticIsReachable(cfg, t0, s);
    WedgedIffStarved(cfg, s);
    var acts :| NoManual(acts) && Reach(cfg, t0, acts) == s;
    if Unreachable(cfg) {
      StaysClosed(cfg, t0, s);
    }
    if !cfg.automaticHalfOpen {
      NoProbation(cfg, t0, acts, s);
    }
  }
}
