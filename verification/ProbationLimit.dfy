// HALF_OPEN in every run: what ends it, and the part its time limit plays.

module ProbationLimit {
  import opened CallMetrics
  import opened BreakerConfig
  import opened BreakerCore
  import opened BreakerReactions
  import opened BreakerRuns
  import opened BreakerInvariant
  import opened HalfOpenTheorems
  import opened CoolDown
  import opened Recovery

  // A call arrives in t when the time limit of the HALF_OPEN state of s is over.
  predicate TimeUp(cfg: Config, s: System, t: System, a: Action)
    requires s.cb.state.HalfOpen?
  {
    && a.Begin? && a.call !in t.inFlight
    && cfg.maxWaitInHalfOpen > 0.0 && t.now - s.cb.state.enteredAt >= cfg.maxWaitInHalfOpen
  }

  // The completion in t that makes the outcomes of the state object of s complete.
  predicate LastOutcome(cfg: Config, s: System, t: System, a: Action) {
    a.End? && a.call in t.inFlight && |OutcomesAt(t.trail, s.cb.instance)| + 1 == cfg.permittedInHalfOpen
  }

  predicate Ended(cfg: Config, s: System, more: seq<Action>)
    requires s.cb.state.HalfOpen?
  {
    more != [] &&
    var before, a := more[..|more| - 1], more[|more| - 1];
    var t := Run(cfg, s, before);
    Ended(cfg, s, before) || TimeUp(cfg, s, t, a) || LastOutcome(cfg, s, t, a)
  }

  // The same state object, with whatever permits and outcomes it has by now.
  predicate Same(s: System, t: System) {
    && s.cb.state.HalfOpen? && t.cb.state.HalfOpen?
    && t.cb.instance == s.cb.instance && t.cb.state.enteredAt == s.cb.state.enteredAt
  }

  lemma CallInProbation(cfg: Config, s: System, t: System, a: Action, u: System)
    requires cfg.Valid() && Same(s, t) && a.Begin? && u == Step(cfg, t, a)
    ensures if TimeUp(cfg, s, t, a)
            then u.cb.state == Open(t.now) && u.cb.instance == s.cb.instance + 1
                 && u.inFlight == t.inFlight && u.trail == t.trail
            else Same(s, u)
  {
    Permission(cfg, t.cb, t.now);
  }

  lemma OutcomeInProbation(
    cfg: Config, s: System, t: System, id: nat, ending: Ending, u: System, outcomes: seq<CallOutcome>)
    requires cfg.Valid() && Reachable(cfg, t) && Same(s, t) && id in t.inFlight && u == Step(cfg, t, End(id, ending))
    requires outcomes == OutcomesAt(u.trail, s.cb.instance)
    ensures |outcomes| == |OutcomesAt(t.trail, s.cb.instance)| + 1
    ensures if |outcomes| == cfg.permittedInHalfOpen
            then u.cb.instance == s.cb.instance + 1
                 && u.cb.state == if Unfit(cfg, outcomes) then Open(t.now) else Closed
            else Same(s, u)
  {
    Verdict(cfg, t, id, ending, u, outcomes);
    ReachableInv(cfg, t);
    ProbeCompletion(cfg, t.cb, ending, DurationMs(t, id), t.now);
  }

  // One step from a state in which HALF_OPEN was never left. The time limit opens the breaker, and
  // only when a call arrives; the verdict of the last outcome does not look at it.
  lemma ProbationStep(cfg: Config, s: System, t: System, a: Action, u: System)
    requires cfg.Valid() && Reachable(cfg, t) && Same(s, t)
    requires u == Step(cfg, t, a) && !a.ResetBreaker? && !a.Manual?
    ensures !TimeUp(cfg, s, t, a) && !LastOutcome(cfg, s, t, a) ==> Same(s, u)
    ensures TimeUp(cfg, s, t, a) ==>
              && u.cb.state == Open(t.now) && u.cb.instance == s.cb.instance + 1
              && u.inFlight == t.inFlight && u.trail == t.trail
    ensures LastOutcome(cfg, s, t, a) ==>
              && u.cb.instance == s.cb.instance + 1
              && u.cb.state == if Unfit(cfg, OutcomesAt(u.trail, s.cb.instance)) then Open(t.now) else Closed
  {
    match a
    case Begin(_) => CallInProbation(cfg, s, t, a, u);
    case End(id, ending) =>
      if id in t.inFlight {
        OutcomeInProbation(cfg, s, t, id, ending, u, OutcomesAt(u.trail, s.cb.instance));
      }
    case _ =>
  }

  // Without reset or manual transition, a HALF_OPEN state object lives on exactly until the first
  // call at or after its time limit or the outcome that completes its set, whichever comes first.
  lemma {:induction false} HalfOpenUntilEnded(cfg: Config, s: System, more: seq<Action>, t: System)
    requires cfg.Valid() && Reachable(cfg, s) && s.cb.state.HalfOpen? && NoOverride(more) && t == Run(cfg, s, more)
    ensures Reachable(cfg, t) && t.cb.instance >= s.cb.instance
    ensures Ended(cfg, s, more) <==> t.cb.instance != s.cb.instance
    ensures !Ended(cfg, s, more) ==> Same(s, t)
  {
    if more != [] {
      var before, a := Run(cfg, s, more[..|more| - 1]), more[|more| - 1];
      HalfOpenUntilEnded(cfg, s, more[..|more| - 1], before);
      ReachableStep(cfg, before, a);
      InstanceSteps(cfg, before, a);
      if !Ended(cfg, s, more[..|more| - 1]) {
        ProbationStep(cfg, s, before, a, t);
      }
    }
  }

  // ---------- A late verdict can close ----------

  // HALF_OPEN entered just now, n fast successes recorded.
  ghost predicate Good(s: System, n: nat) {
    && s.cb.state.HalfOpen? && s.cb.state.permitsUsed == |s.cb.state.calls| == n
    && s.cb.state.enteredAt == s.now && s.inFlight == map[]
    && forall o <- s.cb.state.calls :: o.success && !o.slow
  }

  lemma OneMoreGood(cfg: Config, s: System, n: nat) returns (t: System)
    requires cfg.Valid() && Reachable(cfg, s) && Good(s, n) && n + 1 < cfg.permittedInHalfOpen
    ensures Reachable(cfg, t) && Good(t, n + 1)
  {
    var m := Step(cfg, s, Begin(0));
    t := Step(cfg, m, End(0, Returned(0)));
    ReachableStep(cfg, s, Begin(0));
    ReachableStep(cfg, m, End(0, Returned(0)));
    Permission(cfg, s.cb, s.now);
    assert m.inFlight == map[0 := Flight(m.cb.instance, m.now)];
    ProbeEnds(cfg, m, n, t);
  }

  lemma {:induction false} GoodProbes(cfg: Config, t0: real, n: nat) returns (s: System)
    requires cfg.Valid() && n < cfg.permittedInHalfOpen
    ensures Reachable(cfg, s) && Good(s, n)
  {
    if n == 0 {
      s := Step(cfg, Start(t0), Manual(HALF_OPEN));
      assert Reach(cfg, t0, []) == Start(t0);
      ReachableStep(cfg, Start(t0), Manual(HALF_OPEN));
    } else {
      s := GoodProbes(cfg, t0, n - 1);
      s := OneMoreGood(cfg, s, n - 1);
    }
  }

  // With any time limit, a call admitted shortly before it and ending fast after it can still close
  // the breaker.
  lemma LateVerdictCloses(cfg: Config, t0: real) returns (s: System)
    requires cfg.Valid() && cfg.maxWaitInHalfOpen > 0.0
    ensures Reachable(cfg, s) && TimedOut(cfg, s.cb.state, s.now) && 0 in s.inFlight
    ensures Step(cfg, s, End(0, Returned(0))).cb.state == Closed
  {
    var half := cfg.slowCallDuration / 2.0;
    var left := if cfg.maxWaitInHalfOpen < half then cfg.maxWaitInHalfOpen else half;
    var good := GoodProbes(cfg, t0, cfg.permittedInHalfOpen - 1);
    var early := Step(cfg, good, Tick(cfg.maxWaitInHalfOpen - left));
    var begun := Step(cfg, early, Begin(0));
    s := Step(cfg, begun, Tick(left));
    ReachableStep(cfg, good, Tick(cfg.maxWaitInHalfOpen - left));
    ReachableStep(cfg, early, Begin(0));
    ReachableStep(cfg, begun, Tick(left));
    Permission(cfg, early.cb, early.now);
    ProbeCompletion(cfg, s.cb, Returned(0), DurationMs(s, 0), s.now);
    AllFit(cfg, s.cb.state.calls + [OutcomeOf(cfg, s, 0, Returned(0))]);
  }
}
