// HALF_OPEN in every run: the permit ledger and the verdict.

module HalfOpenTheorems {
  import opened CallMetrics
  import opened BreakerConfig
  import opened BreakerCore
  import opened BreakerReactions
  import opened BreakerRuns
  import opened BreakerInvariant

  lemma {:induction false} OwnAreAmongOutcomes(trail: seq<Obs>, e: nat)
    ensures Count(trail, OwnCompleted(e)) <= |OutcomesAt(trail, e)|
  {
    if trail != [] {
      OwnAreAmongOutcomes(trail[..|trail| - 1], e);
    }
  }

  // Used permits are own probes in flight, own completions and own cancellations; the outcomes
  // recorded, stale ones included, are always fewer than permitted. So when the permits are
  // exhausted and none was lost to cancellation, an own probe is in flight.
  lemma PermitLedger(cfg: Config, s: System, e: nat)
    requires cfg.Valid() && Reachable(cfg, s) && s.cb.state.HalfOpen? && e == s.cb.instance
    ensures s.cb.state.permitsUsed ==
            |Flying(s.inFlight, e)| + Count(s.trail, OwnCompleted(e)) + Count(s.trail, CancelledOf(e))
    ensures s.cb.state.permitsUsed == Count(s.trail, AdmittedBy(e)) <= cfg.permittedInHalfOpen
    ensures Count(s.trail, OwnCompleted(e)) <= |OutcomesAt(s.trail, e)| < cfg.permittedInHalfOpen
    ensures s.cb.state.permitsUsed == cfg.permittedInHalfOpen && Count(s.trail, CancelledOf(e)) == 0
            ==> Flying(s.inFlight, e) != {}
  {
    ReachableInv(cfg, s);
    OwnAreAmongOutcomes(s.trail, e);
    assert Balanced(s.inFlight, s.trail, e);
  }

  // Each completion under HALF_OPEN adds exactly one outcome. The state is kept while outcomes are
  // missing; with the last one it becomes CLOSED iff both rates are below their thresholds, and
  // OPEN otherwise.
  lemma Verdict(cfg: Config, s: System, id: nat, ending: Ending, t: System, outcomes: seq<CallOutcome>)
    requires cfg.Valid() && Reachable(cfg, s) && s.cb.state.HalfOpen? && id in s.inFlight
    requires t == Step(cfg, s, End(id, ending)) && outcomes == OutcomesAt(t.trail, s.cb.instance)
    ensures outcomes == OutcomesAt(s.trail, s.cb.instance) + [OutcomeOf(cfg, s, id, ending)]
    ensures |outcomes| <= cfg.permittedInHalfOpen
    ensures |outcomes| < cfg.permittedInHalfOpen <==> t.cb.instance == s.cb.instance
    ensures |outcomes| < cfg.permittedInHalfOpen ==> t.cb.state == s.cb.state.(calls := outcomes)
    ensures |outcomes| == cfg.permittedInHalfOpen ==>
              t.cb.state == if Unfit(cfg, outcomes) then Open(s.now) else Closed
  {
    ReachableInv(cfg, s);
    ProbeCompletion(cfg, s.cb, ending, DurationMs(s, id), s.now);
    var o := OutcomeOf(cfg, s, id, ending);
    Extend(s.trail, Completed(id, s.inFlight[id].issuer, s.cb.instance, HALF_OPEN, o, SeenOf(s, id, ending)));
  }

  // The only automatic way from HALF_OPEN to CLOSED is a favourable verdict on a complete set.
  lemma OnlyAVerdictCloses(cfg: Config, s: System, a: Action, t: System, outcomes: seq<CallOutcome>)
    requires cfg.Valid() && Reachable(cfg, s) && s.cb.state.HalfOpen? && !a.ResetBreaker? && !a.Manual?
    requires t == Step(cfg, s, a) && outcomes == OutcomesAt(t.trail, s.cb.instance)
    requires t.cb.state.Type() == CLOSED
    ensures a.End? && |outcomes| == cfg.permittedInHalfOpen && !Unfit(cfg, outcomes)
  {
    match a
    case Begin(_) => Permission(cfg, s.cb, s.now);
    case End(id, ending) =>
      if id in s.inFlight {
        Verdict(cfg, s, id, ending, t, outcomes);
      }
    case _ =>
  }
}
