// What the breaker decides, in terms of the calls as their callers saw them: how each ended, when it
// began and when it ended. Nothing here reads the outcomes the breaker stored.

module Evidence {
  import opened CallMetrics
  import opened Common
  import opened BreakerConfig
  import opened BreakerCore
  import opened BreakerReactions
  import opened BreakerRuns
  import opened BreakerInvariant
  import opened HalfOpenTheorems
  import opened WindowTheorems

  // The classification of exceptions, by the configuration's own lists and predicates.
  ghost predicate CountsAsFailure(cfg: Config, e: Exn) {
    && !Ignored(cfg, e)
    && (if cfg.recordExceptions != [] then OfClass(e, cfg.recordExceptions)
        else cfg.recordPredicate.Some? ==> cfg.recordPredicate.value(e))
  }

  ghost predicate FailedCall(cfg: Config, c: Call) {
    c.ending.Raised? && CountsAsFailure(cfg, c.ending.error)
  }

  // Slow in seconds.
  ghost predicate SlowCall(cfg: Config, c: Call) {
    c.endedAt - c.startedAt >= cfg.slowCallDuration
  }

  // The stored outcome says about the call what its caller saw.
  ghost predicate Tells(cfg: Config, o: CallOutcome, c: Call) {
    && o.timestamp == c.endedAt && o.durationMs == (c.endedAt - c.startedAt) * 1000.0
    && (o.success <==> !FailedCall(cfg, c)) && (o.slow <==> SlowCall(cfg, c))
  }

  ghost predicate TellAll(cfg: Config, outcomes: seq<CallOutcome>, calls: seq<Call>) {
    |outcomes| == |calls| && forall i :: 0 <= i < |calls| ==> Tells(cfg, outcomes[i], calls[i])
  }

  ghost predicate Truthful(cfg: Config, trail: seq<Obs>) {
    forall o <- trail :: o.Completed? ==> Tells(cfg, o.outcome, o.seen)
  }

  lemma OutcomeTells(cfg: Config, s: System, id: nat, ending: Ending)
    requires id in s.inFlight
    ensures Tells(cfg, OutcomeOf(cfg, s, id, ending), SeenOf(s, id, ending))
  {
    if ending.Raised? {
      RecordedExactly(cfg, ending.error);
    }
  }

  lemma TruthfulStep(cfg: Config, s: System, a: Action, t: System)
    requires Truthful(cfg, s.trail) && t == Step(cfg, s, a)
    ensures Truthful(cfg, t.trail)
  {
    if a.End? && a.call in s.inFlight {
      OutcomeTells(cfg, s, a.call, a.ending);
    }
  }

  lemma {:induction false} TruthfulRun(cfg: Config, t0: real, acts: seq<Action>, s: System)
    requires s == Reach(cfg, t0, acts)
    ensures Truthful(cfg, s.trail)
  {
    if acts != [] {
      var before := Reach(cfg, t0, acts[..|acts| - 1]);
      TruthfulRun(cfg, t0, acts[..|acts| - 1], before);
      TruthfulStep(cfg, before, acts[|acts| - 1], s);
    }
  }

  lemma {:induction false} TruthfulHistory(cfg: Config, trail: seq<Obs>)
    requires Truthful(cfg, trail)
    ensures TellAll(cfg, History(trail), CallsSinceReset(trail))
  {
    if trail != [] {
      assert trail[|trail| - 1] in trail;
      TruthfulHistory(cfg, trail[..|trail| - 1]);
    }
  }

  lemma {:induction false} TruthfulOutcomes(cfg: Config, trail: seq<Obs>, e: nat)
    requires Truthful(cfg, trail)
    ensures TellAll(cfg, OutcomesAt(trail, e), CallsAt(trail, e))
  {
    if trail != [] {
      assert trail[|trail| - 1] in trail;
      TruthfulOutcomes(cfg, trail[..|trail| - 1], e);
    }
  }

  // ---------- Windows of calls ----------

  function EndedSince(calls: seq<Call>, start: real): seq<Call> {
    if calls == [] then []
    else
      var c := calls[|calls| - 1];
      EndedSince(calls[..|calls| - 1], start) + if c.endedAt < start then [] else [c]
  }

  // The last `size` calls, or those that ended at most `size` seconds ago.
  function CallsInWindow(shape: Shape, calls: seq<Call>, now: real): seq<Call>
    requires shape.size > 0
  {
    match shape.kind
    case CountBased => if |calls| <= shape.size then calls else calls[|calls| - shape.size..]
    case TimeBased => EndedSince(calls, now - shape.size as real)
  }

  lemma {:induction false} SinceTells(cfg: Config, outcomes: seq<CallOutcome>, calls: seq<Call>, start: real)
    requires TellAll(cfg, outcomes, calls)
    ensures TellAll(cfg, Since(outcomes, start), EndedSince(calls, start))
  {
    if calls != [] {
      assert Tells(cfg, outcomes[|calls| - 1], calls[|calls| - 1]);
      SinceTells(cfg, outcomes[..|calls| - 1], calls[..|calls| - 1], start);
    }
  }

  lemma WindowTells(cfg: Config, outcomes: seq<CallOutcome>, calls: seq<Call>, now: real)
    requires cfg.Valid() && TellAll(cfg, outcomes, calls)
    ensures TellAll(cfg, InWindow(cfg.window, outcomes, now), CallsInWindow(cfg.window, calls, now))
  {
    if cfg.window.kind.TimeBased? {
      SinceTells(cfg, outcomes, calls, now - cfg.window.size as real);
    }
  }

  ghost function FailuresIn(cfg: Config, calls: seq<Call>): set<nat> {
    set i: nat | i < |calls| && FailedCall(cfg, calls[i])
  }

  ghost function SlowIn(cfg: Config, calls: seq<Call>): set<nat> {
    set i: nat | i < |calls| && SlowCall(cfg, calls[i])
  }

  // At least the configured percentage failed, or was slow.
  ghost predicate TooBad(cfg: Config, calls: seq<Call>) {
    || 100.0 * |FailuresIn(cfg, calls)| as real >= cfg.failureRateThreshold * |calls| as real
    || 100.0 * |SlowIn(cfg, calls)| as real >= cfg.slowCallRateThreshold * |calls| as real
  }

  lemma AllAreTooBad(cfg: Config, calls: seq<Call>)
    requires cfg.Valid() && |FailuresIn(cfg, calls)| == |calls|
    ensures TooBad(cfg, calls)
  {
    AllMeet(|calls| as real, cfg.failureRateThreshold);
  }

  lemma NoneIsTooBad(cfg: Config, calls: seq<Call>)
    requires cfg.Valid() && calls != [] && FailuresIn(cfg, calls) == SlowIn(cfg, calls) == {}
    ensures !TooBad(cfg, calls)
  {
    NoneMeets(|calls| as real, cfg.failureRateThreshold);
    NoneMeets(|calls| as real, cfg.slowCallRateThreshold);
  }

  lemma UnfitIffTooBad(cfg: Config, outcomes: seq<CallOutcome>, calls: seq<Call>)
    requires TellAll(cfg, outcomes, calls)
    ensures FailedAt(outcomes) == FailuresIn(cfg, calls) && SlowAt(outcomes) == SlowIn(cfg, calls)
    ensures Unfit(cfg, outcomes) <==> TooBad(cfg, calls)
  {
    assert FailedAt(outcomes) == FailuresIn(cfg, calls);
    assert SlowAt(outcomes) == SlowIn(cfg, calls);
  }

  // ---------- The decisions ----------

  lemma CallAppended(cfg: Config, s: System, id: nat, ending: Ending, t: System, e: nat)
    requires id in s.inFlight && t == Step(cfg, s, End(id, ending))
    ensures CallsAt(t.trail, e) ==
            CallsAt(s.trail, e) + if e == s.cb.instance then [SeenOf(s, id, ending)] else []
    ensures CallsSinceReset(t.trail) ==
            CallsSinceReset(s.trail)
            + if s.cb.state.Closed? || s.cb.state.MetricsOnly? then [SeenOf(s, id, ending)] else []
  {
    assert t.trail[..|s.trail|] == s.trail;
  }

  lemma ReachableTells(cfg: Config, s: System, e: nat)
    requires Reachable(cfg, s)
    ensures TellAll(cfg, History(s.trail), CallsSinceReset(s.trail))
    ensures TellAll(cfg, OutcomesAt(s.trail, e), CallsAt(s.trail, e))
  {
    var t0: real, acts: seq<Action> :| s == Reach(cfg, t0, acts);
    TruthfulRun(cfg, t0, acts, s);
    TruthfulHistory(cfg, s.trail);
    TruthfulOutcomes(cfg, s.trail, e);
  }

  // In every run a completion in CLOSED opens the breaker iff it is a success or counts as a failure,
  // and the calls in the window, this one included, are enough and too many of them failed or were
  // slow.
  lemma TripOnCalls(cfg: Config, s: System, id: nat, ending: Ending, t: System, calls: seq<Call>)
    requires cfg.Valid() && Reachable(cfg, s) && s.cb.state.Closed? && id in s.inFlight
    requires t == Step(cfg, s, End(id, ending))
    requires calls == CallsInWindow(cfg.window, CallsSinceReset(s.trail) + [SeenOf(s, id, ending)], s.now)
    ensures CallsSinceReset(t.trail) == CallsSinceReset(s.trail) + [SeenOf(s, id, ending)]
    ensures t.cb.state == if (ending.Raised? ==> CountsAsFailure(cfg, ending.error))
                             && |calls| >= cfg.minimumCalls && TooBad(cfg, calls)
                          then Open(s.now) else Closed
  {
    var history := History(s.trail) + [OutcomeOf(cfg, s, id, ending)];
    ReachableTells(cfg, s, 0);
    OutcomeTells(cfg, s, id, ending);
    CallAppended(cfg, s, id, ending, t, 0);
    WindowTells(cfg, history, CallsSinceReset(s.trail) + [SeenOf(s, id, ending)], s.now);
    UnfitIffTooBad(cfg, InWindow(cfg.window, history, s.now), calls);
    if ending.Raised? {
      RecordedExactly(cfg, ending.error);
    }
    TripExact(cfg, s, id, ending, t, InWindow(cfg.window, history, s.now));
  }

  // In every run a completion in HALF_OPEN is decided by the calls that ended under this state object:
  // while fewer than permitted have, the state stays; with the last it opens iff too many failed or
  // were slow, and closes otherwise.
  lemma VerdictOnCalls(cfg: Config, s: System, id: nat, ending: Ending, t: System, calls: seq<Call>)
    requires cfg.Valid() && Reachable(cfg, s) && s.cb.state.HalfOpen? && id in s.inFlight
    requires t == Step(cfg, s, End(id, ending))
    requires calls == CallsAt(s.trail, s.cb.instance) + [SeenOf(s, id, ending)]
    ensures CallsAt(t.trail, s.cb.instance) == calls && |calls| <= cfg.permittedInHalfOpen
    ensures if |calls| < cfg.permittedInHalfOpen then t.cb.state.HalfOpen? && t.cb.instance == s.cb.instance
            else t.cb.state == if TooBad(cfg, calls) then Open(s.now) else Closed
  {
    var e := s.cb.instance;
    var outcomes := OutcomesAt(s.trail, e) + [OutcomeOf(cfg, s, id, ending)];
    ReachableTells(cfg, s, e);
    OutcomeTells(cfg, s, id, ending);
    CallAppended(cfg, s, id, ending, t, e);
    UnfitIffTooBad(cfg, outcomes, calls);
    Verdict(cfg, s, id, ending, t, OutcomesAt(t.trail, e));
  }

  // An exception of an ignored class never opens a CLOSED breaker, is announced as ignored, and does
  // not count as a failure; its caller gets it all the same.
  lemma IgnoredNeverOpens(cfg: Config, s: System, id: nat, e: Exn, t: System)
    requires s.cb.state.Closed? && id in s.inFlight
    requires OfClass(e, cfg.ignoreExceptions) && t == Step(cfg, s, End(id, Raised(e)))
    ensures t.cb.state == Closed
    ensures t.cb.log == s.cb.log + [IgnoredError(e), Error(DurationMs(s, id), e)]
    ensures !FailedCall(cfg, SeenOf(s, id, Raised(e)))
    ensures ReplyOf(cfg, s, id, Raised(e)) == Failure(e)
  {
    RecordedExactly(cfg, e);
    IgnoredCompletion(cfg, s.cb, e, DurationMs(s, id), s.now);
  }
}
