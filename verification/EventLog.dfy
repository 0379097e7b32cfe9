// The published events of every run: replaying transitions and resets from CLOSED reconstructs the
// state, and every HALF_OPEN instance that ever existed admitted at most the permitted calls.

module EventLog {
  import opened CallMetrics
  import opened Common
  import opened BreakerConfig
  import opened BreakerCore
  import opened BreakerRuns
  import opened BreakerInvariant

  // The states an event announces.
  function Announces(e: Event): seq<StateType> {
    match e
    case Transition(_, to) => [to]
    case ResetDone => [CLOSED]
    case _ => []
  }

  // The types of all state objects installed so far, as a listener sees them.
  function Replay(log: seq<Event>): (types: seq<StateType>)
    ensures types != []
  {
    if log == [] then [CLOSED] else Replay(log[..|log| - 1]) + Announces(log[|log| - 1])
  }

  function Last(types: seq<StateType>): StateType
    requires types != []
  {
    types[|types| - 1]
  }

  // The state changes the breaker makes on its own.
  predicate Automatic(from: StateType, to: StateType) {
    || (from == CLOSED && to == OPEN)
    || (from == OPEN && to == HALF_OPEN)
    || (from == HALF_OPEN && (to == OPEN || to == CLOSED))
  }

  // Each transition starts where the log before it ended and goes somewhere else; with
  // `automatic` it is also one the breaker makes on its own.
  ghost predicate Chained(log: seq<Event>, automatic: bool) {
    log == [] ||
    var before, e := log[..|log| - 1], log[|log| - 1];
    && Chained(before, automatic)
    && (e.Transition? ==>
        && e.from == Last(Replay(before)) && e.from != e.to
        && (automatic ==> Automatic(e.from, e.to)))
  }

  // One installed state per instance number, the last one being current.
  ghost predicate Faithful(b: Breaker, automatic: bool) {
    && Chained(b.log, automatic)
    && |Replay(b.log)| == b.instance + 1
    && Last(Replay(b.log)) == b.state.Type()
  }

  ghost predicate Grows(b: Breaker, b1: Breaker, automatic: bool) {
    Faithful(b1, automatic) && Replay(b.log) <= Replay(b1.log)
  }

  lemma Logged(log: seq<Event>, e: Event, automatic: bool)
    requires Chained(log, automatic)
    requires e.Transition? ==> e.from == Last(Replay(log)) && e.from != e.to && (automatic ==> Automatic(e.from, e.to))
    ensures Replay(log + [e]) == Replay(log) + Announces(e)
    ensures Chained(log + [e], automatic)
  {
    assert (log + [e])[..|log|] == log;
  }

  lemma PublishGrows(b: Breaker, e: Event, automatic: bool)
    requires Faithful(b, automatic) && Announces(e) == []
    ensures Grows(b, Publish(b, e), automatic)
  {
    Logged(b.log, e, automatic);
  }

  lemma FreshType(s: StateType, now: real)
    ensures Fresh(s, now).Type() == s
  {
  }

  // Installing one state and announcing it.
  lemma InstalledGrows(b: Breaker, b1: Breaker, e: Event, s: StateType, automatic: bool)
    requires Faithful(b, automatic) && Announces(e) == [s]
    requires b1.log == b.log + [e] && Chained(b1.log, automatic) && Replay(b1.log) == Replay(b.log) + [s]
    requires b1.instance == b.instance + 1 && b1.state.Type() == s
    ensures Grows(b, b1, automatic)
  {
  }

  lemma TransitionGrows(b: Breaker, s: StateType, now: real, automatic: bool)
    requires Faithful(b, automatic)
    requires automatic ==> b.state.Type() == s || Automatic(b.state.Type(), s)
    ensures Grows(b, TransitionTo(b, s, now), automatic)
  {
    if b.state.Type() != s {
      Logged(b.log, Transition(b.state.Type(), s), automatic);
      FreshType(s, now);
      InstalledGrows(b, TransitionTo(b, s, now), Transition(b.state.Type(), s), s, automatic);
    }
  }

  lemma ResetGrows(b: Breaker, automatic: bool)
    requires Faithful(b, automatic)
    ensures Grows(b, Reset(b), automatic)
  {
    Logged(b.log, ResetDone, automatic);
  }

  // ---------- What one reaction adds to the log ----------

  lemma AcquireHalfOpenGrows(cfg: Config, b: Breaker, now: real, automatic: bool)
    requires cfg.Valid() && Faithful(b, automatic) && b.state.HalfOpen?
    ensures Grows(b, AcquireHalfOpen(cfg, b, now).0, automatic)
  {
    TransitionGrows(b, OPEN, now, automatic);
  }

  lemma AcquireGrows(cfg: Config, b: Breaker, now: real, automatic: bool)
    requires cfg.Valid() && Faithful(b, automatic)
    ensures Grows(b, Acquire(cfg, b, now).0, automatic)
  {
    match b.state
    case Open(_) => ProbeGrows(cfg, b, now, automatic);
    case HalfOpen(_, _, _) => AcquireHalfOpenGrows(cfg, b, now, automatic);
    case _ =>
  }

  // From OPEN: nothing happens, or a HALF_OPEN state is installed and gives its first permit.
  lemma ProbeGrows(cfg: Config, b: Breaker, now: real, automatic: bool)
    requires cfg.Valid() && Faithful(b, automatic) && b.state.Open?
    ensures Grows(b, Acquire(cfg, b, now).0, automatic)
  {
    TransitionGrows(b, HALF_OPEN, now, automatic);
    var probing := TransitionTo(b, HALF_OPEN, now);
    assert AcquireHalfOpen(cfg, probing, now).0.log == probing.log;
  }

  lemma AdmitGrows(cfg: Config, b: Breaker, now: real, automatic: bool)
    requires cfg.Valid() && Faithful(b, automatic)
    ensures Grows(b, Admit(cfg, b, now).0, automatic)
  {
    AcquireGrows(cfg, b, now, automatic);
    PublishGrows(Acquire(cfg, b, now).0, CallNotPermitted, automatic);
  }

  lemma TripGrows(b: Breaker, e: Event, now: real, automatic: bool)
    requires Faithful(b, automatic) && b.state.Closed? && Announces(e) == []
    ensures Grows(b, Publish(TransitionTo(b, OPEN, now), e), automatic)
  {
    TransitionGrows(b, OPEN, now, automatic);
    PublishGrows(TransitionTo(b, OPEN, now), e, automatic);
  }

  lemma ThresholdsGrow(cfg: Config, b: Breaker, now: real, automatic: bool)
    requires Faithful(b, automatic) && b.state.Closed?
    ensures Grows(b, CheckThresholds(cfg, b, now), automatic)
  {
    var pruned := b.(window := Pruned(cfg.window, b.window, now));
    var s := Snap(pruned.window);
    if s.failureRate >= cfg.failureRateThreshold {
      TripGrows(pruned, FailureRateExceeded(s.failureRate), now, automatic);
    } else {
      TripGrows(pruned, SlowCallRateExceeded(s.slowCallRate), now, automatic);
    }
  }

  lemma VerdictGrows(cfg: Config, b: Breaker, now: real, automatic: bool)
    requires Faithful(b, automatic) && b.state.HalfOpen?
    ensures Grows(b, CheckTransition(cfg, b, now), automatic)
  {
    TransitionGrows(b, OPEN, now, automatic);
    TransitionGrows(b, CLOSED, now, automatic);
  }

  lemma SuccessGrows(cfg: Config, b: Breaker, durationMs: real, now: real, automatic: bool)
    requires Faithful(b, automatic) && !b.state.Refuses()
    ensures Grows(b, OnSuccess(cfg, b, durationMs, now), automatic)
  {
    var o := Outcome(now, durationMs, true, cfg.SlowThresholdMs());
    match b.state
    case Closed => ThresholdsGrow(cfg, Record(cfg, b, o, now), now, automatic);
    case HalfOpen(_, _, _) => VerdictGrows(cfg, RecordHalfOpen(cfg, b, o), now, automatic);
    case _ =>
  }

  lemma ErrorGrows(cfg: Config, b: Breaker, durationMs: real, e: Exn, now: real, automatic: bool)
    requires Faithful(b, automatic) && !b.state.Refuses()
    ensures Grows(b, OnError(cfg, b, durationMs, e, now), automatic)
  {
    var o := Outcome(now, durationMs, !cfg.ShouldRecord(e), cfg.SlowThresholdMs());
    match b.state
    case Closed => ThresholdsGrow(cfg, Record(cfg, b, o, now), now, automatic);
    case HalfOpen(_, _, _) => VerdictGrows(cfg, RecordHalfOpen(cfg, b, o), now, automatic);
    case _ =>
  }

  lemma HandledGrows(cfg: Config, b: Breaker, durationMs: real, e: Exn, now: real, automatic: bool)
    requires Faithful(b, automatic) && !b.state.Refuses()
    ensures Grows(b, Publish(OnError(cfg, b, durationMs, e, now), Error(durationMs, e)), automatic)
  {
    ErrorGrows(cfg, b, durationMs, e, now, automatic);
    PublishGrows(OnError(cfg, b, durationMs, e, now), Error(durationMs, e), automatic);
  }

  lemma HandleErrorGrows(cfg: Config, b: Breaker, durationMs: real, e: Exn, now: real, automatic: bool)
    requires Faithful(b, automatic)
    ensures Grows(b, HandleError(cfg, b, durationMs, e, now).0, automatic)
  {
    PublishGrows(b, IgnoredError(e), automatic);
    var b1 := if cfg.ShouldRecord(e) then b else Publish(b, IgnoredError(e));
    if !b.state.Refuses() {
      HandledGrows(cfg, b1, durationMs, e, now, automatic);
    }
  }

  lemma CompleteGrows(cfg: Config, b: Breaker, ending: Ending, durationMs: real, now: real, automatic: bool)
    requires Faithful(b, automatic)
    ensures Grows(b, Complete(cfg, b, ending, durationMs, now).0, automatic)
  {
    match ending
    case Raised(e) => HandleErrorGrows(cfg, b, durationMs, e, now, automatic);
    case Returned(v) =>
      if b.state.Refuses() {
        HandleErrorGrows(cfg, b, durationMs, RefusalOf("on_success", b.state.Type()), now, automatic);
      } else {
        SuccessGrows(cfg, b, durationMs, now, automatic);
        PublishGrows(OnSuccess(cfg, b, durationMs, now), Success(durationMs), automatic);
      }
  }

  lemma StepGrows(cfg: Config, s: System, a: Action, automatic: bool)
    requires cfg.Valid() && Faithful(s.cb, automatic) && (automatic ==> !a.Manual?)
    ensures Grows(s.cb, Step(cfg, s, a).cb, automatic)
  {
    match a
    case Begin(id) => AdmitGrows(cfg, s.cb, s.now, automatic);
    case End(id, ending) =>
      if id in s.inFlight {
        CompleteGrows(cfg, s.cb, ending, DurationMs(s, id), s.now, automatic);
      }
    case Manual(target) => TransitionGrows(s.cb, target, s.now, automatic);
    case ResetBreaker => ResetGrows(s.cb, automatic);
    case _ =>
  }

  ghost predicate NoManual(acts: seq<Action>) {
    forall a <- acts :: !a.Manual?
  }

  // In every run, the log replayed from CLOSED yields one state per installed state object and
  // ends in the current one; without manual transitions only the automatic edges occur.
  lemma {:induction false} LogReplays(cfg: Config, t0: real, acts: seq<Action>)
    requires cfg.Valid()
    ensures Faithful(Reach(cfg, t0, acts).cb, false)
    ensures NoManual(acts) ==> Faithful(Reach(cfg, t0, acts).cb, true)
  {
    if acts != [] {
      var before, a := acts[..|acts| - 1], acts[|acts| - 1];
      LogReplays(cfg, t0, before);
      StepGrows(cfg, Reach(cfg, t0, before), a, false);
      if NoManual(acts) {
        assert NoManual(before);
        StepGrows(cfg, Reach(cfg, t0, before), a, true);
      }
    }
  }

  // What the replay means for a single published transition.
  lemma {:induction false} PublishedTransition(log: seq<Event>, automatic: bool, i: nat)
    requires Chained(log, automatic) && i < |log| && log[i].Transition?
    ensures log[i].from == Last(Replay(log[..i])) && log[i].to == Last(Replay(log[..i + 1]))
    ensures log[i].from != log[i].to && (automatic ==> Automatic(log[i].from, log[i].to))
  {
    var before := log[..|log| - 1];
    if i < |before| {
      assert before[..i] == log[..i] && before[..i + 1] == log[..i + 1];
      PublishedTransition(before, automatic, i);
    } else {
      assert log[..i + 1] == log;
    }
  }

  // ---------- Admission cap ----------

  ghost predicate AdmissionsCapped(cfg: Config, s: System) {
    forall e: nat | e < |Replay(s.cb.log)| && Replay(s.cb.log)[e] == HALF_OPEN ::
      Count(s.trail, AdmittedBy(e)) <= cfg.permittedInHalfOpen
  }

  lemma AdmissionsOfOthersKept(cfg: Config, s: System, a: Action, t: System, e: nat)
    requires t == Step(cfg, s, a) && e != t.cb.instance
    ensures Count(t.trail, AdmittedBy(e)) == Count(s.trail, AdmittedBy(e))
  {
    if t.trail != s.trail {
      var o := t.trail[|s.trail|];
      assert t.trail == s.trail + [o];
      Extend(s.trail, o);
    }
  }

  // The cap for one state object, from the cap before a step from s to t.
  lemma CapStep(cfg: Config, s: System, t: System, before: seq<StateType>, after: seq<StateType>, e: nat)
    requires Probing(cfg, t.cb, t.now, t.trail) && before <= after
    requires s.cb.instance <= t.cb.instance <= s.cb.instance + 1
    requires |before| == s.cb.instance + 1 && |after| == t.cb.instance + 1 && Last(after) == t.cb.state.Type()
    requires e < |after| && after[e] == HALF_OPEN
    requires e < |before| && before[e] == HALF_OPEN ==> Count(s.trail, AdmittedBy(e)) <= cfg.permittedInHalfOpen
    requires e != t.cb.instance ==> Count(t.trail, AdmittedBy(e)) == Count(s.trail, AdmittedBy(e))
    ensures Count(t.trail, AdmittedBy(e)) <= cfg.permittedInHalfOpen
  {
    assert e < |before| ==> before[e] == after[e];
  }

  // Every state object that ever was HALF_OPEN admitted at most the permitted number of calls.
  lemma {:induction false} AdmissionCap(cfg: Config, t0: real, acts: seq<Action>)
    requires cfg.Valid()
    ensures AdmissionsCapped(cfg, Reach(cfg, t0, acts))
  {
    if acts != [] {
      var before := acts[..|acts| - 1];
      AdmissionCap(cfg, t0, before);
      LogReplays(cfg, t0, before);
      var s, a, t := Reach(cfg, t0, before), acts[|acts| - 1], Reach(cfg, t0, acts);
      StepGrows(cfg, s, a, false);
      InstanceSteps(cfg, s, a);
      ReachableInv(cfg, t);
      forall e: nat | e < |Replay(t.cb.log)| && Replay(t.cb.log)[e] == HALF_OPEN
        ensures Count(t.trail, AdmittedBy(e)) <= cfg.permittedInHalfOpen
      {
        if e != t.cb.instance {
          AdmissionsOfOthersKept(cfg, s, a, t, e);
        }
        CapStep(cfg, s, t, Replay(s.cb.log), Replay(t.cb.log), e);
      }
    }
  }
}
