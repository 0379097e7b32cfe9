// Whole runs of one circuit breaker under arbitrarily interleaved calls. One action is the code
// between two suspension points. The trail records, independently of the breaker's own data,
// which calls were admitted and how they ended, tagged with the number of the state object
// (`instance`) that was installed at that moment.

module BreakerRuns {
  import opened CallMetrics
  import opened BreakerConfig
  import opened BreakerCore
  import opened BreakerReactions

  datatype Action =
    | Begin(call: nat)
    | End(call: nat, ending: Ending)
    | Cancel(call: nat)
    | Tick(dt: real)
    | ResetBreaker
    | Manual(target: StateType)
    | ReadMetrics

  datatype Flight = Flight(issuer: nat, startedAt: real)

  // A completed call as its caller saw it.
  datatype Call = Call(ending: Ending, startedAt: real, endedAt: real)

  datatype Obs =
    | Admitted(call: nat, issuer: nat)
    | Completed(call: nat, issuer: nat, at: nat, where: StateType, outcome: CallOutcome, seen: Call)
    | Cancelled(call: nat, issuer: nat)
    | Cleared

  datatype System = System(now: real, cb: Breaker, inFlight: map<nat, Flight>, trail: seq<Obs>)

  function Start(t0: real): System {
    System(t0, INITIAL, map[], [])
  }

  // An action that is not possible (a second call under an id in flight, the end of a call that is
  // not in flight, a clock going backwards) changes nothing.
  function Step(cfg: Config, s: System, a: Action): System {
    match a
    case Begin(id) =>
      if id in s.inFlight then s
      else
        var (cb, refusal) := Admit(cfg, s.cb, s.now);
        if refusal.None? then
          System(s.now, cb, s.inFlight[id := Flight(cb.instance, s.now)], s.trail + [Admitted(id, cb.instance)])
        else s.(cb := cb)
    case End(id, ending) =>
      if id !in s.inFlight then s
      else
        var f := s.inFlight[id];
        var obs := Completed(id, f.issuer, s.cb.instance, s.cb.state.Type(), OutcomeOf(cfg, s, id, ending),
                             SeenOf(s, id, ending));
        System(s.now, Complete(cfg, s.cb, ending, DurationMs(s, id), s.now).0, s.inFlight - {id}, s.trail + [obs])
    case Cancel(id) =>
      if id !in s.inFlight then s
      else s.(inFlight := s.inFlight - {id}, trail := s.trail + [Cancelled(id, s.inFlight[id].issuer)])
    case Tick(dt) => if dt < 0.0 then s else s.(now := s.now + dt)
    case ResetBreaker => s.(cb := Reset(s.cb), trail := s.trail + [Cleared])
    case Manual(target) => s.(cb := TransitionTo(s.cb, target, s.now))
    case ReadMetrics => s.(cb := Observe(cfg, s.cb, s.now))
  }

  function DurationMs(s: System, id: nat): real
    requires id in s.inFlight
  {
    (s.now - s.inFlight[id].startedAt) * 1000.0
  }

  // A call counts as failed iff it raised an exception that is to be recorded.
  function OutcomeOf(cfg: Config, s: System, id: nat, ending: Ending): CallOutcome
    requires id in s.inFlight
  {
    Recording(cfg, ending, DurationMs(s, id), s.now)
  }

  function SeenOf(s: System, id: nat, ending: Ending): Call
    requires id in s.inFlight
  {
    Call(ending, s.inFlight[id].startedAt, s.now)
  }

  // What leaves `_execute_async` when call `id` ends.
  function ReplyOf(cfg: Config, s: System, id: nat, ending: Ending): Reply
    requires id in s.inFlight
  {
    Complete(cfg, s.cb, ending, DurationMs(s, id), s.now).1
  }

  function Run(cfg: Config, s: System, acts: seq<Action>): System {
    if acts == [] then s
    else Step(cfg, Run(cfg, s, acts[..|acts| - 1]), acts[|acts| - 1])
  }

  function Reach(cfg: Config, t0: real, acts: seq<Action>): System {
    Run(cfg, Start(t0), acts)
  }

  // ---------- Readings of the trail ----------

  datatype Query =
    | AdmittedBy(e: nat)       // permission given by instance e
    | OwnCompleted(e: nat)     // admitted by e, ended while e was installed
    | LateCompleted(e: nat)    // admitted by e, ended under a later instance
    | CancelledOf(e: nat)      // admitted by e, cancelled
    | AnyAdmitted

  predicate Matches(q: Query, o: Obs) {
    match q
    case AdmittedBy(e) => o.Admitted? && o.issuer == e
    case OwnCompleted(e) => o.Completed? && o.issuer == e && o.at == e
    case LateCompleted(e) => o.Completed? && o.issuer == e && o.at != e
    case CancelledOf(e) => o.Cancelled? && o.issuer == e
    case AnyAdmitted => o.Admitted?
  }

  function Count(trail: seq<Obs>, q: Query): nat {
    if trail == [] then 0
    else Count(trail[..|trail| - 1], q) + (if Matches(q, trail[|trail| - 1]) then 1 else 0)
  }

  // Outcomes, own or stale, of the calls that ended while instance e was installed.
  function OutcomesAt(trail: seq<Obs>, e: nat): seq<CallOutcome> {
    if trail == [] then []
    else
      var o := trail[|trail| - 1];
      OutcomesAt(trail[..|trail| - 1], e) + (if o.Completed? && o.at == e then [o.outcome] else [])
  }

  // Outcomes completed in CLOSED or METRICS_ONLY since the last reset.
  function History(trail: seq<Obs>): seq<CallOutcome> {
    if trail == [] then []
    else
      var o := trail[|trail| - 1];
      var h := History(trail[..|trail| - 1]);
      if o.Cleared? then []
      else if o.Completed? && (o.where == CLOSED || o.where == METRICS_ONLY) then h + [o.outcome]
      else h
  }

  // The same calls as in OutcomesAt and in History, as their callers saw them.
  function CallsAt(trail: seq<Obs>, e: nat): seq<Call> {
    if trail == [] then []
    else
      var o := trail[|trail| - 1];
      CallsAt(trail[..|trail| - 1], e) + (if o.Completed? && o.at == e then [o.seen] else [])
  }

  function CallsSinceReset(trail: seq<Obs>): seq<Call> {
    if trail == [] then []
    else
      var o := trail[|trail| - 1];
      var h := CallsSinceReset(trail[..|trail| - 1]);
      if o.Cleared? then []
      else if o.Completed? && (o.where == CLOSED || o.where == METRICS_ONLY) then h + [o.seen]
      else h
  }

  ghost function Flying(inFlight: map<nat, Flight>, e: nat): set<nat> {
    set id | id in inFlight && inFlight[id].issuer == e
  }

  lemma Extend(trail: seq<Obs>, o: Obs)
    ensures forall q :: Count(trail + [o], q) == Count(trail, q) + if Matches(q, o) then 1 else 0
    ensures forall e :: OutcomesAt(trail + [o], e)
                        == OutcomesAt(trail, e) + if o.Completed? && o.at == e then [o.outcome] else []
    ensures History(trail + [o]) ==
            if o.Cleared? then []
            else if o.Completed? && (o.where == CLOSED || o.where == METRICS_ONLY) then History(trail) + [o.outcome]
            else History(trail)
  {
    assert (trail + [o])[..|trail|] == trail;
  }

  // ---------- The ledger: every admitted call is in flight, completed or cancelled ----------

  ghost predicate Ledger(instance: nat, now: real, inFlight: map<nat, Flight>, trail: seq<Obs>) {
    && (forall id | id in inFlight :: inFlight[id].issuer <= instance && inFlight[id].startedAt <= now)
    && (forall e: nat | e >= instance :: Count(trail, LateCompleted(e)) == 0)
    && (forall e: nat | e > instance :: Count(trail, AdmittedBy(e)) == 0 && OutcomesAt(trail, e) == [])
    && (forall e: nat :: Balanced(inFlight, trail, e))
  }

  // Everything instance e admitted is in flight, has ended, or was cancelled.
  ghost predicate Balanced(inFlight: map<nat, Flight>, trail: seq<Obs>, e: nat) {
    Count(trail, AdmittedBy(e)) == |Flying(inFlight, e)|
      + Count(trail, OwnCompleted(e)) + Count(trail, LateCompleted(e)) + Count(trail, CancelledOf(e))
  }

  // Facts about HALF_OPEN: used permits are exactly the admissions, the stored calls exactly the
  // completions, and the set of outcomes is never complete without the state having been left.
  ghost predicate Probing(cfg: Config, cb: Breaker, now: real, trail: seq<Obs>) {
    match cb.state
    case HalfOpen(used, calls, enteredAt) =>
      && used == Count(trail, AdmittedBy(cb.instance)) <= cfg.permittedInHalfOpen
      && calls == OutcomesAt(trail, cb.instance)
      && |calls| < cfg.permittedInHalfOpen
      && enteredAt <= now
    case Open(openedAt) => openedAt <= now
    case _ => true
  }

  ghost predicate Inv(cfg: Config, s: System) {
    && Ledger(s.cb.instance, s.now, s.inFlight, s.trail)
    && Probing(cfg, s.cb, s.now, s.trail)
    && Agrees(cfg.window, s.cb.window, History(s.trail), s.now)
  }

  // Which instance numbers a reaction can lead to.
  lemma InstanceSteps(cfg: Config, s: System, a: Action)
    requires cfg.Valid()
    ensures s.cb.instance <= Step(cfg, s, a).cb.instance <= s.cb.instance + 1
    ensures Step(cfg, s, a).now >= s.now
  {
    match a
    case Begin(_) => AdmitInstance(cfg, s.cb, s.now);
    case End(id, ending) =>
      if id in s.inFlight {
        CompleteInstance(cfg, s.cb, ending, DurationMs(s, id), s.now);
      }
    case _ =>
  }

  lemma AdmitInstance(cfg: Config, b: Breaker, now: real)
    requires cfg.Valid()
    ensures b.instance <= Admit(cfg, b, now).0.instance <= b.instance + 1
  {
    Permission(cfg, b, now);
  }

  lemma CompleteInstance(cfg: Config, b: Breaker, ending: Ending, durationMs: real, now: real)
    ensures b.instance <= Complete(cfg, b, ending, durationMs, now).0.instance <= b.instance + 1
  {
    if b.state.Refuses() {
      RefusedCompletion(cfg, b, ending, durationMs, now);
    } else {
      HandlerInstance(cfg, b, ending, durationMs, now);
    }
  }

  lemma HandlerInstance(cfg: Config, b: Breaker, ending: Ending, durationMs: real, now: real)
    requires !b.state.Refuses()
    ensures match ending
            case Returned(_) => b.instance <= OnSuccess(cfg, b, durationMs, now).instance <= b.instance + 1
            case Raised(e) => b.instance <= OnError(cfg, b, durationMs, e, now).instance <= b.instance + 1
  {
    var o := Recording(cfg, ending, durationMs, now);
    match b.state
    case Closed => ThresholdsInstance(cfg, Record(cfg, b, o, now), now);
    case HalfOpen(_, _, _) => VerdictInstance(cfg, RecordHalfOpen(cfg, b, o), now);
    case _ =>
  }

  lemma ThresholdsInstance(cfg: Config, b: Breaker, now: real)
    ensures b.instance <= CheckThresholds(cfg, b, now).instance <= b.instance + 1
  {
  }

  lemma VerdictInstance(cfg: Config, b: Breaker, now: real)
    requires b.state.HalfOpen?
    ensures b.instance <= CheckTransition(cfg, b, now).instance <= b.instance + 1
  {
  }

  lemma FlyingChange(inFlight: map<nat, Flight>, id: nat, f: Flight, e: nat)
    requires id !in inFlight
    ensures |Flying(inFlight[id := f], e)| == |Flying(inFlight, e)| + if f.issuer == e then 1 else 0
  {
    assert Flying(inFlight[id := f], e) == Flying(inFlight, e) + if f.issuer == e then {id} else {};
  }

  lemma LedgerLater(i: nat, now: real, inFlight: map<nat, Flight>, trail: seq<Obs>, i2: nat, now2: real)
    requires Ledger(i, now, inFlight, trail) && i <= i2 && now <= now2
    ensures Ledger(i2, now2, inFlight, trail)
  {
  }

  lemma LedgerAdmit(i: nat, now: real, inFlight: map<nat, Flight>, trail: seq<Obs>, id: nat)
    requires Ledger(i, now, inFlight, trail) && id !in inFlight
    ensures Ledger(i, now, inFlight[id := Flight(i, now)], trail + [Admitted(id, i)])
  {
    Extend(trail, Admitted(id, i));
    var f := inFlight[id := Flight(i, now)];
    forall e: nat ensures Balanced(f, trail + [Admitted(id, i)], e) {
      assert Balanced(inFlight, trail, e);
      FlyingChange(inFlight, id, Flight(i, now), e);
    }
  }

  lemma LedgerLeave(i: nat, now: real, inFlight: map<nat, Flight>, trail: seq<Obs>, id: nat, o: Obs)
    requires Ledger(i, now, inFlight, trail) && id in inFlight
    requires o.Completed? || o.Cancelled?
    requires o.issuer == inFlight[id].issuer && (o.Completed? ==> o.at == i)
    ensures Ledger(i, now, inFlight - {id}, trail + [o])
  {
    Extend(trail, o);
    var rest := inFlight - {id};
    assert inFlight == rest[id := inFlight[id]];
    forall e: nat ensures Balanced(rest, trail + [o], e) {
      assert Balanced(inFlight, trail, e);
      FlyingChange(rest, id, inFlight[id], e);
    }
  }

  lemma LedgerClear(i: nat, now: real, inFlight: map<nat, Flight>, trail: seq<Obs>)
    requires Ledger(i, now, inFlight, trail)
    ensures Ledger(i, now, inFlight, trail + [Cleared])
  {
    Extend(trail, Cleared);
    forall e: nat ensures Balanced(inFlight, trail + [Cleared], e) {
      assert Balanced(inFlight, trail, e);
    }
  }
}
