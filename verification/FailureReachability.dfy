// Opening on failures alone: which configurations can open without manual help although no call
// takes any time.

module FailureReachability {
  import opened Common
  import opened BreakerConfig
  import opened BreakerCore
  import opened BreakerReactions
  import opened BreakerRuns
  import opened BreakerInvariant
  import opened EventLog
  import opened Wedge
  import opened TripReachability
  import opened Evidence

  // No manual transition, and the clock stands still.
  ghost predicate Instant(acts: seq<Action>) {
    NoManual(acts) && forall a <- acts :: !a.Tick?
  }

  ghost predicate Instantly(cfg: Config, t0: real, s: System) {
    exists acts: seq<Action> :: Instant(acts) && Reach(cfg, t0, acts) == s
  }

  lemma InstantStep(cfg: Config, t0: real, s: System, a: Action)
    requires Instantly(cfg, t0, s) && !a.Manual? && !a.Tick?
    ensures Instantly(cfg, t0, Step(cfg, s, a)) && Reachable(cfg, Step(cfg, s, a))
  {
    var acts :| Instant(acts) && Reach(cfg, t0, acts) == s;
    RunLast(cfg, Start(t0), acts, a);
    assert Instant(acts + [a]);
  }

  // ---------- Failures open ----------

  // n calls have failed at once with e, and nothing else has happened.
  ghost predicate Failing(cfg: Config, s: System, t0: real, e: Exn, n: nat) {
    && s.now == t0 && s.inFlight == map[]
    && |CallsSinceReset(s.trail)| == n
    && forall c <- CallsSinceReset(s.trail) :: c == Call(Raised(e), t0, t0)
  }

  lemma {:induction false} NoneExpired(calls: seq<Call>, start: real)
    requires forall c <- calls :: c.endedAt >= start
    ensures EndedSince(calls, start) == calls
  {
    if calls != [] {
      var before := calls[..|calls| - 1];
      assert forall c <- before :: c in calls;
      NoneExpired(before, start);
    }
  }

  lemma {:induction false} EachFails(cfg: Config, calls: seq<Call>)
    requires forall c <- calls :: FailedCall(cfg, c)
    ensures |FailuresIn(cfg, calls)| == |calls|
  {
    if calls != [] {
      var last := |calls| - 1;
      assert forall c <- calls[..last] :: c in calls;
      assert calls[last] in calls;
      EachFails(cfg, calls[..last]);
      assert FailuresIn(cfg, calls) == FailuresIn(cfg, calls[..last]) + {last};
    }
  }

  lemma AllFailed(cfg: Config, calls: seq<Call>, e: Exn, t0: real)
    requires cfg.Valid() && !Unreachable(cfg) && |calls| <= cfg.minimumCalls
    requires CountsAsFailure(cfg, e) && forall c <- calls :: c == Call(Raised(e), t0, t0)
    ensures CallsInWindow(cfg.window, calls, t0) == calls && TooBad(cfg, calls)
  {
    if cfg.window.kind.TimeBased? {
      NoneExpired(calls, t0 - cfg.window.size as real);
    }
    EachFails(cfg, calls);
    AllAreTooBad(cfg, calls);
  }

  lemma OneMoreFailure(cfg: Config, t0: real, s: System, e: Exn, n: nat) returns (t: System)
    requires cfg.Valid() && !Unreachable(cfg) && n < cfg.minimumCalls && CountsAsFailure(cfg, e)
    requires Instantly(cfg, t0, s) && Failing(cfg, s, t0, e, n) && s.cb.state.Closed?
    ensures Instantly(cfg, t0, t) && Failing(cfg, t, t0, e, n + 1)
    ensures t.cb.state == if n + 1 < cfg.minimumCalls then Closed else Open(t0)
  {
    var m := Step(cfg, s, Begin(0));
    t := Step(cfg, m, End(0, Raised(e)));
    InstantStep(cfg, t0, s, Begin(0));
    InstantStep(cfg, t0, m, End(0, Raised(e)));
    Permission(cfg, s.cb, s.now);
    assert m.trail[..|s.trail|] == s.trail;
    var calls := CallsSinceReset(m.trail) + [SeenOf(m, 0, Raised(e))];
    AllFailed(cfg, calls, e, t0);
    TripOnCalls(cfg, m, 0, Raised(e), t, calls);
    assert t.inFlight == map[];
  }

  lemma {:induction false} Failures(cfg: Config, t0: real, e: Exn, n: nat) returns (s: System)
    requires cfg.Valid() && !Unreachable(cfg) && n <= cfg.minimumCalls && CountsAsFailure(cfg, e)
    ensures Instantly(cfg, t0, s) && Failing(cfg, s, t0, e, n)
    ensures s.cb.state == if n < cfg.minimumCalls then Closed else Open(t0)
  {
    if n == 0 {
      s := Start(t0);
      assert Reach(cfg, t0, []) == s && Instant([]);
    } else {
      s := Failures(cfg, t0, e, n - 1);
      s := OneMoreFailure(cfg, t0, s, e, n - 1);
    }
  }

  // ---------- Nothing else does, at once ----------

  // No call took any time, and none failed.
  ghost predicate Harmless(cfg: Config, s: System, t0: real) {
    && s.cb.state.Closed? && s.now == t0
    && (forall id <- s.inFlight :: s.inFlight[id].startedAt == t0)
    && (forall c <- CallsSinceReset(s.trail) :: c.startedAt == c.endedAt == t0)
  }

  lemma {:induction false} EndedSinceAmong(calls: seq<Call>, start: real)
    ensures forall c <- EndedSince(calls, start) :: c in calls
  {
    if calls != [] {
      EndedSinceAmong(calls[..|calls| - 1], start);
    }
  }

  lemma WindowAmong(cfg: Config, calls: seq<Call>, now: real)
    requires cfg.Valid()
    ensures forall c <- CallsInWindow(cfg.window, calls, now) :: c in calls
  {
    EndedSinceAmong(calls, now - cfg.window.size as real);
  }

  lemma HarmlessWindow(cfg: Config, calls: seq<Call>, now: real)
    requires cfg.Valid() && (forall e :: !CountsAsFailure(cfg, e))
    requires forall c <- calls :: c.startedAt == c.endedAt
    ensures var w := CallsInWindow(cfg.window, calls, now); w != [] ==> !TooBad(cfg, w)
  {
    var w := CallsInWindow(cfg.window, calls, now);
    WindowAmong(cfg, calls, now);
    assert FailuresIn(cfg, w) == {} && SlowIn(cfg, w) == {};
    if w != [] {
      NoneIsTooBad(cfg, w);
    }
  }

  lemma HarmlessEnd(cfg: Config, t0: real, s: System, id: nat, ending: Ending, t: System)
    requires cfg.Valid() && (forall e :: !CountsAsFailure(cfg, e)) && Reachable(cfg, s) && Harmless(cfg, s, t0)
    requires id in s.inFlight && t == Step(cfg, s, End(id, ending))
    ensures Harmless(cfg, t, t0)
  {
    var calls := CallsSinceReset(s.trail) + [SeenOf(s, id, ending)];
    HarmlessWindow(cfg, calls, s.now);
    TripOnCalls(cfg, s, id, ending, t, CallsInWindow(cfg.window, calls, s.now));
  }

  lemma HarmlessStep(cfg: Config, t0: real, s: System, a: Action, t: System)
    requires cfg.Valid() && (forall e :: !CountsAsFailure(cfg, e)) && Reachable(cfg, s) && Harmless(cfg, s, t0)
    requires !a.Manual? && !a.Tick? && t == Step(cfg, s, a)
    ensures Harmless(cfg, t, t0)
  {
    match a
    case Begin(_) =>
      Permission(cfg, s.cb, s.now);
      assert t.trail != s.trail ==> t.trail[..|s.trail|] == s.trail;
    case End(id, ending) =>
      if id in s.inFlight {
        HarmlessEnd(cfg, t0, s, id, ending, t);
      }
    case Cancel(id) => assert t.trail != s.trail ==> t.trail[..|s.trail|] == s.trail;
    case _ =>
  }

  lemma {:induction false} HarmlessRun(cfg: Config, t0: real, acts: seq<Action>, s: System)
    requires cfg.Valid() && (forall e :: !CountsAsFailure(cfg, e)) && Instant(acts) && s == Reach(cfg, t0, acts)
    ensures Harmless(cfg, s, t0)
  {
    if acts != [] {
      var before := Reach(cfg, t0, acts[..|acts| - 1]);
      HarmlessRun(cfg, t0, acts[..|acts| - 1], before);
      HarmlessStep(cfg, t0, before, acts[|acts| - 1], s);
    }
  }

  // Without manual transitions and without any call taking time, a valid configuration can open iff
  // its window can hold the minimum and it counts some exception as a failure.
  lemma CanOpenAtOnceIff(cfg: Config, t0: real)
    requires cfg.Valid()
    ensures (exists s :: Instantly(cfg, t0, s) && s.cb.state.Open?)
            <==> !Unreachable(cfg) && exists e :: CountsAsFailure(cfg, e)
  {
    if !Unreachable(cfg) && exists e :: CountsAsFailure(cfg, e) {
      var e :| CountsAsFailure(cfg, e);
      var s := Failures(cfg, t0, e, cfg.minimumCalls);
    }
    forall s | Instantly(cfg, t0, s) && s.cb.state.Open?
      ensures !Unreachable(cfg) && exists e :: CountsAsFailure(cfg, e)
    {
      var acts :| Instant(acts) && Reach(cfg, t0, acts) == s;
      if Unreachable(cfg) {
        NeverOpens(cfg, t0, acts);
      }
      if forall e :: !CountsAsFailure(cfg, e) {
        HarmlessRun(cfg, t0, acts, s);
      }
    }
  }
}
