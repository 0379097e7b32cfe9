// Which configurations can ever open the breaker without manual help, and with that lose the result
// of a call. `validate` accepts a count-based window smaller than the minimum number of calls; such
// a breaker never leaves CLOSED, and no other is so.

module TripReachability {
  import opened CallMetrics
  import opened Common
  import opened BreakerConfig
  import opened BreakerCore
  import opened BreakerReactions
  import opened BreakerRuns
  import opened BreakerInvariant
  import opened EventLog
  import opened WindowTheorems
  import opened Wedge
  import opened Transparency

  predicate Unreachable(cfg: Config) {
    cfg.window.kind.CountBased? && cfg.minimumCalls > cfg.window.size
  }

  lemma WindowTooSmall(cfg: Config, s: System, id: nat, ending: Ending)
    requires cfg.Valid() && Reachable(cfg, s) && s.cb.state.Closed? && id in s.inFlight && Unreachable(cfg)
    ensures Step(cfg, s, End(id, ending)).cb.state == Closed
  {
    var window := InWindow(cfg.window, History(s.trail) + [OutcomeOf(cfg, s, id, ending)], s.now);
    TripExact(cfg, s, id, ending, Step(cfg, s, End(id, ending)), window);
  }

  // Such a breaker stays CLOSED in every run without manual transitions, and rejects no call.
  lemma {:induction false} NeverOpens(cfg: Config, t0: real, acts: seq<Action>)
    requires cfg.Valid() && Unreachable(cfg) && NoManual(acts)
    ensures Reach(cfg, t0, acts).cb.state == Closed
    ensures Admit(cfg, Reach(cfg, t0, acts).cb, Reach(cfg, t0, acts).now).1 == None
  {
    if acts != [] {
      var before, a := acts[..|acts| - 1], acts[|acts| - 1];
      NeverOpens(cfg, t0, before);
      var s := Reach(cfg, t0, before);
      if a.End? && a.call in s.inFlight {
        assert Reachable(cfg, s);
        WindowTooSmall(cfg, s, a.call, a.ending);
      }
    }
  }

  // ---------- Every other configuration can trip: slow calls that all end together ----------

  // Reached without manual transitions.
  ghost predicate Automatically(cfg: Config, t0: real, s: System) {
    exists acts: seq<Action> :: NoManual(acts) && Reach(cfg, t0, acts) == s
  }

  lemma AutomaticStep(cfg: Config, t0: real, s: System, a: Action)
    requires Automatically(cfg, t0, s) && !a.Manual?
    ensures Automatically(cfg, t0, Step(cfg, s, a)) && Reachable(cfg, Step(cfg, s, a))
  {
    var acts :| NoManual(acts) && Reach(cfg, t0, acts) == s;
    RunLast(cfg, Start(t0), acts, a);
    assert NoManual(acts + [a]);
  }

  // Nothing has happened but the beginning of n calls.
  ghost predicate Begun(s: System, t0: real, n: nat) {
    && s.cb == INITIAL && s.now == t0 && History(s.trail) == []
    && (forall id: nat :: id in s.inFlight <==> id < n)
    && (forall id <- s.inFlight :: s.inFlight[id].startedAt == t0)
  }

  lemma BeginStep(cfg: Config, s: System, t0: real, n: nat, t: System)
    requires cfg.Valid() && Begun(s, t0, n) && t == Step(cfg, s, Begin(n))
    ensures Begun(t, t0, n + 1)
  {
    assert Admit(cfg, INITIAL, t0) == (INITIAL, None);
    Extend(s.trail, Admitted(n, 0));
  }

  lemma OneMoreBegun(cfg: Config, t0: real, s: System, n: nat) returns (t: System)
    requires cfg.Valid() && Automatically(cfg, t0, s) && Begun(s, t0, n)
    ensures Automatically(cfg, t0, t) && Begun(t, t0, n + 1)
  {
    t := Step(cfg, s, Begin(n));
    AutomaticStep(cfg, t0, s, Begin(n));
    BeginStep(cfg, s, t0, n, t);
  }

  lemma {:induction false} AfterBegins(cfg: Config, t0: real, n: nat) returns (s: System)
    requires cfg.Valid()
    ensures Automatically(cfg, t0, s) && Begun(s, t0, n)
  {
    if n == 0 {
      s := Start(t0);
      assert Reach(cfg, t0, []) == s && NoManual([]);
    } else {
      s := AfterBegins(cfg, t0, n - 1);
      s := OneMoreBegun(cfg, t0, s, n - 1);
    }
  }

  // After k of the n slow calls have ended, all outcomes are slow and none has expired.
  ghost predicate SlowSoFar(cfg: Config, s: System, n: nat, k: nat) {
    && |History(s.trail)| == k
    && (forall o <- History(s.trail) :: o.slow && o.timestamp == s.now)
    && (forall id: nat :: id in s.inFlight <==> k <= id < n)
    && (forall id <- s.inFlight :: DurationMs(s, id) >= cfg.SlowThresholdMs())
  }

  lemma {:induction false} AllRecent(calls: seq<CallOutcome>, start: real)
    requires forall o <- calls :: o.timestamp >= start
    ensures Since(calls, start) == calls
  {
    if calls != [] {
      var before := calls[..|calls| - 1];
      assert forall o <- before :: o in calls;
      AllRecent(before, start);
    }
  }

  lemma {:induction false} AllSlow(calls: seq<CallOutcome>)
    requires forall o <- calls :: o.slow
    ensures CountSlow(calls) == |calls|
  {
    if calls != [] {
      AllSlow(calls[..|calls| - 1]);
    }
  }

  // Outcomes that are all slow and recorded right now fill the window and meet the threshold.
  lemma SlowWindow(cfg: Config, calls: seq<CallOutcome>, now: real)
    requires cfg.Valid() && !Unreachable(cfg) && |calls| <= cfg.minimumCalls
    requires forall o <- calls :: o.slow && o.timestamp == now
    ensures InWindow(cfg.window, calls, now) == calls && Unfit(cfg, calls)
  {
    if cfg.window.kind.TimeBased? {
      AllRecent(calls, now - cfg.window.size as real);
    }
    AllSlow(calls);
    AllMeet(|calls| as real, cfg.slowCallRateThreshold);
  }

  // The n calls are at least as many as it takes to open.
  lemma SlowStep(cfg: Config, s: System, n: nat, k: nat, t: System)
    requires cfg.Valid() && !Unreachable(cfg) && k < cfg.minimumCalls <= n
    requires Reachable(cfg, s) && s.cb.state.Closed? && SlowSoFar(cfg, s, n, k)
    requires t == Step(cfg, s, End(k, Returned(0)))
    ensures SlowSoFar(cfg, t, n, k + 1)
    ensures t.cb.state == if k + 1 < cfg.minimumCalls then Closed else Open(t.now)
  {
    var o := OutcomeOf(cfg, s, k, Returned(0));
    var history := History(s.trail) + [o];
    assert forall x <- history :: x == o || x in History(s.trail);
    SlowWindow(cfg, history, s.now);
    TripExact(cfg, s, k, Returned(0), t, history);
    assert t.now == s.now && t.inFlight == s.inFlight - {k};
    forall id <- t.inFlight ensures DurationMs(t, id) >= cfg.SlowThresholdMs() {
      assert DurationMs(s, id) >= cfg.SlowThresholdMs() && t.inFlight[id] == s.inFlight[id];
    }
  }

  lemma TimePasses(cfg: Config, t0: real, s: System, n: nat, t: System)
    requires cfg.Valid() && Begun(s, t0, n) && t == Step(cfg, s, Tick(cfg.slowCallDuration))
    ensures SlowSoFar(cfg, t, n, 0) && t.cb.state == Closed
  {
  }

  lemma {:induction false} AfterSlowEnds(cfg: Config, t0: real, n: nat, k: nat) returns (s: System)
    requires cfg.Valid() && !Unreachable(cfg) && k <= cfg.minimumCalls <= n
    ensures Automatically(cfg, t0, s) && Reachable(cfg, s) && SlowSoFar(cfg, s, n, k)
    ensures s.cb.state == if k < cfg.minimumCalls then Closed else Open(s.now)
  {
    if k == 0 {
      var begun := AfterBegins(cfg, t0, n);
      s := Step(cfg, begun, Tick(cfg.slowCallDuration));
      AutomaticStep(cfg, t0, begun, Tick(cfg.slowCallDuration));
      TimePasses(cfg, t0, begun, n, s);
    } else {
      var before := AfterSlowEnds(cfg, t0, n, k - 1);
      s := Step(cfg, before, End(k - 1, Returned(0)));
      AutomaticStep(cfg, t0, before, End(k - 1, Returned(0)));
      SlowStep(cfg, before, n, k - 1, s);
    }
  }

  // Opened just now, with n calls still in flight.
  lemma Opened(cfg: Config, t0: real, n: nat) returns (s: System)
    requires cfg.Valid() && !Unreachable(cfg)
    ensures Automatically(cfg, t0, s) && Reachable(cfg, s) && s.cb.state == Open(s.now)
    ensures forall id: nat :: id in s.inFlight <==> cfg.minimumCalls <= id < cfg.minimumCalls + n
  {
    s := AfterSlowEnds(cfg, t0, cfg.minimumCalls + n, cfg.minimumCalls);
  }

  // A valid configuration can open without manual help iff its window can hold the minimum.
  lemma CanOpenIff(cfg: Config, t0: real)
    requires cfg.Valid()
    ensures (exists s :: Automatically(cfg, t0, s) && s.cb.state.Open?) <==> !Unreachable(cfg)
  {
    if Unreachable(cfg) {
      forall s | Automatically(cfg, t0, s) ensures !s.cb.state.Open? {
        StaysClosed(cfg, t0, s);
      }
    } else {
      var s := Opened(cfg, t0, 0);
    }
  }

  lemma StaysClosed(cfg: Config, t0: real, s: System)
    requires cfg.Valid() && Unreachable(cfg) && Automatically(cfg, t0, s)
    ensures s.cb.state == Closed
  {
    var acts :| NoManual(acts) && Reach(cfg, t0, acts) == s;
    NeverOpens(cfg, t0, acts);
  }

  // ---------- Lost results ----------

  // Some call in flight would not get its own result if it ended now.
  ghost predicate LosesResult(cfg: Config, s: System) {
    exists id: nat, ending: Ending :: Lost(cfg, s, id, ending)
  }

  predicate Lost(cfg: Config, s: System, id: nat, ending: Ending) {
    id in s.inFlight && ReplyOf(cfg, s, id, ending) != OwnResult(ending)
  }

  lemma LostWhenRefused(cfg: Config, s: System, id: nat)
    requires id in s.inFlight && s.cb.state.Refuses()
    ensures Lost(cfg, s, id, Returned(0)) && LosesResult(cfg, s)
  {
    ReplyExact(cfg, s, id, Returned(0), Step(cfg, s, End(id, Returned(0))));
    assert Lost(cfg, s, id, Returned(0));
  }

  // A value returned by a function is replaced by a RuntimeError in some run without manual
  // transitions iff the configuration can open at all.
  lemma CanLoseResultIff(cfg: Config, t0: real)
    requires cfg.Valid()
    ensures (exists s :: Automatically(cfg, t0, s) && LosesResult(cfg, s)) <==> !Unreachable(cfg)
  {
    if Unreachable(cfg) {
      forall s | Automatically(cfg, t0, s) ensures !LosesResult(cfg, s) {
        StaysClosed(cfg, t0, s);
        forall id: nat, ending: Ending ensures !Lost(cfg, s, id, ending) {
          if id in s.inFlight {
            ReplyExact(cfg, s, id, ending, Step(cfg, s, End(id, ending)));
          }
        }
      }
    } else {
      var s := Opened(cfg, t0, 1);
      LostWhenRefused(cfg, s, cfg.minimumCalls);
    }
  }

  // With a manual transition to FORCED_OPEN every configuration loses a result.
  lemma ForcedOpenLosesResult(cfg: Config, t0: real)
    ensures LosesResult(cfg, Reach(cfg, t0, [Begin(0)] + [Manual(FORCED_OPEN)]))
  {
    RunLast(cfg, Start(t0), [], Begin(0));
    RunLast(cfg, Start(t0), [Begin(0)], Manual(FORCED_OPEN));
    assert [] + [Begin(0)] == [Begin(0)];
    LostWhenRefused(cfg, Reach(cfg, t0, [Begin(0)] + [Manual(FORCED_OPEN)]), 0);
  }
}
