// What an automatic recovery leaves in the window. Closing after HALF_OPEN clears nothing, so every
// recovery lands in CLOSED with what is left of the window that had opened the breaker.

module Recovery {
  import opened CallMetrics
  import opened BreakerConfig
  import opened BreakerCore
  import opened BreakerReactions
  import opened BreakerRuns
  import opened BreakerInvariant
  import opened WindowTheorems
  import opened CoolDown
  import opened Wedge
  import opened TripReachability

  // No state before the end of the continuation is CLOSED.
  predicate AwayUntilEnd(cfg: Config, s: System, more: seq<Action>) {
    more == [] ||
    var before := more[..|more| - 1];
    AwayUntilEnd(cfg, s, before) && !Run(cfg, s, before).cb.state.Closed?
  }

  predicate Recovering(s: State) {
    s.Open? || s.HalfOpen? || s.Closed?
  }

  lemma AwayStep(cfg: Config, s: System, a: Action, t: System)
    requires cfg.Valid() && Reachable(cfg, s) && t == Step(cfg, s, a) && !a.ResetBreaker? && !a.Manual?
    requires s.cb.state.Open? || s.cb.state.HalfOpen?
    ensures Recovering(t.cb.state) && History(t.trail) == History(s.trail) && t.now >= s.now
  {
    FrozenOutsideClosed(cfg, s, a, t);
    InstanceSteps(cfg, s, a);
    match a
    case Begin(_) => Permission(cfg, s.cb, s.now);
    case End(id, ending) =>
      if id in s.inFlight {
        if s.cb.state.HalfOpen? {
          ReachableInv(cfg, s);
          ProbeCompletion(cfg, s.cb, ending, DurationMs(s, id), s.now);
        } else {
          RefusedCompletion(cfg, s.cb, ending, DurationMs(s, id), s.now);
        }
      }
    case _ =>
  }

  lemma ReachableStep(cfg: Config, s: System, a: Action)
    requires Reachable(cfg, s)
    ensures Reachable(cfg, Step(cfg, s, a))
  {
    var t0: real, acts: seq<Action> :| s == Reach(cfg, t0, acts);
    RunLast(cfg, Start(t0), acts, a);
    assert Step(cfg, s, a) == Reach(cfg, t0, acts + [a]);
  }

  // From OPEN until the breaker closes, the history stays what it was.
  lemma {:induction false} HistoryKept(cfg: Config, s: System, more: seq<Action>)
    requires cfg.Valid() && Reachable(cfg, s) && s.cb.state.Open? && NoOverride(more) && AwayUntilEnd(cfg, s, more)
    ensures var t := Run(cfg, s, more);
      Reachable(cfg, t) && Recovering(t.cb.state) && History(t.trail) == History(s.trail) && t.now >= s.now
  {
    if more != [] {
      var before, a := more[..|more| - 1], more[|more| - 1];
      HistoryKept(cfg, s, before);
      ReachableStep(cfg, Run(cfg, s, before), a);
      AwayStep(cfg, Run(cfg, s, before), a, Run(cfg, s, more));
    }
  }

  lemma {:induction false} SinceTwice(calls: seq<CallOutcome>, earlier: real, later: real)
    requires earlier <= later
    ensures Since(Since(calls, earlier), later) == Since(calls, later)
  {
    if calls != [] {
      var before, last := calls[..|calls| - 1], calls[|calls| - 1];
      SinceTwice(before, earlier, later);
      if last.timestamp >= earlier {
        assert (Since(before, earlier) + [last])[..|Since(before, earlier)|] == Since(before, earlier);
      } else {
        assert Since(before, earlier) + [] == Since(before, earlier);
        assert Since(before, later) + [] == Since(before, later);
      }
    }
  }

  // What is left of an earlier window is the later window.
  lemma WindowRemains(shape: Shape, history: seq<CallOutcome>, earlier: real, later: real)
    requires shape.size > 0 && earlier <= later
    ensures InWindow(shape, InWindow(shape, history, earlier), later) == InWindow(shape, history, later)
  {
    if shape.kind.TimeBased? {
      SinceTwice(history, earlier - shape.size as real, later - shape.size as real);
    }
  }

  lemma TrippingWindow(cfg: Config, s: System, id: nat, ending: Ending, s1: System)
    requires cfg.Valid() && Reachable(cfg, s) && s.cb.state.Closed? && id in s.inFlight
    requires s1 == Step(cfg, s, End(id, ending)) && s1.cb.state.Open?
    ensures |s1.cb.window| >= cfg.minimumCalls && Unfit(cfg, s1.cb.window)
    ensures s1.cb.window == InWindow(cfg.window, History(s1.trail), s1.now)
  {
    var history := History(s.trail) + [OutcomeOf(cfg, s, id, ending)];
    TripExact(cfg, s, id, ending, s1, InWindow(cfg.window, history, s.now));
  }

  // A call that ends in CLOSED trips the breaker to s1; t is the first return to CLOSED without
  // reset or manual transition.
  ghost predicate Recovers(
    cfg: Config, s: System, id: nat, ending: Ending, s1: System, more: seq<Action>, t: System)
  {
    && Reachable(cfg, s) && s.cb.state.Closed? && id in s.inFlight
    && s1 == Step(cfg, s, End(id, ending)) && s1.cb.state.Open?
    && NoOverride(more) && AwayUntilEnd(cfg, s1, more) && t == Run(cfg, s1, more) && t.cb.state.Closed?
  }

  // What counts in t is what is left of the tripping window: all of it if count-based, and what has
  // not expired meanwhile if time-based.
  lemma RecoveredWindow(cfg: Config, s: System, id: nat, ending: Ending, s1: System, more: seq<Action>, t: System)
    requires cfg.Valid() && Recovers(cfg, s, id, ending, s1, more, t)
    ensures |s1.cb.window| >= cfg.minimumCalls && Unfit(cfg, s1.cb.window)
    ensures InWindow(cfg.window, History(t.trail), t.now) == InWindow(cfg.window, s1.cb.window, t.now)
    ensures cfg.window.kind.CountBased? ==> t.cb.window == s1.cb.window
  {
    TrippingWindow(cfg, s, id, ending, s1);
    ReachableStep(cfg, s, End(id, ending));
    HistoryKept(cfg, s1, more);
    WindowRemains(cfg.window, History(s1.trail), s1.now, t.now);
    DequeIsWindow(cfg, t, History(t.trail));
  }

  // ---------- Such a window is one bad call away from opening again ----------

  lemma {:induction false} TailCounts(calls: seq<CallOutcome>)
    requires calls != []
    ensures CountFailed(calls[1..]) >= CountFailed(calls) - 1 && CountSlow(calls[1..]) >= CountSlow(calls) - 1
  {
    if |calls| > 1 {
      TailCounts(calls[..|calls| - 1]);
      assert calls[1..][..|calls| - 2] == calls[..|calls| - 1][1..];
    }
  }

  // One more outcome of the kind that met a threshold keeps it met.
  lemma RateKept(part: nat, total: nat, part1: nat, total1: nat, threshold: real)
    requires threshold <= 100.0 && AtLeastPercent(part, total, threshold)
    requires part1 >= part && (total1 == total || (total1 == total + 1 && part1 >= part + 1))
    ensures AtLeastPercent(part1, total1, threshold)
  {
    assert threshold * (total + 1) as real == threshold * total as real + threshold;
  }

  // The outcome is of a kind whose rate meets its threshold.
  ghost predicate Alike(cfg: Config, calls: seq<CallOutcome>, o: CallOutcome) {
    || (AtLeastPercent(CountFailed(calls), |calls|, cfg.failureRateThreshold) && !o.success)
    || (AtLeastPercent(CountSlow(calls), |calls|, cfg.slowCallRateThreshold) && o.slow)
  }

  lemma StaysUnfit(cfg: Config, calls: seq<CallOutcome>, o: CallOutcome, window: seq<CallOutcome>)
    requires cfg.Valid() && 0 < |calls| <= cfg.window.size && Alike(cfg, calls, o)
    requires window == LastN(calls + [o], cfg.window.size)
    ensures |window| >= |calls| && Unfit(cfg, window)
  {
    TailCounts(calls);
    var kept := window[..|window| - 1];
    assert window == kept + [o] && (kept == calls || kept == calls[1..]);
    if AtLeastPercent(CountFailed(calls), |calls|, cfg.failureRateThreshold) && !o.success {
      RateKept(CountFailed(calls), |calls|, CountFailed(window), |window|, cfg.failureRateThreshold);
    } else {
      RateKept(CountSlow(calls), |calls|, CountSlow(window), |window|, cfg.slowCallRateThreshold);
    }
  }

  lemma LastTwice(history: seq<CallOutcome>, o: CallOutcome, n: nat)
    requires n > 0
    ensures LastN(LastN(history, n) + [o], n) == LastN(history + [o], n)
  {
  }

  // With a count-based window that has the minimum size and meets a threshold, the next checked
  // completion of the same kind opens the breaker at once, however many calls succeeded as probes.
  lemma NextBadCallReopens(cfg: Config, s: System, id: nat, ending: Ending, t: System)
    requires cfg.Valid() && Reachable(cfg, s) && s.cb.state.Closed? && id in s.inFlight && cfg.window.kind.CountBased?
    requires t == Step(cfg, s, End(id, ending)) && Checked(cfg, ending)
    requires |s.cb.window| >= cfg.minimumCalls && Alike(cfg, s.cb.window, OutcomeOf(cfg, s, id, ending))
    ensures t.cb.state == Open(s.now)
  {
    var o := OutcomeOf(cfg, s, id, ending);
    var window := LastN(History(s.trail) + [o], cfg.window.size);
    DequeIsWindow(cfg, s, History(s.trail));
    LastTwice(History(s.trail), o, cfg.window.size);
    StaysUnfit(cfg, s.cb.window, o, window);
    TripExact(cfg, s, id, ending, t, window);
  }

  // ---------- Recoveries happen ----------

  lemma {:induction false} AllFit(cfg: Config, calls: seq<CallOutcome>)
    requires cfg.Valid() && calls != [] && forall o <- calls :: o.success && !o.slow
    ensures CountFailed(calls) == CountSlow(calls) == 0 && !Unfit(cfg, calls)
  {
    if |calls| > 1 {
      AllFit(cfg, calls[..|calls| - 1]);
    }
    NoneMeets(|calls| as real, cfg.failureRateThreshold);
    NoneMeets(|calls| as real, cfg.slowCallRateThreshold);
  }

  // The wait is over, and n probes have succeeded at once.
  ghost predicate Probed(cfg: Config, s: System, n: nat) {
    && s.inFlight == map[]
    && (if n == 0 then s.cb.state.Open? && s.now - s.cb.state.openedAt == cfg.waitInOpen
        else if n < cfg.permittedInHalfOpen then
          && s.cb.state.HalfOpen? && s.cb.state.permitsUsed == |s.cb.state.calls| == n
          && s.cb.state.enteredAt == s.now && forall o <- s.cb.state.calls :: o.success && !o.slow
        else s.cb.state.Closed?)
  }

  lemma ProbeBegins(cfg: Config, s: System, n: nat, m: System)
    requires cfg.Valid() && cfg.automaticHalfOpen && Probed(cfg, s, n) && n < cfg.permittedInHalfOpen
    requires m == Step(cfg, s, Begin(0))
    ensures m.now == s.now && m.inFlight == map[0 := Flight(m.cb.instance, s.now)]
    ensures m.cb.state == HalfOpen(n + 1, if n == 0 then [] else s.cb.state.calls, s.now)
  {
    Permission(cfg, s.cb, s.now);
  }

  lemma ProbeEnds(cfg: Config, m: System, n: nat, t: System)
    requires cfg.Valid() && m.cb.state.HalfOpen? && |m.cb.state.calls| == n < cfg.permittedInHalfOpen
    requires m.cb.state.permitsUsed == n + 1 && m.cb.state.enteredAt == m.now
    requires m.inFlight == map[0 := Flight(m.cb.instance, m.now)]
    requires forall o <- m.cb.state.calls :: o.success && !o.slow
    requires t == Step(cfg, m, End(0, Returned(0)))
    ensures Probed(cfg, t, n + 1)
  {
    ProbeCompletion(cfg, m.cb, Returned(0), DurationMs(m, 0), m.now);
    var calls := m.cb.state.calls + [OutcomeOf(cfg, m, 0, Returned(0))];
    assert cfg.SlowThresholdMs() > 0.0;
    AllFit(cfg, calls);
    assert t.inFlight == map[];
  }

  lemma ProbeRound(cfg: Config, s: System, n: nat, m: System, t: System)
    requires cfg.Valid() && cfg.automaticHalfOpen && Probed(cfg, s, n) && n < cfg.permittedInHalfOpen
    requires m == Step(cfg, s, Begin(0)) && t == Step(cfg, m, End(0, Returned(0)))
    ensures Probed(cfg, t, n + 1) && !m.cb.state.Closed? && !s.cb.state.Closed? && t.now == s.now
  {
    ProbeBegins(cfg, s, n, m);
    ProbeEnds(cfg, m, n, t);
  }

  // One more probe after the continuation `acts`.
  lemma ProbeAfter(cfg: Config, s: System, acts: seq<Action>, n: nat, before: System)
    returns (longer: seq<Action>, t: System)
    requires cfg.Valid() && cfg.automaticHalfOpen && n < cfg.permittedInHalfOpen
    requires before == Run(cfg, s, acts) && Probed(cfg, before, n) && AwayUntilEnd(cfg, s, acts) && NoOverride(acts)
    ensures t == Run(cfg, s, longer) && Probed(cfg, t, n + 1) && AwayUntilEnd(cfg, s, longer) && NoOverride(longer)
    ensures t.now == before.now
  {
    var m := Step(cfg, before, Begin(0));
    longer := acts + [Begin(0)] + [End(0, Returned(0))];
    t := Step(cfg, m, End(0, Returned(0)));
    RunLast(cfg, s, acts, Begin(0));
    RunLast(cfg, s, acts + [Begin(0)], End(0, Returned(0)));
    ProbeRound(cfg, before, n, m, t);
    AwayTwice(cfg, s, acts, Begin(0), End(0, Returned(0)));
  }

  lemma AwayTwice(cfg: Config, s: System, acts: seq<Action>, a: Action, b: Action)
    requires AwayUntilEnd(cfg, s, acts) && !Run(cfg, s, acts).cb.state.Closed?
    requires !Run(cfg, s, acts + [a]).cb.state.Closed?
    ensures AwayUntilEnd(cfg, s, acts + [a] + [b])
  {
    assert (acts + [a])[..|acts|] == acts;
    assert (acts + [a] + [b])[..|acts| + 1] == acts + [a];
  }

  lemma AfterWait(cfg: Config, s: System) returns (acts: seq<Action>, t: System)
    requires cfg.Valid() && s.cb.state == Open(s.now) && s.inFlight == map[]
    ensures t == Run(cfg, s, acts) && Probed(cfg, t, 0) && AwayUntilEnd(cfg, s, acts) && NoOverride(acts)
    ensures t.now == s.now + cfg.waitInOpen
  {
    acts, t := [Tick(cfg.waitInOpen)], Step(cfg, s, Tick(cfg.waitInOpen));
    RunLast(cfg, s, [], Tick(cfg.waitInOpen));
    assert [] + acts == acts && acts[..0] == [];
  }

  lemma {:induction false} AfterProbes(cfg: Config, s: System, n: nat) returns (acts: seq<Action>, t: System)
    requires cfg.Valid() && cfg.automaticHalfOpen && n <= cfg.permittedInHalfOpen
    requires s.cb.state == Open(s.now) && s.inFlight == map[]
    ensures t == Run(cfg, s, acts) && Probed(cfg, t, n) && AwayUntilEnd(cfg, s, acts) && NoOverride(acts)
    ensures t.now == s.now + cfg.waitInOpen
  {
    if n == 0 {
      acts, t := AfterWait(cfg, s);
    } else {
      acts, t := AfterProbes(cfg, s, n - 1);
      acts, t := ProbeAfter(cfg, s, acts, n - 1, t);
    }
  }

  // A trip and a recovery in which no manual transition takes part.
  ghost predicate Cycle(
    cfg: Config, t0: real, s: System, id: nat, ending: Ending, s1: System, more: seq<Action>, t: System)
  {
    Automatically(cfg, t0, s) && Recovers(cfg, s, id, ending, s1, more, t)
  }

  lemma CycleNeeds(
    cfg: Config, t0: real, s: System, id: nat, ending: Ending, s1: System, more: seq<Action>, t: System)
    requires cfg.Valid() && Cycle(cfg, t0, s, id, ending, s1, more, t)
    ensures cfg.automaticHalfOpen && !Unreachable(cfg)
  {
    AutomaticStep(cfg, t0, s, End(id, ending));
    if Unreachable(cfg) {
      StaysClosed(cfg, t0, s1);
    }
    if !cfg.automaticHalfOpen {
      CoolDownRejects(cfg, s1, more, t);
    }
  }

  lemma CycleExists(cfg: Config, t0: real)
    returns (s: System, id: nat, ending: Ending, s1: System, more: seq<Action>, t: System)
    requires cfg.Valid() && cfg.automaticHalfOpen && !Unreachable(cfg)
    ensures Cycle(cfg, t0, s, id, ending, s1, more, t)
    ensures SlowSoFar(cfg, s1, cfg.minimumCalls, cfg.minimumCalls) && t.now == s1.now + cfg.waitInOpen
  {
    var n := cfg.minimumCalls;
    s := AfterSlowEnds(cfg, t0, n, n - 1);
    id, ending := n - 1, Returned(0);
    s1 := Step(cfg, s, End(id, ending));
    SlowStep(cfg, s, n, n - 1, s1);
    assert s1.inFlight == map[];
    more, t := AfterProbes(cfg, s1, cfg.permittedInHalfOpen);
  }

  // A valid configuration can trip and recover without manual help iff it opens HALF_OPEN by itself
  // and its window can hold the minimum.
  lemma CanRecoverIff(cfg: Config, t0: real)
    requires cfg.Valid()
    ensures (exists s, id, ending, s1, more, t :: Cycle(cfg, t0, s, id, ending, s1, more, t))
            <==> cfg.automaticHalfOpen && !Unreachable(cfg)
  {
    if cfg.automaticHalfOpen && !Unreachable(cfg) {
      var s, id, ending, s1, more, t := CycleExists(cfg, t0);
    }
    forall s, id, ending, s1, more, t | Cycle(cfg, t0, s, id, ending, s1, more, t)
      ensures cfg.automaticHalfOpen && !Unreachable(cfg)
    {
      CycleNeeds(cfg, t0, s, id, ending, s1, more, t);
    }
  }

  // ---------- When the tripping outcomes are forgotten ----------

  // The outcomes that count when the breaker is back in CLOSED.
  function Remaining(cfg: Config, t: System): seq<CallOutcome>
    requires cfg.Valid()
  {
    InWindow(cfg.window, History(t.trail), t.now)
  }

  // The wait in OPEN outlasts a time-based window.
  predicate OutlastsWindow(cfg: Config) {
    cfg.window.kind.TimeBased? && cfg.waitInOpen > cfg.window.size as real
  }

  lemma {:induction false} AllExpired(calls: seq<CallOutcome>, bound: real, start: real)
    requires SortedUpTo(calls, bound) && bound < start
    ensures Since(calls, start) == []
  {
    if calls != [] {
      AllExpired(calls[..|calls| - 1], calls[|calls| - 1].timestamp, start);
    }
  }

  lemma NothingRemains(cfg: Config, history: seq<CallOutcome>, now: real, later: real)
    requires cfg.Valid() && OutlastsWindow(cfg) && SortedUpTo(history, now) && later >= now + cfg.waitInOpen
    ensures InWindow(cfg.window, history, later) == []
  {
    AllExpired(history, now, later - cfg.window.size as real);
  }

  lemma RecoveryTakesTheWait(cfg: Config, s: System, id: nat, ending: Ending, s1: System, more: seq<Action>, t: System)
    requires cfg.Valid() && Recovers(cfg, s, id, ending, s1, more, t)
    ensures t.now >= s1.now + cfg.waitInOpen
  {
    TripExact(cfg, s, id, ending, s1,
              InWindow(cfg.window, History(s.trail) + [OutcomeOf(cfg, s, id, ending)], s.now));
    if t.now < s1.now + cfg.waitInOpen {
      CoolDownRejects(cfg, s1, more, t);
    }
  }

  lemma RecoveredHistory(cfg: Config, s: System, id: nat, ending: Ending, s1: System, more: seq<Action>, t: System)
    requires cfg.Valid() && Recovers(cfg, s, id, ending, s1, more, t)
    ensures History(t.trail) == History(s1.trail) && SortedUpTo(History(s1.trail), s1.now)
  {
    ReachableStep(cfg, s, End(id, ending));
    HistoryKept(cfg, s1, more);
    DequeIsWindow(cfg, s1, History(s1.trail));
  }

  lemma LongWaitForgets(cfg: Config, s: System, id: nat, ending: Ending, s1: System, more: seq<Action>, t: System)
    requires cfg.Valid() && Recovers(cfg, s, id, ending, s1, more, t) && OutlastsWindow(cfg)
    ensures Remaining(cfg, t) == []
  {
    RecoveredHistory(cfg, s, id, ending, s1, more, t);
    RecoveryTakesTheWait(cfg, s, id, ending, s1, more, t);
    NothingRemains(cfg, History(s1.trail), s1.now, t.now);
  }

  // A recovery that starts with enough bad outcomes to trip again.
  ghost predicate BadStart(
    cfg: Config, t0: real, s: System, id: nat, ending: Ending, s1: System, more: seq<Action>, t: System)
    requires cfg.Valid()
  {
    && Cycle(cfg, t0, s, id, ending, s1, more, t)
    && |Remaining(cfg, t)| >= cfg.minimumCalls && Unfit(cfg, Remaining(cfg, t))
  }

  lemma SlowRemain(cfg: Config, history: seq<CallOutcome>, now: real, later: real)
    requires cfg.Valid() && !Unreachable(cfg) && !OutlastsWindow(cfg)
    requires |history| == cfg.minimumCalls && later == now + cfg.waitInOpen
    requires forall o <- history :: o.slow && o.timestamp == now
    ensures InWindow(cfg.window, history, later) == history && Unfit(cfg, history)
  {
    SlowWindow(cfg, history, now);
    if cfg.window.kind.TimeBased? {
      AllRecent(history, later - cfg.window.size as real);
    }
  }

  lemma ShortWaitRemembers(cfg: Config, t0: real)
    returns (s: System, id: nat, ending: Ending, s1: System, more: seq<Action>, t: System)
    requires cfg.Valid() && cfg.automaticHalfOpen && !Unreachable(cfg) && !OutlastsWindow(cfg)
    ensures BadStart(cfg, t0, s, id, ending, s1, more, t)
  {
    s, id, ending, s1, more, t := CycleExists(cfg, t0);
    RecoveredHistory(cfg, s, id, ending, s1, more, t);
    SlowRemain(cfg, History(s1.trail), s1.now, t.now);
  }

  // Every automatic recovery starts with an empty window iff the wait in OPEN outlasts a time-based
  // window (or there is no automatic recovery at all); otherwise some recovery starts with a window
  // that is unfit already.
  lemma ForgottenIff(cfg: Config, t0: real)
    requires cfg.Valid()
    ensures (forall s, id, ending, s1, more, t | Cycle(cfg, t0, s, id, ending, s1, more, t) :: Remaining(cfg, t) == [])
            <==> OutlastsWindow(cfg) || !cfg.automaticHalfOpen || Unreachable(cfg)
    ensures (exists s, id, ending, s1, more, t :: BadStart(cfg, t0, s, id, ending, s1, more, t))
            <==> !OutlastsWindow(cfg) && cfg.automaticHalfOpen && !Unreachable(cfg)
  {
    if !OutlastsWindow(cfg) && cfg.automaticHalfOpen && !Unreachable(cfg) {
      var s, id, ending, s1, more, t := ShortWaitRemembers(cfg, t0);
      assert Cycle(cfg, t0, s, id, ending, s1, more, t) && Remaining(cfg, t) != [];
    } else {
      forall s, id, ending, s1, more, t | Cycle(cfg, t0, s, id, ending, s1, more, t)
        ensures Remaining(cfg, t) == []
      {
        CycleNeeds(cfg, t0, s, id, ending, s1, more, t);
        LongWaitForgets(cfg, s, id, ending, s1, more, t);
      }
    }
  }
}
