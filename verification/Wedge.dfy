// Exactly when a HALF_OPEN state can never be left again. Cancelling a probe gives its permit back
// to nobody, so enough cancellations leave HALF_OPEN with neither permits nor outcomes to come.

module Wedge {
  import opened BreakerConfig
  import opened BreakerCore
  import opened BreakerReactions
  import opened BreakerRuns
  import opened BreakerInvariant
  import opened CoolDown

  // No permit left, no time limit, and fewer calls in flight (stale ones count) than outcomes missing.
  predicate Starved(cfg: Config, s: System) {
    && s.cb.state.HalfOpen?
    && s.cb.state.permitsUsed >= cfg.permittedInHalfOpen
    && cfg.maxWaitInHalfOpen == 0.0
    && |s.cb.state.calls| + |s.inFlight| < cfg.permittedInHalfOpen
  }

  lemma StarvedStep(cfg: Config, s: System, a: Action, t: System)
    requires cfg.Valid() && Starved(cfg, s) && t == Step(cfg, s, a) && !a.ResetBreaker? && !a.Manual?
    ensures Starved(cfg, t) && t.cb.instance == s.cb.instance
    ensures Count(t.trail, AnyAdmitted) == Count(s.trail, AnyAdmitted)
  {
    match a
    case Begin(_) => Permission(cfg, s.cb, s.now);
    case End(_, _) => StarvedLeave(cfg, s, a, t);
    case Cancel(_) => StarvedLeave(cfg, s, a, t);
    case _ =>
  }

  lemma StarvedLeave(cfg: Config, s: System, a: Action, t: System)
    requires cfg.Valid() && Starved(cfg, s) && t == Step(cfg, s, a) && (a.End? || a.Cancel?)
    ensures Starved(cfg, t) && t.cb.instance == s.cb.instance
    ensures Count(t.trail, AnyAdmitted) == Count(s.trail, AnyAdmitted)
  {
    if a.call in s.inFlight {
      Extend(s.trail, t.trail[|s.trail|]);
      OneLess(s.inFlight, a.call);
      if a.End? {
        ProbeCompletion(cfg, s.cb, a.ending, DurationMs(s, a.call), s.now);
      }
    }
  }

  lemma OneLess(inFlight: map<nat, Flight>, id: nat)
    requires id in inFlight
    ensures |inFlight - {id}| == |inFlight| - 1
  {
    assert inFlight.Keys == (inFlight - {id}).Keys + {id};
  }

  lemma {:induction false} StarvedForever(cfg: Config, s: System, more: seq<Action>)
    requires cfg.Valid() && Starved(cfg, s) && NoOverride(more)
    ensures var t := Run(cfg, s, more);
      && Starved(cfg, t) && t.cb.instance == s.cb.instance
      && Count(t.trail, AnyAdmitted) == Count(s.trail, AnyAdmitted)
  {
    if more != [] {
      var before := more[..|more| - 1];
      StarvedForever(cfg, s, before);
      StarvedStep(cfg, Run(cfg, s, before), more[|more| - 1], Run(cfg, s, more));
    }
  }

  // ---------- Every other HALF_OPEN state can still move ----------

  // The state object is replaced, or a call is admitted.
  ghost predicate Moves(cfg: Config, s: System, more: seq<Action>) {
    var t := Run(cfg, s, more);
    NoOverride(more)
    && (t.cb.instance != s.cb.instance || Count(t.trail, AnyAdmitted) != Count(s.trail, AnyAdmitted))
  }

  lemma {:induction false} RunAfter(cfg: Config, s: System, a: Action, more: seq<Action>)
    ensures Run(cfg, s, [a] + more) == Run(cfg, Step(cfg, s, a), more)
  {
    var acts := [a] + more;
    if more == [] {
      assert acts[..0] == [] && Run(cfg, s, []) == s;
    } else {
      assert acts[..|acts| - 1] == [a] + more[..|more| - 1];
      RunAfter(cfg, s, a, more[..|more| - 1]);
    }
  }

  lemma {:induction false} FreshId(ids: set<nat>) returns (id: nat)
    ensures forall k <- ids :: k < id
    decreases |ids|
  {
    if ids == {} {
      id := 0;
    } else {
      var k :| k in ids;
      var rest := FreshId(ids - {k});
      id := if k < rest then rest else k + 1;
      assert forall x <- ids :: x == k || x in ids - {k};
    }
  }

  // With enough calls in flight, letting them end replaces the state object.
  lemma {:induction false} EndingsSuffice(cfg: Config, s: System) returns (more: seq<Action>)
    requires cfg.Valid() && s.cb.state.HalfOpen? && |s.cb.state.calls| < cfg.permittedInHalfOpen
    requires |s.cb.state.calls| + |s.inFlight| >= cfg.permittedInHalfOpen
    ensures NoOverride(more) && Run(cfg, s, more).cb.instance == s.cb.instance + 1
    decreases cfg.permittedInHalfOpen - |s.cb.state.calls|
  {
    var id :| id in s.inFlight;
    var a := End(id, Returned(0));
    var t := Step(cfg, s, a);
    ProbeCompletion(cfg, s.cb, Returned(0), DurationMs(s, id), s.now);
    OneLess(s.inFlight, id);
    more := [];
    if t.cb.instance == s.cb.instance {
      more := EndingsSuffice(cfg, t);
    } else {
      assert Run(cfg, t, []) == t;
    }
    RunAfter(cfg, s, a, more);
    more := [a] + more;
  }

  lemma PermitLeftMoves(cfg: Config, s: System) returns (more: seq<Action>)
    requires cfg.Valid() && s.cb.state.HalfOpen? && s.cb.state.permitsUsed < cfg.permittedInHalfOpen
    ensures Moves(cfg, s, more)
  {
    var id := FreshId(s.inFlight.Keys);
    more := [Begin(id)];
    var t := Step(cfg, s, Begin(id));
    assert more[..0] == [] && Run(cfg, s, more) == t;
    Permission(cfg, s.cb, s.now);
    if t.cb.instance == s.cb.instance {
      assert t.trail == s.trail + [Admitted(id, t.cb.instance)];
      Extend(s.trail, Admitted(id, t.cb.instance));
    }
  }

  lemma TimeLimitMoves(cfg: Config, s: System) returns (more: seq<Action>)
    requires cfg.Valid() && s.cb.state.HalfOpen? && s.cb.state.enteredAt <= s.now && cfg.maxWaitInHalfOpen > 0.0
    ensures Moves(cfg, s, more)
  {
    var id := FreshId(s.inFlight.Keys);
    more := [Tick(cfg.maxWaitInHalfOpen), Begin(id)];
    var t := Step(cfg, s, Tick(cfg.maxWaitInHalfOpen));
    RunAfter(cfg, s, Tick(cfg.maxWaitInHalfOpen), [Begin(id)]);
    RunAfter(cfg, t, Begin(id), []);
    assert more == [Tick(cfg.maxWaitInHalfOpen)] + [Begin(id)] && [Begin(id)] + [] == [Begin(id)];
    Permission(cfg, t.cb, t.now);
  }

  // A reachable HALF_OPEN state is stuck, keeping its state object and rejecting every call in
  // every continuation without reset or manual transition, iff it is starved.
  lemma WedgedIffStarved(cfg: Config, s: System)
    requires cfg.Valid() && Reachable(cfg, s) && s.cb.state.HalfOpen?
    ensures Starved(cfg, s) <==> forall more: seq<Action> :: !Moves(cfg, s, more)
  {
    if Starved(cfg, s) {
      forall more: seq<Action> ensures !Moves(cfg, s, more) {
        if NoOverride(more) {
          StarvedForever(cfg, s, more);
        }
      }
    } else {
      ReachableInv(cfg, s);
      var more: seq<Action> := [];
      if s.cb.state.permitsUsed < cfg.permittedInHalfOpen {
        more := PermitLeftMoves(cfg, s);
      } else if cfg.maxWaitInHalfOpen > 0.0 {
        more := TimeLimitMoves(cfg, s);
      } else {
        more := EndingsSuffice(cfg, s);
      }
      assert Moves(cfg, s, more);
    }
  }

  // ---------- Starvation happens ----------

  function CancelledProbes(n: nat): seq<Action> {
    if n == 0 then [Manual(HALF_OPEN)] else CancelledProbes(n - 1) + [Begin(0)] + [Cancel(0)]
  }

  lemma RunLast(cfg: Config, s: System, acts: seq<Action>, a: Action)
    ensures Run(cfg, s, acts + [a]) == Step(cfg, Run(cfg, s, acts), a)
  {
    assert (acts + [a])[..|acts|] == acts;
  }

  lemma {:induction false} AfterCancelledProbes(cfg: Config, t0: real, n: nat)
    requires cfg.Valid() && cfg.maxWaitInHalfOpen == 0.0 && n <= cfg.permittedInHalfOpen
    ensures var s := Reach(cfg, t0, CancelledProbes(n));
      s.cb.state == HalfOpen(n, [], t0) && s.inFlight == map[] && s.now == t0
  {
    if n == 0 {
      RunLast(cfg, Start(t0), [], Manual(HALF_OPEN));
      assert [] + [Manual(HALF_OPEN)] == CancelledProbes(0);
    } else {
      AfterCancelledProbes(cfg, t0, n - 1);
      var s := Reach(cfg, t0, CancelledProbes(n - 1));
      Permission(cfg, s.cb, s.now);
      RunLast(cfg, Start(t0), CancelledProbes(n - 1), Begin(0));
      RunLast(cfg, Start(t0), CancelledProbes(n - 1) + [Begin(0)], Cancel(0));
      assert Step(cfg, s, Begin(0)).inFlight - {0} == map[];
    }
  }

  // Without a time limit, cancelling as many probes as are permitted wedges the breaker.
  lemma CancelledProbesWedge(cfg: Config, t0: real)
    requires cfg.Valid() && cfg.maxWaitInHalfOpen == 0.0
    ensures var s := Reach(cfg, t0, CancelledProbes(cfg.permittedInHalfOpen));
      Starved(cfg, s) && forall more: seq<Action> :: !Moves(cfg, s, more)
  {
    var s := Reach(cfg, t0, CancelledProbes(cfg.permittedInHalfOpen));
    AfterCancelledProbes(cfg, t0, cfg.permittedInHalfOpen);
    assert Reachable(cfg, s);
    WedgedIffStarved(cfg, s);
  }
}
