// OPEN in every run: how long it rejects, and which call ends it.

module CoolDown {
  import opened BreakerConfig
  import opened BreakerCore
  import opened BreakerReactions
  import opened BreakerRuns
  import opened WindowTheorems

  ghost predicate NoOverride(acts: seq<Action>) {
    forall a <- acts :: !a.ResetBreaker? && !a.Manual?
  }

  // The continuation contains a call that arrives when the cool-down of `s` is over.
  predicate DueCall(cfg: Config, s: System, more: seq<Action>)
    requires s.cb.state.Open?
  {
    more != [] &&
    var before, a := more[..|more| - 1], more[|more| - 1];
    DueCall(cfg, s, before) || IsDue(cfg, s, Run(cfg, s, before), a)
  }

  predicate IsDue(cfg: Config, s: System, t: System, a: Action)
    requires s.cb.state.Open?
  {
    && a.Begin? && a.call !in t.inFlight
    && cfg.automaticHalfOpen && t.now - s.cb.state.openedAt >= cfg.waitInOpen
  }

  // One step from a state in which OPEN was never left.
  lemma OpenStep(cfg: Config, s: System, t: System, a: Action, u: System)
    requires cfg.Valid() && s.cb.state.Open? && t.cb.state == s.cb.state
    requires u == Step(cfg, t, a) && !a.ResetBreaker? && !a.Manual?
    ensures History(u.trail) == History(t.trail)
    ensures !IsDue(cfg, s, t, a) ==>
              u.cb.state == t.cb.state && u.cb.instance == t.cb.instance
              && Count(u.trail, AnyAdmitted) == Count(t.trail, AnyAdmitted)
    ensures IsDue(cfg, s, t, a) ==>
              u.cb.state == HalfOpen(1, [], t.now) && u.cb.instance == t.cb.instance + 1
              && u.inFlight == t.inFlight[a.call := Flight(u.cb.instance, t.now)]
  {
    FrozenOutsideClosed(cfg, t, a, u);
    if u.trail != t.trail {
      assert u.trail == t.trail + [u.trail[|t.trail|]];
      Extend(t.trail, u.trail[|t.trail|]);
    }
    match a
    case Begin(_) => Permission(cfg, t.cb, t.now);
    case End(id, ending) =>
      if id in t.inFlight {
        RefusedCompletion(cfg, t.cb, ending, DurationMs(t, id), t.now);
      }
    case _ =>
  }

  // Without reset or manual transition, an OPEN state object lives on exactly until the first due
  // call, and until then admits nobody, however many late calls end. That call becomes the first
  // probe of a new HALF_OPEN state (OpenStep).
  lemma {:induction false} OpenUntilDueCall(cfg: Config, s: System, more: seq<Action>)
    requires cfg.Valid() && s.cb.state.Open? && NoOverride(more)
    ensures Run(cfg, s, more).cb.instance >= s.cb.instance
    ensures DueCall(cfg, s, more) <==> Run(cfg, s, more).cb.instance != s.cb.instance
    ensures !DueCall(cfg, s, more) ==>
              var t := Run(cfg, s, more);
              && t.cb.state == s.cb.state && History(t.trail) == History(s.trail)
              && Count(t.trail, AnyAdmitted) == Count(s.trail, AnyAdmitted)
  {
    if more != [] {
      var before, a := more[..|more| - 1], more[|more| - 1];
      OpenUntilDueCall(cfg, s, before);
      InstanceSteps(cfg, Run(cfg, s, before), a);
      if !DueCall(cfg, s, before) {
        OpenStep(cfg, s, Run(cfg, s, before), a, Run(cfg, s, more));
      }
    }
  }

  lemma {:induction false} NotDueYet(cfg: Config, s: System, more: seq<Action>)
    requires cfg.Valid() && s.cb.state.Open?
    requires !cfg.automaticHalfOpen || Run(cfg, s, more).now < s.cb.state.openedAt + cfg.waitInOpen
    ensures !DueCall(cfg, s, more)
  {
    if more != [] {
      var before := more[..|more| - 1];
      InstanceSteps(cfg, Run(cfg, s, before), more[|more| - 1]);
      NotDueYet(cfg, s, before);
    }
  }

  // No call is admitted before the cool-down is over, and none ever if the automatic transition is off.
  lemma CoolDownRejects(cfg: Config, s: System, more: seq<Action>, t: System)
    requires cfg.Valid() && s.cb.state.Open? && NoOverride(more) && t == Run(cfg, s, more)
    requires !cfg.automaticHalfOpen || t.now < s.cb.state.openedAt + cfg.waitInOpen
    ensures t.cb.state == s.cb.state && Count(t.trail, AnyAdmitted) == Count(s.trail, AnyAdmitted)
  {
    NotDueYet(cfg, s, more);
    OpenUntilDueCall(cfg, s, more);
  }
}
