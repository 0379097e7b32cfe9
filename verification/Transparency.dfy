// What the caller of a protected function gets.

module Transparency {
  import opened BreakerConfig
  import opened BreakerCore
  import opened BreakerReactions
  import opened BreakerRuns

  function OwnResult(ending: Ending): Reply {
    match ending case Returned(v) => Value(v) case Raised(e) => Failure(e)
  }

  // In any interleaving, the caller gets the function's own result unless the state has become
  // OPEN or FORCED_OPEN meanwhile; then it gets a RuntimeError and neither state nor window change.
  lemma ReplyExact(cfg: Config, s: System, id: nat, ending: Ending, t: System)
    requires id in s.inFlight && t == Step(cfg, s, End(id, ending))
    ensures ReplyOf(cfg, s, id, ending) ==
            if s.cb.state.Refuses() then Failure(RefusalOf("on_error", s.cb.state.Type())) else OwnResult(ending)
    ensures s.cb.state.Refuses() ==> t.cb.state == s.cb.state && t.cb.window == s.cb.window
  {
    if s.cb.state.Refuses() {
      RefusedCompletion(cfg, s.cb, ending, DurationMs(s, id), s.now);
    } else {
      AcceptedCompletion(cfg, s.cb, ending, DurationMs(s, id), s.now);
    }
  }

  // Calls one after the other: a call begins only when none is in flight; no manual transition.
  predicate Serial(cfg: Config, t0: real, acts: seq<Action>) {
    acts == [] ||
    var before, a := acts[..|acts| - 1], acts[|acts| - 1];
    Serial(cfg, t0, before) && !a.Manual? && (a.Begin? ==> Reach(cfg, t0, before).inFlight == map[])
  }

  ghost predicate OneCallAccepted(s: System) {
    && (forall i, j | i in s.inFlight && j in s.inFlight :: i == j)
    && (s.inFlight != map[] ==> !s.cb.state.Refuses())
  }

  lemma SerialStep(cfg: Config, s: System, a: Action, t: System)
    requires cfg.Valid() && OneCallAccepted(s) && t == Step(cfg, s, a)
    requires !a.Manual? && (a.Begin? ==> s.inFlight == map[])
    ensures OneCallAccepted(t)
  {
    match a
    case Begin(_) => Permission(cfg, s.cb, s.now);
    case End(id, _) => if id in s.inFlight { assert t.inFlight == map[]; }
    case Cancel(id) => if id in s.inFlight { assert t.inFlight == map[]; }
    case _ =>
  }

  // In a serial run the RuntimeError guards are unreachable: a call in flight always finds a state
  // that accepts its completion.
  lemma {:induction false} SerialIsAccepted(cfg: Config, t0: real, acts: seq<Action>)
    requires cfg.Valid() && Serial(cfg, t0, acts)
    ensures OneCallAccepted(Reach(cfg, t0, acts))
  {
    if acts != [] {
      var before := acts[..|acts| - 1];
      SerialIsAccepted(cfg, t0, before);
      SerialStep(cfg, Reach(cfg, t0, before), acts[|acts| - 1], Reach(cfg, t0, acts));
    }
  }

  lemma SerialIsTransparent(cfg: Config, t0: real, acts: seq<Action>, id: nat, ending: Ending)
    requires cfg.Valid() && Serial(cfg, t0, acts) && id in Reach(cfg, t0, acts).inFlight
    ensures ReplyOf(cfg, Reach(cfg, t0, acts), id, ending) == OwnResult(ending)
  {
    var s := Reach(cfg, t0, acts);
    SerialIsAccepted(cfg, t0, acts);
    ReplyExact(cfg, s, id, ending, Step(cfg, s, End(id, ending)));
  }
}
