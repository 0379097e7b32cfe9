// The rate limiter: lazily refreshed permissions with integer cycle arithmetic in nanoseconds.

module RateLimiter {
  import opened Common

  // `cycle` and `timeout` are nanoseconds.
  datatype Config = Config(limit: int, cycle: int, timeout: int) {
    predicate Valid() {
      limit > 0 && cycle > 0 && timeout >= 0
    }

    // What `validate` complains about first.
    function Complaint(): Option<string> {
      if limit <= 0 then Some("limit_for_period")
      else if cycle <= 0 then Some("limit_refresh_period")
      else if timeout < 0 then Some("timeout_duration")
      else None
    }
  }

  lemma ValidIffNoComplaint(cfg: Config)
    ensures cfg.Valid() <==> cfg.Complaint() == None
  {
  }

  datatype State = State(activePermissions: int, activeCycle: int, nanosecondsToWait: int)

  function Initial(cfg: Config): State {
    State(cfg.limit, 0, 0)
  }

  function CycleOf(cfg: Config, now: int): int
    requires cfg.Valid()
  {
    now / cfg.cycle
  }

  function Min(a: int, b: int): int {
    if a <= b then a else b
  }

  function Refreshed(cfg: Config, s: State, now: int): State
    requires cfg.Valid()
  {
    var c := CycleOf(cfg, now);
    if c == s.activeCycle then s
    else State(Min((c - s.activeCycle) * cfg.limit, cfg.limit), c, 0)
  }

  // The new state and the wait: 0 granted, positive wait, negative denied.
  function Reserve(cfg: Config, s: State, now: int): (State, int)
    requires cfg.Valid()
  {
    var r := Refreshed(cfg, s, now);
    if r.activePermissions > 0 then
      (State(r.activePermissions - 1, r.activeCycle, 0), 0)
    else
      var wait := (r.activeCycle + 1) * cfg.cycle - now;
      (r, if wait > cfg.timeout then -wait else wait)
  }

  // A call that waits starts at `time` at the earliest.
  datatype Verdict = Denied(shortage: int) | ExecuteAt(time: int)

  function VerdictOf(now: int, wait: int): Verdict {
    if wait < 0 then Denied(-wait) else ExecuteAt(now + wait)
  }

  class AtomicRateLimiter {
    const config: Config
    var state: State

    constructor (config: Config)
      requires config.Valid()
      ensures this.config == config && state == Initial(config)
    {
      this.config := config;
      state := State(config.limit, 0, 0);
    }

    method ReservePermission(now: int) returns (wait: int)
      requires config.Valid()
      modifies `state
      ensures (state, wait) == Reserve(config, old(state), now)
    {
      var currentCycle := now / config.cycle;
      if currentCycle != state.activeCycle {
        var cyclesPassed := currentCycle - state.activeCycle;
        var newPermissions := Min(cyclesPassed * config.limit, config.limit);
        state := State(newPermissions, currentCycle, 0);
      }
      if state.activePermissions > 0 {
        state := State(state.activePermissions - 1, state.activeCycle, 0);
        return 0;
      }
      var nextCycleStart := (state.activeCycle + 1) * config.cycle;
      var toWait := nextCycleStart - now;
      if toWait > config.timeout {
        return -toWait;
      }
      return toWait;
    }

    // `_execute_async` up to the start of the protected function.
    method Execute(now: int) returns (v: Verdict)
      requires config.Valid()
      modifies `state
      ensures state == Reserve(config, old(state), now).0
      ensures v == VerdictOf(now, Reserve(config, old(state), now).1)
    {
      var wait := ReservePermission(now);
      if wait < 0 {
        return Denied(-wait);
      }
      return ExecuteAt(now + wait);
    }

    method Reset()
      modifies `state
      ensures state == Initial(config)
    {
      state := State(config.limit, 0, 0);
    }
  }
}
