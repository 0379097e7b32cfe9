// Whole runs of the rate limiter against a specification by history, and the bounds that follow.

module RateLimiterRuns {
  import opened RateLimiter

  // A call that waits starts `oversleep` nanoseconds after its wait is over.
  datatype Op = Call(at: int, oversleep: nat) | ResetOp

  // `granted`: times of the immediate grants since the last reset. `executed`: times at which
  // protected functions started, those of waiting callers included, over the whole run.
  datatype Limiter = Limiter(state: State, clock: int, granted: seq<int>, executed: seq<int>)

  function Start(cfg: Config): Limiter {
    Limiter(Initial(cfg), 0, [], [])
  }

  function Step(cfg: Config, l: Limiter, op: Op): Limiter
    requires cfg.Valid()
  {
    match op
    case ResetOp => l.(state := Initial(cfg), granted := [])
    case Call(now, oversleep) =>
      var (state, wait) := Reserve(cfg, l.state, now);
      Limiter(state, now,
              if wait == 0 then l.granted + [now] else l.granted,
              match VerdictOf(now, wait)
              case Denied(_) => l.executed
              case ExecuteAt(time) => l.executed + [if time == now then time else time + oversleep])
  }

  function Run(cfg: Config, ops: seq<Op>): Limiter
    requires cfg.Valid()
  {
    if ops == [] then Start(cfg) else Step(cfg, Run(cfg, ops[..|ops| - 1]), ops[|ops| - 1])
  }

  // The clock starts non-negative and never goes backwards.
  ghost predicate Timely(cfg: Config, ops: seq<Op>)
    requires cfg.Valid()
  {
    ops == [] ||
    var before, op := ops[..|ops| - 1], ops[|ops| - 1];
    Timely(cfg, before) && (op.Call? ==> op.at >= Run(cfg, before).clock)
  }

  ghost predicate NoReset(ops: seq<Op>) {
    forall op <- ops :: op.Call?
  }

  // How many of the times lie in the closed interval.
  function CountIn(times: seq<int>, lo: int, hi: int): nat {
    if times == [] then 0
    else
      var t := times[|times| - 1];
      CountIn(times[..|times| - 1], lo, hi) + if lo <= t <= hi then 1 else 0
  }

  function InCycle(cfg: Config, times: seq<int>, c: int): nat {
    CountIn(times, c * cfg.cycle, (c + 1) * cfg.cycle - 1)
  }

  lemma CountAppend(times: seq<int>, t: int, lo: int, hi: int)
    ensures CountIn(times + [t], lo, hi) == CountIn(times, lo, hi) + if lo <= t <= hi then 1 else 0
  {
    assert (times + [t])[..|times|] == times;
  }

  lemma MulOrder(a: int, b: int, d: int)
    requires d > 0
    ensures a <= b <==> a * d <= b * d
  {
    if a <= b {
      assert (b - a) * d >= 0;
    } else {
      assert (a - b) * d > 0;
    }
  }

  // t lies in cycle c iff c == CycleOf(t).
  lemma CycleBounds(cfg: Config, t: int, c: int)
    requires cfg.Valid()
    ensures c * cfg.cycle <= t <= (c + 1) * cfg.cycle - 1 <==> CycleOf(cfg, t) == c
  {
    var q := CycleOf(cfg, t);
    assert t == q * cfg.cycle + t % cfg.cycle;
    MulOrder(c, q, cfg.cycle);
    MulOrder(q + 1, c, cfg.cycle);
    MulOrder(c + 1, q, cfg.cycle);
  }

  lemma CycleMonotone(cfg: Config, t: int, u: int)
    requires cfg.Valid() && t <= u
    ensures CycleOf(cfg, t) <= CycleOf(cfg, u)
  {
    CycleBounds(cfg, t, CycleOf(cfg, t));
    CycleBounds(cfg, u, CycleOf(cfg, u));
    MulOrder(CycleOf(cfg, u) + 1, CycleOf(cfg, t), cfg.cycle);
  }

  // ---------- Refinement of the history specification ----------

  // Permissions left plus grants of the active cycle make up the limit; no cycle got more; nothing
  // was granted in a later cycle.
  ghost predicate Coupled(cfg: Config, l: Limiter)
    requires cfg.Valid()
  {
    && 0 <= l.clock && 0 <= l.state.activeCycle <= CycleOf(cfg, l.clock)
    && 0 <= l.state.activePermissions && l.state.nanosecondsToWait == 0
    && l.state.activePermissions + InCycle(cfg, l.granted, l.state.activeCycle) == cfg.limit
    && (forall c :: InCycle(cfg, l.granted, c) <= cfg.limit)
    && (forall c | c > l.state.activeCycle :: InCycle(cfg, l.granted, c) == 0)
  }

  lemma NextCycleHasFullLimit(cfg: Config, passed: int)
    requires cfg.Valid() && passed > 0
    ensures Min(passed * cfg.limit, cfg.limit) == cfg.limit
  {
    assert (passed - 1) * cfg.limit >= 0;
  }

  lemma RefreshCoupled(cfg: Config, l: Limiter, now: int)
    requires cfg.Valid() && Coupled(cfg, l) && now >= l.clock
    ensures Coupled(cfg, l.(state := Refreshed(cfg, l.state, now), clock := now))
    ensures Refreshed(cfg, l.state, now).activeCycle == CycleOf(cfg, now)
  {
    CycleMonotone(cfg, l.clock, now);
    var c := CycleOf(cfg, now);
    if c != l.state.activeCycle {
      NextCycleHasFullLimit(cfg, c - l.state.activeCycle);
    }
  }

  lemma GrantCoupled(cfg: Config, l: Limiter, now: int)
    requires cfg.Valid() && Coupled(cfg, l) && l.clock == now && l.state.activeCycle == CycleOf(cfg, now)
    requires l.state.activePermissions > 0
    ensures Coupled(cfg, l.(state := State(l.state.activePermissions - 1, l.state.activeCycle, 0),
                            granted := l.granted + [now]))
  {
    forall c ensures InCycle(cfg, l.granted + [now], c)
                     == InCycle(cfg, l.granted, c) + if c == l.state.activeCycle then 1 else 0
    {
      CountAppend(l.granted, now, c * cfg.cycle, (c + 1) * cfg.cycle - 1);
      CycleBounds(cfg, now, c);
    }
  }

  // The next cycle starts after at least one and at most `cycle` nanoseconds.
  lemma WaitBounds(cfg: Config, now: int)
    requires cfg.Valid()
    ensures 0 < (CycleOf(cfg, now) + 1) * cfg.cycle - now <= cfg.cycle
  {
    CycleBounds(cfg, now, CycleOf(cfg, now));
  }

  lemma CallCoupled(cfg: Config, l: Limiter, now: int, oversleep: nat)
    requires cfg.Valid() && Coupled(cfg, l) && now >= l.clock
    ensures Coupled(cfg, Step(cfg, l, Call(now, oversleep)))
  {
    RefreshCoupled(cfg, l, now);
    var r := l.(state := Refreshed(cfg, l.state, now), clock := now);
    if r.state.activePermissions > 0 {
      GrantCoupled(cfg, r, now);
    } else {
      WaitBounds(cfg, now);
    }
  }

  lemma {:induction false} RunCoupled(cfg: Config, ops: seq<Op>)
    requires cfg.Valid() && Timely(cfg, ops)
    ensures Coupled(cfg, Run(cfg, ops))
  {
    if ops != [] {
      RunCoupled(cfg, ops[..|ops| - 1]);
      if ops[|ops| - 1].Call? {
        CallCoupled(cfg, Run(cfg, ops[..|ops| - 1]), ops[|ops| - 1].at, ops[|ops| - 1].oversleep);
      }
    } else {
      assert CycleOf(cfg, 0) == 0;
    }
  }

  // A reservation at any time after any run is granted iff fewer than `limit` grants were made in
  // the current cycle since the last reset; otherwise it waits for the start of the next cycle, or
  // is denied with that time if it exceeds the timeout. Only a grant uses a permission.
  lemma ReserveExact(cfg: Config, ops: seq<Op>, now: int, l: Limiter, wait: int)
    requires cfg.Valid() && Timely(cfg, ops) && l == Run(cfg, ops) && now >= l.clock
    requires wait == (CycleOf(cfg, now) + 1) * cfg.cycle - now
    ensures 0 < wait <= cfg.cycle
    ensures Reserve(cfg, l.state, now).1 ==
            if InCycle(cfg, l.granted, CycleOf(cfg, now)) < cfg.limit then 0
            else if wait > cfg.timeout then -wait else wait
    ensures InCycle(cfg, Step(cfg, l, Call(now, 0)).granted, CycleOf(cfg, now))
            + Reserve(cfg, l.state, now).0.activePermissions == cfg.limit
  {
    RunCoupled(cfg, ops);
    RefreshCoupled(cfg, l, now);
    WaitBounds(cfg, now);
    CallCoupled(cfg, l, now, 0);
  }

  // What a call is told after any run: with fewer than `limit` grants in the current cycle it starts at
  // once; otherwise it starts with the next cycle, or is denied with the time to it if that exceeds
  // the timeout.
  lemma ExecuteExact(cfg: Config, ops: seq<Op>, now: int, l: Limiter, next: int)
    requires cfg.Valid() && Timely(cfg, ops) && l == Run(cfg, ops) && now >= l.clock
    requires next == (CycleOf(cfg, now) + 1) * cfg.cycle
    ensures VerdictOf(now, Reserve(cfg, l.state, now).1) ==
            if InCycle(cfg, l.granted, CycleOf(cfg, now)) < cfg.limit then ExecuteAt(now)
            else if next - now > cfg.timeout then Denied(next - now) else ExecuteAt(next)
  {
    ReserveExact(cfg, ops, now, l, next - now);
  }

  // The clock must be non-negative: before cycle 0 a fresh limiter holds a negative balance.
  lemma FreshGrantsIff(cfg: Config, now: int)
    requires cfg.Valid()
    ensures Reserve(cfg, Initial(cfg), now).1 == 0 <==> now >= 0
  {
    var c := CycleOf(cfg, now);
    CycleSign(cfg, now);
    WaitBounds(cfg, now);
    MulOrder(c, -1, cfg.limit);
    if c > 0 {
      NextCycleHasFullLimit(cfg, c);
    }
  }

  // Nor must it go backwards: a reading from an earlier cycle takes back the permissions of every cycle
  // it misses, so nothing is granted.
  lemma EarlierReading(cfg: Config, s: State, now: int)
    requires cfg.Valid() && CycleOf(cfg, now) < s.activeCycle
    ensures Reserve(cfg, s, now).0.activePermissions == -((s.activeCycle - CycleOf(cfg, now)) * cfg.limit) < 0
    ensures Reserve(cfg, s, now).1 != 0
  {
    WaitBounds(cfg, now);
    MulOrder(1, s.activeCycle - CycleOf(cfg, now), cfg.limit);
  }

  lemma CycleSign(cfg: Config, now: int)
    requires cfg.Valid()
    ensures CycleOf(cfg, now) >= 0 <==> now >= 0
  {
    CycleBounds(cfg, now, CycleOf(cfg, now));
    MulOrder(0, CycleOf(cfg, now), cfg.cycle);
    MulOrder(CycleOf(cfg, now) + 1, 0, cfg.cycle);
  }

  // ---------- Sliding intervals ----------

  lemma {:induction false} CountSplits(times: seq<int>, lo: int, mid: int, hi: int)
    ensures CountIn(times, lo, hi) <= CountIn(times, lo, mid - 1) + CountIn(times, mid, hi)
  {
    if times != [] {
      CountSplits(times[..|times| - 1], lo, mid, hi);
    }
  }

  lemma {:induction false} CountWidens(times: seq<int>, lo: int, hi: int, lo2: int, hi2: int)
    requires lo2 <= lo && hi <= hi2
    ensures CountIn(times, lo, hi) <= CountIn(times, lo2, hi2)
  {
    if times != [] {
      CountWidens(times[..|times| - 1], lo, hi, lo2, hi2);
    }
  }

  lemma {:induction false} CountEmpty(times: seq<int>, lo: int, hi: int)
    requires hi < lo
    ensures CountIn(times, lo, hi) == 0
  {
    if times != [] {
      CountEmpty(times[..|times| - 1], lo, hi);
    }
  }

  // An interval inside n consecutive cycles holds at most n times what one cycle holds at most.
  lemma {:induction false} CyclesBound(cfg: Config, times: seq<int>, most: nat, lo: int, hi: int, c: int, n: nat)
    requires cfg.Valid() && forall k :: InCycle(cfg, times, k) <= most
    requires c * cfg.cycle <= lo && hi <= (c + n) * cfg.cycle - 1
    ensures CountIn(times, lo, hi) <= most * n
    decreases n
  {
    if n == 0 {
      CountEmpty(times, lo, hi);
    } else {
      var last := c + n - 1;
      assert last + 1 == c + n;
      CyclesBound(cfg, times, most, lo, last * cfg.cycle - 1, c, n - 1);
      CountSplits(times, lo, last * cfg.cycle, hi);
      CountWidens(times, last * cfg.cycle, hi, last * cfg.cycle, (last + 1) * cfg.cycle - 1);
      assert InCycle(cfg, times, last) <= most;
      assert most * n == most * (n - 1) + most;
    }
  }

  function CeilDiv(t: nat, d: int): int
    requires d > 0
  {
    (t + d - 1) / d
  }

  lemma CeilDivCovers(t: nat, d: int)
    requires d > 0
    ensures CeilDiv(t, d) >= 0 && (CeilDiv(t, d) - 1) * d < t <= CeilDiv(t, d) * d
  {
    var q := (t + d - 1) / d;
    assert t + d - 1 == q * d + (t + d - 1) % d;
  }

  lemma IntervalCycles(cfg: Config, lo: int, length: nat, c: int, q: int)
    requires cfg.Valid() && c == CycleOf(cfg, lo) && length <= q * cfg.cycle
    ensures c * cfg.cycle <= lo && lo + length <= (c + (q + 1)) * cfg.cycle - 1
  {
    CycleBounds(cfg, lo, c);
    assert (c + (q + 1)) * cfg.cycle == (c + 1) * cfg.cycle + q * cfg.cycle;
  }

  // With timeout 0 nobody waits, so the grants are the executions and the bounds hold for these.
  lemma {:induction false} ZeroTimeoutExecutesGrants(cfg: Config, ops: seq<Op>)
    requires cfg.Valid() && Timely(cfg, ops) && NoReset(ops) && cfg.timeout == 0
    ensures Run(cfg, ops).executed == Run(cfg, ops).granted
  {
    if ops != [] {
      var before, op := ops[..|ops| - 1], ops[|ops| - 1];
      ZeroTimeoutExecutesGrants(cfg, before);
      RunCoupled(cfg, before);
      RefreshCoupled(cfg, Run(cfg, before), op.at);
      WaitBounds(cfg, op.at);
    }
  }

  // Any closed interval of length T holds at most limit * (ceil(T / cycle) + 1) grants since the
  // last reset, and with timeout 0 at most that many executions.
  lemma SlidingBound(cfg: Config, ops: seq<Op>, lo: int, length: nat)
    requires cfg.Valid() && Timely(cfg, ops)
    ensures CountIn(Run(cfg, ops).granted, lo, lo + length) <= cfg.limit * (CeilDiv(length, cfg.cycle) + 1)
    ensures NoReset(ops) && cfg.timeout == 0 ==>
              CountIn(Run(cfg, ops).executed, lo, lo + length) <= cfg.limit * (CeilDiv(length, cfg.cycle) + 1)
  {
    if NoReset(ops) && cfg.timeout == 0 {
      ZeroTimeoutExecutesGrants(cfg, ops);
    }
    RunCoupled(cfg, ops);
    CeilDivCovers(length, cfg.cycle);
    var c, q := CycleOf(cfg, lo), CeilDiv(length, cfg.cycle);
    IntervalCycles(cfg, lo, length, c, q);
    CyclesBound(cfg, Run(cfg, ops).granted, cfg.limit, lo, lo + length, c, q + 1);
  }

  // ---------- Executions ----------

  // How long the i-th call of a run oversleeps if it has to wait.
  type Pattern = nat -> nat

  ghost predicate Follows(ops: seq<Op>, f: Pattern) {
    forall i: nat | i < |ops| && ops[i].Call? :: ops[i].oversleep == f(i)
  }

  ghost predicate Bounded(f: Pattern, most: nat) {
    forall i :: f(i) <= most
  }

  lemma RunLast(cfg: Config, ops: seq<Op>, op: Op)
    requires cfg.Valid()
    ensures Run(cfg, ops + [op]) == Step(cfg, Run(cfg, ops), op)
    ensures Timely(cfg, ops + [op]) <==> Timely(cfg, ops) && (op.Call? ==> op.at >= Run(cfg, ops).clock)
  {
    assert (ops + [op])[..|ops|] == ops;
  }

  // While permissions are left, a call is granted and executed at once.
  lemma GrantedCall(cfg: Config, l: Limiter, t: int, oversleep: nat, permissions: int)
    requires cfg.Valid() && permissions > 0
    requires Refreshed(cfg, l.state, t) == State(permissions, CycleOf(cfg, t), 0)
    ensures var next := Step(cfg, l, Call(t, oversleep));
      && next == Limiter(State(permissions - 1, CycleOf(cfg, t), 0), t, l.granted + [t], l.executed + [t])
      && Refreshed(cfg, next.state, t) == next.state
  {
  }

  // A run of this pattern without resets, and where it leads.
  ghost predicate Leads(cfg: Config, ops: seq<Op>, f: Pattern, l: Limiter)
    requires cfg.Valid()
  {
    Timely(cfg, ops) && NoReset(ops) && Follows(ops, f) && l == Run(cfg, ops)
  }

  lemma OneMoreCall(cfg: Config, ops: seq<Op>, f: Pattern, l: Limiter, t: int) returns (longer: seq<Op>, next: Limiter)
    requires cfg.Valid() && Leads(cfg, ops, f, l) && t >= l.clock
    ensures next == Step(cfg, l, Call(t, f(|ops|))) && Leads(cfg, longer, f, next) && |longer| == |ops| + 1
  {
    longer, next := ops + [Call(t, f(|ops|))], Step(cfg, l, Call(t, f(|ops|)));
    RunLast(cfg, ops, Call(t, f(|ops|)));
  }

  // A burst within the limit is granted at once.
  lemma {:induction false} BurstGranted(cfg: Config, t: int, n: nat, f: Pattern) returns (ops: seq<Op>, l: Limiter)
    requires cfg.Valid() && n <= cfg.limit && t >= 0 && CycleOf(cfg, t) == 0
    ensures Leads(cfg, ops, f, l) && t >= l.clock && Refreshed(cfg, l.state, t) == State(cfg.limit - n, 0, 0)
  {
    if n == 0 {
      ops, l := [], Start(cfg);
    } else {
      var before: Limiter;
      ops, before := BurstGranted(cfg, t, n - 1, f);
      GrantedCall(cfg, before, t, f(|ops|), cfg.limit - (n - 1));
      ops, l := OneMoreCall(cfg, ops, f, before, t);
    }
  }

  ghost predicate KeepsLimit(cfg: Config, ops: seq<Op>)
    requires cfg.Valid()
  {
    forall c :: InCycle(cfg, Run(cfg, ops).executed, c) <= cfg.limit
  }

  // Without permissions, a call at the last instant of cycle 0 waits one nanosecond and takes no
  // permission of cycle 1.
  lemma WaitingCall(cfg: Config, l: Limiter, late: int, oversleep: nat)
    requires cfg.Valid() && cfg.timeout > 0 && late == cfg.cycle - 1 && CycleOf(cfg, late) == 0
    requires Refreshed(cfg, l.state, late) == State(0, 0, 0)
    ensures Step(cfg, l, Call(late, oversleep)) ==
            Limiter(State(0, 0, 0), late, l.granted, l.executed + [cfg.cycle + oversleep])
  {
  }

  // No permission is left in cycle 0, and n waiters start within `most` nanoseconds of cycle 1.
  ghost predicate Piled(cfg: Config, l: Limiter, late: int, n: int, most: nat)
    requires cfg.Valid()
  {
    Refreshed(cfg, l.state, late) == State(0, 0, 0) && CountIn(l.executed, cfg.cycle, cfg.cycle + most) >= n
  }

  lemma OneMoreWaiter(cfg: Config, l: Limiter, late: int, oversleep: nat, n: int, most: nat, next: Limiter)
    requires cfg.Valid() && cfg.timeout > 0 && late == cfg.cycle - 1 && oversleep <= most
    requires CycleOf(cfg, late) == 0 && Piled(cfg, l, late, n, most) && next == Step(cfg, l, Call(late, oversleep))
    ensures Piled(cfg, next, late, n + 1, most) && next.clock == late
  {
    WaitingCall(cfg, l, late, oversleep);
    CountAppend(l.executed, cfg.cycle + oversleep, cfg.cycle, cfg.cycle + most);
  }

  // Of limit + n calls at the last instant of cycle 0, n wait, and start at the first of cycle 1 or
  // later by what they oversleep.
  lemma {:induction false} WaitersPileUp(cfg: Config, n: nat, f: Pattern, most: nat, late: int)
    returns (ops: seq<Op>, l: Limiter)
    requires cfg.Valid() && cfg.timeout > 0 && late == cfg.cycle - 1 && CycleOf(cfg, late) == 0 && Bounded(f, most)
    ensures Leads(cfg, ops, f, l) && late >= l.clock && Piled(cfg, l, late, n, most)
  {
    if n == 0 {
      ops, l := BurstGranted(cfg, late, cfg.limit, f);
    } else {
      var before: Limiter;
      ops, before := WaitersPileUp(cfg, n - 1, f, most, late);
      OneMoreWaiter(cfg, before, late, f(|ops|), n - 1, most, Step(cfg, before, Call(late, f(|ops|))));
      ops, l := OneMoreCall(cfg, ops, f, before, late);
    }
  }

  // Whether at least n of the times lie in one cycle.
  ghost predicate Crowded(cfg: Config, times: seq<int>, n: nat)
    requires cfg.Valid()
  {
    exists c :: InCycle(cfg, times, c) >= n
  }

  // More than (n - 1) * k times within k cycles leave n in one of them.
  lemma Pigeonhole(cfg: Config, times: seq<int>, n: nat, lo: int, hi: int, c: int, k: nat)
    requires cfg.Valid() && n > 0 && CountIn(times, lo, hi) > (n - 1) * k
    requires c * cfg.cycle <= lo && hi <= (c + k) * cfg.cycle - 1
    ensures Crowded(cfg, times, n)
  {
    if forall c :: InCycle(cfg, times, c) <= n - 1 {
      CyclesBound(cfg, times, n - 1, lo, hi, c, k);
    }
  }

  // A run of this pattern of oversleeping in which at least n functions start within one cycle.
  ghost predicate Overruns(cfg: Config, ops: seq<Op>, n: nat, f: Pattern)
    requires cfg.Valid()
  {
    Timely(cfg, ops) && NoReset(ops) && Follows(ops, f) && Crowded(cfg, Run(cfg, ops).executed, n)
  }

  ghost predicate CanOverrun(cfg: Config, n: nat, f: Pattern)
    requires cfg.Valid()
  {
    exists ops :: Overruns(cfg, ops, n, f)
  }

  // The starts of waiters that oversleep by at most `most` fall into this many cycles.
  function Spread(cfg: Config, most: nat): (k: nat)
    requires cfg.Valid()
    ensures k > 0 && cfg.cycle + most <= (1 + k) * cfg.cycle - 1
  {
    WaitBounds(cfg, most);
    CycleSign(cfg, most);
    CycleOf(cfg, most) + 1
  }

  lemma Enough(n: nat, k: nat)
    requires n > 0 && k > 0
    ensures n * k > (n - 1) * k
  {
    assert n * k == (n - 1) * k + k;
  }

  lemma WaitersCrowd(cfg: Config, times: seq<int>, n: nat, most: nat, k: nat)
    requires cfg.Valid() && n > 0 && cfg.cycle + most <= (1 + k) * cfg.cycle - 1
    requires CountIn(times, cfg.cycle, cfg.cycle + most) > (n - 1) * k
    ensures Crowded(cfg, times, n)
  {
    Pigeonhole(cfg, times, n, cfg.cycle, cfg.cycle + most, 1, k);
  }

  lemma Overrun(cfg: Config, n: nat, f: Pattern, most: nat) returns (ops: seq<Op>)
    requires cfg.Valid() && cfg.timeout > 0 && Bounded(f, most) && n > 0
    ensures Overruns(cfg, ops, n, f)
  {
    var k := Spread(cfg, most);
    var waiters := n * k;
    Enough(n, k);
    CycleBounds(cfg, cfg.cycle - 1, 0);
    var l: Limiter;
    ops, l := WaitersPileUp(cfg, waiters, f, most, cfg.cycle - 1);
    WaitersCrowd(cfg, l.executed, n, most, k);
  }

  // With timeout 0 the limit bounds the executions per cycle in all runs. With any other timeout
  // nothing does, whatever the waiters oversleep within any bound, since any number of them may wait
  // for the same cycle.
  lemma LimitBoundsExecutionsIff(cfg: Config)
    requires cfg.Valid()
    ensures cfg.timeout == 0 <==> forall ops :: Timely(cfg, ops) && NoReset(ops) ==> KeepsLimit(cfg, ops)
    ensures cfg.timeout > 0 <==>
            forall n: nat, f: Pattern, most: nat | n > 0 && Bounded(f, most) :: CanOverrun(cfg, n, f)
  {
    var exact: Pattern := _ => 0;
    assert Bounded(exact, 0);
    if cfg.timeout == 0 {
      forall ops | Timely(cfg, ops) && NoReset(ops) ensures KeepsLimit(cfg, ops) {
        ZeroTimeoutExecutesGrants(cfg, ops);
        RunCoupled(cfg, ops);
      }
      assert !CanOverrun(cfg, cfg.limit + 1, exact);
    } else {
      forall n: nat, f: Pattern, most: nat | n > 0 && Bounded(f, most) ensures CanOverrun(cfg, n, f) {
        var ops := Overrun(cfg, n, f, most);
      }
      assert CanOverrun(cfg, cfg.limit + 1, exact);
    }
  }
}
