// The two mutable metric collectors of the circuit breaker, each operation tied to the function
// of CallMetrics (or Capped, below) that says what happens to the stored calls.

module SlidingWindow {
  import opened CallMetrics

  class SlidingWindowMetrics {
    const shape: Shape
    const slowThresholdMs: real
    var calls: seq<CallOutcome>

    constructor (shape: Shape, slowThresholdMs: real)
      ensures calls == [] && this.shape == shape && this.slowThresholdMs == slowThresholdMs
    {
      this.shape := shape;
      this.slowThresholdMs := slowThresholdMs;
      calls := [];
    }

    method RecordSuccess(durationMs: real, now: real)
      modifies `calls
      ensures calls == Added(shape, old(calls), CallOutcome(now, durationMs, true, durationMs >= slowThresholdMs), now)
    {
      AddCall(Outcome(now, durationMs, true, slowThresholdMs), now);
    }

    method RecordFailure(durationMs: real, now: real)
      modifies `calls
      ensures calls == Added(shape, old(calls), CallOutcome(now, durationMs, false, durationMs >= slowThresholdMs), now)
    {
      AddCall(Outcome(now, durationMs, false, slowThresholdMs), now);
    }

    method GetSnapshot(now: real) returns (snapshot: Snapshot)
      modifies `calls
      ensures calls == Pruned(shape, old(calls), now)
      ensures snapshot == Snap(calls)
    {
      if shape.kind == TimeBased {
        CleanupOldEntries(now);
      }
      snapshot := Snap(calls);
    }

    method Reset()
      modifies `calls
      ensures calls == []
    {
      calls := [];
    }

    method AddCall(o: CallOutcome, now: real)
      modifies `calls
      ensures calls == Added(shape, old(calls), o, now)
    {
      if shape.kind == TimeBased {
        CleanupOldEntries(now);
      }
      calls := calls + [o];
      if shape.kind == CountBased && |calls| > shape.size {
        calls := calls[1..];
      }
    }

    method CleanupOldEntries(now: real)
      modifies `calls
      ensures calls == Pruned(shape, old(calls), now)
    {
      if shape.kind != TimeBased {
        return;
      }
      var windowStart := now - shape.size as real;
      while calls != [] && calls[0].timestamp < windowStart
        invariant DropOld(calls, windowStart) == DropOld(old(calls), windowStart)
        decreases |calls|
      {
        calls := calls[1..];
      }
    }
  }

  // HalfOpenMetrics: a list that stops growing once every permitted call was recorded.
  class HalfOpenMetrics {
    const permittedCalls: int
    const slowThresholdMs: real
    var calls: seq<CallOutcome>

    constructor (permittedCalls: int, slowThresholdMs: real)
      ensures calls == [] && this.permittedCalls == permittedCalls && this.slowThresholdMs == slowThresholdMs
    {
      this.permittedCalls := permittedCalls;
      this.slowThresholdMs := slowThresholdMs;
      calls := [];
    }

    method Record(durationMs: real, success: bool, now: real)
      modifies `calls
      ensures calls == if |old(calls)| >= permittedCalls then old(calls)
                       else old(calls) + [CallOutcome(now, durationMs, success, durationMs >= slowThresholdMs)]
    {
      var outcome := Outcome(now, durationMs, success, slowThresholdMs);
      if |calls| < permittedCalls {
        calls := calls + [outcome];
      }
    }

    method GetSnapshot() returns (snapshot: Snapshot)
      ensures snapshot == Snap(calls)
    {
      snapshot := Snap(calls);
    }

    method IsComplete() returns (complete: bool)
      ensures complete <==> |calls| >= permittedCalls
    {
      complete := |calls| >= permittedCalls;
    }
  }

  function Capped(calls: seq<CallOutcome>, permitted: int, o: CallOutcome): seq<CallOutcome> {
    if |calls| < permitted then calls + [o] else calls
  }
}
