// Configuration of the circuit breaker and the classification of exceptions.

module BreakerConfig {
  import opened Common
  import opened CallMetrics

  // Durations are in seconds.
  datatype Config = Config(
    failureRateThreshold: real,
    slowCallRateThreshold: real,
    slowCallDuration: real,
    permittedInHalfOpen: int,
    window: Shape,
    minimumCalls: int,
    waitInOpen: real,
    maxWaitInHalfOpen: real,
    automaticHalfOpen: bool,
    recordExceptions: seq<string>,
    ignoreExceptions: seq<string>,
    recordPredicate: Option<Exn -> bool>,
    ignorePredicate: Option<Exn -> bool>)
  {
    // What `validate` accepts.
    predicate Valid() {
      && 0.0 < failureRateThreshold <= 100.0
      && 0.0 < slowCallRateThreshold <= 100.0
      && window.size > 0
      && minimumCalls > 0
      && permittedInHalfOpen > 0
      && waitInOpen > 0.0
      && maxWaitInHalfOpen >= 0.0
      && slowCallDuration > 0.0
    }

    function SlowThresholdMs(): real {
      slowCallDuration * 1000.0
    }

    // `should_record_exception`: ignore list, ignore predicate, record list, record predicate.
    predicate ShouldRecord(e: Exn) {
      if InstanceOfAny(e, ignoreExceptions) then false
      else if ignorePredicate.Some? && ignorePredicate.value(e) then false
      else if recordExceptions != [] then InstanceOfAny(e, recordExceptions)
      else if recordPredicate.Some? then recordPredicate.value(e)
      else true
    }

    // What `validate` complains about first.
    function Complaint(): Option<string> {
      if failureRateThreshold <= 0.0 || failureRateThreshold > 100.0 then Some("failure_rate_threshold")
      else if slowCallRateThreshold <= 0.0 || slowCallRateThreshold > 100.0 then Some("slow_call_rate_threshold")
      else if window.size <= 0 then Some("sliding_window_size")
      else if minimumCalls <= 0 then Some("minimum_number_of_calls")
      else if permittedInHalfOpen <= 0 then Some("permitted_calls_in_half_open")
      else if waitInOpen <= 0.0 then Some("wait_duration_in_open_state")
      else if maxWaitInHalfOpen < 0.0 then Some("max_wait_duration_in_half_open")
      else if slowCallDuration <= 0.0 then Some("slow_call_duration_threshold")
      else None
    }
  }

  // The theorems cover every configuration that `validate` lets through, and no other.
  lemma ValidIffNoComplaint(cfg: Config)
    ensures cfg.Valid() <==> cfg.Complaint() == None
  {
  }

  // ---------- Which exceptions count as failures ----------

  ghost predicate Ignored(cfg: Config, e: Exn) {
    || OfClass(e, cfg.ignoreExceptions)
    || (cfg.ignorePredicate.Some? && cfg.ignorePredicate.value(e))
  }

  // An exception that is ignored is never recorded, whatever else matches. Of the others, a record
  // list lets through exactly its classes; without one the record predicate decides, and without
  // either every exception is recorded.
  lemma RecordedExactly(cfg: Config, e: Exn)
    ensures Ignored(cfg, e) ==> !cfg.ShouldRecord(e)
    ensures !Ignored(cfg, e) && cfg.recordExceptions != [] ==>
              (cfg.ShouldRecord(e) <==> OfClass(e, cfg.recordExceptions))
    ensures !Ignored(cfg, e) && cfg.recordExceptions == [] && cfg.recordPredicate.Some? ==>
              (cfg.ShouldRecord(e) <==> cfg.recordPredicate.value(e))
    ensures !Ignored(cfg, e) && cfg.recordExceptions == [] && cfg.recordPredicate.None? ==> cfg.ShouldRecord(e)
  {
    InstanceExactly(e, cfg.ignoreExceptions);
    InstanceExactly(e, cfg.recordExceptions);
  }
}
