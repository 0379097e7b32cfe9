// The two retry loops, each against a specification by the decisive attempt, and exactly when
// they agree.

module Retries {
  import opened Common

  // `interval_function` overrides `wait_duration`; waits are in seconds.
  datatype Config = Config(
    maxAttempts: int,
    waitDuration: real,
    intervalFunction: Option<int -> real>,
    retryOnException: Exn -> bool,
    retryOnResult: Option<int -> bool>,
    failAfterMaxAttempts: bool,
    retryExceptions: seq<string>,
    abortExceptions: seq<string>)
  {
    predicate Valid() {
      && maxAttempts > 0
      && waitDuration >= 0.0
      && (forall c :: c in retryExceptions ==> c !in abortExceptions)
    }

    // What `validate` complains about first.
    function Complaint(): Option<string> {
      if maxAttempts <= 0 then Some("max_attempts")
      else if waitDuration < 0.0 then Some("wait_duration")
      else if exists c :: c in retryExceptions && c in abortExceptions then Some("retry_exceptions")
      else None
    }

    predicate ShouldRetry(e: Exn) {
      if InstanceOfAny(e, abortExceptions) then false
      else if retryExceptions != [] then InstanceOfAny(e, retryExceptions) && retryOnException(e)
      else retryOnException(e)
    }

    function WaitDuration(attempt: int): real {
      if intervalFunction.Some? then intervalFunction.value(attempt) else waitDuration
    }
  }

  lemma ValidIffNoComplaint(cfg: Config)
    ensures cfg.Valid() <==> cfg.Complaint() == None
  {
  }

  // ---------- Which exceptions are retried ----------

  // The lists rule another attempt out.
  ghost predicate Hopeless(cfg: Config, e: Exn) {
    || OfClass(e, cfg.abortExceptions)
    || (cfg.retryExceptions != [] && !OfClass(e, cfg.retryExceptions))
  }

  // An exception that passes the lists is retried iff the predicate says so, and no other is.
  lemma RetriedExactly(cfg: Config, e: Exn)
    ensures cfg.ShouldRetry(e) <==> !Hopeless(cfg, e) && cfg.retryOnException(e)
  {
    InstanceExactly(e, cfg.abortExceptions);
    InstanceExactly(e, cfg.retryExceptions);
  }

  // What attempt number n of the protected function does.
  datatype Outcome = Returned(value: int) | Raised(error: Exn)
  type Script = nat -> Outcome

  datatype End = Value(value: int) | Failure(error: Exn) | MaxRetriesExceeded(last: Exn, attempts: int)

  datatype Event =
    | OnRetry(attempt: int, cause: Outcome, wait: real)
    | OnSuccess(attempt: int, lastException: Option<Exn>)
    | OnError(attempt: int, error: Exn)
    | OnIgnoredError(attempt: int, error: Exn)

  // Raised by time.sleep for a negative argument; asyncio.sleep returns at once instead.
  const NEGATIVE_SLEEP := Exn({"ValueError", "Exception"}, "sleep length must be non-negative")

  // ---------- Specification ----------

  // The outcome asks for another attempt.
  predicate Retriable(cfg: Config, o: Outcome) {
    match o
    case Returned(v) => cfg.retryOnResult.Some? && cfg.retryOnResult.value(v)
    case Raised(e) => cfg.ShouldRetry(e)
  }

  // Attempt k is the first that asks for no other, or the last allowed.
  ghost predicate Decisive(cfg: Config, script: Script, k: nat) {
    && 1 <= k <= cfg.maxAttempts
    && (k == cfg.maxAttempts || !Retriable(cfg, script(k)))
    && forall j :: 1 <= j < k ==> Retriable(cfg, script(j))
  }

  // What leaves the call when o is the outcome of the decisive attempt k.
  function EndOf(cfg: Config, o: Outcome, k: nat): End {
    match o
    case Returned(v) => Value(v)
    case Raised(e) =>
      if cfg.ShouldRetry(e) && cfg.failAfterMaxAttempts then MaxRetriesExceeded(e, k) else Failure(e)
  }

  function TerminalEvent(cfg: Config, script: Script, k: nat): Event
    requires k >= 1
  {
    match script(k)
    case Returned(_) => OnSuccess(k, LastException(script, k - 1))
    case Raised(e) => if cfg.ShouldRetry(e) then OnError(k, e) else OnIgnoredError(k, e)
  }

  // The latest exception among attempts 1..k.
  function LastException(script: Script, k: nat): Option<Exn> {
    if k == 0 then None
    else match script(k)
      case Raised(e) => Some(e)
      case Returned(_) => LastException(script, k - 1)
  }

  // The n-th sleep is what the interval function says for n, or the plain wait_duration.
  ghost predicate SleepsFor(cfg: Config, sleeps: seq<real>, n: nat) {
    && |sleeps| == n
    && (cfg.intervalFunction.Some? ==> forall i :: 0 <= i < n ==> sleeps[i] == cfg.intervalFunction.value(i + 1))
    && (cfg.intervalFunction.None? ==> forall i :: 0 <= i < n ==> sleeps[i] == cfg.waitDuration)
  }

  // on_retry for attempts 1..n, in order.
  ghost predicate RetryEvents(cfg: Config, script: Script, events: seq<Event>, n: nat) {
    |events| == n && forall i :: 0 <= i < n ==> events[i] == OnRetry(i + 1, script(i + 1), cfg.WaitDuration(i + 1))
  }

  // on_retry for every attempt but the last, then exactly one terminal event.
  ghost predicate EventGrammar(cfg: Config, script: Script, calls: nat, events: seq<Event>) {
    && calls >= 1 && |events| == calls
    && RetryEvents(cfg, script, events[..calls - 1], calls - 1)
    && events[calls - 1] == TerminalEvent(cfg, script, calls)
  }

  ghost predicate AsyncSpec(cfg: Config, script: Script, calls: nat, sleeps: seq<real>, end: End) {
    && Decisive(cfg, script, calls)
    && SleepsFor(cfg, sleeps, calls - 1)
    && end == EndOf(cfg, script(calls), calls)
  }

  // The synchronous loop also stops where the sleep before the next attempt would be negative.
  ghost predicate SyncSpec(cfg: Config, script: Script, calls: nat, sleeps: seq<real>, end: End) {
    && 1 <= calls <= cfg.maxAttempts
    && (forall j :: 1 <= j < calls ==> Retriable(cfg, script(j)) && cfg.WaitDuration(j) >= 0.0)
    && SleepsFor(cfg, sleeps, calls - 1)
    && if calls < cfg.maxAttempts && Retriable(cfg, script(calls))
       then cfg.WaitDuration(calls) < 0.0 && end == Failure(NEGATIVE_SLEEP)
       else end == EndOf(cfg, script(calls), calls)
  }

  // ---------- The loops ----------

  class Retry {
    const config: Config

    constructor (config: Config)
      requires config.Valid()
      ensures this.config == config
    {
      this.config := config;
    }

    method ExecuteSync(script: Script) returns (calls: nat, sleeps: seq<real>, end: End)
      requires config.Valid()
      ensures SyncSpec(config, script, calls, sleeps, end)
    {
      calls, sleeps, end := 0, [], Value(0);
      var attempt := 1;
      while attempt <= config.maxAttempts
        invariant 1 <= attempt <= config.maxAttempts && calls == attempt - 1
        invariant forall j :: 1 <= j < attempt ==> Retriable(config, script(j)) && config.WaitDuration(j) >= 0.0
        invariant SleepsFor(config, sleeps, attempt - 1)
        decreases config.maxAttempts - attempt
      {
        var outcome := script(attempt);
        calls := calls + 1;
        var caught: Exn;
        match outcome {
          case Returned(v) =>
            if config.retryOnResult.None? || !config.retryOnResult.value(v) || attempt >= config.maxAttempts {
              end := Value(v);
              return;
            }
            var wait := config.WaitDuration(attempt);
            if wait >= 0.0 {
              sleeps := sleeps + [wait];
              attempt := attempt + 1;
              continue;
            }
            caught := NEGATIVE_SLEEP;  // raised inside the try block
          case Raised(e) => caught := e;
        }
        if !config.ShouldRetry(caught) {
          end := Failure(caught);
          return;
        }
        if attempt < config.maxAttempts {
          var wait := config.WaitDuration(attempt);
          if wait < 0.0 {
            end := Failure(NEGATIVE_SLEEP);  // raised inside the handler
            return;
          }
          sleeps := sleeps + [wait];
        } else {
          end := if config.failAfterMaxAttempts then MaxRetriesExceeded(caught, attempt) else Failure(caught);
          return;
        }
        attempt := attempt + 1;
      }
      assert false;
    }

    method ExecuteWithRetry(script: Script) returns (calls: nat, sleeps: seq<real>, end: End, events: seq<Event>)
      requires config.Valid()
      ensures AsyncSpec(config, script, calls, sleeps, end)
      ensures EventGrammar(config, script, calls, events)
    {
      calls, sleeps, end, events := 0, [], Value(0), [];
      var lastException: Option<Exn> := None;
      var attempt := 1;
      while attempt <= config.maxAttempts
        invariant 1 <= attempt <= config.maxAttempts && calls == attempt - 1
        invariant forall j :: 1 <= j < attempt ==> Retriable(config, script(j))
        invariant SleepsFor(config, sleeps, attempt - 1)
        invariant RetryEvents(config, script, events, attempt - 1)
        invariant lastException == LastException(script, attempt - 1)
        decreases config.maxAttempts - attempt
      {
        var outcome := script(attempt);
        calls := calls + 1;
        match outcome {
          case Returned(v) =>
            if config.retryOnResult.Some? && config.retryOnResult.value(v) && attempt < config.maxAttempts {
              var wait := config.WaitDuration(attempt);
              events := events + [OnRetry(attempt, outcome, wait)];
              sleeps := sleeps + [wait];
            } else {
              events := events + [OnSuccess(attempt, lastException)];
              end := Value(v);
              return;
            }
          case Raised(e) =>
            lastException := Some(e);
            if !config.ShouldRetry(e) {
              events := events + [OnIgnoredError(attempt, e)];
              end := Failure(e);
              return;
            }
            if attempt < config.maxAttempts {
              var wait := config.WaitDuration(attempt);
              events := events + [OnRetry(attempt, outcome, wait)];
              sleeps := sleeps + [wait];
            } else {
              events := events + [OnError(attempt, e)];
              end := if config.failAfterMaxAttempts then MaxRetriesExceeded(e, attempt) else Failure(e);
              return;
            }
        }
        attempt := attempt + 1;
      }
      assert false;
    }
  }

  // ---------- Equivalence ----------

  // Every script has exactly one decisive attempt.
  lemma DecisiveUnique(cfg: Config, script: Script) returns (k: nat)
    requires cfg.Valid()
    ensures Decisive(cfg, script, k) && forall j: nat :: Decisive(cfg, script, j) ==> j == k
  {
    k := DecisiveFrom(cfg, script, 1);
    forall j: nat | Decisive(cfg, script, j) ensures j == k {
      assert j < k ==> Retriable(cfg, script(j));
      assert k < j ==> Retriable(cfg, script(k));
    }
  }

  lemma {:induction false} DecisiveFrom(cfg: Config, script: Script, n: nat) returns (k: nat)
    requires 1 <= n <= cfg.maxAttempts && forall j :: 1 <= j < n ==> Retriable(cfg, script(j))
    ensures Decisive(cfg, script, k)
    decreases cfg.maxAttempts - n
  {
    if n == cfg.maxAttempts || !Retriable(cfg, script(n)) {
      k := n;
    } else {
      k := DecisiveFrom(cfg, script, n + 1);
    }
  }

  // Both loops make the same calls and sleeps and end the same way iff no wait before the decisive
  // attempt is negative.
  lemma LoopsAgreeIff(cfg: Config, script: Script,
                      calls: nat, sleeps: seq<real>, end: End,
                      calls': nat, sleeps': seq<real>, end': End)
    requires SyncSpec(cfg, script, calls, sleeps, end) && AsyncSpec(cfg, script, calls', sleeps', end')
    ensures (calls, sleeps, end) == (calls', sleeps', end')
            <==> forall j :: 1 <= j < calls' ==> cfg.WaitDuration(j) >= 0.0
  {
    assert calls < calls' ==> Retriable(cfg, script(calls));
    assert calls' < calls ==> Retriable(cfg, script(calls'));
    if calls == calls' {
      assert sleeps == sleeps';
    }
  }

  // What one of the two loops did.
  ghost predicate Ran(cfg: Config, script: Script, calls: nat, sleeps: seq<real>, end: End) {
    SyncSpec(cfg, script, calls, sleeps, end) || AsyncSpec(cfg, script, calls, sleeps, end)
  }

  // In both loops an exception the lists rule out ends the call there and leaves it unchanged.
  lemma HopelessEndsCall(cfg: Config, script: Script, calls: nat, sleeps: seq<real>, end: End, k: nat, e: Exn)
    requires Ran(cfg, script, calls, sleeps, end) && 1 <= k <= calls && script(k) == Raised(e) && Hopeless(cfg, e)
    ensures calls == k && end == Failure(e)
  {
    RetriedExactly(cfg, e);
    assert k < calls ==> Retriable(cfg, script(k));
  }

  // Before the last attempt, any other exception is followed by one more iff the predicate wants it;
  // the synchronous loop also needs a wait that is not negative.
  lemma PredicateDecides(cfg: Config, script: Script, calls: nat, sleeps: seq<real>, end: End, k: nat, e: Exn)
    requires 1 <= k <= calls && k < cfg.maxAttempts && script(k) == Raised(e) && !Hopeless(cfg, e)
    ensures AsyncSpec(cfg, script, calls, sleeps, end) ==> (k < calls <==> cfg.retryOnException(e))
    ensures SyncSpec(cfg, script, calls, sleeps, end) ==>
              (k < calls <==> cfg.retryOnException(e) && cfg.WaitDuration(k) >= 0.0)
  {
    RetriedExactly(cfg, e);
    if k < calls {
      assert AsyncSpec(cfg, script, calls, sleeps, end) ==> Retriable(cfg, script(k));
      assert SyncSpec(cfg, script, calls, sleeps, end) ==> Retriable(cfg, script(k));
    }
  }

  ghost predicate Agree(cfg: Config, script: Script) {
    forall calls: nat, sleeps, end, calls': nat, sleeps', end' ::
      SyncSpec(cfg, script, calls, sleeps, end) && AsyncSpec(cfg, script, calls', sleeps', end')
      ==> (calls, sleeps, end) == (calls', sleeps', end')
  }

  ghost predicate NoNegativeWait(cfg: Config) {
    forall j :: 1 <= j < cfg.maxAttempts ==> cfg.WaitDuration(j) >= 0.0
  }

  function Waits(cfg: Config, n: nat): seq<real> {
    seq(n, i => cfg.WaitDuration(i + 1))
  }

  // The two loops agree on every script iff the configuration has no negative wait that can be
  // reached, or retries nothing at all.
  lemma AlwaysAgreeIff(cfg: Config)
    requires cfg.Valid()
    ensures (forall script: Script :: Agree(cfg, script))
            <==> NoNegativeWait(cfg) || forall o: Outcome :: !Retriable(cfg, o)
  {
    if NoNegativeWait(cfg) || forall o: Outcome :: !Retriable(cfg, o) {
      forall script: Script ensures Agree(cfg, script) {
        AgreeWithoutNegativeWait(cfg, script);
      }
    } else {
      var o: Outcome :| Retriable(cfg, o);
      var j :| 1 <= j < cfg.maxAttempts && cfg.WaitDuration(j) < 0.0;
      DifferAtNegativeWait(cfg, o, FirstNegative(cfg, j));
      assert !Agree(cfg, n => o);
    }
  }

  lemma AgreeWithoutNegativeWait(cfg: Config, script: Script)
    requires NoNegativeWait(cfg) || forall o: Outcome :: !Retriable(cfg, o)
    ensures Agree(cfg, script)
  {
    forall calls: nat, sleeps, end, calls': nat, sleeps', end'
      | SyncSpec(cfg, script, calls, sleeps, end) && AsyncSpec(cfg, script, calls', sleeps', end')
      ensures (calls, sleeps, end) == (calls', sleeps', end')
    {
      assert calls' > 1 ==> Retriable(cfg, script(1));
      LoopsAgreeIff(cfg, script, calls, sleeps, end, calls', sleeps', end');
    }
  }

  ghost function FirstNegative(cfg: Config, j: nat): (k: nat)
    requires j >= 1 && cfg.WaitDuration(j) < 0.0
    ensures 1 <= k <= j && cfg.WaitDuration(k) < 0.0
    ensures forall i :: 1 <= i < k ==> cfg.WaitDuration(i) >= 0.0
  {
    if exists i :: 1 <= i < j && cfg.WaitDuration(i) < 0.0 then
      var i :| 1 <= i < j && cfg.WaitDuration(i) < 0.0;
      FirstNegative(cfg, i)
    else j
  }

  // On an outcome that always asks for another attempt the synchronous loop fails at the first
  // negative wait, and the asynchronous one uses up its attempts.
  lemma DifferAtNegativeWait(cfg: Config, o: Outcome, k: nat)
    requires Retriable(cfg, o) && 1 <= k < cfg.maxAttempts && cfg.WaitDuration(k) < 0.0
    requires forall i :: 1 <= i < k ==> cfg.WaitDuration(i) >= 0.0
    ensures SyncSpec(cfg, n => o, k, Waits(cfg, k - 1), Failure(NEGATIVE_SLEEP))
    ensures AsyncSpec(cfg, n => o, cfg.maxAttempts, Waits(cfg, cfg.maxAttempts - 1), EndOf(cfg, o, cfg.maxAttempts))
    ensures !Agree(cfg, n => o) && "ValueError" in NEGATIVE_SLEEP.classes
  {
    var script: Script := n => o;
    var end := EndOf(cfg, o, cfg.maxAttempts);
    assert SyncSpec(cfg, script, k, Waits(cfg, k - 1), Failure(NEGATIVE_SLEEP));
    assert AsyncSpec(cfg, script, cfg.maxAttempts, Waits(cfg, cfg.maxAttempts - 1), end);
  }

  // The success event carries the exception of the latest attempt that raised one.
  lemma {:induction false} LastExceptionExact(script: Script, k: nat)
    ensures match LastException(script, k)
            case None => forall j :: 1 <= j <= k ==> script(j).Returned?
            case Some(e) => exists j :: 1 <= j <= k && script(j) == Raised(e) &&
                                        forall i :: j < i <= k ==> script(i).Returned?
  {
    if k > 0 {
      LastExceptionExact(script, k - 1);
    }
  }

  // The terminal event tells what leaves the call: a value, the original exception, or
  // MaxRetriesExceeded, the last only after all attempts.
  lemma TerminalEventTellsEnd(cfg: Config, script: Script, k: nat)
    requires Decisive(cfg, script, k)
    ensures match TerminalEvent(cfg, script, k)
            case OnSuccess(n, _) => n == k && script(k).Returned? && EndOf(cfg, script(k), k) == Value(script(k).value)
            case OnIgnoredError(n, e) => n == k && EndOf(cfg, script(k), k) == Failure(e) && !cfg.ShouldRetry(e)
            case OnError(n, e) => n == k == cfg.maxAttempts
              && EndOf(cfg, script(k), k) == if cfg.failAfterMaxAttempts then MaxRetriesExceeded(e, k) else Failure(e)
            case OnRetry(_, _, _) => false
  {
  }
}
