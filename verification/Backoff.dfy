// Interval functions of the retry loops: closed forms of the total wait, caps, and the memoised
// Fibonacci numbers.

module Backoff {
  import opened Common
  import opened Retries

  // Exact arithmetic; `cap` is max_interval.
  datatype Interval =
    | Fixed(seconds: real)
    | Exponential(initial: real, multiplier: real, cap: Option<real>)
    | Linear(initial: real, increment: real, cap: Option<real>)
    | Fibonacci(initial: real, cap: Option<real>)
  {
    // What the constructors accept.
    predicate Valid() {
      match this
      case Fixed(s) => s >= 0.0
      case Exponential(i, m, cap) => i >= 0.0 && m > 0.0 && (cap.Some? ==> cap.value >= i)
      case Linear(i, _, cap) => i >= 0.0 && (cap.Some? ==> cap.value >= 0.0)
      case Fibonacci(i, cap) => i > 0.0 && (cap.Some? ==> cap.value > 0.0)
    }

    // What the constructor complains about first.
    function Complaint(): Option<string> {
      match this
      case Fixed(s) => if s < 0.0 then Some("interval_seconds") else None
      case Exponential(i, m, cap) =>
        if i < 0.0 then Some("initial_interval")
        else if m <= 0.0 then Some("multiplier")
        else if cap.Some? && cap.value < i then Some("max_interval")
        else None
      case Linear(i, _, cap) =>
        if i < 0.0 then Some("initial_interval")
        else if cap.Some? && cap.value < 0.0 then Some("max_interval")
        else None
      case Fibonacci(i, cap) =>
        if i <= 0.0 then Some("initial_interval")
        else if cap.Some? && cap.value <= 0.0 then Some("max_interval")
        else None
    }

    // The same interval without a cap.
    function Bare(): Interval {
      match this
      case Fixed(_) => this
      case Exponential(i, m, _) => Exponential(i, m, None)
      case Linear(i, inc, _) => Linear(i, inc, None)
      case Fibonacci(i, _) => Fibonacci(i, None)
    }

    function Cap(): Option<real> {
      if Fixed? then None else cap
    }

    // The interval before the cap is applied.
    function Uncapped(attempt: nat): real
      requires attempt >= 1
    {
      match this
      case Fixed(s) => s
      case Exponential(i, m, _) => Product(i, Pow(m, attempt - 1))
      case Linear(i, inc, _) => Max(0.0, i + Product(inc, (attempt - 1) as real))
      case Fibonacci(i, _) => Product(i, Fib(attempt) as real)
    }

    function Wait(attempt: nat): real
      requires attempt >= 1
    {
      var w := Uncapped(attempt);
      if Cap().Some? then Min(w, Cap().value) else w
    }

    // The sleeps after attempts 1..n.
    function Total(n: nat): real {
      if n == 0 then 0.0 else Total(n - 1) + Wait(n)
    }
  }

  function Min(a: real, b: real): real {
    if a <= b then a else b
  }

  function Max(a: real, b: real): real {
    if a >= b then a else b
  }

  lemma ValidIffNoComplaint(b: Interval)
    ensures b.Valid() <==> b.Complaint() == None
  {
  }

  // Named, so that proofs can use the laws below instead of nonlinear arithmetic.
  function Product(x: real, y: real): real {
    x * y
  }

  function Pow(m: real, n: nat): real {
    if n == 0 then 1.0 else Product(m, Pow(m, n - 1))
  }

  function Fib(n: nat): nat {
    if n == 0 then 0 else if n <= 2 then 1 else Fib(n - 1) + Fib(n - 2)
  }

  // ---------- Products ----------

  lemma Distribute(i: real, x: real, y: real)
    ensures Product(i, x + y) == Product(i, x) + Product(i, y)
  {
  }

  lemma ProductNonNegative(x: real, y: real)
    requires x >= 0.0 && y >= 0.0
    ensures Product(x, y) >= 0.0
  {
  }

  lemma ProductMonotone(i: real, x: real, y: real)
    requires i >= 0.0 && x <= y
    ensures Product(i, x) <= Product(i, y)
  {
    ProductNonNegative(i, y - x);
    Distribute(i, x, y - x);
  }

  lemma ProductStretches(m: real, p: real)
    requires m >= 1.0 && p >= 0.0
    ensures Product(m, p) >= p
  {
    ProductNonNegative(m - 1.0, p);
  }

  lemma OneMore(n: nat, c: real)
    ensures Product((n + 1) as real, c) == Product(n as real, c) + c
  {
  }

  // ---------- Closed forms of the total wait ----------

  lemma ExponentialWait(b: Interval, n: nat)
    requires b.Exponential? && b.cap.None? && n > 0
    ensures b.Total(n) == b.Total(n - 1) + Product(b.initial, Pow(b.multiplier, n - 1))
  {
  }

  lemma GeometricStep(total: real, i: real, m: real, p: real)
    requires Product(total, m - 1.0) == Product(i, p - 1.0)
    ensures Product(total + Product(i, p), m - 1.0) == Product(i, Product(m, p) - 1.0)
  {
    var q := i * p;
    assert (total + q) * (m - 1.0) == total * (m - 1.0) + q * (m - 1.0);
    assert q * m == i * (m * p);
  }

  lemma {:induction false} ExponentialTotal(b: Interval, n: nat)
    requires b.Exponential? && b.cap.None?
    ensures Product(b.Total(n), b.multiplier - 1.0) == Product(b.initial, Pow(b.multiplier, n) - 1.0)
  {
    if n > 0 {
      ExponentialTotal(b, n - 1);
      ExponentialWait(b, n);
      GeometricStep(b.Total(n - 1), b.initial, b.multiplier, Pow(b.multiplier, n - 1));
    }
  }

  // With p = m^n, the sum of the first n terms of the series that starts with i.
  function Geometric(i: real, m: real, p: real): real
    requires m != 1.0
  {
    i * (p - 1.0) / (m - 1.0)
  }

  lemma GeometricQuotient(t: real, i: real, m: real, p: real)
    requires m != 1.0 && Product(t, m - 1.0) == Product(i, p - 1.0)
    ensures t == Geometric(i, m, p)
  {
    Quotient(t, i * (p - 1.0), m - 1.0);
  }

  lemma Quotient(t: real, x: real, d: real)
    requires d != 0.0 && t * d == x
    ensures t == x / d
  {
  }

  lemma ExponentialClosedForm(b: Interval, n: nat)
    requires b.Exponential? && b.cap.None? && b.multiplier != 1.0
    ensures b.Total(n) == Geometric(b.initial, b.multiplier, Pow(b.multiplier, n))
  {
    ExponentialTotal(b, n);
    GeometricQuotient(b.Total(n), b.initial, b.multiplier, Pow(b.multiplier, n));
  }

  lemma {:induction false} FibSum(n: nat)
    ensures n >= 1 ==> Fib(n + 2) == Fib(n + 1) + Fib(n)
    ensures Fib(n + 2) >= 1
  {
    if n >= 1 {
      FibSum(n - 1);
    }
  }

  function FibonacciSum(i: real, n: nat): real {
    Product(i, (Fib(n + 2) - 1) as real)
  }

  lemma FibonacciStep(i: real, n: nat)
    requires n > 0
    ensures FibonacciSum(i, n) == FibonacciSum(i, n - 1) + Product(i, Fib(n) as real)
  {
    FibSum(n);
    var x, y := (Fib(n + 1) - 1) as real, Fib(n) as real;
    assert (Fib(n + 2) - 1) as real == x + y;
    Distribute(i, x, y);
  }

  lemma FibonacciWait(b: Interval, n: nat)
    requires b.Fibonacci? && b.cap.None? && n > 0
    ensures b.Total(n) == b.Total(n - 1) + Product(b.initial, Fib(n) as real)
  {
  }

  lemma {:induction false} FibonacciTotal(b: Interval, n: nat)
    requires b.Fibonacci? && b.cap.None?
    ensures b.Total(n) == FibonacciSum(b.initial, n)
  {
    if n == 0 {
      assert Fib(2) == 1;
    } else {
      FibonacciTotal(b, n - 1);
      FibonacciWait(b, n);
      FibonacciStep(b.initial, n);
    }
  }

  // ---------- The single waits ----------

  // Without a cap: a fixed interval never changes; the exponential one is multiplied, the linear one
  // incremented unless that makes it negative, and each Fibonacci wait is the sum of the two before.
  lemma WaitRecurrence(b: Interval, attempt: nat)
    requires b.Valid() && b.Cap() == None && attempt >= 1
    ensures match b
            case Fixed(s) => b.Wait(attempt) == s
            case Exponential(i, m, _) => b.Wait(1) == i && b.Wait(attempt + 1) == Product(m, b.Wait(attempt))
            case Linear(i, inc, _) =>
              && b.Wait(1) == i && b.Wait(attempt) >= 0.0
              && (b.Wait(attempt) > 0.0 && b.Wait(attempt) + inc >= 0.0 ==>
                  b.Wait(attempt + 1) == b.Wait(attempt) + inc)
              && (b.Wait(attempt) + inc < 0.0 ==> b.Wait(attempt + 1) == 0.0)
            case Fibonacci(i, _) =>
              b.Wait(1) == b.Wait(2) == i && b.Wait(attempt + 2) == b.Wait(attempt + 1) + b.Wait(attempt)
  {
    match b
    case Fixed(_) =>
    case Exponential(i, m, _) => ExponentialNext(i, m, Pow(m, attempt - 1));
    case Linear(_, inc, _) =>
      OneMoreIncrement(attempt - 1, inc);
      assert Product(inc, 0.0) == 0.0;
    case Fibonacci(i, _) =>
      FibSum(attempt);
      Distribute(i, Fib(attempt + 1) as real, Fib(attempt) as real);
      assert Fib(attempt + 2) as real == Fib(attempt + 1) as real + Fib(attempt) as real;
      assert Product(i, 1.0) == i;
  }

  lemma ExponentialNext(i: real, m: real, p: real)
    ensures Product(i, Product(m, p)) == Product(m, Product(i, p)) && Product(i, 1.0) == i
  {
  }

  lemma OneMoreIncrement(n: nat, inc: real)
    ensures Product(inc, (n + 1) as real) == Product(inc, n as real) + inc
  {
    Distribute(inc, n as real, 1.0);
  }

  // With a cap the wait is that of the same interval without it while that stays below, and the cap
  // exactly from there on.
  lemma CappedWait(b: Interval, attempt: nat)
    requires b.Cap().Some? && attempt >= 1
    ensures b.Bare().Wait(attempt) < b.Cap().value ==> b.Wait(attempt) == b.Bare().Wait(attempt)
    ensures b.Wait(attempt) == b.Cap().value <==> b.Bare().Wait(attempt) >= b.Cap().value
  {
  }

  // ---------- Totals of the other two ----------

  function Triangle(n: nat): (t: nat)
    ensures 2 * t == n * (n - 1)
  {
    if n == 0 then 0 else Triangle(n - 1) + n - 1
  }

  lemma {:induction false} FixedTotal(b: Interval, n: nat)
    requires b.Fixed?
    ensures b.Total(n) == Product(n as real, b.seconds)
  {
    if n == 0 {
      assert Product(0.0, b.seconds) == 0.0;
    } else {
      FixedTotal(b, n - 1);
      OneMore(n - 1, b.seconds);
    }
  }

  lemma LinearWait(b: Interval, attempt: nat)
    requires b.Linear? && b.cap.None? && b.Valid() && b.increment >= 0.0 && attempt >= 1
    ensures b.Wait(attempt) == b.initial + Product(b.increment, (attempt - 1) as real)
  {
    ProductNonNegative(b.increment, (attempt - 1) as real);
  }

  // n first waits, and one increment for each pair of waits.
  lemma {:induction false} LinearTotal(b: Interval, n: nat)
    requires b.Linear? && b.cap.None? && b.Valid() && b.increment >= 0.0
    ensures b.Total(n) == Product(n as real, b.initial) + Product(b.increment, Triangle(n) as real)
  {
    if n == 0 {
      assert Product(0.0, b.initial) == 0.0 && Product(b.increment, 0.0) == 0.0;
    } else {
      LinearTotal(b, n - 1);
      LinearWait(b, n);
      OneMore(n - 1, b.initial);
      Distribute(b.increment, Triangle(n - 1) as real, (n - 1) as real);
    }
  }

  // ---------- Growth and caps ----------

  predicate Growing(b: Interval) {
    match b
    case Exponential(_, m, _) => m >= 1.0
    case Linear(_, inc, _) => inc >= 0.0
    case _ => true
  }

  lemma {:induction false} PowPositive(m: real, n: nat)
    requires m > 0.0
    ensures Pow(m, n) > 0.0
  {
    if n > 0 {
      PowPositive(m, n - 1);
      assert m * Pow(m, n - 1) > 0.0;
    }
  }

  lemma PowGrows(m: real, n: nat)
    requires m >= 1.0
    ensures 0.0 < Pow(m, n) <= Pow(m, n + 1)
  {
    PowPositive(m, n);
    ProductStretches(m, Pow(m, n));
  }

  lemma ExponentialGrows(b: Interval, attempt: nat)
    requires b.Exponential? && b.Valid() && Growing(b) && attempt >= 1
    ensures 0.0 <= b.Uncapped(attempt) <= b.Uncapped(attempt + 1)
  {
    PowGrows(b.multiplier, attempt - 1);
    ProductNonNegative(b.initial, Pow(b.multiplier, attempt - 1));
    ProductMonotone(b.initial, Pow(b.multiplier, attempt - 1), Pow(b.multiplier, attempt));
  }

  lemma LinearGrows(b: Interval, attempt: nat)
    requires b.Linear? && b.Valid() && Growing(b) && attempt >= 1
    ensures 0.0 <= b.Uncapped(attempt) <= b.Uncapped(attempt + 1)
  {
    ProductMonotone(b.increment, (attempt - 1) as real, attempt as real);
  }

  lemma FibonacciGrows(b: Interval, attempt: nat)
    requires b.Fibonacci? && b.Valid() && attempt >= 1
    ensures 0.0 <= b.Uncapped(attempt) <= b.Uncapped(attempt + 1)
  {
    FibGrows(attempt);
    ProductNonNegative(b.initial, Fib(attempt) as real);
    ProductMonotone(b.initial, Fib(attempt) as real, Fib(attempt + 1) as real);
  }

  lemma UncappedGrows(b: Interval, attempt: nat)
    requires b.Valid() && Growing(b) && attempt >= 1
    ensures 0.0 <= b.Uncapped(attempt) <= b.Uncapped(attempt + 1)
  {
    match b
    case Fixed(_) =>
    case Exponential(_, _, _) => ExponentialGrows(b, attempt);
    case Linear(_, _, _) => LinearGrows(b, attempt);
    case Fibonacci(_, _) => FibonacciGrows(b, attempt);
  }

  lemma {:induction false} FibGrows(n: nat)
    requires n >= 1
    ensures 1 <= Fib(n) <= Fib(n + 1)
  {
    if n >= 2 {
      FibGrows(n - 1);
    }
  }

  // With growing intervals the waits never decrease and never exceed the cap; once there they stay.
  lemma {:induction false} WaitsGrowToCap(b: Interval, attempt: nat, later: nat)
    requires b.Valid() && Growing(b) && 1 <= attempt <= later
    ensures 0.0 <= b.Wait(attempt) <= b.Wait(later)
    ensures b.Cap().Some? ==> b.Wait(later) <= b.Cap().value
    ensures b.Cap().Some? && b.Wait(attempt) == b.Cap().value ==> b.Wait(later) == b.Cap().value
  {
    UncappedGrows(b, attempt);
    if attempt < later {
      WaitsGrowToCap(b, attempt, later - 1);
      UncappedGrows(b, later - 1);
    }
  }

  // Growing intervals are exactly those whose uncapped waits never decrease.
  lemma GrowsIff(b: Interval)
    requires b.Valid() && b.Cap() == None && b.Wait(1) > 0.0
    ensures Growing(b) <==> forall a: nat :: a >= 1 ==> b.Wait(a) <= b.Wait(a + 1)
  {
    if Growing(b) {
      forall a: nat | a >= 1 ensures b.Wait(a) <= b.Wait(a + 1) {
        UncappedGrows(b, a);
      }
    } else {
      WaitRecurrence(b, 1);
      if b.Exponential? {
        Shrinks(b.multiplier, b.initial);
      }
      assert b.Wait(1) > b.Wait(1 + 1);
    }
  }

  lemma Shrinks(m: real, i: real)
    requires m < 1.0 && i > 0.0
    ensures Product(m, i) < i
  {
    assert (1.0 - m) * i > 0.0;
  }

  // Growing or not, no interval a constructor accepts ever yields a negative wait.
  lemma WaitNonNegative(b: Interval, attempt: nat)
    requires b.Valid() && attempt >= 1
    ensures b.Wait(attempt) >= 0.0
  {
    match b
    case Exponential(i, m, _) =>
      PowPositive(m, attempt - 1);
      ProductNonNegative(i, Pow(m, attempt - 1));
    case Fibonacci(i, _) =>
      ProductNonNegative(i, Fib(attempt) as real);
    case _ =>
  }

  lemma WaitAtMostCap(b: Interval, attempt: nat)
    requires b.Cap().Some? && attempt >= 1
    ensures b.Wait(attempt) <= b.Cap().value
  {
  }

  // A cap bounds the total, growing or not.
  lemma {:induction false} CapBoundsTotal(b: Interval, n: nat)
    requires b.Valid() && b.Cap().Some?
    ensures b.Total(n) <= Product(n as real, b.Cap().value)
  {
    if n == 0 {
      assert Product(0.0, b.Cap().value) == 0.0;
    } else {
      CapBoundsTotal(b, n - 1);
      WaitAtMostCap(b, n);
      OneMore(n - 1, b.Cap().value);
    }
  }

  // ---------- What a whole retry run sleeps ----------

  function Sum(sleeps: seq<real>): real {
    if sleeps == [] then 0.0 else Sum(sleeps[..|sleeps| - 1]) + sleeps[|sleeps| - 1]
  }

  ghost predicate Uses(cfg: Config, b: Interval) {
    cfg.intervalFunction.Some? && forall a: nat :: a >= 1 ==> cfg.intervalFunction.value(a) == b.Wait(a)
  }

  lemma {:induction false} SleepsSumToTotal(cfg: Config, b: Interval, sleeps: seq<real>)
    requires Uses(cfg, b) && SleepsFor(cfg, sleeps, |sleeps|)
    ensures Sum(sleeps) == b.Total(|sleeps|)
  {
    if sleeps != [] {
      SleepsSumToTotal(cfg, b, sleeps[..|sleeps| - 1]);
    }
  }

  // With such an interval, or with the plain wait_duration, the synchronous loop meets the
  // specification of the asynchronous one on every script.
  lemma SyncMeetsAsync(cfg: Config, script: Script, calls: nat, sleeps: seq<real>, end: End)
    requires cfg.Valid() && SyncSpec(cfg, script, calls, sleeps, end)
    requires cfg.intervalFunction.None? || exists b: Interval :: b.Valid() && Uses(cfg, b)
    ensures AsyncSpec(cfg, script, calls, sleeps, end)
  {
    if cfg.intervalFunction.Some? && calls < cfg.maxAttempts {
      var b: Interval :| b.Valid() && Uses(cfg, b);
      WaitNonNegative(b, calls);
    }
  }

  lemma SleepsOf(cfg: Config, script: Script, calls: nat, sleeps: seq<real>, end: End)
    requires Ran(cfg, script, calls, sleeps, end)
    ensures calls == |sleeps| + 1 && SleepsFor(cfg, sleeps, |sleeps|)
  {
  }

  lemma ExponentialSleeps(cfg: Config, b: Interval, sleeps: seq<real>)
    requires Uses(cfg, b) && SleepsFor(cfg, sleeps, |sleeps|)
    requires b.Exponential? && b.cap.None? && b.multiplier != 1.0
    ensures Sum(sleeps) == Geometric(b.initial, b.multiplier, Pow(b.multiplier, |sleeps|))
  {
    SleepsSumToTotal(cfg, b, sleeps);
    ExponentialClosedForm(b, |sleeps|);
  }

  lemma FibonacciSleeps(cfg: Config, b: Interval, sleeps: seq<real>)
    requires Uses(cfg, b) && SleepsFor(cfg, sleeps, |sleeps|) && b.Fibonacci? && b.cap.None?
    ensures Sum(sleeps) == FibonacciSum(b.initial, |sleeps|)
  {
    SleepsSumToTotal(cfg, b, sleeps);
    FibonacciTotal(b, |sleeps|);
  }

  // A run of n attempts has slept, in total, the closed form for n - 1 waits.
  lemma ExponentialRun(cfg: Config, b: Interval, script: Script, calls: nat, sleeps: seq<real>, end: End)
    requires Ran(cfg, script, calls, sleeps, end) && Uses(cfg, b)
    requires b.Exponential? && b.cap.None? && b.multiplier != 1.0
    ensures Sum(sleeps) == Geometric(b.initial, b.multiplier, Pow(b.multiplier, calls - 1))
  {
    SleepsOf(cfg, script, calls, sleeps, end);
    ExponentialSleeps(cfg, b, sleeps);
  }

  lemma FibonacciRun(cfg: Config, b: Interval, script: Script, calls: nat, sleeps: seq<real>, end: End)
    requires Ran(cfg, script, calls, sleeps, end) && Uses(cfg, b) && b.Fibonacci? && b.cap.None?
    ensures Sum(sleeps) == FibonacciSum(b.initial, calls - 1)
  {
    SleepsOf(cfg, script, calls, sleeps, end);
    FibonacciSleeps(cfg, b, sleeps);
  }

  lemma CappedRun(cfg: Config, b: Interval, script: Script, calls: nat, sleeps: seq<real>, end: End)
    requires Ran(cfg, script, calls, sleeps, end) && Uses(cfg, b) && b.Valid() && b.Cap().Some?
    ensures Sum(sleeps) <= Product((calls - 1) as real, b.Cap().value)
  {
    SleepsOf(cfg, script, calls, sleeps, end);
    SleepsSumToTotal(cfg, b, sleeps);
    CapBoundsTotal(b, calls - 1);
  }

  // ---------- The memo table ----------

  lemma FibonacciUncapped(i: real, cap: Option<real>, n: nat, number: int)
    requires n >= 1 && number == Fib(n)
    ensures Fibonacci(i, cap).Uncapped(n) == Product(i, number as real)
  {
  }

  // `calls` counts invocations of Fibonacci, `writes` insertions into the table.
  class FibonacciBackoff {
    const initialInterval: real
    const maxInterval: Option<real>
    var cache: map<int, int>
    ghost var calls: nat
    ghost var writes: nat

    // The keys are exactly 1..|cache|, with the right values.
    ghost predicate Valid()
      reads this
    {
      && |cache| >= 2
      && (forall k :: k in cache <==> 1 <= k <= |cache|)
      && (forall k :: k in cache ==> cache[k] == Fib(k))
    }

    constructor (initialInterval: real, maxInterval: Option<real>)
      ensures Valid() && |cache| == 2 && calls == writes == 0
      ensures this.initialInterval == initialInterval && this.maxInterval == maxInterval
    {
      this.initialInterval, this.maxInterval := initialInterval, maxInterval;
      cache := map[1 := 1, 2 := 1];
      calls, writes := 0, 0;
    }

    // A query beyond the table inserts each missing number once, in 2(n - m) + 1 invocations.
    method Number(n: int) returns (f: int)
      requires Valid() && n >= 1
      modifies this
      ensures Valid() && f == Fib(n)
      ensures |cache| == if n <= old(|cache|) then old(|cache|) else n
      ensures n <= old(|cache|) ==> cache == old(cache)
      ensures writes == old(writes) + |cache| - old(|cache|)
      ensures calls == old(calls) + 2 * (|cache| - old(|cache|)) + 1
      decreases n
    {
      calls := calls + 1;
      if n in cache {
        return cache[n];
      }
      var a := Number(n - 1);
      var b := Number(n - 2);
      f := a + b;
      Store(n, f);
    }

    method Store(n: int, f: int)
      requires Valid() && n == |cache| + 1 && f == Fib(n)
      modifies `cache, `writes
      ensures Valid() && |cache| == n && writes == old(writes) + 1
    {
      cache := cache[n := f];
      writes := writes + 1;
    }

    method WaitFor(attempt: int) returns (wait: real)
      requires Valid()
      modifies this
      ensures Valid()
      ensures wait == Fibonacci(initialInterval, maxInterval).Wait(if attempt >= 1 then attempt else 1)
      ensures var uncapped := Product(initialInterval, Fib(if attempt >= 1 then attempt else 1) as real);
        wait == if maxInterval.Some? && maxInterval.value < uncapped then maxInterval.value else uncapped
    {
      var n: nat := if attempt >= 1 then attempt else 1;
      var number := Number(n);
      wait := Product(initialInterval, number as real);
      FibonacciUncapped(initialInterval, maxInterval, n, number);
      if maxInterval.Some? {
        wait := Min(wait, maxInterval.value);
      }
    }
  }
}
