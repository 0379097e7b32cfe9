// Outcomes of protected calls, the snapshot computed over a list of them, and the two
// sliding windows: the mutable deque and the reference it must agree with.

module CallMetrics {

  datatype WindowType = CountBased | TimeBased

  // What a sliding window is created with; `size` counts calls or seconds.
  datatype Shape = Shape(size: int, kind: WindowType)

  datatype CallOutcome = CallOutcome(timestamp: real, durationMs: real, success: bool, slow: bool)

  datatype Snapshot = Snapshot(
    totalCalls: nat,
    failedCalls: nat,
    slowCalls: nat,
    failureRate: real,
    slowCallRate: real,
    averageDuration: real)

  function Outcome(now: real, durationMs: real, success: bool, slowThresholdMs: real): CallOutcome {
    CallOutcome(now, durationMs, success, durationMs >= slowThresholdMs)
  }

  // ---------- Counting ----------

  ghost function FailedAt(calls: seq<CallOutcome>): set<nat> {
    set i: nat | i < |calls| && !calls[i].success
  }

  ghost function SlowAt(calls: seq<CallOutcome>): set<nat> {
    set i: nat | i < |calls| && calls[i].slow
  }

  // The number of failed calls, tied to the positions that hold one.
  function CountFailed(calls: seq<CallOutcome>): (n: nat)
    ensures n == |FailedAt(calls)|
  {
    if calls == [] then 0
    else
      var last := |calls| - 1;
      var n := CountFailed(calls[..last]);
      assert FailedAt(calls) == FailedAt(calls[..last]) + (if calls[last].success then {} else {last});
      if calls[last].success then n else n + 1
  }

  function CountSlow(calls: seq<CallOutcome>): (n: nat)
    ensures n == |SlowAt(calls)|
  {
    if calls == [] then 0
    else
      var last := |calls| - 1;
      var n := CountSlow(calls[..last]);
      assert SlowAt(calls) == SlowAt(calls[..last]) + (if calls[last].slow then {last} else {});
      if calls[last].slow then n + 1 else n
  }

  function TotalDuration(calls: seq<CallOutcome>): real {
    if calls == [] then 0.0 else TotalDuration(calls[..|calls| - 1]) + calls[|calls| - 1].durationMs
  }

  function Percent(part: nat, total: nat): real
    requires total > 0
  {
    (part as real / total as real) * 100.0
  }

  function Snap(calls: seq<CallOutcome>): Snapshot {
    if calls == [] then Snapshot(0, 0, 0, 0.0, 0.0, 0.0)
    else Snapshot(|calls|, CountFailed(calls), CountSlow(calls),
                  Percent(CountFailed(calls), |calls|), Percent(CountSlow(calls), |calls|),
                  Mean(TotalDuration(calls), |calls|))
  }

  // A percentage test without the division.
  ghost predicate AtLeastPercent(part: nat, total: nat, threshold: real) {
    100.0 * part as real >= threshold * total as real
  }

  lemma PercentMeets(part: nat, total: nat, threshold: real)
    requires total > 0
    ensures Percent(part, total) >= threshold <==> AtLeastPercent(part, total, threshold)
  {
    var q, n := part as real / total as real, total as real;
    assert q * n == part as real;
    if q * 100.0 >= threshold {
      assert (q * 100.0 - threshold) * n >= 0.0;
    } else {
      assert (threshold - q * 100.0) * n > 0.0;
    }
  }

  // All of them meet any threshold of at most 100 percent, and none of them misses any positive one.
  lemma AllMeet(n: real, threshold: real)
    requires n >= 0.0 && threshold <= 100.0
    ensures 100.0 * n >= threshold * n
  {
    assert (100.0 - threshold) * n >= 0.0;
  }

  lemma NoneMeets(n: real, threshold: real)
    requires n > 0.0 && threshold > 0.0
    ensures 100.0 * 0.0 < threshold * n
  {
  }

  // The reference reading of a snapshot: whether a set of outcomes calls for opening.
  ghost predicate Unhealthy(calls: seq<CallOutcome>, failureThreshold: real, slowThreshold: real) {
    || AtLeastPercent(|FailedAt(calls)|, |calls|, failureThreshold)
    || AtLeastPercent(|SlowAt(calls)|, |calls|, slowThreshold)
  }

  lemma SnapshotIsExact(calls: seq<CallOutcome>, failureThreshold: real, slowThreshold: real)
    requires calls != []
    ensures var s := Snap(calls);
      && s.totalCalls == |calls| && s.failedCalls == |FailedAt(calls)| && s.slowCalls == |SlowAt(calls)|
      && (Unhealthy(calls, failureThreshold, slowThreshold)
          <==> s.failureRate >= failureThreshold || s.slowCallRate >= slowThreshold)
  {
    PercentMeets(CountFailed(calls), |calls|, failureThreshold);
    PercentMeets(CountSlow(calls), |calls|, slowThreshold);
  }

  lemma {:induction false} TotalDurationAdds(calls: seq<CallOutcome>, more: seq<CallOutcome>)
    ensures TotalDuration(calls + more) == TotalDuration(calls) + TotalDuration(more)
    ensures |more| == 1 ==> TotalDuration(more) == more[0].durationMs
  {
    if more == [] {
      assert calls + more == calls;
    } else {
      TotalDurationAdds(calls, more[..|more| - 1]);
      assert (calls + more)[..|calls + more| - 1] == calls + more[..|more| - 1];
    }
  }

  function Mean(total: real, n: nat): real
    requires n > 0
  {
    total / n as real
  }

  function Times(n: nat, x: real): real {
    if n == 0 then 0.0 else Times(n - 1, x) + x
  }

  lemma {:induction false} TimesIsProduct(n: nat, x: real)
    ensures Times(n, x) == n as real * x
  {
    if n > 0 {
      TimesIsProduct(n - 1, x);
      assert n as real * x == (n - 1) as real * x + x;
    }
  }

  lemma MeanUnique(total: real, n: nat, average: real)
    requires n > 0 && Times(n, average) == total
    ensures Mean(total, n) == average
  {
    TimesIsProduct(n, average);
  }

  // The average duration is the number that, taken once for each call, gives the sum of all durations.
  lemma AverageIsExact(calls: seq<CallOutcome>, average: real)
    requires calls != [] && Times(|calls|, average) == TotalDuration(calls)
    ensures Snap(calls).averageDuration == average
  {
    MeanUnique(TotalDuration(calls), |calls|, average);
  }

  // ---------- The deque ----------

  // Repeated popleft while the oldest entry is before `start`.
  function DropOld(calls: seq<CallOutcome>, start: real): seq<CallOutcome> {
    if calls != [] && calls[0].timestamp < start then DropOld(calls[1..], start) else calls
  }

  function Pruned(shape: Shape, calls: seq<CallOutcome>, now: real): seq<CallOutcome> {
    if shape.kind.TimeBased? then DropOld(calls, now - shape.size as real) else calls
  }

  // Appending to a deque whose maximum length is `shape.size` for a count-based window.
  function Appended(shape: Shape, calls: seq<CallOutcome>, o: CallOutcome): seq<CallOutcome> {
    if shape.kind.CountBased? && |calls| + 1 > shape.size then (calls + [o])[1..] else calls + [o]
  }

  function Added(shape: Shape, calls: seq<CallOutcome>, o: CallOutcome, now: real): seq<CallOutcome> {
    Appended(shape, Pruned(shape, calls, now), o)
  }

  // ---------- The reference: a function of everything recorded since the last reset ----------

  function LastN(history: seq<CallOutcome>, n: int): seq<CallOutcome>
    requires n >= 0
  {
    if |history| > n then history[|history| - n..] else history
  }

  function Since(history: seq<CallOutcome>, start: real): seq<CallOutcome> {
    if history == [] then []
    else
      var last := |history| - 1;
      Since(history[..last], start) + (if history[last].timestamp >= start then [history[last]] else [])
  }

  function InWindow(shape: Shape, history: seq<CallOutcome>, now: real): seq<CallOutcome>
    requires shape.size > 0
  {
    if shape.kind.CountBased? then LastN(history, shape.size) else Since(history, now - shape.size as real)
  }

  // Timestamps never decrease and stay within the bound.
  ghost predicate SortedUpTo(calls: seq<CallOutcome>, bound: real) {
    calls == [] ||
    var last := calls[|calls| - 1];
    last.timestamp <= bound && SortedUpTo(calls[..|calls| - 1], last.timestamp)
  }

  // The deque agrees with the history at time `now`: a count-based one holds its last `size`
  // entries, a time-based one lacks nothing but expired entries.
  ghost predicate Agrees(shape: Shape, calls: seq<CallOutcome>, history: seq<CallOutcome>, now: real) {
    && shape.size > 0
    && SortedUpTo(history, now)
    && (if shape.kind.CountBased? then calls == LastN(history, shape.size)
        else exists cutoff: real :: PrunedAt(shape, calls, history, now, cutoff))
  }

  ghost predicate PrunedAt(shape: Shape, calls: seq<CallOutcome>, history: seq<CallOutcome>, now: real, cutoff: real) {
    cutoff <= now - shape.size as real && calls == Since(history, cutoff)
  }

  lemma SortedLater(calls: seq<CallOutcome>, bound: real, later: real)
    requires SortedUpTo(calls, bound) && bound <= later
    ensures SortedUpTo(calls, later)
  {
  }

  lemma {:induction false} FirstIsBounded(calls: seq<CallOutcome>, bound: real)
    requires SortedUpTo(calls, bound) && calls != []
    ensures calls[0].timestamp <= bound
  {
    if |calls| > 1 {
      FirstIsBounded(calls[..|calls| - 1], calls[|calls| - 1].timestamp);
    }
  }

  lemma {:induction false} TailSorted(calls: seq<CallOutcome>, bound: real)
    requires SortedUpTo(calls, bound) && calls != []
    ensures SortedUpTo(calls[1..], bound)
  {
    if |calls| > 1 {
      TailSorted(calls[..|calls| - 1], calls[|calls| - 1].timestamp);
      assert calls[1..][..|calls| - 2] == calls[..|calls| - 1][1..];
    }
  }

  lemma {:induction false} SinceSorted(history: seq<CallOutcome>, bound: real, start: real)
    requires SortedUpTo(history, bound)
    ensures SortedUpTo(Since(history, start), bound)
  {
    if history != [] {
      var before, last := history[..|history| - 1], history[|history| - 1];
      SinceSorted(before, last.timestamp, start);
      var kept := Since(before, start);
      if last.timestamp >= start {
        assert (kept + [last])[..|kept|] == kept;
      } else {
        assert kept + [] == kept;
        SortedLater(kept, last.timestamp, bound);
      }
    }
  }

  // Popping from the left of a sorted list treats its last entry like any other.
  lemma {:induction false} DropOldAppend(calls: seq<CallOutcome>, o: CallOutcome, start: real)
    requires SortedUpTo(calls, o.timestamp)
    ensures DropOld(calls + [o], start) == DropOld(calls, start) + if o.timestamp >= start then [o] else []
  {
    if calls == [] {
      assert [o][1..] == [];
    } else {
      FirstIsBounded(calls, o.timestamp);
      if calls[0].timestamp < start {
        TailSorted(calls, o.timestamp);
        DropOldAppend(calls[1..], o, start);
        assert (calls + [o])[1..] == calls[1..] + [o];
      }
    }
  }

  // Popping expired entries from the left equals filtering, even after an earlier pruning.
  lemma {:induction false} DropOldIsSince(history: seq<CallOutcome>, bound: real, earlier: real, start: real)
    requires SortedUpTo(history, bound) && earlier <= start
    ensures DropOld(Since(history, earlier), start) == Since(history, start)
  {
    if history != [] {
      var before, last := history[..|history| - 1], history[|history| - 1];
      DropOldIsSince(before, last.timestamp, earlier, start);
      if last.timestamp >= earlier {
        SinceSorted(before, last.timestamp, earlier);
        DropOldAppend(Since(before, earlier), last, start);
      } else {
        assert Since(before, earlier) + [] == Since(before, earlier);
        assert Since(before, start) + [] == Since(before, start);
      }
    }
  }

  // Pruning the deque at any later time yields exactly the reference window, and keeps the agreement.
  lemma PruneAgrees(shape: Shape, calls: seq<CallOutcome>, history: seq<CallOutcome>,
                    earlier: real, now: real)
    requires Agrees(shape, calls, history, earlier) && earlier <= now
    ensures Pruned(shape, calls, now) == InWindow(shape, history, now)
    ensures Agrees(shape, Pruned(shape, calls, now), history, now)
    ensures Agrees(shape, calls, history, now)
  {
    if shape.kind.TimeBased? {
      var start := now - shape.size as real;
      var cutoff: real :| PrunedAt(shape, calls, history, earlier, cutoff);
      DropOldIsSince(history, earlier, cutoff, start);
      assert PrunedAt(shape, calls, history, now, cutoff);
      assert PrunedAt(shape, Pruned(shape, calls, now), history, now, start);
    }
  }

  // Recording an outcome at `now` yields the reference window of the extended history.
  lemma AddAgrees(shape: Shape, calls: seq<CallOutcome>, history: seq<CallOutcome>,
                  earlier: real, now: real, o: CallOutcome)
    requires Agrees(shape, calls, history, earlier) && earlier <= now && o.timestamp == now
    ensures Added(shape, calls, o, now) == InWindow(shape, history + [o], now)
    ensures Agrees(shape, Added(shape, calls, o, now), history + [o], now)
  {
    PruneAgrees(shape, calls, history, earlier, now);
    assert (history + [o])[..|history|] == history;
    if shape.kind.TimeBased? {
      assert PrunedAt(shape, Added(shape, calls, o, now), history + [o], now, now - shape.size as real);
    }
  }
}
