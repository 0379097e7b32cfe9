// The semaphore bulkhead. First the object at suspension-point granularity, where acquiring and
// releasing are indivisible; then every line-level interleaving of the two counters.

module SemaphoreBulkheads {
  import opened Tasks

  // ---------- The object ----------

  // `semaphore` is the value of the asyncio semaphore, `availablePermits` the shadow counter.
  // `holders` names the calls with a counted permit; `uncounted` those of the timed mode that
  // have the semaphore but have not been subtracted from the counter yet.
  class SemaphoreBulkhead {
    const maxCalls: int
    const waits: bool
    var semaphore: int
    var availablePermits: int
    ghost var holders: set<nat>
    ghost var uncounted: set<nat>

    ghost predicate Valid()
      reads this
    {
      && 0 <= semaphore == maxCalls - |holders| - |uncounted|
      && availablePermits == maxCalls - |holders|
      && holders !! uncounted
      && (!waits ==> uncounted == {})
    }

    constructor (maxCalls: int, waits: bool)
      requires maxCalls > 0
      ensures Valid() && holders == uncounted == {} && this.maxCalls == maxCalls && this.waits == waits
    {
      this.maxCalls, this.waits := maxCalls, waits;
      semaphore, availablePermits, holders, uncounted := maxCalls, maxCalls, {}, {};
    }

    // Zero wait: the check, the semaphore and the counter in one go.
    method AcquirePermission(ghost id: nat) returns (acquired: bool)
      requires Valid() && !waits && id !in holders
      modifies this
      ensures Valid() && uncounted == old(uncounted)
      ensures acquired <==> |old(holders)| < maxCalls
      ensures holders == if acquired then old(holders) + {id} else old(holders)
    {
      if availablePermits <= 0 {
        return false;
      }
      semaphore := semaphore - 1;
      availablePermits := availablePermits - 1;
      holders := holders + {id};
      return true;
    }

    // Timed: the wait for the semaphore ends with a grant or a timeout. The call may be suspended
    // after a grant, before CountAcquired.
    method AwaitSemaphore(ghost id: nat, inTime: bool) returns (granted: bool)
      requires Valid() && waits && id !in holders + uncounted && (inTime ==> semaphore > 0)
      modifies this
      ensures Valid() && holders == old(holders) && granted == inTime
      ensures uncounted == if inTime then old(uncounted) + {id} else old(uncounted)
    {
      if inTime {
        semaphore := semaphore - 1;
        uncounted := uncounted + {id};
      }
      return inTime;
    }

    method CountAcquired(ghost id: nat)
      requires Valid() && id in uncounted
      modifies this
      ensures Valid() && holders == old(holders) + {id} && uncounted == old(uncounted) - {id}
    {
      availablePermits := availablePermits - 1;
      holders, uncounted := holders + {id}, uncounted - {id};
    }

    method ReleasePermission(ghost id: nat)
      requires Valid() && id in holders
      modifies this
      ensures Valid() && holders == old(holders) - {id} && uncounted == old(uncounted)
    {
      semaphore := semaphore + 1;
      availablePermits := availablePermits + 1;
      holders := holders - {id};
    }
  }

  // ---------- Line-level interleavings ----------

  datatype PC =
    | Checking    // zero wait: about to take the counter lock and test the counter
    | Entering    // holds the counter lock, about to take the semaphore
    | Waiting     // timed: waiting for the semaphore
    | Uncounted   // has the semaphore, not yet subtracted from the counter
    | Admitted    // counted, about to start its function
    | InLoop      // an async function runs in the event loop
    | Submitted   // a synchronous function waits for a worker of the loop's default executor
    | OnThread    // a worker runs the function
    | Uncredited  // semaphore given back, counter not yet incremented

  // `workers` is the size of the default executor. `lockedBy` is the holder of the counter lock while
  // it sits inside the critical section. `abandoned` holds the functions that run on in their thread
  // although their call was cancelled.
  datatype Bulkhead = Bulkhead(
    max: nat, workers: nat, semaphore: int, counter: int,
    lockedBy: set<nat>, pcs: map<nat, PC>, abandoned: multiset<nat>)

  datatype Action =
    | Arrive(task: nat, zeroWait: bool)
    | Check(task: nat)         // refuse if the counter is exhausted, else keep the lock
    | Take(task: nat)          // take the semaphore, and release the counter lock if held
    | GiveUp(task: nat)        // timeout, or cancellation while waiting for the semaphore
    | CountDown(task: nat)
    | Inline(task: nat)
    | Submit(task: nat)
    | Pick(task: nat)          // an idle worker starts the function
    | Finish(task: nat, raised: bool)  // the function ended; `finally` gives the semaphore back
    | Cancel(task: nat)        // the call is cancelled: the same, but a function on a thread runs on
    | CountUp(task: nat)
    | JobEnds(task: nat)       // an abandoned function ends

  function Start(max: nat, workers: nat): Bulkhead {
    Bulkhead(max, workers, max, max, {}, map[], multiset{})
  }

  ghost function N(b: Bulkhead, pc: PC): nat {
    |At(b.pcs, pc)|
  }

  ghost function BusyWorkers(b: Bulkhead): nat {
    N(b, OnThread) + |b.abandoned|
  }

  // Whether a task at this place can execute this action.
  predicate Ready(pc: PC, a: Action) {
    match a
    case Check(_) => pc == Checking
    case Take(_) => pc == Entering || pc == Waiting
    case GiveUp(_) => pc == Waiting
    case CountDown(_) => pc == Uncounted
    case Inline(_) => pc == Admitted
    case Submit(_) => pc == Admitted
    case Pick(_) => pc == Submitted
    case Finish(_, _) => pc == InLoop || pc == OnThread
    case Cancel(_) => pc == Admitted || pc == Submitted || pc == OnThread
    case CountUp(_) => pc == Uncredited
    case _ => false
  }

  // Whether this line can be executed now.
  ghost predicate Enabled(b: Bulkhead, a: Action) {
    match a
    case Arrive(t, _) => t !in b.pcs
    case JobEnds(t) => t in b.abandoned
    case _ =>
      && a.task in b.pcs && Ready(b.pcs[a.task], a)
      && (a.Check? || a.CountDown? || a.CountUp? ==> b.lockedBy == {})
      && (a.Take? ==> b.semaphore > 0)
      && (a.Pick? ==> BusyWorkers(b) < b.workers)
  }

  ghost function Step(b: Bulkhead, a: Action): Bulkhead {
    if !Enabled(b, a) then b
    else match a
      case Arrive(t, zeroWait) => b.(pcs := b.pcs[t := if zeroWait then Checking else Waiting])
      case Check(t) =>
        if b.counter <= 0 then b.(pcs := b.pcs - {t})
        else b.(lockedBy := {t}, pcs := b.pcs[t := Entering])
      case Take(t) => b.(semaphore := b.semaphore - 1, lockedBy := b.lockedBy - {t}, pcs := b.pcs[t := Uncounted])
      case GiveUp(t) => b.(pcs := b.pcs - {t})
      case CountDown(t) => b.(counter := b.counter - 1, pcs := b.pcs[t := Admitted])
      case Inline(t) => b.(pcs := b.pcs[t := InLoop])
      case Submit(t) => b.(pcs := b.pcs[t := Submitted])
      case Pick(t) => b.(pcs := b.pcs[t := OnThread])
      case Finish(t, _) => b.(semaphore := b.semaphore + 1, pcs := b.pcs[t := Uncredited])
      case Cancel(t) =>
        b.(semaphore := b.semaphore + 1, pcs := b.pcs[t := Uncredited],
           abandoned := if b.pcs[t] == OnThread then b.abandoned + multiset{t} else b.abandoned)
      case CountUp(t) => b.(counter := b.counter + 1, pcs := b.pcs - {t})
      case JobEnds(t) => b.(abandoned := b.abandoned - multiset{t})
  }

  ghost function Run(b: Bulkhead, acts: seq<Action>): Bulkhead {
    if acts == [] then b else Step(Run(b, acts[..|acts| - 1]), acts[|acts| - 1])
  }

  // Calls that hold a counted permit.
  ghost function Held(b: Bulkhead): nat {
    N(b, Admitted) + N(b, InLoop) + N(b, Submitted) + N(b, OnThread)
  }

  // Protected functions that are running, abandoned ones included.
  ghost function Functions(b: Bulkhead): nat {
    N(b, InLoop) + BusyWorkers(b)
  }

  ghost predicate Conserved(b: Bulkhead) {
    && 0 <= b.semaphore == b.max - (N(b, Uncounted) + Held(b))
    && b.counter == b.max - (Held(b) + N(b, Uncredited))
    && BusyWorkers(b) <= b.workers
  }

  // The counter lock has at most one holder, who saw a positive counter.
  ghost predicate Locked(b: Bulkhead) {
    && b.lockedBy == At(b.pcs, Entering)
    && |b.lockedBy| <= 1
    && (b.lockedBy != {} ==> b.counter > 0)
  }

  ghost predicate SameSize(b: Bulkhead, c: Bulkhead) {
    c.max == b.max && c.workers == b.workers
  }

  lemma AcquireStep(b: Bulkhead, a: Action, c: Bulkhead)
    requires Conserved(b) && Enabled(b, a) && c == Step(b, a)
    requires a.Arrive? || a.Check? || a.Take? || a.GiveUp? || a.CountDown?
    ensures Conserved(c)
  {
    if a.task in c.pcs {
      Recount(b.pcs, a.task, c.pcs[a.task], c.pcs);
    } else {
      RecountLeft(b.pcs, a.task, c.pcs);
    }
  }

  lemma FunctionStep(b: Bulkhead, a: Action, c: Bulkhead)
    requires Conserved(b) && Enabled(b, a) && c == Step(b, a)
    requires a.Inline? || a.Submit? || a.Pick?
    ensures Conserved(c)
  {
    Recount(b.pcs, a.task, c.pcs[a.task], c.pcs);
  }

  lemma EndStep(b: Bulkhead, a: Action, c: Bulkhead)
    requires Conserved(b) && Enabled(b, a) && c == Step(b, a)
    requires a.Finish? || a.Cancel? || a.CountUp?
    ensures Conserved(c)
  {
    if a.task in c.pcs {
      Recount(b.pcs, a.task, c.pcs[a.task], c.pcs);
    } else {
      RecountLeft(b.pcs, a.task, c.pcs);
    }
  }

  lemma StepConserves(b: Bulkhead, a: Action)
    requires Conserved(b)
    ensures Conserved(Step(b, a)) && SameSize(b, Step(b, a))
  {
    if Enabled(b, a) {
      match a
      case Inline(_) => FunctionStep(b, a, Step(b, a));
      case Submit(_) => FunctionStep(b, a, Step(b, a));
      case Pick(_) => FunctionStep(b, a, Step(b, a));
      case Finish(_, _) => EndStep(b, a, Step(b, a));
      case Cancel(_) => EndStep(b, a, Step(b, a));
      case CountUp(_) => EndStep(b, a, Step(b, a));
      case JobEnds(_) =>
      case _ => AcquireStep(b, a, Step(b, a));
    }
  }

  lemma LockReleased(b: Bulkhead, t: nat, c: Bulkhead)
    requires Locked(b) && Enabled(b, Take(t)) && b.pcs[t] == Entering && c == Step(b, Take(t))
    ensures Locked(c)
  {
    assert t in b.lockedBy;
    assert |b.lockedBy - {t}| == |b.lockedBy| - 1;
    assert c.lockedBy == {};
    assert At(c.pcs, Entering) == b.lockedBy - {t};
  }

  lemma LockStep(b: Bulkhead, a: Action, c: Bulkhead)
    requires Locked(b) && Enabled(b, a) && c == Step(b, a)
    ensures Locked(c)
  {
    if a.Take? && b.pcs[a.task] == Entering {
      LockReleased(b, a.task, c);
    } else if a.Check? && a.task in c.pcs {
      assert At(c.pcs, Entering) == {a.task};
    } else {
      assert At(c.pcs, Entering) == At(b.pcs, Entering);
      assert a.Take? ==> a.task !in b.lockedBy;
    }
  }

  lemma {:induction false} RunConserves(max: nat, workers: nat, acts: seq<Action>, b: Bulkhead)
    requires b == Run(Start(max, workers), acts)
    ensures Conserved(b) && Locked(b) && SameSize(Start(max, workers), b)
  {
    if acts == [] {
      assert forall pc :: At(Start(max, workers).pcs, pc) == {};
    } else {
      var before, a := Run(Start(max, workers), acts[..|acts| - 1]), acts[|acts| - 1];
      RunConserves(max, workers, acts[..|acts| - 1], before);
      StepConserves(before, a);
      if Enabled(before, a) {
        LockStep(before, a, b);
      }
    }
  }

  ghost predicate NoCancel(acts: seq<Action>) {
    forall a <- acts :: !a.Cancel?
  }

  lemma {:induction false} NothingAbandoned(max: nat, workers: nat, acts: seq<Action>)
    requires NoCancel(acts)
    ensures Run(Start(max, workers), acts).abandoned == multiset{}
  {
    if acts != [] {
      NothingAbandoned(max, workers, acts[..|acts| - 1]);
    }
  }

  // In every line-level interleaving at most `max` permits are held, so at most `max` functions run
  // besides the abandoned ones, of which there are never more than workers, and at most `max` in all
  // if no call is cancelled. When no task holds or is giving back a permit both counters are at `max`.
  lemma NeverMoreThanMax(max: nat, workers: nat, acts: seq<Action>, b: Bulkhead)
    requires b == Run(Start(max, workers), acts)
    ensures N(b, Uncounted) + Held(b) <= max
    ensures Functions(b) <= max + |b.abandoned| <= max + workers
    ensures NoCancel(acts) ==> Functions(b) <= max
    ensures N(b, Uncounted) == Held(b) == N(b, Uncredited) == 0 ==> b.semaphore == b.counter == max
  {
    RunConserves(max, workers, acts, b);
    if NoCancel(acts) {
      NothingAbandoned(max, workers, acts);
    }
  }

  // A task can be stuck on the semaphore while holding the counter lock only if another task is
  // between taking the semaphore and counting it.
  lemma BlockedOnlyMidAcquire(max: nat, workers: nat, acts: seq<Action>, b: Bulkhead, t: nat)
    requires b == Run(Start(max, workers), acts) && t in b.pcs && b.pcs[t] == Entering && !Enabled(b, Take(t))
    ensures N(b, Uncounted) > N(b, Uncredited)
  {
    RunConserves(max, workers, acts, b);
    assert t in At(b.pcs, Entering);
  }

  // ---------- What each step changes ----------

  lemma PlacesChange(b: Bulkhead, a: Action, c: Bulkhead)
    requires Enabled(b, a) && c == Step(b, a)
    ensures N(c, OnThread) == N(b, OnThread) + Delta(
              a.Pick?, (a.Finish? || a.Cancel?) && b.pcs[a.task].OnThread?)
    ensures N(c, InLoop) == N(b, InLoop) + Delta(a.Inline?, a.Finish? && b.pcs[a.task].InLoop?)
    ensures N(c, Submitted) == N(b, Submitted) + Delta(
              a.Submit?, a.Pick? || (a.Cancel? && b.pcs[a.task].Submitted?))
    ensures N(c, Admitted) == N(b, Admitted) + Delta(
              a.CountDown?, a.Inline? || a.Submit? || (a.Cancel? && b.pcs[a.task].Admitted?))
  {
    if !a.JobEnds? {
      if a.task in c.pcs {
        Recount(b.pcs, a.task, c.pcs[a.task], c.pcs);
      } else {
        RecountLeft(b.pcs, a.task, c.pcs);
      }
    }
  }

  // Permits are taken when counted and given back when the call ends or is cancelled; a worker is busy
  // from picking a function up until that function ends, whatever becomes of its call.
  lemma StepChanges(b: Bulkhead, a: Action, c: Bulkhead)
    requires Enabled(b, a) && c == Step(b, a)
    ensures Held(c) == Held(b) + Delta(a.CountDown?, a.Finish? || a.Cancel?)
    ensures Functions(c) == Functions(b) + Delta(a.Inline? || a.Pick?, a.Finish? || a.JobEnds?)
    ensures BusyWorkers(c) == BusyWorkers(b) + Delta(
              a.Pick?, a.JobEnds? || (a.Finish? && b.pcs[a.task].OnThread?))
  {
    PlacesChange(b, a, c);
  }

  // The places an admitted call goes through, in the event loop or on a thread, until its semaphore is
  // given back.
  lemma CallLife(b: Bulkhead, t: nat, inline: bool, raised: bool, m: Bulkhead, ended: Bulkhead)
    requires t in b.pcs && b.pcs[t] == Admitted && (inline || BusyWorkers(b) < b.workers)
    requires m == if inline then Step(b, Inline(t)) else Step(Step(b, Submit(t)), Pick(t))
    requires ended == Step(m, Finish(t, raised))
    ensures m == b.(pcs := b.pcs[t := if inline then InLoop else OnThread]) && Enabled(m, Finish(t, raised))
    ensures ended == b.(semaphore := b.semaphore + 1, pcs := b.pcs[t := Uncredited])
  {
    if !inline {
      Moved(b.pcs, t, Submitted, OnThread);
      assert b.pcs[t := Submitted][t := OnThread] == b.pcs[t := OnThread];
    }
    assert m.pcs[t := Uncredited] == b.pcs[t := Uncredited];
  }

  // A timed call is never refused by the counter: it takes the semaphore as soon as that is free, or
  // gives up and leaves no trace.
  lemma TimedArrival(b: Bulkhead, t: nat, c: Bulkhead)
    requires t !in b.pcs && c == Step(b, Arrive(t, false))
    ensures !Enabled(c, Check(t)) && (Enabled(c, Take(t)) <==> b.semaphore > 0)
    ensures Enabled(c, GiveUp(t)) && Step(c, GiveUp(t)) == b
    ensures b.semaphore > 0 ==> Step(c, Take(t)).pcs == b.pcs[t := Uncounted]
  {
    assert b.pcs[t := Waiting] - {t} == b.pcs;
    assert b.pcs[t := Waiting][t := Uncounted] == b.pcs[t := Uncounted];
  }

  // ---------- A line-level deadlock ----------

  ghost predicate Reachable(max: nat, workers: nat, b: Bulkhead) {
    exists acts: seq<Action> :: Run(Start(max, workers), acts) == b
  }

  lemma ReachableStep(max: nat, workers: nat, b: Bulkhead, a: Action)
    requires Reachable(max, workers, b)
    ensures Reachable(max, workers, Step(b, a))
  {
    var acts :| Run(Start(max, workers), acts) == b;
    assert (acts + [a])[..|acts|] == acts;
    assert Run(Start(max, workers), acts + [a]) == Step(b, a);
  }

  // k tasks have taken the semaphore and none has counted it.
  ghost predicate HalfAcquired(b: Bulkhead, k: nat) {
    && k <= b.max && b.semaphore == b.max - k && b.counter == b.max && b.lockedBy == {}
    && (forall t :: t in b.pcs <==> 0 <= t < k)
    && (forall t <- b.pcs :: b.pcs[t] == Uncounted)
  }

  lemma OneMoreHalf(b: Bulkhead, t: nat, b1: Bulkhead, b2: Bulkhead, c: Bulkhead)
    requires HalfAcquired(b, t) && t < b.max
    requires b1 == Step(b, Arrive(t, true)) && b2 == Step(b1, Check(t)) && c == Step(b2, Take(t))
    ensures HalfAcquired(c, t + 1) && c.max == b.max
  {
    assert b2 == b.(lockedBy := {t}, pcs := b.pcs[t := Checking][t := Entering]);
    assert {t} - {t} == {};
    assert c == b.(semaphore := b.semaphore - 1, lockedBy := {}, pcs := b2.pcs[t := Uncounted]);
  }

  lemma {:induction false} HalfAcquire(max: nat, workers: nat, k: nat) returns (b: Bulkhead)
    requires k <= max
    ensures Reachable(max, workers, b) && HalfAcquired(b, k) && b.max == max
  {
    b := Start(max, workers);
    if k == 0 {
      assert Run(b, []) == b;
    } else {
      var b0 := HalfAcquire(max, workers, k - 1);
      var b1 := Step(b0, Arrive(k - 1, true));
      var b2 := Step(b1, Check(k - 1));
      b := Step(b2, Take(k - 1));
      ReachableStep(max, workers, b0, Arrive(k - 1, true));
      ReachableStep(max, workers, b1, Check(k - 1));
      ReachableStep(max, workers, b2, Take(k - 1));
      OneMoreHalf(b0, k - 1, b1, b2, b);
    }
  }

  // Tasks are left, and none can execute its next line.
  ghost predicate Deadlocked(b: Bulkhead) {
    b.pcs != map[] && forall a: Action :: a.task in b.pcs && !a.JobEnds? ==> !Enabled(b, a)
  }

  // Such a line-level interleaving exists for every size, and it is a deadlock: one task keeps the
  // lock and waits for the semaphore, the others have the semaphore and wait for the lock. One event
  // loop never schedules it: there acquisition is indivisible (AtomicAcquire).
  lemma LineLevelDeadlock(max: nat, workers: nat) returns (b: Bulkhead)
    requires max > 0
    ensures Reachable(max, workers, b) && Deadlocked(b)
  {
    var b0 := HalfAcquire(max, workers, max);
    var b1 := Step(b0, Arrive(max, true));
    b := Step(b1, Check(max));
    ReachableStep(max, workers, b0, Arrive(max, true));
    ReachableStep(max, workers, b1, Check(max));
    StuckBehindHalf(b0, b1, b);
  }

  lemma StuckBehindHalf(b: Bulkhead, b1: Bulkhead, c: Bulkhead)
    requires HalfAcquired(b, b.max) && b.max > 0
    requires b1 == Step(b, Arrive(b.max, true)) && c == Step(b1, Check(b.max))
    ensures Deadlocked(c)
  {
    assert c == b.(lockedBy := {b.max}, pcs := b.pcs[b.max := Checking][b.max := Entering]);
    assert b.max in c.pcs;
    forall a: Action | a.task in c.pcs && !a.JobEnds? ensures !Enabled(c, a) {
      assert c.pcs[a.task] == Uncounted || c.pcs[a.task] == Entering;
    }
  }

  // ---------- Suspension-point granularity ----------

  // Between suspension points of the zero-wait mode every task holds a counted permit.
  ghost predicate Settled(b: Bulkhead) {
    Conserved(b) && b.lockedBy == {} && forall t <- b.pcs :: Whole(b.pcs[t])
  }

  predicate Whole(pc: PC) {
    pc.Admitted? || pc.InLoop? || pc.Submitted? || pc.OnThread?
  }

  lemma SettledCounts(b: Bulkhead)
    requires Settled(b)
    ensures b.semaphore == b.counter == b.max - Held(b)
  {
    assert At(b.pcs, Uncounted) == {} && At(b.pcs, Uncredited) == {};
  }

  // Acquiring as one indivisible step: it is a sequence of enabled lines, so it never blocks; it is
  // refused iff exactly `max` permits are held; and it ends in a settled state again.
  lemma AtomicAcquire(b: Bulkhead, t: nat, b1: Bulkhead, b2: Bulkhead)
    requires Settled(b) && t !in b.pcs
    requires b1 == Step(b, Arrive(t, true)) && b2 == Step(b1, Check(t))
    ensures Enabled(b, Arrive(t, true)) && Enabled(b1, Check(t))
    ensures if Held(b) == b.max then b2 == b else b2 == b.(lockedBy := {t}, pcs := b.pcs[t := Entering])
  {
    SettledCounts(b);
    assert b1.pcs - {t} == b.pcs;
    assert b.pcs[t := Checking][t := Entering] == b.pcs[t := Entering];
  }

  lemma AtomicAcquireSettles(b: Bulkhead, t: nat, b2: Bulkhead, b3: Bulkhead, b4: Bulkhead)
    requires Settled(b) && t !in b.pcs && Held(b) < b.max
    requires b2 == b.(lockedBy := {t}, pcs := b.pcs[t := Entering]) && b3 == Step(b2, Take(t))
    requires b4 == Step(b3, CountDown(t))
    ensures Enabled(b2, Take(t)) && Enabled(b3, CountDown(t))
    ensures Settled(b4) && b4.pcs == b.pcs[t := Admitted] && b4.abandoned == b.abandoned && SameSize(b, b4)
  {
    SettledCounts(b);
    Recount(b.pcs, t, Entering, b2.pcs);
    StepConserves(b2, Take(t));
    StepConserves(b3, CountDown(t));
    TakeAndCount(b, t, b2, b3, b4);
  }

  lemma TakeAndCount(b: Bulkhead, t: nat, b2: Bulkhead, b3: Bulkhead, b4: Bulkhead)
    requires b2 == b.(lockedBy := {t}, pcs := b.pcs[t := Entering]) && b3 == Step(b2, Take(t))
    requires b4 == Step(b3, CountDown(t)) && b.semaphore > 0
    ensures Enabled(b2, Take(t)) && Enabled(b3, CountDown(t))
    ensures b4.pcs == b.pcs[t := Admitted] && b4.lockedBy == {} && b4.abandoned == b.abandoned && SameSize(b, b4)
  {
    assert {t} - {t} == {};
    assert b3.pcs == b.pcs[t := Uncounted];
    assert b.pcs[t := Uncounted][t := Admitted] == b.pcs[t := Admitted];
  }

  // The function has ended, or its call was cancelled.
  predicate Leaves(a: Action) {
    a.Finish? || a.Cancel?
  }

  // Releasing as one indivisible step never blocks either, whether the function returned or raised or
  // the call was cancelled.
  lemma AtomicRelease(b: Bulkhead, a: Action, b1: Bulkhead, b2: Bulkhead)
    requires Settled(b) && Leaves(a) && Enabled(b, a)
    requires b1 == Step(b, a) && b2 == Step(b1, CountUp(a.task))
    ensures Enabled(b1, CountUp(a.task))
    ensures Settled(b2) && b2.pcs == b.pcs - {a.task} && SameSize(b, b2)
    ensures b2.abandoned == if a.Cancel? && b.pcs[a.task] == OnThread then b.abandoned + multiset{a.task}
                            else b.abandoned
  {
    StepConserves(b, a);
    StepConserves(b1, CountUp(a.task));
    ReleaseAndCount(b, a, b1, b2);
  }

  lemma ReleaseAndCount(b: Bulkhead, a: Action, b1: Bulkhead, b2: Bulkhead)
    requires Leaves(a) && Enabled(b, a) && b.lockedBy == {}
    requires b1 == Step(b, a) && b2 == Step(b1, CountUp(a.task))
    ensures Enabled(b1, CountUp(a.task))
    ensures b2.pcs == b.pcs - {a.task} && b2.lockedBy == {} && b2.abandoned == b1.abandoned
  {
    assert b1.pcs == b.pcs[a.task := Uncredited];
    assert b.pcs[a.task := Uncredited] - {a.task} == b.pcs - {a.task};
  }

  // ---------- Cancelled calls exceed the bound ----------

  ghost predicate Loaded(max: nat, workers: nat, b: Bulkhead, n: nat) {
    Reachable(max, workers, b) && Settled(b) && SameSize(Start(max, workers), b) && |b.abandoned| == n
  }

  lemma Acquired(max: nat, workers: nat, b: Bulkhead, n: nat, t: nat) returns (c: Bulkhead)
    requires Loaded(max, workers, b, n) && t !in b.pcs && Held(b) < max
    ensures Loaded(max, workers, c, n) && c.pcs == b.pcs[t := Admitted]
  {
    var b1 := Step(b, Arrive(t, true));
    var b2 := Step(b1, Check(t));
    var b3 := Step(b2, Take(t));
    c := Step(b3, CountDown(t));
    ReachableStep(max, workers, b, Arrive(t, true));
    ReachableStep(max, workers, b1, Check(t));
    ReachableStep(max, workers, b2, Take(t));
    ReachableStep(max, workers, b3, CountDown(t));
    AtomicAcquire(b, t, b1, b2);
    AtomicAcquireSettles(b, t, b2, b3, c);
  }

  lemma Started(max: nat, workers: nat, b: Bulkhead, n: nat, a: Action)
    requires Loaded(max, workers, b, n) && Enabled(b, a) && (a.Inline? || a.Submit? || a.Pick?)
    ensures Loaded(max, workers, Step(b, a), n)
    ensures Step(b, a).pcs == b.pcs[a.task := if a.Inline? then InLoop else if a.Submit? then Submitted else OnThread]
  {
    ReachableStep(max, workers, b, a);
    StepConserves(b, a);
  }

  lemma Abandoned(max: nat, workers: nat, b: Bulkhead, n: nat, t: nat) returns (c: Bulkhead)
    requires Loaded(max, workers, b, n) && t in b.pcs && b.pcs[t] == OnThread
    ensures Loaded(max, workers, c, n + 1) && c.pcs == b.pcs - {t}
  {
    var m := Step(b, Cancel(t));
    c := Step(m, CountUp(t));
    ReachableStep(max, workers, b, Cancel(t));
    ReachableStep(max, workers, m, CountUp(t));
    AtomicRelease(b, Cancel(t), m, c);
  }

  // One call, cancelled as soon as a worker runs its function.
  lemma OneMoreAbandoned(max: nat, workers: nat, b: Bulkhead, n: nat) returns (c: Bulkhead)
    requires Loaded(max, workers, b, n) && b.pcs == map[] && max > 0 && n < workers
    ensures Loaded(max, workers, c, n + 1) && c.pcs == map[]
  {
    assert forall pc :: At(b.pcs, pc) == {};
    var admitted := Acquired(max, workers, b, n, 0);
    var submitted := Step(admitted, Submit(0));
    Started(max, workers, admitted, n, Submit(0));
    assert submitted.pcs == map[0 := Submitted];
    assert At(submitted.pcs, OnThread) == {};
    var running := Step(submitted, Pick(0));
    Started(max, workers, submitted, n, Pick(0));
    c := Abandoned(max, workers, running, n, 0);
    assert c.pcs == map[];
  }

  lemma {:induction false} AbandonMany(max: nat, workers: nat, n: nat) returns (b: Bulkhead)
    requires max > 0 && n <= workers
    ensures Loaded(max, workers, b, n) && b.pcs == map[]
  {
    if n == 0 {
      b := Start(max, workers);
      assert Run(b, []) == b;
      RunConserves(max, workers, [], b);
    } else {
      b := AbandonMany(max, workers, n - 1);
      b := OneMoreAbandoned(max, workers, b, n - 1);
    }
  }

  // k functions run in the event loop.
  ghost predicate Looping(b: Bulkhead, k: nat) {
    (forall t <- b.pcs :: t < k && b.pcs[t] == InLoop) && N(b, InLoop) == k
  }

  lemma LoopingHeld(b: Bulkhead, k: nat)
    requires Looping(b, k)
    ensures Held(b) == k && N(b, OnThread) == 0
  {
    assert At(b.pcs, Admitted) == {} && At(b.pcs, Submitted) == {} && At(b.pcs, OnThread) == {};
  }

  lemma OneMoreLooping(max: nat, workers: nat, b: Bulkhead, n: nat, k: nat) returns (c: Bulkhead)
    requires Loaded(max, workers, b, n) && Looping(b, k) && k < max
    ensures Loaded(max, workers, c, n) && Looping(c, k + 1)
  {
    LoopingHeld(b, k);
    var m := Acquired(max, workers, b, n, k);
    c := Step(m, Inline(k));
    Started(max, workers, m, n, Inline(k));
    assert c.pcs == b.pcs[k := InLoop];
    Moved(b.pcs, k, InLoop, InLoop);
  }

  lemma {:induction false} FillUp(max: nat, workers: nat, n: nat, k: nat) returns (b: Bulkhead)
    requires max > 0 && n <= workers && k <= max
    ensures Loaded(max, workers, b, n) && Looping(b, k)
  {
    if k == 0 {
      b := AbandonMany(max, workers, n);
      assert At(b.pcs, InLoop) == {};
    } else {
      b := FillUp(max, workers, n, k - 1);
      b := OneMoreLooping(max, workers, b, n, k - 1);
    }
  }

  // `max` functions run besides n abandoned ones.
  ghost predicate Exceeded(max: nat, workers: nat, b: Bulkhead, n: nat) {
    Reachable(max, workers, b) && |b.abandoned| == n && Functions(b) == max + n
  }

  // The bound with abandoned functions is exact, up to the size of the default executor.
  lemma CancellationExceedsMaxIff(max: nat, workers: nat, n: nat)
    requires max > 0
    ensures (exists b :: Exceeded(max, workers, b, n)) <==> n <= workers
  {
    if n <= workers {
      var b := FillUp(max, workers, n, max);
      LoopingHeld(b, max);
      assert Exceeded(max, workers, b, n);
    }
    forall b | Exceeded(max, workers, b, n) ensures n <= workers {
      var acts :| Run(Start(max, workers), acts) == b;
      NeverMoreThanMax(max, workers, acts, b);
    }
  }
}
