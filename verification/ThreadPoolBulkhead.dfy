// The thread-pool bulkhead: the object at suspension-point granularity, and every line-level
// interleaving of its unlocked check-then-acquire, together with the executor and its queue.

module ThreadPoolBulkheads {
  import opened Tasks
  import opened WorkQueue

  // ---------- The object ----------

  class ThreadPoolBulkhead {
    const totalCapacity: int
    var semaphore: int
    var availablePermits: int
    ghost var holders: set<nat>

    ghost predicate Valid()
      reads this
    {
      && semaphore == availablePermits == totalCapacity - |holders|
      && 0 <= semaphore
    }

    constructor (maxThreadPoolSize: int, queueCapacity: int)
      requires maxThreadPoolSize > 0 && queueCapacity >= 0
      ensures Valid() && holders == {} && totalCapacity == maxThreadPoolSize + queueCapacity
    {
      totalCapacity := maxThreadPoolSize + queueCapacity;
      semaphore, availablePermits := maxThreadPoolSize + queueCapacity, maxThreadPoolSize + queueCapacity;
      holders := {};
    }

    method AcquirePermission(ghost id: nat) returns (acquired: bool)
      requires Valid() && id !in holders
      modifies this
      ensures Valid()
      ensures acquired <==> |old(holders)| < totalCapacity
      ensures holders == if acquired then old(holders) + {id} else old(holders)
    {
      if availablePermits <= 0 {
        return false;
      }
      semaphore := semaphore - 1;
      availablePermits := availablePermits - 1;
      holders := holders + {id};
      return true;
    }

    method ReleasePermission(ghost id: nat)
      requires Valid() && id in holders
      modifies this
      ensures Valid() && holders == old(holders) - {id}
    {
      semaphore := semaphore + 1;
      availablePermits := availablePermits + 1;
      holders := holders - {id};
    }
  }

  // ---------- Line-level interleavings ----------

  datatype PC =
    | Checking    // about to test the counter
    | Passed      // saw a positive counter, has no permit yet
    | Uncounted   // has the semaphore, not yet subtracted from the counter
    | Permitted   // counted, about to start its function
    | Queued      // submitted, not yet picked up by a worker
    | OnThread    // a worker runs the function
    | InLoop      // an async function runs in the event loop
    | Ended       // the call returned, raised or was cancelled
    | Uncredited  // semaphore given back, counter not yet incremented

  // What cancelled submissions leave in the executor: `orphans` still run on their worker, and dead
  // items stay in `work`, the executor's own queue, until a worker drops them.
  datatype Pool = Pool(
    threads: nat, queue: nat, semaphore: int, counter: int, pcs: map<nat, PC>,
    orphans: multiset<nat>, work: seq<Job>)
  {
    function Capacity(): nat {
      threads + queue
    }
  }

  datatype Action =
    | Arrive(task: nat)
    | Check(task: nat)
    | Take(task: nat)
    | CountDown(task: nat)
    | Submit(task: nat)
    | Pick(task: nat)         // an idle worker starts the first function in the queue
    | Inline(task: nat)
    | End(task: nat)          // the function returned or raised
    | Cancel(task: nat)       // the call is cancelled after it got its permit
    | Release(task: nat)
    | CountUp(task: nat)
    | OrphanEnds(task: nat)
    | DropDead(task: nat)     // an idle worker takes a cancelled item off the front of the queue

  function Start(threads: nat, queue: nat): Pool {
    Pool(threads, queue, threads + queue, threads + queue, map[], multiset{}, [])
  }

  ghost function N(b: Pool, pc: PC): nat {
    |At(b.pcs, pc)|
  }

  ghost function BusyWorkers(b: Pool): nat {
    N(b, OnThread) + |b.orphans|
  }

  // Whether a task at this place can execute this action.
  predicate Ready(pc: PC, a: Action) {
    match a
    case Check(_) => pc == Checking
    case Take(_) => pc == Passed
    case CountDown(_) => pc == Uncounted
    case Submit(_) => pc == Permitted
    case Pick(_) => pc == Queued
    case Inline(_) => pc == Permitted
    case End(_) => pc == OnThread || pc == InLoop
    case Cancel(_) => pc == Permitted || pc == Queued || pc == OnThread || pc == InLoop
    case Release(_) => pc == Ended
    case CountUp(_) => pc == Uncredited
    case _ => false
  }

  ghost predicate Enabled(b: Pool, a: Action) {
    match a
    case Arrive(t) => t !in b.pcs
    case OrphanEnds(t) => t in b.orphans
    case DropDead(t) => First(b.work, Dead(t)) && BusyWorkers(b) < b.threads
    case _ =>
      && a.task in b.pcs && Ready(b.pcs[a.task], a)
      && (a.Take? ==> b.semaphore > 0)
      && (a.Pick? ==> First(b.work, Live(a.task)) && BusyWorkers(b) < b.threads)
  }

  ghost function Step(b: Pool, a: Action): Pool {
    if !Enabled(b, a) then b
    else match a
      case Arrive(t) => b.(pcs := b.pcs[t := Checking])
      case Check(t) => b.(pcs := if b.counter <= 0 then b.pcs - {t} else b.pcs[t := Passed])
      case Take(t) => b.(semaphore := b.semaphore - 1, pcs := b.pcs[t := Uncounted])
      case CountDown(t) => b.(counter := b.counter - 1, pcs := b.pcs[t := Permitted])
      case Submit(t) => b.(pcs := b.pcs[t := Queued], work := b.work + [Live(t)])
      case Pick(t) => b.(pcs := b.pcs[t := OnThread], work := b.work[1..])
      case Inline(t) => b.(pcs := b.pcs[t := InLoop])
      case End(t) => b.(pcs := b.pcs[t := Ended])
      case Cancel(t) =>
        b.(pcs := b.pcs[t := Ended],
           orphans := if b.pcs[t] == OnThread then b.orphans + multiset{t} else b.orphans,
           work := if b.pcs[t] == Queued then Retire(b.work, t) else b.work)
      case Release(t) => b.(semaphore := b.semaphore + 1, pcs := b.pcs[t := Uncredited])
      case CountUp(t) => b.(counter := b.counter + 1, pcs := b.pcs - {t})
      case OrphanEnds(t) => b.(orphans := b.orphans - multiset{t})
      case DropDead(_) => b.(work := b.work[1..])
  }

  ghost function Run(b: Pool, acts: seq<Action>): Pool {
    if acts == [] then b else Step(Run(b, acts[..|acts| - 1]), acts[|acts| - 1])
  }

  // Calls that hold a counted permit.
  ghost function Held(b: Pool): nat {
    N(b, Permitted) + N(b, Queued) + N(b, OnThread) + N(b, InLoop) + N(b, Ended)
  }

  ghost predicate Conserved(b: Pool) {
    && 0 <= b.semaphore == b.Capacity() - (N(b, Uncounted) + Held(b))
    && b.counter == b.Capacity() - (Held(b) + N(b, Uncredited))
    && BusyWorkers(b) <= b.threads
  }

  ghost predicate SameSize(b: Pool, c: Pool) {
    c.threads == b.threads && c.queue == b.queue
  }

  lemma CallStepConserves(b: Pool, a: Action, c: Pool)
    requires Conserved(b) && Enabled(b, a) && c == Step(b, a) && a.task in c.pcs
    requires !a.Pick? && !a.End? && !a.Cancel? && !a.OrphanEnds? && !a.DropDead?
    ensures Conserved(c)
  {
    Recount(b.pcs, a.task, c.pcs[a.task], c.pcs);
  }

  lemma JobStepConserves(b: Pool, a: Action, c: Pool)
    requires Conserved(b) && Enabled(b, a) && c == Step(b, a) && (a.Pick? || a.End? || a.Cancel?)
    ensures Conserved(c)
  {
    Recount(b.pcs, a.task, c.pcs[a.task], c.pcs);
  }

  lemma LeavingConserves(b: Pool, a: Action, c: Pool)
    requires Conserved(b) && Enabled(b, a) && c == Step(b, a) && (a.Check? || a.CountUp?) && a.task !in c.pcs
    ensures Conserved(c)
  {
    RecountLeft(b.pcs, a.task, c.pcs);
  }

  lemma StepConserves(b: Pool, a: Action)
    requires Conserved(b)
    ensures Conserved(Step(b, a)) && SameSize(b, Step(b, a))
  {
    var c := Step(b, a);
    if Enabled(b, a) && !a.OrphanEnds? && !a.DropDead? {
      if a.task !in c.pcs {
        LeavingConserves(b, a, c);
      } else if a.Pick? || a.End? || a.Cancel? {
        JobStepConserves(b, a, c);
      } else {
        CallStepConserves(b, a, c);
      }
    }
  }

  // ---------- The executor's queue ----------

  ghost predicate Lined(pcs: map<nat, PC>, work: seq<Job>) {
    Unique(work) && forall t :: Live(t) in work <==> t in pcs && pcs[t] == Queued
  }

  // The live items are the queued submissions, each once. All functions on threads were submitted
  // before any item in the queue, so together with the items before a dead one and the dead one
  // itself they once held permits at the same time.
  ghost predicate Ordered(b: Pool) {
    Lined(b.pcs, b.work) && N(b, OnThread) + Reserved(b.work) <= b.Capacity()
  }

  lemma QueueCount(b: Pool)
    requires Lined(b.pcs, b.work)
    ensures |b.work| == N(b, Queued) + DeadIn(b.work)
  {
    UniqueCount(b.work);
    assert forall t :: t in LiveTasks(b.work) <==> Live(t) in b.work;
    assert LiveTasks(b.work) == At(b.pcs, Queued);
  }

  lemma SubmitLined(pcs: map<nat, PC>, work: seq<Job>, t: nat)
    requires Lined(pcs, work) && t in pcs && pcs[t] != Queued
    ensures Lined(pcs[t := Queued], work + [Live(t)])
  {
    assert Live(t) !in work;
  }

  lemma PickLined(pcs: map<nat, PC>, work: seq<Job>, t: nat)
    requires Lined(pcs, work) && work != [] && work[0] == Live(t)
    ensures Lined(pcs[t := OnThread], work[1..])
  {
    assert work == [work[0]] + work[1..];
    assert Live(t) !in work[1..];
  }

  lemma DropLined(pcs: map<nat, PC>, work: seq<Job>)
    requires Lined(pcs, work) && work != [] && work[0].Dead?
    ensures Lined(pcs, work[1..])
  {
    assert work == [work[0]] + work[1..];
  }

  lemma RetireLined(pcs: map<nat, PC>, work: seq<Job>, t: nat)
    requires Lined(pcs, work)
    ensures Lined(pcs[t := Ended], Retire(work, t))
  {
    var r := Retire(work, t);
    forall u ensures Live(u) in r <==> u != t && Live(u) in work {
      if u != t && Live(u) in work {
        var i :| 0 <= i < |work| && work[i] == Live(u);
        assert r[i] == Live(u);
      }
    }
  }

  lemma SubmitStep(b: Pool, t: nat, c: Pool)
    requires Ordered(b) && Enabled(b, Submit(t)) && c == Step(b, Submit(t))
    ensures Ordered(c)
  {
    SubmitLined(b.pcs, b.work, t);
    Moved(b.pcs, t, Queued, OnThread);
    Appended(b.work, Live(t));
  }

  lemma PickStep(b: Pool, t: nat, c: Pool)
    requires Ordered(b) && Enabled(b, Pick(t)) && c == Step(b, Pick(t))
    ensures Ordered(c)
  {
    PickLined(b.pcs, b.work, t);
    Moved(b.pcs, t, OnThread, OnThread);
    HeadTaken(b.work);
    assert N(b, OnThread) < b.threads;
  }

  // The cancelled item, the live ones left in the queue and the functions on threads hold, or have
  // just held, different permits.
  lemma CancelStep(b: Pool, t: nat, c: Pool)
    requires Conserved(b) && Ordered(b) && Enabled(b, Cancel(t)) && c == Step(b, Cancel(t))
    ensures Ordered(c)
  {
    Moved(b.pcs, t, Ended, OnThread);
    if b.pcs[t] == Queued {
      RetireLined(b.pcs, b.work, t);
      Moved(b.pcs, t, Ended, Queued);
      QueueCount(c);
    }
  }

  lemma OrderedStep(b: Pool, a: Action, c: Pool)
    requires Conserved(b) && Ordered(b) && Enabled(b, a) && c == Step(b, a)
    ensures Ordered(c)
  {
    match a
    case Submit(t) => SubmitStep(b, t, c);
    case Pick(t) => PickStep(b, t, c);
    case Cancel(t) => CancelStep(b, t, c);
    case OrphanEnds(_) =>
    case DropDead(_) =>
      DropLined(b.pcs, b.work);
      HeadTaken(b.work);
    case _ => QuietStep(b, a, c);
  }

  // Lines that do not concern the executor.
  lemma QuietStep(b: Pool, a: Action, c: Pool)
    requires Ordered(b) && Enabled(b, a) && c == Step(b, a)
    requires !a.Submit? && !a.Pick? && !a.Cancel? && !a.OrphanEnds? && !a.DropDead?
    ensures Ordered(c)
  {
    if a.task in c.pcs {
      Recount(b.pcs, a.task, c.pcs[a.task], c.pcs);
    } else {
      RecountLeft(b.pcs, a.task, c.pcs);
    }
  }

  lemma {:induction false} RunConserves(threads: nat, queue: nat, acts: seq<Action>)
    ensures Conserved(Run(Start(threads, queue), acts)) && Ordered(Run(Start(threads, queue), acts))
    ensures SameSize(Start(threads, queue), Run(Start(threads, queue), acts))
  {
    if acts == [] {
      assert forall pc :: At(Start(threads, queue).pcs, pc) == {};
    } else {
      RunConserves(threads, queue, acts[..|acts| - 1]);
      var b, a := Run(Start(threads, queue), acts[..|acts| - 1]), acts[|acts| - 1];
      StepConserves(b, a);
      if Enabled(b, a) {
        OrderedStep(b, a, Step(b, a));
      }
    }
  }

  ghost predicate NoCancel(acts: seq<Action>) {
    forall a <- acts :: !a.Cancel?
  }

  lemma {:induction false} NothingLeftBehind(threads: nat, queue: nat, acts: seq<Action>, b: Pool)
    requires NoCancel(acts) && b == Run(Start(threads, queue), acts)
    ensures b.orphans == multiset{} && DeadIn(b.work) == 0
  {
    if acts != [] {
      var before, a := Run(Start(threads, queue), acts[..|acts| - 1]), acts[|acts| - 1];
      NothingLeftBehind(threads, queue, acts[..|acts| - 1], before);
      if a.Submit? {
        Appended(before.work, Live(a.task));
      } else if (a.Pick? || a.DropDead?) && before.work != [] {
        HeadTaken(before.work);
      }
    }
  }

  // Despite the gap between check and acquire, permits never exceed threads + queue. The executor's
  // own queue, which nothing else limits, exceeds the queue capacity at most by the idle workers
  // and by what cancelled submissions left in the executor. While it holds a dead item, fewer calls
  // than there are permits have their function on a thread.
  lemma Capacity(threads: nat, queue: nat, acts: seq<Action>, b: Pool)
    requires b == Run(Start(threads, queue), acts)
    ensures N(b, Uncounted) + Held(b) <= threads + queue && BusyWorkers(b) <= threads
    ensures |b.work| <= queue + (threads - BusyWorkers(b)) + |b.orphans| + DeadIn(b.work)
    ensures DeadIn(b.work) > 0 ==> N(b, OnThread) < threads + queue
    ensures NoCancel(acts) && BusyWorkers(b) == threads ==> |b.work| <= queue
    ensures Held(b) == N(b, Uncounted) == N(b, Uncredited) == 0 ==> b.semaphore == b.counter == threads + queue
  {
    RunConserves(threads, queue, acts);
    QueueCount(b);
    if NoCancel(acts) {
      NothingLeftBehind(threads, queue, acts, b);
    }
  }

  // An idle worker can always take the first item off the queue.
  lemma QueueMoves(threads: nat, queue: nat, acts: seq<Action>, b: Pool)
    requires b == Run(Start(threads, queue), acts) && b.work != [] && BusyWorkers(b) < threads
    ensures Enabled(b, if b.work[0].Live? then Pick(b.work[0].task) else DropDead(b.work[0].task))
  {
    RunConserves(threads, queue, acts);
    assert b.work[0] in b.work;
  }

  // ---------- What each step changes ----------

  lemma PlacesChange(b: Pool, a: Action, c: Pool)
    requires Enabled(b, a) && c == Step(b, a)
    ensures N(c, Permitted) == N(b, Permitted) + Delta(
              a.CountDown?, a.Inline? || a.Submit? || (a.Cancel? && b.pcs[a.task].Permitted?))
    ensures N(c, Queued) == N(b, Queued) + Delta(a.Submit?, a.Pick? || (a.Cancel? && b.pcs[a.task].Queued?))
    ensures N(c, OnThread) == N(b, OnThread) + Delta(
              a.Pick?, (a.End? || a.Cancel?) && b.pcs[a.task].OnThread?)
    ensures N(c, InLoop) == N(b, InLoop) + Delta(a.Inline?, (a.End? || a.Cancel?) && b.pcs[a.task].InLoop?)
    ensures N(c, Ended) == N(b, Ended) + Delta(a.End? || a.Cancel?, a.Release?)
  {
    if !a.OrphanEnds? && !a.DropDead? {
      if a.task in c.pcs {
        Recount(b.pcs, a.task, c.pcs[a.task], c.pcs);
      } else {
        RecountLeft(b.pcs, a.task, c.pcs);
      }
    }
  }

  // Permits are taken when counted and given back on release; a worker is busy from picking a function
  // up until that function ends, whatever becomes of its call; and the queue grows by submissions only
  // and shrinks only at its front.
  lemma StepChanges(b: Pool, a: Action, c: Pool)
    requires Enabled(b, a) && c == Step(b, a)
    ensures Held(c) == Held(b) + Delta(a.CountDown?, a.Release?)
    ensures BusyWorkers(c) == BusyWorkers(b) + Delta(
              a.Pick?, a.OrphanEnds? || (a.End? && b.pcs[a.task].OnThread?))
    ensures |c.work| == |b.work| + Delta(a.Submit?, a.Pick? || a.DropDead?)
  {
    PlacesChange(b, a, c);
  }

  // The places an admitted call goes through, in the event loop or on a thread, up to its release.
  lemma CallLife(b: Pool, t: nat, inline: bool, m: Pool, ended: Pool)
    requires t in b.pcs && b.pcs[t] == Permitted
    requires inline || (b.work == [] && BusyWorkers(b) < b.threads)
    requires m == if inline then Step(b, Inline(t)) else Step(Step(b, Submit(t)), Pick(t))
    requires ended == Step(m, End(t))
    ensures m.pcs == b.pcs[t := if inline then InLoop else OnThread] && m.work == b.work
    ensures ended.pcs == b.pcs[t := Ended] && ended.work == b.work && ended.orphans == b.orphans
    ensures Enabled(m, End(t)) && Enabled(ended, Release(t))
  {
    if !inline {
      Moved(b.pcs, t, Queued, OnThread);
      assert b.pcs[t := Queued][t := OnThread] == b.pcs[t := OnThread];
    }
    assert m.pcs[t := Ended] == b.pcs[t := Ended];
  }

  // ---------- Suspension-point granularity ----------

  // Between suspension points no task is in the middle of acquiring or releasing.
  ghost predicate Settled(b: Pool) {
    Conserved(b) && forall t <- b.pcs :: Whole(b.pcs[t])
  }

  predicate Whole(pc: PC) {
    pc.Permitted? || pc.Queued? || pc.OnThread? || pc.InLoop? || pc.Ended?
  }

  lemma SettledCounts(b: Pool)
    requires Settled(b)
    ensures b.semaphore == b.counter == b.Capacity() - Held(b)
  {
    assert At(b.pcs, Uncounted) == {} && At(b.pcs, Uncredited) == {};
  }

  // Acquiring indivisibly: refused iff every permit is held, and otherwise a sequence of enabled
  // lines, so never blocked.
  lemma AtomicAcquire(b: Pool, t: nat, b1: Pool, b2: Pool)
    requires Settled(b) && t !in b.pcs
    requires b1 == Step(b, Arrive(t)) && b2 == Step(b1, Check(t))
    ensures Enabled(b, Arrive(t)) && Enabled(b1, Check(t))
    ensures if Held(b) == b.Capacity() then b2 == b
            else b2 == b.(pcs := b.pcs[t := Passed]) && Enabled(b2, Take(t)) && Enabled(Step(b2, Take(t)), CountDown(t))
  {
    SettledCounts(b);
    assert b1.pcs - {t} == b.pcs;
  }

  lemma AtomicAcquireSettles(b: Pool, t: nat, b1: Pool, b2: Pool, b3: Pool)
    requires Settled(b) && t !in b.pcs && Held(b) < b.Capacity()
    requires b1 == b.(pcs := b.pcs[t := Passed]) && b2 == Step(b1, Take(t)) && b3 == Step(b2, CountDown(t))
    ensures Settled(b3) && b3.pcs == b.pcs[t := Permitted]
  {
    PassedConserves(b, t, b1);
    SettledCounts(b);
    StepConserves(b1, Take(t));
    StepConserves(b2, CountDown(t));
    TakeAndCount(b1, t, b2, b3);
    assert b3.pcs == b.pcs[t := Permitted];
    SettledAgain(b, b3, t);
  }

  lemma TakeAndCount(b: Pool, t: nat, b1: Pool, b2: Pool)
    requires t in b.pcs && b.pcs[t] == Passed && b.semaphore > 0
    requires b1 == Step(b, Take(t)) && b2 == Step(b1, CountDown(t))
    ensures b2.pcs == b.pcs[t := Permitted]
  {
    assert b1.pcs == b.pcs[t := Uncounted];
    assert b.pcs[t := Uncounted][t := Permitted] == b.pcs[t := Permitted];
  }

  lemma PassedConserves(b: Pool, t: nat, b1: Pool)
    requires Conserved(b) && t !in b.pcs && b1 == b.(pcs := b.pcs[t := Passed])
    ensures Conserved(b1)
  {
    Recount(b.pcs, t, Passed, b1.pcs);
  }

  lemma SettledAgain(b: Pool, c: Pool, t: nat)
    requires Settled(b) && Conserved(c) && (c.pcs == b.pcs[t := Permitted] || c.pcs == b.pcs - {t})
    ensures Settled(c)
  {
  }

  lemma AtomicRelease(b: Pool, t: nat, b1: Pool, b2: Pool)
    requires Settled(b) && t in b.pcs && b.pcs[t] == Ended
    requires b1 == Step(b, Release(t)) && b2 == Step(b1, CountUp(t))
    ensures Enabled(b, Release(t)) && Enabled(b1, CountUp(t))
    ensures Settled(b2) && b2.pcs == b.pcs - {t}
  {
    ReleaseAndCount(b, t, b1, b2);
    StepConserves(b, Release(t));
    StepConserves(b1, CountUp(t));
    SettledAgain(b, b2, t);
  }

  lemma ReleaseAndCount(b: Pool, t: nat, b1: Pool, b2: Pool)
    requires t in b.pcs && b.pcs[t] == Ended
    requires b1 == Step(b, Release(t)) && b2 == Step(b1, CountUp(t))
    ensures Enabled(b, Release(t)) && Enabled(b1, CountUp(t)) && b2.pcs == b.pcs - {t}
  {
    assert b1.pcs == b.pcs[t := Uncredited];
    assert b.pcs[t := Uncredited] - {t} == b.pcs - {t};
  }

  // ---------- Cancelled submissions exceed the queue capacity ----------

  ghost predicate Reachable(threads: nat, queue: nat, b: Pool) {
    exists acts: seq<Action> :: Run(Start(threads, queue), acts) == b
  }

  lemma ReachableStep(threads: nat, queue: nat, b: Pool, a: Action)
    requires Reachable(threads, queue, b)
    ensures Reachable(threads, queue, Step(b, a))
  {
    var acts :| Run(Start(threads, queue), acts) == b;
    assert (acts + [a])[..|acts|] == acts;
    assert Run(Start(threads, queue), acts + [a]) == Step(b, a);
  }

  lemma ReachableInv(threads: nat, queue: nat, b: Pool)
    requires Reachable(threads, queue, b)
    ensures Conserved(b) && Ordered(b) && SameSize(Start(threads, queue), b)
  {
    var acts :| Run(Start(threads, queue), acts) == b;
    RunConserves(threads, queue, acts);
  }

  function Place(t: nat, r: nat): PC {
    if t < r then OnThread else Queued
  }

  // Tasks 0 to n - 1, the first r of them on a thread and the others queued.
  function Layout(n: nat, r: nat): (pcs: map<nat, PC>)
    ensures forall t <- pcs :: t < n
  {
    if n == 0 then map[] else Layout(n - 1, r)[n - 1 := Place(n - 1, r)]
  }

  lemma {:induction false} LayoutCounts(n: nat, r: nat, pc: PC)
    ensures |At(Layout(n, r), pc)| ==
            if pc.OnThread? then if n < r then n else r else if pc.Queued? && r < n then n - r else 0
  {
    if n == 0 {
      assert At(Layout(n, r), pc) == {};
    } else {
      LayoutCounts(n - 1, r, pc);
      Arrived(Layout(n - 1, r), n - 1, Place(n - 1, r), pc);
    }
  }

  lemma LayoutHeld(n: nat, r: nat, b: Pool)
    requires b.pcs == Layout(n, r)
    ensures Held(b) == n && N(b, OnThread) == if n < r then n else r
    ensures r <= n ==> N(b, Queued) == n - r
  {
    forall pc ensures |At(Layout(n, r), pc)| ==
                      if pc.OnThread? then if n < r then n else r else if pc.Queued? && r < n then n - r else 0
    {
      LayoutCounts(n, r, pc);
    }
  }

  // Reached and settled, with o orphans and this queue.
  ghost predicate Loaded(threads: nat, queue: nat, b: Pool, o: nat, work: seq<Job>) {
    && Reachable(threads, queue, b) && Settled(b) && SameSize(Start(threads, queue), b)
    && |b.orphans| == o && b.work == work
  }

  lemma Admitted(threads: nat, queue: nat, b: Pool, o: nat, work: seq<Job>, t: nat) returns (c: Pool)
    requires Loaded(threads, queue, b, o, work) && t !in b.pcs && Held(b) < threads + queue
    ensures Loaded(threads, queue, c, o, work) && c.pcs == b.pcs[t := Permitted]
  {
    var b1 := Step(b, Arrive(t));
    var b2 := Step(b1, Check(t));
    var b3 := Step(b2, Take(t));
    c := Step(b3, CountDown(t));
    ReachableStep(threads, queue, b, Arrive(t));
    ReachableStep(threads, queue, b1, Check(t));
    ReachableStep(threads, queue, b2, Take(t));
    ReachableStep(threads, queue, b3, CountDown(t));
    AtomicAcquire(b, t, b1, b2);
    AtomicAcquireSettles(b, t, b2, b3, c);
  }

  // A call between suspension points is submitted or picked up.
  lemma Advanced(threads: nat, queue: nat, b: Pool, o: nat, work: seq<Job>, a: Action)
    requires Loaded(threads, queue, b, o, work) && Enabled(b, a) && (a.Submit? || a.Pick?)
    ensures Loaded(threads, queue, Step(b, a), o, if a.Pick? then work[1..] else work + [Live(a.task)])
    ensures Step(b, a).pcs == b.pcs[a.task := if a.Pick? then OnThread else Queued]
  {
    ReachableStep(threads, queue, b, a);
    StepConserves(b, a);
  }

  lemma Submitted(threads: nat, queue: nat, b: Pool, o: nat, work: seq<Job>, t: nat) returns (c: Pool)
    requires Loaded(threads, queue, b, o, work) && t !in b.pcs && Held(b) < threads + queue
    ensures Loaded(threads, queue, c, o, work + [Live(t)]) && c.pcs == b.pcs[t := Queued]
    ensures BusyWorkers(c) == BusyWorkers(b)
  {
    var m := Admitted(threads, queue, b, o, work, t);
    c := Step(m, Submit(t));
    Advanced(threads, queue, m, o, work, Submit(t));
    assert c.pcs == b.pcs[t := Queued];
    Moved(b.pcs, t, Queued, OnThread);
  }

  // With an empty queue an idle worker starts the submission at once.
  lemma Picked(threads: nat, queue: nat, b: Pool, o: nat, t: nat) returns (c: Pool)
    requires Loaded(threads, queue, b, o, []) && t !in b.pcs && Held(b) < threads + queue
    requires BusyWorkers(b) < threads
    ensures Loaded(threads, queue, c, o, []) && c.pcs == b.pcs[t := OnThread]
  {
    var m := Submitted(threads, queue, b, o, [], t);
    c := Step(m, Pick(t));
    Advanced(threads, queue, m, o, [] + [Live(t)], Pick(t));
    assert c.pcs == b.pcs[t := OnThread];
  }

  lemma CancelSettles(b: Pool, t: nat, c: Pool)
    requires Settled(b) && t in b.pcs && Ready(b.pcs[t], Cancel(t)) && c == Step(b, Cancel(t))
    ensures Settled(c) && c.pcs == b.pcs[t := Ended] && SameSize(b, c)
    ensures |c.orphans| == |b.orphans| + if b.pcs[t] == OnThread then 1 else 0
    ensures c.work == if b.pcs[t] == Queued then Retire(b.work, t) else b.work
  {
    StepConserves(b, Cancel(t));
    assert forall u <- c.pcs :: Whole(c.pcs[u]);
  }

  lemma CancelReleases(b: Pool, t: nat, m: Pool, r: Pool, c: Pool)
    requires Settled(b) && t in b.pcs && Ready(b.pcs[t], Cancel(t))
    requires m == Step(b, Cancel(t)) && r == Step(m, Release(t)) && c == Step(r, CountUp(t))
    ensures Settled(c) && c.pcs == b.pcs - {t} && SameSize(b, c)
    ensures |c.orphans| == |b.orphans| + if b.pcs[t] == OnThread then 1 else 0
    ensures c.work == if b.pcs[t] == Queued then Retire(b.work, t) else b.work
  {
    CancelSettles(b, t, m);
    AtomicRelease(m, t, r, c);
    assert b.pcs[t := Ended] - {t} == b.pcs - {t};
  }

  lemma Reachable3(threads: nat, queue: nat, b: Pool, a1: Action, a2: Action, a3: Action)
    requires Reachable(threads, queue, b)
    ensures Reachable(threads, queue, Step(Step(Step(b, a1), a2), a3))
  {
    ReachableStep(threads, queue, b, a1);
    ReachableStep(threads, queue, Step(b, a1), a2);
    ReachableStep(threads, queue, Step(Step(b, a1), a2), a3);
  }

  // The call is cancelled and gives its permit back; its job stays in the executor.
  lemma Cancelled(threads: nat, queue: nat, b: Pool, o: nat, work: seq<Job>, t: nat, onThread: bool) returns (c: Pool)
    requires Loaded(threads, queue, b, o, work) && t in b.pcs && b.pcs[t] == if onThread then OnThread else Queued
    ensures Loaded(threads, queue, c, if onThread then o + 1 else o, if onThread then work else Retire(work, t))
    ensures c.pcs == b.pcs - {t}
  {
    c := Step(Step(Step(b, Cancel(t)), Release(t)), CountUp(t));
    Reachable3(threads, queue, b, Cancel(t), Release(t), CountUp(t));
    CancelReleases(b, t, Step(b, Cancel(t)), Step(Step(b, Cancel(t)), Release(t)), c);
  }

  // First the orphans: each call is cancelled as soon as a worker runs it.
  lemma {:induction false} Orphans(threads: nat, queue: nat, o: nat) returns (b: Pool)
    requires threads > 0 && o <= threads
    ensures Loaded(threads, queue, b, o, []) && b.pcs == map[]
  {
    if o == 0 {
      b := Start(threads, queue);
      assert Run(b, []) == b;
      RunConserves(threads, queue, []);
    } else {
      var before := Orphans(threads, queue, o - 1);
      assert before.pcs == Layout(0, 0);
      LayoutHeld(0, 0, before);
      var m := Picked(threads, queue, before, o - 1, 0);
      b := Cancelled(threads, queue, m, o - 1, [], 0, true);
      assert b.pcs == map[];
    }
  }

  lemma OneMoreRunning(threads: nat, queue: nat, b: Pool, o: nat, r: nat) returns (c: Pool)
    requires Loaded(threads, queue, b, o, []) && b.pcs == Layout(r, r) && r + o < threads
    ensures Loaded(threads, queue, c, o, []) && c.pcs == Layout(r + 1, r + 1)
  {
    LayoutHeld(r, r, b);
    c := Picked(threads, queue, b, o, r);
    LayoutAllRunning(r);
  }

  lemma {:induction false} LayoutAllRunning(n: nat)
    ensures forall r, q | r >= n && q >= n :: Layout(n, r) == Layout(n, q)
  {
    if n > 0 {
      LayoutAllRunning(n - 1);
    }
  }

  // Then the calls that keep the other workers busy.
  lemma {:induction false} Workers(threads: nat, queue: nat, o: nat, r: nat) returns (b: Pool)
    requires threads > 0 && r + o <= threads
    ensures Loaded(threads, queue, b, o, []) && b.pcs == Layout(r, r)
  {
    if r == 0 {
      b := Orphans(threads, queue, o);
    } else {
      b := Workers(threads, queue, o, r - 1);
      b := OneMoreRunning(threads, queue, b, o, r - 1);
    }
  }

  lemma OneMoreCancelled(threads: nat, queue: nat, b: Pool, o: nat, r: nat) returns (c: Pool)
    requires Loaded(threads, queue, b, o, b.work) && b.pcs == Layout(r, r) && r < threads + queue
    ensures Loaded(threads, queue, c, o, c.work) && c.pcs == b.pcs && DeadIn(c.work) == DeadIn(b.work) + 1
  {
    LayoutHeld(r, r, b);
    var m := Submitted(threads, queue, b, o, b.work, r);
    c := Cancelled(threads, queue, m, o, m.work, r, false);
    assert c.pcs == b.pcs;
    OneMoreDead(threads, queue, b, c);
  }

  // Then submissions cancelled in the queue.
  lemma {:induction false} DeadItems(threads: nat, queue: nat, o: nat, r: nat, d: nat) returns (b: Pool)
    requires threads > 0 && r + o <= threads && (d > 0 ==> r < threads + queue)
    ensures Loaded(threads, queue, b, o, b.work) && DeadIn(b.work) == d && b.pcs == Layout(r, r)
  {
    if d == 0 {
      b := Workers(threads, queue, o, r);
    } else {
      b := DeadItems(threads, queue, o, r, d - 1);
      b := OneMoreCancelled(threads, queue, b, o, r);
    }
  }

  lemma OneMoreDead(threads: nat, queue: nat, b: Pool, c: Pool)
    requires Reachable(threads, queue, b) && Reachable(threads, queue, c) && c.pcs == b.pcs
    requires |c.work| == |b.work| + 1
    ensures DeadIn(c.work) == DeadIn(b.work) + 1
  {
    ReachableInv(threads, queue, b);
    ReachableInv(threads, queue, c);
    QueueCount(b);
    QueueCount(c);
  }

  // And last the submissions that stay queued.
  lemma {:induction false} Load(threads: nat, queue: nat, o: nat, r: nat, d: nat, n: nat) returns (b: Pool)
    requires threads > 0 && r + o <= threads && (d > 0 ==> r < threads + queue) && r <= n <= threads + queue
    ensures Loaded(threads, queue, b, o, b.work) && DeadIn(b.work) == d && b.pcs == Layout(n, r)
  {
    if n == r {
      b := DeadItems(threads, queue, o, r, d);
    } else {
      var before := Load(threads, queue, o, r, d, n - 1);
      b := OneMoreQueued(threads, queue, before, o, n - 1, r);
    }
  }

  lemma OneMoreQueued(threads: nat, queue: nat, b: Pool, o: nat, n: nat, r: nat) returns (c: Pool)
    requires Loaded(threads, queue, b, o, b.work) && b.pcs == Layout(n, r) && r <= n < threads + queue
    ensures Loaded(threads, queue, c, o, c.work) && DeadIn(c.work) == DeadIn(b.work)
    ensures c.pcs == b.pcs[n := Queued]
  {
    LayoutHeld(n, r, b);
    c := Submitted(threads, queue, b, o, b.work, n);
    Appended(b.work, Live(n));
  }

  // All workers busy, o of them with orphans, d dead items in the queue, and the queue longer than its
  // capacity by all of them.
  ghost predicate Overfull(threads: nat, queue: nat, b: Pool, o: nat, d: nat) {
    && Reachable(threads, queue, b) && BusyWorkers(b) == threads
    && |b.orphans| == o && DeadIn(b.work) == d && |b.work| == queue + o + d
  }

  // The bound with cancelled submissions is exact, except that with queue capacity 0 and no orphan a
  // dead item cannot be behind busy workers: it would have held a permit beside all of theirs.
  lemma CancellationExceedsQueueIff(threads: nat, queue: nat, o: nat, d: nat)
    requires threads > 0
    ensures (exists b :: Overfull(threads, queue, b, o, d)) <==> o <= threads && (d > 0 ==> o + queue > 0)
  {
    if o <= threads && (d > 0 ==> o + queue > 0) {
      var b := Load(threads, queue, o, threads - o, d, threads + queue);
      LayoutHeld(threads + queue, threads - o, b);
      ReachableInv(threads, queue, b);
      QueueCount(b);
      assert Overfull(threads, queue, b, o, d);
    }
    forall b | Overfull(threads, queue, b, o, d) ensures o <= threads && (d > 0 ==> o + queue > 0) {
      ReachableInv(threads, queue, b);
    }
  }
}
