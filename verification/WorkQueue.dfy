// The work queue of an executor: first in, first out, and a cancelled item stays in it until a
// worker takes it off.

module WorkQueue {

  datatype Job = Live(task: nat) | Dead(task: nat)

  predicate First(work: seq<Job>, j: Job) {
    work != [] && work[0] == j
  }

  // The work item of a cancelled submission keeps its place.
  function Retire(work: seq<Job>, t: nat): (r: seq<Job>)
    ensures |r| == |work|
    ensures forall i :: 0 <= i < |work| ==> r[i] == if work[i] == Live(t) then Dead(t) else work[i]
  {
    seq(|work|, i requires 0 <= i < |work| => if work[i] == Live(t) then Dead(t) else work[i])
  }

  function DeadIn(work: seq<Job>): (n: nat)
    ensures n <= |work|
  {
    if work == [] then 0 else DeadIn(work[..|work| - 1]) + if work[|work| - 1].Dead? then 1 else 0
  }

  // The live items that were submitted before the last dead one, and that one; 0 without dead items.
  function Reserved(work: seq<Job>): (n: nat)
    ensures n <= |work| - DeadIn(work) + 1
    ensures n == 0 <==> DeadIn(work) == 0
  {
    if work == [] then 0
    else if work[|work| - 1].Dead? then |work| - DeadIn(work) + 1
    else Reserved(work[..|work| - 1])
  }

  ghost predicate Unique(work: seq<Job>) {
    forall i, j | 0 <= i < j < |work| && work[i].Live? :: work[i] != work[j]
  }

  ghost function LiveTasks(work: seq<Job>): set<nat> {
    set i | 0 <= i < |work| && work[i].Live? :: work[i].task
  }

  lemma {:induction false} UniqueCount(work: seq<Job>)
    requires Unique(work)
    ensures |LiveTasks(work)| + DeadIn(work) == |work|
  {
    if work != [] {
      var before, last := work[..|work| - 1], work[|work| - 1];
      UniqueCount(before);
      assert forall i | 0 <= i < |before| :: before[i] == work[i];
      assert LiveTasks(work) == LiveTasks(before) + if last.Live? then {last.task} else {};
      assert last.Live? ==> last.task !in LiveTasks(before);
    }
  }

  lemma Appended(work: seq<Job>, j: Job)
    ensures DeadIn(work + [j]) == DeadIn(work) + if j.Dead? then 1 else 0
    ensures j.Live? ==> Reserved(work + [j]) == Reserved(work)
  {
    assert (work + [j])[..|work|] == work;
  }

  // What taking the first item off the queue changes.
  lemma {:induction false} HeadTaken(work: seq<Job>)
    requires work != []
    ensures DeadIn(work[1..]) == DeadIn(work) - if work[0].Dead? then 1 else 0
    ensures Reserved(work[1..]) <= Reserved(work)
    ensures work[0].Live? && Reserved(work) > 0 ==> Reserved(work[1..]) == Reserved(work) - 1
  {
    if |work| > 1 {
      var before := work[..|work| - 1];
      HeadTaken(before);
      assert work[1..][..|work| - 2] == before[1..];
    }
  }
}
