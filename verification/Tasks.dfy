// Tasks at program counters, and how their numbers change when one task moves.

module Tasks {

  ghost function At<P>(pcs: map<nat, P>, p: P): set<nat> {
    set t | t in pcs && pcs[t] == p
  }

  lemma Arrived<P>(pcs: map<nat, P>, t: nat, to: P, p: P)
    requires t !in pcs
    ensures |At(pcs[t := to], p)| == |At(pcs, p)| + if to == p then 1 else 0
  {
    assert At(pcs[t := to], p) == At(pcs, p) + if to == p then {t} else {};
  }

  lemma Left<P>(pcs: map<nat, P>, t: nat, p: P)
    requires t in pcs
    ensures |At(pcs - {t}, p)| == |At(pcs, p)| - if pcs[t] == p then 1 else 0
  {
    Arrived(pcs - {t}, t, pcs[t], p);
    assert (pcs - {t})[t := pcs[t]] == pcs;
  }

  lemma Moved<P>(pcs: map<nat, P>, t: nat, to: P, p: P)
    ensures |At(pcs[t := to], p)| ==
            |At(pcs, p)| - (if t in pcs && pcs[t] == p then 1 else 0) + if to == p then 1 else 0
  {
    if t in pcs {
      Left(pcs, t, p);
      Arrived(pcs - {t}, t, to, p);
      assert (pcs - {t})[t := to] == pcs[t := to];
    } else {
      Arrived(pcs, t, to, p);
    }
  }

  // The numbers of tasks at each place after task t moved to place `to`, or left.
  lemma Recount<P(!new)>(pcs: map<nat, P>, t: nat, to: P, after: map<nat, P>)
    requires after == pcs[t := to]
    ensures forall p ::
              |At(after, p)| == |At(pcs, p)| - (if t in pcs && pcs[t] == p then 1 else 0) + if to == p then 1 else 0
  {
    forall p
      ensures |At(after, p)| == |At(pcs, p)| - (if t in pcs && pcs[t] == p then 1 else 0) + if to == p then 1 else 0
    {
      Moved(pcs, t, to, p);
    }
  }

  lemma RecountLeft<P(!new)>(pcs: map<nat, P>, t: nat, after: map<nat, P>)
    requires t in pcs && after == pcs - {t}
    ensures forall p :: |At(after, p)| == |At(pcs, p)| - if pcs[t] == p then 1 else 0
  {
    forall p ensures |At(after, p)| == |At(pcs, p)| - if pcs[t] == p then 1 else 0 {
      Left(pcs, t, p);
    }
  }

  // How a step moves a count.
  function Delta(up: bool, down: bool): int {
    if up then 1 else if down then -1 else 0
  }
}
