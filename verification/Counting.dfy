/**
 * Counting the threads of a transition system that are at given program points.
 */
module Counting {

  /** Threads of `threads` whose program point satisfies `p`. */
  ghost function At<P>(threads: map<nat, P>, p: P -> bool): set<nat> {
    set t | t in threads && p(threads[t])
  }

  ghost function Count<P>(threads: map<nat, P>, p: P -> bool): nat {
    |At(threads, p)|
  }

  function One(b: bool): nat {
    if b then 1 else 0
  }

  /** Moving one thread changes a count by what that thread contributes before and after. */
  lemma CountMove<P>(threads: map<nat, P>, t: nat, pc: P, p: P -> bool)
    requires t in threads
    ensures Count(threads[t := pc], p) == Count(threads, p) - One(p(threads[t])) + One(p(pc))
  {
    var rest := At(threads, p) - {t};
    assert At(threads, p) == if p(threads[t]) then rest + {t} else rest;
    assert At(threads[t := pc], p) == if p(pc) then rest + {t} else rest;
  }

  lemma CountArrive<P>(threads: map<nat, P>, t: nat, pc: P, p: P -> bool)
    requires t !in threads
    ensures Count(threads[t := pc], p) == Count(threads, p) + One(p(pc))
  {
    assert At(threads[t := pc], p) == At(threads, p) + if p(pc) then {t} else {};
  }

  lemma CountLeave<P>(threads: map<nat, P>, t: nat, p: P -> bool)
    requires t in threads
    ensures Count(threads - {t}, p) == Count(threads, p) - One(p(threads[t]))
  {
    assert At(threads - {t}, p) == At(threads, p) - if p(threads[t]) then {t} else {};
  }

  lemma CountOfNone<P>(threads: map<nat, P>, p: P -> bool)
    requires forall t :: t in threads ==> !p(threads[t])
    ensures Count(threads, p) == 0
  {
    assert At(threads, p) == {};
  }

  /** The sum of a rank over all threads. */
  ghost function Total<P>(threads: map<nat, P>, rank: P -> nat): nat
    decreases |threads|
  {
    if threads == map[] then 0
    else
      var t :| t in threads;
      rank(threads[t]) + Total(threads - {t}, rank)
  }

  lemma {:induction false} TotalTake<P>(threads: map<nat, P>, rank: P -> nat, t: nat)
    requires t in threads
    ensures Total(threads, rank) == rank(threads[t]) + Total(threads - {t}, rank)
    decreases |threads|
  {
    var u :| u in threads && Total(threads, rank) == rank(threads[u]) + Total(threads - {u}, rank);
    if u != t {
      TotalTake(threads - {u}, rank, t);
      TotalTake(threads - {t}, rank, u);
      assert threads - {u} - {t} == threads - {t} - {u};
    }
  }

  /** A thread that moves to a lower rank or leaves lowers the sum. */
  lemma TotalFalls<P>(threads: map<nat, P>, threads': map<nat, P>, rank: P -> nat, t: nat)
    requires t in threads && threads' - {t} == threads - {t}
    requires if t in threads' then rank(threads'[t]) < rank(threads[t]) else rank(threads[t]) > 0
    ensures Total(threads', rank) < Total(threads, rank)
  {
    TotalTake(threads, rank, t);
    if t in threads' {
      TotalTake(threads', rank, t);
    } else {
      assert threads' == threads - {t};
    }
  }

  lemma SubsetSize<T>(a: set<T>, b: set<T>)
    requires a <= b
    ensures |a| <= |b|
  {
    assert b == a + (b - a);
  }
}
