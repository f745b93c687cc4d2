/**
 * What repeated checks do to a whole cluster (backend/src/consensus.rs): nodes
 * run `check_and_resolve` in any order, with no puts in between.
 */
module Convergence {
  import opened Wrappers
  import opened Consensus

  datatype Cluster = Cluster(backend: Store, locals: seq<Store>)

  /** Node `i` runs one check, as one atomic step. */
  function Check(strategy: Strategy, c: Cluster, i: nat): Cluster
    requires i < |c.locals|
  {
    var merged := Merged(strategy, c.locals[i], c.backend);
    Cluster(merged, c.locals[i := merged])
  }

  ghost predicate Scheduled(n: nat, schedule: seq<nat>) {
    forall i :: 0 <= i < |schedule| ==> schedule[i] < n
  }

  function RunChecks(strategy: Strategy, c: Cluster, schedule: seq<nat>): (r: Cluster)
    requires Scheduled(|c.locals|, schedule)
    ensures |r.locals| == |c.locals|
    decreases |schedule|
  {
    if schedule == [] then c
    else RunChecks(strategy, Check(strategy, c, schedule[0]), schedule[1..])
  }

  /** A round: every node checks at least once, in any order. */
  ghost predicate Round(n: nat, schedule: seq<nat>) {
    Scheduled(n, schedule) && forall i :: 0 <= i < n ==> i in schedule
  }

  ghost predicate Agreed(c: Cluster) {
    forall i :: 0 <= i < |c.locals| ==> c.locals[i] == c.backend
  }

  // ---------------------------------------------------------------------
  // One key at a time
  // ---------------------------------------------------------------------

  /** The entries held for one key, by the backend and by every node. */
  datatype Slot = Slot(backend: Option<Entry>, locals: seq<Option<Entry>>)

  ghost function At(c: Cluster, k: string): (s: Slot)
    ensures |s.locals| == |c.locals|
  {
    Slot(Get(c.backend, k), seq(|c.locals|, i requires 0 <= i < |c.locals| => Get(c.locals[i], k)))
  }

  function CheckSlot(strategy: Strategy, s: Slot, i: nat): Slot
    requires i < |s.locals|
  {
    var winner := ResolveConflict(s.locals[i], s.backend, strategy);
    Slot(winner, s.locals[i := winner])
  }

  function RunSlot(strategy: Strategy, s: Slot, schedule: seq<nat>): (r: Slot)
    requires Scheduled(|s.locals|, schedule)
    ensures |r.locals| == |s.locals|
    decreases |schedule|
  {
    if schedule == [] then s
    else RunSlot(strategy, CheckSlot(strategy, s, schedule[0]), schedule[1..])
  }

  lemma MergedAt(strategy: Strategy, local: Store, remote: Store, k: string)
    ensures Get(Merged(strategy, local, remote), k) == ResolveConflict(Get(local, k), Get(remote, k), strategy)
  {
  }

  /** Keys do not influence each other. */
  lemma {:induction false} RunAt(strategy: Strategy, c: Cluster, schedule: seq<nat>, k: string)
    requires Scheduled(|c.locals|, schedule)
    ensures At(RunChecks(strategy, c, schedule), k) == RunSlot(strategy, At(c, k), schedule)
    decreases |schedule|
  {
    if schedule != [] {
      var c' := Check(strategy, c, schedule[0]);
      MergedAt(strategy, c.locals[schedule[0]], c.backend, k);
      assert At(c', k) == CheckSlot(strategy, At(c, k), schedule[0]);
      RunAt(strategy, c', schedule[1..], k);
    }
  }

  lemma {:induction false} RunSlotConcat(strategy: Strategy, s: Slot, a: seq<nat>, b: seq<nat>)
    requires Scheduled(|s.locals|, a) && Scheduled(|s.locals|, b)
    ensures Scheduled(|s.locals|, a + b)
    ensures RunSlot(strategy, s, a + b) == RunSlot(strategy, RunSlot(strategy, s, a), b)
    decreases |a|
  {
    if a == [] {
      assert a + b == b;
    } else {
      assert (a + b)[0] == a[0] && (a + b)[1..] == a[1..] + b;
      RunSlotConcat(strategy, CheckSlot(strategy, s, a[0]), a[1..], b);
    }
  }

  ghost predicate SlotAgreed(s: Slot) {
    forall i :: 0 <= i < |s.locals| ==> s.locals[i] == s.backend
  }

  // ---------------------------------------------------------------------
  // When a key converges
  // ---------------------------------------------------------------------

  ghost predicate Holds(s: Slot, x: Option<Entry>) {
    x == s.backend || x in s.locals
  }

  /** `t` ranks at least as high as everything held. */
  ghost predicate Tops(strategy: Strategy, s: Slot, t: Option<Entry>) {
    Geq(strategy, t, s.backend) && forall i :: 0 <= i < |s.locals| ==> Geq(strategy, t, s.locals[i])
  }

  /** `t` is the only top-ranked entry in play: ties may only be in a backend every node outvotes. */
  ghost predicate Wins(strategy: Strategy, s: Slot, t: Option<Entry>) {
    && Tops(strategy, s, t)
    && (forall i :: 0 <= i < |s.locals| && Geq(strategy, s.locals[i], t) ==> s.locals[i] == t)
    && (Geq(strategy, s.backend, t) ==> s.backend == t || forall i :: 0 <= i < |s.locals| ==> s.locals[i] == t)
  }

  ghost predicate Decided(strategy: Strategy, s: Slot) {
    exists t :: Holds(s, t) && Wins(strategy, s, t)
  }

  lemma CheckKeepsWinner(strategy: Strategy, s: Slot, i: nat, t: Option<Entry>)
    requires i < |s.locals| && Wins(strategy, s, t)
    ensures var s' := CheckSlot(strategy, s, i);
      && Wins(strategy, s', t)
      && (s.backend == t || s.locals[i] == t ==> s'.backend == t)
  {
    hide Geq, ResolveConflict;
    ResolveIsMax(s.locals[i], s.backend, strategy);
    GeqTotal(strategy, t, t);
  }

  /** After the winner's holder has checked, the backend has the winner and keeps it. */
  lemma {:induction false} BackendLearns(strategy: Strategy, s: Slot, schedule: seq<nat>, t: Option<Entry>)
    requires Scheduled(|s.locals|, schedule) && Wins(strategy, s, t)
    requires s.backend == t || exists i :: 0 <= i < |s.locals| && i in schedule && s.locals[i] == t
    ensures Wins(strategy, RunSlot(strategy, s, schedule), t) && RunSlot(strategy, s, schedule).backend == t
    decreases |schedule|
  {
    hide Geq, ResolveConflict;
    if schedule != [] {
      CheckKeepsWinner(strategy, s, schedule[0], t);
      var s' := CheckSlot(strategy, s, schedule[0]);
      if s'.backend != t {
        var i :| 0 <= i < |s.locals| && i in schedule && s.locals[i] == t;
        assert i != schedule[0] && s'.locals[i] == t && i in schedule[1..];
      }
      BackendLearns(strategy, s', schedule[1..], t);
    }
  }

  /** Once the backend has the winner, every node that checks gets it and keeps it. */
  lemma {:induction false} NodesLearn(strategy: Strategy, s: Slot, schedule: seq<nat>, t: Option<Entry>)
    requires Scheduled(|s.locals|, schedule) && Wins(strategy, s, t) && s.backend == t
    ensures var r := RunSlot(strategy, s, schedule);
      r.backend == t && forall i :: 0 <= i < |s.locals| && (i in schedule || s.locals[i] == t) ==> r.locals[i] == t
    decreases |schedule|
  {
    hide Geq, ResolveConflict;
    if schedule != [] {
      CheckKeepsWinner(strategy, s, schedule[0], t);
      NodesLearn(strategy, CheckSlot(strategy, s, schedule[0]), schedule[1..], t);
    }
  }

  lemma SlotConverges(strategy: Strategy, s: Slot, first: seq<nat>, second: seq<nat>, t: Option<Entry>)
    requires Round(|s.locals|, first) && Round(|s.locals|, second)
    requires Holds(s, t) && Wins(strategy, s, t)
    ensures Scheduled(|s.locals|, first + second)
    ensures var r := RunSlot(strategy, s, first + second); SlotAgreed(r) && r.backend == t
  {
    RunSlotConcat(strategy, s, first, second);
    BackendLearns(strategy, s, first, t);
    NodesLearn(strategy, RunSlot(strategy, s, first), second, t);
  }

  /** Two nodes with different entries that nothing outranks keep them for good. */
  lemma {:induction false} RivalsNeverAgree(strategy: Strategy, s: Slot, schedule: seq<nat>, i: nat, j: nat)
    requires Scheduled(|s.locals|, schedule)
    requires i < |s.locals| && j < |s.locals| && s.locals[i] != s.locals[j]
    requires Tops(strategy, s, s.locals[i]) && Tops(strategy, s, s.locals[j])
    ensures var r := RunSlot(strategy, s, schedule);
      r.locals[i] == s.locals[i] && r.locals[j] == s.locals[j] && !SlotAgreed(r)
    decreases |schedule|
  {
    hide Geq, ResolveConflict;
    if schedule != [] {
      ResolveIsMax(s.locals[schedule[0]], s.backend, strategy);
      var s' := CheckSlot(strategy, s, schedule[0]);
      GeqTotal(strategy, s.locals[i], s.locals[i]);
      GeqTotal(strategy, s.locals[j], s.locals[j]);
      RivalsNeverAgree(strategy, s', schedule[1..], i, j);
    }
  }

  /** Among finitely many entries some top-ranked one exists. */
  lemma {:induction false} TopExists(strategy: Strategy, backend: Option<Entry>, locals: seq<Option<Entry>>)
    returns (t: Option<Entry>)
    ensures Holds(Slot(backend, locals), t) && Tops(strategy, Slot(backend, locals), t)
    decreases |locals|
  {
    if locals == [] {
      GeqTotal(strategy, backend, backend);
      t := backend;
    } else {
      var last := locals[|locals| - 1];
      var before := locals[..|locals| - 1];
      var u := TopExists(strategy, backend, before);
      GeqTotal(strategy, u, last);
      GeqTotal(strategy, last, last);
      if Geq(strategy, u, last) {
        t := u;
      } else {
        t := last;
        GeqTransitive(strategy, last, u, backend);
        forall i | 0 <= i < |before|
          ensures Geq(strategy, last, locals[i])
        {
          GeqTransitive(strategy, last, u, before[i]);
        }
      }
    }
  }

  /** Without a decided winner, some prefix of checks leaves two rivals at the top. */
  lemma UndecidedHasRivals(strategy: Strategy, s: Slot) returns (prefix: seq<nat>, i: nat, j: nat)
    requires !Decided(strategy, s)
    ensures Scheduled(|s.locals|, prefix)
    ensures i < |s.locals| && j < |s.locals|
    ensures var r := RunSlot(strategy, s, prefix);
      r.locals[i] != r.locals[j] && Tops(strategy, r, r.locals[i]) && Tops(strategy, r, r.locals[j])
  {
    hide Geq, ResolveConflict;
    var t := TopExists(strategy, s.backend, s.locals);
    TopsAreEqual(strategy, s, t);
    assert !Wins(strategy, s, t);
    if k :| 0 <= k < |s.locals| && Tops(strategy, s, s.locals[k]) {
      j := k;
      if m :| 0 <= m < |s.locals| && Tops(strategy, s, s.locals[m]) && s.locals[m] != s.locals[j] {
        return [], m, j;
      }
      TopsAreEqual(strategy, s, s.locals[j]);
      assert Holds(s, s.locals[j]) && !Wins(strategy, s, s.locals[j]);
      i :| 0 <= i < |s.locals| && s.locals[i] != s.locals[j];
      prefix := [i];
      ResolveIsMax(s.locals[i], s.backend, strategy);
      if Geq(strategy, s.locals[i], s.backend) {
        GeqTransitive(strategy, s.locals[i], s.backend, s.locals[j]);
      }
      var s' := CheckSlot(strategy, s, i);
      assert RunSlot(strategy, s, prefix) == RunSlot(strategy, s', prefix[1..]) == s';
      assert s'.locals[i] == s.backend && s'.locals[j] == s.locals[j];
      GeqTotal(strategy, s.backend, s.backend);
    } else {
      assert false;
    }
  }

  /** An entry ranks at the top exactly when it ranks level with one that does. */
  lemma TopsAreEqual(strategy: Strategy, s: Slot, t: Option<Entry>)
    requires Tops(strategy, s, t)
    ensures forall x :: Geq(strategy, x, t) ==> Tops(strategy, s, x)
  {
    hide Geq;
    forall x | Geq(strategy, x, t)
      ensures Tops(strategy, s, x)
    {
      GeqTransitive(strategy, x, t, s.backend);
      forall i | 0 <= i < |s.locals|
        ensures Geq(strategy, x, s.locals[i])
      {
        GeqTransitive(strategy, x, t, s.locals[i]);
      }
    }
  }

  // ---------------------------------------------------------------------
  // The cluster
  // ---------------------------------------------------------------------

  ghost predicate AllDecided(strategy: Strategy, c: Cluster) {
    forall k :: Decided(strategy, At(c, k))
  }

  /** Every two rounds of checks, in whatever order, bring all nodes and the backend together. */
  ghost predicate Converges(strategy: Strategy, c: Cluster) {
    forall first, second ::
      Round(|c.locals|, first) && Round(|c.locals|, second)
      ==> Scheduled(|c.locals|, first + second) && Agreed(RunChecks(strategy, c, first + second))
  }

  /**
   * Two rounds end with every local map and the backend equal, each key at an
   * entry some party held and nothing held outranks.
   */
  lemma TwoRoundsConverge(strategy: Strategy, c: Cluster, first: seq<nat>, second: seq<nat>)
    requires Round(|c.locals|, first) && Round(|c.locals|, second)
    requires AllDecided(strategy, c)
    ensures Scheduled(|c.locals|, first + second)
    ensures
      var r := RunChecks(strategy, c, first + second);
      && Agreed(r)
      && forall k :: Holds(At(c, k), Get(r.backend, k)) && Tops(strategy, At(c, k), Get(r.backend, k))
  {
    hide Geq, ResolveConflict, Merged, RunSlot;
    assert Scheduled(|c.locals|, first + second);
    var r := RunChecks(strategy, c, first + second);
    forall k
      ensures SlotAgreed(At(r, k)) && Holds(At(c, k), Get(r.backend, k)) && Tops(strategy, At(c, k), Get(r.backend, k))
    {
      var t :| Holds(At(c, k), t) && Wins(strategy, At(c, k), t);
      SlotConverges(strategy, At(c, k), first, second, t);
      RunAt(strategy, c, first + second, k);
    }
    forall i | 0 <= i < |r.locals|
      ensures r.locals[i] == r.backend
    {
      forall k
        ensures Get(r.locals[i], k) == Get(r.backend, k)
      {
        assert SlotAgreed(At(r, k)) && At(r, k).locals[i] == Get(r.locals[i], k);
      }
      SameEntries(r.locals[i], r.backend);
    }
  }

  lemma EveryNodeOnce(n: nat) returns (round: seq<nat>)
    ensures Round(n, round)
  {
    round := seq(n, i => i);
    forall i | 0 <= i < n
      ensures i in round
    {
      assert round[i] == i;
    }
  }

  /** A key without a decided winner has an order of checks, two rounds long, that ends in disagreement. */
  lemma UndecidedDiverges(strategy: Strategy, c: Cluster, k: string) returns (first: seq<nat>, second: seq<nat>)
    requires !Decided(strategy, At(c, k))
    ensures Round(|c.locals|, first) && Round(|c.locals|, second) && Scheduled(|c.locals|, first + second)
    ensures !Agreed(RunChecks(strategy, c, first + second))
  {
    hide Decided, Geq, CheckSlot, ResolveConflict, Merged, Tops, Wins;
    var prefix, i, j := UndecidedHasRivals(strategy, At(c, k));
    second := EveryNodeOnce(|c.locals|);
    first := prefix + second;
    var s := RunSlot(strategy, At(c, k), prefix);
    RivalsNeverAgree(strategy, s, second + second, i, j);
    RunSlotConcat(strategy, At(c, k), prefix, second + second);
    assert prefix + (second + second) == first + second;
    RunAt(strategy, c, first + second, k);
    assert !SlotAgreed(At(RunChecks(strategy, c, first + second), k));
  }

  /** The exact condition: a cluster converges in every order if and only if every key is decided. */
  lemma ConvergesExactlyWhenDecided(strategy: Strategy, c: Cluster)
    ensures Converges(strategy, c) <==> AllDecided(strategy, c)
  {
    hide Decided, RunChecks, Round, Scheduled, Agreed, At, Holds, Tops;
    if AllDecided(strategy, c) {
      forall first, second | Round(|c.locals|, first) && Round(|c.locals|, second)
        ensures Scheduled(|c.locals|, first + second) && Agreed(RunChecks(strategy, c, first + second))
      {
        TwoRoundsConverge(strategy, c, first, second);
      }
    } else {
      var k :| !Decided(strategy, At(c, k));
      var first, second := UndecidedDiverges(strategy, c, k);
    }
  }

  /** Entries of a key are told apart by what the strategy compares. */
  ghost predicate Distinguished(strategy: Strategy, s: Slot) {
    forall x, y :: Holds(s, Some(x)) && Holds(s, Some(y)) && x != y ==>
      match strategy
      case LastWriteWins => x.updatedAt != y.updatedAt
      case Voting => (x.version, x.nodeId) != (y.version, y.nodeId)
  }

  lemma DistinguishedIsDecided(strategy: Strategy, s: Slot)
    requires Distinguished(strategy, s)
    ensures Decided(strategy, s)
  {
    var t := TopExists(strategy, s.backend, s.locals);
    forall x | Holds(s, x) && Geq(strategy, x, t)
      ensures x == t
    {
      if x.Some? && t.Some? && strategy.Voting? {
        VotingTie(x.value, t.value);
      }
    }
  }

  /** A check leaves its node level with the backend, so repeating it at once reports nothing. */
  lemma RepeatIsConsistent(strategy: Strategy, c: Cluster, i: nat, r: Report)
    requires i < |c.locals|
    requires var c' := Check(strategy, c, i); Reports(r, strategy, c'.locals[i], c'.backend)
    ensures r.consistent && r.conflicts == [] && Check(strategy, Check(strategy, c, i), i) == Check(strategy, c, i)
  {
    var c' := Check(strategy, c, i);
    NoConflictsMeansSame(r.conflicts, strategy, c'.locals[i], c'.backend);
    MergedWithItself(strategy, c'.backend);
  }

  lemma MergedWithItself(strategy: Strategy, m: Store)
    ensures Merged(strategy, m, m) == m
  {
    forall k
      ensures Get(Merged(strategy, m, m), k) == Get(m, k)
    {
      MergedAt(strategy, m, m, k);
      ResolveIsMax(Get(m, k), Get(m, k), strategy);
    }
    SameEntries(Merged(strategy, m, m), m);
  }
}
