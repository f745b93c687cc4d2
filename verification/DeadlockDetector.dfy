/**
 * The lock table behind deadlock detection (backend/src/deadlock.rs): which
 * waits it records, which it refuses, and what it therefore never contains.
 */
module DeadlockDetector {

  import Graph = DependencyMap
  import Counting

  datatype Lock = Lock(resource: string, holder: string, waiters: seq<string>)

  type Table = map<string, Lock>

  datatype Outcome = Acquired | Deadlock(resources: set<string>) | Timeout(resource: string)

  /** `who` is recorded as waiting for something `other` holds. */
  ghost predicate WaitsFor(t: Table, who: string, other: string) {
    exists r :: r in t && t[r].holder == other && who in t[r].waiters
  }

  /** Two holders each recorded as waiting on the other. */
  ghost predicate MutualWait(t: Table) {
    exists r, q :: r in t && q in t && t[r].holder in t[q].waiters && t[q].holder in t[r].waiters
  }

  ghost predicate SelfWait(t: Table) {
    exists r :: r in t && t[r].holder in t[r].waiters
  }

  ghost predicate WellKeyed(t: Table) {
    forall r :: r in t ==> t[r].resource == r
  }

  /** The table with `who` appended to the waiters of `resource`. */
  function Enqueue(t: Table, resource: string, who: string): Table
    requires resource in t
  {
    t[resource := t[resource].(waiters := t[resource].waiters + [who])]
  }

  /** What `check_cycle_inner` looks for: a held resource on which the current holder waits. */
  ghost predicate WouldCycle(t: Table, resource: string, who: string) {
    resource in t && WaitsFor(t, t[resource].holder, who)
  }

  /** Held resources, as the first pass of the check collects them, then the second pass over them. */
  method CheckCycle(t: Table, resource: string, who: string) returns (cycle: bool)
    requires WellKeyed(t)
    ensures cycle <==> WouldCycle(t, resource, who)
  {
    var held: set<string> := {};
    var rest := t.Keys;
    while rest != {}
      invariant rest <= t.Keys
      invariant forall r :: r in held <==> r in t.Keys - rest && t[r].holder == who
      decreases rest
    {
      var r :| r in rest;
      if t[r].holder == who {
        held := held + {t[r].resource};
      }
      rest := rest - {r};
    }
    cycle := false;
    if resource in t {
      while held != {}
        invariant forall r :: r in held ==> r in t && t[r].holder == who
        invariant forall r :: r in t && t[r].holder == who && r !in held ==> t[resource].holder !in t[r].waiters
        decreases held
      {
        var r :| r in held;
        if t[resource].holder in t[r].waiters {
          return true;
        }
        held := held - {r};
      }
    }
  }

  // ---------------------------------------------------------------------
  // The table as a state machine
  // ---------------------------------------------------------------------

  datatype Op = Acquire(resource: string, who: string) | Release(resource: string, who: string)

  ghost function OutcomeOf(t: Table, resource: string, who: string): Outcome {
    if resource !in t || t[resource].holder == who then Acquired
    else if WouldCycle(t, resource, who) then Deadlock(t.Keys)
    else Timeout(resource)
  }

  ghost function Apply(t: Table, op: Op): Table {
    match op
    case Acquire(r, who) =>
      if r !in t then t[r := Lock(r, who, [])]
      else if OutcomeOf(t, r, who).Timeout? then Enqueue(t, r, who)
      else t
    case Release(r, who) =>
      if r in t && t[r].holder == who then t - {r} else t
  }

  ghost function Run(ops: seq<Op>): Table {
    if ops == [] then map[] else Apply(Run(ops[..|ops| - 1]), ops[|ops| - 1])
  }

  ghost predicate Sound(t: Table) {
    WellKeyed(t) && !MutualWait(t) && !SelfWait(t)
  }

  /** Recording a wait on someone else adds a mutual wait exactly when the check objects, and never a self wait. */
  lemma RefusedExactlyWhenMutual(t: Table, resource: string, who: string)
    requires resource in t && t[resource].holder != who
    ensures MutualWait(Enqueue(t, resource, who)) <==> MutualWait(t) || WouldCycle(t, resource, who)
    ensures SelfWait(Enqueue(t, resource, who)) <==> SelfWait(t)
  {
    var t' := Enqueue(t, resource, who);
    if MutualWait(t') {
      var r, q :| r in t' && q in t' && t'[r].holder in t'[q].waiters && t'[q].holder in t'[r].waiters;
      MutualSource(t, resource, who, r, q);
    }
    hide MutualWait, WouldCycle;
    MutualStays(t, resource, who);
    MutualMade(t, resource, who);
    if SelfWait(t) {
      var r :| r in t && t[r].holder in t[r].waiters;
      assert t'[r].holder in t'[r].waiters;
    }
  }

  lemma MutualStays(t: Table, resource: string, who: string)
    requires resource in t
    ensures MutualWait(t) ==> MutualWait(Enqueue(t, resource, who))
  {
    if MutualWait(t) {
      var t' := Enqueue(t, resource, who);
      var r, q :| r in t && q in t && t[r].holder in t[q].waiters && t[q].holder in t[r].waiters;
      assert t'[r].holder in t'[q].waiters && t'[q].holder in t'[r].waiters;
    }
  }

  lemma MutualMade(t: Table, resource: string, who: string)
    requires resource in t
    ensures WouldCycle(t, resource, who) ==> MutualWait(Enqueue(t, resource, who))
  {
    if WouldCycle(t, resource, who) {
      var t' := Enqueue(t, resource, who);
      var r :| r in t && t[r].holder == who && t[resource].holder in t[r].waiters;
      assert t'[r].holder in t'[resource].waiters && t'[resource].holder in t'[r].waiters;
    }
  }

  /** Where a mutual wait of the extended table comes from. */
  lemma MutualSource(t: Table, resource: string, who: string, r: string, q: string)
    requires resource in t && t[resource].holder != who && r in t && q in t
    requires
      var t' := Enqueue(t, resource, who);
      t'[r].holder in t'[q].waiters && t'[q].holder in t'[r].waiters
    ensures MutualWait(t) || WouldCycle(t, resource, who)
  {
    if t[r].holder in t[q].waiters && t[q].holder in t[r].waiters {
    } else if q == resource {
      assert t[r].holder == who && t[resource].holder in t[r].waiters;
    } else {
      assert t[q].holder == who && t[resource].holder in t[q].waiters;
    }
  }

  /** Dropping locks and adding ones nobody waits for creates no waits. */
  lemma FewerWaits(t: Table, t': Table)
    requires forall r :: r in t' ==> (r in t && t'[r] == t[r]) || t'[r].waiters == []
    ensures MutualWait(t') ==> MutualWait(t)
    ensures SelfWait(t') ==> SelfWait(t)
  {
    if MutualWait(t') {
      var r, q :| r in t' && q in t' && t'[r].holder in t'[q].waiters && t'[q].holder in t'[r].waiters;
      assert t[r].holder in t[q].waiters && t[q].holder in t[r].waiters;
    }
  }

  lemma ApplyKeepsSound(t: Table, op: Op)
    requires Sound(t)
    ensures Sound(Apply(t, op))
  {
    hide MutualWait, SelfWait, WaitsFor;
    if op.Acquire? && op.resource in t && t[op.resource].holder != op.who {
      RefusedExactlyWhenMutual(t, op.resource, op.who);
    } else {
      FewerWaits(t, Apply(t, op));
    }
  }

  /** In every run no two holders wait on each other and no holder waits on itself. */
  lemma {:induction false} EveryRunIsSound(ops: seq<Op>)
    ensures Sound(Run(ops))
  {
    if ops != [] {
      EveryRunIsSound(ops[..|ops| - 1]);
      ApplyKeepsSound(Run(ops[..|ops| - 1]), ops[|ops| - 1]);
    }
  }

  /** After any run, an acquire is answered with a deadlock exactly when its wait would make a mutual wait. */
  lemma DeadlockExactly(ops: seq<Op>, resource: string, who: string)
    ensures
      var t := Run(ops);
      OutcomeOf(t, resource, who).Deadlock?
      <==> resource in t && t[resource].holder != who && MutualWait(Enqueue(t, resource, who))
  {
    EveryRunIsSound(ops);
    var t := Run(ops);
    if resource in t && t[resource].holder != who {
      RefusedExactlyWhenMutual(t, resource, who);
    }
  }

  /** A chain of waits of any length from `who` back to itself. */
  ghost predicate WaitCycle(t: Table, chain: seq<string>) {
    && |chain| >= 1
    && (forall i :: 0 <= i < |chain| - 1 ==> WaitsFor(t, chain[i], chain[i + 1]))
    && WaitsFor(t, chain[|chain| - 1], chain[0])
  }

  lemma MutualWaits(t: Table, a: string, b: string)
    ensures WaitsFor(t, a, b) && WaitsFor(t, b, a) ==> MutualWait(t)
  {
    if WaitsFor(t, a, b) && WaitsFor(t, b, a) {
      var r :| r in t && t[r].holder == b && a in t[r].waiters;
      var q :| q in t && t[q].holder == a && b in t[q].waiters;
      assert t[r].holder in t[q].waiters && t[q].holder in t[r].waiters;
    }
  }

  lemma ShortCycles(t: Table, chain: seq<string>)
    requires WaitCycle(t, chain) && |chain| <= 2
    ensures MutualWait(t)
  {
    MutualWaits(t, chain[0], chain[|chain| - 1]);
    if |chain| == 2 {
      assert WaitsFor(t, chain[0], chain[0 + 1]);
    }
  }

  /** In no run is there a cycle of one or two holders. */
  lemma NoShortCycles(ops: seq<Op>, chain: seq<string>)
    ensures WaitCycle(Run(ops), chain) ==> |chain| >= 3
  {
    hide WaitCycle, MutualWait;
    EveryRunIsSound(ops);
    if WaitCycle(Run(ops), chain) && |chain| <= 2 {
      ShortCycles(Run(ops), chain);
    }
  }

  /** With only two holders around, two consecutive waits of holders come back to where they started. */
  lemma TwoHolderCycles(t: Table, a: string, b: string, chain: seq<string>)
    requires forall r :: r in t ==> t[r].holder in {a, b}
    requires WaitCycle(t, chain) && |chain| >= 3
    ensures MutualWait(t)
  {
    var u, v, w := chain[0], chain[1], chain[2];
    assert WaitsFor(t, chain[0], chain[0 + 1]) && WaitsFor(t, chain[1], chain[1 + 1]);
    assert WaitsFor(t, chain[|chain| - 1], chain[0]);
    assert u in {a, b} && v in {a, b} && w in {a, b};
    hide MutualWait, WaitsFor;
    MutualWaits(t, u, u);
    MutualWaits(t, v, v);
    MutualWaits(t, u, v);
  }

  /** While at most two parties hold locks there is no cycle of any length. */
  lemma TwoHoldersNeverCycle(ops: seq<Op>, a: string, b: string, chain: seq<string>)
    requires forall r :: r in Run(ops) ==> Run(ops)[r].holder in {a, b}
    ensures !WaitCycle(Run(ops), chain)
  {
    hide WaitCycle, MutualWait;
    EveryRunIsSound(ops);
    if WaitCycle(Run(ops), chain) {
      if |chain| <= 2 {
        ShortCycles(Run(ops), chain);
      } else {
        TwoHolderCycles(Run(ops), a, b, chain);
      }
    }
  }

  /** The parties holding something. */
  ghost function Holders(t: Table): set<string> {
    set r | r in t :: t[r].holder
  }

  lemma AtMostTwo(s: set<string>) returns (a: string, b: string)
    requires |s| <= 2
    ensures forall x :: x in s ==> x == a || x == b
  {
    if s == {} {
      a, b := "", "";
    } else {
      a :| a in s;
      var rest := s - {a};
      assert forall x :: x in s ==> x == a || x in rest;
      if rest == {} {
        b := a;
      } else {
        b :| b in rest;
        assert rest - {b} == {} by {
          assert |rest - {b}| == 0;
        }
        assert forall x :: x in rest ==> x == b || x in rest - {b};
      }
    }
  }

  lemma {:induction false} HoldersAreFew(t: Table)
    ensures |Holders(t)| <= |t|
    decreases |t|
  {
    if t != map[] {
      var r :| r in t;
      HoldersAreFew(t - {r});
      forall h | h in Holders(t)
        ensures h in Holders(t - {r}) + {t[r].holder}
      {
        var q :| q in t && t[q].holder == h;
        assert q != r ==> q in t - {r} && (t - {r})[q] == t[q];
      }
      Counting.SubsetSize(Holders(t), Holders(t - {r}) + {t[r].holder});
      assert |t - {r}| == |t| - 1 by {
        assert (t - {r}).Keys == t.Keys - {r};
      }
    }
  }

  /** Requests of these parties for these resources. */
  ghost predicate Over(ops: seq<Op>, parties: set<string>, resources: set<string>) {
    forall i :: 0 <= i < |ops| ==> ops[i].who in parties && ops[i].resource in resources
  }

  lemma {:induction false} RunStaysOver(ops: seq<Op>, parties: set<string>, resources: set<string>)
    requires Over(ops, parties, resources)
    ensures Run(ops).Keys <= resources && Holders(Run(ops)) <= parties
  {
    if ops != [] {
      var before := Run(ops[..|ops| - 1]);
      RunStaysOver(ops[..|ops| - 1], parties, resources);
      hide OutcomeOf;
      forall r | r in Run(ops)
        ensures r in resources && Run(ops)[r].holder in parties
      {
        if r in before {
          assert before[r].holder in Holders(before);
        }
      }
    }
  }

  /** No run of these parties over these resources ever contains a wait cycle. */
  ghost predicate CycleFree(parties: set<string>, resources: set<string>) {
    forall ops, chain :: Over(ops, parties, resources) ==> !WaitCycle(Run(ops), chain)
  }

  lemma FewNeverCycle(parties: set<string>, resources: set<string>, ops: seq<Op>, chain: seq<string>)
    requires |parties| <= 2 || |resources| <= 2
    requires Over(ops, parties, resources)
    ensures !WaitCycle(Run(ops), chain)
  {
    hide WaitCycle, Run, Over;
    var t := Run(ops);
    RunStaysOver(ops, parties, resources);
    assert |Holders(t)| <= 2 by {
      if |parties| <= 2 {
        Counting.SubsetSize(Holders(t), parties);
      } else {
        HoldersAreFew(t);
        Counting.SubsetSize(t.Keys, resources);
      }
    }
    var a, b := AtMostTwo(Holders(t));
    forall r | r in t
      ensures t[r].holder in {a, b}
    {
      assert t[r].holder in Holders(t);
    }
    TwoHoldersNeverCycle(ops, a, b, chain);
  }

  lemma AtLeastThree(s: set<string>) returns (a: string, b: string, c: string)
    requires |s| >= 3
    ensures a in s && b in s && c in s && a != b && b != c && c != a
  {
    a :| a in s;
    var s1 := s - {a};
    assert |s1| >= 2;
    b :| b in s1;
    var s2 := s1 - {b};
    assert |s2| >= 1;
    c :| c in s2;
  }

  /** An acquire that finds the resource taken and no mutual wait is queued. */
  lemma Queued(t: Table, resource: string, who: string)
    requires resource in t && t[resource].holder != who
    requires forall q :: q in t && t[q].holder == who ==> t[resource].holder !in t[q].waiters
    ensures Apply(t, Acquire(resource, who)) == Enqueue(t, resource, who)
  {
  }

  lemma RingOfWaits(t: Table, a: string, b: string, c: string, x: string, y: string, z: string)
    requires x in t && y in t && z in t
    requires t[x] == Lock(x, a, [c]) && t[y] == Lock(y, b, [a]) && t[z] == Lock(z, c, [b])
    ensures WaitCycle(t, [a, b, c])
  {
    assert c in t[x].waiters && a in t[y].waiters && b in t[z].waiters;
  }

  /** Each of three parties takes its own lock: nobody waits. */
  lemma ThreeTake(a: string, b: string, c: string, x: string, y: string, z: string)
    requires x != y && y != z && z != x
    ensures Run([Acquire(x, a), Acquire(y, b), Acquire(z, c)])
         == map[x := Lock(x, a, []), y := Lock(y, b, []), z := Lock(z, c, [])]
  {
    var o1, o2, o3 := Acquire(x, a), Acquire(y, b), Acquire(z, c);
    RunStep([], o1);
    RunStep([o1], o2);
    RunStep([o1, o2], o3);
    assert [] + [o1] == [o1] && [o1] + [o2] == [o1, o2] && [o1, o2] + [o3] == [o1, o2, o3];
  }

  /** From there each queues for the next one's lock, and none is refused. */
  lemma ThreeQueue(t: Table, a: string, b: string, c: string, x: string, y: string, z: string)
    requires a != b && b != c && c != a && x != y && y != z && z != x
    requires t == map[x := Lock(x, a, []), y := Lock(y, b, []), z := Lock(z, c, [])]
    ensures
      var t' := Apply(Apply(Apply(t, Acquire(y, a)), Acquire(z, b)), Acquire(x, c));
      WaitCycle(t', [a, b, c])
  {
    hide Apply, WaitCycle;
    Queued(t, y, a);
    var t1 := t[y := Lock(y, b, [a])];
    assert [] + [a] == [a] && Enqueue(t, y, a) == t1;
    Queued(t1, z, b);
    var t2 := t1[z := Lock(z, c, [b])];
    assert [] + [b] == [b] && Enqueue(t1, z, b) == t2;
    Queued(t2, x, c);
    assert [] + [c] == [c];
    RingOfWaits(Enqueue(t2, x, c), a, b, c, x, y, z);
  }

  /**
   * Three parties are enough for an undetected deadlock, although the documentation of
   * `detect_cycle` promises a transitive search: each takes a lock, then queues for the next one's.
   */
  lemma ThreeHoldersCanCycle(a: string, b: string, c: string, x: string, y: string, z: string)
    requires a != b && b != c && c != a && x != y && y != z && z != x
    ensures
      WaitCycle(
        Run([Acquire(x, a), Acquire(y, b), Acquire(z, c)] + [Acquire(y, a)] + [Acquire(z, b)] + [Acquire(x, c)]),
          [a, b, c])
  {
    hide Run, Apply, WaitCycle;
    var taken := [Acquire(x, a), Acquire(y, b), Acquire(z, c)];
    ThreeTake(a, b, c, x, y, z);
    ThreeQueue(Run(taken), a, b, c, x, y, z);
    RunStep(taken, Acquire(y, a));
    RunStep(taken + [Acquire(y, a)], Acquire(z, b));
    RunStep(taken + [Acquire(y, a)] + [Acquire(z, b)], Acquire(x, c));
  }

  /**
   * The exact population at risk: runs of these parties over these resources are free of wait
   * cycles if and only if there are at most two parties or at most two resources.
   */
  lemma CycleFreeExactly(parties: set<string>, resources: set<string>)
    ensures CycleFree(parties, resources) <==> |parties| <= 2 || |resources| <= 2
  {
    hide Run, WaitCycle;
    if |parties| <= 2 || |resources| <= 2 {
      forall ops, chain | Over(ops, parties, resources)
        ensures !WaitCycle(Run(ops), chain)
      {
        FewNeverCycle(parties, resources, ops, chain);
      }
    } else {
      var a, b, c := AtLeastThree(parties);
      var x, y, z := AtLeastThree(resources);
      ThreeHoldersCanCycle(a, b, c, x, y, z);
      var ops := [Acquire(x, a), Acquire(y, b), Acquire(z, c)] + [Acquire(y, a)] + [Acquire(z, b)] + [Acquire(x, c)];
      assert Over(ops, parties, resources);
    }
  }

  // ---------------------------------------------------------------------
  // Which acquires close a cycle
  // ---------------------------------------------------------------------

  ghost predicate HasCycle(t: Table) {
    exists chain :: WaitCycle(t, chain)
  }

  /** A wait as an edge from the waiting party to the holder. */
  ghost function Wait(who: string, holder: string): Graph.Edge {
    Graph.Edge(who, holder, Graph.SynchronousRpc)
  }

  ghost function Waits(t: Table): set<Graph.Edge> {
    set r, i | r in t && 0 <= i < |t[r].waiters| :: Wait(t[r].waiters[i], t[r].holder)
  }

  lemma WaitsAreLinks(t: Table, a: string, b: string)
    ensures Graph.Linked(Waits(t), a, b) <==> WaitsFor(t, a, b)
  {
    if WaitsFor(t, a, b) {
      var r :| r in t && t[r].holder == b && a in t[r].waiters;
      var i :| 0 <= i < |t[r].waiters| && t[r].waiters[i] == a;
      assert Wait(a, b) in Waits(t);
    }
    if Graph.Linked(Waits(t), a, b) {
      var e :| e in Waits(t) && e.from == a && e.to == b;
      var r, i :| r in t && 0 <= i < |t[r].waiters| && e == Wait(t[r].waiters[i], t[r].holder);
      assert t[r].holder == b && a in t[r].waiters;
    }
  }

  lemma EnqueueAddsWait(t: Table, resource: string, who: string)
    requires resource in t
    ensures Waits(Enqueue(t, resource, who)) == Waits(t) + {Wait(who, t[resource].holder)}
  {
    var t' := Enqueue(t, resource, who);
    forall e | e in Waits(t')
      ensures e in Waits(t) + {Wait(who, t[resource].holder)}
    {
      var r, i :| r in t' && 0 <= i < |t'[r].waiters| && e == Wait(t'[r].waiters[i], t'[r].holder);
      if i < |t[r].waiters| {
        assert t'[r].waiters[i] == t[r].waiters[i];
      }
    }
    forall e | e in Waits(t)
      ensures e in Waits(t')
    {
      var r, i :| r in t && 0 <= i < |t[r].waiters| && e == Wait(t[r].waiters[i], t[r].holder);
      assert t'[r].waiters[i] == t[r].waiters[i] && t'[r].holder == t[r].holder;
    }
    var n := |t[resource].waiters|;
    assert t'[resource].waiters[n] == who && Wait(t'[resource].waiters[n], t'[resource].holder) in Waits(t');
  }

  /** From any place in a cycle, following it leads back to its start. */
  lemma {:induction false} CycleWalks(t: Table, chain: seq<string>, i: nat)
    requires WaitCycle(t, chain) && i < |chain|
    ensures Graph.WalkOf(Waits(t), chain[i], chain[0], |chain| - i)
    decreases |chain| - i
  {
    var next := if i + 1 < |chain| then chain[i + 1] else chain[0];
    WaitsAreLinks(t, chain[i], next);
    if i + 1 < |chain| {
      CycleWalks(t, chain, i + 1);
    } else {
      Graph.LinkWalk(Waits(t), chain[i], next);
    }
  }

  /** The parties a walk passes, without its end. */
  ghost predicate WaitChain(t: Table, chain: seq<string>, a: string, b: string) {
    && |chain| >= 1 && chain[0] == a
    && (forall i :: 0 <= i < |chain| - 1 ==> WaitsFor(t, chain[i], chain[i + 1]))
    && WaitsFor(t, chain[|chain| - 1], b)
  }

  lemma {:induction false} WalkChains(t: Table, a: string, b: string, n: nat) returns (chain: seq<string>)
    requires n >= 1 && Graph.WalkOf(Waits(t), a, b, n)
    ensures WaitChain(t, chain, a, b)
    decreases n
  {
    var m :| Graph.Linked(Waits(t), a, m) && Graph.WalkOf(Waits(t), m, b, n - 1);
    WaitsAreLinks(t, a, m);
    if n == 1 {
      chain := [a];
    } else {
      var rest := WalkChains(t, m, b, n - 1);
      chain := [a] + rest;
    }
  }

  lemma CyclesAreCycles(t: Table)
    ensures HasCycle(t) <==> !Graph.Acyclic(Waits(t))
  {
    if HasCycle(t) {
      var chain :| WaitCycle(t, chain);
      CycleWalks(t, chain, 0);
      assert Graph.DependsOn(Waits(t), chain[0], chain[0]);
    }
    if !Graph.Acyclic(Waits(t)) {
      var a :| Graph.DependsOn(Waits(t), a, a);
      var n: nat :| n >= 1 && Graph.WalkOf(Waits(t), a, a, n);
      var chain := WalkChains(t, a, a, n);
      assert WaitCycle(t, chain);
    }
  }

  /**
   * With no wait cycle so far, queueing for a resource closes one exactly when its holder waits,
   * over any number of steps, for the one who queues. The check misses it exactly when no single
   * wait of the holder leads there.
   */
  lemma MissedExactly(t: Table, resource: string, who: string)
    requires !HasCycle(t) && resource in t && t[resource].holder != who
    ensures HasCycle(Enqueue(t, resource, who)) <==> Graph.Reaches(Waits(t), t[resource].holder, who)
    ensures OutcomeOf(t, resource, who).Timeout? && HasCycle(Apply(t, Acquire(resource, who)))
      <==> Graph.Reaches(Waits(t), t[resource].holder, who) && !WaitsFor(t, t[resource].holder, who)
  {
    hide HasCycle, Waits, Graph.Acyclic, Graph.Reaches, WaitsFor;
    var t' := Enqueue(t, resource, who);
    CyclesAreCycles(t);
    CyclesAreCycles(t');
    EnqueueAddsWait(t, resource, who);
    Graph.GuardIsExact(Waits(t), Wait(who, t[resource].holder));
  }

  lemma RunStep(ops: seq<Op>, op: Op)
    ensures Run(ops + [op]) == Apply(Run(ops), op)
  {
    assert (ops + [op])[..|ops|] == ops;
  }

  // ---------------------------------------------------------------------
  // The object
  // ---------------------------------------------------------------------

  class Detector {
    var locks: Table
    var deadlocks: nat
    ghost var ops: seq<Op>

    ghost predicate Valid()
      reads this
    {
      locks == Run(ops)
    }

    constructor ()
      ensures Valid() && ops == [] && deadlocks == 0
    {
      locks, deadlocks, ops := map[], 0, [];
    }

    method AcquireLock(resource: string, who: string) returns (outcome: Outcome)
      requires Valid()
      modifies this
      ensures Valid() && ops == old(ops) + [Acquire(resource, who)]
      ensures outcome == OutcomeOf(old(locks), resource, who)
      ensures resource !in old(locks) ==> locks == old(locks)[resource := Lock(resource, who, [])]
      ensures outcome.Timeout? ==>
        var l := old(locks)[resource];
        locks == old(locks)[resource := Lock(l.resource, l.holder, l.waiters + [who])]
      ensures resource in old(locks) && !outcome.Timeout? ==> locks == old(locks)
      ensures deadlocks == old(deadlocks) + if outcome.Deadlock? then 1 else 0
    {
      EveryRunIsSound(ops);
      ops := ops + [Acquire(resource, who)];
      if resource in locks && locks[resource].holder == who {
        return Acquired;
      }
      if resource in locks {
        var cycle := CheckCycle(locks, resource, who);
        if cycle {
          deadlocks := deadlocks + 1;
          return Deadlock(locks.Keys);
        }
        locks := Enqueue(locks, resource, who);
        return Timeout(resource);
      }
      locks := locks[resource := Lock(resource, who, [])];
      return Acquired;
    }

    /** Ignored unless `who` holds the resource. Its waiters are forgotten with it. */
    method ReleaseLock(resource: string, who: string)
      requires Valid()
      modifies this
      ensures Valid() && ops == old(ops) + [Release(resource, who)]
      ensures locks ==
        if resource in old(locks) && old(locks)[resource].holder == who then old(locks) - {resource} else old(locks)
      ensures deadlocks == old(deadlocks)
    {
      ops := ops + [Release(resource, who)];
      if resource in locks && locks[resource].holder == who {
        locks := locks - {resource};
      }
    }
  }
}
