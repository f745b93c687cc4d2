/**
 * Checks that overlap in time (backend/src/consensus.rs): a node reads the backend,
 * then its local map, and later writes the winner of what it read. Told for one key,
 * with every read and write one step.
 */
module RacingChecks {

  import opened Wrappers
  import opened Consensus

  /** A check under way on a node: what it has read so far. */
  datatype Seen = Remote(remote: Option<Entry>) | Both(remote: Option<Entry>, local: Option<Entry>)

  datatype Slot = Slot(backend: Option<Entry>, locals: map<nat, Option<Entry>>, checks: map<nat, Seen>)

  datatype Action =
    | ReadRemote(node: nat)
    | ReadLocal(node: nat)
    | Write(node: nat)
    | Put(node: nat, entry: Entry)

  function LocalOf(s: Slot, node: nat): Option<Entry> {
    if node in s.locals then s.locals[node] else None
  }

  function Step(strategy: Strategy, s: Slot, a: Action): Option<Slot> {
    match a
    case ReadRemote(n) =>
      if n in s.checks then None else Some(s.(checks := s.checks[n := Remote(s.backend)]))
    case ReadLocal(n) =>
      if n !in s.checks || !s.checks[n].Remote? then None
      else Some(s.(checks := s.checks[n := Both(s.checks[n].remote, LocalOf(s, n))]))
    case Write(n) =>
      if n !in s.checks || !s.checks[n].Both? then None
      else
        var seen, done := s.checks[n], s.(checks := s.checks - {n});
        if seen.local == seen.remote then Some(done)
        else
          var winner := ResolveConflict(seen.local, seen.remote, strategy);
          Some(done.(backend := winner, locals := s.locals[n := winner]))
    case Put(n, e) =>
      Some(s.(backend := Some(e), locals := s.locals[n := Some(e)]))
  }

  function Run(strategy: Strategy, s: Slot, actions: seq<Action>): Option<Slot> {
    if actions == [] then Some(s)
    else
      match Run(strategy, s, actions[..|actions| - 1])
      case None => None
      case Some(m) => Step(strategy, m, actions[|actions| - 1])
  }

  /** The step stores something in the backend. */
  predicate Stores(s: Slot, a: Action) {
    || a.Put?
    || (a.Write? && a.node in s.checks && s.checks[a.node].Both? && s.checks[a.node].local != s.checks[a.node].remote)
  }

  /** Something was stored since the node last read the backend. */
  ghost predicate Disturbed(strategy: Strategy, s: Slot, actions: seq<Action>, node: nat) {
    if actions == [] then false
    else
      var before, last := actions[..|actions| - 1], actions[|actions| - 1];
      if last == ReadRemote(node) then false
      else
        || Disturbed(strategy, s, before, node)
        || (Run(strategy, s, before).Some? && Stores(Run(strategy, s, before).value, last))
  }

  /** Until then the backend holds what was read. */
  lemma {:induction false} UndisturbedIsCurrent(strategy: Strategy, s: Slot, actions: seq<Action>, node: nat)
    requires s.checks == map[] && Run(strategy, s, actions).Some?
    ensures
      var m := Run(strategy, s, actions).value;
      node in m.checks && !Disturbed(strategy, s, actions, node) ==> m.checks[node].remote == m.backend
  {
    hide ResolveConflict;
    if actions != [] {
      UndisturbedIsCurrent(strategy, s, actions[..|actions| - 1], node);
    }
  }

  /** The step leaves the backend with an entry that ranks below the one it had. */
  ghost predicate Lowers(strategy: Strategy, s: Slot, a: Action)
    requires Step(strategy, s, a).Some?
  {
    !Geq(strategy, Step(strategy, s, a).value.backend, s.backend)
  }

  ghost predicate Outranks(strategy: Strategy, a: Option<Entry>, b: Option<Entry>) {
    !Geq(strategy, b, a)
  }

  lemma WriteLowers(strategy: Strategy, s: Slot, node: nat)
    requires node in s.checks && s.checks[node].Both?
    ensures
      var seen := s.checks[node];
      Lowers(strategy, s, Write(node)) <==>
        && seen.local != seen.remote
        && Outranks(strategy, s.backend, seen.local) && Outranks(strategy, s.backend, seen.remote)
  {
    var seen := s.checks[node];
    var winner := ResolveConflict(seen.local, seen.remote, strategy);
    ResolveIsMax(seen.local, seen.remote, strategy);
    GeqTotal(strategy, s.backend, s.backend);
    hide Geq, ResolveConflict;
    if Geq(strategy, seen.local, s.backend) {
      GeqTransitive(strategy, winner, seen.local, s.backend);
    } else if Geq(strategy, seen.remote, s.backend) {
      GeqTransitive(strategy, winner, seen.remote, s.backend);
    }
  }

  /**
   * The exact condition under which a check lowers the backend, in any run of overlapping checks and
   * puts: something was stored after the check read the backend, and what is stored now outranks
   * both of the differing entries the check read.
   */
  lemma LowersExactly(strategy: Strategy, s: Slot, actions: seq<Action>, node: nat)
    requires s.checks == map[] && Run(strategy, s, actions).Some?
    requires var m := Run(strategy, s, actions).value; node in m.checks && m.checks[node].Both?
    ensures
      var m := Run(strategy, s, actions).value;
      var seen := m.checks[node];
      Lowers(strategy, m, Write(node)) <==>
        && Disturbed(strategy, s, actions, node) && seen.local != seen.remote
        && Outranks(strategy, m.backend, seen.local) && Outranks(strategy, m.backend, seen.remote)
  {
    var m := Run(strategy, s, actions).value;
    UndisturbedIsCurrent(strategy, s, actions, node);
    WriteLowers(strategy, m, node);
    GeqTotal(strategy, m.backend, m.backend);
    hide Geq, Disturbed, Run, Lowers;
  }

  lemma RunStep(strategy: Strategy, s: Slot, actions: seq<Action>, a: Action, m: Slot, m': Slot)
    requires Run(strategy, s, actions) == Some(m) && Step(strategy, m, a) == Some(m')
    ensures Run(strategy, s, actions + [a]) == Some(m')
  {
    assert (actions + [a])[..|actions|] == actions;
  }

  /** Without interference a check leaves both sides with the winner of the two, as one step. */
  lemma CheckAlone(strategy: Strategy, s: Slot, n: nat)
    requires n !in s.checks
    ensures
      var end := Run(strategy, s, [ReadRemote(n)] + [ReadLocal(n)] + [Write(n)]);
      var winner := ResolveConflict(LocalOf(s, n), s.backend, strategy);
      && end.Some? && end.value.backend == winner && LocalOf(end.value, n) == winner && end.value.checks == s.checks
      && forall other :: other != n ==> LocalOf(end.value, other) == LocalOf(s, other)
  {
    ResolveIsMax(LocalOf(s, n), s.backend, strategy);
    assert Run(strategy, s, []) == Some(s);
    hide Run, ResolveConflict, Geq;
    var m1 := s.(checks := s.checks[n := Remote(s.backend)]);
    RunStep(strategy, s, [], ReadRemote(n), s, m1);
    assert [] + [ReadRemote(n)] == [ReadRemote(n)];
    var m2 := m1.(checks := m1.checks[n := Both(s.backend, LocalOf(s, n))]);
    RunStep(strategy, s, [ReadRemote(n)], ReadLocal(n), m1, m2);
    var m3 := Step(strategy, m2, Write(n)).value;
    RunStep(strategy, s, [ReadRemote(n)] + [ReadLocal(n)], Write(n), m2, m3);
    assert m2.checks - {n} == s.checks;
  }

  /** A check writes a lower entry over a put that came between its reads and its write. */
  lemma PutIsLost(strategy: Strategy, low: Entry, high: Entry)
    requires Outranks(strategy, Some(high), Some(low))
    ensures
      var s := Slot(None, map[0 := Some(low)], map[]);
      var end := Run(strategy, s, [ReadRemote(0)] + [ReadLocal(0)] + [Put(1, high)] + [Write(0)]);
      && end.Some? && end.value.backend == Some(low)
      && LocalOf(end.value, 0) == Some(low) && LocalOf(end.value, 1) == Some(high)
  {
    var s := Slot(None, map[0 := Some(low)], map[]);
    assert Run(strategy, s, []) == Some(s);
    hide Run;
    var m1 := s.(checks := s.checks[0 := Remote(None)]);
    RunStep(strategy, s, [], ReadRemote(0), s, m1);
    assert [] + [ReadRemote(0)] == [ReadRemote(0)];
    var m2 := m1.(checks := m1.checks[0 := Both(None, Some(low))]);
    RunStep(strategy, s, [ReadRemote(0)], ReadLocal(0), m1, m2);
    var m3 := m2.(backend := Some(high), locals := m2.locals[1 := Some(high)]);
    RunStep(strategy, s, [ReadRemote(0)] + [ReadLocal(0)], Put(1, high), m2, m3);
    var m4 := Slot(Some(low), m3.locals[0 := Some(low)], m3.checks - {0});
    RunStep(strategy, s, [ReadRemote(0)] + [ReadLocal(0)] + [Put(1, high)], Write(0), m3, m4);
  }
}
