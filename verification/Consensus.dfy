/**
 * Multi-node cache reconciliation (backend/src/consensus.rs): nodes with local
 * maps and one shared backend, and the check that resolves their differences.
 */
module Consensus {
  import opened Wrappers
  import Lex

  /** `updatedAt` in nanoseconds, `version` the same instant in milliseconds. */
  datatype Entry = Entry(key: string, value: string, nodeId: string, updatedAt: int, version: nat)

  datatype Strategy = LastWriteWins | Voting

  type Store = map<string, Entry>

  function Get(m: Store, k: string): Option<Entry> {
    if k in m then Some(m[k]) else None
  }

  function PickLatestByTimestamp(local: Entry, remote: Entry): Entry {
    if local.updatedAt >= remote.updatedAt then local else remote
  }

  function PickByVoting(local: Entry, remote: Entry): Entry {
    if local.version > remote.version then local
    else if remote.version > local.version then remote
    else if Lex.Leq(local.nodeId, remote.nodeId) then local
    else remote
  }

  function ResolveConflict(local: Option<Entry>, remote: Option<Entry>, strategy: Strategy): Option<Entry> {
    match (local, remote)
    case (None, None) => None
    case (None, Some(r)) => Some(r)
    case (Some(l), None) => Some(l)
    case (Some(l), Some(r)) =>
      match strategy
      case LastWriteWins => Some(PickLatestByTimestamp(l, r))
      case Voting => Some(PickByVoting(l, r))
  }

  // ---------------------------------------------------------------------
  // The order behind a strategy
  // ---------------------------------------------------------------------

  /** `a` ranks at least as high as `b`; an absent entry ranks lowest. */
  predicate Geq(strategy: Strategy, a: Option<Entry>, b: Option<Entry>) {
    match (a, b)
    case (_, None) => true
    case (None, Some(_)) => false
    case (Some(x), Some(y)) =>
      match strategy
      case LastWriteWins => x.updatedAt >= y.updatedAt
      case Voting => x.version > y.version || (x.version == y.version && Lex.Leq(x.nodeId, y.nodeId))
  }

  lemma GeqTotal(strategy: Strategy, a: Option<Entry>, b: Option<Entry>)
    ensures Geq(strategy, a, b) || Geq(strategy, b, a)
    ensures Geq(strategy, a, a)
  {
    if a.Some? {
      Lex.Total(a.value.nodeId, a.value.nodeId);
      if b.Some? {
        Lex.Total(a.value.nodeId, b.value.nodeId);
      }
    }
  }

  lemma GeqTransitive(strategy: Strategy, a: Option<Entry>, b: Option<Entry>, c: Option<Entry>)
    requires Geq(strategy, a, b) && Geq(strategy, b, c)
    ensures Geq(strategy, a, c)
  {
    if a.Some? && b.Some? && c.Some? && strategy.Voting? && a.value.version == b.value.version == c.value.version {
      Lex.Transitive(a.value.nodeId, b.value.nodeId, c.value.nodeId);
    }
  }

  /** Entries that rank equal under voting share version and node. */
  lemma VotingTie(a: Entry, b: Entry)
    requires Geq(Voting, Some(a), Some(b)) && Geq(Voting, Some(b), Some(a))
    ensures a.version == b.version && a.nodeId == b.nodeId
  {
    Lex.AntiSymmetric(a.nodeId, b.nodeId);
  }

  /** Resolution keeps the higher ranked side, and the local one on a tie. */
  lemma ResolveIsMax(local: Option<Entry>, remote: Option<Entry>, strategy: Strategy)
    ensures ResolveConflict(local, remote, strategy) == if Geq(strategy, local, remote) then local else remote
    ensures Geq(strategy, ResolveConflict(local, remote, strategy), local)
    ensures Geq(strategy, ResolveConflict(local, remote, strategy), remote)
  {
    GeqTotal(strategy, local, remote);
    GeqTotal(strategy, remote, local);
  }

  // ---------------------------------------------------------------------
  // The objects
  // ---------------------------------------------------------------------

  ghost predicate WellKeyed(m: Store) {
    forall k :: k in m ==> m[k].key == k
  }

  /** Both sides of a check afterwards: every known key with its winning entry. */
  function Merged(strategy: Strategy, local: Store, remote: Store): Store {
    map k | k in local.Keys + remote.Keys :: ResolveConflict(Get(local, k), Get(remote, k), strategy).value
  }

  /** Entries keyed by their own key, later ones replacing earlier ones. */
  function Collected(entries: seq<Entry>): Store {
    if entries == [] then map[]
    else Collected(entries[..|entries| - 1])[entries[|entries| - 1].key := entries[|entries| - 1]]
  }

  method Collect(entries: seq<Entry>) returns (m: Store)
    ensures m == Collected(entries)
  {
    m := map[];
    for i := 0 to |entries|
      invariant m == Collected(entries[..i])
    {
      assert entries[..i + 1][..i] == entries[..i];
      m := m[entries[i].key := entries[i]];
    }
    assert entries[..|entries|] == entries;
  }

  class InMemoryBackend {
    var entries: Store

    constructor ()
      ensures entries == map[]
    {
      entries := map[];
    }

    method SetEntry(entry: Entry)
      modifies this
      ensures entries == old(entries)[entry.key := entry]
    {
      entries := entries[entry.key := entry];
    }

    /** All stored entries, in some order. */
    method AllEntries() returns (listed: seq<Entry>)
      requires WellKeyed(entries)
      ensures Collected(listed) == entries && |listed| == |entries|
    {
      listed := [];
      var rest := entries.Keys;
      while rest != {}
        invariant rest <= entries.Keys
        invariant |listed| + |rest| == |entries.Keys|
        invariant Collected(listed) == map k | k in entries.Keys - rest :: entries[k]
        decreases rest
      {
        var k :| k in rest;
        rest := rest - {k};
        assert (listed + [entries[k]])[..|listed|] == listed;
        listed := listed + [entries[k]];
      }
    }
  }

  datatype ConflictDetail = ConflictDetail(
    key: string, local: Option<Entry>, remote: Option<Entry>, winner: Option<Entry>)

  datatype Report = Report(consistent: bool, conflicts: seq<ConflictDetail>, conflictsResolved: nat, keysChecked: nat)

  /** `conflicts` lists every key of `keys` the two sides disagree on, once, with both sides and the winner. */
  ghost predicate Lists(
    conflicts: seq<ConflictDetail>, strategy: Strategy, local: Store, remote: Store, keys: set<string>)
  {
    && (forall i :: 0 <= i < |conflicts| ==>
          conflicts[i].key in keys && IsConflict(conflicts[i], strategy, local, remote))
    && (forall i, j :: 0 <= i < j < |conflicts| ==> conflicts[i].key != conflicts[j].key)
    && (forall k :: k in keys && Get(local, k) != Get(remote, k) ==>
          exists i :: 0 <= i < |conflicts| && conflicts[i].key == k)
  }

  ghost predicate IsConflict(c: ConflictDetail, strategy: Strategy, local: Store, remote: Store) {
    && c.local == Get(local, c.key) && c.remote == Get(remote, c.key) && c.local != c.remote
    && c.winner == ResolveConflict(c.local, c.remote, strategy)
  }

  lemma ListsOneMore(
    conflicts: seq<ConflictDetail>, strategy: Strategy, local: Store, remote: Store, keys: set<string>, key: string)
    requires Lists(conflicts, strategy, local, remote, keys) && key !in keys
    ensures Get(local, key) == Get(remote, key) ==> Lists(conflicts, strategy, local, remote, keys + {key})
    ensures Get(local, key) != Get(remote, key) ==>
      var l, r := Get(local, key), Get(remote, key);
      var c := ConflictDetail(key, l, r, ResolveConflict(l, r, strategy));
      Lists(conflicts + [c], strategy, local, remote, keys + {key})
  {
    if Get(local, key) != Get(remote, key) {
      var l, r := Get(local, key), Get(remote, key);
      var c := ConflictDetail(key, l, r, ResolveConflict(l, r, strategy));
      var more := conflicts + [c];
      forall k | k in keys + {key} && Get(local, k) != Get(remote, k)
        ensures exists i :: 0 <= i < |more| && more[i].key == k
      {
        if k == key {
          assert more[|conflicts|].key == k;
        } else {
          var i :| 0 <= i < |conflicts| && conflicts[i].key == k;
          assert more[i].key == k;
        }
      }
    }
  }

  ghost predicate Reports(r: Report, strategy: Strategy, local: Store, remote: Store) {
    && Lists(r.conflicts, strategy, local, remote, local.Keys + remote.Keys)
    && r.conflictsResolved == |r.conflicts|
    && r.keysChecked == |local.Keys + remote.Keys|
    && (r.consistent <==> local == remote)
  }

  lemma NoConflictsMeansSame(conflicts: seq<ConflictDetail>, strategy: Strategy, local: Store, remote: Store)
    requires Lists(conflicts, strategy, local, remote, local.Keys + remote.Keys)
    ensures conflicts == [] <==> local == remote
  {
    if conflicts == [] {
      assert forall k :: Get(local, k) == Get(remote, k);
      SameEntries(local, remote);
    } else {
      assert IsConflict(conflicts[0], strategy, local, remote);
    }
  }

  class NodeCache {
    const nodeId: string
    const backend: InMemoryBackend
    const strategy: Strategy
    var local: Store

    ghost predicate Valid()
      reads this, backend
    {
      WellKeyed(local) && WellKeyed(backend.entries)
    }

    constructor (nodeId: string, backend: InMemoryBackend, strategy: Strategy)
      ensures this.nodeId == nodeId && this.backend == backend && this.strategy == strategy && local == map[]
    {
      this.nodeId, this.backend, this.strategy, local := nodeId, backend, strategy, map[];
    }

    /** `at` is the wall clock in nanoseconds; the version is its milliseconds cast to 64 bits. */
    method Put(key: string, value: string, at: int) returns (entry: Entry)
      requires Valid()
      modifies this, backend
      ensures Valid()
      ensures entry == Entry(key, value, nodeId, at, (at / 1_000_000) % 0x1_0000_0000_0000_0000)
      ensures backend.entries == old(backend.entries)[key := entry] && local == old(local)[key := entry]
    {
      entry := Entry(key, value, nodeId, at, (at / 1_000_000) % 0x1_0000_0000_0000_0000);
      backend.SetEntry(entry);
      local := local[key := entry];
    }

    method SyncLocalFromRemote()
      requires Valid()
      modifies this
      ensures Valid() && local == backend.entries
    {
      var entries := backend.AllEntries();
      local := Collect(entries);
    }

    /** Compare with the backend and push the winner of every difference to both sides. */
    method CheckAndResolve() returns (report: Report)
      requires Valid()
      modifies this, backend
      ensures Valid()
      ensures local == backend.entries == Merged(strategy, old(local), old(backend.entries))
      ensures Reports(report, strategy, old(local), old(backend.entries))
    {
      var listed := backend.AllEntries();
      var remote := Collect(listed);
      var snapshot := local;
      var keys := snapshot.Keys + remote.Keys;
      var conflicts, resolved := ResolveAll(snapshot, remote, keys);
      MergedIsWellKeyed(strategy, snapshot, remote);
      NoConflictsMeansSame(conflicts, strategy, snapshot, remote);
      report := Report(conflicts == [], conflicts, resolved, |keys|);
    }

    /** The loop of `check_and_resolve` over all keys, in some order. */
    method ResolveAll(snapshot: Store, remote: Store, keys: set<string>)
      returns (conflicts: seq<ConflictDetail>, resolved: nat)
      requires snapshot == local && remote == backend.entries && keys == snapshot.Keys + remote.Keys
      requires Valid()
      modifies this, backend
      ensures local == backend.entries == Merged(strategy, snapshot, remote)
      ensures resolved == |conflicts| && Lists(conflicts, strategy, snapshot, remote, keys)
    {
      NothingResolved(strategy, snapshot, remote);
      hide Resolved, WellKeyed, ResolveConflict, Get;
      conflicts, resolved := [], 0;
      ghost var done: set<string> := {};
      var rest := keys;
      while rest != {}
        invariant done == keys - rest && rest <= keys
        invariant resolved == |conflicts|
        invariant Resolved(strategy, snapshot, remote, done, local, backend.entries, conflicts)
        decreases rest
      {
        var key :| key in rest;
        ResolvedStep(strategy, snapshot, remote, done, local, backend.entries, conflicts, key);
        var winner := ResolveKey(key, Get(snapshot, key), Get(remote, key));
        if Get(snapshot, key) != Get(remote, key) {
          conflicts := conflicts + [ConflictDetail(key, Get(snapshot, key), Get(remote, key), winner)];
          resolved := resolved + 1;
        }
        rest, done := rest - {key}, done + {key};
      }
      assert done == keys;
      AllResolved(strategy, snapshot, remote, local, backend.entries, conflicts);
    }

    method ResolveKey(key: string, l: Option<Entry>, r: Option<Entry>) returns (winner: Option<Entry>)
      requires l.Some? || r.Some?
      requires (l.Some? ==> l.value.key == key) && (r.Some? ==> r.value.key == key)
      modifies this, backend
      ensures winner == ResolveConflict(l, r, strategy)
      ensures l == r ==> local == old(local) && backend.entries == old(backend.entries)
      ensures l != r ==>
        && winner.Some? && local == old(local)[key := winner.value]
        && backend.entries == old(backend.entries)[key := winner.value]
    {
      winner := ResolveConflict(l, r, strategy);
      if l != r {
        backend.SetEntry(winner.value);
        local := local[key := winner.value];
      }
    }
  }

  lemma WinnerOf(strategy: Strategy, local: Store, remote: Store, key: string)
    requires WellKeyed(local) && WellKeyed(remote) && key in local.Keys + remote.Keys
    ensures
      var winner := ResolveConflict(Get(local, key), Get(remote, key), strategy);
      && winner == Some(Merged(strategy, local, remote)[key]) && winner.value.key == key
      && (Get(local, key) == Get(remote, key) ==> winner == Get(local, key))
  {
    ResolveIsMax(Get(local, key), Get(remote, key), strategy);
  }

  /** `m` is `base` with the keys in `done` taken from `merged`. */
  ghost predicate Updated(m: Store, base: Store, merged: Store, done: set<string>) {
    forall k :: Get(m, k) == if k in done then Get(merged, k) else Get(base, k)
  }

  lemma UpdatedOne(m: Store, base: Store, merged: Store, done: set<string>, key: string)
    requires Updated(m, base, merged, done) && key in merged && key !in done
    ensures Updated(m[key := merged[key]], base, merged, done + {key})
    ensures Get(base, key) == Some(merged[key]) ==> Updated(m, base, merged, done + {key})
  {
  }

  /** The state of the loop over all keys: both sides resolved, and conflicts listed, for the keys in `done`. */
  ghost predicate Resolved(
    strategy: Strategy, snapshot: Store, remote: Store, done: set<string>,
    local: Store, backend: Store, conflicts: seq<ConflictDetail>)
  {
    var merged := Merged(strategy, snapshot, remote);
    && Updated(local, snapshot, merged, done) && Updated(backend, remote, merged, done)
    && Lists(conflicts, strategy, snapshot, remote, done)
  }

  lemma NothingResolved(strategy: Strategy, snapshot: Store, remote: Store)
    ensures Resolved(strategy, snapshot, remote, {}, snapshot, remote, [])
  {
  }

  lemma AllResolved(
    strategy: Strategy, snapshot: Store, remote: Store,
    local: Store, backend: Store, conflicts: seq<ConflictDetail>)
    requires Resolved(strategy, snapshot, remote, snapshot.Keys + remote.Keys, local, backend, conflicts)
    ensures local == backend == Merged(strategy, snapshot, remote)
    ensures Lists(conflicts, strategy, snapshot, remote, snapshot.Keys + remote.Keys)
  {
    hide Lists, Updated;
    assert Merged(strategy, snapshot, remote).Keys == snapshot.Keys + remote.Keys;
    UpdatedAll(local, snapshot, Merged(strategy, snapshot, remote));
    UpdatedAll(backend, remote, Merged(strategy, snapshot, remote));
  }

  lemma ResolvedStep(
    strategy: Strategy, snapshot: Store, remote: Store, done: set<string>,
    local: Store, backend: Store, conflicts: seq<ConflictDetail>, key: string)
    requires WellKeyed(snapshot) && WellKeyed(remote)
    requires Resolved(strategy, snapshot, remote, done, local, backend, conflicts)
    requires key in snapshot.Keys + remote.Keys && key !in done
    ensures
      var l, r := Get(snapshot, key), Get(remote, key);
      var w := ResolveConflict(l, r, strategy);
      && (l.Some? ==> l.value.key == key) && (r.Some? ==> r.value.key == key)
      && (l.Some? || r.Some?) && w.Some?
      && (l == r ==> Resolved(strategy, snapshot, remote, done + {key}, local, backend, conflicts))
      && (l != r ==>
            Resolved(strategy, snapshot, remote, done + {key}, local[key := w.value], backend[key := w.value],
                     conflicts + [ConflictDetail(key, l, r, w)]))
  {
    var merged := Merged(strategy, snapshot, remote);
    WinnerOf(strategy, snapshot, remote, key);
    hide Lists, Updated, ResolveConflict, Merged;
    UpdatedOne(local, snapshot, merged, done, key);
    UpdatedOne(backend, remote, merged, done, key);
    ListsOneMore(conflicts, strategy, snapshot, remote, done, key);
  }

  lemma UpdatedAll(m: Store, base: Store, merged: Store)
    requires base.Keys <= merged.Keys && Updated(m, base, merged, merged.Keys)
    ensures m == merged
  {
    SameEntries(m, merged);
  }

  lemma MergedIsWellKeyed(strategy: Strategy, local: Store, remote: Store)
    requires WellKeyed(local) && WellKeyed(remote)
    ensures WellKeyed(Merged(strategy, local, remote))
  {
    var merged := Merged(strategy, local, remote);
    forall k | k in merged
      ensures merged[k].key == k
    {
      WinnerOf(strategy, local, remote, k);
    }
  }

  lemma SameEntries(a: Store, b: Store)
    requires forall k :: Get(a, k) == Get(b, k)
    ensures a == b
  {
    assert forall k :: k in a <==> Get(a, k).Some?;
    assert forall k :: k in b <==> Get(b, k).Some?;
    assert forall k :: k in a ==> Get(a, k) == Some(a[k]) && Get(b, k) == Some(b[k]);
  }
}
