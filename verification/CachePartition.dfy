/**
 * The tenant-partitioned cache (backend/src/cache_partition.rs): namespaced
 * keys, and non-interference between tenants over whole runs.
 */
module CachePartition {

  import opened Wrappers

  // ---------------------------------------------------------------------
  // Namespaced keys
  // ---------------------------------------------------------------------

  const KEY_SEP: char := ':'

  function NamespacedKey(tenant: string, key: string): string {
    tenant + [KEY_SEP] + key
  }

  /** Split at the first separator. */
  function ParseNamespacedKey(s: string): Option<(string, string)> {
    if s == [] then None
    else if s[0] == KEY_SEP then Some(([], s[1..]))
    else
      match ParseNamespacedKey(s[1..])
      case None => None
      case Some((tenant, key)) => Some(([s[0]] + tenant, key))
  }

  predicate ValidTenantId(tenant: string) {
    tenant != [] && KEY_SEP !in tenant
  }

  /** What the validator refuses. */
  lemma RefusedTenantIds(tenant: string)
    ensures !ValidTenantId(tenant) <==> |tenant| == 0 || exists i :: 0 <= i < |tenant| && tenant[i] == ':'
  {
  }

  /** Where parsing stops: a namespaced key gives back its parts exactly when the tenant has no separator. */
  lemma {:induction false} NamespacedRoundTrip(tenant: string, key: string)
    ensures ParseNamespacedKey(NamespacedKey(tenant, key)) == Some((tenant, key)) <==> ':' !in tenant
    ensures |NamespacedKey(tenant, key)| == |tenant| + 1 + |key| && tenant + ":" <= NamespacedKey(tenant, key)
  {
    var s := NamespacedKey(tenant, key);
    if tenant == [] {
      assert s[1..] == key;
    } else {
      assert s[1..] == NamespacedKey(tenant[1..], key);
      NamespacedRoundTrip(tenant[1..], key);
      assert tenant == [tenant[0]] + tenant[1..];
    }
  }

  /** For tenants the validator accepts, no two pairs share a namespaced key. */
  lemma NamespacedInjective(t1: string, k1: string, t2: string, k2: string)
    requires ValidTenantId(t1) && ValidTenantId(t2)
    ensures NamespacedKey(t1, k1) == NamespacedKey(t2, k2) <==> t1 == t2 && k1 == k2
  {
    NamespacedRoundTrip(t1, k1);
    NamespacedRoundTrip(t2, k2);
  }

  // ---------------------------------------------------------------------
  // One partition
  // ---------------------------------------------------------------------

  datatype Entry = Entry(value: string, insertedAt: int, ttl: nat)

  datatype Partition = Partition(data: map<string, Entry>, hits: nat, misses: nat, evictions: nat)

  datatype Stats = Stats(liveKeys: nat, hits: nat, misses: nat, evictions: nat)

  predicate IsExpired(e: Entry, now: int) {
    now - e.insertedAt >= e.ttl
  }

  const FRESH: Partition := Partition(map[], 0, 0, 0)

  function GetFrom(p: Partition, key: string, now: int): (Option<string>, Partition) {
    if key !in p.data then (None, p.(misses := p.misses + 1))
    else if IsExpired(p.data[key], now) then
      (None, p.(data := p.data - {key}, misses := p.misses + 1, evictions := p.evictions + 1))
    else (Some(p.data[key].value), p.(hits := p.hits + 1))
  }

  function StatsOf(p: Partition, now: int): Stats {
    Stats(|set k | k in p.data && !IsExpired(p.data[k], now)|, p.hits, p.misses, p.evictions)
  }

  // ---------------------------------------------------------------------
  // The cache as a state machine over tenants
  // ---------------------------------------------------------------------

  type Partitions = map<string, Partition>

  datatype Op =
    | Set(tenant: string, key: string, value: string, ttl: nat, at: int)
    | Get(tenant: string, key: string, at: int)
    | Remove(tenant: string, key: string, at: int)
    | ClearTenant(tenant: string, at: int)
    | ReadStats(tenant: string, at: int)
    | ClearAll(at: int)

  /** The operations one tenant takes part in; clearing everything concerns all. */
  predicate Concerns(op: Op, tenant: string) {
    op.ClearAll? || op.tenant == tenant
  }

  datatype Answer = Done | Value(found: Option<string>) | Statistics(stats: Option<Stats>)

  function Apply(ps: Partitions, op: Op): (Partitions, Answer) {
    match op
    case Set(t, key, value, ttl, at) =>
      var p := if t in ps then ps[t] else FRESH;
      (ps[t := p.(data := p.data[key := Entry(value, at, ttl)])], Done)
    case Get(t, key, at) =>
      if t !in ps then (ps, Value(None))
      else var (found, p) := GetFrom(ps[t], key, at); (ps[t := p], Value(found))
    case Remove(t, key, _) =>
      if t !in ps then (ps, Done) else (ps[t := ps[t].(data := ps[t].data - {key})], Done)
    case ClearTenant(t, _) =>
      if t !in ps then (ps, Done) else (ps[t := ps[t].(data := map[])], Done)
    case ReadStats(t, at) =>
      (ps, Statistics(if t in ps then Some(StatsOf(ps[t], at)) else None))
    case ClearAll(_) =>
      (map t | t in ps :: ps[t].(data := map[]), Done)
  }

  /** The answers to a run, in order. */
  function Answers(ps: Partitions, ops: seq<Op>): seq<Answer>
    decreases ops
  {
    if ops == [] then []
    else var (ps', a) := Apply(ps, ops[0]); [a] + Answers(ps', ops[1..])
  }

  /** The part of a run one tenant takes part in. */
  function Mine(ops: seq<Op>, tenant: string): seq<Op> {
    if ops == [] then [] else (if Concerns(ops[0], tenant) then [ops[0]] else []) + Mine(ops[1..], tenant)
  }

  /** The answers one tenant gets in a run. */
  function AnswersTo(ps: Partitions, ops: seq<Op>, tenant: string): seq<Answer>
    decreases ops
  {
    if ops == [] then []
    else
      var (ps', a) := Apply(ps, ops[0]);
      (if Concerns(ops[0], tenant) then [a] else []) + AnswersTo(ps', ops[1..], tenant)
  }

  /** Two states that look the same to `tenant`. */
  ghost predicate SameTo(ps: Partitions, qs: Partitions, tenant: string) {
    (tenant in ps <==> tenant in qs) && (tenant in ps ==> ps[tenant] == qs[tenant])
  }

  lemma OthersAreInvisible(ps: Partitions, op: Op, tenant: string)
    requires !Concerns(op, tenant)
    ensures SameTo(Apply(ps, op).0, ps, tenant)
  {
  }

  lemma OwnStepsAgree(ps: Partitions, qs: Partitions, op: Op, tenant: string)
    requires SameTo(ps, qs, tenant) && Concerns(op, tenant)
    ensures Apply(ps, op).1 == Apply(qs, op).1 && SameTo(Apply(ps, op).0, Apply(qs, op).0, tenant)
  {
  }

  /**
   * Non-interference: what a tenant is told in a run, values and statistics, is
   * what it would be told with every other tenant's operations erased.
   */
  lemma {:induction false} NonInterference(ps: Partitions, qs: Partitions, ops: seq<Op>, tenant: string)
    requires SameTo(ps, qs, tenant)
    ensures AnswersTo(ps, ops, tenant) == Answers(qs, Mine(ops, tenant))
    decreases ops
  {
    if ops != [] {
      hide Apply;
      var op := ops[0];
      var ps' := Apply(ps, op).0;
      if Concerns(op, tenant) {
        OwnStepsAgree(ps, qs, op, tenant);
        NonInterference(ps', Apply(qs, op).0, ops[1..], tenant);
        assert Mine(ops, tenant)[0] == op && Mine(ops, tenant)[1..] == Mine(ops[1..], tenant);
      } else {
        OthersAreInvisible(ps, op, tenant);
        NonInterference(ps', qs, ops[1..], tenant);
        assert Mine(ops, tenant) == Mine(ops[1..], tenant);
      }
    }
  }

  /** The same from an empty cache, for every tenant. */
  lemma TenantsAreIsolated(ops: seq<Op>, tenant: string)
    ensures AnswersTo(map[], ops, tenant) == Answers(map[], Mine(ops, tenant))
  {
    NonInterference(map[], map[], ops, tenant);
  }

  // ---------------------------------------------------------------------
  // What a tenant is told
  // ---------------------------------------------------------------------

  function StateAfter(ops: seq<Op>): Partitions {
    if ops == [] then map[] else Apply(StateAfter(ops[..|ops| - 1]), ops[|ops| - 1]).0
  }

  ghost predicate Timely(ops: seq<Op>) {
    forall i, j :: 0 <= i < j < |ops| ==> ops[i].at <= ops[j].at
  }

  /** What was last set under a key, unless it was removed or cleared since. */
  ghost function LastSet(ops: seq<Op>, tenant: string, key: string): Option<Entry> {
    if ops == [] then None
    else
      var op, before := ops[|ops| - 1], LastSet(ops[..|ops| - 1], tenant, key);
      match op
      case Set(t, k, value, ttl, at) => if t == tenant && k == key then Some(Entry(value, at, ttl)) else before
      case Remove(t, k, _) => if t == tenant && k == key then None else before
      case ClearTenant(t, _) => if t == tenant then None else before
      case ClearAll(_) => None
      case _ => before
  }

  function Stored(ps: Partitions, tenant: string, key: string): Option<Entry> {
    if tenant in ps && key in ps[tenant].data then Some(ps[tenant].data[key]) else None
  }

  /** The partition holds the last entry set, or has dropped it because it had expired. */
  ghost predicate Remembers(ps: Partitions, tenant: string, key: string, last: Option<Entry>, now: int) {
    Stored(ps, tenant, key) == last || (Stored(ps, tenant, key) == None && last.Some? && IsExpired(last.value, now))
  }

  lemma {:induction false} StateRemembers(ops: seq<Op>, tenant: string, key: string, now: int)
    requires Timely(ops) && (ops != [] ==> ops[|ops| - 1].at <= now)
    ensures Remembers(StateAfter(ops), tenant, key, LastSet(ops, tenant, key), now)
  {
    if ops != [] {
      var before, op := ops[..|ops| - 1], ops[|ops| - 1];
      StateRemembers(before, tenant, key, op.at);
      RemembersStep(StateAfter(before), op, tenant, key, LastSet(before, tenant, key));
      hide Apply;
    }
  }

  lemma RemembersStep(ps: Partitions, op: Op, tenant: string, key: string, last: Option<Entry>)
    requires Remembers(ps, tenant, key, last, op.at)
    ensures
      var last' := match op
        case Set(t, k, value, ttl, at) => if t == tenant && k == key then Some(Entry(value, at, ttl)) else last
        case Remove(t, k, _) => if t == tenant && k == key then None else last
        case ClearTenant(t, _) => if t == tenant then None else last
        case ClearAll(_) => None
        case _ => last;
      Remembers(Apply(ps, op).0, tenant, key, last', op.at)
  {
  }

  /** A lookup is answered with the last value set and not removed since, exactly while its lifetime lasts. */
  lemma {:induction false} LookupIsLastSet(ops: seq<Op>, tenant: string, key: string, now: int)
    requires Timely(ops) && (ops != [] ==> ops[|ops| - 1].at <= now)
    ensures
      var last := LastSet(ops, tenant, key);
      Apply(StateAfter(ops), Op.Get(tenant, key, now)).1
      == Value(if last.Some? && now - last.value.insertedAt < last.value.ttl then Some(last.value.value) else None)
  {
    StateRemembers(ops, tenant, key, now);
  }

  ghost predicate EverSet(ops: seq<Op>, tenant: string) {
    exists i :: 0 <= i < |ops| && ops[i].Set? && ops[i].tenant == tenant
  }

  /** The lookups of a tenant that found a value. */
  ghost function Hits(ops: seq<Op>, tenant: string): nat {
    if ops == [] then 0
    else
      var before, op := ops[..|ops| - 1], ops[|ops| - 1];
      Hits(before, tenant)
      + if op.Get? && op.tenant == tenant && Apply(StateAfter(before), op).1 != Value(None) then 1 else 0
  }

  /** The lookups of a tenant that met an entry past its lifetime. */
  ghost function Expiries(ops: seq<Op>, tenant: string): nat {
    if ops == [] then 0
    else
      var before, op := ops[..|ops| - 1], ops[|ops| - 1];
      Expiries(before, tenant) + if op.Get? && op.tenant == tenant && MeetsExpired(StateAfter(before), op) then 1 else 0
  }

  predicate MeetsExpired(ps: Partitions, op: Op)
    requires op.Get?
  {
    var e := Stored(ps, op.tenant, op.key);
    e.Some? && op.at - e.value.insertedAt >= e.value.ttl
  }

  /** The lookups of a tenant since it first set something; earlier ones are not recorded. */
  ghost function Lookups(ops: seq<Op>, tenant: string): nat {
    if ops == [] then 0
    else
      var before, op := ops[..|ops| - 1], ops[|ops| - 1];
      Lookups(before, tenant) + if op.Get? && op.tenant == tenant && EverSet(before, tenant) then 1 else 0
  }

  lemma EverSetStep(ops: seq<Op>, op: Op, tenant: string)
    ensures EverSet(ops + [op], tenant) <==> EverSet(ops, tenant) || (op.Set? && op.tenant == tenant)
  {
    var ops' := ops + [op];
    assert ops'[|ops|] == op;
    if i :| 0 <= i < |ops| && ops[i].Set? && ops[i].tenant == tenant {
      assert ops'[i] == ops[i];
    }
  }

  /** The partition of a tenant that has ever set something, with so many lookups, hits and expiries since. */
  ghost predicate Counts(ps: Partitions, tenant: string, ever: bool, hits: nat, lookups: nat, expiries: nat) {
    && (tenant in ps <==> ever)
    && (ever ==>
          && ps[tenant].hits == hits && ps[tenant].hits + ps[tenant].misses == lookups
          && ps[tenant].evictions == expiries <= ps[tenant].misses)
    && (!ever ==> hits == 0 && lookups == 0 && expiries == 0)
  }

  lemma CountsStep(ps: Partitions, op: Op, tenant: string, ever: bool, hits: nat, lookups: nat, expiries: nat)
    requires Counts(ps, tenant, ever, hits, lookups, expiries)
    ensures
      var mine := op.Get? && op.tenant == tenant;
      Counts(
        Apply(ps, op).0, tenant, ever || (op.Set? && op.tenant == tenant),
        hits + (if mine && Apply(ps, op).1 != Value(None) then 1 else 0), lookups + (if mine && ever then 1 else 0),
        expiries + if mine && MeetsExpired(ps, op) then 1 else 0)
  {
    if !Concerns(op, tenant) {
      OthersAreInvisible(ps, op, tenant);
    }
  }

  /**
   * A tenant has a partition exactly once it has set something. From then on every lookup is a hit
   * or a miss, hits are the lookups that found a value, and evictions those that met an expired one.
   */
  lemma {:induction false} StatisticsCountLookups(ops: seq<Op>, tenant: string)
    ensures
      var ever, hits, lookups := EverSet(ops, tenant), Hits(ops, tenant), Lookups(ops, tenant);
      Counts(StateAfter(ops), tenant, ever, hits, lookups, Expiries(ops, tenant))
  {
    if ops != [] {
      var before, op := ops[..|ops| - 1], ops[|ops| - 1];
      StatisticsCountLookups(before, tenant);
      assert ops == before + [op];
      EverSetStep(before, op, tenant);
      hide EverSet, Apply, Counts, MeetsExpired;
      var ever, hits, lookups := EverSet(before, tenant), Hits(before, tenant), Lookups(before, tenant);
      CountsStep(StateAfter(before), op, tenant, ever, hits, lookups, Expiries(before, tenant));
    }
  }

  /** Everything a tenant has ever set. */
  ghost function KeysSet(ops: seq<Op>, tenant: string): set<string> {
    set i | 0 <= i < |ops| && ops[i].Set? && ops[i].tenant == tenant :: ops[i].key
  }

  /** The keys whose last value is neither removed nor past its lifetime. */
  ghost function LiveKeys(ops: seq<Op>, tenant: string, now: int): set<string> {
    set k | k in KeysSet(ops, tenant) && IsLive(LastSet(ops, tenant, k), now)
  }

  predicate IsLive(last: Option<Entry>, now: int) {
    last.Some? && now - last.value.insertedAt < last.value.ttl
  }

  lemma {:induction false} LastSetWasSet(ops: seq<Op>, tenant: string, key: string)
    requires LastSet(ops, tenant, key).Some?
    ensures key in KeysSet(ops, tenant)
  {
    var before, op := ops[..|ops| - 1], ops[|ops| - 1];
    if op.Set? && op.tenant == tenant && op.key == key {
      assert ops[|ops| - 1].Set?;
    } else {
      LastSetWasSet(before, tenant, key);
      var i :| 0 <= i < |before| && before[i].Set? && before[i].tenant == tenant && before[i].key == key;
      assert ops[i] == before[i];
    }
  }

  /** What a tenant's statistics report: its live keys, and its lookups by how they ended. */
  lemma StatisticsAreExact(ops: seq<Op>, tenant: string, now: int)
    requires Timely(ops) && (ops != [] ==> ops[|ops| - 1].at <= now)
    ensures
      var answer := Apply(StateAfter(ops), ReadStats(tenant, now)).1;
      if !EverSet(ops, tenant) then answer == Statistics(None)
      else
        && answer.Statistics? && answer.stats.Some?
        && var st := answer.stats.value;
           && st.liveKeys == |LiveKeys(ops, tenant, now)| && st.hits == Hits(ops, tenant)
           && st.hits + st.misses == Lookups(ops, tenant) && st.evictions == Expiries(ops, tenant)
  {
    StatisticsCountLookups(ops, tenant);
    hide EverSet, Hits, Lookups, Expiries;
    var ps := StateAfter(ops);
    if tenant in ps {
      var live := set k | k in ps[tenant].data && !IsExpired(ps[tenant].data[k], now);
      forall k
        ensures k in live <==> k in LiveKeys(ops, tenant, now)
      {
        StateRemembers(ops, tenant, k, now);
        if LastSet(ops, tenant, k).Some? {
          LastSetWasSet(ops, tenant, k);
        }
        hide LastSet, StateAfter, KeysSet;
      }
      assert live == LiveKeys(ops, tenant, now);
    }
  }

  /** Without a write, lookups and the rest leave a tenant without a partition and without statistics. */
  lemma LookupsLeaveNoPartition(ops: seq<Op>, tenant: string, now: int)
    requires forall i :: 0 <= i < |ops| && Concerns(ops[i], tenant) ==> !ops[i].Set?
    ensures tenant !in StateAfter(ops)
    ensures Apply(StateAfter(ops), ReadStats(tenant, now)).1 == Statistics(None)
  {
    StatisticsCountLookups(ops, tenant);
  }

  // ---------------------------------------------------------------------
  // The object
  // ---------------------------------------------------------------------

  class PartitionedCache {
    var partitions: Partitions
    const defaultTtl: nat

    constructor (defaultTtl: nat)
      ensures partitions == map[] && this.defaultTtl == defaultTtl
    {
      partitions, this.defaultTtl := map[], defaultTtl;
    }

    method SetWithTtl(tenant: string, key: string, value: string, ttl: nat, now: int)
      modifies this
      ensures partitions == Apply(old(partitions), Op.Set(tenant, key, value, ttl, now)).0
    {
      if tenant !in partitions {
        partitions := partitions[tenant := FRESH];
      }
      var p := partitions[tenant];
      partitions := partitions[tenant := p.(data := p.data[key := Entry(value, now, ttl)])];
    }

    /** Refused without effect when the tenant id is not valid. */
    method SetSafe(tenant: string, key: string, value: string, now: int) returns (ok: bool)
      modifies this
      ensures ok <==> ValidTenantId(tenant)
      ensures partitions ==
        if ok then Apply(old(partitions), Op.Set(tenant, key, value, defaultTtl, now)).0 else old(partitions)
    {
      ok := ValidTenantId(tenant);
      if ok {
        SetWithTtl(tenant, key, value, defaultTtl, now);
      }
    }

    method Get(tenant: string, key: string, now: int) returns (found: Option<string>)
      modifies this
      ensures (partitions, Value(found)) == Apply(old(partitions), Op.Get(tenant, key, now))
    {
      if tenant !in partitions {
        return None;
      }
      var p := partitions[tenant];
      if key in p.data && !IsExpired(p.data[key], now) {
        p := p.(hits := p.hits + 1);
        found := Some(p.data[key].value);
      } else if key in p.data {
        p := p.(evictions := p.evictions + 1, misses := p.misses + 1, data := p.data - {key});
        found := None;
      } else {
        p := p.(misses := p.misses + 1);
        found := None;
      }
      partitions := partitions[tenant := p];
    }

    /** Refused without effect when the tenant id is not valid. */
    method GetSafe(tenant: string, key: string, now: int) returns (ok: bool, found: Option<string>)
      modifies this
      ensures ok <==> ValidTenantId(tenant)
      ensures ok ==> (partitions, Value(found)) == Apply(old(partitions), Op.Get(tenant, key, now))
      ensures !ok ==> found == None && partitions == old(partitions)
    {
      ok, found := ValidTenantId(tenant), None;
      if ok {
        found := Get(tenant, key, now);
      }
    }

    method PartitionStats(tenant: string, now: int) returns (stats: Option<Stats>)
      ensures Statistics(stats) == Apply(partitions, Op.ReadStats(tenant, now)).1
    {
      stats := if tenant in partitions then Some(StatsOf(partitions[tenant], now)) else None;
    }

    method Remove(tenant: string, key: string, now: int)
      modifies this
      ensures partitions == Apply(old(partitions), Op.Remove(tenant, key, now)).0
    {
      if tenant in partitions {
        partitions := partitions[tenant := partitions[tenant].(data := partitions[tenant].data - {key})];
      }
    }

    method ClearTenant(tenant: string, now: int)
      modifies this
      ensures partitions == Apply(old(partitions), Op.ClearTenant(tenant, now)).0
    {
      if tenant in partitions {
        partitions := partitions[tenant := partitions[tenant].(data := map[])];
      }
    }

    method ClearAll(now: int)
      modifies this
      ensures partitions == Apply(old(partitions), Op.ClearAll(now)).0
    {
      var rest := partitions.Keys;
      while rest != {}
        invariant rest <= partitions.Keys == old(partitions).Keys
        invariant forall t :: t in partitions ==>
          partitions[t] == if t in rest then old(partitions)[t] else old(partitions)[t].(data := map[])
        decreases rest
      {
        var t :| t in rest;
        partitions := partitions[t := partitions[t].(data := map[])];
        rest := rest - {t};
      }
    }
  }
}
