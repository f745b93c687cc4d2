/**
 * The vault cache (backend/src/cache.rs): three slots per vault id, expiry and
 * staleness on read, eviction of the oldest id, and version tokens. A value is
 * its serialized bytes.
 */
module VaultCache {
  import opened Wrappers
  import opened Arithmetic
  import opened StoredBlock
  import Counting

  datatype Slot = Vault | TtlRemaining | Summary

  /** Times in nanoseconds. */
  datatype Entry = Entry(value: Stored, insertedAt: int, ttl: nat, version: nat)

  type Table = map<string, map<Slot, Entry>>

  datatype Config = Config(ttl: nat, maxEntries: nat, compressionThreshold: nat, stalenessRatio: real)

  datatype Metrics = Metrics(hits: nat, misses: nat, evictions: nat, staleBypasses: nat)

  const SECOND: nat := 1_000_000_000
  const MIN_TTL_SECS: nat := 30
  const MAX_TTL_SECS: nat := 3_600

  /** One past write, with the settings it was made under. */
  datatype Write = Write(id: string, slot: Slot, value: seq<byte>, at: int, ttl: nat, threshold: nat)

  /** What has happened to slots: a write, an expired entry emptied on read, an id dropped, everything dropped. */
  datatype Event = Wrote(write: Write) | Emptied(id: string, slot: Slot) | Dropped(id: string) | DroppedAll

  predicate Touches(event: Event, id: string, slot: Slot) {
    match event
    case Wrote(w) => w.id == id && w.slot == slot
    case Emptied(i, s) => i == id && s == slot
    case Dropped(i) => i == id
    case DroppedAll => true
  }

  /** The write that stands for a slot: the last event on it, if that is a write. */
  function StandingWrite(history: seq<Event>, id: string, slot: Slot): Option<Write> {
    if history == [] then None
    else
      var last := history[|history| - 1];
      if !Touches(last, id, slot) then StandingWrite(history[..|history| - 1], id, slot)
      else if last.Wrote? then Some(last.write) else None
  }

  function Clamp01(r: real): real {
    if r < 0.0 then 0.0 else if r > 1.0 then 1.0 else r
  }

  predicate IsExpired(e: Entry, now: int) {
    now - e.insertedAt >= e.ttl
  }

  /** The share of a lifetime after which an entry is bypassed. */
  function FreshFor(ttl: nat, ratio: real): real {
    ttl as real * Clamp01(ratio)
  }

  /** The share is taken of the whole lifetime, with ratios outside [0, 1] taken as the nearer end. */
  lemma FreshShare(ttl: nat, ratio: real)
    ensures 0.0 <= ratio <= 1.0 ==> FreshFor(ttl, ratio) == ttl as real * ratio
    ensures ratio < 0.0 ==> FreshFor(ttl, ratio) == 0.0
    ensures ratio > 1.0 ==> FreshFor(ttl, ratio) == ttl as real
  {
  }

  predicate IsStale(e: Entry, now: int, ratio: real) {
    (now - e.insertedAt) as real >= FreshFor(e.ttl, ratio)
  }

  predicate Stores(t: Table, id: string, slot: Slot) {
    id in t && slot in t[id]
  }

  /** Ids with at least one occupied slot; an id may stay in the table with none. */
  function Occupied(t: Table): set<string> {
    set id | id in t && t[id] != map[]
  }

  // ---------------------------------------------------------------------
  // What every state satisfies
  // ---------------------------------------------------------------------

  function StoredAt(t: Table, id: string, slot: Slot): Option<Entry> {
    if Stores(t, id, slot) then Some(t[id][slot]) else None
  }

  /** An entry is stored exactly when a write stands, and is what the codec keeps of it. */
  ghost predicate Matches(e: Option<Entry>, w: Option<Write>) {
    && (e.Some? <==> w.Some?)
    && (e.Some? ==>
          && Decode(e.value.value) == Some(Kept(w.value.value, w.value.threshold))
          && e.value.insertedAt == w.value.at && e.value.ttl == w.value.ttl)
  }

  ghost predicate Agrees(t: Table, history: seq<Event>) {
    forall id, slot :: Matches(StoredAt(t, id, slot), StandingWrite(history, id, slot))
  }

  ghost predicate Versioned(t: Table, globalVersion: nat) {
    && (forall id, slot :: Stores(t, id, slot) ==> t[id][slot].version <= globalVersion)
    && (forall id, slot, id', slot' :: Stores(t, id, slot) && Stores(t, id', slot') && (id, slot) != (id', slot')
          ==> t[id][slot].version != t[id'][slot'].version)
  }

  ghost predicate Bounded(t: Table, maxEntries: nat) {
    |Occupied(t)| <= Cap(maxEntries)
  }

  /** `t'` stores nothing that `t` does not. */
  ghost predicate Within(t': Table, t: Table) {
    && t'.Keys <= t.Keys
    && (forall id :: id in t' ==> t'[id].Keys <= t[id].Keys)
    && (forall id, slot :: id in t' && slot in t'[id] ==> t'[id][slot] == t[id][slot])
  }

  /** Dropping entries keeps versions and the bound. */
  lemma WithinKeeps(t': Table, t: Table, globalVersion: nat, maxEntries: nat)
    requires Within(t', t)
    ensures Versioned(t, globalVersion) ==> Versioned(t', globalVersion)
    ensures Bounded(t, maxEntries) ==> Bounded(t', maxEntries)
  {
    assert forall id, slot :: Stores(t', id, slot) ==> Stores(t, id, slot) && t'[id][slot] == t[id][slot];
    Counting.SubsetSize(Occupied(t'), Occupied(t));
  }

  /** `t'` is `t` after `event`: slots it touches hold the write or nothing, the others are as before. */
  ghost predicate Follows(t: Table, event: Event, t': Table) {
    forall id, slot ::
      if !Touches(event, id, slot) then StoredAt(t', id, slot) == StoredAt(t, id, slot)
      else Matches(StoredAt(t', id, slot), if event.Wrote? then Some(event.write) else None)
  }

  /** Agreement with the history survives every event. */
  lemma AgreesStep(t: Table, t': Table, history: seq<Event>, event: Event)
    requires Agrees(t, history) && Follows(t, event, t')
    ensures Agrees(t', history + [event])
  {
    hide Matches, StoredAt, Touches;
    assert (history + [event])[..|history|] == history;
  }

  lemma DropFollows(t: Table, id: string)
    ensures Follows(t, Dropped(id), t - {id})
  {
  }

  function Put(t: Table, id: string, slot: Slot, e: Entry): Table {
    t[id := (if id in t then t[id] else map[])[slot := e]]
  }

  lemma PutFollows(t: Table, e: Entry, w: Write)
    requires Matches(Some(e), Some(w))
    ensures Follows(t, Wrote(w), Put(t, w.id, w.slot, e))
  {
    hide Matches;
  }

  lemma PutVersioned(t: Table, id: string, slot: Slot, e: Entry, globalVersion: nat)
    requires Versioned(t, globalVersion) && e.version == globalVersion + 1
    ensures Versioned(Put(t, id, slot, e), globalVersion + 1)
  {
    var t' := Put(t, id, slot, e);
    assert forall i, s :: Stores(t', i, s) ==>
      (i == id && s == slot && t'[i][s] == e) || (Stores(t, i, s) && t'[i][s] == t[i][s]);
  }

  lemma PutOccupied(t: Table, id: string, slot: Slot, e: Entry)
    ensures |Occupied(Put(t, id, slot, e))| <= |Occupied(t)| + 1
  {
    assert Occupied(Put(t, id, slot, e)) == Occupied(t) + {id} by {
      assert slot in Put(t, id, slot, e)[id];
    }
  }

  // ---------------------------------------------------------------------
  // Eviction
  // ---------------------------------------------------------------------

  /** `id` owns an entry as old as any stored. */
  ghost predicate OwnsOldest(t: Table, id: string) {
    exists slot :: Stores(t, id, slot) &&
      forall id', slot' :: Stores(t, id', slot') ==> t[id][slot].insertedAt <= t[id'][slot'].insertedAt
  }

  function InsertedAt(entries: map<Slot, Entry>, slot: Slot): Option<int> {
    if slot in entries then Some(entries[slot].insertedAt) else None
  }

  function Earlier(a: Option<int>, b: Option<int>): Option<int> {
    if a.None? then b else if b.None? || a.value <= b.value then a else b
  }

  /** The insertion time of the oldest entry of one id. */
  function OldestOf(entries: map<Slot, Entry>): (oldest: Option<int>)
    ensures oldest.None? <==> entries == map[]
    ensures oldest.Some? ==> exists s :: s in entries && entries[s].insertedAt == oldest.value
    ensures oldest.Some? ==> forall s :: s in entries ==> oldest.value <= entries[s].insertedAt
  {
    assert forall s :: s in entries ==> s == Vault || s == TtlRemaining || s == Summary;
    Earlier(Earlier(InsertedAt(entries, Vault), InsertedAt(entries, TtlRemaining)), InsertedAt(entries, Summary))
  }

  /** An id owning the oldest entry, if anything is stored. */
  method FindOldest(t: Table) returns (victim: Option<string>)
    ensures victim.None? <==> Occupied(t) == {}
    ensures victim.Some? ==> victim.value in Occupied(t) && OwnsOldest(t, victim.value)
  {
    victim := None;
    var best := 0;
    var rest := t.Keys;
    while rest != {}
      invariant rest <= t.Keys
      invariant victim.None? ==> forall id :: id in t.Keys - rest ==> t[id] == map[]
      invariant victim.Some? ==>
        victim.value in t && exists s :: Stores(t, victim.value, s) && t[victim.value][s].insertedAt == best
      invariant victim.Some? ==> forall id, s :: id in t.Keys - rest && Stores(t, id, s) ==> best <= t[id][s].insertedAt
      decreases rest
    {
      var id :| id in rest;
      var oldest := OldestOf(t[id]);
      if oldest.Some? && (victim.None? || oldest.value <= best) {
        var s :| s in t[id] && t[id][s].insertedAt == oldest.value;
        assert Stores(t, id, s);
        victim, best := Some(id), oldest.value;
      }
      rest := rest - {id};
    }
    if victim.Some? {
      var s :| Stores(t, victim.value, s) && t[victim.value][s].insertedAt == best;
      assert victim.value in Occupied(t);
    }
  }

  lemma OccupiedIsKnown(t: Table)
    ensures |Occupied(t)| <= |t|
  {
    Counting.SubsetSize(Occupied(t), t.Keys);
  }

  lemma DropOne(t: Table, id: string)
    requires id in Occupied(t)
    ensures Within(t - {id}, t)
    ensures |t - {id}| == |t| - 1 && |Occupied(t - {id})| == |Occupied(t)| - 1
  {
    assert (t - {id}).Keys == t.Keys - {id};
    assert Occupied(t - {id}) == Occupied(t) - {id};
  }

  /** What making room may do: nothing below capacity or with nothing stored, otherwise drop an oldest id. */
  ghost predicate Evicted(before: Table, maxEntries: nat, after: Table) {
    if |before| < maxEntries || Occupied(before) == {} then after == before
    else exists id :: OwnsOldest(before, id) && after == before - {id}
  }

  function Cap(maxEntries: nat): nat {
    Max(1, maxEntries)
  }

  /**
   * When a write keeps the number of ids in the table, occupied or not, within the limit: exactly
   * when there was room, or something to evict, or the id was already there.
   */
  lemma CapHoldsExactly(before: Table, maxEntries: nat, t: Table, id: string, slot: Slot, e: Entry)
    requires Evicted(before, maxEntries, t) && |before| <= Cap(maxEntries)
    ensures |Put(t, id, slot, e)| <= Cap(maxEntries)
      <==> |before| < Cap(maxEntries) || Occupied(before) != {} || id in before
  {
    var after := Put(t, id, slot, e);
    assert after.Keys == t.Keys + {id};
    if |before| >= maxEntries && Occupied(before) != {} {
      var victim :| OwnsOldest(before, victim) && t == before - {victim};
      assert victim in before && t.Keys == before.Keys - {victim};
    }
  }

  // ---------------------------------------------------------------------
  // The cache
  // ---------------------------------------------------------------------

  class Cache {
    var table: Table
    var config: Config
    var metrics: Metrics
    var globalVersion: nat
    ghost var history: seq<Event>

    ghost predicate Valid()
      reads this
    {
      && Agrees(table, history)
      && Versioned(table, globalVersion)
      && Bounded(table, config.maxEntries)
    }

    constructor (config: Config)
      ensures Valid() && this.config == config && history == [] && table == map[]
      ensures metrics == Metrics(0, 0, 0, 0) && globalVersion == 0
    {
      table, this.config, metrics, globalVersion, history := map[], config, Metrics(0, 0, 0, 0), 0, [];
      new;
      assert Occupied(map[]) == {};
    }

    /** Forget one id. */
    method Drop(id: string)
      requires Valid()
      modifies `table, `history
      ensures Valid() && table == old(table) - {id} && history == old(history) + [Dropped(id)]
    {
      hide Agrees, Versioned, Bounded, Follows;
      DropFollows(table, id);
      AgreesStep(table, table - {id}, history, Dropped(id));
      WithinKeeps(table - {id}, table, globalVersion, config.maxEntries);
      table, history := table - {id}, history + [Dropped(id)];
    }

    /** Make room: at capacity, drop an id owning an oldest entry. */
    method EvictIfNeeded()
      requires Valid()
      modifies `table, `metrics, `history
      ensures Valid() && Evicted(old(table), config.maxEntries, table)
      ensures metrics == old(metrics).(evictions := old(metrics).evictions + |old(table)| - |table|)
      ensures
        || (table == old(table) && history == old(history))
        || (exists id :: table == old(table) - {id} && history == old(history) + [Dropped(id)])
      ensures |Occupied(table)| < if config.maxEntries == 0 then 1 else config.maxEntries
    {
      hide Agrees, Versioned, OwnsOldest, Occupied, Within;
      OccupiedIsKnown(table);
      if |table| < config.maxEntries {
        return;
      }
      var victim := FindOldest(table);
      if victim.Some? {
        DropOne(table, victim.value);
        Drop(victim.value);
        metrics := metrics.(evictions := metrics.evictions + 1);
      }
    }

    method Set(id: string, slot: Slot, value: seq<byte>, now: int)
      requires Valid()
      modifies this
      ensures Valid() && config == old(config)
      ensures
        var w := Write(id, slot, value, now, config.ttl, config.compressionThreshold);
        history == old(history) + [Wrote(w)] || exists v :: history == old(history) + [Dropped(v)] + [Wrote(w)]
      ensures globalVersion == old(globalVersion) + 1
      ensures
        var e := Entry(Encode(value, config.compressionThreshold), now, config.ttl, globalVersion);
        exists t :: Evicted(old(table), config.maxEntries, t) && table == Put(t, id, slot, e)
    {
      hide Agrees, Follows, Evicted, Versioned, Occupied, Put;
      EvictIfNeeded();
      EncodeRoundTrip(value, config.compressionThreshold);
      globalVersion := globalVersion + 1;
      var e := Entry(Encode(value, config.compressionThreshold), now, config.ttl, globalVersion);
      ghost var w := Write(id, slot, value, now, config.ttl, config.compressionThreshold);
      PutFollows(table, e, w);
      hide Matches, Encode;
      AgreesStep(table, Put(table, id, slot, e), history, Wrote(w));
      PutVersioned(table, id, slot, e, globalVersion - 1);
      PutOccupied(table, id, slot, e);
      table := Put(table, id, slot, e);
      history := history + [Wrote(w)];
    }

    /**
     * A value is returned exactly when a write stands for the slot and its age is below both its
     * lifetime and the staleness share of it; it is then what the codec keeps of that write.
     */
    method Get(id: string, slot: Slot, now: int) returns (found: Option<seq<byte>>)
      requires Valid()
      modifies `table, `metrics, `history
      ensures Valid()
      ensures
        var w := StandingWrite(old(history), id, slot);
        && (found.Some? <==>
              && w.Some? && now - w.value.at < w.value.ttl
              && (now - w.value.at) as real < FreshFor(w.value.ttl, config.stalenessRatio))
        && (found.Some? ==> found.value == Kept(w.value.value, w.value.threshold))
      ensures
        var expired := Stores(old(table), id, slot) && IsExpired(old(table)[id][slot], now);
        && table == (if expired then old(table)[id := old(table)[id] - {slot}] else old(table))
        && history == old(history) + if expired then [Emptied(id, slot)] else []
      ensures
        var w := StandingWrite(old(history), id, slot);
        metrics == old(metrics).(
          hits := old(metrics).hits + (if found.Some? then 1 else 0),
          misses := old(metrics).misses + (if found.Some? then 0 else 1),
          staleBypasses :=
            old(metrics).staleBypasses + if w.Some? && now - w.value.at < w.value.ttl && found.None? then 1 else 0)
    {
      hide FreshFor, Versioned, Bounded, StandingWrite, Decode, Kept;
      found := None;
      assert Matches(StoredAt(table, id, slot), StandingWrite(history, id, slot));
      if !Stores(table, id, slot) {
        metrics := metrics.(misses := metrics.misses + 1);
        return;
      }
      var e := table[id][slot];
      if IsExpired(e, now) {
          hide Agrees, Follows;
        AgreesStep(table, table[id := table[id] - {slot}], history, Emptied(id, slot));
        WithinKeeps(table[id := table[id] - {slot}], table, globalVersion, config.maxEntries);
        table, history := table[id := table[id] - {slot}], history + [Emptied(id, slot)];
        metrics := metrics.(misses := metrics.misses + 1);
      } else if IsStale(e, now, config.stalenessRatio) {
        metrics := metrics.(staleBypasses := metrics.staleBypasses + 1, misses := metrics.misses + 1);
      } else {
        metrics := metrics.(hits := metrics.hits + 1);
        found := Decode(e.value);
      }
    }

    method Invalidate(id: string)
      requires Valid()
      modifies `table, `history
      ensures Valid() && table == old(table) - {id} && history == old(history) + [Dropped(id)]
    {
      Drop(id);
    }

    method InvalidateAll()
      requires Valid()
      modifies `table, `history
      ensures Valid() && table == map[] && history == old(history) + [DroppedAll]
    {
      table, history := map[], history + [DroppedAll];
    }

    /** Drop `id` unless its vault entry is newer than `remoteVersion`; an id without one counts as version zero. */
    method InvalidateIfOlder(id: string, remoteVersion: nat) returns (dropped: bool)
      requires Valid()
      modifies `table, `history
      ensures Valid()
      ensures dropped <==>
        id in old(table) && (Stores(old(table), id, Vault) ==> old(table)[id][Vault].version <= remoteVersion)
      ensures table == if dropped then old(table) - {id} else old(table)
      ensures history == old(history) + if dropped then [Dropped(id)] else []
    {
      dropped := false;
      if id in table {
        var localVersion := if Vault in table[id] then table[id][Vault].version else 0;
        if localVersion <= remoteVersion {
          Invalidate(id);
          dropped := true;
        }
      }
    }

    /** Grow or shrink the lifetime of later writes by a fifth, within bounds. */
    method AutoTune() returns (ttl: nat)
      requires Valid()
      modifies `config
      ensures Valid() && config == old(config).(ttl := ttl)
      ensures
        var total, secs := metrics.hits + metrics.misses, old(config).ttl / 1_000_000_000;
        var often := total > 0 && 10 * metrics.hits >= 8 * total;
        var seldom := total == 0 || 10 * metrics.hits < 5 * total;
        && (often ==> ttl == 1_000_000_000 * Min(secs + secs / 5, 3600))
        && (seldom ==> ttl == 1_000_000_000 * Max(secs - secs / 5, 30))
        && (!often && !seldom ==> ttl == 1_000_000_000 * secs)
    {
      hide Agrees, Versioned, Bounded;
      var total := metrics.hits + metrics.misses;
      var secs := config.ttl / SECOND;
      ttl := if total > 0 && 10 * metrics.hits >= 8 * total then SECOND * Min(secs + secs / 5, MAX_TTL_SECS)
             else if total == 0 || 10 * metrics.hits < 5 * total then SECOND * Max(secs - secs / 5, MIN_TTL_SECS)
             else SECOND * secs;
      config := config.(ttl := ttl);
    }

    method SetStalenessRatio(ratio: real)
      requires Valid()
      modifies `config
      ensures Valid() && config == old(config).(stalenessRatio := Clamp01(ratio))
    {
      config := config.(stalenessRatio := Clamp01(ratio));
    }

    method SetCompressionThreshold(threshold: nat)
      requires Valid()
      modifies `config
      ensures Valid() && config == old(config).(compressionThreshold := threshold)
    {
      config := config.(compressionThreshold := threshold);
    }
  }

  lemma SetOnEmpty(t: Table, id: string, e: Entry)
    requires Evicted(map[], 1, t)
    ensures Put(t, id, Vault, e) == map[id := map[Vault := e]]
  {
  }

  lemma SetBesideEmptied(t: Table, id: string, other: string, e: Entry)
    requires id != other && Evicted(map[id := map[]], 1, t)
    ensures |Put(t, other, Vault, e)| == 2 && Occupied(Put(t, other, Vault, e)) == {other}
  {
    assert Occupied(map[id := map[]]) == {};
    var after := Put(t, other, Vault, e);
    assert after == map[id := map[], other := map[Vault := e]];
    assert after.Keys == {id, other};
  }

  /**
   * The table can outgrow the limit: an id whose entries have expired keeps its place, and eviction
   * passes it over. Here a cache with a limit of one comes to hold two ids.
   */
  method TableOutgrowsLimit(id: string, other: string, value: seq<byte>, ttl: nat) returns (c: Cache)
    requires id != other
    ensures c.Valid() && c.config.maxEntries == 1 && |c.table| == 2 && Occupied(c.table) == {other}
  {
    hide Agrees, Versioned, Bounded, Encode, FreshFor, StandingWrite, Evicted, Put, Occupied, Kept, Clamp01;
    c := new Cache(Config(ttl, 1, 0, 1.0));
    c.Set(id, Vault, value, 0);
    var e := Entry(Encode(value, 0), 0, ttl, c.globalVersion);
    ghost var t :| Evicted(map[], 1, t) && c.table == Put(t, id, Vault, e);
    SetOnEmpty(t, id, e);
    var _ := c.Get(id, Vault, ttl);
    assert map[Vault := e] - {Vault} == map[] && c.table == map[id := map[]];
    c.Set(other, Vault, value, ttl);
    var e' := Entry(Encode(value, 0), ttl, ttl, c.globalVersion);
    ghost var t' :| Evicted(map[id := map[]], 1, t') && c.table == Put(t', other, Vault, e');
    SetBesideEmptied(t', id, other, e');
  }
}
