/**
 * Cost attribution (backend/src/cost_tracking.rs): the aggregate report, budget
 * breaches and proportional allocation. Decimal amounts are exact reals.
 */
module CostTracking {

  import opened Wrappers
  import opened MapSum

  datatype Entry = Entry(operation: string, amount: real, currency: string, tags: map<string, string>)

  datatype Scope = Operation(operation: string) | Tag(key: string, value: string)

  predicate Matches(scope: Scope, e: Entry) {
    match scope
    case Operation(op) => e.operation == op
    case Tag(key, value) => key in e.tags && e.tags[key] == value
  }

  // ---------------------------------------------------------------------
  // What the sums mean
  // ---------------------------------------------------------------------

  function Total(entries: seq<Entry>): real {
    if entries == [] then 0.0 else Total(entries[..|entries| - 1]) + entries[|entries| - 1].amount
  }

  /** The cost a budget scope is measured by. */
  function TotalOf(entries: seq<Entry>, scope: Scope): real {
    if entries == [] then 0.0
    else
      var e := entries[|entries| - 1];
      TotalOf(entries[..|entries| - 1], scope) + if Matches(scope, e) then e.amount else 0.0
  }

  /** The cost of the entries that carry a tag key at all. */
  ghost function TotalCarrying(entries: seq<Entry>, key: string): real {
    if entries == [] then 0.0
    else
      var e := entries[|entries| - 1];
      TotalCarrying(entries[..|entries| - 1], key) + if key in e.tags then e.amount else 0.0
  }

  /** The two ways costs are broken down. */
  datatype Dimension = ByOperation | ByTag(key: string)

  function LabelOf(e: Entry, dim: Dimension): Option<string> {
    match dim
    case ByOperation => Some(e.operation)
    case ByTag(key) => if key in e.tags then Some(e.tags[key]) else None
  }

  ghost function ScopeOf(dim: Dimension, name: string): Scope {
    match dim
    case ByOperation => Operation(name)
    case ByTag(key) => Tag(key, name)
  }

  /** Some entry has the name `v`. */
  ghost predicate Occurs(entries: seq<Entry>, dim: Dimension, v: string) {
    exists i :: 0 <= i < |entries| && LabelOf(entries[i], dim) == Some(v)
  }

  /** `sums` is the breakdown of `entries`: one sum for every name that occurs, and no other. */
  ghost predicate Breakdown(entries: seq<Entry>, dim: Dimension, sums: map<string, real>) {
    && (forall v :: v in sums <==> Occurs(entries, dim, v))
    && (forall v :: v in sums ==> sums[v] == TotalOf(entries, ScopeOf(dim, v)))
  }

  /** Adding to a running sum, starting from nothing. */
  function AddTo(sums: map<string, real>, name: string, amount: real): map<string, real> {
    sums[name := At(sums, name) + amount]
  }

  function AddEntry(sums: map<string, real>, dim: Dimension, e: Entry): map<string, real> {
    match LabelOf(e, dim)
    case None => sums
    case Some(name) => AddTo(sums, name, e.amount)
  }

  /** The scope of a name matches an entry exactly when the entry has that name. */
  lemma ScopeMatches(dim: Dimension, name: string, e: Entry)
    ensures Matches(ScopeOf(dim, name), e) <==> LabelOf(e, dim) == Some(name)
  {
  }

  lemma OccursStep(entries: seq<Entry>, e: Entry, dim: Dimension, v: string)
    ensures Occurs(entries + [e], dim, v) <==> Occurs(entries, dim, v) || LabelOf(e, dim) == Some(v)
  {
    var entries' := entries + [e];
    assert LabelOf(entries'[|entries|], dim) == LabelOf(e, dim);
    if i :| 0 <= i < |entries| && LabelOf(entries[i], dim) == Some(v) {
      assert LabelOf(entries'[i], dim) == Some(v);
    }
  }

  /** A name that does not occur has cost nothing. */
  lemma {:induction false} AbsentCostsNothing(entries: seq<Entry>, dim: Dimension, name: string)
    requires !Occurs(entries, dim, name)
    ensures TotalOf(entries, ScopeOf(dim, name)) == 0.0
  {
    if entries != [] {
      var before, e := entries[..|entries| - 1], entries[|entries| - 1];
      assert entries == before + [e];
      OccursStep(before, e, dim, name);
      AbsentCostsNothing(before, dim, name);
      ScopeMatches(dim, name, e);
    }
  }

  /** In a breakdown, a missing name reads as the cost it has, which is nothing. */
  lemma BreakdownAt(entries: seq<Entry>, dim: Dimension, sums: map<string, real>, name: string)
    requires Breakdown(entries, dim, sums)
    ensures At(sums, name) == TotalOf(entries, ScopeOf(dim, name))
  {
    if name !in sums {
      AbsentCostsNothing(entries, dim, name);
    }
  }

  lemma TotalOfStep(entries: seq<Entry>, e: Entry, scope: Scope)
    ensures TotalOf(entries + [e], scope) == TotalOf(entries, scope) + if Matches(scope, e) then e.amount else 0.0
  {
    assert (entries + [e])[..|entries|] == entries;
  }

  /** One more entry, one more addition. */
  lemma BreakdownStep(entries: seq<Entry>, e: Entry, dim: Dimension, sums: map<string, real>)
    requires Breakdown(entries, dim, sums)
    ensures Breakdown(entries + [e], dim, AddEntry(sums, dim, e))
  {
    var entries', sums' := entries + [e], AddEntry(sums, dim, e);
    forall v
      ensures v in sums' ==> sums'[v] == TotalOf(entries', ScopeOf(dim, v))
    {
      hide Breakdown, TotalOf, Matches, ScopeOf;
      BreakdownAt(entries, dim, sums, v);
      TotalOfStep(entries, e, ScopeOf(dim, v));
      ScopeMatches(dim, v, e);
    }
    forall v
      ensures v in sums' <==> Occurs(entries', dim, v)
    {
      OccursStep(entries, e, dim, v);
    }
  }

  // ---------------------------------------------------------------------
  // Conservation
  // ---------------------------------------------------------------------

  /** The cost that has a name in a dimension. */
  ghost function Labelled(entries: seq<Entry>, dim: Dimension): real {
    match dim
    case ByOperation => Total(entries)
    case ByTag(key) => TotalCarrying(entries, key)
  }

  /** The sums of the breakdown a loop over the entries builds. */
  ghost function Grouped(entries: seq<Entry>, dim: Dimension): map<string, real> {
    if entries == [] then map[]
    else AddEntry(Grouped(entries[..|entries| - 1], dim), dim, entries[|entries| - 1])
  }

  lemma {:induction false} GroupedIsBreakdown(entries: seq<Entry>, dim: Dimension)
    ensures Breakdown(entries, dim, Grouped(entries, dim))
  {
    if entries != [] {
      hide Breakdown, AddEntry;
      var before := entries[..|entries| - 1];
      GroupedIsBreakdown(before, dim);
      BreakdownStep(before, entries[|entries| - 1], dim, Grouped(before, dim));
      assert entries == before + [entries[|entries| - 1]];
    }
  }

  lemma {:induction false} GroupedAddsUp(entries: seq<Entry>, dim: Dimension)
    ensures Sum(Grouped(entries, dim)) == Labelled(entries, dim)
  {
    if entries != [] {
      var before, e := entries[..|entries| - 1], entries[|entries| - 1];
      GroupedAddsUp(before, dim);
      var sums := Grouped(before, dim);
      match LabelOf(e, dim) {
        case None =>
        case Some(name) => SumUpdate(sums, name, At(sums, name) + e.amount);
      }
    }
  }

  /** There is only one breakdown. */
  lemma BreakdownUnique(entries: seq<Entry>, dim: Dimension, sums: map<string, real>)
    requires Breakdown(entries, dim, sums)
    ensures sums == Grouped(entries, dim)
  {
    GroupedIsBreakdown(entries, dim);
    var other := Grouped(entries, dim);
    assert forall v :: v in sums <==> v in other;
  }

  /**
   * Nothing is lost or counted twice: the sums per operation add up to the total, and the
   * sums under a tag key to the cost of the entries carrying it.
   */
  lemma BreakdownConserves(entries: seq<Entry>, dim: Dimension, sums: map<string, real>)
    requires Breakdown(entries, dim, sums)
    ensures dim.ByOperation? ==> Sum(sums) == Total(entries)
    ensures dim.ByTag? ==> Sum(sums) == TotalCarrying(entries, dim.key)
  {
    BreakdownUnique(entries, dim, sums);
    GroupedAddsUp(entries, dim);
  }

  lemma {:induction false} TotalOfNonNegative(entries: seq<Entry>, scope: Scope)
    requires forall e :: e in entries ==> e.amount >= 0.0
    ensures TotalOf(entries, scope) >= 0.0
  {
    if entries != [] {
      TotalOfNonNegative(entries[..|entries| - 1], scope);
    }
  }

  /** With non-negative costs at most one operation accounts for more than half. */
  lemma AtMostOneDominates(entries: seq<Entry>, sums: map<string, real>, op1: string, op2: string)
    requires forall e :: e in entries ==> e.amount >= 0.0
    requires Breakdown(entries, ByOperation, sums) && op1 in sums && op2 in sums
    requires Total(entries) > 0.0
    requires sums[op1] / Total(entries) > 0.5 && sums[op2] / Total(entries) > 0.5
    ensures op1 == op2
  {
    if op1 != op2 {
      BreakdownConserves(entries, ByOperation, sums);
      SumTake(sums, op1);
      SumTake(sums - {op1}, op2);
      forall v | v in sums
        ensures sums[v] >= 0.0
      {
        TotalOfNonNegative(entries, ScopeOf(ByOperation, v));
      }
      SumNonNegative(sums - {op1} - {op2});
      MoreThanHalf(sums[op1], Total(entries));
      MoreThanHalf(sums[op2], Total(entries));
    }
  }

  lemma MoreThanHalf(part: real, whole: real)
    requires whole > 0.0 && part / whole > 0.5
    ensures part > 0.5 * whole
  {
    assert part / whole * whole == part;
    assert (part / whole - 0.5) * whole > 0.0;
  }

  // ---------------------------------------------------------------------
  // Budgets
  // ---------------------------------------------------------------------

  datatype Threshold = Threshold(category: string, scope: Scope, limit: real)

  datatype Breach = Breach(category: string, scope: Scope, limit: real, currentTotal: real)

  function CheckBudgetBreaches(entries: seq<Entry>, thresholds: seq<Threshold>): seq<Breach> {
    if thresholds == [] then []
    else
      var t := thresholds[|thresholds| - 1];
      var current := TotalOf(entries, t.scope);
      CheckBudgetBreaches(entries, thresholds[..|thresholds| - 1])
      + if current >= t.limit then [Breach(t.category, t.scope, t.limit, current)] else []
  }

  ghost function DimensionOf(scope: Scope): Dimension {
    if scope.Operation? then ByOperation else ByTag(scope.key)
  }

  ghost function NameOf(scope: Scope): string {
    if scope.Operation? then scope.operation else scope.value
  }

  /** The figure the report shows for a scope; a scope it does not list reads as nothing. */
  ghost function Reported(entries: seq<Entry>, scope: Scope): real {
    At(Grouped(entries, DimensionOf(scope)), NameOf(scope))
  }

  lemma ReportedIsTotal(entries: seq<Entry>, scope: Scope)
    ensures Reported(entries, scope) == TotalOf(entries, scope)
  {
    var dim := DimensionOf(scope);
    GroupedIsBreakdown(entries, dim);
    BreakdownAt(entries, dim, Grouped(entries, dim), NameOf(scope));
  }

  /** `b` reports a configured threshold whose scope, as the report shows it, has reached the limit. */
  ghost predicate IsBreach(entries: seq<Entry>, thresholds: seq<Threshold>, b: Breach) {
    && Threshold(b.category, b.scope, b.limit) in thresholds
    && b.currentTotal == Reported(entries, b.scope)
    && b.currentTotal >= b.limit
  }

  /** A budget is breached exactly when the figure reported for its scope reaches its limit. */
  lemma {:induction false} BreachedExactly(entries: seq<Entry>, thresholds: seq<Threshold>, b: Breach)
    ensures b in CheckBudgetBreaches(entries, thresholds) <==> IsBreach(entries, thresholds, b)
  {
    ReportedIsTotal(entries, b.scope);
    hide Reported, TotalOf;
    if thresholds != [] {
      var before, t := thresholds[..|thresholds| - 1], thresholds[|thresholds| - 1];
      BreachedExactly(entries, before, b);
      assert thresholds == before + [t];
    }
  }

  // ---------------------------------------------------------------------
  // The object
  // ---------------------------------------------------------------------

  datatype Report = Report(
    totalAmount: real, currency: string, entryCount: nat,
    byOperation: map<string, real>, byTag: map<string, map<string, real>>)

  ghost predicate Carried(entries: seq<Entry>, key: string) {
    exists e :: e in entries && key in e.tags
  }

  ghost predicate TagSums(entries: seq<Entry>, byTag: map<string, map<string, real>>) {
    && (forall key :: key in byTag <==> Carried(entries, key))
    && (forall key :: key in byTag ==> byTag[key] == Grouped(entries, ByTag(key)))
  }

  lemma {:induction false} NotCarried(entries: seq<Entry>, key: string)
    requires !Carried(entries, key)
    ensures Grouped(entries, ByTag(key)) == map[]
  {
    if entries != [] {
      var before, e := entries[..|entries| - 1], entries[|entries| - 1];
      assert e in entries && forall d :: d in before ==> d in entries;
      NotCarried(before, key);
    }
  }

  /** One more entry: its own tag keys change, the others do not. */
  lemma TagSumsStep(
    entries: seq<Entry>, e: Entry, byTag: map<string, map<string, real>>, byTag': map<string, map<string, real>>)
    requires TagSums(entries, byTag)
    requires byTag'.Keys == byTag.Keys + e.tags.Keys
    requires forall key :: key in byTag' ==>
      byTag'[key] == AddEntry(if key in byTag then byTag[key] else map[], ByTag(key), e)
    ensures TagSums(entries + [e], byTag')
  {
    var entries' := entries + [e];
    assert entries'[..|entries|] == entries;
    forall key
      ensures key in byTag' <==> Carried(entries', key)
    {
      if key in e.tags {
        assert e in entries';
      }
      assert forall d :: d in entries' <==> d in entries || d == e;
    }
    forall key | key in byTag'
      ensures byTag'[key] == Grouped(entries', ByTag(key))
    {
      if key !in byTag {
        NotCarried(entries, key);
      }
    }
  }

  /** Adds one entry's amount under each of its tags. */
  method AddTags(byTag: map<string, map<string, real>>, e: Entry) returns (result: map<string, map<string, real>>)
    ensures result.Keys == byTag.Keys + e.tags.Keys
    ensures forall key :: key in result ==>
      result[key] == AddEntry(if key in byTag then byTag[key] else map[], ByTag(key), e)
  {
    result := byTag;
    var rest := e.tags.Keys;
    while rest != {}
      invariant rest <= e.tags.Keys && result.Keys == byTag.Keys + (e.tags.Keys - rest)
      invariant forall key :: key in result ==>
        result[key] ==
          if key in rest then byTag[key]
          else AddEntry(if key in byTag then byTag[key] else map[], ByTag(key), e)
      decreases rest
    {
      var key :| key in rest;
      var sums := if key in result then result[key] else map[];
      result := result[key := AddTo(sums, e.tags[key], e.amount)];
      rest := rest - {key};
    }
  }

  method BuildReport(entries: seq<Entry>) returns (r: Report)
    ensures r.totalAmount == Total(entries) && r.entryCount == |entries|
    ensures r.currency == if entries == [] then "USD" else entries[0].currency
    ensures Breakdown(entries, ByOperation, r.byOperation) && Sum(r.byOperation) == r.totalAmount
    ensures forall key :: key in r.byTag <==> Carried(entries, key)
    ensures forall key :: key in r.byTag ==>
      Breakdown(entries, ByTag(key), r.byTag[key]) && Sum(r.byTag[key]) == TotalCarrying(entries, key)
  {
    hide Breakdown, Carried;
    var total := 0.0;
    var byOperation: map<string, real> := map[];
    var byTag: map<string, map<string, real>> := map[];
    assert TagSums([], byTag) by {
      NothingCarried();
    }
    assert entries[..0] == [];
    hide TagSums;
    for i := 0 to |entries|
      invariant total == Total(entries[..i])
      invariant byOperation == Grouped(entries[..i], ByOperation)
      invariant TagSums(entries[..i], byTag)
    {
      var e := entries[i];
      assert entries[..i + 1][..i] == entries[..i];
      assert entries[..i + 1] == entries[..i] + [e];
      total := total + e.amount;
      byOperation := AddTo(byOperation, e.operation, e.amount);
      var tags := AddTags(byTag, e);
      TagSumsStep(entries[..i], e, byTag, tags);
      byTag := tags;
    }
    assert entries[..|entries|] == entries;
    r := Report(total, if entries == [] then "USD" else entries[0].currency, |entries|, byOperation, byTag);
    GroupedIsBreakdown(entries, ByOperation);
    GroupedAddsUp(entries, ByOperation);
    TagsConserve(entries, byTag);
  }

  lemma NothingCarried()
    ensures TagSums([], map[])
  {
  }

  lemma TagsConserve(entries: seq<Entry>, byTag: map<string, map<string, real>>)
    requires TagSums(entries, byTag)
    ensures forall key :: key in byTag <==> Carried(entries, key)
    ensures forall key :: key in byTag ==>
      Breakdown(entries, ByTag(key), byTag[key]) && Sum(byTag[key]) == TotalCarrying(entries, key)
  {
    hide Breakdown, Grouped, Carried;
    forall key | key in byTag
      ensures Breakdown(entries, ByTag(key), byTag[key]) && Sum(byTag[key]) == TotalCarrying(entries, key)
    {
      GroupedIsBreakdown(entries, ByTag(key));
      GroupedAddsUp(entries, ByTag(key));
    }
  }

  // ---------------------------------------------------------------------
  // Allocation
  // ---------------------------------------------------------------------

  /** Sum of the values of a map, in whatever order they come. */
  method SumValues(m: map<string, real>) returns (total: real)
    ensures total == Sum(m)
  {
    total := 0.0;
    var rest := m;
    while rest != map[]
      invariant total + Sum(rest) == Sum(m)
      decreases |rest|
    {
      var k :| k in rest;
      SumTake(rest, k);
      total, rest := total + rest[k], rest - {k};
    }
  }

  method SumsUnder(entries: seq<Entry>, key: string) returns (sums: map<string, real>)
    ensures sums == Grouped(entries, ByTag(key))
  {
    sums := map[];
    for i := 0 to |entries|
      invariant sums == Grouped(entries[..i], ByTag(key))
    {
      assert entries[..i + 1][..i] == entries[..i];
      if key in entries[i].tags {
        sums := AddTo(sums, entries[i].tags[key], entries[i].amount);
      }
    }
    assert entries[..|entries|] == entries;
  }

  lemma Shares(amount: real, cost: real, history: real)
    requires history != 0.0
    ensures amount * (cost / history) == Scale(amount / history, cost)
    ensures Scale(amount / history, history) == amount
  {
    assert cost / history * history == cost;
    assert amount / history * history == amount;
    assert amount * (cost / history) * history == amount / history * cost * history;
  }

  /** Splits `amount` in proportion to `sums`. */
  method Split(sums: map<string, real>, amount: real, history: real) returns (parts: map<string, real>)
    requires history != 0.0
    ensures parts.Keys == sums.Keys
    ensures forall v :: v in parts ==> parts[v] == Scale(amount / history, sums[v])
  {
    hide Scale;
    parts := map[];
    var rest := sums.Keys;
    while rest != {}
      invariant rest <= sums.Keys && parts.Keys == sums.Keys - rest
      invariant forall v :: v in parts ==> parts[v] == Scale(amount / history, sums[v])
      decreases rest
    {
      var v :| v in rest;
      Shares(amount, sums[v], history);
      parts := parts[v := amount * (sums[v] / history)];
      rest := rest - {v};
    }
  }

  /** What an allocation with a positive history has to be. */
  ghost predicate Proportional(entries: seq<Entry>, amount: real, key: string, allocations: map<string, real>)
    requires TotalCarrying(entries, key) != 0.0
  {
    && (forall v :: v in allocations <==> Occurs(entries, ByTag(key), v))
    && (forall v :: v in allocations ==>
          allocations[v] == Scale(amount / TotalCarrying(entries, key), TotalOf(entries, Tag(key, v))))
  }

  lemma SplitIsProportional(
    entries: seq<Entry>, amount: real, key: string, sums: map<string, real>, parts: map<string, real>)
    requires sums == Grouped(entries, ByTag(key)) && TotalCarrying(entries, key) != 0.0
    requires parts.Keys == sums.Keys
    requires forall v :: v in parts ==> parts[v] == Scale(amount / TotalCarrying(entries, key), sums[v])
    ensures Proportional(entries, amount, key, parts) && Sum(parts) == amount
  {
    hide Scale, Occurs, TotalCarrying, TotalOf, Grouped;
    GroupedIsBreakdown(entries, ByTag(key));
    BreakdownConserves(entries, ByTag(key), sums);
    SumScaled(sums, parts, amount / TotalCarrying(entries, key));
    Shares(amount, 0.0, TotalCarrying(entries, key));
  }

  /**
   * With a positive history under the key every value gets its proportional share and the shares
   * add up to the amount; otherwise nothing is allocated, whatever the documentation says about
   * an even split.
   */
  method Allocate(entries: seq<Entry>, amount: real, key: string) returns (allocations: map<string, real>)
    ensures TotalCarrying(entries, key) > 0.0 ==> Proportional(entries, amount, key, allocations)
    ensures TotalCarrying(entries, key) <= 0.0 ==> allocations == map[]
    ensures Sum(allocations) == amount <==> TotalCarrying(entries, key) > 0.0 || amount == 0.0
  {
    var sums := SumsUnder(entries, key);
    var history := SumValues(sums);
    allocations := map[];
    assert Sum(allocations) == 0.0;
    hide Scale, Sum, Grouped, TotalCarrying, Proportional;
    assert history == TotalCarrying(entries, key) by {
      GroupedAddsUp(entries, ByTag(key));
    }
    if history > 0.0 {
      allocations := Split(sums, amount, history);
      SplitIsProportional(entries, amount, key, sums, allocations);
    }
  }

  // ---------------------------------------------------------------------
  // The stored thresholds
  // ---------------------------------------------------------------------

  class CostState {
    var entries: seq<Entry>
    var thresholds: seq<Threshold>

    /** At most one threshold per category. */
    ghost predicate Valid()
      reads this
    {
      forall i, j :: 0 <= i < j < |thresholds| ==> thresholds[i].category != thresholds[j].category
    }

    constructor ()
      ensures Valid() && entries == [] && thresholds == []
    {
      entries, thresholds := [], [];
    }

    method Record(e: Entry)
      requires Valid()
      modifies this
      ensures Valid() && entries == old(entries) + [e] && thresholds == old(thresholds)
    {
      entries := entries + [e];
    }

    /** Replaces the threshold of the category, if any, and keeps all others. */
    method SetBudgetThreshold(t: Threshold)
      requires Valid()
      modifies this
      ensures Valid() && entries == old(entries)
      ensures forall u :: u in thresholds <==> u == t || (u in old(thresholds) && u.category != t.category)
    {
      var kept: seq<Threshold> := [];
      for i := 0 to |thresholds|
        invariant thresholds == old(thresholds) && entries == old(entries)
        invariant forall u :: u in kept <==> u in thresholds[..i] && u.category != t.category
        invariant forall a, b :: 0 <= a < b < |kept| ==> kept[a].category != kept[b].category
      {
        var u := thresholds[i];
        assert thresholds[..i + 1] == thresholds[..i] + [u];
        if u.category != t.category {
          assert forall w :: w in thresholds[..i] ==> w.category != u.category;
          kept := kept + [u];
        }
      }
      assert thresholds[..|thresholds|] == thresholds;
      thresholds := kept + [t];
    }

    /** The budgets breached now, in the terms of the report on the same entries. */
    method Breaches() returns (breaches: seq<Breach>)
      requires Valid()
      ensures forall b :: b in breaches <==> IsBreach(entries, thresholds, b)
    {
      breaches := CheckBudgetBreaches(entries, thresholds);
      forall b: Breach {
        BreachedExactly(entries, thresholds, b);
      }
    }
  }
}
