/**
 * The on-chain fee report (backend/src/cost_tracking.rs): 64-bit totals, per-operation
 * statistics and their order. The grand total saturates; the total of an operation is a
 * checked sum, and the program aborts when it overflows, which is `None` here.
 */
module GasReport {

  import opened Arithmetic
  import opened Wrappers

  const U64: nat := 0x1_0000_0000_0000_0000

  type u64 = n: nat | n < U64

  datatype Fee = Fee(operation: string, stroops: u64)

  datatype Stats = Stats(operation: string, txCount: nat, total: u64, avg: u64, max: u64, min: u64)

  datatype Report = Report(total: u64, txCount: nat, byOperation: seq<Stats>)

  function SaturatingAdd(a: u64, b: u64): u64 {
    if a + b < U64 then a + b else U64 - 1
  }

  // ---------------------------------------------------------------------
  // Who paid what
  // ---------------------------------------------------------------------

  ghost function Operations(fees: seq<Fee>): set<string> {
    if fees == [] then {} else Operations(fees[..|fees| - 1]) + {fees[|fees| - 1].operation}
  }

  /** The fees of one operation, in order. */
  ghost function FeesOf(fees: seq<Fee>, operation: string): seq<u64> {
    if fees == [] then []
    else
      var f := fees[|fees| - 1];
      FeesOf(fees[..|fees| - 1], operation) + if f.operation == operation then [f.stroops] else []
  }

  ghost function Paid(fees: seq<Fee>): nat {
    if fees == [] then 0 else Paid(fees[..|fees| - 1]) + fees[|fees| - 1].stroops
  }

  /** What the operations of a set paid together. */
  ghost function PaidBy(fees: seq<Fee>, operations: set<string>): nat {
    if fees == [] then 0
    else
      var f := fees[|fees| - 1];
      PaidBy(fees[..|fees| - 1], operations) + if f.operation in operations then f.stroops else 0
  }

  lemma {:induction false} PaidByAll(fees: seq<Fee>, operations: set<string>)
    requires Operations(fees) <= operations
    ensures PaidBy(fees, operations) == Paid(fees)
  {
    if fees != [] {
      PaidByAll(fees[..|fees| - 1], operations);
    }
  }

  lemma {:induction false} PaidByNone(fees: seq<Fee>)
    ensures PaidBy(fees, {}) == 0
  {
    if fees != [] {
      PaidByNone(fees[..|fees| - 1]);
    }
  }

  lemma {:induction false} PaidByOne(fees: seq<Fee>, operation: string)
    ensures PaidBy(fees, {operation}) == Sum(FeesOf(fees, operation))
  {
    if fees != [] {
      var before, f := fees[..|fees| - 1], fees[|fees| - 1];
      PaidByOne(before, operation);
      SumAppend(FeesOf(before, operation), f.stroops);
      assert FeesOf(before, operation) + [] == FeesOf(before, operation);
    }
  }

  /** Operations pay separately. */
  lemma {:induction false} PaidByMore(fees: seq<Fee>, operations: set<string>, operation: string)
    requires operation !in operations
    ensures PaidBy(fees, operations + {operation}) == PaidBy(fees, operations) + PaidBy(fees, {operation})
  {
    if fees != [] {
      PaidByMore(fees[..|fees| - 1], operations, operation);
    }
  }

  lemma {:induction false} NotAmong(fees: seq<Fee>, operation: string)
    ensures operation in Operations(fees) <==> FeesOf(fees, operation) != []
  {
    if fees != [] {
      NotAmong(fees[..|fees| - 1], operation);
    }
  }

  // ---------------------------------------------------------------------
  // Statistics of one operation
  // ---------------------------------------------------------------------

  ghost predicate IsMax(m: nat, s: seq<nat>) {
    m in s && forall i :: 0 <= i < |s| ==> s[i] <= m
  }

  ghost predicate IsMin(m: nat, s: seq<nat>) {
    m in s && forall i :: 0 <= i < |s| ==> s[i] >= m
  }

  method MaxOf(s: seq<u64>) returns (m: u64)
    requires s != []
    ensures IsMax(m, s)
  {
    m := s[0];
    for i := 1 to |s|
      invariant IsMax(m, s[..i])
    {
      assert s[..i + 1] == s[..i] + [s[i]];
      m := if s[i] > m then s[i] else m;
    }
    assert s[..|s|] == s;
  }

  method MinOf(s: seq<u64>) returns (m: u64)
    requires s != []
    ensures IsMin(m, s)
  {
    m := s[0];
    for i := 1 to |s|
      invariant IsMin(m, s[..i])
    {
      assert s[..i + 1] == s[..i] + [s[i]];
      m := if s[i] < m then s[i] else m;
    }
    assert s[..|s|] == s;
  }

  lemma {:induction false} PrefixSumBelow(s: seq<u64>, i: nat)
    requires i <= |s|
    ensures Sum(s[..i]) <= Sum(s)
    decreases |s| - i
  {
    if i < |s| {
      assert s[..i + 1][..i] == s[..i];
      PrefixSumBelow(s, i + 1);
    } else {
      assert s[..i] == s;
    }
  }

  /** Adding up with overflow checks: an answer exactly when the sum fits, and then the sum. */
  method CheckedSum(s: seq<u64>) returns (total: Option<u64>)
    ensures total.Some? <==> Sum(s) <= 0xFFFF_FFFF_FFFF_FFFF
    ensures total.Some? ==> total.value == Sum(s)
  {
    var sum: u64 := 0;
    for i := 0 to |s|
      invariant sum == Sum(s[..i])
    {
      assert s[..i + 1][..i] == s[..i];
      if sum + s[i] >= U64 {
        PrefixSumBelow(s, i + 1);
        return None;
      }
      sum := sum + s[i];
    }
    assert s[..|s|] == s;
    return Some(sum);
  }

  /** The statistics of an operation's fees. */
  ghost predicate StatsOf(stats: Stats, operation: string, s: seq<u64>) {
    && s != []
    && stats.operation == operation && stats.txCount == |s|
    && stats.total == Sum(s)
    && stats.avg == stats.total / |s|
    && IsMax(stats.max, s) && IsMin(stats.min, s)
  }

  method StatsFor(operation: string, s: seq<u64>) returns (stats: Option<Stats>)
    requires s != []
    ensures stats.Some? <==> Sum(s) < U64
    ensures stats.Some? ==> StatsOf(stats.value, operation, s)
  {
    var total := CheckedSum(s);
    if total.None? {
      return None;
    }
    var max := MaxOf(s);
    var min := MinOf(s);
    AverageBetween(s, min, max);
    stats := Some(Stats(operation, |s|, total.value, total.value / |s|, max, min));
  }

  /** The rounded-down average lies between the smallest and the largest fee. */
  lemma AverageIsBetween(stats: Stats, operation: string, s: seq<u64>)
    requires StatsOf(stats, operation, s)
    ensures stats.min <= stats.avg <= stats.max
  {
    AverageBetween(s, stats.min, stats.max);
  }

  // ---------------------------------------------------------------------
  // The list of statistics
  // ---------------------------------------------------------------------

  ghost predicate Descending(list: seq<Stats>) {
    forall i, j :: 0 <= i < j < |list| ==> list[i].total >= list[j].total
  }

  ghost function SumTotals(list: seq<Stats>): nat {
    if list == [] then 0 else SumTotals(list[..|list| - 1]) + list[|list| - 1].total
  }

  /** Puts one record where a descending list wants it: after the last one not smaller. */
  function Insert(list: seq<Stats>, stats: Stats): seq<Stats> {
    if list == [] || list[|list| - 1].total >= stats.total then list + [stats]
    else Insert(list[..|list| - 1], stats) + [list[|list| - 1]]
  }

  lemma SumTotalsAppend(list: seq<Stats>, stats: Stats)
    ensures SumTotals(list + [stats]) == SumTotals(list) + stats.total
  {
    assert (list + [stats])[..|list|] == list;
  }

  lemma {:induction false} InsertCounts(list: seq<Stats>, stats: Stats)
    ensures |Insert(list, stats)| == |list| + 1
    ensures SumTotals(Insert(list, stats)) == SumTotals(list) + stats.total
  {
    if list == [] || list[|list| - 1].total >= stats.total {
      SumTotalsAppend(list, stats);
    } else {
      InsertCounts(list[..|list| - 1], stats);
      SumTotalsAppend(Insert(list[..|list| - 1], stats), list[|list| - 1]);
    }
  }

  lemma {:induction false} InsertMembers(list: seq<Stats>, stats: Stats, x: Stats)
    ensures x in Insert(list, stats) <==> x in list || x == stats
  {
    if list != [] && list[|list| - 1].total < stats.total {
      InsertMembers(list[..|list| - 1], stats, x);
      assert list == list[..|list| - 1] + [list[|list| - 1]];
    }
  }

  lemma {:induction false} InsertDescends(list: seq<Stats>, stats: Stats)
    requires Descending(list)
    ensures Descending(Insert(list, stats))
  {
    if list != [] && list[|list| - 1].total < stats.total {
      var before, last := list[..|list| - 1], list[|list| - 1];
      InsertDescends(before, stats);
      var r := Insert(before, stats);
      forall i | 0 <= i < |r|
        ensures r[i].total >= last.total
      {
        InsertMembers(before, stats, r[i]);
      }
    }
  }

  /** `list` holds the statistics of the operations in `done`, one record each. */
  ghost predicate Lists(list: seq<Stats>, done: set<string>, fees: seq<Fee>) {
    && |list| == |done|
    && (forall st :: st in list ==> st.operation in done && StatsOf(st, st.operation, FeesOf(fees, st.operation)))
    && (forall op :: op in done ==> exists st :: st in list && st.operation == op)
  }

  lemma ListsOneMore(list: seq<Stats>, done: set<string>, fees: seq<Fee>, stats: Stats)
    requires Lists(list, done, fees) && stats.operation !in done
    requires StatsOf(stats, stats.operation, FeesOf(fees, stats.operation))
    ensures Lists(Insert(list, stats), done + {stats.operation}, fees)
  {
    hide StatsOf, FeesOf;
    InsertCounts(list, stats);
    var r := Insert(list, stats);
    hide Insert;
    forall st
      ensures st in r <==> st in list || st == stats
    {
      InsertMembers(list, stats, st);
    }
    forall op | op in done + {stats.operation}
      ensures exists st :: st in r && st.operation == op
    {
      if op == stats.operation {
        assert stats in r;
      } else {
        var st :| st in list && st.operation == op;
        assert st in r;
      }
    }
  }

  /** No operation's own fees overflow 64 bits. */
  ghost predicate Fits(fees: seq<Fee>) {
    forall op :: op in Operations(fees) ==> Sum(FeesOf(fees, op)) < U64
  }

  /** Fees that abort the report: two of one operation, the largest there is and one more stroop. */
  lemma LargeFeesAbort(operation: string)
    ensures !Fits([Fee(operation, U64 - 1), Fee(operation, 1)])
  {
    var one, two := [Fee(operation, U64 - 1)], [Fee(operation, U64 - 1), Fee(operation, 1)];
    assert two[..1] == one && one[..0] == [];
    assert FeesOf(one, operation) == [U64 - 1] && FeesOf(two, operation) == [U64 - 1] + [1];
    SumAppend([U64 - 1], 1);
    SumAppend([], U64 - 1);
    assert [] + [U64 - 1] == [U64 - 1];
    assert operation in Operations(two);
  }

  ghost predicate Gathered(fees: seq<Fee>, byOp: map<string, seq<u64>>) {
    && byOp.Keys == Operations(fees)
    && forall op :: op in byOp ==> byOp[op] == FeesOf(fees, op)
  }

  lemma GatheredStep(fees: seq<Fee>, f: Fee, byOp: map<string, seq<u64>>)
    requires Gathered(fees, byOp)
    ensures Gathered(
      fees + [f], byOp[f.operation := (if f.operation in byOp then byOp[f.operation] else []) + [f.stroops]])
  {
    assert (fees + [f])[..|fees|] == fees;
    NotAmong(fees, f.operation);
  }

  /** First pass: the grand total, saturating, and the fees of each operation. */
  method Gather(fees: seq<Fee>) returns (total: u64, byOp: map<string, seq<u64>>)
    ensures total == if Paid(fees) <= 0xFFFF_FFFF_FFFF_FFFF then Paid(fees) else 0xFFFF_FFFF_FFFF_FFFF
    ensures Gathered(fees, byOp)
  {
    total, byOp := 0, map[];
    for i := 0 to |fees|
      invariant total == if Paid(fees[..i]) < U64 then Paid(fees[..i]) else U64 - 1
      invariant Gathered(fees[..i], byOp)
    {
      var f := fees[i];
      assert fees[..i + 1][..i] == fees[..i];
      assert fees[..i + 1] == fees[..i] + [f];
      GatheredStep(fees[..i], f, byOp);
      hide Gathered;
      total := SaturatingAdd(total, f.stroops);
      byOp := byOp[f.operation := (if f.operation in byOp then byOp[f.operation] else []) + [f.stroops]];
    }
    assert fees[..|fees|] == fees;
  }

  /** The loop's state: what is listed so far, in order, and what it adds up to. */
  ghost predicate Progress(list: seq<Stats>, done: set<string>, fees: seq<Fee>) {
    Lists(list, done, fees) && Descending(list) && SumTotals(list) == PaidBy(fees, done)
  }

  lemma NoProgress(fees: seq<Fee>)
    ensures Progress([], {}, fees)
  {
    PaidByNone(fees);
  }

  lemma TotalsStep(list: seq<Stats>, done: set<string>, fees: seq<Fee>, stats: Stats)
    requires SumTotals(list) == PaidBy(fees, done) && stats.operation !in done
    requires stats.total == Sum(FeesOf(fees, stats.operation))
    ensures SumTotals(Insert(list, stats)) == PaidBy(fees, done + {stats.operation})
  {
    hide Insert, PaidBy, FeesOf, SumTotals, Sum;
    InsertCounts(list, stats);
    PaidByMore(fees, done, stats.operation);
    PaidByOne(fees, stats.operation);
  }

  lemma ProgressStep(list: seq<Stats>, done: set<string>, fees: seq<Fee>, stats: Stats)
    requires Progress(list, done, fees) && stats.operation !in done
    requires StatsOf(stats, stats.operation, FeesOf(fees, stats.operation))
    ensures Progress(Insert(list, stats), done + {stats.operation}, fees)
  {
    hide Insert, PaidBy, FeesOf, SumTotals, Descending, Lists, Sum, IsMax, IsMin;
    ListsOneMore(list, done, fees, stats);
    InsertDescends(list, stats);
    TotalsStep(list, done, fees, stats);
  }

  /**
   * Second pass: the statistics of each operation, in whatever order they come, kept sorted.
   * Aborts exactly when some operation's total overflows.
   */
  method ListStats(ghost fees: seq<Fee>, byOp: map<string, seq<u64>>) returns (listed: Option<seq<Stats>>)
    requires Gathered(fees, byOp)
    ensures listed.Some? <==> Fits(fees)
    ensures listed.Some? ==> Progress(listed.value, Operations(fees), fees)
  {
    var list: seq<Stats> := [];
    ghost var done: set<string> := {};
    var rest := byOp.Keys;
    NoProgress(fees);
    hide Progress;
    while rest != {}
      invariant rest <= byOp.Keys && done == byOp.Keys - rest
      invariant Progress(list, done, fees)
      invariant forall op :: op in done ==> Sum(FeesOf(fees, op)) < U64
      decreases rest
    {
      var op :| op in rest;
      NotAmong(fees, op);
      hide StatsOf, Insert, FeesOf, Operations, Sum;
      var stats := StatsFor(op, byOp[op]);
      if stats.None? {
        return None;
      }
      assert stats.value.operation == op by {
        OperationOf(stats.value, op, byOp[op]);
      }
      ProgressStep(list, done, fees, stats.value);
      list := Insert(list, stats.value);
      rest, done := rest - {op}, done + {op};
    }
    assert done == Operations(fees);
    return Some(list);
  }

  lemma OperationOf(stats: Stats, operation: string, s: seq<u64>)
    requires StatsOf(stats, operation, s)
    ensures stats.operation == operation
  {
  }

  /** What a report that is given says about the fees. */
  ghost predicate Reports(report: Report, fees: seq<Fee>) {
    && report.txCount == |fees|
    && report.total == (if Paid(fees) < U64 then Paid(fees) else U64 - 1)
    && Lists(report.byOperation, Operations(fees), fees)
    && Descending(report.byOperation)
  }

  lemma {:induction false} ListedAverages(list: seq<Stats>, done: set<string>, fees: seq<Fee>)
    requires Lists(list, done, fees)
    ensures forall st :: st in list ==> st.min <= st.avg <= st.max
  {
    forall st | st in list
      ensures st.min <= st.avg <= st.max
    {
      AverageIsBetween(st, st.operation, FeesOf(fees, st.operation));
    }
  }

  /**
   * The report is given exactly when no operation's own total overflows: one record per operation,
   * largest total first, each average between its minimum and maximum. The listed totals add up to
   * everything paid, so they agree with the grand total exactly when that does not saturate.
   */
  method BuildReport(fees: seq<Fee>) returns (report: Option<Report>)
    ensures report.Some? <==> Fits(fees)
    ensures report.Some? ==> Reports(report.value, fees)
    ensures report.Some? ==> forall st :: st in report.value.byOperation ==> st.min <= st.avg <= st.max
    ensures report.Some? ==> SumTotals(report.value.byOperation) == Paid(fees)
    ensures report.Some? ==> (SumTotals(report.value.byOperation) == report.value.total <==> Paid(fees) < U64)
  {
    var total, byOp := Gather(fees);
    var listed := ListStats(fees, byOp);
    PaidByAll(fees, Operations(fees));
    hide Lists, Descending, SumTotals, PaidBy, Fits, Operations, Paid;
    if listed.None? {
      return None;
    }
    ListedAverages(listed.value, Operations(fees), fees);
    report := Some(Report(total, |fees|, listed.value));
  }
}
