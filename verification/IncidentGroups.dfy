/**
 * Grouping time-correlated alerts into incidents
 * (backend/src/anomaly_detection.rs): every field of a group is kept up to date
 * one alert at a time, and is compared here with a definition over all members.
 */
module IncidentGroups {
  import MapSum

  const CORRELATION_GAP_SECONDS: int := 300

  datatype Severity = Warning | Critical

  datatype Alert = Alert(id: string, service: string, metric: string, severity: Severity, timestamp: int)

  datatype RootCause = RootCause(service: string, metric: string)

  datatype Group = Group(
    id: string,
    services: seq<string>,
    alertIds: seq<string>,
    sharedMetrics: seq<string>,
    rootCause: RootCause,
    maxSeverity: Severity,
    startedAt: int,
    lastSeenAt: int,
    metricsByService: seq<(string, string)>,
    counted: bool)

  datatype RootCauseStat = RootCauseStat(occurrences: nat, lastSeenAt: int, groupIds: seq<string>)

  predicate Exceeds(a: Severity, b: Severity) {
    a == Critical && b == Warning
  }

  function AddNew<T(==)>(s: seq<T>, x: T): seq<T> {
    if x in s then s else s + [x]
  }

  predicate SeenElsewhere(pairs: seq<(string, string)>, alert: Alert) {
    exists i :: 0 <= i < |pairs| && pairs[i].1 == alert.metric && pairs[i].0 != alert.service
  }

  /** `SystemAnomaly::absorb`. */
  function Absorb(g: Group, alert: Alert): Group {
    var pairs := AddNew(g.metricsByService, (alert.service, alert.metric));
    var earlier := alert.timestamp < g.startedAt;
    g.(
      services := AddNew(g.services, alert.service),
      alertIds := g.alertIds + [alert.id],
      metricsByService := pairs,
      sharedMetrics := if SeenElsewhere(pairs, alert) then AddNew(g.sharedMetrics, alert.metric) else g.sharedMetrics,
      maxSeverity := if Exceeds(alert.severity, g.maxSeverity) then alert.severity else g.maxSeverity,
      startedAt := if earlier then alert.timestamp else g.startedAt,
      rootCause := if earlier then RootCause(alert.service, alert.metric) else g.rootCause,
      lastSeenAt := if alert.timestamp > g.lastSeenAt then alert.timestamp else g.lastSeenAt)
  }

  function NewGroup(id: string, alert: Alert): Group {
    Group(id, [alert.service], [alert.id], [], RootCause(alert.service, alert.metric), alert.severity,
          alert.timestamp, alert.timestamp, [(alert.service, alert.metric)], false)
  }

  predicate IsSystemic(g: Group) {
    |g.services| >= 2
  }

  // ---------------------------------------------------------------------
  // What a group says about its members
  // ---------------------------------------------------------------------

  ghost predicate Distinct<T>(s: seq<T>) {
    forall i, j :: 0 <= i < j < |s| ==> s[i] != s[j]
  }

  ghost predicate HasService(ms: seq<Alert>, service: string) {
    exists i :: 0 <= i < |ms| && ms[i].service == service
  }

  ghost predicate HasPair(ms: seq<Alert>, service: string, metric: string) {
    exists i :: 0 <= i < |ms| && ms[i].service == service && ms[i].metric == metric
  }

  /** Two services alerted on `metric`. */
  ghost predicate Shared(ms: seq<Alert>, metric: string) {
    exists a, b :: a != b && HasPair(ms, a, metric) && HasPair(ms, b, metric)
  }

  ghost predicate SpansServices(ms: seq<Alert>) {
    exists a, b :: a != b && HasService(ms, a) && HasService(ms, b)
  }

  ghost predicate ListsServices(g: Group, ms: seq<Alert>) {
    && Distinct(g.services) && (forall s :: s in g.services <==> HasService(ms, s))
    && Distinct(g.metricsByService) && (forall s, m :: (s, m) in g.metricsByService <==> HasPair(ms, s, m))
    && Distinct(g.sharedMetrics) && (forall m :: m in g.sharedMetrics <==> Shared(ms, m))
  }

  /** Exactly the earliest timestamp, and the first-arrived of the earliest members as root cause. */
  ghost predicate StartOf(ms: seq<Alert>, startedAt: int, cause: RootCause) {
    && (forall i :: 0 <= i < |ms| ==> startedAt <= ms[i].timestamp)
    && (exists i :: 0 <= i < |ms| && ms[i].timestamp == startedAt && cause == RootCause(ms[i].service, ms[i].metric)
          && forall j :: 0 <= j < i ==> ms[j].timestamp > startedAt)
  }

  ghost predicate EndOf(ms: seq<Alert>, lastSeenAt: int) {
    && (forall i :: 0 <= i < |ms| ==> ms[i].timestamp <= lastSeenAt)
    && (exists i :: 0 <= i < |ms| && ms[i].timestamp == lastSeenAt)
  }

  ghost predicate WorstOf(ms: seq<Alert>, severity: Severity) {
    && (forall i :: 0 <= i < |ms| ==> !Exceeds(ms[i].severity, severity))
    && (exists i :: 0 <= i < |ms| && ms[i].severity == severity)
  }

  ghost predicate Bounds(g: Group, ms: seq<Alert>) {
    StartOf(ms, g.startedAt, g.rootCause) && EndOf(ms, g.lastSeenAt) && WorstOf(ms, g.maxSeverity)
  }

  ghost predicate ListsAlerts(g: Group, ms: seq<Alert>) {
    |g.alertIds| == |ms| && forall i :: 0 <= i < |ms| ==> g.alertIds[i] == ms[i].id
  }

  ghost predicate Describes(g: Group, ms: seq<Alert>) {
    ListsAlerts(g, ms) && Bounds(g, ms) && ListsServices(g, ms)
  }

  lemma HasPairAppend(ms: seq<Alert>, a: Alert)
    ensures forall s, m :: HasPair(ms + [a], s, m) <==> HasPair(ms, s, m) || (s == a.service && m == a.metric)
    ensures forall s :: HasService(ms + [a], s) <==> HasService(ms, s) || s == a.service
  {
    var more := ms + [a];
    assert more[|ms|] == a;
    forall s, m | HasPair(ms, s, m)
      ensures HasPair(more, s, m)
    {
      var i :| 0 <= i < |ms| && ms[i].service == s && ms[i].metric == m;
      assert more[i] == ms[i];
    }
    forall s | HasService(ms, s)
      ensures HasService(more, s)
    {
      var i :| 0 <= i < |ms| && ms[i].service == s;
      assert more[i] == ms[i];
    }
  }

  lemma SharedAppend(ms: seq<Alert>, a: Alert)
    ensures forall m :: Shared(ms + [a], m) <==>
      (Shared(ms, m) || (m == a.metric && exists s :: s != a.service && HasPair(ms, s, m)))
  {
    HasPairAppend(ms, a);
    assert HasPair(ms + [a], a.service, a.metric);
    forall m | m == a.metric && exists s :: s != a.service && HasPair(ms, s, m)
      ensures Shared(ms + [a], m)
    {
      var s :| s != a.service && HasPair(ms, s, m);
      assert HasPair(ms + [a], s, m);
    }
    forall m | Shared(ms, m)
      ensures Shared(ms + [a], m)
    {
      var x, y :| x != y && HasPair(ms, x, m) && HasPair(ms, y, m);
      assert HasPair(ms + [a], x, m) && HasPair(ms + [a], y, m);
    }
  }

  lemma SeenElsewhereMeans(pairs: seq<(string, string)>, ms: seq<Alert>, a: Alert)
    requires forall s, m :: (s, m) in pairs <==> HasPair(ms + [a], s, m)
    ensures SeenElsewhere(pairs, a) <==> exists s :: s != a.service && HasPair(ms, s, a.metric)
  {
    HasPairAppend(ms, a);
    if SeenElsewhere(pairs, a) {
      var i :| 0 <= i < |pairs| && pairs[i].1 == a.metric && pairs[i].0 != a.service;
      assert (pairs[i].0, pairs[i].1) in pairs;
      assert HasPair(ms, pairs[i].0, a.metric);
    }
    if s :| s != a.service && HasPair(ms, s, a.metric) {
      assert (s, a.metric) in pairs;
      var i :| 0 <= i < |pairs| && pairs[i] == (s, a.metric);
      assert pairs[i].1 == a.metric && pairs[i].0 != a.service;
    }
  }

  lemma AbsorbLists(g: Group, ms: seq<Alert>, a: Alert)
    requires ListsServices(g, ms)
    ensures ListsServices(Absorb(g, a), ms + [a])
  {
    hide HasPair, HasService, SeenElsewhere, Shared;
    var g' := Absorb(g, a);
    HasPairAppend(ms, a);
    SharedAppend(ms, a);
    SeenElsewhereMeans(g'.metricsByService, ms, a);
  }

  lemma AbsorbStart(ms: seq<Alert>, startedAt: int, cause: RootCause, a: Alert)
    requires StartOf(ms, startedAt, cause)
    ensures if a.timestamp < startedAt then StartOf(ms + [a], a.timestamp, RootCause(a.service, a.metric))
            else StartOf(ms + [a], startedAt, cause)
  {
    var more := ms + [a];
    if a.timestamp < startedAt {
      assert more[|ms|] == a;
    } else {
      var i :| 0 <= i < |ms| && ms[i].timestamp == startedAt && cause == RootCause(ms[i].service, ms[i].metric)
        && forall j :: 0 <= j < i ==> ms[j].timestamp > startedAt;
      assert more[i] == ms[i];
    }
  }

  lemma AbsorbEnd(ms: seq<Alert>, lastSeenAt: int, a: Alert)
    requires EndOf(ms, lastSeenAt)
    ensures EndOf(ms + [a], if a.timestamp > lastSeenAt then a.timestamp else lastSeenAt)
  {
    var more := ms + [a];
    var i :| 0 <= i < |ms| && ms[i].timestamp == lastSeenAt;
    assert more[i] == ms[i] && more[|ms|] == a;
  }

  lemma AbsorbWorst(ms: seq<Alert>, severity: Severity, a: Alert)
    requires WorstOf(ms, severity)
    ensures WorstOf(ms + [a], if Exceeds(a.severity, severity) then a.severity else severity)
  {
    var more := ms + [a];
    var i :| 0 <= i < |ms| && ms[i].severity == severity;
    assert more[i] == ms[i] && more[|ms|] == a;
  }

  /** Absorbing an alert keeps every field equal to its definition over the members. */
  lemma AbsorbDescribes(g: Group, ms: seq<Alert>, a: Alert)
    requires Describes(g, ms)
    ensures Describes(Absorb(g, a), ms + [a]) && Absorb(g, a).counted == g.counted && Absorb(g, a).id == g.id
  {
    hide StartOf, EndOf, WorstOf, ListsServices;
    AbsorbStart(ms, g.startedAt, g.rootCause, a);
    AbsorbEnd(ms, g.lastSeenAt, a);
    AbsorbWorst(ms, g.maxSeverity, a);
    AbsorbLists(g, ms, a);
  }

  lemma NewDescribes(id: string, a: Alert)
    ensures Describes(NewGroup(id, a), [a]) && !NewGroup(id, a).counted && NewGroup(id, a).id == id
  {
    var g, ms := NewGroup(id, a), [a];
    assert ms[0] == a;
    assert forall s, m :: HasPair(ms, s, m) <==> s == a.service && m == a.metric;
  }

  lemma SystemicMeans(g: Group, ms: seq<Alert>)
    requires ListsServices(g, ms)
    ensures IsSystemic(g) <==> SpansServices(ms)
  {
    if IsSystemic(g) {
      assert HasService(ms, g.services[0]) && HasService(ms, g.services[1]) && g.services[0] != g.services[1];
    }
    if a, b :| a != b && HasService(ms, a) && HasService(ms, b) {
      assert a in g.services && b in g.services;
    }
  }

  /** A group is critical exactly when one of its members is. */
  lemma CriticalMeans(g: Group, ms: seq<Alert>)
    requires Describes(g, ms)
    ensures g.maxSeverity == Critical <==> exists i :: 0 <= i < |ms| && ms[i].severity == Critical
  {
  }

  // ---------------------------------------------------------------------
  // Which group an alert joins
  // ---------------------------------------------------------------------

  /** Within five minutes of the span of `ms`. */
  ghost predicate Near(ms: seq<Alert>, a: Alert) {
    && (exists i :: 0 <= i < |ms| && a.timestamp >= ms[i].timestamp - 300)
    && (exists i :: 0 <= i < |ms| && a.timestamp <= ms[i].timestamp + 300)
  }

  lemma NearMeans(g: Group, ms: seq<Alert>, a: Alert)
    requires Bounds(g, ms)
    ensures a.timestamp >= g.startedAt - CORRELATION_GAP_SECONDS
      && a.timestamp <= g.lastSeenAt + CORRELATION_GAP_SECONDS
      <==> Near(ms, a)
  {
  }

  ghost function FirstNear(members: seq<seq<Alert>>, a: Alert): (k: nat)
    ensures k <= |members|
  {
    if members == [] then 0
    else if Near(members[0], a) then 0
    else 1 + FirstNear(members[1..], a)
  }

  lemma {:induction false} FirstNearIs(members: seq<seq<Alert>>, a: Alert, k: nat)
    requires k <= |members|
    requires forall i :: 0 <= i < k ==> !Near(members[i], a)
    requires k < |members| ==> Near(members[k], a)
    ensures FirstNear(members, a) == k
    decreases k
  {
    if k > 0 {
      FirstNearIs(members[1..], a, k - 1);
    }
  }

  /** The alert joins the first group near it, or starts a new one. */
  ghost function Placed(members: seq<seq<Alert>>, a: Alert): seq<seq<Alert>> {
    var k := FirstNear(members, a);
    if k < |members| then members[k := members[k] + [a]] else members + [[a]]
  }

  ghost function GroupsOf(alerts: seq<Alert>): seq<seq<Alert>> {
    if alerts == [] then [] else Placed(GroupsOf(alerts[..|alerts| - 1]), alerts[|alerts| - 1])
  }

  ghost function Everyone(members: seq<seq<Alert>>): multiset<Alert> {
    if members == [] then multiset{}
    else Everyone(members[..|members| - 1]) + multiset(members[|members| - 1])
  }

  lemma {:induction false} EveryoneAfter(members: seq<seq<Alert>>, k: nat, a: Alert)
    requires k < |members|
    ensures Everyone(members[k := members[k] + [a]]) == Everyone(members) + multiset{a}
  {
    var more := members[k := members[k] + [a]];
    var n := |members| - 1;
    if k == n {
      assert more[..n] == members[..n];
    } else {
      assert more[..n] == members[..n][k := members[k] + [a]];
      EveryoneAfter(members[..n], k, a);
    }
  }

  lemma PlacedOnce(members: seq<seq<Alert>>, a: Alert)
    requires forall i :: 0 <= i < |members| ==> members[i] != []
    ensures Everyone(Placed(members, a)) == Everyone(members) + multiset{a}
    ensures forall i :: 0 <= i < |Placed(members, a)| ==> Placed(members, a)[i] != []
  {
    hide FirstNear;
    var k := FirstNear(members, a);
    if k < |members| {
      EveryoneAfter(members, k, a);
    } else {
      assert (members + [[a]])[..|members|] == members;
    }
  }

  /** In every run each alert is in exactly one group, and no group is empty. */
  lemma {:induction false} EachAlertInOneGroup(alerts: seq<Alert>)
    ensures Everyone(GroupsOf(alerts)) == multiset(alerts)
    ensures forall i :: 0 <= i < |GroupsOf(alerts)| ==> GroupsOf(alerts)[i] != []
  {
    if alerts != [] {
      hide Placed, Everyone;
      var before, a := alerts[..|alerts| - 1], alerts[|alerts| - 1];
      EachAlertInOneGroup(before);
      PlacedOnce(GroupsOf(before), a);
      assert alerts == before + [a];
    }
  }

  // ---------------------------------------------------------------------
  // Counting incidents by root cause
  // ---------------------------------------------------------------------

  /** The first-arrived of the earliest members. */
  ghost function Earliest(ms: seq<Alert>): (i: nat)
    requires ms != []
    ensures i < |ms|
    ensures forall j :: 0 <= j < |ms| ==> ms[i].timestamp <= ms[j].timestamp
    ensures forall j :: 0 <= j < i ==> ms[i].timestamp < ms[j].timestamp
  {
    if |ms| == 1 then 0
    else
      var i := Earliest(ms[..|ms| - 1]);
      if ms[|ms| - 1].timestamp < ms[i].timestamp then |ms| - 1 else i
  }

  ghost function CauseOf(ms: seq<Alert>): RootCause
    requires ms != []
  {
    RootCause(ms[Earliest(ms)].service, ms[Earliest(ms)].metric)
  }

  lemma RootCauseMeans(g: Group, ms: seq<Alert>)
    requires Bounds(g, ms)
    ensures ms != [] && g.rootCause == CauseOf(ms)
  {
    var i :| 0 <= i < |ms| && ms[i].timestamp == g.startedAt && g.rootCause == RootCause(ms[i].service, ms[i].metric)
      && forall j :: 0 <= j < i ==> ms[j].timestamp > g.startedAt;
    assert ms[Earliest(ms)].timestamp == g.startedAt;
    assert !(Earliest(ms) < i) && !(i < Earliest(ms));
  }

  /** The root cause as it stood when the group first spanned two services. */
  ghost function CauseWhenCounted(ms: seq<Alert>): RootCause
    requires SpansServices(ms)
  {
    SpansNotEmpty(ms);
    if SpansServices(ms[..|ms| - 1]) then CauseWhenCounted(ms[..|ms| - 1]) else CauseOf(ms)
  }

  lemma SpansNotEmpty(ms: seq<Alert>)
    requires SpansServices(ms)
    ensures ms != []
  {
    var a, b :| a != b && HasService(ms, a) && HasService(ms, b);
  }

  lemma SpansGrows(ms: seq<Alert>, a: Alert)
    requires SpansServices(ms)
    ensures SpansServices(ms + [a]) && CauseWhenCounted(ms + [a]) == CauseWhenCounted(ms)
    ensures SeenWhenCounted(ms + [a]) == SeenWhenCounted(ms)
  {
    HasPairAppend(ms, a);
    var x, y :| x != y && HasService(ms, x) && HasService(ms, y);
    assert HasService(ms + [a], x) && HasService(ms + [a], y);
    assert (ms + [a])[..|ms|] == ms;
  }

  ghost function Latest(ms: seq<Alert>): (at: int)
    requires ms != []
    ensures exists i :: 0 <= i < |ms| && ms[i].timestamp == at
    ensures forall i :: 0 <= i < |ms| ==> ms[i].timestamp <= at
  {
    var last := ms[|ms| - 1].timestamp;
    if |ms| == 1 then last
    else
      var before := Latest(ms[..|ms| - 1]);
      assert forall i :: 0 <= i < |ms| - 1 ==> ms[..|ms| - 1][i] == ms[i];
      if last > before then last else before
  }

  /** The latest stamp in a group when it first spanned two services. */
  ghost function SeenWhenCounted(ms: seq<Alert>): int
    requires SpansServices(ms)
  {
    SpansNotEmpty(ms);
    if SpansServices(ms[..|ms| - 1]) then SeenWhenCounted(ms[..|ms| - 1]) else Latest(ms)
  }

  lemma LastSeenMeans(g: Group, ms: seq<Alert>)
    requires Bounds(g, ms)
    ensures ms != [] && g.lastSeenAt == Latest(ms)
  {
  }

  /** How many members a group had when it first spanned two services. */
  ghost function CountedAt(ms: seq<Alert>): (n: nat)
    requires SpansServices(ms)
    ensures 1 <= n <= |ms| && SpansServices(ms[..n])
    ensures forall m :: 0 <= m < n ==> !SpansServices(ms[..m])
  {
    SpansNotEmpty(ms);
    var before := ms[..|ms| - 1];
    assert forall m :: 0 <= m <= |before| ==> before[..m] == ms[..m];
    assert ms[..|ms|] == ms;
    if SpansServices(before) then CountedAt(before)
    else
      ShorterSpansLess(ms);
      |ms|
  }

  /** A prefix spans services only if the whole does. */
  lemma PrefixSpans(ms: seq<Alert>, m: nat, n: nat)
    requires m <= n <= |ms| && SpansServices(ms[..m])
    ensures SpansServices(ms[..n])
  {
    var a, b :| a != b && HasService(ms[..m], a) && HasService(ms[..m], b);
    var i :| 0 <= i < m && ms[..m][i].service == a;
    var j :| 0 <= j < m && ms[..m][j].service == b;
    assert ms[..n][i].service == a && ms[..n][j].service == b;
    assert HasService(ms[..n], a) && HasService(ms[..n], b);
  }

  /** One alert does not span services, nor does none. */
  lemma OneSpansNothing(ms: seq<Alert>)
    requires |ms| == 1
    ensures !SpansServices(ms) && !SpansServices(ms[..0])
  {
  }

  lemma ShorterSpansLess(ms: seq<Alert>)
    requires ms != [] && !SpansServices(ms[..|ms| - 1])
    ensures forall m :: 0 <= m < |ms| ==> !SpansServices(ms[..m])
  {
    forall m | 0 <= m < |ms|
      ensures !SpansServices(ms[..m])
    {
      if SpansServices(ms[..m]) {
        PrefixSpans(ms, m, |ms| - 1);
      }
    }
  }

  lemma {:induction false} CauseAtCounting(ms: seq<Alert>)
    requires SpansServices(ms)
    ensures CauseWhenCounted(ms) == CauseOf(ms[..CountedAt(ms)])
  {
    SpansNotEmpty(ms);
    var before := ms[..|ms| - 1];
    if SpansServices(before) {
      CauseAtCounting(before);
      assert before[..CountedAt(before)] == ms[..CountedAt(before)];
    } else {
      assert ms[..|ms|] == ms;
    }
  }

  predicate SameCause(a: Alert, b: Alert) {
    a.service == b.service && a.metric == b.metric
  }

  /** Later members leave the first-arrived earliest one alone exactly when none is stamped before it. */
  lemma EarliestStays(ms: seq<Alert>, n: nat)
    requires 1 <= n <= |ms|
    ensures Earliest(ms) == Earliest(ms[..n])
      <==> forall i :: n <= i < |ms| ==> ms[i].timestamp >= ms[Earliest(ms[..n])].timestamp
  {
    var e, f := Earliest(ms), Earliest(ms[..n]);
    assert forall j :: 0 <= j < n ==> ms[..n][j] == ms[j];
  }

  /** Only an alert stamped before all members becomes the earliest. */
  lemma EarliestOfMore(ms: seq<Alert>, a: Alert)
    requires ms != []
    ensures Earliest(ms + [a]) == if a.timestamp < ms[Earliest(ms)].timestamp then |ms| else Earliest(ms)
  {
    assert (ms + [a])[..|ms|] == ms;
  }

  /**
   * A group counted under its root cause stays so with its next member exactly when that one is not
   * stamped before the members so far, or has the service and metric of the earliest of them.
   */
  lemma NextKeepsCause(ms: seq<Alert>, a: Alert)
    requires ms != [] && SpansServices(ms) && CauseWhenCounted(ms) == CauseOf(ms)
    ensures SpansServices(ms + [a])
    ensures CauseWhenCounted(ms + [a]) == CauseOf(ms + [a])
      <==> a.timestamp >= ms[Earliest(ms)].timestamp || SameCause(a, ms[Earliest(ms)])
  {
    SpansGrows(ms, a);
    EarliestOfMore(ms, a);
    hide SpansServices, CauseWhenCounted, Earliest;
  }

  /** A group that is counted is counted under its root cause. */
  ghost predicate Current(ms: seq<Alert>) {
    ms != [] && SpansServices(ms) ==> CauseWhenCounted(ms) == CauseOf(ms)
  }

  /** So it was all along. */
  ghost predicate AlwaysCurrent(ms: seq<Alert>) {
    forall m :: 0 <= m <= |ms| ==> Current(ms[..m])
  }

  /** Member `i` is stamped before all earlier ones and names another service or metric than their earliest. */
  ghost predicate Supplants(ms: seq<Alert>, i: nat)
    requires 1 <= i < |ms|
  {
    var first := ms[Earliest(ms[..i])];
    ms[i].timestamp < first.timestamp && !SameCause(ms[i], first)
  }

  ghost predicate NoneSupplants(ms: seq<Alert>, n: nat)
    requires n >= 1
  {
    forall i :: n <= i < |ms| ==> !Supplants(ms, i)
  }

  lemma AlwaysCurrentStep(ms: seq<Alert>, a: Alert)
    ensures AlwaysCurrent(ms + [a]) <==> AlwaysCurrent(ms) && Current(ms + [a])
  {
    hide Current;
    var more := ms + [a];
    assert more[..|more|] == more;
    assert forall m :: 0 <= m <= |ms| ==> more[..m] == ms[..m];
  }

  lemma NoneSupplantsStep(ms: seq<Alert>, a: Alert, n: nat)
    requires 1 <= n <= |ms|
    ensures NoneSupplants(ms + [a], n) <==>
      NoneSupplants(ms, n) && (a.timestamp < ms[Earliest(ms)].timestamp ==> SameCause(a, ms[Earliest(ms)]))
  {
    var more := ms + [a];
    assert more[..|ms|] == ms;
    assert forall i :: 0 <= i < |ms| ==> more[..i] == ms[..i] && more[i] == ms[i];
    hide Earliest;
    assert forall i :: 1 <= i < |ms| ==> (Supplants(more, i) <==> Supplants(ms, i));
    assert Supplants(more, |ms|) <==>
      a.timestamp < ms[Earliest(ms)].timestamp && !SameCause(a, ms[Earliest(ms)]);
  }

  /**
   * When the cause a group is counted under is its root cause throughout: exactly when no member
   * that arrived after the group first spanned two services supplanted the earliest before it.
   */
  lemma {:induction false} CountedCauseIsCurrent(ms: seq<Alert>)
    requires SpansServices(ms)
    ensures AlwaysCurrent(ms) <==> NoneSupplants(ms, CountedAt(ms))
  {
    SpansNotEmpty(ms);
    var before, a := ms[..|ms| - 1], ms[|ms| - 1];
    assert ms == before + [a];
    AlwaysCurrentStep(before, a);
    if SpansServices(before) {
      SpansNotEmpty(before);
      CountedCauseIsCurrent(before);
      NoneSupplantsStep(before, a, CountedAt(before));
      CurrentNow(before);
      hide SpansServices, AlwaysCurrent, NoneSupplants, Earliest, CauseWhenCounted, CauseOf;
      if CauseWhenCounted(before) == CauseOf(before) {
        NextKeepsCause(before, a);
      }
    } else {
      NeverSpanned(before);
    }
  }

  lemma CurrentNow(ms: seq<Alert>)
    ensures AlwaysCurrent(ms) ==> Current(ms)
  {
    assert ms[..|ms|] == ms;
  }

  lemma NeverSpanned(ms: seq<Alert>)
    requires !SpansServices(ms)
    ensures AlwaysCurrent(ms)
  {
    assert ms[..|ms|] == ms;
    forall m | 0 <= m <= |ms|
      ensures Current(ms[..m])
    {
      if SpansServices(ms[..m]) {
        PrefixSpans(ms, m, |ms|);
      }
    }
  }

  /**
   * A run in which the two differ: two services alert, and then a third alert arrives that is
   * stamped before both. The group's root cause moves to it; the count does not.
   */
  lemma CountedCauseGoesStale(x: Alert, y: Alert, z: Alert)
    requires x.service != y.service && x.timestamp <= y.timestamp <= x.timestamp + CORRELATION_GAP_SECONDS
    requires x.timestamp - CORRELATION_GAP_SECONDS <= z.timestamp < x.timestamp && !SameCause(x, z)
    ensures GroupsOf([x, y, z]) == [[x, y, z]] && SpansServices([x, y, z])
    ensures CauseWhenCounted([x, y, z]) == RootCause(x.service, x.metric)
    ensures CauseOf([x, y, z]) == RootCause(z.service, z.metric)
  {
    GroupOfThree(x, y, z);
    var two, three := [x, y], [x, y, z];
    assert three[..2] == two && two[..1] == [x];
    assert HasService(two, two[0].service) && HasService(two, two[1].service);
    assert HasService(three, three[0].service) && HasService(three, three[1].service);
    assert !SpansServices([x]);
    assert Earliest(two) == 0 && Earliest(three) == 2;
  }

  lemma GroupOfThree(x: Alert, y: Alert, z: Alert)
    requires x.timestamp <= y.timestamp <= x.timestamp + CORRELATION_GAP_SECONDS
    requires x.timestamp - CORRELATION_GAP_SECONDS <= z.timestamp < x.timestamp
    ensures GroupsOf([x, y, z]) == [[x, y, z]]
  {
    var one, two, three := [x], [x, y], [x, y, z];
    assert one[..0] == [] && two[..1] == one && three[..2] == two;
    assert GroupsOf(one) == [one];
    assert one[0] == x && Near(one, y);
    FirstNearIs([one], y, 0);
    assert one + [y] == two && GroupsOf(two) == [two];
    assert two[0] == x && Near(two, z);
    FirstNearIs([two], z, 0);
    assert two + [z] == three;
  }

  /** Indices of the groups counted against `cause`. */
  ghost function CountedAgainst(members: seq<seq<Alert>>, cause: RootCause): set<int> {
    set i | 0 <= i < |members| && SpansServices(members[i]) && CauseWhenCounted(members[i]) == cause
  }

  ghost function Systemic(members: seq<seq<Alert>>): set<int> {
    set i | 0 <= i < |members| && SpansServices(members[i])
  }

  function Occurrences(stats: map<RootCause, RootCauseStat>, cause: RootCause): nat {
    if cause in stats then stats[cause].occurrences else 0
  }

  function AsReals(stats: map<RootCause, RootCauseStat>): map<RootCause, real> {
    map c | c in stats :: stats[c].occurrences as real
  }

  /** Every cause has as many occurrences as groups counted against it, each with its id. */
  ghost predicate TalliedByCause(stats: map<RootCause, RootCauseStat>, members: seq<seq<Alert>>) {
    && (forall c :: Occurrences(stats, c) == |CountedAgainst(members, c)|)
    && (forall c :: c in stats ==> |stats[c].groupIds| == stats[c].occurrences)
  }

  /** All occurrences together are the systemic groups. */
  ghost predicate TalliedInTotal(stats: map<RootCause, RootCauseStat>, members: seq<seq<Alert>>) {
    MapSum.Sum(AsReals(stats)) == |Systemic(members)| as real
  }

  ghost predicate Tallied(stats: map<RootCause, RootCauseStat>, members: seq<seq<Alert>>) {
    TalliedByCause(stats, members) && TalliedInTotal(stats, members)
  }

  /** `members` and `more` differ at index `k` only, where `more` may have one group more. */
  ghost predicate GrownAt(members: seq<seq<Alert>>, more: seq<seq<Alert>>, k: nat) {
    && k < |more| && (|more| == |members| || (|more| == |members| + 1 && k == |members|))
    && forall i :: 0 <= i < |members| && i != k ==> more[i] == members[i]
  }

  lemma TalliedSame(stats: map<RootCause, RootCauseStat>, members: seq<seq<Alert>>, more: seq<seq<Alert>>, k: nat)
    requires Tallied(stats, members) && GrownAt(members, more, k)
    requires SpansServices(more[k]) ==>
      k < |members| && SpansServices(members[k]) && CauseWhenCounted(more[k]) == CauseWhenCounted(members[k])
    requires k < |members| && SpansServices(members[k]) ==> SpansServices(more[k])
    ensures Tallied(stats, more)
    ensures forall c :: CountedAgainst(more, c) == CountedAgainst(members, c)
  {
    hide SpansServices, CauseWhenCounted;
    assert Systemic(more) == Systemic(members);
    forall c
      ensures CountedAgainst(more, c) == CountedAgainst(members, c)
    {
    }
  }

  ghost predicate NewlySpans(members: seq<seq<Alert>>, more: seq<seq<Alert>>, k: nat) {
    GrownAt(members, more, k) && SpansServices(more[k]) && (k < |members| ==> !SpansServices(members[k]))
  }

  lemma CountedAgainstMore(members: seq<seq<Alert>>, more: seq<seq<Alert>>, k: nat, c: RootCause)
    requires NewlySpans(members, more, k)
    ensures CountedAgainst(more, c) == CountedAgainst(members, c) + if c == CauseWhenCounted(more[k]) then {k} else {}
    ensures |CountedAgainst(more, c)| == |CountedAgainst(members, c)| + if c == CauseWhenCounted(more[k]) then 1 else 0
  {
    hide SpansServices, CauseWhenCounted;
    assert k !in CountedAgainst(members, c);
    assert CountedAgainst(more, c) == CountedAgainst(members, c) + if c == CauseWhenCounted(more[k]) then {k} else {};
  }

  lemma SystemicMore(members: seq<seq<Alert>>, more: seq<seq<Alert>>, k: nat)
    requires NewlySpans(members, more, k)
    ensures |Systemic(more)| == |Systemic(members)| + 1
  {
    hide SpansServices;
    assert k !in Systemic(members) && Systemic(more) == Systemic(members) + {k};
  }

  lemma TalliedOneMore(
    stats: map<RootCause, RootCauseStat>, members: seq<seq<Alert>>, more: seq<seq<Alert>>, k: nat, stat: RootCauseStat)
    requires Tallied(stats, members) && NewlySpans(members, more, k)
    requires stat.occurrences == Occurrences(stats, CauseWhenCounted(more[k])) + 1
      && |stat.groupIds| == stat.occurrences
    ensures Tallied(stats[CauseWhenCounted(more[k]) := stat], more)
  {
    hide SpansServices, CauseWhenCounted, CountedAgainst, Systemic, MapSum.Sum;
    var cause := CauseWhenCounted(more[k]);
    var stats' := stats[cause := stat];
    assert TalliedByCause(stats', more) by {
      forall c
        ensures Occurrences(stats', c) == |CountedAgainst(more, c)|
      {
        CountedAgainstMore(members, more, k, c);
      }
    }
    assert TalliedInTotal(stats', more) by {
      SystemicMore(members, more, k);
      MapSum.SumUpdate(AsReals(stats), cause, stat.occurrences as real);
      assert AsReals(stats') == AsReals(stats)[cause := stat.occurrences as real];
      assert MapSum.At(AsReals(stats), cause) == Occurrences(stats, cause) as real;
    }
  }

  function IdsUnder(stats: map<RootCause, RootCauseStat>, cause: RootCause): seq<string> {
    if cause in stats then stats[cause].groupIds else []
  }

  /** The ids of the groups counted against `cause`. */
  ghost function IdsAgainst(ids: seq<string>, members: seq<seq<Alert>>, cause: RootCause): set<string>
    requires |ids| == |members|
  {
    set i | i in CountedAgainst(members, cause) :: ids[i]
  }

  /** The ids listed under a cause are those of the groups counted against it. */
  ghost predicate Listed(stats: map<RootCause, RootCauseStat>, ids: seq<string>, members: seq<seq<Alert>>) {
    && |ids| == |members|
    && forall c :: (set x | x in IdsUnder(stats, c)) == IdsAgainst(ids, members, c)
  }

  ghost function IdsOf(groups: seq<Group>): seq<string> {
    seq(|groups|, i requires 0 <= i < |groups| => groups[i].id)
  }

  lemma IdsAre(groups: seq<Group>)
    ensures |IdsOf(groups)| == |groups| && forall i :: 0 <= i < |groups| ==> IdsOf(groups)[i] == groups[i].id
  {
  }

  lemma IdsKept(groups: seq<Group>, k: nat, g: Group)
    requires k < |groups| && g.id == groups[k].id
    ensures IdsOf(groups[k := g]) == IdsOf(groups) && IdsGrown(IdsOf(groups), IdsOf(groups))
  {
  }

  lemma IdsAppended(groups: seq<Group>, g: Group)
    ensures IdsOf(groups + [g]) == IdsOf(groups) + [g.id] && IdsGrown(IdsOf(groups), IdsOf(groups + [g]))
  {
  }

  /** Groups keep their ids, and there may be one more. */
  ghost predicate IdsGrown(ids: seq<string>, more: seq<string>) {
    |ids| <= |more| && forall i :: 0 <= i < |ids| ==> more[i] == ids[i]
  }

  lemma IdsAgainstSame(
    ids: seq<string>, ids': seq<string>, members: seq<seq<Alert>>, more: seq<seq<Alert>>, cause: RootCause)
    requires |ids| == |members| && |ids'| == |more| && IdsGrown(ids, ids')
    requires CountedAgainst(more, cause) == CountedAgainst(members, cause)
    ensures IdsAgainst(ids', more, cause) == IdsAgainst(ids, members, cause)
  {
    hide SpansServices, CauseWhenCounted;
    assert forall i :: i in CountedAgainst(members, cause) ==> 0 <= i < |ids| && ids'[i] == ids[i];
  }

  lemma IdsAgainstMore(
    ids: seq<string>, ids': seq<string>, members: seq<seq<Alert>>, more: seq<seq<Alert>>, k: nat, cause: RootCause)
    requires |ids| == |members| && |ids'| == |more| && IdsGrown(ids, ids') && k < |more|
    requires CountedAgainst(more, cause) == CountedAgainst(members, cause) + {k}
    ensures IdsAgainst(ids', more, cause) == IdsAgainst(ids, members, cause) + {ids'[k]}
  {
    hide SpansServices, CauseWhenCounted;
    assert forall i :: i in CountedAgainst(members, cause) ==> 0 <= i < |ids| && ids'[i] == ids[i];
    var before, after := IdsAgainst(ids, members, cause), IdsAgainst(ids', more, cause);
    forall x | x in before
      ensures x in after
    {
      var i :| i in CountedAgainst(members, cause) && ids[i] == x;
      assert i in CountedAgainst(more, cause);
    }
    assert k in CountedAgainst(more, cause);
  }

  lemma ListedSame(
    stats: map<RootCause, RootCauseStat>, ids: seq<string>, ids': seq<string>,
    members: seq<seq<Alert>>, more: seq<seq<Alert>>)
    requires Listed(stats, ids, members) && IdsGrown(ids, ids') && |ids'| == |more|
    requires forall c :: CountedAgainst(more, c) == CountedAgainst(members, c)
    ensures Listed(stats, ids', more)
  {
    hide CountedAgainst, IdsAgainst, IdsUnder, IdsGrown;
    forall c {
      IdsAgainstSame(ids, ids', members, more, c);
    }
  }

  lemma ListedOneMore(
    stats: map<RootCause, RootCauseStat>, ids: seq<string>, ids': seq<string>,
    members: seq<seq<Alert>>, more: seq<seq<Alert>>, k: nat, stat: RootCauseStat)
    requires Listed(stats, ids, members) && IdsGrown(ids, ids') && |ids'| == |more| && NewlySpans(members, more, k)
    requires stat.groupIds == IdsUnder(stats, CauseWhenCounted(more[k])) + [ids'[k]]
    ensures Listed(stats[CauseWhenCounted(more[k]) := stat], ids', more)
  {
    hide CountedAgainst, IdsAgainst, IdsGrown, CauseWhenCounted;
    var cause := CauseWhenCounted(more[k]);
    var stats' := stats[cause := stat];
    forall c
      ensures (set x | x in IdsUnder(stats', c)) == IdsAgainst(ids', more, c)
    {
      CountedAgainstMore(members, more, k, c);
      hide NewlySpans;
      if c == cause {
        IdsAgainstMore(ids, ids', members, more, k, c);
        assert (set x | x in IdsUnder(stats', c)) == (set x | x in IdsUnder(stats, c)) + {ids'[k]};
      } else {
        IdsAgainstSame(ids, ids', members, more, c);
      }
    }
  }

  /** What a cause was last seen at is the latest of the groups counted against it, as they stood then. */
  ghost predicate SeenTallied(stats: map<RootCause, RootCauseStat>, members: seq<seq<Alert>>) {
    forall c :: c in stats ==>
      && (exists i :: i in CountedAgainst(members, c) && SeenWhenCounted(members[i]) == stats[c].lastSeenAt)
      && (forall i :: i in CountedAgainst(members, c) ==> SeenWhenCounted(members[i]) <= stats[c].lastSeenAt)
  }

  lemma SeenSame(stats: map<RootCause, RootCauseStat>, members: seq<seq<Alert>>, more: seq<seq<Alert>>, k: nat)
    requires SeenTallied(stats, members) && GrownAt(members, more, k)
    requires forall c :: CountedAgainst(more, c) == CountedAgainst(members, c)
    requires k < |members| && SpansServices(members[k]) ==>
      SpansServices(more[k]) && SeenWhenCounted(more[k]) == SeenWhenCounted(members[k])
    ensures SeenTallied(stats, more)
  {
    hide SpansServices, SeenWhenCounted, CauseWhenCounted;
    forall c, i | c in stats && i in CountedAgainst(members, c)
      ensures i in CountedAgainst(more, c) && SeenWhenCounted(more[i]) == SeenWhenCounted(members[i])
    {
    }
  }

  lemma SeenOneMore(
    stats: map<RootCause, RootCauseStat>, members: seq<seq<Alert>>, more: seq<seq<Alert>>, k: nat, stat: RootCauseStat)
    requires SeenTallied(stats, members) && NewlySpans(members, more, k)
    requires
      var cause, seen := CauseWhenCounted(more[k]), SeenWhenCounted(more[k]);
      stat.lastSeenAt == if cause in stats && stats[cause].lastSeenAt > seen then stats[cause].lastSeenAt else seen
    requires forall c :: c !in stats ==> CountedAgainst(members, c) == {}
    ensures SeenTallied(stats[CauseWhenCounted(more[k]) := stat], more)
  {
    hide SpansServices, SeenWhenCounted, CauseWhenCounted;
    var cause := CauseWhenCounted(more[k]);
    forall c
      ensures CountedAgainst(more, c) == CountedAgainst(members, c) + if c == cause then {k} else {}
    {
      CountedAgainstMore(members, more, k, c);
    }
    assert forall c, i :: i in CountedAgainst(members, c) ==> i != k && more[i] == members[i];
    var stats' := stats[cause := stat];
    forall c | c in stats'
      ensures exists i :: i in CountedAgainst(more, c) && SeenWhenCounted(more[i]) == stats'[c].lastSeenAt
    {
      if c == cause && stat.lastSeenAt == SeenWhenCounted(more[k]) {
        assert k in CountedAgainst(more, c);
      } else {
        var i :| i in CountedAgainst(members, c) && SeenWhenCounted(members[i]) == stats[c].lastSeenAt;
        assert i in CountedAgainst(more, c);
      }
    }
  }

  /** A cause without a record has no group counted against it; the others list an id for each occurrence. */
  lemma UnlistedAreNone(stats: map<RootCause, RootCauseStat>, members: seq<seq<Alert>>)
    requires Tallied(stats, members)
    ensures forall c :: c !in stats ==> CountedAgainst(members, c) == {}
    ensures forall c :: |IdsUnder(stats, c)| == Occurrences(stats, c)
  {
    hide CountedAgainst;
    forall c | c !in stats
      ensures CountedAgainst(members, c) == {}
    {
      assert Occurrences(stats, c) == |CountedAgainst(members, c)|;
    }
  }

  /** The records of root causes agree with the groups: occurrences, ids and times. */
  ghost predicate Records(stats: map<RootCause, RootCauseStat>, ids: seq<string>, members: seq<seq<Alert>>) {
    Tallied(stats, members) && Listed(stats, ids, members) && SeenTallied(stats, members)
  }

  /** The records with one more group, as it stands, counted against its root cause. */
  function Recorded(stats: map<RootCause, RootCauseStat>, g: Group): map<RootCause, RootCauseStat> {
    var stat := if g.rootCause in stats then stats[g.rootCause] else RootCauseStat(0, g.lastSeenAt, []);
    var lastSeenAt := if stat.lastSeenAt < g.lastSeenAt then g.lastSeenAt else stat.lastSeenAt;
    stats[g.rootCause := RootCauseStat(stat.occurrences + 1, lastSeenAt, stat.groupIds + [g.id])]
  }

  lemma FirstCounted(ms: seq<Alert>)
    requires ms != [] && SpansServices(ms) && !SpansServices(ms[..|ms| - 1])
    ensures CauseWhenCounted(ms) == CauseOf(ms) && SeenWhenCounted(ms) == Latest(ms)
  {
  }

  lemma RecordedStat(stats: map<RootCause, RootCauseStat>, members: seq<seq<Alert>>, g: Group)
    requires Tallied(stats, members)
    ensures g.rootCause in Recorded(stats, g)
    ensures
      var stat := Recorded(stats, g)[g.rootCause];
      && Recorded(stats, g) == stats[g.rootCause := stat]
      && stat.occurrences == Occurrences(stats, g.rootCause) + 1
      && stat.groupIds == IdsUnder(stats, g.rootCause) + [g.id]
      && |stat.groupIds| == stat.occurrences
      && stat.lastSeenAt ==
        if g.rootCause in stats && stats[g.rootCause].lastSeenAt > g.lastSeenAt
        then stats[g.rootCause].lastSeenAt else g.lastSeenAt
  {
    UnlistedAreNone(stats, members);
    hide Tallied, CountedAgainst;
  }

  lemma RecordsOneMore(
    stats: map<RootCause, RootCauseStat>, ids: seq<string>, ids': seq<string>,
    members: seq<seq<Alert>>, more: seq<seq<Alert>>, k: nat, g: Group)
    requires Records(stats, ids, members) && IdsGrown(ids, ids') && |ids'| == |more| && NewlySpans(members, more, k)
    requires more[k] != [] && !SpansServices(more[k][..|more[k]| - 1])
    requires g.rootCause == CauseOf(more[k]) && g.lastSeenAt == Latest(more[k]) && g.id == ids'[k]
    ensures Records(Recorded(stats, g), ids', more)
  {
    var stat := Recorded(stats, g)[g.rootCause];
    RecordedStat(stats, members, g);
    hide Tallied, Listed, SeenTallied, IdsGrown, CountedAgainst, Latest, CauseOf, CauseWhenCounted, SeenWhenCounted;
    hide SpansServices, Recorded, IdsUnder, Occurrences;
    FirstCounted(more[k]);
    TalliedOneMore(stats, members, more, k, stat);
    assert SeenTallied(stats[g.rootCause := stat], more) by {
      UnlistedAreNone(stats, members);
      SeenOneMore(stats, members, more, k, stat);
    }
    ListedOneMore(stats, ids, ids', members, more, k, stat);
  }

  lemma RecordsSame(
    stats: map<RootCause, RootCauseStat>, ids: seq<string>, ids': seq<string>,
    members: seq<seq<Alert>>, more: seq<seq<Alert>>, k: nat)
    requires Records(stats, ids, members) && IdsGrown(ids, ids') && |ids'| == |more| && GrownAt(members, more, k)
    requires k < |members| ==> more[k] != [] && more[k] == members[k] + [more[k][|more[k]| - 1]]
    requires SpansServices(more[k]) ==> k < |members| && SpansServices(members[k])
    ensures Records(stats, ids', more)
  {
    hide Tallied, Listed, SeenTallied, IdsGrown, CountedAgainst, SpansServices, CauseWhenCounted, SeenWhenCounted;
    if k < |members| && SpansServices(members[k]) {
      SpansGrows(members[k], more[k][|more[k]| - 1]);
    }
    TalliedSame(stats, members, more, k);
    SeenSame(stats, members, more, k);
    ListedSame(stats, ids, ids', members, more);
  }

  lemma DescribesMeans(g: Group, ms: seq<Alert>)
    requires Describes(g, ms)
    ensures IsSystemic(g) <==> SpansServices(ms)
    ensures ms != [] && g.rootCause == CauseOf(ms) && g.lastSeenAt == Latest(ms)
    ensures forall b :: Describes(g.(counted := b), ms)
  {
    SystemicMeans(g, ms);
    RootCauseMeans(g, ms);
    LastSeenMeans(g, ms);
  }

  // ---------------------------------------------------------------------
  // The store
  // ---------------------------------------------------------------------

  class AnomalyStore {
    var groups: seq<Group>
    var rootCauses: map<RootCause, RootCauseStat>
    ghost var alerts: seq<Alert>

    ghost predicate Valid()
      reads this
    {
      var members := GroupsOf(alerts);
      && |groups| == |members|
      && (forall i :: 0 <= i < |groups| ==> Describes(groups[i], members[i]))
      && (forall i :: 0 <= i < |groups| ==> (groups[i].counted <==> SpansServices(members[i])))
      && Records(rootCauses, IdsOf(groups), members)
    }

    constructor ()
      ensures Valid() && alerts == []
    {
      groups, rootCauses, alerts := [], map[], [];
      new;
      forall c
        ensures CountedAgainst([], c) == {}
      {
      }
      assert AsReals(map[]) == map[];
    }

    method Position(alert: Alert) returns (k: nat)
      requires Valid()
      ensures k == FirstNear(GroupsOf(alerts), alert)
    {
      ghost var members := GroupsOf(alerts);
      k := 0;
      while k < |groups|
        invariant k <= |groups|
        invariant forall i :: 0 <= i < k ==> !Near(members[i], alert)
      {
        NearMeans(groups[k], members[k], alert);
        if alert.timestamp >= groups[k].startedAt - CORRELATION_GAP_SECONDS
          && alert.timestamp <= groups[k].lastSeenAt + CORRELATION_GAP_SECONDS {
          break;
        }
        k := k + 1;
      }
      if k < |groups| {
        NearMeans(groups[k], members[k], alert);
      }
      FirstNearIs(members, alert, k);
    }

    /** Join the alert to a nearby group or start one; count a group once, when it first spans two services. */
    method Correlate(alert: Alert, id: string)
      requires Valid()
      modifies this
      ensures Valid() && alerts == old(alerts) + [alert]
      ensures IdsOf(groups) == IdsOf(old(groups)) || IdsOf(groups) == IdsOf(old(groups)) + [id]
    {
      hide Describes, Records, Latest, IdsOf, IdsGrown, SpansServices, CauseOf, Absorb, NewGroup, IsSystemic, FirstNear;
      ghost var members := GroupsOf(alerts);
      ghost var more := Placed(members, alert);
      ghost var ids := IdsOf(groups);
      assert (alerts + [alert])[..|alerts|] == alerts;
      var k := Position(alert);
      if k < |groups| {
        AbsorbDescribes(groups[k], members[k], alert);
        IdsKept(groups, k, Absorb(groups[k], alert));
        groups := groups[k := Absorb(groups[k], alert)];
      } else {
        NewDescribes(id, alert);
        IdsAppended(groups, NewGroup(id, alert));
        groups := groups + [NewGroup(id, alert)];
      }
      alerts := alerts + [alert];
      DescribesMeans(groups[k], more[k]);
      CountIfNew(k, ids, members, more);
    }

    method CountIfNew(k: nat, ghost ids: seq<string>, ghost members: seq<seq<Alert>>, ghost more: seq<seq<Alert>>)
      requires GrownAt(members, more, k) && |groups| == |more|
      requires Records(rootCauses, ids, members) && IdsGrown(ids, IdsOf(groups))
      requires IsSystemic(groups[k]) <==> SpansServices(more[k])
      requires more[k] != [] && groups[k].rootCause == CauseOf(more[k]) && groups[k].lastSeenAt == Latest(more[k])
      requires k < |members| ==>
        && more[k] == members[k] + [more[k][|more[k]| - 1]]
        && (groups[k].counted <==> SpansServices(members[k]))
      requires k == |members| ==> !groups[k].counted && |more[k]| == 1
      modifies `groups, `rootCauses
      ensures Records(rootCauses, IdsOf(groups), more)
      ensures groups == old(groups)[k := old(groups)[k].(counted := SpansServices(more[k]))]
      ensures IdsOf(groups) == IdsOf(old(groups))
    {
      IdsAre(groups);
      if k < |members| {
        assert more[k][..|more[k]| - 1] == members[k];
        if SpansServices(members[k]) {
          SpansGrows(members[k], more[k][|more[k]| - 1]);
        }
      } else {
        OneSpansNothing(more[k]);
      }
      hide Records, Recorded, IdsOf, IdsGrown, Latest, CauseOf, SpansServices;
      var group := groups[k];
      if IsSystemic(group) && !group.counted {
        RecordsOneMore(rootCauses, ids, IdsOf(groups), members, more, k, group);
        var counted := group.(counted := true);
        IdsKept(groups, k, counted);
        groups, rootCauses := groups[k := counted], Recorded(rootCauses, group);
      } else {
        RecordsSame(rootCauses, ids, IdsOf(groups), members, more, k);
      }
    }
  }
}
