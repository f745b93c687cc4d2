/**
 * Exporting recorded points as one sample per label set
 * (backend/src/custom_metrics.rs): points are grouped by their rendered labels.
 */
module MetricExport {
  import opened Wrappers
  import opened MetricLabels
  import MapSum

  datatype Point = Point(timestamp: int, value: real, tags: Tags)

  datatype Kind = Counter | Gauge

  type Samples = map<string, real>

  // ---------------------------------------------------------------------
  // What a sample means
  // ---------------------------------------------------------------------

  /** The points carrying exactly `tags`, in recording order. */
  function WithTags(points: seq<Point>, tags: Tags): seq<Point> {
    if points == [] then []
    else
      var last := points[|points| - 1];
      WithTags(points[..|points| - 1], tags) + if last.tags == tags then [last] else []
  }

  function Total(points: seq<Point>): real {
    if points == [] then 0.0 else Total(points[..|points| - 1]) + points[|points| - 1].value
  }

  /** The newest point, and the last recorded of equally new ones. */
  function Newest(points: seq<Point>): Point
    requires points != []
  {
    if |points| == 1 then points[0]
    else
      var before := Newest(points[..|points| - 1]);
      if points[|points| - 1].timestamp >= before.timestamp then points[|points| - 1] else before
  }

  /** No point is newer, and none recorded later is as new. */
  lemma {:induction false} NewestIsNewest(points: seq<Point>) returns (i: nat)
    requires points != []
    ensures i < |points| && Newest(points) == points[i]
    ensures forall j :: 0 <= j < |points| ==> points[j].timestamp <= points[i].timestamp
    ensures forall j :: i < j < |points| ==> points[j].timestamp < points[i].timestamp
  {
    var n := |points| - 1;
    if n == 0 {
      i := 0;
    } else {
      i := NewestIsNewest(points[..n]);
      if points[n].timestamp >= points[i].timestamp {
        i := n;
      }
    }
  }

  // ---------------------------------------------------------------------
  // Grouping by rendered labels
  // ---------------------------------------------------------------------

  ghost function WithLabels(points: seq<Point>, labels: string): seq<Point> {
    if points == [] then []
    else
      var last := points[|points| - 1];
      WithLabels(points[..|points| - 1], labels) + if FormatLabels(last.tags) == labels then [last] else []
  }

  ghost predicate ValidPoints(points: seq<Point>) {
    forall i :: 0 <= i < |points| ==> ValidTags(points[i].tags)
  }

  /** Points end up in one group exactly when their tags are equal. */
  lemma {:induction false} GroupsAreLabelSets(points: seq<Point>, tags: Tags)
    requires ValidPoints(points) && ValidTags(tags)
    ensures WithLabels(points, FormatLabels(tags)) == WithTags(points, tags)
  {
    if points != [] {
      hide FormatLabels, ValidTags;
      GroupsAreLabelSets(points[..|points| - 1], tags);
      LabelsInjective(points[|points| - 1].tags, tags);
    }
  }

  ghost predicate Grouped(points: seq<Point>, groups: map<string, seq<Point>>) {
    && (forall l :: l in groups ==> groups[l] == WithLabels(points, l) && groups[l] != [])
    && (forall i :: 0 <= i < |points| ==> FormatLabels(points[i].tags) in groups)
  }

  lemma GroupedMore(points: seq<Point>, p: Point, groups: map<string, seq<Point>>)
    requires Grouped(points, groups)
    ensures
      var l := FormatLabels(p.tags);
      Grouped(points + [p], groups[l := (if l in groups then groups[l] else []) + [p]])
  {
    hide FormatLabels;
    var more, key := points + [p], FormatLabels(p.tags);
    assert more[..|points|] == points;
    if key !in groups {
      NoneWithLabels(points, key, groups);
    }
    forall i | 0 <= i < |more|
      ensures FormatLabels(more[i].tags) in groups.Keys + {key}
    {
      if i < |points| {
        assert more[i] == points[i];
      }
    }
  }

  lemma {:induction false} NoneWithLabels(points: seq<Point>, key: string, groups: map<string, seq<Point>>)
    requires forall i :: 0 <= i < |points| ==> FormatLabels(points[i].tags) in groups
    requires key !in groups
    ensures WithLabels(points, key) == []
  {
    hide FormatLabels;
    if points != [] {
      NoneWithLabels(points[..|points| - 1], key, groups);
    }
  }

  /** The rendered labels of a point. */
  method Render(tags: Tags) returns (labels: string)
    ensures labels == FormatLabels(tags)
  {
    if tags == map[] {
      labels := [];
    } else {
      var pairs := SortTags(tags);
      labels := ['{'] + (Rendered(pairs) + ['}']);
    }
  }

  method GroupByLabels(points: seq<Point>) returns (groups: map<string, seq<Point>>)
    ensures Grouped(points, groups)
  {
    groups := map[];
    for i := 0 to |points|
      invariant Grouped(points[..i], groups)
    {
      hide FormatLabels, Grouped;
      var labels := Render(points[i].tags);
      GroupedMore(points[..i], points[i], groups);
      assert points[..i + 1] == points[..i] + [points[i]];
      groups := groups[labels := (if labels in groups then groups[labels] else []) + [points[i]]];
    }
    assert points[..|points|] == points;
  }

  /** The value of one group: a counter's total, otherwise the newest value. */
  function SampleOf(kind: Option<Kind>, group: seq<Point>): real
    requires group != []
  {
    if kind == Some(Counter) then Total(group) else Newest(group).value
  }

  method SumOf(group: seq<Point>) returns (total: real)
    ensures total == Total(group)
  {
    total := 0.0;
    for i := 0 to |group|
      invariant total == Total(group[..i])
    {
      assert group[..i + 1][..i] == group[..i];
      total := total + group[i].value;
    }
    assert group[..|group|] == group;
  }

  /** `max_by_key` keeps the last of equal maxima. */
  method MaxByTimestamp(group: seq<Point>) returns (p: Point)
    requires group != []
    ensures p == Newest(group)
  {
    p := group[0];
    for i := 1 to |group|
      invariant p == Newest(group[..i])
    {
      assert group[..i + 1][..i] == group[..i];
      if group[i].timestamp >= p.timestamp {
        p := group[i];
      }
    }
    assert group[..|group|] == group;
  }

  /** The samples `export_prometheus` prints for one metric, keyed by their rendered labels. */
  method ExportSamples(kind: Option<Kind>, points: seq<Point>) returns (samples: Samples)
    ensures samples == Exported(kind, points)
  {
    hide FormatLabels, WithLabels, Total, Newest;
    var groups := GroupByLabels(points);
    samples := map[];
    var rest := groups.Keys;
    while rest != {}
      invariant rest <= groups.Keys
      invariant samples == map l | l in groups.Keys - rest :: SampleOf(kind, groups[l])
      decreases rest
    {
      var l :| l in rest;
      var value;
      if kind == Some(Counter) {
        value := SumOf(groups[l]);
      } else {
        var p := MaxByTimestamp(groups[l]);
        value := p.value;
      }
      samples := samples[l := value];
      rest := rest - {l};
    }
    assert groups.Keys - rest == groups.Keys;
    GroupedIsExported(kind, points, groups);
  }

  /** One sample for every label set among the points. */
  ghost function Exported(kind: Option<Kind>, points: seq<Point>): Samples {
    map l | l in LabelsOf(points) :: if WithLabels(points, l) == [] then 0.0 else SampleOf(kind, WithLabels(points, l))
  }

  ghost function LabelsOf(points: seq<Point>): set<string> {
    set i | 0 <= i < |points| :: FormatLabels(points[i].tags)
  }

  lemma {:induction false} WithLabelsNonEmpty(points: seq<Point>, i: nat)
    requires i < |points|
    ensures WithLabels(points, FormatLabels(points[i].tags)) != []
  {
    hide FormatLabels;
    if i < |points| - 1 {
      WithLabelsNonEmpty(points[..|points| - 1], i);
    }
  }

  lemma {:induction false} WithLabelsIn(points: seq<Point>, l: string)
    requires WithLabels(points, l) != []
    ensures l in LabelsOf(points)
  {
    hide FormatLabels;
    var n := |points| - 1;
    if FormatLabels(points[n].tags) != l {
      WithLabelsIn(points[..n], l);
      var i :| 0 <= i < n && FormatLabels(points[..n][i].tags) == l;
      assert points[i] == points[..n][i];
    }
  }

  lemma GroupedIsExported(kind: Option<Kind>, points: seq<Point>, groups: map<string, seq<Point>>)
    requires Grouped(points, groups)
    ensures (map l | l in groups :: SampleOf(kind, groups[l])) == Exported(kind, points)
  {
    hide FormatLabels, SampleOf, WithLabels;
    forall l | l in groups
      ensures l in LabelsOf(points)
    {
      WithLabelsIn(points, l);
    }
    assert groups.Keys == LabelsOf(points);
  }

  // ---------------------------------------------------------------------
  // What the export says
  // ---------------------------------------------------------------------

  /** Every sample is the total, or the newest value, of exactly the points with its tags. */
  lemma SamplesAreExact(kind: Option<Kind>, points: seq<Point>, tags: Tags)
    requires ValidPoints(points) && ValidTags(tags)
    ensures
      var samples, mine := Exported(kind, points), WithTags(points, tags);
      && (FormatLabels(tags) in samples <==> mine != [])
      && (mine != [] ==>
            samples[FormatLabels(tags)] == if kind == Some(Counter) then Total(mine) else Newest(mine).value)
  {
    hide FormatLabels, ValidTags, Total, Newest, WithLabels, WithTags;
    GroupsAreLabelSets(points, tags);
    var l := FormatLabels(tags);
    if WithLabels(points, l) != [] {
      WithLabelsIn(points, l);
    } else if l in LabelsOf(points) {
      var i :| 0 <= i < |points| && FormatLabels(points[i].tags) == l;
      WithLabelsNonEmpty(points, i);
    }
  }

  lemma CounterSample(points: seq<Point>, l: string)
    ensures MapSum.At(Exported(Some(Counter), points), l) == Total(WithLabels(points, l))
  {
    hide FormatLabels;
    if WithLabels(points, l) != [] {
      WithLabelsIn(points, l);
    }
  }

  lemma ExportedKeys(kind: Option<Kind>, points: seq<Point>)
    ensures Exported(kind, points).Keys == LabelsOf(points)
    ensures Exported(kind, []) == map[]
  {
    hide FormatLabels, SampleOf, WithLabels;
  }

  lemma CounterGrows(before: seq<Point>, p: Point)
    ensures
      var l, samples := FormatLabels(p.tags), Exported(Some(Counter), before);
      Exported(Some(Counter), before + [p]) == samples[l := MapSum.At(samples, l) + p.value]
  {
    hide FormatLabels, Exported, LabelsOf;
    var points, key := before + [p], FormatLabels(p.tags);
    var samples, after := Exported(Some(Counter), before), Exported(Some(Counter), points);
    ExportedKeys(Some(Counter), before);
    ExportedKeys(Some(Counter), points);
    LabelsGrow(before, p);
    forall l
      ensures MapSum.At(after, l) == MapSum.At(samples, l) + if l == key then p.value else 0.0
    {
      CounterSample(before, l);
      CounterSample(points, l);
      assert points[..|before|] == before;
      TotalAppend(WithLabels(before, l), p);
      assert WithLabels(before, l) + [] == WithLabels(before, l);
    }
    SameMaps(after, samples[key := MapSum.At(samples, key) + p.value]);
  }

  lemma SameMaps(a: Samples, b: Samples)
    requires a.Keys == b.Keys && forall l :: MapSum.At(a, l) == MapSum.At(b, l)
    ensures a == b
  {
    forall l | l in a
      ensures a[l] == b[l]
    {
      assert MapSum.At(a, l) == MapSum.At(b, l);
    }
  }

  /** A counter's samples add up to everything recorded. */
  lemma {:induction false} CounterConservesTotal(points: seq<Point>)
    ensures MapSum.Sum(Exported(Some(Counter), points)) == Total(points)
  {
    hide FormatLabels, Exported;
    ExportedKeys(Some(Counter), points);
    if points != [] {
      hide MapSum.Sum;
      var before, p := points[..|points| - 1], points[|points| - 1];
      CounterConservesTotal(before);
      CounterGrows(before, p);
      assert points == before + [p];
      var l, samples := FormatLabels(p.tags), Exported(Some(Counter), before);
      MapSum.SumUpdate(samples, l, MapSum.At(samples, l) + p.value);
    }
  }

  lemma TotalAppend(group: seq<Point>, p: Point)
    ensures Total(group + [p]) == Total(group) + p.value
  {
    assert (group + [p])[..|group|] == group;
  }

  lemma LabelsGrow(before: seq<Point>, p: Point)
    ensures LabelsOf(before + [p]) == LabelsOf(before) + {FormatLabels(p.tags)}
  {
    hide FormatLabels;
    var points := before + [p];
    assert points[|before|] == p;
    forall i | 0 <= i < |before|
      ensures FormatLabels(before[i].tags) in LabelsOf(points)
    {
      assert points[i] == before[i];
    }
    forall i | 0 <= i < |points|
      ensures FormatLabels(points[i].tags) in LabelsOf(before) + {FormatLabels(p.tags)}
    {
      if i < |before| {
        assert points[i] == before[i];
      }
    }
  }
}
