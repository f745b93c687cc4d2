/**
 * The custom metric store (backend/src/custom_metrics.rs) over whole runs of
 * requests: what gets in, what kind a metric has, and what is then exported.
 */
module MetricStore {

  import opened Wrappers
  import opened Text
  import opened MetricLabels
  import opened MetricExport

  /** A floating-point number as far as validation tells them apart. */
  datatype Number = Finite(value: real) | NotFinite

  datatype Definition = Definition(name: string, kind: Kind, description: string, unit: string)

  datatype Request =
    | Record(name: string, number: Number, tags: Tags, at: int)
    | Define(def: Definition)

  predicate IsNameChar(c: char) {
    IsAsciiAlphabetic(c) || c == '_' || c == ':'
  }

  predicate IsValidMetricName(name: string) {
    && name != [] && IsNameChar(name[0])
    && forall i :: 1 <= i < |name| ==> IsNameChar(name[i]) || IsDigit(name[i])
  }

  /** A metric name is a word of letters, digits, underscores and colons that opens with no digit. */
  lemma MetricNameMeans(name: string)
    ensures IsValidMetricName(name) <==>
      && (forall c :: c in name ==> IsWordCode(c as int) || c == '_' || c == ':')
      && name != [] && !(48 <= name[0] as int <= 57)
  {
    if forall c :: c in name ==> IsWordCode(c as int) || c == '_' || c == ':' {
      assert forall i :: 0 <= i < |name| ==> name[i] in name;
    }
  }

  predicate IsValidPoint(name: string, number: Number, tags: Tags) {
    IsValidMetricName(name) && number.Finite? && forall k :: k in tags ==> IsValidLabelName(k)
  }

  // ---------------------------------------------------------------------
  // What a run of requests amounts to
  // ---------------------------------------------------------------------

  /** The points accepted for a metric, in order. */
  ghost function Series(run: seq<Request>, name: string): seq<Point> {
    if run == [] then []
    else
      var r := run[|run| - 1];
      Series(run[..|run| - 1], name)
      + if r.Record? && r.name == name && IsValidPoint(r.name, r.number, r.tags)
        then [Point(r.at, r.number.value, r.tags)] else []
  }

  /** The kind of the first definition of a metric. */
  ghost function KindOf(run: seq<Request>, name: string): Option<Kind> {
    if run == [] then None
    else
      var before, r := KindOf(run[..|run| - 1], name), run[|run| - 1];
      if before.None? && r.Define? && r.def.name == name && IsValidMetricName(name)
      then Some(r.def.kind) else before
  }

  /** Once declared, a kind stays whatever else is requested. */
  lemma {:induction false} KindIsFixed(run: seq<Request>, more: seq<Request>, name: string)
    ensures KindOf(run, name).Some? ==> KindOf(run + more, name) == KindOf(run, name)
  {
    if more == [] {
      assert run + more == run;
    } else {
      KindIsFixed(run, more[..|more| - 1], name);
      assert (run + more)[..|run + more| - 1] == run + more[..|more| - 1];
    }
  }

  lemma {:induction false} SeriesIsValid(run: seq<Request>, name: string)
    ensures ValidPoints(Series(run, name))
  {
    if run != [] {
      SeriesIsValid(run[..|run| - 1], name);
    }
  }

  /**
   * After any run, a metric exports one sample for each label set among its accepted points:
   * their total if it was first declared a counter, otherwise the newest value; and a counter's
   * samples add up to everything accepted.
   */
  lemma ExportAfterAnyRun(run: seq<Request>, name: string, tags: Tags)
    requires ValidTags(tags)
    ensures
      var kind, points := KindOf(run, name), Series(run, name);
      var samples, mine := Exported(kind, points), WithTags(points, tags);
      && (FormatLabels(tags) in samples <==> mine != [])
      && (mine != [] ==>
            samples[FormatLabels(tags)] == if kind == Some(Counter) then Total(mine) else Newest(mine).value)
      && (kind == Some(Counter) ==> MapSum.Sum(samples) == Total(points))
  {
    hide FormatLabels, Exported, WithTags, Newest, Total, MapSum.Sum, ValidTags, ValidPoints, Series, KindOf;
    SeriesIsValid(run, name);
    SamplesAreExact(KindOf(run, name), Series(run, name), tags);
    CounterConservesTotal(Series(run, name));
  }

  // ---------------------------------------------------------------------
  // The object
  // ---------------------------------------------------------------------

  ghost predicate Holds(series: map<string, seq<Point>>, run: seq<Request>) {
    forall name :: (if name in series then series[name] else []) == Series(run, name)
  }

  function Declared(definitions: map<string, Definition>, name: string): Option<Kind> {
    if name in definitions then Some(definitions[name].kind) else None
  }

  ghost predicate Declares(definitions: map<string, Definition>, run: seq<Request>) {
    && (forall name :: Declared(definitions, name) == KindOf(run, name))
    && (forall name :: name in definitions ==> definitions[name].name == name)
  }

  lemma RecordStep(series: map<string, seq<Point>>, run: seq<Request>, r: Request)
    requires r.Record? && Holds(series, run)
    ensures forall name :: KindOf(run + [r], name) == KindOf(run, name)
    ensures !IsValidPoint(r.name, r.number, r.tags) ==> Holds(series, run + [r])
    ensures IsValidPoint(r.name, r.number, r.tags) ==>
      var before, point := if r.name in series then series[r.name] else [], Point(r.at, r.number.value, r.tags);
      Holds(series[r.name := before + [point]], run + [r])
  {
    assert (run + [r])[..|run|] == run;
    var accepted := IsValidPoint(r.name, r.number, r.tags);
    assert accepted ==> r.number.Finite?;
    hide IsValidPoint;
    assert forall name :: Series(run, name) + [] == Series(run, name);
  }

  function Redefined(definitions: map<string, Definition>, def: Definition): map<string, Definition> {
    if IsValidMetricName(def.name) && Declared(definitions, def.name) in {None, Some(def.kind)}
    then definitions[def.name := def] else definitions
  }

  lemma DefineStep(definitions: map<string, Definition>, run: seq<Request>, def: Definition)
    requires Declares(definitions, run)
    ensures forall name :: Series(run + [Define(def)], name) == Series(run, name)
    ensures Declares(Redefined(definitions, def), run + [Define(def)])
  {
    hide IsValidMetricName, IsValidPoint;
    var run' := run + [Define(def)];
    assert run'[..|run|] == run;
    assert forall name :: Series(run, name) + [] == Series(run, name);
    forall name
      ensures Declared(Redefined(definitions, def), name) == KindOf(run', name)
    {
      assert Declared(definitions, name) == KindOf(run, name);
    }
  }

  class CustomMetricsStore {
    var series: map<string, seq<Point>>
    var definitions: map<string, Definition>
    ghost var run: seq<Request>

    ghost predicate Valid()
      reads this
    {
      Holds(series, run) && Declares(definitions, run)
    }

    constructor ()
      ensures Valid() && run == []
    {
      series, definitions, run := map[], map[], [];
    }

    /** `record_custom_metric`: stored exactly when the point is valid. */
    method RecordPoint(name: string, number: Number, tags: Tags, at: int) returns (accepted: bool)
      requires Valid()
      modifies this
      ensures Valid() && run == old(run) + [Record(name, number, tags, at)] && definitions == old(definitions)
      ensures accepted <==> IsValidMetricName(name) && number.Finite? && forall k :: k in tags ==> IsValidLabelName(k)
    {
      RecordStep(series, run, Record(name, number, tags, at));
      hide Holds, Series, KindOf;
      run := run + [Record(name, number, tags, at)];
      accepted := IsValidPoint(name, number, tags);
      if accepted {
        var point := Point(at, number.value, tags);
        series := series[name := (if name in series then series[name] else []) + [point]];
      }
    }

    /** Refused for an invalid name or a changed kind; otherwise the metadata is replaced. */
    method DefineMetric(def: Definition) returns (accepted: bool)
      requires Valid()
      modifies this
      ensures Valid() && run == old(run) + [Define(def)] && series == old(series)
      ensures accepted <==> IsValidMetricName(def.name) && KindOf(old(run), def.name) in {None, Some(def.kind)}
      ensures definitions == if accepted then old(definitions)[def.name := def] else old(definitions)
    {
      DefineStep(definitions, run, def);
      hide Series, KindOf, IsValidMetricName;
      run := run + [Define(def)];
      accepted := IsValidMetricName(def.name) && (def.name in definitions ==> definitions[def.name].kind == def.kind);
      if accepted {
        definitions := definitions[def.name := def];
      }
    }

    /** The samples printed for one metric. */
    method Export(name: string) returns (samples: Samples)
      requires Valid()
      ensures samples == Exported(KindOf(run, name), Series(run, name))
    {
      hide Exported, Series, KindOf;
      samples := ExportSamples(Declared(definitions, name), if name in series then series[name] else []);
    }
  }
}
