/**
 * Rendering of label sets in the Prometheus text format 0.0.4
 * (backend/src/custom_metrics.rs), with a reader that inverts it.
 */
module MetricLabels {
  import opened Wrappers
  import opened Text
  import Lex

  type Tags = map<string, string>

  // ---------------------------------------------------------------------
  // Printing
  // ---------------------------------------------------------------------

  predicate IsAsciiAlphabetic(c: char) {
    'a' <= c <= 'z' || 'A' <= c <= 'Z'
  }

  predicate IsValidLabelName(name: string) {
    && name != []
    && (IsAsciiAlphabetic(name[0]) || name[0] == '_')
    && (forall i :: 1 <= i < |name| ==> IsAsciiAlphabetic(name[i]) || IsDigit(name[i]) || name[i] == '_')
    && !(|name| >= 2 && name[0] == '_' && name[1] == '_')
  }

  /** Letters and digits by their ASCII codes. */
  predicate IsWordCode(code: int) {
    48 <= code <= 57 || 65 <= code <= 90 || 97 <= code <= 122
  }

  /** A label name is a word of letters, digits and underscores that opens with no digit and no `__`. */
  lemma LabelNameMeans(name: string)
    ensures IsValidLabelName(name) <==>
      && (forall c :: c in name ==> IsWordCode(c as int) || c == '_')
      && name != [] && !(48 <= name[0] as int <= 57)
      && !("__" <= name)
  {
    if forall c :: c in name ==> IsWordCode(c as int) || c == '_' {
      assert forall i :: 0 <= i < |name| ==> name[i] in name;
    }
  }

  /** Three replaces, one after the other. */
  function EscapePrometheus(value: string): string {
    Replace(Replace(Replace(value, '\\', "\\\\"), '\n', "\\n"), '"', "\\\"")
  }

  function EscapeChar(c: char): string {
    if c == '\\' then "\\\\" else if c == '\n' then "\\n" else if c == '"' then "\\\"" else [c]
  }

  /** The same in one pass. */
  function Escaped(value: string): string {
    if value == [] then [] else EscapeChar(value[0]) + Escaped(value[1..])
  }

  lemma EscapeOne(c: char)
    ensures EscapePrometheus([c]) == EscapeChar(c)
  {
    ReplaceOne(c, '\\', "\\\\");
    if c == '\\' {
      assert "\\\\"[1..] == "\\";
      assert Replace("\\\\", '\n', "\\n") == "\\\\";
      assert Replace("\\\\", '"', "\\\"") == "\\\\";
    } else {
      ReplaceOne(c, '\n', "\\n");
      if c == '\n' {
        assert "\\n"[1..] == "n";
        assert Replace("\\n", '"', "\\\"") == "\\n";
      } else {
        ReplaceOne(c, '"', "\\\"");
      }
    }
  }

  lemma {:induction false} EscapeIsOnePass(value: string)
    ensures EscapePrometheus(value) == Escaped(value)
  {
    if value != [] {
      var c, rest := value[0], value[1..];
      EscapeIsOnePass(rest);
      EscapeOne(c);
      hide EscapeChar;
      var one, more := Replace([c], '\\', "\\\\"), Replace(rest, '\\', "\\\\");
      assert value == [c] + rest;
      ReplaceConcat([c], rest, '\\', "\\\\");
      ReplaceConcat(one, more, '\n', "\\n");
      ReplaceConcat(Replace(one, '\n', "\\n"), Replace(more, '\n', "\\n"), '"', "\\\"");
    }
  }

  /** Tag pairs in key order. */
  ghost function SortedPairs(tags: Tags): seq<(string, string)>
    decreases |tags|
  {
    if tags == map[] then []
    else
      FirstKeyExists(tags.Keys);
      var k :| IsFirstKey(tags.Keys, k);
      [(k, tags[k])] + SortedPairs(tags - {k})
  }

  ghost predicate IsFirstKey(keys: set<string>, k: string) {
    k in keys && forall j :: j in keys ==> Lex.Leq(k, j)
  }

  lemma {:induction false} FirstKeyExists(keys: set<string>)
    requires keys != {}
    ensures exists k :: IsFirstKey(keys, k)
    decreases keys
  {
    var k :| k in keys;
    Lex.Total(k, k);
    if keys == {k} {
      assert IsFirstKey(keys, k);
    } else {
      var rest := keys - {k};
      assert rest != {} by {
        assert keys == rest + {k};
      }
      FirstKeyExists(rest);
      var j :| IsFirstKey(rest, j);
      Lex.Total(j, k);
      if Lex.Leq(j, k) {
        assert IsFirstKey(keys, j);
      } else {
        forall i | i in keys
          ensures Lex.Leq(k, i)
        {
          if i != k {
            Lex.Transitive(k, j, i);
          }
        }
        assert IsFirstKey(keys, k);
      }
    }
  }

  function Rendered(pairs: seq<(string, string)>): string {
    if pairs == [] then []
    else
      pairs[0].0 + (['=', '"'] + (EscapePrometheus(pairs[0].1) +
        (['"'] + if |pairs| == 1 then [] else [','] + Rendered(pairs[1..]))))
  }

  ghost function FormatLabels(tags: Tags): string {
    if tags == map[] then [] else ['{'] + (Rendered(SortedPairs(tags)) + ['}'])
  }

  /** The loop behind the sorted rendering: repeatedly take the first remaining key. */
  method SortTags(tags: Tags) returns (pairs: seq<(string, string)>)
    ensures pairs == SortedPairs(tags)
  {
    pairs := [];
    var rest := tags;
    while rest != map[]
      invariant pairs + SortedPairs(rest) == SortedPairs(tags)
      decreases |rest|
    {
      FirstKeyExists(rest.Keys);
      var k := FirstKey(rest.Keys);
      OneFirstKey(rest, k);
      Reassociate(pairs, (k, rest[k]), SortedPairs(rest - {k}));
      pairs := pairs + [(k, rest[k])];
      rest := rest - {k};
    }
  }

  lemma Reassociate<T>(a: seq<T>, x: T, b: seq<T>)
    ensures a + ([x] + b) == (a + [x]) + b
  {
  }

  lemma OneFirstKey(tags: Tags, k: string)
    requires IsFirstKey(tags.Keys, k)
    ensures SortedPairs(tags) == [(k, tags[k])] + SortedPairs(tags - {k})
  {
    forall j | IsFirstKey(tags.Keys, j)
      ensures j == k
    {
      Lex.AntiSymmetric(j, k);
    }
  }

  method FirstKey(keys: set<string>) returns (k: string)
    requires keys != {}
    ensures IsFirstKey(keys, k)
  {
    var rest := keys;
    k :| k in rest;
    Lex.Total(k, k);
    rest := rest - {k};
    while rest != {}
      invariant rest <= keys && k in keys - rest
      invariant forall j :: j in keys - rest ==> Lex.Leq(k, j)
      decreases rest
    {
      var j :| j in rest;
      Lex.Total(j, k);
      Lex.Total(j, j);
      if !Lex.Leq(k, j) {
        forall i | i in keys - rest
          ensures Lex.Leq(j, i)
        {
          Lex.Transitive(j, k, i);
        }
        k := j;
      }
      rest := rest - {j};
    }
  }

  // ---------------------------------------------------------------------
  // Reading
  // ---------------------------------------------------------------------

  /** A label value after its opening quote, up to the closing one. */
  function ReadValue(s: string): Option<(string, string)> {
    if s == [] then None
    else if s[0] == '"' then Some(([], s[1..]))
    else if s[0] == '\\' then
      if |s| == 1 then None
      else Push(if s[1] == 'n' then '\n' else s[1], ReadValue(s[2..]))
    else Push(s[0], ReadValue(s[1..]))
  }

  /** A label name, up to the equals sign. */
  function ReadName(s: string): Option<(string, string)> {
    if s == [] then None
    else if s[0] == '=' then Some(([], s[1..]))
    else Push(s[0], ReadName(s[1..]))
  }

  function ReadPairs(s: string): Option<seq<(string, string)>>
    decreases |s|
  {
    match ReadName(s)
    case None => None
    case Some((name, s1)) =>
      match Expect(['"'], s1)
      case None => None
      case Some(s2) =>
        match ReadValue(s2)
        case None => None
        case Some((value, s3)) =>
          if s3 == ['}'] then Some([(name, value)])
          else if s3 == [] || s3[0] != ',' || |s3| > |s| then None
          else
            match ReadPairs(s3[1..])
            case None => None
            case Some(more) => Some([(name, value)] + more)
  }

  function PairsToMap(pairs: seq<(string, string)>): Tags {
    if pairs == [] then map[] else PairsToMap(pairs[1..])[pairs[0].0 := pairs[0].1]
  }

  function ReadLabels(s: string): Option<Tags> {
    if s == [] then Some(map[])
    else if s[0] != '{' then None
    else
      match ReadPairs(s[1..])
      case None => None
      case Some(pairs) => Some(PairsToMap(pairs))
  }

  lemma {:induction false} NameReadsBack(name: string, rest: string)
    requires '=' !in name
    ensures ReadName(name + (['='] + rest)) == Some((name, rest))
  {
    var s := name + (['='] + rest);
    if name == [] {
      assert s == ['='] + rest;
    } else {
      assert s[1..] == name[1..] + (['='] + rest);
      NameReadsBack(name[1..], rest);
      assert name == [name[0]] + name[1..];
    }
  }

  lemma CharReadsBack(c: char, tail: string)
    ensures ReadValue(EscapeChar(c) + tail) == Push(c, ReadValue(tail))
  {
    var s := EscapeChar(c) + tail;
    assert s[|EscapeChar(c)|..] == tail;
  }

  lemma {:induction false} ValueReadsBack(value: string, rest: string)
    ensures ReadValue(Escaped(value) + (['"'] + rest)) == Some((value, rest))
  {
    var end := ['"'] + rest;
    if value == [] {
      assert Escaped(value) + end == end;
      assert end[1..] == rest;
    } else {
      hide ReadValue, EscapeChar;
      var first, more := EscapeChar(value[0]), Escaped(value[1..]);
      ValueReadsBack(value[1..], rest);
      Assoc(first, more, end);
      CharReadsBack(value[0], more + end);
      assert value == [value[0]] + value[1..];
    }
  }

  lemma RegroupPair(k: string, e: string, next: string, end: string)
    ensures (k + (['=', '"'] + (e + (['"'] + next)))) + end == k + (['=', '"'] + (e + (['"'] + (next + end))))
  {
  }

  ghost predicate ValidNames(pairs: seq<(string, string)>) {
    forall i :: 0 <= i < |pairs| ==> IsValidLabelName(pairs[i].0)
  }

  lemma ValidHasNoEquals(name: string)
    requires IsValidLabelName(name)
    ensures '=' !in name
  {
  }

  /** One pair reads back, and leaves the reader at what follows its closing quote. */
  lemma PairReadsBack(name: string, value: string, next: string)
    requires IsValidLabelName(name)
    ensures
      var s := name + (['=', '"'] + (EscapePrometheus(value) + (['"'] + next)));
      ReadPairs(s) ==
        if next == ['}'] then Some([(name, value)])
        else if next == [] || next[0] != ',' then None
        else
          match ReadPairs(next[1..])
          case None => None
          case Some(more) => Some([(name, value)] + more)
  {
    hide EscapePrometheus, Escaped, ReadName, ReadValue, IsValidLabelName;
    var s := name + (['=', '"'] + (EscapePrometheus(value) + (['"'] + next)));
    var s2 := EscapePrometheus(value) + (['"'] + next);
    assert ['=', '"'] + s2 == ['='] + (['"'] + s2);
    ValidHasNoEquals(name);
    NameReadsBack(name, ['"'] + s2);
    ExpectFinds(['"'], s2);
    EscapeIsOnePass(value);
    ValueReadsBack(value, next);
  }

  lemma {:induction false} PairsReadBack(pairs: seq<(string, string)>)
    requires pairs != [] && ValidNames(pairs)
    ensures ReadPairs(Rendered(pairs) + ['}']) == Some(pairs)
    decreases |pairs|
  {
    hide EscapePrometheus, ReadPairs, IsValidLabelName;
    var next := if |pairs| == 1 then [] else [','] + Rendered(pairs[1..]);
    assert IsValidLabelName(pairs[0].0);
    RegroupPair(pairs[0].0, EscapePrometheus(pairs[0].1), next, ['}']);
    PairReadsBack(pairs[0].0, pairs[0].1, next + ['}']);
    if |pairs| == 1 {
      assert next + ['}'] == ['}'];
      assert pairs == [pairs[0]];
    } else {
      assert (next + ['}'])[0] == ',' && (next + ['}'])[1..] == Rendered(pairs[1..]) + ['}'];
      assert ValidNames(pairs[1..]);
      PairsReadBack(pairs[1..]);
      assert pairs == [pairs[0]] + pairs[1..];
    }
  }

  /** The pairs list exactly the tags. */
  ghost predicate ListTags(pairs: seq<(string, string)>, tags: Tags) {
    && PairsToMap(pairs) == tags && (tags != map[] ==> pairs != [])
    && forall i :: 0 <= i < |pairs| ==> pairs[i].0 in tags
  }

  lemma ListOneMore(pairs: seq<(string, string)>, tags: Tags, k: string)
    requires k in tags && ListTags(pairs, tags - {k})
    ensures ListTags([(k, tags[k])] + pairs, tags)
  {
    var more := [(k, tags[k])] + pairs;
    assert more[1..] == pairs;
    assert tags == (tags - {k})[k := tags[k]];
  }

  lemma {:induction false} SortedPairsAreTags(tags: Tags)
    ensures ListTags(SortedPairs(tags), tags)
    decreases |tags|
  {
    if tags != map[] {
      FirstKeyExists(tags.Keys);
      var k :| IsFirstKey(tags.Keys, k);
      OneFirstKey(tags, k);
      hide SortedPairs, ListTags;
      SortedPairsAreTags(tags - {k});
      ListOneMore(SortedPairs(tags - {k}), tags, k);
    }
  }

  ghost predicate ValidTags(tags: Tags) {
    forall k :: k in tags ==> IsValidLabelName(k)
  }

  /** The reader gets back every label set with valid names, whatever its values hold. */
  lemma LabelsRoundTrip(tags: Tags)
    requires ValidTags(tags)
    ensures ReadLabels(FormatLabels(tags)) == Some(tags)
  {
    if tags != map[] {
      hide IsValidLabelName, Rendered, ReadPairs, SortedPairs, PairsToMap;
      var pairs := SortedPairs(tags);
      SortedPairsAreTags(tags);
      PairsReadBack(pairs);
      assert FormatLabels(tags)[1..] == Rendered(pairs) + ['}'];
    }
  }

  /** So the rendered text identifies the label set. */
  lemma LabelsInjective(a: Tags, b: Tags)
    requires ValidTags(a) && ValidTags(b)
    ensures FormatLabels(a) == FormatLabels(b) <==> a == b
  {
    LabelsRoundTrip(a);
    LabelsRoundTrip(b);
  }

  /** Validation is needed: without it two different label sets can render alike. */
  lemma UnvalidatedLabelsCollide()
    ensures
      var a: Tags := map["a" := "x", "b" := "y"];
      var b: Tags := map["a=\"x\",b" := "y"];
      a != b && FormatLabels(a) == FormatLabels(b)
  {
    var a: Tags := map["a" := "x", "b" := "y"];
    var b: Tags := map["a=\"x\",b" := "y"];
    assert "a" in a && "a" !in b;
    TwoTags("x", "y");
    OneTag("a=\"x\",b", "y");
    RenderedTwo();
    hide SortedPairs, Rendered;
  }

  lemma TwoTags(x: string, y: string)
    ensures SortedPairs(map["a" := x, "b" := y]) == [("a", x), ("b", y)]
  {
    var a: Tags := map["a" := x, "b" := y];
    assert IsFirstKey(a.Keys, "a");
    OneFirstKey(a, "a");
    assert a - {"a"} == map["b" := y];
    OneTag("b", y);
  }

  lemma RenderedTwo()
    ensures Rendered([("a", "x"), ("b", "y")]) == "a=\"x\",b=\"y\"" == Rendered([("a=\"x\",b", "y")])
  {
    EscapeOne('x');
    EscapeOne('y');
    assert [("a", "x"), ("b", "y")][1..] == [("b", "y")];
    assert Rendered([("b", "y")]) == "b=\"y\"";
  }

  lemma OneTag(k: string, v: string)
    ensures SortedPairs(map[k := v]) == [(k, v)]
  {
    var tags: Tags := map[k := v];
    Lex.Total(k, k);
    assert IsFirstKey(tags.Keys, k);
    OneFirstKey(tags, k);
    assert tags - {k} == map[];
  }
}
