/**
 * The text side of the compliance report printer (backend/src/compliance.rs):
 * wrapping, escaping into literal strings, and splitting lines into pages.
 * A string stands for its bytes.
 */
module PdfText {
  import opened Wrappers
  import opened Text

  // ---------------------------------------------------------------------
  // Escaping
  // ---------------------------------------------------------------------

  /** Three replaces, one after the other. */
  function EscapeLine(line: string): string {
    Replace(Replace(Replace(line, '\\', "\\\\"), '(', "\\("), ')', "\\)")
  }

  function EscapeChar(c: char): string {
    if c == '\\' || c == '(' || c == ')' then ['\\', c] else [c]
  }

  /** The same in one pass. */
  function Escaped(line: string): string {
    if line == [] then [] else EscapeChar(line[0]) + Escaped(line[1..])
  }

  lemma {:induction false} EscapeIsOnePass(line: string)
    ensures EscapeLine(line) == Escaped(line)
  {
    if line != [] {
      var c, rest := line[0], line[1..];
      EscapeIsOnePass(rest);
      var one := Replace([c], '\\', "\\\\");
      ReplaceOne(c, '\\', "\\\\");
      var two := Replace(one, '(', "\\(");
      assert Replace(line, '\\', "\\\\") == one + Replace(rest, '\\', "\\\\");
      ReplaceConcat(one, Replace(rest, '\\', "\\\\"), '(', "\\(");
      ReplaceConcat(two, Replace(Replace(rest, '\\', "\\\\"), '(', "\\("), ')', "\\)");
      EscapeOne(c);
    }
  }

  lemma EscapeOne(c: char)
    ensures EscapeLine([c]) == EscapeChar(c)
  {
    ReplaceOne(c, '\\', "\\\\");
    if c == '\\' {
      assert "\\\\"[1..] == "\\";
      assert EscapeLine([c]) == Replace(Replace("\\\\", '(', "\\("), ')', "\\)");
      assert Replace("\\\\", '(', "\\(") == "\\\\";
      assert Replace("\\\\", ')', "\\)") == "\\\\";
    } else {
      ReplaceOne(c, '(', "\\(");
      if c == '(' {
        assert "\\("[1..] == "(";
        assert Replace("\\(", ')', "\\)") == "\\(";
      } else {
        ReplaceOne(c, ')', "\\)");
      }
    }
  }

  /**
   * Read a literal string after its opening parenthesis: balanced parentheses,
   * backslash escapes and end-of-line markers as in section 7.3.4.2 of
   * ISO 32000-1, without octal codes. Returns the content and what follows.
   */
  function ReadLiteral(s: string, depth: nat): Option<(string, string)>
    decreases |s|
  {
    if s == [] then None
    else if s[0] == ')' then
      if depth == 0 then Some(([], s[1..])) else Push(')', ReadLiteral(s[1..], depth - 1))
    else if s[0] == '(' then Push('(', ReadLiteral(s[1..], depth + 1))
    else if s[0] == '\\' then
      if |s| == 1 then None
      else if s[1] == '\n' then ReadLiteral(s[2..], depth)
      else if s[1] == '\r' then ReadLiteral(if |s| > 2 && s[2] == '\n' then s[3..] else s[2..], depth)
      else Push(Unescape(s[1]), ReadLiteral(s[2..], depth))
    else if s[0] == '\r' then
      Push('\n', ReadLiteral(if |s| > 1 && s[1] == '\n' then s[2..] else s[1..], depth))
    else Push(s[0], ReadLiteral(s[1..], depth))
  }

  function Unescape(c: char): char {
    if c == 'n' then '\n'
    else if c == 'r' then '\r'
    else if c == 't' then '\t'
    else if c == 'b' then 8 as char
    else if c == 'f' then 12 as char
    else c
  }

  /** A line as a reader sees it: every end-of-line marker is a line feed. */
  function Normalized(line: string): string {
    if line == [] then []
    else if line[0] == '\r' then
      ['\n'] + Normalized(if |line| > 1 && line[1] == '\n' then line[2..] else line[1..])
    else [line[0]] + Normalized(line[1..])
  }

  lemma ReadsChar(c: char, tail: string)
    requires c != '\r'
    ensures ReadLiteral(EscapeChar(c) + tail, 0) == Push(c, ReadLiteral(tail, 0))
  {
    var s := EscapeChar(c) + tail;
    assert s[|EscapeChar(c)|..] == tail;
  }

  lemma ReadsReturn(tail: string)
    ensures ReadLiteral(['\r', '\n'] + tail, 0) == Push('\n', ReadLiteral(tail, 0))
    ensures tail != [] && tail[0] != '\n' ==> ReadLiteral(['\r'] + tail, 0) == Push('\n', ReadLiteral(tail, 0))
  {
    assert (['\r', '\n'] + tail)[2..] == tail;
    assert (['\r'] + tail)[1..] == tail;
  }

  lemma EscapedFirst(line: string, end: string)
    requires line != []
    ensures Escaped(line) + end == EscapeChar(line[0]) + (Escaped(line[1..]) + end)
    ensures line[0] == '\r' || line[0] == '\n' ==> Escaped(line) + end == [line[0]] + (Escaped(line[1..]) + end)
    ensures Escaped([]) + end == end
    ensures (Escaped(line) + end)[0] == '\n' <==> line[0] == '\n'
  {
  }

  /** Reading an escaped line stops exactly at its closing parenthesis, whatever the line holds. */
  lemma {:induction false} EscapedReadsBack(line: string, rest: string)
    ensures ReadLiteral(Escaped(line) + ([')'] + rest), 0) == Some((Normalized(line), rest))
    decreases |line|
  {
    var end := [')'] + rest;
    if line == [] {
      assert Escaped(line) + end == end;
      assert end[1..] == rest;
    } else if line[0] != '\r' {
      hide ReadLiteral, Escaped, EscapeChar;
      EscapedFirst(line, end);
      ReadsChar(line[0], Escaped(line[1..]) + end);
      EscapedReadsBack(line[1..], rest);
    } else {
      ReturnReadsBack(line, end);
      EscapedReadsBack(if |line| > 1 && line[1] == '\n' then line[2..] else line[1..], rest);
    }
  }

  lemma ReturnReadsBack(line: string, end: string)
    requires line != [] && line[0] == '\r' && end != [] && end[0] == ')'
    ensures
      var more := if |line| > 1 && line[1] == '\n' then line[2..] else line[1..];
      ReadLiteral(Escaped(line) + end, 0) == Push('\n', ReadLiteral(Escaped(more) + end, 0))
  {
    hide ReadLiteral, Escaped, EscapeChar;
    EscapedFirst(line, end);
    if |line| == 1 {
      assert line[1..] == [];
      ReadsReturn(end);
    } else {
      EscapedFirst(line[1..], end);
      assert line[1..][1..] == line[2..];
      if line[1] == '\n' {
        var tail := Escaped(line[2..]) + end;
        assert ['\r'] + (['\n'] + tail) == ['\r', '\n'] + tail;
        ReadsReturn(tail);
      } else {
        ReadsReturn(Escaped(line[1..]) + end);
      }
    }
  }

  lemma {:induction false} NormalizedHasNoReturns(line: string)
    ensures '\r' !in Normalized(line)
    decreases |line|
  {
    if line != [] {
      NormalizedHasNoReturns(line[1..]);
      if |line| > 1 {
        NormalizedHasNoReturns(line[2..]);
      }
    }
  }

  lemma {:induction false} NormalizedKeeps(line: string)
    requires '\r' !in line
    ensures Normalized(line) == line
  {
    if line != [] {
      NormalizedKeeps(line[1..]);
    }
  }

  /** The round trip of one line is exact if and only if it holds no carriage return. */
  lemma EscapeRoundTrip(line: string, rest: string)
    ensures ReadLiteral(EscapeLine(line) + ([')'] + rest), 0) == Some((line, rest)) <==> '\r' !in line
  {
    EscapeIsOnePass(line);
    EscapedReadsBack(line, rest);
    NormalizedHasNoReturns(line);
    if '\r' !in line {
      NormalizedKeeps(line);
    }
  }

  // ---------------------------------------------------------------------
  // Pages
  // ---------------------------------------------------------------------

  const LINES_PER_PAGE: nat := 55

  function Chunks(lines: seq<string>): seq<seq<string>> {
    if |lines| <= LINES_PER_PAGE then [lines]
    else [lines[..LINES_PER_PAGE]] + Chunks(lines[LINES_PER_PAGE..])
  }

  function Flatten<T>(parts: seq<seq<T>>): seq<T> {
    if parts == [] then [] else parts[0] + Flatten(parts[1..])
  }

  /** No line is lost, repeated or moved, every page but the last is full, and there is always a page. */
  lemma {:induction false} ChunksFlatten(lines: seq<string>)
    ensures Flatten(Chunks(lines)) == lines && |Chunks(lines)| >= 1
    ensures forall i :: 0 <= i < |Chunks(lines)| - 1 ==> |Chunks(lines)[i]| == 55
    ensures |Chunks(lines)[|Chunks(lines)| - 1]| <= 55
    decreases |lines|
  {
    if |lines| > LINES_PER_PAGE {
      ChunksFlatten(lines[LINES_PER_PAGE..]);
      assert Chunks(lines)[1..] == Chunks(lines[LINES_PER_PAGE..]);
    } else {
      assert Chunks(lines)[1..] == [];
    }
  }

  // ---------------------------------------------------------------------
  // Wrapping
  // ---------------------------------------------------------------------

  function JoinWords(words: seq<string>): string {
    if words == [] then []
    else if |words| == 1 then words[0]
    else JoinWords(words[..|words| - 1]) + [' '] + words[|words| - 1]
  }

  predicate Fits(width: nat, group: seq<string>) {
    |group| == 1 || |JoinWords(group)| <= width
  }

  /** A greedy wrapping of `words`: consecutive groups, each fitting unless it is one long word, none extensible. */
  ghost predicate Wraps(words: seq<string>, groups: seq<seq<string>>, width: nat) {
    && Flatten(groups) == words
    && (forall i :: 0 <= i < |groups| ==> groups[i] != [] && Fits(width, groups[i]))
    && (forall i :: 0 <= i < |groups| - 1 ==> |JoinWords(groups[i])| + 1 + |groups[i + 1][0]| > width)
  }

  lemma {:induction false} FlattenAppend<T>(parts: seq<seq<T>>, last: seq<T>)
    ensures Flatten(parts + [last]) == Flatten(parts) + last
  {
    if parts == [] {
      assert (parts + [last])[1..] == [];
    } else {
      assert (parts + [last])[1..] == parts[1..] + [last];
      FlattenAppend(parts[1..], last);
    }
  }

  lemma WrapNewLine(words: seq<string>, groups: seq<seq<string>>, group: seq<string>, word: string, width: nat)
    requires Wraps(words, groups + [group], width) && |JoinWords(group)| + 1 + |word| > width
    ensures Wraps(words + [word], groups + [group] + [[word]], width)
  {
    hide JoinWords;
    FlattenAppend(groups + [group], [word]);
    var before, after := groups + [group], groups + [group] + [[word]];
    assert forall i :: 0 <= i < |before| ==> after[i] == before[i];
    assert after[|groups|] == group && after[|groups| + 1] == [word];
  }

  lemma WrapSameLine(words: seq<string>, groups: seq<seq<string>>, group: seq<string>, word: string, width: nat)
    requires Wraps(words, groups + [group], width) && |JoinWords(group)| + 1 + |word| <= width
    ensures Wraps(words + [word], groups + [group + [word]], width)
    ensures JoinWords(group + [word]) == JoinWords(group) + [' '] + word
  {
    FlattenAppend(groups, group);
    FlattenAppend(groups, group + [word]);
    assert (group + [word])[..|group|] == group;
    var before, after := groups + [group], groups + [group + [word]];
    assert before[|groups|] == group && after[|groups|] == group + [word];
    assert group != [] && (group + [word])[0] == group[0];
    assert forall i :: 0 <= i < |groups| ==> after[i] == before[i] == groups[i];
    forall i | 0 <= i < |after|
      ensures after[i] != [] && after[i][0] == before[i][0]
    {
      if i < |groups| {
        assert after[i] == before[i];
      }
    }
  }

  lemma WrapFirst(word: string, width: nat)
    ensures Wraps([word], [[word]], width)
  {
    assert [[word]][1..] == [];
  }

  /** The lines show the groups of a greedy wrapping of `words`. */
  ghost predicate WrapsTo(words: seq<string>, width: nat, lines: seq<string>) {
    exists groups :: Wraps(words, groups, width) && Shows(lines, groups)
  }

  ghost predicate Shows(lines: seq<string>, groups: seq<seq<string>>) {
    |lines| == |groups| && forall i :: 0 <= i < |lines| ==> lines[i] == JoinWords(groups[i])
  }

  /** The loop of `wrap_pdf_text` over the words. */
  method WrapWords(words: seq<string>, width: nat) returns (lines: seq<string>)
    requires forall i :: 0 <= i < |words| ==> words[i] != []
    ensures WrapsTo(words, width, lines)
  {
    lines := [];
    ghost var groups: seq<seq<string>> := [];
    var line: string := [];
    ghost var group: seq<string> := [];
    for k := 0 to |words|
      invariant Shows(lines, groups)
      invariant line == JoinWords(group) && (line == [] <==> k == 0)
      invariant k == 0 ==> groups == [] && group == []
      invariant k > 0 ==> Wraps(words[..k], groups + [group], width)
    {
      hide Wraps;
      assert words[..k + 1] == words[..k] + [words[k]];
      if line != [] && |line| + |words[k]| + 1 > width {
        WrapNewLine(words[..k], groups, group, words[k], width);
        lines := lines + [line];
        groups := groups + [group];
        line, group := [], [];
      }
      if line != [] {
        WrapSameLine(words[..k], groups, group, words[k], width);
        line := line + [' '];
      } else if k == 0 {
        WrapFirst(words[k], width);
        assert words[..k + 1] == [words[k]] && groups + [group + [words[k]]] == [[words[k]]];
      }
      assert group == [] ==> group + [words[k]] == [words[k]];
      line := line + words[k];
      group := group + [words[k]];
    }
    assert words[..|words|] == words;
    if line != [] {
      lines := lines + [line];
      groups := groups + [group];
    }
  }

  predicate IsAscii(c: char) {
    c as int < 128
  }

  /** Characters outside ASCII are replaced by question marks. */
  function AsciiOf(text: string): string {
    if text == [] then [] else [if IsAscii(text[0]) then text[0] else '?'] + AsciiOf(text[1..])
  }

  /** Character by character, in place. */
  lemma {:induction false} AsciiIs(text: string)
    ensures |AsciiOf(text)| == |text|
    ensures forall i :: 0 <= i < |text| ==> AsciiOf(text)[i] == if text[i] as int < 128 then text[i] else '?'
  {
    if text != [] {
      AsciiIs(text[1..]);
    }
  }

  /** White space among the ASCII characters. */
  predicate IsSpace(c: char) {
    c == ' ' || 9 <= c as int <= 13
  }

  /** Blank, tab, line feed, vertical tab, form feed and carriage return. */
  lemma SpacesAre(c: char)
    ensures IsSpace(c) <==> c in {' ', '\t', '\n', 11 as char, 12 as char, '\r'}
  {
  }

  /** Splitting at white space, told from the end of the text. */
  function SplitWhitespace(text: string): seq<string> {
    if text == [] then []
    else
      var before, c := text[..|text| - 1], text[|text| - 1];
      var words := SplitWhitespace(before);
      if IsSpace(c) then words
      else if before == [] || IsSpace(before[|before| - 1]) || words == [] then words + [[c]]
      else words[..|words| - 1] + [words[|words| - 1] + [c]]
  }

  /** The text without its white space. */
  function Solid(text: string): string {
    if text == [] then []
    else Solid(text[..|text| - 1]) + if IsSpace(text[|text| - 1]) then [] else [text[|text| - 1]]
  }

  ghost predicate IsWord(word: string) {
    word != [] && forall i :: 0 <= i < |word| ==> !IsSpace(word[i])
  }

  lemma FlattenGrown(words: seq<string>, c: char)
    requires words != []
    ensures Flatten(words[..|words| - 1] + [words[|words| - 1] + [c]]) == Flatten(words) + [c]
  {
    hide Flatten;
    var before, last := words[..|words| - 1], words[|words| - 1];
    FlattenAppend(before, last + [c]);
    FlattenAppend(before, last);
    assert before + [last] == words;
    Assoc(Flatten(before), last, [c]);
  }

  /** Words are solid and not empty, and together they are the text without its white space. */
  lemma {:induction false} WordsAreSolid(text: string)
    ensures forall i :: 0 <= i < |SplitWhitespace(text)| ==> IsWord(SplitWhitespace(text)[i])
    ensures Flatten(SplitWhitespace(text)) == Solid(text)
  {
    if text != [] {
      var before, c := text[..|text| - 1], text[|text| - 1];
      WordsAreSolid(before);
      var words := SplitWhitespace(before);
      FlattenAppend(words, [c]);
      if words != [] {
        FlattenGrown(words, c);
        assert IsWord(words[|words| - 1]);
      }
    }
  }

  /** A word begins at a character that is not white space and is first or follows white space. */
  predicate IsStart(text: string, i: nat)
    requires i < |text|
  {
    !IsSpace(text[i]) && (i == 0 || IsSpace(text[i - 1]))
  }

  function StartsOf(text: string): seq<nat> {
    if text == [] then []
    else
      var before := text[..|text| - 1];
      StartsOf(before) + if IsStart(text, |before|) then [|before|] else []
  }

  ghost predicate AllStarts(text: string, starts: seq<nat>) {
    && (forall i: nat :: i in starts <==> i < |text| && IsStart(text, i))
    && (forall j, k :: 0 <= j < k < |starts| ==> starts[j] < starts[k])
  }

  lemma AllStartsStep(text: string, starts: seq<nat>, c: char)
    requires AllStarts(text, starts)
    ensures AllStarts(text + [c], starts + if IsStart(text + [c], |text|) then [|text|] else [])
  {
    hide IsSpace;
    var more := text + [c];
    var added := if IsStart(more, |text|) then [|text|] else [];
    assert forall i: nat :: i < |text| ==> (IsStart(text, i) <==> IsStart(more, i));
    assert forall j :: 0 <= j < |starts| ==> starts[j] in starts;
    hide IsStart;
    assert forall i: nat :: i in starts + added <==> i in starts || i in added;
  }

  lemma {:induction false} StartsAreExact(text: string)
    ensures AllStarts(text, StartsOf(text))
  {
    if text != [] {
      hide AllStarts, IsStart;
      var before := text[..|text| - 1];
      StartsAreExact(before);
      AllStartsStep(before, StartsOf(before), text[|text| - 1]);
      assert text == before + [text[|text| - 1]];
    }
  }

  predicate EndsSolid(text: string) {
    text != [] && !IsSpace(text[|text| - 1])
  }

  ghost predicate WordAt(text: string, word: string, start: nat) {
    start + |word| <= |text| && text[start..start + |word|] == word
  }

  /** A word may end at `e`: before white space or, if it is the last one, at a solid end. */
  ghost predicate MayEnd(text: string, e: nat, last: bool) {
    (e < |text| && IsSpace(text[e])) || (last && e == |text| && EndsSolid(text))
  }

  /** Word `j` is the text from its start up to the next white space, or to the end. */
  ghost predicate CutAt(text: string, words: seq<string>, starts: seq<nat>) {
    && |words| == |starts|
    && (forall j :: 0 <= j < |words| ==> WordAt(text, words[j], starts[j]))
    && (forall j :: 0 <= j < |words| ==> MayEnd(text, starts[j] + |words[j]|, j == |words| - 1))
    && (EndsSolid(text) ==> words != [] && starts[|words| - 1] + |words[|words| - 1]| == |text|)
  }

  lemma WordStays(text: string, c: char, word: string, start: nat)
    requires WordAt(text, word, start)
    ensures WordAt(text + [c], word, start)
  {
    assert (text + [c])[start..start + |word|] == text[start..start + |word|];
  }

  lemma WordGrows(text: string, c: char, word: string, start: nat)
    requires WordAt(text, word, start) && start + |word| == |text|
    ensures WordAt(text + [c], word + [c], start)
  {
    assert (text + [c])[start..|text| + 1] == text[start..|text|] + [c];
  }

  lemma CutSpace(text: string, words: seq<string>, starts: seq<nat>, c: char)
    requires CutAt(text, words, starts) && IsSpace(c)
    ensures CutAt(text + [c], words, starts)
  {
    hide WordAt;
    forall j | 0 <= j < |words| {
      WordStays(text, c, words[j], starts[j]);
    }
    hide IsSpace;
  }

  lemma CutNew(text: string, words: seq<string>, starts: seq<nat>, c: char)
    requires CutAt(text, words, starts) && !IsSpace(c) && !EndsSolid(text)
    ensures CutAt(text + [c], words + [[c]], starts + [|text|])
  {
    assert WordAt(text + [c], [c], |text|);
    hide WordAt, IsSpace;
    forall j | 0 <= j < |words| {
      WordStays(text, c, words[j], starts[j]);
    }
    assert forall j :: 0 <= j < |words| ==> MayEnd(text, starts[j] + |words[j]|, j == |words| - 1);
  }

  lemma CutLonger(text: string, words: seq<string>, starts: seq<nat>, c: char)
    requires CutAt(text, words, starts) && !IsSpace(c) && EndsSolid(text)
    ensures words != [] && CutAt(text + [c], words[..|words| - 1] + [words[|words| - 1] + [c]], starts)
  {
    hide WordAt, IsSpace;
    var n := |words| - 1;
    forall j | 0 <= j < n {
      WordStays(text, c, words[j], starts[j]);
    }
    WordGrows(text, c, words[n], starts[n]);
    assert forall j :: 0 <= j < n ==> MayEnd(text, starts[j] + |words[j]|, false);
  }

  lemma {:induction false} WordsAreCut(text: string)
    ensures CutAt(text, SplitWhitespace(text), StartsOf(text))
  {
    if text != [] {
      hide CutAt, IsSpace;
      var before, c := text[..|text| - 1], text[|text| - 1];
      WordsAreCut(before);
      assert text == before + [c];
      var words, starts := SplitWhitespace(before), StartsOf(before);
      assert starts + [] == starts;
      if IsSpace(c) {
        CutSpace(before, words, starts, c);
      } else if !EndsSolid(before) {
        CutNew(before, words, starts, c);
      } else {
        CutLonger(before, words, starts, c);
      }
    }
  }

  /**
   * There is one word for every place where one begins, in order, each the text from there up to the
   * next white space; words hold no white space and together they are the text without it.
   */
  lemma WordsAreExact(text: string)
    ensures forall i :: 0 <= i < |SplitWhitespace(text)| ==> IsWord(SplitWhitespace(text)[i])
    ensures Flatten(SplitWhitespace(text)) == Solid(text)
    ensures AllStarts(text, StartsOf(text)) && CutAt(text, SplitWhitespace(text), StartsOf(text))
  {
    WordsAreSolid(text);
    StartsAreExact(text);
    WordsAreCut(text);
  }

  /** `wrap_pdf_text`. */
  method WrapPdfText(text: string, width: nat) returns (lines: seq<string>)
    ensures WrapsTo(SplitWhitespace(AsciiOf(text)), width, lines)
  {
    hide WrapsTo;
    WordsAreExact(AsciiOf(text));
    lines := WrapWords(SplitWhitespace(AsciiOf(text)), width);
  }
}
