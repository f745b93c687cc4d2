/**
 * The objects of the compliance report (backend/src/compliance.rs) and the
 * round trip: a reader that starts at the end of the file, follows the
 * cross-reference table, the page tree and the content streams gets the lines.
 */
module PdfReport {
  import opened Wrappers
  import opened Text
  import opened PdfText
  import opened PdfFile
  import Syntax = PdfSyntax

  // ---------------------------------------------------------------------
  // Printing
  // ---------------------------------------------------------------------

  function StreamHead(): string { "BT\n/F1 9 Tf\n50 750 Td\n12 TL\n" }
  function StreamEnd(): string { "ET" }
  function ShowEnd(): string { " Tj\nT*\n" }

  function Shown(page: seq<string>): string {
    if page == [] then [] else ['('] + (EscapeLine(page[0]) + ([')'] + (ShowEnd() + Shown(page[1..]))))
  }

  function PageStream(page: seq<string>): string {
    StreamHead() + (Shown(page) + StreamEnd())
  }

  function LengthHead(): string { "<< /Length " }
  function LengthEnd(): string { " >>\nstream\n" }
  function EndStream(): string { "\nendstream" }

  function ContentObject(page: seq<string>): string {
    var stream := PageStream(page);
    LengthHead() + (Dec(|stream|) + (LengthEnd() + (stream + EndStream())))
  }

  function PageHead(): string {
    "<< /Type /Page /Parent 2 0 R /MediaBox [0 0 612 792] /Resources << /Font << /F1 3 0 R >> >> /Contents "
  }
  function RefEnd(): string { " 0 R >>" }

  function PageObject(contentId: nat): string {
    PageHead() + (Dec(contentId) + RefEnd())
  }

  function CatalogHead(): string { "<< /Type /Catalog /Pages " }
  function CatalogObject(): string { CatalogHead() + (Dec(2) + RefEnd()) }
  function FontObject(): string { "<< /Type /Font /Subtype /Type1 /BaseFont /Helvetica >>" }

  function Ref(): string { " 0 R" }

  /** References to pages `i` up to `n`, one blank between two. */
  function Kids(i: nat, n: nat): string
    requires i < n
    decreases n - i
  {
    Dec(4 + 2 * i) + (Ref() + if i + 1 == n then [] else [' '] + Kids(i + 1, n))
  }

  function KidsHead(): string { "<< /Type /Pages /Kids [" }
  function CountHead(): string { "] /Count " }
  function DictEnd(): string { " >>" }

  function PagesObject(n: nat): string
    requires n >= 1
  {
    KidsHead() + (Kids(0, n) + (CountHead() + (Dec(n) + DictEnd())))
  }

  /** The objects of the first `k` pages: each page followed by its content. */
  function PagePairs(pages: seq<seq<string>>, k: nat): seq<string>
    requires k <= |pages|
  {
    if k == 0 then [] else PagePairs(pages, k - 1) + [PageObject(3 + 2 * k), ContentObject(pages[k - 1])]
  }

  function Objects(pages: seq<seq<string>>): seq<string>
    requires |pages| >= 1
  {
    [CatalogObject(), PagesObject(|pages|), FontObject()] + PagePairs(pages, |pages|)
  }

  /** Page `k` and its content are the objects at index `at` and after it. */
  ghost predicate HoldsPage(objects: seq<string>, at: nat, pages: seq<seq<string>>, k: nat) {
    k < |pages| && at + 1 < |objects| && objects[at] == PageObject(5 + 2 * k)
      && objects[at + 1] == ContentObject(pages[k])
  }

  lemma {:induction false} PairAt(pages: seq<seq<string>>, n: nat, k: nat)
    requires k < n <= |pages|
    ensures |PagePairs(pages, n)| == 2 * n && HoldsPage(PagePairs(pages, n), 2 * k, pages, k)
  {
    hide PageObject, ContentObject;
    if k < n - 1 {
      PairAt(pages, n - 1, k);
    } else if n > 1 {
      PairAt(pages, n - 1, 0);
    }
  }

  ghost predicate StartsWithTree(objects: seq<string>, n: nat) {
    && n >= 1 && |objects| == 3 + 2 * n
    && objects[0] == CatalogObject() && objects[1] == PagesObject(n) && objects[2] == FontObject()
  }

  /** The whole layout for page `k`. */
  ghost predicate LaidOut(objects: seq<string>, pages: seq<seq<string>>, k: nat) {
    StartsWithTree(objects, |pages|) && HoldsPage(objects, 3 + 2 * k, pages, k)
  }

  /** Page `k` is object `4 + 2 * k`, and its content the object after it. */
  lemma ObjectsAt(pages: seq<seq<string>>, k: nat)
    requires k < |pages|
    ensures LaidOut(Objects(pages), pages, k)
  {
    hide PageObject, ContentObject, CatalogObject, PagesObject, FontObject;
    PairAt(pages, |pages|, k);
  }

  function Report(lines: seq<string>): string {
    ChunksFlatten(lines);
    FileOf(Objects(Chunks(lines)))
  }

  /** `generate_pdf_bytes`. */
  method GeneratePdfBytes(lines: seq<string>) returns (pdf: string)
    ensures pdf == Report(lines)
  {
    ChunksFlatten(lines);
    hide Chunks, Objects, FileOf;
    var pages := Chunks(lines);
    var objects := BuildObjects(pages);
    pdf := WriteFile(objects);
  }

  method BuildObjects(pages: seq<seq<string>>) returns (objects: seq<string>)
    requires |pages| >= 1
    ensures objects == Objects(pages)
  {
    hide CatalogObject, PagesObject, FontObject, PageObject, ContentObject;
    objects := [CatalogObject(), PagesObject(|pages|), FontObject()];
    ghost var fixed := objects;
    for index := 0 to |pages|
      invariant objects == fixed + PagePairs(pages, index)
    {
      var pageId := 4 + index * 2;
      objects := objects + [PageObject(pageId + 1)];
      objects := objects + [ContentObject(pages[index])];
    }
  }

  // ---------------------------------------------------------------------
  // Reading
  // ---------------------------------------------------------------------

  /** The strings shown by a content stream, up to its end. */
  function ReadShown(s: string): Option<seq<string>>
    decreases |s|
  {
    if s == Syntax.TextClose() then Some([])
    else if s == [] || s[0] != '(' then None
    else
      match ReadLiteral(s[1..], 0)
      case None => None
      case Some((content, rest)) =>
        match Expect(Syntax.ShowLine(), rest)
        case None => None
        case Some(more) =>
          if |more| >= |s| then None
          else
            match ReadShown(more)
            case None => None
            case Some(lines) => Some([content] + lines)
  }

  /** A stream of the announced length, which must be followed by its end marker. */
  function ReadStream(s: string): Option<string> {
    match Expect(Syntax.LengthKey(), s)
    case None => None
    case Some(s1) =>
      var (n, s2) := ReadNat(s1);
      match Expect(Syntax.StreamOpen(), s2)
      case None => None
      case Some(s3) =>
        if n > |s3| || Expect(Syntax.StreamClose(), s3[n..]).None? then None else Some(s3[..n])
  }

  function ReadContent(s: string): Option<seq<string>> {
    match ReadStream(s)
    case None => None
    case Some(stream) =>
      match Expect(Syntax.TextOpen(), stream)
      case None => None
      case Some(shown) => ReadShown(shown)
  }

  /** A dictionary whose last item, after `head`, is one reference. */
  function ReadRef(head: string, s: string): Option<nat> {
    match Expect(head, s)
    case None => None
    case Some(s1) =>
      var (id, s2) := ReadNat(s1);
      if Expect(Syntax.LastIndirect(), s2).None? then None else Some(id)
  }

  /** A list of references separated by blanks, and what follows it. */
  function ReadRefs(s: string): Option<(seq<nat>, string)>
    decreases |s|
  {
    var (id, s1) := ReadNat(s);
    match Expect(Syntax.Indirect(), s1)
    case None => None
    case Some(s2) =>
      if s2 != [] && s2[0] == ' ' && |s2| <= |s| then
        match ReadRefs(s2[1..])
        case None => None
        case Some((ids, rest)) => Some(([id] + ids, rest))
      else Some(([id], s2))
  }

  /** The pages of the page tree; their number must be the announced one. */
  function ReadKids(s: string): Option<seq<nat>> {
    match Expect(Syntax.KidsOpen(), s)
    case None => None
    case Some(s1) =>
      match ReadRefs(s1)
      case None => None
      case Some((ids, s2)) =>
        match Expect(Syntax.CountKey(), s2)
        case None => None
        case Some(s3) =>
          var (count, s4) := ReadNat(s3);
          if count == |ids| && Expect(Syntax.Close(), s4).Some? then Some(ids) else None
  }

  /** The lines of one page, through its content object. */
  function ReadPage(pdf: string, xref: nat, id: nat): Option<seq<string>> {
    match ReadObject(pdf, xref, id)
    case None => None
    case Some(page) =>
      match ReadRef(Syntax.PageOpen(), page)
      case None => None
      case Some(contentId) =>
        match ReadObject(pdf, xref, contentId)
        case None => None
        case Some(content) => ReadContent(content)
  }

  function ReadPages(pdf: string, xref: nat, ids: seq<nat>): Option<seq<string>> {
    if ids == [] then Some([])
    else
      match (ReadPage(pdf, xref, ids[0]), ReadPages(pdf, xref, ids[1..]))
      case (Some(first), Some(more)) => Some(first + more)
      case _ => None
  }

  /** The font every page names, object 3. */
  predicate HasFont(pdf: string, xref: nat) {
    match ReadObject(pdf, xref, 3)
    case None => false
    case Some(text) => Expect(Syntax.Font(), text).Some?
  }

  /** All lines of a document, found from the end of the file. */
  function ReadDocument(pdf: string): Option<seq<string>> {
    match if HasVersion(pdf) then ReadStart(pdf) else None
    case None => None
    case Some(xref) =>
      match ReadRoot(pdf, xref)
      case None => None
      case Some(root) =>
        match ReadObject(pdf, xref, root)
        case None => None
        case Some(catalog) =>
          match ReadRef(Syntax.CatalogOpen(), catalog)
          case None => None
          case Some(tree) =>
            match ReadObject(pdf, xref, tree)
            case None => None
            case Some(kids) =>
              match ReadKids(kids)
              case None => None
              case Some(ids) => if HasFont(pdf, xref) then ReadPages(pdf, xref, ids) else None
  }

  // ---------------------------------------------------------------------
  // Each object reads back
  // ---------------------------------------------------------------------

  function NormalizedAll(lines: seq<string>): seq<string> {
    if lines == [] then [] else [Normalized(lines[0])] + NormalizedAll(lines[1..])
  }

  /** The printer writes what the reader expects. */
  lemma PrintsPage()
    ensures PageHead() == Syntax.PageOpen()
  {
  }

  lemma PrintsFont()
    ensures FontObject() == Syntax.Font()
  {
  }

  lemma PrintsCatalog()
    ensures CatalogHead() == Syntax.CatalogOpen()
  {
  }

  lemma PrintsRefs()
    ensures Ref() == Syntax.Indirect() && OpensNonDigit(Ref())
    ensures RefEnd() == Syntax.LastIndirect() && OpensNonDigit(RefEnd())
  {
  }

  lemma PrintsTree()
    ensures KidsHead() == Syntax.KidsOpen() && CountHead() == Syntax.CountKey() && DictEnd() == Syntax.Close()
    ensures CountHead() != [] && CountHead()[0] == ']' && OpensNonDigit(DictEnd())
  {
  }

  lemma PrintsStream()
    ensures LengthHead() == Syntax.LengthKey() && LengthEnd() == Syntax.StreamOpen()
    ensures EndStream() == Syntax.StreamClose() && OpensNonDigit(LengthEnd())
  {
  }

  lemma PrintsText()
    ensures StreamHead() == Syntax.TextOpen()
    ensures ShowEnd() == Syntax.ShowLine() && StreamEnd() == Syntax.TextClose()
    ensures StreamEnd() != [] && StreamEnd()[0] == 'E' && ShowEnd() != []
  {
  }

  lemma RegroupShown(e: string, t: string, m: string, end: string)
    ensures (['('] + (e + ([')'] + (t + m)))) + end == ['('] + (e + ([')'] + (t + (m + end))))
  {
  }

  lemma {:induction false} ShownReadsBack(page: seq<string>)
    ensures ReadShown(Shown(page) + StreamEnd()) == Some(NormalizedAll(page))
    decreases |page|
  {
    PrintsText();
    if page == [] {
      assert Shown(page) + StreamEnd() == StreamEnd();
    } else {
      ShownReadsBack(page[1..]);
      hide EscapeLine, ReadLiteral, Expect, StreamEnd, ShowEnd, Normalized, Syntax.TextClose, Syntax.ShowLine;
      var more := Shown(page[1..]) + StreamEnd();
      var rest := ShowEnd() + more;
      var s := Shown(page) + StreamEnd();
      RegroupShown(EscapeLine(page[0]), ShowEnd(), Shown(page[1..]), StreamEnd());
      assert s == ['('] + (EscapeLine(page[0]) + ([')'] + rest));
      assert s[1..] == EscapeLine(page[0]) + ([')'] + rest);
      EscapeIsOnePass(page[0]);
      EscapedReadsBack(page[0], rest);
      ExpectFinds(ShowEnd(), more);
    }
  }

  lemma RegroupContent(h: string, d: string, e: string, x: string, end: string, more: string)
    ensures (h + (d + (e + (x + end)))) + more == h + (d + (e + (x + (end + more))))
  {
  }

  lemma StreamReadsBack(page: seq<string>, more: string)
    ensures ReadStream(ContentObject(page) + more) == Some(PageStream(page))
  {
    PrintsStream();
    hide Dec, PageStream, LengthHead, LengthEnd, EndStream, Syntax.LengthKey, Syntax.StreamOpen, Syntax.StreamClose;
    var stream := PageStream(page);
    var tail := stream + (EndStream() + more);
    RegroupContent(LengthHead(), Dec(|stream|), LengthEnd(), stream, EndStream(), more);
    ExpectFinds(LengthHead(), Dec(|stream|) + (LengthEnd() + tail));
    OpensConcat(LengthEnd(), tail);
    ReadNatFinds(|stream|, LengthEnd() + tail);
    ExpectFinds(LengthEnd(), tail);
    assert tail[|stream|..] == EndStream() + more && tail[..|stream|] == stream;
    ExpectFinds(EndStream(), more);
  }

  lemma ContentReadsBack(page: seq<string>, more: string)
    ensures ReadContent(ContentObject(page) + more) == Some(NormalizedAll(page))
  {
    PrintsText();
    hide ContentObject, ReadStream, StreamHead, StreamEnd, Shown, ReadShown, NormalizedAll, Syntax.TextOpen;
    StreamReadsBack(page, more);
    ExpectFinds(StreamHead(), Shown(page) + StreamEnd());
    ShownReadsBack(page);
  }

  lemma RefReadsBack(head: string, id: nat, more: string)
    ensures ReadRef(head, (head + (Dec(id) + RefEnd())) + more) == Some(id)
  {
    PrintsRefs();
    hide Dec, RefEnd, Syntax.LastIndirect;
    var tail := RefEnd() + more;
    assert (head + (Dec(id) + RefEnd())) + more == head + (Dec(id) + tail);
    ExpectFinds(head, Dec(id) + tail);
    OpensConcat(RefEnd(), more);
    ReadNatFinds(id, tail);
    ExpectFinds(RefEnd(), more);
  }

  /** The identifiers of pages `i` up to `n`. */
  function PageIds(i: nat, n: nat): seq<nat>
    requires i <= n
    decreases n - i
  {
    if i == n then [] else [4 + 2 * i] + PageIds(i + 1, n)
  }

  lemma {:induction false} PageIdsLength(i: nat, n: nat)
    requires i <= n
    ensures |PageIds(i, n)| == n - i
    decreases n - i
  {
    if i < n {
      PageIdsLength(i + 1, n);
    }
  }

  lemma KidsSplit(i: nat, n: nat, more: string)
    requires i < n
    ensures
      var next := if i + 1 == n then more else [' '] + (Kids(i + 1, n) + more);
      Kids(i, n) + more == Dec(4 + 2 * i) + (Ref() + next)
  {
    hide Dec, Ref;
    var d, r := Dec(4 + 2 * i), Ref();
    if i + 1 == n {
      assert (d + (r + [])) + more == d + (r + more);
    } else {
      var k := Kids(i + 1, n);
      assert (d + (r + ([' '] + k))) + more == d + (r + ([' '] + (k + more)));
    }
  }

  lemma OneRefReads(id: nat, next: string)
    ensures ReadRefs(Dec(id) + (Ref() + next)) ==
      if next != [] && next[0] == ' ' then
        match ReadRefs(next[1..])
        case None => None
        case Some((ids, rest)) => Some(([id] + ids, rest))
      else Some(([id], next))
  {
    PrintsRefs();
    hide Dec, Ref, ReadNat, Expect, Syntax.Indirect;
    OpensConcat(Ref(), next);
    ReadNatFinds(id, Ref() + next);
    ExpectFinds(Ref(), next);
  }

  lemma {:induction false} KidsReadBack(i: nat, n: nat, more: string)
    requires i < n && more != [] && more[0] == ']'
    ensures ReadRefs(Kids(i, n) + more) == Some((PageIds(i, n), more))
    decreases n - i
  {
    hide Dec, Ref, ReadRefs, Kids;
    KidsSplit(i, n, more);
    if i + 1 == n {
      OneRefReads(4 + 2 * i, more);
      assert PageIds(i, n) == [4 + 2 * i] + PageIds(i + 1, n) == [4 + 2 * i];
    } else {
      var next := [' '] + (Kids(i + 1, n) + more);
      assert next[1..] == Kids(i + 1, n) + more;
      OneRefReads(4 + 2 * i, next);
      KidsReadBack(i + 1, n, more);
    }
  }

  lemma TreeReadsBack(n: nat, more: string)
    requires n >= 1
    ensures ReadKids(PagesObject(n) + more) == Some(PageIds(0, n))
  {
    PrintsTree();
    hide Dec, KidsHead, CountHead, DictEnd, Kids, ReadRefs, PageIds, Syntax.KidsOpen, Syntax.CountKey, Syntax.Close;
    var s3 := Dec(n) + (DictEnd() + more);
    RegroupContent(KidsHead(), Kids(0, n), CountHead(), Dec(n), DictEnd(), more);
    ExpectFinds(KidsHead(), Kids(0, n) + (CountHead() + s3));
    assert (CountHead() + s3)[0] == CountHead()[0];
    KidsReadBack(0, n, CountHead() + s3);
    ExpectFinds(CountHead(), s3);
    OpensConcat(DictEnd(), more);
    ReadNatFinds(n, DictEnd() + more);
    ExpectFinds(DictEnd(), more);
    PageIdsLength(0, n);
  }

  // ---------------------------------------------------------------------
  // The document reads back
  // ---------------------------------------------------------------------

  ghost predicate Addressable(pages: seq<seq<string>>)
    requires |pages| >= 1
  {
    TenDigits(XrefOffset(Objects(pages)))
  }

  lemma PageStep(pdf: string, xref: nat, id: nat, contentId: nat, page: seq<string>, t1: string, t2: string)
    requires ReadObject(pdf, xref, id) == Some(PageObject(contentId) + t1)
    requires ReadObject(pdf, xref, contentId) == Some(ContentObject(page) + t2)
    ensures ReadPage(pdf, xref, id) == Some(NormalizedAll(page))
  {
    PrintsPage();
    hide ReadObject, ReadContent, ContentObject, PageHead, Dec, RefEnd, ReadRef, NormalizedAll, Syntax.PageOpen;
    RefReadsBack(PageHead(), contentId, t1);
    ContentReadsBack(page, t2);
  }

  lemma PageReadsBack(pages: seq<seq<string>>, k: nat)
    requires |pages| >= 1 && k < |pages| && Addressable(pages)
    ensures var objects := Objects(pages);
      ReadPage(FileOf(objects), XrefOffset(objects), 4 + 2 * k) == Some(NormalizedAll(pages[k]))
  {
    hide FileOf, XrefOffset, ReadObject, ReadPage, PageObject, ContentObject, Objects, NormalizedAll, TenDigits;
    var objects, id := Objects(pages), 4 + 2 * k;
    ObjectsAt(pages, k);
    var t1 := EveryObjectIsFound(objects, id);
    var t2 := EveryObjectIsFound(objects, id + 1);
    PageStep(FileOf(objects), XrefOffset(objects), id, id + 1, pages[k], "\nendobj\n" + t1, "\nendobj\n" + t2);
  }

  lemma {:induction false} PagesReadBack(pages: seq<seq<string>>, k: nat)
    requires |pages| >= 1 && k <= |pages| && Addressable(pages)
    ensures var objects := Objects(pages);
      ReadPages(FileOf(objects), XrefOffset(objects), PageIds(k, |pages|)) == Some(NormalizedAll(Flatten(pages[k..])))
    decreases |pages| - k
  {
    hide FileOf, XrefOffset, ReadPage, Objects, Normalized, TenDigits;
    if k < |pages| {
      PageReadsBack(pages, k);
      PagesReadBack(pages, k + 1);
      assert PageIds(k, |pages|)[1..] == PageIds(k + 1, |pages|);
      assert pages[k..][0] == pages[k] && pages[k..][1..] == pages[k + 1..];
      NormalizedConcat(pages[k], Flatten(pages[k + 1..]));
    }
  }

  lemma {:induction false} NormalizedConcat(a: seq<string>, b: seq<string>)
    ensures NormalizedAll(a + b) == NormalizedAll(a) + NormalizedAll(b)
  {
    if a == [] {
      assert a + b == b;
    } else {
      assert (a + b)[1..] == a[1..] + b;
      NormalizedConcat(a[1..], b);
    }
  }

  /** The object `id` of the file begins with `text`. */
  ghost predicate Begins(pdf: string, xref: nat, id: nat, text: string, rest: string) {
    ReadObject(pdf, xref, id) == Some(text + rest)
  }

  lemma FontIsFound(pdf: string, xref: nat, rest: string)
    requires Begins(pdf, xref, 3, FontObject(), rest)
    ensures HasFont(pdf, xref)
  {
    PrintsFont();
    hide ReadObject, FontObject, Syntax.Font;
    ExpectFinds(FontObject(), rest);
  }

  lemma DocumentStep(pdf: string, xref: nat, n: nat, t1: string, t2: string)
    requires n >= 1 && HasVersion(pdf) && ReadStart(pdf) == Some(xref) && ReadRoot(pdf, xref) == Some(1)
    requires HasFont(pdf, xref)
    requires Begins(pdf, xref, 1, CatalogObject(), t1) && Begins(pdf, xref, 2, PagesObject(n), t2)
    ensures ReadDocument(pdf) == ReadPages(pdf, xref, PageIds(0, n))
  {
    PrintsCatalog();
    hide HasVersion, HasFont, ReadStart, ReadRoot, ReadObject, ReadKids, ReadPages, PagesObject, CatalogHead, Dec,
      RefEnd, ReadRef, PageIds, Syntax.CatalogOpen;
    RefReadsBack(CatalogHead(), 2, t1);
    TreeReadsBack(n, t2);
  }

  lemma DocumentOfPages(pages: seq<seq<string>>)
    requires |pages| >= 1 && Addressable(pages)
    ensures ReadDocument(FileOf(Objects(pages))) == Some(NormalizedAll(Flatten(pages)))
  {
    hide FileOf, XrefOffset, HasVersion, HasFont, ReadStart, ReadRoot, ReadObject, ReadPages, ReadDocument, PagesObject,
      CatalogObject, FontObject, PageObject, ContentObject, Objects, NormalizedAll, PageIds, Flatten, TenDigits;
    var objects := Objects(pages);
    ObjectsAt(pages, 0);
    var t1 := EveryObjectIsFound(objects, 1);
    var t2 := EveryObjectIsFound(objects, 2);
    var t3 := EveryObjectIsFound(objects, 3);
    VersionIsFound(objects);
    StartIsFound(objects);
    RootIsFound(objects);
    FontIsFound(FileOf(objects), XrefOffset(objects), "\nendobj\n" + t3);
    DocumentStep(FileOf(objects), XrefOffset(objects), |pages|, "\nendobj\n" + t1, "\nendobj\n" + t2);
    PagesReadBack(pages, 0);
    assert pages[0..] == pages;
  }

  ghost predicate NoReturns(lines: seq<string>) {
    forall i :: 0 <= i < |lines| ==> '\r' !in lines[i]
  }

  lemma {:induction false} NormalizedAllSame(lines: seq<string>)
    ensures NormalizedAll(lines) == lines <==> NoReturns(lines)
  {
    if lines != [] {
      NormalizedAllSame(lines[1..]);
      NormalizedHasNoReturns(lines[0]);
      if '\r' !in lines[0] {
        NormalizedKeeps(lines[0]);
      }
      hide Normalized;
      var n := NormalizedAll(lines);
      assert n[0] == Normalized(lines[0]) && n[1..] == NormalizedAll(lines[1..]);
      assert lines == [lines[0]] + lines[1..];
      if NoReturns(lines[1..]) && '\r' !in lines[0] {
        assert NoReturns(lines);
      }
      if NoReturns(lines) {
        assert forall i :: 0 <= i < |lines[1..]| ==> lines[1..][i] == lines[i + 1];
      }
    }
  }

  /**
   * The whole report reads back to its lines, in order and complete, if and only
   * if no line holds a carriage return; the offsets must fit the format's ten digits.
   */
  lemma ReportRoundTrip(lines: seq<string>)
    ensures |Report(lines)| < 10_000_000_000 ==>
      && ReadDocument(Report(lines)) == Some(NormalizedAll(lines))
      && (ReadDocument(Report(lines)) == Some(lines) <==> NoReturns(lines))
  {
    hide Chunks, FileOf, Flatten, NormalizedAll, ReadDocument, Body, Xref, AfterTable, Objects, NoReturns;
    ChunksFlatten(lines);
    var pages := Chunks(lines);
    FileSplits(Objects(pages));
    if |Report(lines)| < 10_000_000_000 {
      DocumentOfPages(pages);
      NormalizedAllSame(lines);
    }
  }
}
