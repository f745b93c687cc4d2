/**
 * The file structure of the compliance report (backend/src/compliance.rs):
 * numbered objects, a cross-reference table of byte offsets, and a trailer,
 * checked by a reader that starts from the end of the file.
 */
module PdfFile {
  import opened Wrappers
  import opened Text
  import Syntax = PdfSyntax

  // ---------------------------------------------------------------------
  // Printing
  // ---------------------------------------------------------------------

  function Header(): string { "%PDF-1.4\n" }

  function ObjectBytes(id: nat, text: string): string {
    Dec(id) + (" 0 obj\n" + (text + "\nendobj\n"))
  }

  function Body(objects: seq<string>): string {
    if objects == [] then [] else Body(objects[..|objects| - 1]) + ObjectBytes(|objects|, objects[|objects| - 1])
  }

  /** Where object `id` begins. */
  function Offset(objects: seq<string>, id: nat): nat
    requires 1 <= id <= |objects|
  {
    |Header()| + |Body(objects[..id - 1])|
  }

  function XrefOffset(objects: seq<string>): nat {
    |Header()| + |Body(objects)|
  }

  function FreeEntry(): string { "0000000000 65535 f \n" }
  function EntryTail(): string { " 00000 n \n" }

  function Entry(offset: nat): string {
    Pad10(offset) + EntryTail()
  }

  /** The entries of objects 1 to `n`. */
  function Entries(objects: seq<string>, n: nat): string
    requires n <= |objects|
  {
    if n == 0 then [] else Entries(objects, n - 1) + Entry(Offset(objects, n))
  }

  function XrefHead(): string { "xref\n0 " }

  function Xref(objects: seq<string>): string {
    XrefHead() + (Dec(|objects| + 1) + ("\n" + (FreeEntry() + Entries(objects, |objects|))))
  }

  function TrailerStart(): string { "trailer\n<< /Size " }
  function RootKey(): string { " /Root " }
  function TrailerEnd(): string { " 0 R >>\n" }

  function TrailerHead(objects: seq<string>): string {
    TrailerStart() + (Dec(|objects| + 1) + (RootKey() + (Dec(1) + TrailerEnd())))
  }

  function StartXref(): string { "startxref\n" }
  function EndOfFile(): string { "\n%%EOF\n" }

  function FileOf(objects: seq<string>): string {
    Header() + Body(objects) + Xref(objects)
    + TrailerHead(objects) + StartXref() + Dec(XrefOffset(objects)) + EndOfFile()
  }

  /** The writing loops of `generate_pdf_bytes`. */
  method WriteFile(objects: seq<string>) returns (pdf: string)
    ensures pdf == FileOf(objects)
  {
    var offsets;
    pdf, offsets := WriteObjects(objects);
    var xrefOffset := |pdf|;
    var table := WriteTable(objects, offsets);
    hide Dec, Body, Xref, Header, TrailerHead, StartXref, EndOfFile;
    pdf := pdf + table;
    pdf := pdf + TrailerHead(objects) + StartXref() + Dec(xrefOffset) + EndOfFile();
  }

  method WriteObjects(objects: seq<string>) returns (pdf: string, offsets: seq<nat>)
    ensures pdf == Header() + Body(objects)
    ensures |offsets| == |objects| + 1 && offsets[0] == 0
    ensures forall k :: 1 <= k <= |objects| ==> offsets[k] == Offset(objects, k)
  {
    pdf, offsets := Header(), [0];
    assert Header() + Body(objects[..0]) == Header();
    for i := 0 to |objects|
      invariant |offsets| == i + 1 && offsets[0] == 0
      invariant pdf == Header() + Body(objects[..i])
      invariant forall k :: 1 <= k <= i ==> offsets[k] == Offset(objects, k)
    {
      hide ObjectBytes, Header;
      BodyGrows(objects, i);
      offsets := offsets + [|pdf|];
      pdf := pdf + ObjectBytes(i + 1, objects[i]);
    }
    assert objects[..|objects|] == objects;
  }

  lemma BodyGrows(objects: seq<string>, i: nat)
    requires i < |objects|
    ensures Body(objects[..i + 1]) == Body(objects[..i]) + ObjectBytes(i + 1, objects[i])
    ensures Header() + Body(objects[..i + 1]) == (Header() + Body(objects[..i])) + ObjectBytes(i + 1, objects[i])
  {
    hide ObjectBytes, Header;
    assert objects[..i + 1][..i] == objects[..i];
    Assoc(Header(), Body(objects[..i]), ObjectBytes(i + 1, objects[i]));
  }

  method WriteTable(objects: seq<string>, offsets: seq<nat>) returns (table: string)
    requires |offsets| == |objects| + 1
    requires forall k :: 1 <= k <= |objects| ==> offsets[k] == Offset(objects, k)
    ensures table == Xref(objects)
  {
    hide Dec, Pad10, Body, FreeEntry, EntryTail, XrefHead;
    table := [];
    for k := 1 to |offsets|
      invariant table == Entries(objects, k - 1)
    {
      table := table + (Pad10(offsets[k]) + EntryTail());
    }
    table := XrefHead() + (Dec(|offsets|) + ("\n" + (FreeEntry() + table)));
  }

  // ---------------------------------------------------------------------
  // Reading
  // ---------------------------------------------------------------------

  function EndsBefore(s: string, suffix: string): Option<string> {
    if |suffix| <= |s| && s[|s| - |suffix|..] == suffix then Some(s[..|s| - |suffix|]) else None
  }

  predicate HasVersion(pdf: string) {
    Expect(Syntax.Version(), pdf).Some?
  }

  /** The offset given by `startxref`, read backwards from the end of the file. */
  function ReadStart(pdf: string): Option<nat> {
    match EndsBefore(pdf, Syntax.EndMark())
    case None => None
    case Some(s) =>
      var k := TrailingDigits(s);
      if EndsBefore(s[..|s| - k], Syntax.StartKey()).Some? then Some(Value(s[|s| - k..])) else None
  }

  /** The twenty-byte entries of the table at `xref`, the first of them free, and how many there are. */
  function ReadTable(pdf: string, xref: nat): Option<(nat, string)> {
    if xref > |pdf| then None
    else
      match Expect(Syntax.TableKey(), pdf[xref..])
      case None => None
      case Some(s) =>
        var (n, rest) := ReadNat(s);
        match Expect("\n", rest)
        case None => None
        case Some(table) =>
          if |table| < 20 || table[..20] != Syntax.FirstFree() then None else Some((n, table))
  }

  /** The catalog named by the trailer after the table, whose /Size must be the number of entries. */
  function ReadRoot(pdf: string, xref: nat): Option<nat> {
    match ReadTable(pdf, xref)
    case None => None
    case Some((n, table)) => if 20 * n > |table| then None else ReadTrailer(table[20 * n..], n)
  }

  function ReadTrailer(s: string, n: nat): Option<nat> {
    match Expect(Syntax.SizeKey(), s)
    case None => None
    case Some(s1) =>
      var (size, s2) := ReadNat(s1);
      match Expect(Syntax.RootEntry(), s2)
      case None => None
      case Some(s3) =>
        var (root, s4) := ReadNat(s3);
        if size != n || Expect(Syntax.TrailerClose(), s4).None? then None else Some(root)
  }

  /** The offset in entry `id`, which must be an in-use one (section 7.5.4 of ISO 32000-1). */
  function ReadEntry(table: string, id: nat): Option<nat> {
    if 20 * id + 20 > |table| then None
    else
      var entry := table[20 * id..20 * id + 20];
      if AllDigits(entry[..10]) && entry[10..] == Syntax.InUse() then Some(Value(entry[..10])) else None
  }

  /** The text of object `id`: follow the table, and check the object is there. */
  function ReadObject(pdf: string, xref: nat, id: nat): Option<string> {
    match ReadTable(pdf, xref)
    case None => None
    case Some((n, table)) =>
      if id >= n then None
      else
        match ReadEntry(table, id)
        case None => None
        case Some(offset) =>
          if offset > |pdf| then None
          else
            var (number, rest) := ReadNat(pdf[offset..]);
            if number != id then None else Expect(" 0 obj\n", rest)
  }

  // ---------------------------------------------------------------------
  // The reader finds every object
  // ---------------------------------------------------------------------

  /** The printer writes what the reader expects. */
  lemma PrintsSyntax()
    ensures Header() == Syntax.Version() && XrefHead() == Syntax.TableKey() && FreeEntry() == Syntax.FirstFree()
    ensures EntryTail() == Syntax.InUse() && TrailerStart() == Syntax.SizeKey() && RootKey() == Syntax.RootEntry()
    ensures TrailerEnd() == Syntax.TrailerClose() && StartXref() == Syntax.StartKey() && EndOfFile() == Syntax.EndMark()
    ensures |FreeEntry()| == 20 && OpensNonDigit(RootKey()) && OpensNonDigit(TrailerEnd())
    ensures StartXref() != [] && StartXref()[|StartXref()| - 1] == '\n'
  {
  }

  lemma {:induction false} BodySplits(objects: seq<string>, id: nat) returns (tail: string)
    requires 1 <= id <= |objects|
    ensures Body(objects) == Body(objects[..id - 1]) + (ObjectBytes(id, objects[id - 1]) + tail)
    decreases |objects|
  {
    hide ObjectBytes;
    var n := |objects| - 1;
    if id == |objects| {
      tail := [];
      assert ObjectBytes(id, objects[n]) + tail == ObjectBytes(id, objects[n]);
    } else {
      var t := BodySplits(objects[..n], id);
      assert objects[..n][..id - 1] == objects[..id - 1];
      var a, b, c := Body(objects[..id - 1]), ObjectBytes(id, objects[id - 1]), ObjectBytes(|objects|, objects[n]);
      tail := t + c;
      assert (a + (b + t)) + c == a + (b + (t + c));
    }
  }

  lemma SlicesOfConcat(a: string, b: string, i: nat, j: nat)
    requires i <= j <= |a| + |b|
    ensures j <= |a| ==> (a + b)[i..j] == a[i..j]
    ensures |a| <= i ==> (a + b)[i..j] == b[i - |a|..j - |a|]
  {
  }

  /** Every table entry is twenty bytes, as long as offsets fit ten digits. */
  lemma {:induction false} EntriesLength(objects: seq<string>, n: nat)
    requires n <= |objects| && TenDigits(XrefOffset(objects))
    ensures |Entries(objects, n)| == 20 * n
  {
    if n > 0 {
      hide Entry, Offset, XrefOffset;
      EntriesLength(objects, n - 1);
      OffsetWithin(objects, n);
      EntryWidth(Offset(objects, n));
    }
  }

  lemma {:induction false} EntriesAt(objects: seq<string>, n: nat, id: nat)
    requires 1 <= id <= n <= |objects| && TenDigits(XrefOffset(objects))
    ensures |Entries(objects, n)| == 20 * n
    ensures Entries(objects, n)[20 * id - 20..20 * id] == Entry(Offset(objects, id))
  {
    hide Entry, Offset, XrefOffset, TenDigits;
    EntriesLength(objects, n);
    EntriesLength(objects, n - 1);
    var before, last := Entries(objects, n - 1), Entry(Offset(objects, n));
    SlicesOfConcat(before, last, 20 * id - 20, 20 * id);
    if id < n {
      EntriesAt(objects, n - 1, id);
    } else {
      assert last[0..20] == last;
    }
  }

  lemma OffsetWithin(objects: seq<string>, id: nat)
    requires 1 <= id <= |objects|
    ensures Offset(objects, id) < XrefOffset(objects)
  {
    var tail := BodySplits(objects, id);
  }

  /** What follows the table. */
  function AfterTable(objects: seq<string>): string {
    TrailerHead(objects) + StartXref() + Dec(XrefOffset(objects)) + EndOfFile()
  }

  function Table(objects: seq<string>): string {
    FreeEntry() + Entries(objects, |objects|)
  }

  lemma Regroup(a: string, b: string, c: string, d: string, e: string, f: string, g: string)
    ensures a + b + c + d + e + f + g == (a + b) + (c + (d + e + f + g))
  {
  }

  lemma RegroupXref(a: string, b: string, c: string, d: string, rest: string)
    ensures (a + (b + (c + d))) + rest == a + (b + (c + (d + rest)))
  {
  }

  lemma TableIsFound(objects: seq<string>)
    ensures ReadTable(FileOf(objects), XrefOffset(objects))
         == Some((|objects| + 1, Table(objects) + AfterTable(objects)))
  {
    var pdf, n, rest := FileOf(objects), |objects| + 1, AfterTable(objects);
    PrintsSyntax();
    hide Dec, Entries, Body, Header, FreeEntry, XrefHead, TrailerHead, StartXref, EndOfFile, AfterTable, FileOf,
      Syntax.TableKey, Syntax.FirstFree;
    assert (Table(objects) + rest)[..20] == FreeEntry();
    hide Table;
    assert pdf == (Header() + Body(objects)) + (Xref(objects) + rest) by {
      FileSplits(objects);
    }
    SlicesOfConcat(Header() + Body(objects), Xref(objects) + rest, XrefOffset(objects), |pdf|);
    assert pdf[XrefOffset(objects)..] == Xref(objects) + rest;
    XrefSplits(objects, rest);
    ExpectFinds(XrefHead(), Dec(n) + ("\n" + (Table(objects) + rest)));
    ReadNatFinds(n, "\n" + (Table(objects) + rest));
    ExpectFinds("\n", Table(objects) + rest);
  }

  lemma RegroupTrailer(a: string, b: string, c: string, d: string, e: string, x: string, y: string, z: string)
    ensures (a + (b + (c + (d + e)))) + x + y + z == a + (b + (c + (d + (e + (x + y + z)))))
  {
  }

  lemma TrailerReadsBack(n: nat, more: string)
    ensures ReadTrailer(TrailerStart() + (Dec(n) + (RootKey() + (Dec(1) + (TrailerEnd() + more)))), n) == Some(1)
  {
    PrintsSyntax();
    hide Dec, TrailerStart, RootKey, TrailerEnd, Syntax.SizeKey, Syntax.RootEntry, Syntax.TrailerClose;
    var s4 := TrailerEnd() + more;
    var s2 := RootKey() + (Dec(1) + s4);
    OpensConcat(TrailerEnd(), more);
    OpensConcat(RootKey(), Dec(1) + s4);
    ExpectFinds(TrailerStart(), Dec(n) + s2);
    ReadNatFinds(n, s2);
    ExpectFinds(RootKey(), Dec(1) + s4);
    ReadNatFinds(1, s4);
    ExpectFinds(TrailerEnd(), more);
  }

  /** The trailer follows the table, announces as many objects as it has entries, and names the catalog. */
  lemma RootIsFound(objects: seq<string>)
    requires TenDigits(XrefOffset(objects))
    ensures ReadRoot(FileOf(objects), XrefOffset(objects)) == Some(1)
  {
    assert |FreeEntry()| == 20;
    EntriesLength(objects, |objects|);
    hide Dec, Entries, FreeEntry, TrailerStart, RootKey, TrailerEnd, StartXref, EndOfFile, FileOf, XrefOffset,
      ReadTable, ReadTrailer;
    var n, table, rest := |objects| + 1, Table(objects), AfterTable(objects);
    TableIsFound(objects);
    assert (table + rest)[20 * n..] == rest;
    var more := StartXref() + Dec(XrefOffset(objects)) + EndOfFile();
    RegroupTrailer(TrailerStart(), Dec(n), RootKey(), Dec(1), TrailerEnd(), StartXref(), Dec(XrefOffset(objects)),
      EndOfFile());
    TrailerReadsBack(n, more);
  }

  lemma FileSplits(objects: seq<string>)
    ensures FileOf(objects) == (Header() + Body(objects)) + (Xref(objects) + AfterTable(objects))
  {
    hide Dec, Body, Xref, Header, TrailerHead, StartXref, EndOfFile;
    Regroup(Header(), Body(objects), Xref(objects), TrailerHead(objects), StartXref(), Dec(XrefOffset(objects)),
      EndOfFile());
  }

  lemma XrefSplits(objects: seq<string>, rest: string)
    ensures Xref(objects) + rest == XrefHead() + (Dec(|objects| + 1) + ("\n" + (Table(objects) + rest)))
  {
    hide Dec, Entries, FreeEntry, XrefHead;
    RegroupXref(XrefHead(), Dec(|objects| + 1), "\n", Table(objects), rest);
  }

  lemma EntryIsRead(free: string, entries: string, rest: string, id: nat, offset: nat)
    requires |free| == 20 && 1 <= id && 20 * id <= |entries| && TenDigits(offset)
    requires entries[20 * id - 20..20 * id] == Entry(offset)
    ensures ReadEntry(free + entries + rest, id) == Some(offset)
  {
    Pad10Is(offset);
    PrintsSyntax();
    hide Pad10, TenDigits, Value, EntryTail, Syntax.InUse;
    var table := free + entries;
    SlicesOfConcat(table, rest, 20 * id, 20 * id + 20);
    SlicesOfConcat(free, entries, 20 * id, 20 * id + 20);
    assert (table + rest)[20 * id..20 * id + 20] == Entry(offset);
    assert Entry(offset)[..10] == Pad10(offset) && Entry(offset)[10..] == EntryTail();
  }

  lemma EntryIsFound(objects: seq<string>, id: nat, rest: string)
    requires 1 <= id <= |objects| && TenDigits(XrefOffset(objects))
    ensures ReadEntry(Table(objects) + rest, id) == Some(Offset(objects, id))
  {
    hide ReadEntry, Entry, Entries, Offset, XrefOffset;
    EntriesAt(objects, |objects|, id);
    OffsetWithin(objects, id);
    EntryIsRead(FreeEntry(), Entries(objects, |objects|), rest, id, Offset(objects, id));
  }

  lemma ObjectIsThere(objects: seq<string>, id: nat) returns (tail: string)
    requires 1 <= id <= |objects|
    ensures Offset(objects, id) <= |FileOf(objects)|
    ensures FileOf(objects)[Offset(objects, id)..] == Dec(id) + (" 0 obj\n" + (objects[id - 1] + ("\nendobj\n" + tail)))
  {
    var t := BodySplits(objects, id);
    FileSplits(objects);
    var rest := Xref(objects) + AfterTable(objects);
    var header, before, text := Header(), Body(objects[..id - 1]), objects[id - 1];
    hide Dec, Xref, Header, AfterTable, FileOf;
    tail := t + rest;
    RegroupObject(header, before, Dec(id), " 0 obj\n", text, "\nendobj\n", t, rest);
    SlicesOfConcat(header + before, Dec(id) + (" 0 obj\n" + (text + ("\nendobj\n" + tail))), |header + before|,
      |FileOf(objects)|);
  }

  lemma RegroupObject(h: string, b: string, n: string, o: string, x: string, e: string, t: string, rest: string)
    ensures (h + (b + ((n + (o + (x + e))) + t))) + rest == (h + b) + (n + (o + (x + (e + (t + rest)))))
  {
  }

  /**
   * Every cross-reference entry is the exact position of its object: the reader
   * arrives at the object's number and from there at its text.
   */
  lemma EveryObjectIsFound(objects: seq<string>, id: nat) returns (tail: string)
    requires 1 <= id <= |objects| && TenDigits(XrefOffset(objects))
    ensures ReadObject(FileOf(objects), XrefOffset(objects), id) == Some(objects[id - 1] + ("\nendobj\n" + tail))
  {
    TableIsFound(objects);
    EntryIsFound(objects, id, AfterTable(objects));
    tail := ObjectIsThere(objects, id);
    hide Dec, FileOf, ReadTable, ReadEntry, Offset, XrefOffset, TenDigits, Table, AfterTable;
    var text := objects[id - 1] + ("\nendobj\n" + tail);
    ReadNatFinds(id, " 0 obj\n" + text);
    ExpectFinds(" 0 obj\n", text);
  }

  lemma EndsBeforeFinds(s: string, suffix: string)
    ensures EndsBefore(s + suffix, suffix) == Some(s)
  {
    assert (s + suffix)[|s|..] == suffix && (s + suffix)[..|s|] == s;
  }

  /** The number after `startxref` is where the table begins. */
  lemma StartIsFound(objects: seq<string>)
    ensures ReadStart(FileOf(objects)) == Some(XrefOffset(objects))
  {
    PrintsSyntax();
    hide Dec, Header, Body, Xref, TrailerHead, XrefOffset, StartXref, EndOfFile, TrailingDigits, Value, Syntax.StartKey,
      Syntax.EndMark;
    var before := Header() + Body(objects) + Xref(objects) + TrailerHead(objects);
    var digits := Dec(XrefOffset(objects));
    EndsBeforeFinds(before + StartXref() + digits, EndOfFile());
    assert (before + StartXref())[|before + StartXref()| - 1] == '\n';
    TrailingDigitsOf(before + StartXref(), digits);
    EndsBeforeFinds(before, StartXref());
    var s := before + StartXref() + digits;
    assert s[..|s| - |digits|] == before + StartXref() && s[|s| - |digits|..] == digits;
    ValueOfDec(XrefOffset(objects));
  }

  lemma VersionIsFound(objects: seq<string>)
    ensures HasVersion(FileOf(objects))
  {
    PrintsSyntax();
    FileSplits(objects);
    hide Header, Body, Xref, AfterTable, FileOf, Syntax.Version;
    var rest := Xref(objects) + AfterTable(objects);
    Assoc(Header(), Body(objects), rest);
    ExpectFinds(Header(), Body(objects) + rest);
  }

  /** A table entry has the fixed width exactly when its offset fits ten digits. */
  lemma EntryWidth(offset: nat)
    ensures |Entry(offset)| == 20 <==> TenDigits(offset)
  {
    Pad10Is(offset);
  }
}
