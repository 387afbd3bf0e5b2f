/** Amendment records: reading their references from the section's table, and the gate on unrecorded edits. */
module AdrRecords {
  import opened Options
  import opened TextLines
  import opened AdrLines
  import opened Separated
  import opened AdrSections
  import opened AdrCanonical
  import opened AdrAmendments

  // ---- Rows ---------------------------------------------------------------------------------------------------

  function TrimBarsLeft(t: string): string {
    if t != "" && t[0] == '|' then TrimBarsLeft(t[1..]) else t
  }

  function TrimBarsRight(t: string): string {
    if t != "" && t[|t| - 1] == '|' then TrimBarsRight(t[..|t| - 1]) else t
  }

  function Cells(stripped: string): seq<string> {
    var parts := Split(TrimBarsRight(TrimBarsLeft(stripped)), '|');
    seq(|parts|, i requires 0 <= i < |parts| => Strip(parts[i]))
  }

  /** A separator row: no other characters than dashes, colons and spaces. */
  predicate IsSeparator(cells: seq<string>) {
    forall i, k :: 0 <= i < |cells| && 0 <= k < |cells[i]| ==> cells[i][k] in {'-', ':', ' '}
  }

  /** The reference that a line of the section records. */
  function RowRef(line: string): Option<string> {
    var stripped := Strip(line);
    if stripped == "" || stripped[0] != '|' then None
    else
      var cells := Cells(stripped);
      if |cells| < 3 || Lower(cells[0]) == "date" || IsSeparator(cells) then None else Some(cells[1])
  }

  function RefsOf(lines: seq<string>): seq<string> {
    if lines == [] then [] else
      var k := |lines| - 1;
      RefsOf(lines[..k]) + if RowRef(lines[k]).Some? then [RowRef(lines[k]).value] else []
  }

  /** The text of the section. */
  function SectionText(text: string): string
    requires Bounds(text).Some?
  {
    BoundsInText(text);
    text[Bounds(text).value.0..Bounds(text).value.1]
  }

  function Refs(text: string): seq<string> {
    if Bounds(text).None? then [] else RefsOf(SplitLines(SectionText(text)))
  }

  /** `amendment_refs`. */
  method AmendmentRefs(text: string) returns (refs: seq<string>)
    ensures refs == Refs(text)
  {
    hide SplitLines, Bounds, Strip, Cells, Lower, IsSeparator;
    var bounds := AmendmentsSectionBounds(text);
    refs := [];
    if bounds.None? {
      return;
    }
    BoundsInText(text);
    var section := text[bounds.value.0..bounds.value.1];
    var lines := SplitLines(section);
    for k := 0 to |lines|
      invariant refs == RefsOf(lines[..k])
    {
      assert lines[..k + 1][..k] == lines[..k];
      var stripped := Strip(lines[k]);
      if stripped != "" && stripped[0] == '|' {
        var cells := Cells(stripped);
        if |cells| >= 3 && Lower(cells[0]) != "date" && !IsSeparator(cells) {
          refs := refs + [cells[1]];
        }
      }
    }
    assert lines[..|lines|] == lines;
  }

  lemma {:induction false} RefsJoin(a: seq<string>, b: seq<string>)
    ensures RefsOf(a + b) == RefsOf(a) + RefsOf(b)
  {
    hide RowRef;
    if b == [] {
      assert a + b == a;
    } else {
      var k := |b| - 1;
      assert (a + b)[..|a| + k] == a + b[..k];
      RefsJoin(a, b[..k]);
    }
  }

  lemma {:induction false} RefsAlike(a: seq<string>, b: seq<string>)
    requires |a| == |b| && forall i :: 0 <= i < |a| ==> Strip(a[i]) == Strip(b[i])
    ensures RefsOf(a) == RefsOf(b)
  {
    hide Strip, Cells, Lower, IsSeparator;
    if a != [] {
      var k := |a| - 1;
      RefsAlike(a[..k], b[..k]);
      assert RowRef(a[k]) == RowRef(b[k]);
    }
  }

  /** Line ends play no role for the references. */
  lemma RefsKept(text: string)
    ensures RefsOf(SplitLines(text)) == RefsOf(KeepLines(text))
  {
    hide Strip, SplitLines, KeepLines, StripRight;
    KeepAndSplit(text);
    RefsAlike(SplitLines(text), KeepLines(text));
  }

  // ---- A record -----------------------------------------------------------------------------------------------

  /** A cell that the table can hold: not empty, no bars, no white space around it. */
  predicate IsCell(t: string) {
    t != "" && Strip(t) == t && '|' !in t
  }

  function Row(date: string, ref: string, summary: string): string {
    "| " + date + " | " + ref + " | " + summary + " |"
  }

  /** A cell between blanks is the cell. */
  lemma PaddedCell(cell: string)
    requires Strip(cell) == cell
    ensures Strip(" " + cell + " ") == cell
  {
    hide Strip;
    var t := " " + cell;
    assert t + " " == t + [' '];
    StripTrailSpace(t);
    StripLeadSpace(cell);
  }

  lemma StripTrailSpace(t: string)
    ensures Strip(t + [' ']) == Strip(t)
  {
    StripLeftTrail(t, ' ');
  }

  lemma StripLeadSpace(t: string)
    ensures Strip(" " + t) == Strip(t)
  {
    assert (" " + t)[1..] == t;
  }

  lemma RowBars(inner: string)
    requires inner != "" && inner[0] != '|' && inner[|inner| - 1] != '|'
    ensures TrimBarsRight(TrimBarsLeft("|" + inner + "|")) == inner
    ensures Strip("|" + inner + "|") == "|" + inner + "|"
  {
    var t := "|" + inner + "|";
    assert t[1..] == inner + "|";
    assert (inner + "|")[..|inner|] == inner;
  }

  lemma CellsOfRow(date: string, ref: string, summary: string)
    requires IsCell(date) && IsCell(ref) && IsCell(summary)
    ensures Cells(Row(date, ref, summary)) == [date, ref, summary]
    ensures Strip(Row(date, ref, summary)) == Row(date, ref, summary)
  {
    hide Strip, Split;
    var a, b, c := " " + date + " ", " " + ref + " ", " " + summary + " ";
    var inner := a + "|" + (b + "|" + c);
    assert Row(date, ref, summary) == "|" + inner + "|";
    RowBars(inner);
    SplitSegment(a, b + "|" + c, '|');
    SplitSegment(b, c, '|');
    SplitWhole(c, '|');
    PaddedCell(date);
    PaddedCell(ref);
    PaddedCell(summary);
  }

  /** A row with a date that is not the header's and not made of dashes records its reference. */
  lemma RowRecords(date: string, ref: string, summary: string)
    requires IsCell(date) && IsCell(ref) && IsCell(summary) && Lower(date) != "date"
    requires exists k :: 0 <= k < |date| && date[k] !in {'-', ':', ' '}
    ensures RowRef(Row(date, ref, summary)) == Some(ref)
  {
    hide Strip, Lower, Cells;
    CellsOfRow(date, ref, summary);
    var k :| 0 <= k < |date| && date[k] !in {'-', ':', ' '};
    assert [date, ref, summary][0][k] !in {'-', ':', ' '};
  }

  // ---- Recording ----------------------------------------------------------------------------------------------

  /** Lines that may be put into the section: neither fences nor level-two headings. */
  predicate Plain(lines: seq<string>) {
    forall i :: 0 <= i < |lines| ==> !IsFence(lines[i]) && !IsHeading(lines[i])
  }

  lemma {:induction false} PlainPasses(lines: seq<string>, fence: bool)
    requires Plain(lines)
    ensures FenceAfter(lines, fence) == fence && SectionLength(lines, fence) == |lines|
  {
    hide IsFence, IsHeading;
    if lines != [] {
      assert Plain(lines[1..]);
      PlainPasses(lines[1..], fence);
    }
  }

  /** A section with plain lines put in below its heading is a section, and closes its fences as before. */
  lemma PlainInserted(a: seq<string>, rows: seq<string>, b: seq<string>)
    requires a != [] && IsSection(a + b) && Plain(rows)
    ensures IsSection(a + rows + b)
    ensures FenceAfter((a + rows + b)[1..], false) == FenceAfter((a + b)[1..], false)
  {
    hide FenceAfter, IsAmendments, Plain, SectionLength;
    var head := a[1..];
    assert (a + b)[1..] == head + b && (a + rows + b)[1..] == head + (rows + b);
    LengthJoin(head, b, false);
    FenceJoin(head, b, false);
    var fence := FenceAfter(head, false);
    LengthJoin(rows, b, fence);
    FenceJoin(rows, b, fence);
    PlainPasses(rows, fence);
    LengthJoin(head, rows + b, false);
    FenceJoin(head, rows + b, false);
  }

  /** The lines of the section are a section, closed and ended where more text follows. */
  lemma SectionOfText(text: string)
    requires Bounds(text).Some?
    ensures IsSection(KeepLines(SectionText(text)))
    ensures Bounds(text).value.1 < |text| ==>
              !FenceAfter(KeepLines(SectionText(text))[1..], false) &&
              Boundary(text[..Bounds(text).value.1], text[Bounds(text).value.1..])
  {
    hide KeepLines, IsHeading, IsAmendments, FindHeading, SectionLength, Concat, Boundary, FenceAfter;
    BoundsSome(text);
    BoundsInText(text);
    var lines := KeepLines(text);
    var b := LineBounds(lines).value;
    SectionLines(text, b.0, b.1);
    var rest := lines[b.0 + 1..];
    SectionWhole(rest, false);
    assert rest[..b.1 - b.0 - 1] == lines[b.0..b.1][1..] == lines[b.0 + 1..b.1];
    SectionEnds(lines);
    if Bounds(text).value.1 < |text| {
      assert text[Bounds(text).value.1..] != "";
      if b.1 == |lines| {
        assert lines[b.1..] == [];
        NonEmptyLines(text[Bounds(text).value.1..]);
      }
      KeepBoundary(text, b.1);
    }
  }

  lemma NonEmptyLines(t: string)
    requires t != ""
    ensures KeepLines(t) != []
  {
  }

  /** The lines of a stretch of the text between two of its line boundaries. */
  lemma SectionLines(text: string, from: nat, to: nat)
    requires from <= to <= |KeepLines(text)|
    ensures KeepLines(Concat(KeepLines(text)[from..to])) == KeepLines(text)[from..to]
  {
    hide KeepLines, Concat;
    KeepPrefix(text, from);
    var rest := text[|Concat(KeepLines(text)[..from])|..];
    KeepPrefix(rest, to - from);
    assert KeepLines(text)[from..][..to - from] == KeepLines(text)[from..to];
  }

  /** A place inside the section: below its heading, between two lines. */
  predicate InSection(text: string, p: nat) {
    Bounds(text).Some? && Bounds(text).value.0 < p <= Bounds(text).value.1 <= |text| &&
    Boundary(text[..p], text[p..])
  }

  /** Text that consists of plain lines, each with a line feed. */
  predicate PlainText(rows: string) {
    rows != "" && rows[0] != '\n' && rows[|rows| - 1] == '\n' && Plain(KeepLines(rows))
  }

  /** The section cut at a place inside it. */
  lemma SectionCut(text: string, p: nat)
    requires InSection(text, p)
    ensures var s, e := Bounds(text).value.0, Bounds(text).value.1;
            s < p <= e <= |text| && SectionText(text) == text[s..p] + text[p..e] &&
            KeepLines(SectionText(text)) == KeepLines(text[s..p]) + KeepLines(text[p..e]) &&
            KeepLines(text[s..p]) != [] && Boundary(text[s..p], text[p..e])
  {
    hide KeepLines, Bounds;
    BoundsInText(text);
    var s, e := Bounds(text).value.0, Bounds(text).value.1;
    var u, v := text[s..p], text[p..e];
    assert text[s..e] == u + v;
    assert u[|u| - 1] == text[..p][p - 1];
    if v != "" {
      assert v[0] == text[p..][0];
    }
    KeepJoin(u, v);
    NonEmptyLines(u);
  }

  lemma InsertBoundaries(u: string, rows: string, v: string)
    requires u != "" && Boundary(u, v) && PlainText(rows)
    ensures Boundary(u, rows + v) && Boundary(rows, v)
  {
  }

  /** The section with the rows put in. */
  lemma RecordedSection(text: string, p: nat, rows: string)
    requires InSection(text, p) && PlainText(rows)
    ensures var s, e := Bounds(text).value.0, Bounds(text).value.1;
            var section := text[s..p] + (rows + text[p..e]);
            IsSection(KeepLines(section)) &&
            KeepLines(section) == KeepLines(text[s..p]) + KeepLines(rows) + KeepLines(text[p..e]) &&
            FenceAfter(KeepLines(section)[1..], false) == FenceAfter(KeepLines(SectionText(text))[1..], false)
  {
    hide KeepLines, Bounds, IsSection, FenceAfter, Boundary;
    SectionCut(text, p);
    SectionOfText(text);
    var s, e := Bounds(text).value.0, Bounds(text).value.1;
    var u, v := text[s..p], text[p..e];
    InsertBoundaries(u, rows, v);
    KeepJoin(u, rows + v);
    KeepJoin(rows, v);
    var a, r, b := KeepLines(u), KeepLines(rows), KeepLines(v);
    PlainInserted(a, r, b);
    assert a + (r + b) == a + r + b;
  }

  /** Where more text follows, the section with the rows ends its line. */
  lemma RecordedEnd(text: string, p: nat, rows: string)
    requires InSection(text, p) && PlainText(rows) && Bounds(text).value.1 < |text|
    ensures var s, e := Bounds(text).value.0, Bounds(text).value.1;
            var section := text[s..p] + (rows + text[p..e]);
            section != "" && IsBreak(section[|section| - 1])
  {
    hide KeepLines, Bounds, IsSection, FenceAfter, IsBreak;
    SectionCut(text, p);
    SectionOfText(text);
    var e := Bounds(text).value.1;
    var v := text[p..e];
    if v != "" {
      assert v[|v| - 1] == text[..e][e - 1];
    } else {
      FeedBreaks();
    }
  }

  lemma FeedBreaks()
    ensures IsBreak('\n')
  {
  }

  /**
   Recording amendments anywhere below the section's heading never changes the canonical content, and adds exactly
   the references of the new rows, at their place.
   */
  lemma RecordAmendment(text: string, p: nat, rows: string)
    requires InSection(text, p) && PlainText(rows)
    ensures var s, e := Bounds(text).value.0, Bounds(text).value.1;
            var more := text[..p] + rows + text[p..];
            p <= e <= |text| &&
            Canonical(more) == Canonical(text) &&
            Refs(text) == RefsOf(KeepLines(text[s..p])) + RefsOf(KeepLines(text[p..e])) &&
            Refs(more) == RefsOf(KeepLines(text[s..p])) + RefsOf(KeepLines(rows)) + RefsOf(KeepLines(text[p..e]))
  {
    hide KeepLines, Bounds, IsSection, FenceAfter, Boundary, Canonical, StripAmendments, SplitLines, RefsOf, PlainText;
    SectionCut(text, p);
    SectionOfText(text);
    RecordedSection(text, p, rows);
    var s, e := Bounds(text).value.0, Bounds(text).value.1;
    var u, v := text[s..p], text[p..e];
    var section := u + (rows + v);
    if e < |text| {
      RecordedEnd(text, p, rows);
    }
    ReplaceSection(text, section);
    var more := text[..p] + rows + text[p..];
    assert more == text[..s] + section + text[e..];
    assert more[s..s + |section|] == section;
    RefsKept(SectionText(text));
    RefsKept(section);
    RefsJoin(KeepLines(u), KeepLines(v));
    RefsJoin(KeepLines(u), KeepLines(rows));
    RefsJoin(KeepLines(u) + KeepLines(rows), KeepLines(v));
  }

  /** One recorded row. */
  lemma RowText(date: string, ref: string, summary: string)
    requires IsCell(date) && IsCell(ref) && IsCell(summary) && IsLine(date) && IsLine(ref) && IsLine(summary)
    ensures var line := Row(date, ref, summary) + "\n";
            PlainText(line) && KeepLines(line) == [line] && RowRef(line) == RowRef(Row(date, ref, summary))
  {
    hide StripLeft, StripRight, IsSpace, IsBreak, Cells, IsSeparator, Lower;
    var row := Row(date, ref, summary);
    var line := row + "\n";
    RowIsLine(date, ref, summary);
    OneLine(row);
    BarIsPlain(line);
    StripFeed(row);
    assert line[|line| - 1] == '\n';
  }

  lemma RowIsLine(date: string, ref: string, summary: string)
    requires IsLine(date) && IsLine(ref) && IsLine(summary)
    ensures IsLine(Row(date, ref, summary)) && Row(date, ref, summary)[0] == '|'
  {
    LineJoin("| ", date);
    LineJoin("| " + date, " | ");
    LineJoin("| " + date + " | ", ref);
    LineJoin("| " + date + " | " + ref, " | ");
    LineJoin("| " + date + " | " + ref + " | ", summary);
    LineJoin("| " + date + " | " + ref + " | " + summary, " |");
  }

  lemma LineJoin(a: string, b: string)
    requires IsLine(a) && IsLine(b)
    ensures IsLine(a + b)
  {
    hide IsBreak;
  }

  lemma {:induction false} OneLine(line: string)
    requires IsLine(line)
    ensures KeepLines(line + "\n") == [line + "\n"]
  {
    LengthOfLine(line);
    var t := line + "\n";
    assert t[..|t|] == t && t[|t|..] == "";
    NoLines();
  }

  lemma {:induction false} LengthOfLine(line: string)
    requires IsLine(line)
    ensures LineLength(line + "\n") == |line| + 1
  {
    if line == "" {
      assert line + "\n" == "\n";
    } else {
      assert (line + "\n")[1..] == line[1..] + "\n";
      LengthOfLine(line[1..]);
    }
  }

  lemma BarIsPlain(line: string)
    requires line != "" && line[0] == '|'
    ensures Plain([line])
  {
    ChompPrefix(line);
  }

  lemma StripFeed(line: string)
    ensures Strip(line + "\n") == Strip(line)
  {
    StripLeftTrail(line, '\n');
  }

  // ---- The gate -----------------------------------------------------------------------------------------------

  /** An accepted record: its text at the base, where it existed, and its text now. */
  datatype Copy = Copy(id: string, base: Option<string>, head: Option<string>)

  datatype Failure = BaseUnresolved | Unrecorded(id: string)

  predicate NewRef(copy: Copy)
    requires copy.base.Some? && copy.head.Some?
  {
    exists i :: 0 <= i < |Refs(copy.head.value)| && Refs(copy.head.value)[i] !in Refs(copy.base.value)
  }

  predicate IsUnrecorded(copy: Copy, digest: string -> string) {
    copy.base.Some? && copy.head.Some? &&
    digest(Canonical(copy.base.value)) != digest(Canonical(copy.head.value)) && !NewRef(copy)
  }

  function UnrecordedEdits(copies: seq<Copy>, digest: string -> string): seq<Failure> {
    if copies == [] then [] else
      var k := |copies| - 1;
      UnrecordedEdits(copies[..k], digest) + if IsUnrecorded(copies[k], digest) then [Unrecorded(copies[k].id)] else []
  }

  /** `_check_unrecorded_edits`; `resolved` says whether the base revision names a commit. */
  method CheckUnrecordedEdits(copies: seq<Copy>, staged: bool, resolved: bool, digest: string -> string)
    returns (failures: seq<Failure>)
    ensures failures == if !staged && !resolved then [BaseUnresolved] else UnrecordedEdits(copies, digest)
  {
    hide Refs, Canonical;
    failures := [];
    if !staged && !resolved {
      return [BaseUnresolved];
    }
    for k := 0 to |copies|
      invariant failures == UnrecordedEdits(copies[..k], digest)
    {
      assert copies[..k + 1][..k] == copies[..k];
      var copy := copies[k];
      if copy.base.Some? && copy.head.Some? &&
         digest(Canonical(copy.base.value)) != digest(Canonical(copy.head.value)) {
        var was := AmendmentRefs(copy.base.value);
        var now := AmendmentRefs(copy.head.value);
        var newRefs := (set r | r in now) - (set r | r in was);
        NewRefs(copy, newRefs);
        if newRefs == {} {
          failures := failures + [Unrecorded(copy.id)];
        }
      }
    }
    assert copies[..|copies|] == copies;
  }

  lemma NewRefs(copy: Copy, newRefs: set<string>)
    requires copy.base.Some? && copy.head.Some?
    requires newRefs == (set r | r in Refs(copy.head.value)) - (set r | r in Refs(copy.base.value))
    ensures newRefs != {} <==> NewRef(copy)
  {
    hide Refs;
    var now := Refs(copy.head.value);
    if newRefs != {} {
      var r :| r in newRefs;
      var i :| 0 <= i < |now| && now[i] == r;
    } else {
      forall i | 0 <= i < |now| ensures now[i] in Refs(copy.base.value) {
        assert now[i] !in newRefs;
      }
    }
  }

  /**
   Where the digest tells the two contents apart, an entry fails exactly when the cores differ and no row carries a
   reference that the base did not have.
   */
  lemma UnrecordedExact(copy: Copy, digest: string -> string)
    requires copy.base.Some? && copy.head.Some?
    requires var a, b := Canonical(copy.base.value), Canonical(copy.head.value);
             digest(a) == digest(b) ==> a == b
    ensures IsUnrecorded(copy, digest) <==> Core(copy.base.value) != Core(copy.head.value) && !NewRef(copy)
  {
    hide Core, Canonical, NewRef;
    CanonicalExact(copy.base.value, copy.head.value);
  }

  /** A record whose only change is in rows of its section never fails, whatever the digest. */
  lemma AmendmentOnlyPasses(id: string, text: string, p: nat, rows: string, digest: string -> string)
    requires InSection(text, p) && PlainText(rows)
    ensures !IsUnrecorded(Copy(id, Some(text), Some(text[..p] + rows + text[p..])), digest)
  {
    hide Canonical, PlainText, Refs;
    RecordAmendment(text, p, rows);
  }

  /** Any edit passes once a row with a reference that the base did not have is recorded in its section. */
  lemma RecordedEditPasses(id: string, base: string, edited: string, p: nat,
                           date: string, ref: string, summary: string, digest: string -> string)
    requires InSection(edited, p)
    requires IsCell(date) && IsCell(ref) && IsCell(summary) && IsLine(date) && IsLine(ref) && IsLine(summary)
    requires Lower(date) != "date" && exists k :: 0 <= k < |date| && date[k] !in {'-', ':', ' '}
    requires ref !in Refs(base)
    ensures var recorded := edited[..p] + (Row(date, ref, summary) + "\n") + edited[p..];
            !IsUnrecorded(Copy(id, Some(base), Some(recorded)), digest)
  {
    hide Canonical, PlainText, Refs, RowRef, KeepLines, IsCell, IsLine, Lower, Row, Boundary, Bounds;
    SectionCut(edited, p);
    var line := Row(date, ref, summary) + "\n";
    RowText(date, ref, summary);
    RowRecords(date, ref, summary);
    RecordAmendment(edited, p, line);
    OneRef(line);
    var recorded := edited[..p] + line + edited[p..];
    var before := RefsOf(KeepLines(edited[Bounds(edited).value.0..p]));
    assert Refs(recorded)[|before|] == ref;
  }

  lemma OneRef(line: string)
    requires RowRef(line).Some?
    ensures RefsOf([line]) == [RowRef(line).value]
  {
    hide RowRef;
    assert [line][..0] == [];
  }
}
