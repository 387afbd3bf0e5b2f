/** What may happen to the Amendments section without any effect on the canonical content. */
module AdrAmendments {
  import opened Options
  import opened TextLines
  import opened AdrLines
  import opened AdrSections
  import opened AdrCanonical

  /** An Amendments heading and lines without another level-two heading outside a fence. */
  predicate IsSection(lines: seq<string>) {
    lines != [] && IsAmendments(lines[0]) && SectionLength(lines[1..], false) == |lines| - 1
  }

  lemma AmendmentsStart(line: string)
    requires IsAmendments(line)
    ensures IsHeading(line) && line != "" && line[0] == '#' && !IsFence(line)
  {
    HeadingStart(line);
  }

  lemma SectionFound(lines: seq<string>)
    requires lines != [] && IsAmendments(lines[0])
    ensures FindHeading(lines, false) == Some(0)
  {
    AmendmentsStart(lines[0]);
  }

  lemma SectionStops(lines: seq<string>)
    requires lines == [] || IsHeading(lines[0])
    ensures SectionLength(lines, false) == 0
  {
    if lines != [] {
      HeadingStart(lines[0]);
    }
  }

  lemma FindPart(before: seq<string>, rest: seq<string>)
    requires FindHeading(before, false).None? && !FenceAfter(before, false)
    requires rest != [] && IsAmendments(rest[0])
    ensures FindHeading(before + rest, false) == Some(|before|)
  {
    hide FindHeading, FenceAfter, IsAmendments;
    FindJoin(before, rest, false);
    SectionFound(rest);
  }

  lemma LengthPart(body: seq<string>, after: seq<string>)
    requires SectionLength(body, false) == |body|
    requires after != [] ==> !FenceAfter(body, false) && IsHeading(after[0])
    ensures SectionLength(body + after, false) == |body|
  {
    hide SectionLength, FenceAfter, IsHeading;
    LengthJoin(body, after, false);
    if after != [] {
      SectionStops(after);
    } else {
      NothingFound(after, FenceAfter(body, false));
    }
  }

  /** The bounds of lines that are put together from lines before the section, the section, and the rest. */
  lemma BoundsOfParts(before: seq<string>, section: seq<string>, after: seq<string>)
    requires FindHeading(before, false).None? && !FenceAfter(before, false) && IsSection(section)
    requires after != [] ==> !FenceAfter(section[1..], false) && IsHeading(after[0])
    ensures LineBounds(before + section + after) == Some((|before|, |before| + |section|))
  {
    hide FindHeading, SectionLength, FenceAfter, IsAmendments, IsHeading, LineBounds;
    SliceParts(before, section, after);
    BoundsOfRest(before, section[0], section[1..], after, section + after);
    assert before + section + after == before + (section + after);
  }

  /** The bounds of lines before the section and the rest of the text, whose first line is the heading. */
  lemma BoundsOfRest(before: seq<string>, heading: string, body: seq<string>, after: seq<string>, rest: seq<string>)
    requires FindHeading(before, false).None? && !FenceAfter(before, false) && IsAmendments(heading)
    requires SectionLength(body, false) == |body|
    requires after != [] ==> !FenceAfter(body, false) && IsHeading(after[0])
    requires rest != [] && rest[0] == heading && (before + rest)[|before| + 1..] == body + after
    ensures LineBounds(before + rest) == Some((|before|, |before| + 1 + |body|))
  {
    hide FindHeading, SectionLength, FenceAfter, IsAmendments, IsHeading, LineBounds;
    FindPart(before, rest);
    LengthPart(body, after);
    BoundsFrom(before + rest, |before|, |body|);
  }

  lemma SliceParts(before: seq<string>, section: seq<string>, after: seq<string>)
    requires section != []
    ensures before + section + after == before + (section + after)
    ensures (section + after)[0] == section[0]
    ensures (before + (section + after))[|before| + 1..] == section[1..] + after
  {
  }

  lemma BoundsFrom(lines: seq<string>, h: nat, n: nat)
    requires FindHeading(lines, false) == Some(h) && h < |lines| && SectionLength(lines[h + 1..], false) == n
    ensures LineBounds(lines) == Some((h, h + 1 + n))
  {
    hide FindHeading, SectionLength, FenceAfter, IsAmendments, IsHeading;
  }

  /** A text from three parts that meet at line boundaries, cut again. */
  lemma PartsCut(before: string, section: string, after: string)
    requires Boundary(before, section + after) && Boundary(section, after)
    requires FindHeading(KeepLines(before), false).None? && !FenceAfter(KeepLines(before), false)
    requires IsSection(KeepLines(section))
    requires after != "" ==> !FenceAfter(KeepLines(section)[1..], false) && IsHeading(KeepLines(after)[0])
    ensures Bounds(before + section + after) == Some((|before|, |before| + |section|))
    ensures StripAmendments(before + section + after) == before + after
  {
    hide KeepLines, LineBounds, Boundary, FindHeading, FenceAfter, IsSection, IsHeading, Concat, Bounds,
         StripAmendments;
    KeepParts(before, section, after);
    NoLines();
    BoundsOfParts(KeepLines(before), KeepLines(section), KeepLines(after));
    CutParts(before, section, after);
    StripAt(before + section + after, |before|, |before| + |section|);
    FrontParts(before, section, after);
  }

  /** Line bounds around the middle part, as character bounds. */
  lemma CutParts(before: string, section: string, after: string)
    requires KeepLines(before + section + after) == KeepLines(before) + KeepLines(section) + KeepLines(after)
    requires LineBounds(KeepLines(before) + KeepLines(section) + KeepLines(after)) ==
             Some((|KeepLines(before)|, |KeepLines(before)| + |KeepLines(section)|))
    ensures Bounds(before + section + after) == Some((|before|, |before| + |section|))
  {
    hide KeepLines, LineBounds, Concat, Bounds;
    var a, s := KeepLines(before), KeepLines(section);
    FrontParts(a, s, KeepLines(after));
    ConcatKeep(before);
    ConcatKeep(section);
    ConcatJoin(a, s);
    BoundsOf(before + section + after);
  }

  lemma StripAt(text: string, s: nat, e: nat)
    requires Bounds(text) == Some((s, e))
    ensures s <= e <= |text| && StripAmendments(text) == text[..s] + text[e..]
  {
    hide Bounds, KeepLines, LineBounds, Concat;
    BoundsInText(text);
  }

  lemma KeepParts(before: string, section: string, after: string)
    requires Boundary(before, section + after) && Boundary(section, after)
    ensures KeepLines(before + section + after) == KeepLines(before) + KeepLines(section) + KeepLines(after)
  {
    hide KeepLines, Boundary;
    var a, s, z := KeepLines(before), KeepLines(section), KeepLines(after);
    KeepJoin(before, section + after);
    KeepJoin(section, after);
    assert before + section + after == before + (section + after);
    assert a + (s + z) == a + s + z;
  }

  lemma FrontParts<T>(a: seq<T>, b: seq<T>, c: seq<T>)
    ensures (a + b + c)[..|a|] == a && (a + b + c)[..|a| + |b|] == a + b && (a + b + c)[|a| + |b|..] == c
  {
  }

  lemma BoundsOf(text: string)
    requires LineBounds(KeepLines(text)).Some?
    ensures var b := LineBounds(KeepLines(text)).value;
            Bounds(text) == Some((|Concat(KeepLines(text)[..b.0])|, |Concat(KeepLines(text)[..b.1])|))
  {
    hide KeepLines, LineBounds, Concat;
  }

  /** What the text before and behind a section is like. */
  lemma SurroundingParts(text: string)
    requires Bounds(text).Some?
    ensures var s, e := Bounds(text).value.0, Bounds(text).value.1;
            s <= e <= |text| &&
            FindHeading(KeepLines(text[..s]), false).None? && !FenceAfter(KeepLines(text[..s]), false) &&
            (text[e..] != "" ==> IsHeading(KeepLines(text[e..])[0])) &&
            StripAmendments(text) == text[..s] + text[e..]
  {
    hide KeepLines, FindHeading, FenceAfter, IsHeading, Concat, LineBounds;
    BoundsInText(text);
    BoundsSome(text);
    var lines, e := KeepLines(text), Bounds(text).value.1;
    HeadingFound(lines);
    SectionEnds(lines);
    if text[e..] != "" {
      KeepFirst(text[e..]);
    }
  }

  lemma HeadingFound(lines: seq<string>)
    requires LineBounds(lines).Some?
    ensures var h := LineBounds(lines).value.0;
            h < |lines| && FindHeading(lines[..h], false).None? && !FenceAfter(lines[..h], false)
  {
    BeforeHeading(lines, false);
  }

  lemma SameCanonical(a: string, b: string)
    ensures StripAmendments(a) == StripAmendments(b) ==> Canonical(a) == Canonical(b)
  {
    hide StripAmendments;
  }

  /** The section can be exchanged for any other one; before more text it must close its fences and end its line. */
  lemma ReplaceSection(text: string, section: string)
    requires Bounds(text).Some? && IsSection(KeepLines(section))
    requires Bounds(text).value.1 < |text| ==>
               !FenceAfter(KeepLines(section)[1..], false) && IsBreak(section[|section| - 1])
    ensures var s, e := Bounds(text).value.0, Bounds(text).value.1;
            s <= e <= |text| &&
            Bounds(text[..s] + section + text[e..]) == Some((s, s + |section|)) &&
            StripAmendments(text[..s] + section + text[e..]) == StripAmendments(text) &&
            Canonical(text[..s] + section + text[e..]) == Canonical(text)
  {
    hide KeepLines, FindHeading, FenceAfter, IsHeading, Boundary, IsSection, Bounds, StripAmendments, Concat,
         LineBounds, Canonical, IsBreak;
    SurroundingParts(text);
    AfterSection(text);
    var s, e := Bounds(text).value.0, Bounds(text).value.1;
    SameCanonical(text[..s] + section + text[e..], text);
    SectionStart(section);
    BeforeSection(text, section + text[e..]);
    if text[e..] == "" {
      assert text[..s] + section + "" == text[..s] + section && section + "" == section;
      assert text[..s] + "" == text[..s];
      ReplaceLast(text[..s], section);
    } else {
      EndsLine(section, text[e..]);
      PartsCut(text[..s], section, text[e..]);
    }
  }

  lemma SectionStart(section: string)
    requires IsSection(KeepLines(section))
    ensures section != "" && section[0] == '#'
  {
    AmendmentsStart(KeepLines(section)[0]);
    KeepFirst(section);
  }

  lemma EndsLine(a: string, b: string)
    requires a != "" && IsBreak(a[|a| - 1]) && b != "" && b[0] == '#'
    ensures Boundary(a, b)
  {
  }

  /** A section at the end of a text. */
  lemma ReplaceLast(before: string, section: string)
    requires Boundary(before, section)
    requires FindHeading(KeepLines(before), false).None? && !FenceAfter(KeepLines(before), false)
    requires IsSection(KeepLines(section))
    ensures Bounds(before + section) == Some((|before|, |before| + |section|))
    ensures StripAmendments(before + section) == before
  {
    hide KeepLines, LineBounds, Boundary, FindHeading, FenceAfter, IsSection, IsHeading, Concat, Bounds;
    var text := before + section;
    KeepJoin(before, section);
    var a, s := KeepLines(before), KeepLines(section);
    assert a + s + [] == a + s == KeepLines(text);
    BoundsOfParts(a, s, []);
    ConcatKeep(before);
    assert (a + s)[..|a|] == a;
    LastCut(text, |a|);
    assert text[..|before|] == before && text[|before| + |section|..] == "";
    assert before + "" == before;
  }

  /** The bounds of a section that reaches to the end. */
  lemma LastCut(text: string, h: nat)
    requires LineBounds(KeepLines(text)) == Some((h, |KeepLines(text)|))
    ensures Bounds(text) == Some((|Concat(KeepLines(text)[..h])|, |text|))
  {
    hide KeepLines, LineBounds, Concat, Bounds;
    BoundsOf(text);
    ConcatKeep(text);
    assert KeepLines(text)[..|KeepLines(text)|] == KeepLines(text);
  }

  // ---- A first section ----------------------------------------------------------------------------------------

  lemma {:induction false} StripRightSpaces(t: string)
    requires forall i :: 0 <= i < |t| ==> IsSpace(t[i])
    ensures StripRight(t) == ""
  {
    if t != "" {
      StripRightSpaces(t[..|t| - 1]);
    }
  }

  lemma {:induction false} LinesInText(t: string, k: nat, i: nat)
    requires k < |KeepLines(t)| && i < |KeepLines(t)[k]|
    ensures KeepLines(t)[k][i] in t
    decreases |t|
  {
    var n := LineLength(t);
    if k > 0 {
      LinesInText(t[n..], k - 1, i);
    }
  }

  /** The lines of white space. */
  lemma BlankLines(blanks: string)
    requires forall i :: 0 <= i < |blanks| ==> IsSpace(blanks[i])
    ensures forall i :: 0 <= i < |KeepLines(blanks)| ==> StripRight(KeepLines(blanks)[i]) == ""
  {
    hide KeepLines, StripRight, IsSpace;
    forall i | 0 <= i < |KeepLines(blanks)| ensures StripRight(KeepLines(blanks)[i]) == "" {
      var line := KeepLines(blanks)[i];
      forall k | 0 <= k < |line| ensures IsSpace(line[k]) {
        LinesInText(blanks, i, k);
      }
      StripRightSpaces(line);
    }
  }

  lemma FenceTrail(line: string, c: char)
    requires IsSpace(c)
    ensures IsFence(line + [c]) == IsFence(line)
  {
    StripLeftTail(line, c);
  }

  lemma {:induction false} StripLeftTail(line: string, c: char)
    requires IsSpace(c)
    ensures StripLeft(line + [c]) == if StripLeft(line) == "" then "" else StripLeft(line) + [c]
  {
    if line == "" {
      assert (line + [c])[1..] == "";
    } else {
      assert (line + [c])[1..] == line[1..] + [c];
      if IsSpace(line[0]) {
        StripLeftTail(line[1..], c);
      }
    }
  }

  lemma AmendmentsTrail(line: string, c: char)
    requires IsSpace(c)
    ensures AmendmentsBody(line + [c]) == AmendmentsBody(line)
  {
    hide StripRight, StripLeft;
    if |line| > 2 {
      assert (line + [c])[2..] == line[2..] + [c];
      StripLeftTrail(line[2..], c);
    } else if |line| == 2 {
      assert (line + [c])[2..] == "" + [c];
      StripLeftTrail("", c);
      StripNothing();
    }
  }

  lemma StripNothing()
    ensures Strip("") == ""
  {
  }

  lemma {:induction false} ChompKeepsAmendments(line: string)
    ensures AmendmentsBody(Chomp(line)) == AmendmentsBody(line)
  {
    hide AmendmentsBody;
    if line != "" && line[|line| - 1] == '\n' {
      var k := |line| - 1;
      ChompKeepsAmendments(line[..k]);
      assert line == line[..k] + [line[k]];
      AmendmentsTrail(line[..k], line[k]);
    }
  }

  /** Trailing white space makes no fence and no Amendments heading. */
  lemma {:induction false} TrimKeepsMarks(line: string)
    ensures IsFence(StripRight(line)) == IsFence(line)
    ensures IsAmendments(StripRight(line)) == IsAmendments(line)
  {
    hide IsFence, AmendmentsBody, IsSpace;
    ChompKeepsAmendments(line);
    ChompKeepsAmendments(StripRight(line));
    if line != "" && IsSpace(line[|line| - 1]) {
      var k := |line| - 1;
      TrimKeepsMarks(line[..k]);
      ChompKeepsAmendments(line[..k]);
      assert line == line[..k] + [line[k]];
      FenceTrail(line[..k], line[k]);
      AmendmentsTrail(line[..k], line[k]);
    }
  }

  lemma {:induction false} FindTrimmed(lines: seq<string>, fence: bool)
    ensures FindHeading(TrimAll(lines), fence) == FindHeading(lines, fence)
    ensures FenceAfter(TrimAll(lines), fence) == FenceAfter(lines, fence)
  {
    hide IsFence, IsAmendments, StripRight;
    if lines != [] {
      TrimKeepsMarks(lines[0]);
      assert TrimAll(lines)[1..] == TrimAll(lines[1..]);
      FindTrimmed(lines[1..], fence != IsFence(lines[0]));
    }
  }

  ghost predicate AllEmpty(lines: seq<string>) {
    forall i :: 0 <= i < |lines| ==> lines[i] == ""
  }

  lemma {:induction false} EmptyMarksNothing(lines: seq<string>, fence: bool)
    requires AllEmpty(lines)
    ensures FindHeading(lines, fence).None? && FenceAfter(lines, fence) == fence
  {
    if lines != [] {
      assert lines[0] == "";
      EmptyMarksNothing(lines[1..], fence);
    }
  }

  lemma BlanksMarkNothing(blanks: string, fence: bool)
    requires forall i :: 0 <= i < |blanks| ==> IsSpace(blanks[i])
    ensures FindHeading(KeepLines(blanks), fence).None? && FenceAfter(KeepLines(blanks), fence) == fence
  {
    hide KeepLines, StripRight, IsSpace, FindHeading, FenceAfter;
    BlankLines(blanks);
    FindTrimmed(KeepLines(blanks), fence);
    EmptyMarksNothing(TrimAll(KeepLines(blanks)), fence);
  }

  lemma {:induction false} DropTail(a: seq<string>, b: seq<string>)
    requires AllEmpty(b)
    ensures DropEmpty(a + b) == DropEmpty(a)
  {
    if b == [] {
      assert a + b == a;
    } else {
      var k := |b| - 1;
      assert (a + b)[..|a| + k] == a + b[..k];
      DropTail(a, b[..k]);
    }
  }

  lemma CoreOfCut(text: string)
    ensures Core(text) == DropEmpty(TrimAll(KeepLines(StripAmendments(text))))
  {
    hide KeepLines, BodyLines, TrimAll, StripAmendments, DropEmpty;
    CutLines(text);
  }

  lemma TrimAllJoin(a: seq<string>, b: seq<string>)
    ensures TrimAll(a + b) == TrimAll(a) + TrimAll(b)
  {
    hide StripRight;
  }

  lemma NothingToCut(text: string)
    requires Bounds(text).None?
    ensures StripAmendments(text) == text && FindHeading(KeepLines(text), false).None?
  {
  }

  /** The text before an appended section: the record and blank lines. */
  lemma AppendedLines(text: string, blanks: string)
    requires text == "" || text[|text| - 1] == '\n'
    requires (forall i :: 0 <= i < |blanks| ==> IsSpace(blanks[i])) && (blanks == "" || IsBreak(blanks[|blanks| - 1]))
    requires Bounds(text).None?
    ensures KeepLines(text + blanks) == KeepLines(text) + KeepLines(blanks)
    ensures FindHeading(KeepLines(text + blanks), false).None?
    ensures FenceAfter(KeepLines(text + blanks), false) == FenceAfter(KeepLines(text), false)
    ensures DropEmpty(TrimAll(KeepLines(text + blanks))) == Core(text)
  {
    hide KeepLines, FindHeading, FenceAfter, IsSpace, TrimAll, DropEmpty, Bounds, StripAmendments, StripRight;
    FeedBoundary(text, blanks);
    KeepJoin(text, blanks);
    NothingToCut(text);
    var a, b := KeepLines(text), KeepLines(blanks);
    FindJoin(a, b, false);
    FenceJoin(a, b, false);
    BlanksMarkNothing(blanks, FenceAfter(a, false));
    BlankLines(blanks);
    TrimAllJoin(a, b);
    TrimBlank(b);
    DropTail(TrimAll(a), TrimAll(b));
    CoreOfCut(text);
  }

  lemma TrimBlank(lines: seq<string>)
    requires forall i :: 0 <= i < |lines| ==> StripRight(lines[i]) == ""
    ensures AllEmpty(TrimAll(lines))
  {
    hide StripRight;
  }

  lemma FeedBoundary(a: string, b: string)
    requires a == "" || a[|a| - 1] == '\n'
    ensures Boundary(a, b)
  {
  }

  lemma BreakBoundary(text: string, blanks: string, section: string)
    requires text == "" || text[|text| - 1] == '\n'
    requires blanks == "" || IsBreak(blanks[|blanks| - 1])
    requires section != "" && section[0] == '#'
    ensures Boundary(text + blanks, section)
  {
    if blanks != "" {
      assert (text + blanks)[|text + blanks| - 1] == blanks[|blanks| - 1];
    } else {
      assert text + blanks == text;
    }
  }

  /** In an open fence the first line of the appended section stays in the content. */
  lemma AppendedInFence(before: string, section: string)
    requires Boundary(before, section) && IsSection(KeepLines(section))
    requires FindHeading(KeepLines(before), false).None? && FenceAfter(KeepLines(before), false)
    ensures |Core(before + section)| > |KeepLines(before)|
  {
    hide KeepLines, FenceAfter, IsAmendments, IsFence, Boundary, SectionLength, Concat, StripRight;
    var text := before + section;
    KeepJoin(before, section);
    var a, s := KeepLines(before), KeepLines(section);
    var lines := KeepLines(text);
    FindJoin(a, s, false);
    AmendmentsStart(s[0]);
    var body := BodyLines(text);
    assert body[|a|] == s[0];
    HeadingStays(s[0]);
    assert TrimAll(body)[|a|] != "";
  }

  lemma HeadingStays(line: string)
    requires IsAmendments(line)
    ensures StripRight(line) != ""
  {
    TrimKeepsMarks(line);
  }

  /**
   A first section appended to a text that ends with a line feed, after any blank lines, leaves the canonical content
   unchanged if and only if the text closes its fences.
   */
  lemma AppendSectionExact(text: string, blanks: string, section: string)
    requires Bounds(text).None? && (text == "" || text[|text| - 1] == '\n')
    requires (forall i :: 0 <= i < |blanks| ==> IsSpace(blanks[i])) && (blanks == "" || IsBreak(blanks[|blanks| - 1]))
    requires IsSection(KeepLines(section))
    ensures Canonical(text + blanks + section) == Canonical(text) <==> !FenceAfter(KeepLines(text), false)
  {
    hide KeepLines, FindHeading, FenceAfter, IsSpace, IsSection, Boundary, Core, Canonical, Bounds, StripAmendments,
         TrimAll, DropEmpty, IsBreak;
    var before := text + blanks;
    SectionStart(section);
    AppendedLines(text, blanks);
    BreakBoundary(text, blanks, section);
    CanonicalExact(before + section, text);
    if FenceAfter(KeepLines(text), false) {
      AppendedInFence(before, section);
      CoreLength(text);
    } else {
      ReplaceLast(before, section);
      CoreOfCut(before + section);
    }
  }

  lemma CoreLength(text: string)
    requires Bounds(text).None?
    ensures |Core(text)| <= |KeepLines(text)|
  {
    hide KeepLines, TrimAll;
    NothingToCut(text);
    CoreOfCut(text);
  }

  // ---- Twice --------------------------------------------------------------------------------------------------

  /** The lines of canonical content, trimmed, are the core, or one empty line. */
  lemma CanonicalLines(text: string)
    ensures TrimAll(KeepLines(Canonical(text))) == if Core(text) == [] then [""] else Core(text)
  {
    hide KeepLines, SplitLines, Canonical, BodyLines, StripRight, Strip;
    var c := Canonical(text);
    KeepAndSplit(c);
    CoreReadBack(text);
    TrimAllTrimmed(BodyLines(text));
    assert TrimAll(KeepLines(c)) == TrimAll(SplitLines(c));
    var core := Core(text);
    if core == [] {
      StripNothingRight();
      assert TrimAll([""]) == [""];
    } else {
      assert TrimAll(core) == core;
    }
  }

  lemma StripNothingRight()
    ensures StripRight("") == ""
  {
  }

  /** Whether the body still holds an Amendments section shows in its core. */
  lemma HeadingInCore(text: string)
    ensures FindHeading(Core(text), false) == FindHeading(BodyLines(text), false)
  {
    hide BodyLines, FindHeading, FenceAfter, StripRight;
    var trimmed, core := TrimAll(BodyLines(text)), Core(text);
    FindTrimmed(BodyLines(text), false);
    var rest := trimmed[|core|..];
    assert trimmed == core + rest;
    FindJoin(core, rest, false);
    EmptyMarksNothing(rest, FenceAfter(core, false));
  }

  /** Canonical content stays what it is exactly when the record had at most one Amendments section. */
  lemma IdempotentExact(text: string)
    ensures Canonical(Canonical(text)) == Canonical(text) <==> Bounds(StripAmendments(text)).None?
  {
    hide KeepLines, FindHeading, BodyLines, Canonical, StripAmendments, TrimAll, Core, SectionLength;
    var c := Canonical(text);
    var core := Core(text);
    CanonicalExact(c, text);
    CanonicalLines(text);
    HeadingInCore(text);
    CutLines(text);
    FindTrimmed(KeepLines(c), false);
    OneEmptyLine();
    CoreEnd(text);
    BoundsSome(StripAmendments(text));
    BoundsSome(c);
    if FindHeading(core, false).None? {
      NoHeadingLeft(c);
      DropNothing(core);
    } else {
      HeadingCut(c);
    }
  }

  lemma OneEmptyLine()
    ensures FindHeading([""], false).None? && FindHeading([], false).None? && DropEmpty([""]) == []
  {
    EmptyMarksNothing([""], false);
    EmptyMarksNothing([], false);
    assert [""][..0] == [];
  }

  lemma DropNothing(lines: seq<string>)
    requires lines == [] || lines[|lines| - 1] != ""
    ensures DropEmpty(lines) == lines
  {
  }

  lemma NoHeadingLeft(text: string)
    requires FindHeading(KeepLines(text), false).None?
    ensures Core(text) == DropEmpty(TrimAll(KeepLines(text)))
  {
  }

  lemma HeadingCut(text: string)
    requires FindHeading(KeepLines(text), false).Some?
    ensures |Core(text)| < |KeepLines(text)|
  {
    hide KeepLines, FindHeading, SectionLength, StripRight;
    var b := LineBounds(KeepLines(text)).value;
    assert |BodyLines(text)| < |KeepLines(text)|;
  }
}
