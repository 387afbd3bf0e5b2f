/** The Amendments section of a decision record: where it starts and ends, line by line and as character bounds. */
module AdrSections {
  import opened Options
  import opened TextLines
  import opened AdrLines

  // ---- Lines --------------------------------------------------------------------------------------------------

  /** `line.rstrip("\n")`. */
  function Chomp(line: string): string {
    if line != "" && line[|line| - 1] == '\n' then Chomp(line[..|line| - 1]) else line
  }

  /** `line.lstrip().startswith("```")`. */
  predicate IsFence(line: string) {
    var t := StripLeft(line);
    |t| >= 3 && t[0] == t[1] == t[2] == '`'
  }

  /** `re.match(r"##\s+", body)`. */
  predicate HeadingBody(body: string) {
    |body| > 2 && body[0] == body[1] == '#' && IsSpace(body[2])
  }

  /** `re.fullmatch(r"##\s+Amendments\s*", body)`. */
  predicate AmendmentsBody(body: string) {
    HeadingBody(body) && Strip(body[2..]) == "Amendments"
  }

  predicate IsHeading(line: string) {
    HeadingBody(Chomp(line))
  }

  predicate IsAmendments(line: string) {
    AmendmentsBody(Chomp(line))
  }

  lemma ChompPrefix(line: string)
    ensures Chomp(line) <= line
  {
    if line != "" && line[|line| - 1] == '\n' {
      ChompPrefix(line[..|line| - 1]);
    }
  }

  /** A heading line starts with a hash, so it is no fence. */
  lemma HeadingStart(line: string)
    requires IsHeading(line)
    ensures line != "" && line[0] == '#' && !IsFence(line)
  {
    ChompPrefix(line);
  }

  // ---- The scan -----------------------------------------------------------------------------------------------

  /** Whether a fence is open after the lines. */
  function FenceAfter(lines: seq<string>, fence: bool): bool {
    if lines == [] then fence else FenceAfter(lines[1..], fence != IsFence(lines[0]))
  }

  /** The first Amendments heading outside a fence. */
  function FindHeading(lines: seq<string>, fence: bool): (r: Option<nat>)
    ensures r.Some? ==> r.value < |lines| && IsAmendments(lines[r.value])
  {
    if lines == [] then None
    else if !fence && !IsFence(lines[0]) && IsAmendments(lines[0]) then Some(0)
    else
      var rest := FindHeading(lines[1..], fence != IsFence(lines[0]));
      if rest.Some? then Some(rest.value + 1) else None
  }

  /** The number of lines before the first level-two heading outside a fence. */
  function SectionLength(lines: seq<string>, fence: bool): (n: nat)
    ensures n <= |lines|
    ensures n < |lines| ==> IsHeading(lines[n]) && !FenceAfter(lines[..n], fence)
  {
    if lines == [] then 0
    else if !fence && !IsFence(lines[0]) && IsHeading(lines[0]) then 0
    else
      var n := SectionLength(lines[1..], fence != IsFence(lines[0]));
      assert lines[..n + 1][1..] == lines[1..][..n];
      n + 1
  }

  /** The lines of the section: from its heading to the next level-two heading or the end. */
  function LineBounds(lines: seq<string>): (r: Option<(nat, nat)>)
    ensures r.Some? ==> r.value.0 < r.value.1 <= |lines|
  {
    var h := FindHeading(lines, false);
    if h.None? then None
    else Some((h.value, h.value + 1 + SectionLength(lines[h.value + 1..], false)))
  }

  function Offset(lines: seq<string>, k: nat): nat
    requires k <= |lines|
  {
    |Concat(lines[..k])|
  }

  /** `_amendments_section_bounds`. */
  function Bounds(text: string): Option<(nat, nat)> {
    var lines := KeepLines(text);
    var b := LineBounds(lines);
    if b.None? then None else Some((Offset(lines, b.value.0), Offset(lines, b.value.1)))
  }

  lemma OffsetNext(lines: seq<string>, k: nat)
    requires k < |lines|
    ensures Offset(lines, k + 1) == Offset(lines, k) + |lines[k]|
  {
    assert lines[..k + 1] == lines[..k] + [lines[k]];
    ConcatJoin(lines[..k], [lines[k]]);
    assert Concat([lines[k]]) == lines[k] + Concat([lines[k]][1..]);
  }

  /** A heading ends the fence question: the line that was searched for is the next one. */
  lemma FindStep(lines: seq<string>, i: nat, fence: bool)
    requires i < |lines|
    ensures var line := lines[i];
            FindHeading(lines[i..], fence) ==
              if !fence && !IsFence(line) && IsAmendments(line) then Some(0)
              else
                var rest := FindHeading(lines[i + 1..], fence != IsFence(line));
                if rest.Some? then Some(rest.value + 1) else None
  {
    assert lines[i..][1..] == lines[i + 1..];
  }

  lemma LengthStep(lines: seq<string>, i: nat, fence: bool)
    requires i < |lines|
    ensures var line := lines[i];
            SectionLength(lines[i..], fence) ==
              if !fence && !IsFence(line) && IsHeading(line) then 0
              else 1 + SectionLength(lines[i + 1..], fence != IsFence(line))
  {
    assert lines[i..][1..] == lines[i + 1..];
  }

  /** The first loop: the character at which each line starts, and the length of the text. */
  method LineStarts(lines: seq<string>) returns (starts: seq<nat>, cursor: nat)
    ensures |starts| == |lines| && forall i :: 0 <= i < |lines| ==> starts[i] == Offset(lines, i)
    ensures cursor == Offset(lines, |lines|)
  {
    starts, cursor := [], 0;
    for k := 0 to |lines|
      invariant |starts| == k && cursor == Offset(lines, k)
      invariant forall i :: 0 <= i < k ==> starts[i] == Offset(lines, i)
    {
      OffsetNext(lines, k);
      starts := starts + [cursor];
      cursor := cursor + |lines[k]|;
    }
  }

  /** `_amendments_section_bounds`, with its two loops. */
  method AmendmentsSectionBounds(text: string) returns (bounds: Option<(nat, nat)>)
    ensures bounds == Bounds(text)
  {
    hide FindHeading, SectionLength, IsFence, IsAmendments, IsHeading, KeepLines, FenceAfter, Offset;
    var lines := KeepLines(text);
    var starts, total := LineStarts(lines);
    var fence, headingLine: Option<nat> := false, None;
    assert lines[0..] == lines;
    for index := 0 to |lines|
      invariant headingLine.None? ==>
                  var rest := FindHeading(lines[index..], fence);
                  FindHeading(lines, false) == if rest.Some? then Some(index + rest.value) else None
      invariant headingLine.Some? ==>
                  var h := headingLine.value;
                  h < index && FindHeading(lines, false) == headingLine &&
                  h + 1 + SectionLength(lines[h + 1..], false) == index + SectionLength(lines[index..], fence)
    {
      FindStep(lines, index, fence);
      LengthStep(lines, index, fence);
      if IsFence(lines[index]) {
        fence := !fence;
      } else if !fence {
        if headingLine.None? {
          if IsAmendments(lines[index]) {
            headingLine := Some(index);
          }
        } else if IsHeading(lines[index]) {
          return Some((starts[headingLine.value], starts[index]));
        }
      }
    }
    NothingFound(lines[|lines|..], fence);
    if headingLine.None? {
      return None;
    }
    return Some((starts[headingLine.value], total));
  }

  lemma NothingFound(lines: seq<string>, fence: bool)
    requires lines == []
    ensures FindHeading(lines, fence).None? && SectionLength(lines, fence) == 0 && FenceAfter(lines, fence) == fence
  {
  }

  // ---- Composition --------------------------------------------------------------------------------------------

  lemma {:induction false} FenceJoin(a: seq<string>, b: seq<string>, fence: bool)
    ensures FenceAfter(a + b, fence) == FenceAfter(b, FenceAfter(a, fence))
  {
    hide IsFence;
    if a == [] {
      assert a + b == b;
    } else {
      assert (a + b)[1..] == a[1..] + b;
      FenceJoin(a[1..], b, fence != IsFence(a[0]));
    }
  }

  lemma {:induction false} FindJoin(a: seq<string>, b: seq<string>, fence: bool)
    ensures FindHeading(a + b, fence) ==
              if FindHeading(a, fence).Some? then FindHeading(a, fence)
              else
                var rest := FindHeading(b, FenceAfter(a, fence));
                if rest.Some? then Some(|a| + rest.value) else None
  {
    hide IsFence, IsAmendments;
    if a == [] {
      assert a + b == b;
    } else {
      assert (a + b)[1..] == a[1..] + b;
      FindJoin(a[1..], b, fence != IsFence(a[0]));
    }
  }

  lemma {:induction false} LengthJoin(a: seq<string>, b: seq<string>, fence: bool)
    ensures SectionLength(a + b, fence) ==
              if SectionLength(a, fence) < |a| then SectionLength(a, fence)
              else |a| + SectionLength(b, FenceAfter(a, fence))
  {
    hide IsFence, IsHeading;
    if a == [] {
      assert a + b == b;
    } else {
      assert (a + b)[1..] == a[1..] + b;
      LengthJoin(a[1..], b, fence != IsFence(a[0]));
    }
  }

  /** Before the first heading there is none, and it lies outside a fence. */
  lemma {:induction false} BeforeHeading(lines: seq<string>, fence: bool)
    requires FindHeading(lines, fence).Some?
    ensures var h := FindHeading(lines, fence).value;
            FindHeading(lines[..h], fence).None? && !FenceAfter(lines[..h], fence) &&
            IsAmendments(lines[h]) && !IsFence(lines[h])
  {
    hide IsFence, IsAmendments;
    var h := FindHeading(lines, fence).value;
    if h > 0 {
      BeforeHeading(lines[1..], fence != IsFence(lines[0]));
      assert lines[..h][1..] == lines[1..][..h - 1];
    }
  }

  /** Within the section there is no level-two heading outside a fence. */
  lemma {:induction false} SectionWhole(lines: seq<string>, fence: bool)
    ensures var n := SectionLength(lines, fence);
            SectionLength(lines[..n], fence) == n
  {
    hide IsFence, IsHeading;
    var n := SectionLength(lines, fence);
    if n > 0 {
      SectionWhole(lines[1..], fence != IsFence(lines[0]));
      assert lines[..n][1..] == lines[1..][..n - 1];
    }
  }
}
