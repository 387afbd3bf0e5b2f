/**
 The canonical content of a decision record: the text without its Amendments section, without trailing white space on
 a line, and with one final line feed.
 */
module AdrCanonical {
  import opened Options
  import Separated
  import opened TextLines
  import opened AdrLines
  import opened AdrSections

  function TrimAll(lines: seq<string>): (r: seq<string>)
    ensures |r| == |lines|
  {
    seq(|lines|, i requires 0 <= i < |lines| => StripRight(lines[i]))
  }

  /** `_strip_amendments`. */
  function StripAmendments(text: string): string {
    var b := Bounds(text);
    if b.None? then text else
      BoundsInText(text);
      text[..b.value.0] + text[b.value.1..]
  }

  /** `canonical_content`. */
  function Canonical(text: string): string {
    Chomp(JoinLines(TrimAll(SplitLines(StripAmendments(text))))) + "\n"
  }

  // ---- The cut ------------------------------------------------------------------------------------------------

  /** The lines that stay. */
  function BodyLines(text: string): seq<string> {
    var lines := KeepLines(text);
    var b := LineBounds(lines);
    if b.None? then lines else lines[..b.value.0] + lines[b.value.1..]
  }

  /** Where the bounds are in the text. */
  lemma BoundsInText(text: string)
    requires Bounds(text).Some?
    ensures var lines, b := KeepLines(text), LineBounds(KeepLines(text)).value;
            var s, e := Bounds(text).value.0, Bounds(text).value.1;
            s <= e <= |text| && text[..s] == Concat(lines[..b.0]) && text[..e] == Concat(lines[..b.1]) &&
            text[s..e] == Concat(lines[b.0..b.1]) &&
            KeepLines(text[..s]) == lines[..b.0] && KeepLines(text[e..]) == lines[b.1..]
  {
    hide KeepLines, LineBounds, Concat;
    var b := LineBounds(KeepLines(text)).value;
    CutInText(text, b.0, b.1);
  }

  lemma CutInText(text: string, i: nat, j: nat)
    requires i <= j <= |KeepLines(text)|
    ensures var lines := KeepLines(text);
            var s, e := Offset(lines, i), Offset(lines, j);
            s <= e <= |text| && text[..s] == Concat(lines[..i]) && text[..e] == Concat(lines[..j]) &&
            text[s..e] == Concat(lines[i..j]) &&
            KeepLines(text[..s]) == lines[..i] && KeepLines(text[e..]) == lines[j..]
  {
    hide KeepLines, Concat;
    var lines := KeepLines(text);
    var s, e := Offset(lines, i), Offset(lines, j);
    KeepPrefix(text, i);
    KeepPrefix(text, j);
    ConcatJoin(lines[..i], lines[i..j]);
    assert lines[..j] == lines[..i] + lines[i..j];
    assert text[..e] == text[..s] + Concat(lines[i..j]);
    assert text[s..e] == text[..e][s..];
  }

  /** The section ends at a heading or at the end of the text. */
  lemma SectionEnds(lines: seq<string>)
    requires LineBounds(lines).Some?
    ensures var b := LineBounds(lines).value;
            b.1 < |lines| ==> IsHeading(lines[b.1]) && !FenceAfter(lines[b.0 + 1..b.1], false)
  {
    var b := LineBounds(lines).value;
    var rest := lines[b.0 + 1..];
    var n := SectionLength(rest, false);
    assert b.1 == b.0 + 1 + n;
    assert rest[..n] == lines[b.0 + 1..b.1];
    if b.1 < |lines| {
      assert rest[n] == lines[b.1];
    }
  }

  /** Joining the text before the section with a text that starts with a heading cuts no line. */
  lemma BeforeSection(text: string, after: string)
    requires Bounds(text).Some?
    requires after == "" || after[0] == '#'
    ensures Bounds(text).value.0 <= |text| && Boundary(text[..Bounds(text).value.0], after)
  {
    hide KeepLines, LineBounds, Concat, Boundary;
    BoundsInText(text);
    var b := LineBounds(KeepLines(text)).value;
    KeepBoundary(text, b.0);
    var p := text[..Bounds(text).value.0];
    BoundaryChange(p, text[|p|..], after);
  }

  lemma BoundaryChange(a: string, b: string, c: string)
    requires Boundary(a, b) && (c == "" || c[0] != '\n')
    ensures Boundary(a, c)
  {
  }

  /** The text behind the section starts with a heading line. */
  lemma AfterSection(text: string)
    requires Bounds(text).Some?
    ensures var e := Bounds(text).value.1;
            e <= |text| && (text[e..] == "" || text[e..][0] == '#')
  {
    hide KeepLines, LineBounds, Concat, IsHeading;
    BoundsInText(text);
    var lines, b := KeepLines(text), LineBounds(KeepLines(text)).value;
    var tail := text[Bounds(text).value.1..];
    SectionEnds(lines);
    ConcatKeep(tail);
    NoLines();
    if b.1 < |lines| {
      HeadingStart(lines[b.1]);
      ConcatFirst(lines[b.1..]);
    } else {
      assert lines[b.1..] == [];
      ConcatNone();
    }
  }

  lemma ConcatFirst(lines: seq<string>)
    requires lines != [] && lines[0] != ""
    ensures Concat(lines) != "" && Concat(lines)[0] == lines[0][0]
  {
  }

  lemma ConcatNone()
    ensures Concat([]) == ""
  {
  }

  /** The cut text has the lines that stay. */
  lemma CutLines(text: string)
    ensures KeepLines(StripAmendments(text)) == BodyLines(text)
  {
    hide KeepLines, LineBounds, Concat, Bounds, Boundary;
    if Bounds(text).Some? {
      BoundsSome(text);
      BoundsInText(text);
      AfterSection(text);
      var s, e := Bounds(text).value.0, Bounds(text).value.1;
      BeforeSection(text, text[e..]);
      KeepJoin(text[..s], text[e..]);
    } else {
      BoundsSome(text);
    }
  }

  lemma BoundsSome(text: string)
    ensures Bounds(text).Some? <==> LineBounds(KeepLines(text)).Some?
  {
  }

  // ---- Normal form --------------------------------------------------------------------------------------------

  /** The lines without the empty ones at the end. */
  function DropEmpty(lines: seq<string>): (r: seq<string>)
    ensures |r| <= |lines| && r == lines[..|r|]
    ensures r != [] ==> r[|r| - 1] != ""
    ensures forall i :: |r| <= i < |lines| ==> lines[i] == ""
  {
    if lines != [] && lines[|lines| - 1] == "" then DropEmpty(lines[..|lines| - 1]) else lines
  }

  /** The trimmed lines of the body, as far as they matter. */
  function Core(text: string): seq<string> {
    DropEmpty(TrimAll(BodyLines(text)))
  }

  ghost predicate Trimmed(lines: seq<string>) {
    forall i :: 0 <= i < |lines| ==> StripRight(lines[i]) == lines[i]
  }

  lemma {:induction false} StripRightTwice(line: string)
    ensures StripRight(StripRight(line)) == StripRight(line)
  {
    if line != "" && IsSpace(line[|line| - 1]) {
      StripRightTwice(line[..|line| - 1]);
    }
  }

  lemma TrimAllTrimmed(lines: seq<string>)
    ensures Trimmed(TrimAll(lines))
  {
    hide StripRight;
    forall i | 0 <= i < |lines| ensures StripRight(TrimAll(lines)[i]) == TrimAll(lines)[i] {
      StripRightTwice(lines[i]);
    }
  }

  lemma {:induction false} JoinMore(lines: seq<string>, line: string)
    ensures JoinLines(lines + [line]) == if lines == [] then line else JoinLines(lines) + "\n" + line
  {
    if lines == [] {
      assert lines + [line] == [line];
    } else if |lines| == 1 {
      assert lines + [line] == [lines[0], line];
      Separated.JoinFew(lines[0], line, "", '\n');
    } else {
      assert (lines + [line])[1..] == lines[1..] + [line];
      JoinMore(lines[1..], line);
      var a, b := lines[0] + "\n", JoinLines(lines[1..]);
      assert a + (b + "\n" + line) == a + b + "\n" + line;
    }
  }

  lemma ChompMore(t: string)
    ensures Chomp(t + "\n") == Chomp(t)
  {
    assert (t + "\n")[..|t|] == t;
  }

  lemma TrimmedEnd(line: string)
    requires StripRight(line) == line && line != ""
    ensures !IsSpace(line[|line| - 1])
  {
    if IsSpace(line[|line| - 1]) {
      StripRightShorter(line[..|line| - 1]);
    }
  }

  lemma {:induction false} StripRightShorter(line: string)
    ensures |StripRight(line)| <= |line|
  {
    if line != "" && IsSpace(line[|line| - 1]) {
      StripRightShorter(line[..|line| - 1]);
    }
  }

  lemma ChompNone(t: string)
    requires t != "" && !IsSpace(t[|t| - 1])
    ensures Chomp(t) == t
  {
  }

  /** Removing final line feeds removes the empty lines at the end. */
  lemma {:induction false} ChompJoined(lines: seq<string>)
    requires Trimmed(lines)
    ensures Chomp(JoinLines(lines)) == JoinLines(DropEmpty(lines))
  {
    hide StripRight, JoinLines;
    if lines == [] {
      JoinShort("");
    } else {
      var k := |lines| - 1;
      var rest := lines[..k];
      assert lines == rest + [lines[k]];
      JoinMore(rest, lines[k]);
      if lines[k] == "" {
        assert forall i :: 0 <= i < k ==> rest[i] == lines[i];
        ChompJoined(rest);
        if rest == [] {
          JoinShort("");
        } else {
          assert JoinLines(rest) + "\n" + "" == JoinLines(rest) + "\n";
          ChompMore(JoinLines(rest));
        }
      } else {
        TrimmedEnd(lines[k]);
        ChompNone(JoinLines(lines));
      }
    }
  }

  lemma JoinShort(line: string)
    ensures JoinLines([]) == "" && JoinLines([line]) == line && Chomp("") == ""
  {
  }

  /** The canonical content spells out the core. */
  lemma CanonicalCore(text: string)
    ensures Canonical(text) == JoinLines(Core(text)) + "\n"
  {
    hide BodyLines, StripAmendments, JoinLines, StripRight, SplitLines, KeepLines, Chomp;
    var body := StripAmendments(text);
    CutLines(text);
    KeepAndSplit(body);
    assert TrimAll(SplitLines(body)) == TrimAll(KeepLines(body));
    TrimAllTrimmed(KeepLines(body));
    ChompJoined(TrimAll(KeepLines(body)));
  }

  lemma {:induction false} StripRightStart(line: string)
    ensures StripRight(line) <= line
  {
    if line != "" && IsSpace(line[|line| - 1]) {
      StripRightStart(line[..|line| - 1]);
    }
  }

  lemma TrimmedLines(text: string)
    ensures AllLines(TrimAll(KeepLines(text)))
  {
    hide StripRight, SplitLines, KeepLines, Strip;
    KeepAndSplit(text);
    SplitLinesAreLines(text);
    forall i | 0 <= i < |KeepLines(text)| ensures IsLine(TrimAll(KeepLines(text))[i]) {
      StripRightStart(SplitLines(text)[i]);
    }
  }

  /** The core is a list of lines, and reading the canonical content gives it back. */
  lemma CoreReadBack(text: string)
    ensures SplitLines(Canonical(text)) == if Core(text) == [] then [""] else Core(text)
  {
    hide BodyLines, StripAmendments, Canonical, JoinLines, SplitLines, KeepLines, TrimAll;
    var core := Core(text);
    CanonicalCore(text);
    CutLines(text);
    TrimmedLines(StripAmendments(text));
    assert AllLines(core);
    var more := core + [""];
    JoinMore(core, "");
    assert AllLines(more);
    SplitJoined(more);
    assert more[..|core|] == core;
    if core == [] {
      JoinShort("");
      SplitFeed();
    } else {
      assert JoinLines(core) + "\n" + "" == JoinLines(core) + "\n";
    }
  }

  lemma SplitFeed()
    ensures SplitLines("" + "\n") == [""]
  {
    assert ("" + "\n")[1..] == "";
  }

  /** Two records have the same canonical content exactly when their cores are the same. */
  lemma CanonicalExact(a: string, b: string)
    ensures Canonical(a) == Canonical(b) <==> Core(a) == Core(b)
  {
    hide Core, Canonical, SplitLines, JoinLines;
    CanonicalCore(a);
    CanonicalCore(b);
    CoreReadBack(a);
    CoreReadBack(b);
    CoreEnd(a);
    CoreEnd(b);
  }

  lemma CoreEnd(text: string)
    ensures Core(text) != [] ==> Core(text)[|Core(text)| - 1] != ""
  {
  }
}
