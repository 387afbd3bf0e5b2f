/**
 Text as Python's string methods cut it, for ASCII text: whitespace, line boundaries, words.
 The unit separator (code 31) is the one ASCII character that is whitespace but neither a blank nor a line boundary.
 */
module TextLines {
  import Separated

  const UNIT_SEPARATOR: char := 31 as char

  /** The characters that end a line for `splitlines`. */
  predicate IsBreak(c: char) {
    '\n' <= c <= '\r' || (28 as char) <= c <= (30 as char)
  }

  predicate IsBlank(c: char) {
    c == ' ' || c == '\t'
  }

  /** `c.isspace()`. */
  predicate IsSpace(c: char) {
    IsBlank(c) || IsBreak(c) || c == UNIT_SEPARATOR
  }

  /** A text without line boundaries. */
  predicate IsLine(t: string) {
    forall i :: 0 <= i < |t| ==> !IsBreak(t[i])
  }

  /** The lines that follow when a piece of text comes before the given lines. */
  function Prepend(piece: string, lines: seq<string>): seq<string> {
    if lines == [] then (if piece == "" then [] else [piece]) else [piece + lines[0]] + lines[1..]
  }

  /** `t.splitlines()`: a final boundary opens no further line, and a carriage return with a line feed is one. */
  function SplitLines(t: string): seq<string> {
    if t == "" then []
    else if IsBreak(t[0]) then
      [""] + SplitLines(if t[0] == '\r' && |t| > 1 && t[1] == '\n' then t[2..] else t[1..])
    else Prepend([t[0]], SplitLines(t[1..]))
  }

  /** `"\n".join(lines)`. */
  function JoinLines(lines: seq<string>): string {
    Separated.Join(lines, '\n')
  }

  ghost predicate AllLines(lines: seq<string>) {
    forall i :: 0 <= i < |lines| ==> IsLine(lines[i])
  }

  lemma {:induction false} SplitLinesAreLines(t: string)
    ensures AllLines(SplitLines(t))
  {
    if t != "" {
      if IsBreak(t[0]) {
        SplitLinesAreLines(if t[0] == '\r' && |t| > 1 && t[1] == '\n' then t[2..] else t[1..]);
      } else {
        SplitLinesAreLines(t[1..]);
      }
    }
  }

  lemma PrependTwice(p: string, q: string, lines: seq<string>)
    ensures Prepend(p, Prepend(q, lines)) == Prepend(p + q, lines)
  {
    if lines != [] {
      assert p + (q + lines[0]) == p + q + lines[0];
    } else if q == "" {
      assert p + q == p;
    }
  }

  lemma PrependNothing(lines: seq<string>)
    ensures Prepend("", lines) == lines
  {
    if lines != [] {
      assert "" + lines[0] == lines[0] && [lines[0]] + lines[1..] == lines;
    }
  }

  lemma SplitStep(t: string)
    requires t != "" && !IsBreak(t[0])
    ensures SplitLines(t) == Prepend([t[0]], SplitLines(t[1..]))
  {
  }

  /** A line before a text. */
  lemma {:induction false} SplitAfterLine(line: string, t: string)
    requires IsLine(line)
    ensures SplitLines(line + t) == Prepend(line, SplitLines(t))
  {
    hide SplitLines, Prepend, IsBreak;
    if line == "" {
      assert line + t == t;
      PrependNothing(SplitLines(t));
    } else {
      var long := line + t;
      assert long[0] == line[0] && long[1..] == line[1..] + t;
      SplitStep(long);
      SplitAfterLine(line[1..], t);
      PrependTwice([line[0]], line[1..], SplitLines(t));
      assert line == [line[0]] + line[1..];
    }
  }

  lemma SplitAtFeed(rest: string)
    ensures SplitLines("\n" + rest) == [""] + SplitLines(rest)
  {
    var tail := "\n" + rest;
    assert tail[0] == '\n' && tail[1..] == rest;
  }

  /** A line alone, and a line with its line feed before a text. */
  lemma SplitOne(line: string)
    requires IsLine(line)
    ensures SplitLines(line) == if line == "" then [] else [line]
  {
    SplitAfterLine(line, "");
    assert line + "" == line;
    assert SplitLines("") == [];
  }

  lemma SplitMore(line: string, rest: string)
    requires IsLine(line)
    ensures SplitLines(line + "\n" + rest) == [line] + SplitLines(rest)
  {
    hide SplitLines;
    SplitAtFeed(rest);
    SplitAfterLine(line, "\n" + rest);
    assert line + "\n" + rest == line + ("\n" + rest);
    assert line + "" == line;
    assert Prepend(line, [""] + SplitLines(rest)) == [line] + SplitLines(rest);
  }

  lemma JoinLinesFew(lines: seq<string>)
    ensures lines == [] ==> JoinLines(lines) == ""
    ensures |lines| == 1 ==> JoinLines(lines) == lines[0]
    ensures |lines| > 1 ==> JoinLines(lines) == lines[0] + "\n" + JoinLines(lines[1..])
  {
  }

  /** Splitting joined lines gives them back, except that an empty last line is lost. */
  lemma {:induction false} SplitJoined(lines: seq<string>)
    requires AllLines(lines)
    ensures lines == [] || lines[|lines| - 1] == "" ==>
              SplitLines(JoinLines(lines)) == lines[..if lines == [] then 0 else |lines| - 1]
    ensures lines != [] && lines[|lines| - 1] != "" ==> SplitLines(JoinLines(lines)) == lines
  {
    hide SplitLines, JoinLines, IsLine;
    JoinLinesFew(lines);
    if lines == [] {
      SplitNone();
    } else if |lines| == 1 {
      SplitOne(lines[0]);
      assert lines == [lines[0]];
    } else {
      SplitJoined(lines[1..]);
      SplitMore(lines[0], JoinLines(lines[1..]));
      assert lines[|lines| - 1] == lines[1..][|lines| - 2];
      assert lines == [lines[0]] + lines[1..];
    }
  }

  lemma SplitNone()
    ensures SplitLines("") == []
  {
  }

  // ---- Words --------------------------------------------------------------------------------------------------

  /** The length of the run of non-space characters at the start. */
  function WordLength(line: string): (n: nat)
    ensures n <= |line|
    ensures forall i :: 0 <= i < n ==> !IsSpace(line[i])
    ensures n < |line| ==> IsSpace(line[n])
  {
    if line == "" || IsSpace(line[0]) then 0 else 1 + WordLength(line[1..])
  }

  /** `line.split()`. */
  function Words(line: string): seq<string>
    decreases |line|
  {
    if line == "" then []
    else if IsSpace(line[0]) then Words(line[1..])
    else
      var n := WordLength(line);
      [line[..n]] + Words(line[n..])
  }

  lemma {:induction false} WordLengthTrail(line: string, c: char)
    requires IsSpace(c)
    ensures WordLength(line + [c]) == WordLength(line)
  {
    if line != "" && !IsSpace(line[0]) {
      assert (line + [c])[1..] == line[1..] + [c];
      WordLengthTrail(line[1..], c);
    }
  }

  /** A space at the end changes no word. */
  lemma {:induction false} WordsTrail(line: string, c: char)
    requires IsSpace(c)
    ensures Words(line + [c]) == Words(line)
    decreases |line|
  {
    var long := line + [c];
    if line == "" {
      assert long[1..] == "";
    } else if IsSpace(line[0]) {
      assert long[1..] == line[1..] + [c];
      WordsTrail(line[1..], c);
    } else {
      var n := WordLength(line);
      WordLengthTrail(line, c);
      assert long[..n] == line[..n] && long[n..] == line[n..] + [c];
      WordsTrail(line[n..], c);
    }
  }

  /** A space in front changes no word. */
  lemma WordsLead(line: string, c: char)
    requires IsSpace(c)
    ensures Words([c] + line) == Words(line)
  {
    assert ([c] + line)[1..] == line;
  }

  /** `t.strip()`. */
  function StripLeft(t: string): string {
    if t != "" && IsSpace(t[0]) then StripLeft(t[1..]) else t
  }

  function StripRight(t: string): string {
    if t != "" && IsSpace(t[|t| - 1]) then StripRight(t[..|t| - 1]) else t
  }

  function Strip(t: string): string {
    StripRight(StripLeft(t))
  }

  /** `t.casefold()` for ASCII. */
  function Lower(t: string): (r: string)
    ensures |r| == |t|
  {
    if t == "" then "" else [LowerChar(t[0])] + Lower(t[1..])
  }

  function LowerChar(c: char): char {
    if 'A' <= c <= 'Z' then ((c as int) - ('A' as int) + ('a' as int)) as char else c
  }

  /** A word character of a regular expression. */
  predicate IsWordChar(c: char) {
    'a' <= c <= 'z' || 'A' <= c <= 'Z' || '0' <= c <= '9' || c == '_'
  }
}
