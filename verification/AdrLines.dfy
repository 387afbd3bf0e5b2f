/** Lines with their line ends, and what cutting and joining texts at line boundaries does to them. */
module AdrLines {
  import opened TextLines

  /** The length of the first line with its end; a carriage return with a line feed is one line end. */
  function LineLength(t: string): (n: nat)
    ensures n <= |t|
    ensures t != "" ==> n > 0
  {
    if t == "" then 0
    else if IsBreak(t[0]) then (if t[0] == '\r' && |t| > 1 && t[1] == '\n' then 2 else 1)
    else 1 + LineLength(t[1..])
  }

  /** `t.splitlines(keepends=True)`. */
  function KeepLines(t: string): seq<string>
    decreases |t|
  {
    if t == "" then [] else [t[..LineLength(t)]] + KeepLines(t[LineLength(t)..])
  }

  function Concat(lines: seq<string>): string {
    if lines == [] then "" else lines[0] + Concat(lines[1..])
  }

  lemma {:induction false} ConcatKeep(t: string)
    ensures Concat(KeepLines(t)) == t
    decreases |t|
  {
    if t != "" {
      var n := LineLength(t);
      ConcatKeep(t[n..]);
      assert t == t[..n] + t[n..];
    }
  }

  lemma {:induction false} ConcatJoin(a: seq<string>, b: seq<string>)
    ensures Concat(a + b) == Concat(a) + Concat(b)
  {
    if a == [] {
      assert a + b == b;
    } else {
      assert (a + b)[1..] == a[1..] + b;
      ConcatJoin(a[1..], b);
    }
  }

  /** The first text ends a line, and the second does not complete its line end. */
  predicate Boundary(a: string, b: string) {
    a == "" || (IsBreak(a[|a| - 1]) && !(a[|a| - 1] == '\r' && b != "" && b[0] == '\n'))
  }

  lemma {:induction false} LineLengthJoin(a: string, b: string)
    requires a != "" && Boundary(a, b)
    ensures LineLength(a + b) == LineLength(a)
    ensures Boundary(a[LineLength(a)..], b)
  {
    var t := a + b;
    if !IsBreak(a[0]) {
      assert t[1..] == a[1..] + b;
      assert a[1..][LineLength(a[1..])..] == a[LineLength(a)..];
      LineLengthJoin(a[1..], b);
    } else if a[0] == '\r' && |a| == 1 && b != "" {
      assert t[1] == b[0];
    }
  }

  /** At a line boundary the lines of a text are those of its two parts. */
  lemma {:induction false} KeepJoin(a: string, b: string)
    requires Boundary(a, b)
    ensures KeepLines(a + b) == KeepLines(a) + KeepLines(b)
    decreases |a|
  {
    hide KeepLines, LineLength, Boundary;
    NoLines();
    if a == "" {
      assert a + b == b;
    } else {
      var t, n := a + b, LineLength(a);
      LineLengthJoin(a, b);
      KeepFirst(t);
      KeepFirst(a);
      assert t[..n] == a[..n] && t[n..] == a[n..] + b;
      KeepJoin(a[n..], b);
    }
  }

  lemma KeepFirst(t: string)
    requires t != ""
    ensures KeepLines(t) == [t[..LineLength(t)]] + KeepLines(t[LineLength(t)..])
  {
  }

  lemma NoLines()
    ensures KeepLines("") == []
  {
  }

  /** The first lines of a text, as a text, and what follows them. */
  lemma {:induction false} KeepPrefix(t: string, k: nat)
    requires k <= |KeepLines(t)|
    ensures var p := Concat(KeepLines(t)[..k]);
            |p| <= |t| && t[..|p|] == p && KeepLines(p) == KeepLines(t)[..k] &&
            KeepLines(t[|p|..]) == KeepLines(t)[k..]
    decreases k
  {
    hide LineLength, KeepLines;
    var lines := KeepLines(t);
    NoLines();
    if t != "" {
      KeepFirst(t);
    }
    if k == 0 {
      assert lines[..0] == [] && lines[0..] == lines && t[0..] == t;
    } else {
      var n := LineLength(t);
      var rest := t[n..];
      KeepPrefix(rest, k - 1);
      var q := Concat(KeepLines(rest)[..k - 1]);
      assert lines[..k] == [t[..n]] + KeepLines(rest)[..k - 1];
      assert lines[..k][1..] == KeepLines(rest)[..k - 1];
      var p := t[..n] + q;
      assert p == Concat(lines[..k]) && t[|p|..] == rest[|q|..];
      assert t[..|p|] == p;
      FirstLineAlone(t, q);
    }
  }

  /** A text that starts with the first line of another has that first line, if it breaks off there or goes on alike. */
  lemma {:induction false} FirstLineAlone(t: string, q: string)
    requires t != "" && q <= t[LineLength(t)..]
    ensures KeepLines(t[..LineLength(t)] + q) == [t[..LineLength(t)]] + KeepLines(q)
  {
    var n := LineLength(t);
    var p := t[..n] + q;
    LineLengthPrefix(t, p);
    assert p[..n] == t[..n] && p[n..] == q;
  }

  lemma {:induction false} LineLengthPrefix(t: string, p: string)
    requires p <= t && LineLength(t) <= |p|
    ensures LineLength(p) == LineLength(t)
  {
    if t != "" && !IsBreak(t[0]) && p != "" {
      assert p[1..] <= t[1..];
      LineLengthPrefix(t[1..], p[1..]);
    }
  }

  /** A line after which another line follows has a line end. */
  lemma {:induction false} LineEnds(t: string)
    requires LineLength(t) < |t|
    ensures IsBreak(t[LineLength(t) - 1])
    ensures Boundary(t[..LineLength(t)], t[LineLength(t)..])
  {
    if !IsBreak(t[0]) {
      LineEnds(t[1..]);
      var n := LineLength(t);
      assert t[1..][..n - 1] == t[1..n] && t[1..][n - 1..] == t[n..];
    }
  }

  /** Every place between two lines is a line boundary. */
  lemma {:induction false} KeepBoundary(t: string, k: nat)
    requires k < |KeepLines(t)|
    ensures var p := Concat(KeepLines(t)[..k]);
            |p| < |t| && Boundary(p, t[|p|..])
    decreases k
  {
    hide KeepLines, LineLength, Boundary, Concat;
    NoLines();
    KeepFirst(t);
    if k == 0 {
      ConcatFirst(KeepLines(t)[..0]);
      NothingBefore(t);
    } else {
      var n := LineLength(t);
      var rest := t[n..];
      var q := Concat(KeepLines(rest)[..k - 1]);
      KeepBoundary(rest, k - 1);
      KeepPrefix(rest, k - 1);
      LineEnds(t);
      BoundaryBehind(t[..n], q, rest[|q|..], rest);
      FrontLines(t[..n], KeepLines(rest), k);
      DropTwice(t, n, |q|);
    }
  }

  lemma FrontLines(line: string, lines: seq<string>, k: nat)
    requires 0 < k <= |lines| + 1
    ensures Concat(([line] + lines)[..k]) == line + Concat(lines[..k - 1])
  {
    assert ([line] + lines)[..k] == [line] + lines[..k - 1];
    assert ([line] + lines[..k - 1])[1..] == lines[..k - 1];
  }

  lemma DropTwice(t: string, n: nat, m: nat)
    requires n + m <= |t|
    ensures t[n..][m..] == t[n + m..]
  {
  }

  lemma ConcatFirst(lines: seq<string>)
    ensures lines == [] ==> Concat(lines) == ""
    ensures lines != [] ==> Concat(lines) == lines[0] + Concat(lines[1..])
  {
  }

  lemma NothingBefore(t: string)
    ensures Boundary("", t[|""|..])
  {
  }

  /** A piece before a boundary does not matter, unless nothing stands between the two. */
  lemma BoundaryBehind(piece: string, q: string, after: string, rest: string)
    requires Boundary(q, after) && Boundary(piece, rest)
    requires |q| <= |rest| && rest[..|q|] == q && rest[|q|..] == after
    ensures Boundary(piece + q, after)
  {
    if q == "" {
      assert piece + q == piece && rest == after;
    }
  }

  // ---- Lines without their ends -------------------------------------------------------------------------------

  lemma StripRightTrail(line: string, c: char)
    requires IsSpace(c)
    ensures StripRight(line + [c]) == StripRight(line)
  {
    assert (line + [c])[..|line|] == line;
  }

  lemma {:induction false} StripLeftTrail(line: string, c: char)
    requires IsSpace(c)
    ensures StripRight(StripLeft(line + [c])) == StripRight(StripLeft(line))
  {
    if line == "" {
      assert (line + [c])[1..] == "";
    } else if IsSpace(line[0]) {
      assert (line + [c])[1..] == line[1..] + [c];
      StripLeftTrail(line[1..], c);
    } else {
      StripRightTrail(line, c);
    }
  }

  lemma {:induction false} StripTail(line: string, end: string)
    requires forall i :: 0 <= i < |end| ==> IsSpace(end[i])
    ensures StripRight(line + end) == StripRight(line) && Strip(line + end) == Strip(line)
  {
    hide StripRight, StripLeft, IsSpace;
    if end == "" {
      assert line + end == line;
    } else {
      var k := |end| - 1;
      StripTail(line, end[..k]);
      StripRightTrail(line + end[..k], end[k]);
      StripLeftTrail(line + end[..k], end[k]);
      assert line + end == line + end[..k] + [end[k]];
    }
  }

  /** The length of the first line without its end. */
  function PlainLength(t: string): (m: nat)
    ensures m <= |t|
  {
    if t == "" || IsBreak(t[0]) then 0 else 1 + PlainLength(t[1..])
  }

  lemma {:induction false} PlainFacts(t: string)
    ensures IsLine(t[..PlainLength(t)])
    ensures PlainLength(t) < |t| ==> IsBreak(t[PlainLength(t)])
    ensures var m := PlainLength(t);
            LineLength(t) ==
              if m == |t| then m else if t[m] == '\r' && |t| > m + 1 && t[m + 1] == '\n' then m + 2 else m + 1
  {
    if t != "" && !IsBreak(t[0]) {
      PlainFacts(t[1..]);
      var m := PlainLength(t);
      assert forall i :: 0 < i < m ==> t[..m][i] == t[1..][..m - 1][i - 1];
    }
  }

  /** The first line of `splitlines`, and what its others are. */
  lemma FirstSplit(t: string)
    requires t != ""
    ensures SplitLines(t) == [t[..PlainLength(t)]] + SplitLines(t[LineLength(t)..])
  {
    hide LineLength, PlainLength, IsBreak;
    var n, m := LineLength(t), PlainLength(t);
    PlainFacts(t);
    var line, tail := t[..m], t[m..];
    assert t == line + tail;
    SplitAfterLine(line, tail);
    assert line + "" == line;
    if tail == "" {
      assert t[n..] == "";
    } else if n == m + 2 {
      assert tail[2..] == t[n..];
    } else {
      assert tail[1..] == t[n..];
    }
  }

  lemma FirstLine(t: string)
    requires t != ""
    ensures StripRight(t[..PlainLength(t)]) == StripRight(t[..LineLength(t)])
    ensures Strip(t[..PlainLength(t)]) == Strip(t[..LineLength(t)])
  {
    hide StripRight, StripLeft, Strip, PlainLength, LineLength;
    PlainFacts(t);
    var n, m := LineLength(t), PlainLength(t);
    StripTail(t[..m], t[m..n]);
    assert t[..m] + t[m..n] == t[..n];
  }

  /** `splitlines` with and without line ends differ only in trailing white space, line by line. */
  lemma {:induction false} KeepAndSplit(t: string)
    ensures |KeepLines(t)| == |SplitLines(t)|
    ensures forall i :: 0 <= i < |KeepLines(t)| ==>
                          StripRight(KeepLines(t)[i]) == StripRight(SplitLines(t)[i]) &&
                          Strip(KeepLines(t)[i]) == Strip(SplitLines(t)[i])
    decreases |t|
  {
    hide StripRight, StripLeft, Strip, SplitLines;
    if t == "" {
      EmptySplit();
    } else {
      var n := LineLength(t);
      FirstSplit(t);
      FirstLine(t);
      KeepAndSplit(t[n..]);
      var keep, cut := KeepLines(t), SplitLines(t);
      assert forall i :: 1 <= i < |cut| ==> cut[i] == cut[1..][i - 1] && keep[i] == KeepLines(t[n..])[i - 1];
    }
  }

  lemma EmptySplit()
    ensures SplitLines("") == []
  {
  }
}
