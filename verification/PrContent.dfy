/**
 A section's content, stripped of white space, goes through the comment and fence removal a second time. Only its
 first line can have become a fence, and then nothing of it is left.
 */
module PrContent {
  import opened Options
  import opened TextLines
  import opened PrScanners
  import opened PrSections

  // ---- Fences in the content ----------------------------------------------------------------------------------

  ghost predicate OnlyFirstMarks(lines: seq<string>) {
    forall i :: 1 <= i < |lines| ==> Marker(lines[i]).None?
  }

  lemma {:induction false} RunTrail(line: string, c: char, token: char)
    requires IsSpace(c) && !IsSpace(token)
    ensures Run(line + [c], token) == Run(line, token)
  {
    if line != "" && line[0] == token {
      assert (line + [c])[1..] == line[1..] + [c];
      RunTrail(line[1..], c, token);
    }
  }

  /** White space at the end of a line makes and unmakes no fence. */
  lemma {:induction false} MarkerTrail(line: string, c: char)
    requires IsSpace(c)
    ensures Marker(line + [c]) == Marker(line)
  {
    var long := line + [c];
    if line == "" {
      assert long[1..] == "";
    } else if IsBlank(line[0]) {
      assert long[1..] == line[1..] + [c];
      MarkerTrail(line[1..], c);
    } else {
      RunTrail(line, c, '`');
      RunTrail(line, c, '~');
    }
  }

  lemma MarksTrail(t: string, c: char)
    requires IsSpace(c) && OnlyFirstMarks(SplitLines(t + [c]))
    ensures OnlyFirstMarks(SplitLines(t))
  {
    hide SplitLines, IsSpace, Marker;
    SplitTrail(t, c);
    var long, short := SplitLines(t + [c]), SplitLines(t);
    forall i | 1 <= i < |short| ensures Marker(short[i]).None? {
      if long[i] == short[i] + [c] {
        MarkerTrail(short[i], c);
      }
    }
  }

  lemma MarksLead(t: string, c: char)
    requires IsSpace(c) && OnlyFirstMarks(SplitLines([c] + t))
    ensures OnlyFirstMarks(SplitLines(t))
  {
    hide SplitLines, IsSpace, Marker;
    SplitLead(t, c);
    var long, short := SplitLines([c] + t), SplitLines(t);
    forall i | 1 <= i < |short| ensures Marker(short[i]).None? {
      assert long[i] == short[i] || long[i + 1] == short[i];
    }
  }

  lemma {:induction false} MarksStripLeft(t: string)
    requires OnlyFirstMarks(SplitLines(t))
    ensures OnlyFirstMarks(SplitLines(StripLeft(t)))
  {
    hide SplitLines, OnlyFirstMarks;
    if t != "" && IsSpace(t[0]) {
      assert t == [t[0]] + t[1..];
      MarksLead(t[1..], t[0]);
      MarksStripLeft(t[1..]);
    }
  }

  lemma {:induction false} MarksStripRight(t: string)
    requires OnlyFirstMarks(SplitLines(t))
    ensures OnlyFirstMarks(SplitLines(StripRight(t)))
  {
    hide SplitLines, OnlyFirstMarks;
    if t != "" && IsSpace(t[|t| - 1]) {
      assert t == t[..|t| - 1] + [t[|t| - 1]];
      MarksTrail(t[..|t| - 1], t[|t| - 1]);
      MarksStripRight(t[..|t| - 1]);
    }
  }

  lemma ContentMarks(lines: seq<string>)
    requires AllLines(lines) && NoMarkers(lines)
    ensures OnlyFirstMarks(SplitLines(Content(lines)))
  {
    hide SplitLines, JoinLines, AllLines, StripLeft, StripRight, Marker;
    SplitJoined(lines);
    var t := JoinLines(lines);
    MarksStripLeft(t);
    MarksStripRight(StripLeft(t));
  }

  /** A fence on the first line that no later line closes swallows everything. */
  lemma {:induction false} NothingKept(lines: seq<string>)
    requires lines != [] && Marker(lines[0]).Some? && OnlyFirstMarks(lines)
    ensures FenceScan(lines).kept == [] && FenceScan(lines).fence.Some?
  {
    hide Marker;
    var k := |lines| - 1;
    if k > 0 {
      assert forall i :: 1 <= i < k ==> lines[..k][i] == lines[i];
      NothingKept(lines[..k]);
    } else {
      assert lines[..0] == [];
    }
  }

  // ---- Openers in the content ---------------------------------------------------------------------------------

  lemma {:induction false} OpenerInLine(lines: seq<string>)
    requires HasOpener(JoinLines(lines))
    ensures exists i :: 0 <= i < |lines| && HasOpener(lines[i])
  {
    hide HasOpener;
    if lines == [] {
      NoOpenerInNothing();
    } else if |lines| > 1 {
      OpenerInJoin(lines[0], JoinLines(lines[1..]));
      if HasOpener(JoinLines(lines[1..])) {
        OpenerInLine(lines[1..]);
        var i :| 0 <= i < |lines[1..]| && HasOpener(lines[1..][i]);
        assert HasOpener(lines[i + 1]);
      }
    }
  }

  lemma NoOpenerInNothing()
    ensures !HasOpener("")
  {
  }

  /** A joined line is a part of the joined text. */
  lemma {:induction false} LineInJoin(lines: seq<string>, i: nat)
    requires i < |lines| && HasOpener(lines[i])
    ensures HasOpener(JoinLines(lines))
  {
    hide HasOpener;
    if |lines| > 1 {
      var rest := JoinLines(lines[1..]);
      var t := JoinLines(lines);
      assert t == lines[0] + "\n" + rest;
      if i == 0 {
        assert t[0..|lines[0]|] == lines[0];
        OpenerInPart(t, 0, |lines[0]|);
      } else {
        LineInJoin(lines[1..], i - 1);
        assert t[|lines[0]| + 1..|t|] == rest;
        OpenerInPart(t, |lines[0]| + 1, |t|);
      }
    }
  }

  /** Stripping takes a part of the text. */
  lemma {:induction false} StripLeftPart(t: string) returns (i: nat)
    ensures i <= |t| && StripLeft(t) == t[i..]
  {
    i := 0;
    if t != "" && IsSpace(t[0]) {
      i := StripLeftPart(t[1..]);
      assert t[1..][i..] == t[i + 1..];
      i := i + 1;
    }
  }

  lemma {:induction false} StripRightPart(t: string) returns (j: nat)
    ensures j <= |t| && StripRight(t) == t[..j]
  {
    j := |t|;
    if t != "" && IsSpace(t[j - 1]) {
      j := StripRightPart(t[..j - 1]);
      assert t[..|t| - 1][..j] == t[..j];
    }
  }

  lemma NoOpenerStripped(t: string)
    requires !HasOpener(t)
    ensures !HasOpener(Strip(t))
  {
    hide HasOpener, StripLeft, StripRight;
    var i := StripLeftPart(t);
    var j := StripRightPart(t[i..]);
    assert t[i..][..j] == t[i..i + j];
    if HasOpener(t[i..i + j]) {
      OpenerInPart(t, i, i + j);
    }
  }

  ghost predicate NoOpeners(lines: seq<string>) {
    forall i :: 0 <= i < |lines| ==> !HasOpener(lines[i])
  }

  /** Content without openers loses nothing to the comment removal. */
  lemma ContentKeepsComments(lines: seq<string>)
    requires NoOpeners(lines)
    ensures StripComments(Content(lines)) == Content(lines)
  {
    hide HasOpener, StripComments, Strip, JoinLines;
    if HasOpener(JoinLines(lines)) {
      OpenerInLine(lines);
    }
    NoOpenerStripped(JoinLines(lines));
    NoOpenerNothingRemoved(Content(lines));
  }

  // ---- The content read again ---------------------------------------------------------------------------------

  /** The second pass over a section's content keeps all its declarations, or nothing at all. */
  lemma ContentReread(lines: seq<string>)
    requires AllLines(lines) && NoMarkers(lines) && NoOpeners(lines)
    ensures || StripIgnored(Content(lines)) == ""
            || forall keyword :: Numbers(SplitLines(StripIgnored(Content(lines))), keyword) == Numbers(lines, keyword)
  {
    hide SplitLines, Content, AllLines, NoMarkers, NoOpeners, Marker, StripComments, FenceScan, JoinLines, Numbers;
    var content := Content(lines);
    var cut := SplitLines(content);
    ContentKeepsComments(lines);
    ContentMarks(lines);
    if cut != [] && Marker(cut[0]).Some? {
      NothingKept(cut);
      JoinNothing();
    } else {
      FirstMarkLast(cut);
      NoMarkersKeepsAll(cut);
      SplitLinesAreLines(content);
      forall keyword ensures Numbers(SplitLines(StripIgnored(content)), keyword) == Numbers(lines, keyword) {
        NumbersRejoined(cut, keyword);
        ContentNumbers(lines, keyword);
      }
    }
  }

  lemma JoinNothing()
    ensures JoinLines([]) == ""
  {
  }

  lemma FirstMarkLast(lines: seq<string>)
    requires OnlyFirstMarks(lines) && (lines == [] || Marker(lines[0]).None?)
    ensures NoMarkers(lines)
  {
    hide Marker;
  }
}
