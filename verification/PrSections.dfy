/**
 The sectioniser and the section tracker of the route check agree, and reading the declared numbers again from the
 stripped content of a section finds what its lines declare.
 */
module PrSections {
  import opened Options
  import opened TextLines
  import opened PrScanners
  import opened ClosingReferences

  // ---- Two scanners -------------------------------------------------------------------------------------------

  /** `section = _level_two_heading(line) or section`, after all the lines. */
  function Track(lines: seq<string>): Option<string> {
    if lines == [] then None else
      var k := |lines| - 1;
      if Heading(lines[k]).Some? then Heading(lines[k]) else Track(lines[..k])
  }

  /** The lines that the tracker places in a section, without the headings. */
  function Under(lines: seq<string>, name: string): seq<string> {
    if lines == [] then [] else
      var k := |lines| - 1;
      Under(lines[..k], name) + if Heading(lines[k]).None? && Track(lines) == Some(name) then [lines[k]] else []
  }

  /** The lines that the sectioniser collects under a name. */
  function Gathered(sections: seq<Section>, name: string): seq<string> {
    if sections == [] then [] else
      var k := |sections| - 1;
      Gathered(sections[..k], name) + if sections[k].name == name then sections[k].lines else []
  }

  lemma GatheredMore(sections: seq<Section>, section: Section, name: string)
    ensures Gathered(sections + [section], name) ==
            Gathered(sections, name) + if section.name == name then section.lines else []
  {
    assert (sections + [section])[..|sections|] == sections;
  }

  /** The two scanners place every line in the same section. */
  lemma {:induction false} ScannersAgree(lines: seq<string>, name: string)
    ensures SectionScan(lines).name == Track(lines)
    ensures Gathered(Closed(SectionScan(lines)), name) == Under(lines, name)
  {
    hide Heading, Gathered;
    if lines == [] {
      GatheredNone(name);
    } else {
      var k := |lines| - 1;
      var s := SectionScan(lines[..k]);
      ScannersAgree(lines[..k], name);
      var heading := Heading(lines[k]);
      if heading.Some? {
        GatheredMore(Closed(s), Section(heading.value, []), name);
      } else if s.name.Some? {
        GatheredMore(s.done, Section(s.name.value, s.lines), name);
        GatheredMore(s.done, Section(s.name.value, s.lines + [lines[k]]), name);
      }
    }
  }

  lemma GatheredNone(name: string)
    ensures Gathered([], name) == []
  {
  }

  /** A section that occurs once holds exactly what the tracker places there. */
  lemma {:induction false} SingleContent(sections: seq<Section>, name: string)
    ensures |ContentsOf(sections, name)| == 0 ==> Gathered(sections, name) == []
    ensures |ContentsOf(sections, name)| == 1 ==> ContentsOf(sections, name)[0] == Content(Gathered(sections, name))
  {
    hide Content;
    if sections != [] {
      var k := |sections| - 1;
      SingleContent(sections[..k], name);
      assert [] + sections[k].lines == sections[k].lines;
      assert Gathered(sections[..k], name) + [] == Gathered(sections[..k], name);
    }
  }

  // ---- Declarations by section --------------------------------------------------------------------------------

  lemma HeadingDeclaresNothing(line: string)
    requires Heading(line).Some?
    ensures !Declares(line)
  {
    StartsWithAt(line, "##", 0);
    WordAtStart(line);
    if Words(line) != [] {
      assert Words(line)[0][0] == '#';
    }
  }

  /** A line that declares a closing number outside the named section. */
  predicate Stray(lines: seq<string>, k: nat, name: string)
    requires k < |lines|
  {
    Declares(lines[k]) && Track(lines[..k + 1]) != Some(name)
  }

  ghost predicate NoStray(lines: seq<string>, name: string) {
    forall k :: 0 <= k < |lines| ==> !Stray(lines, k, name)
  }

  lemma StrayPrefix(lines: seq<string>, n: nat, k: nat, name: string)
    requires k < n <= |lines|
    ensures Stray(lines[..n], k, name) == Stray(lines, k, name)
  {
    assert lines[..n][..k + 1] == lines[..k + 1];
  }

  lemma NumbersMore(lines: seq<string>, line: string, keyword: string)
    ensures Numbers(lines + [line], keyword) ==
            Numbers(lines, keyword) + if Declared(line, keyword).Some? then [Declared(line, keyword).value] else []
  {
    assert (lines + [line])[..|lines|] == lines;
  }

  /** One more line: its number is read under the section unless the line is stray. */
  lemma NumbersStep(lines: seq<string>, name: string)
    requires lines != []
    ensures var k := |lines| - 1;
            var more := if Declares(lines[k]) then [Declared(lines[k], "Closes").value] else [];
            Numbers(lines, "Closes") == Numbers(lines[..k], "Closes") + more &&
            Numbers(Under(lines, name), "Closes") ==
              Numbers(Under(lines[..k], name), "Closes") + if Stray(lines, k, name) then [] else more
  {
    hide Heading, Declared;
    var k := |lines| - 1;
    assert lines[..k + 1] == lines;
    if Heading(lines[k]).Some? {
      HeadingDeclaresNothing(lines[k]);
      assert Under(lines, name) == Under(lines[..k], name);
    } else if Track(lines) == Some(name) {
      NumbersMore(Under(lines[..k], name), lines[k], "Closes");
    } else {
      assert Under(lines, name) == Under(lines[..k], name);
    }
  }

  /** The whole text declares what the section declares exactly when no declaring line is outside it. */
  lemma {:induction false} NumbersUnder(lines: seq<string>, name: string)
    ensures |Numbers(Under(lines, name), "Closes")| <= |Numbers(lines, "Closes")|
    ensures NoStray(lines, name) <==> Numbers(lines, "Closes") == Numbers(Under(lines, name), "Closes")
    ensures !NoStray(lines, name) ==> |Numbers(Under(lines, name), "Closes")| < |Numbers(lines, "Closes")|
  {
    hide Track, Stray, Numbers, Under;
    if lines == [] {
      NothingDeclared(name);
    } else {
      var k := |lines| - 1;
      NumbersUnder(lines[..k], name);
      NumbersStep(lines, name);
      forall i | 0 <= i < k ensures Stray(lines[..k], i, name) == Stray(lines, i, name) {
        StrayPrefix(lines, k, i, name);
      }
      if Stray(lines, k, name) {
        StrayDeclares(lines, k, name);
      }
    }
  }

  lemma StrayDeclares(lines: seq<string>, k: nat, name: string)
    requires k < |lines| && Stray(lines, k, name)
    ensures Declares(lines[k])
  {
  }

  lemma NothingDeclared(name: string)
    ensures Numbers(Under([], name), "Closes") == Numbers([], "Closes") == []
  {
  }

  /** A number is declared in the text when the section or a stray line declares it. */
  lemma {:induction false} NumberOrigin(lines: seq<string>, name: string, n: nat)
    ensures n in Numbers(lines, "Closes") <==>
              || n in Numbers(Under(lines, name), "Closes")
              || exists k :: 0 <= k < |lines| && Stray(lines, k, name) && Declared(lines[k], "Closes") == Some(n)
  {
    hide Track, Stray, Numbers, Under, Declared;
    if lines == [] {
      NothingDeclared(name);
    } else {
      var k := |lines| - 1;
      NumberOrigin(lines[..k], name, n);
      NumbersStep(lines, name);
      forall i | 0 <= i < k ensures Stray(lines[..k], i, name) == Stray(lines, i, name) {
        StrayPrefix(lines, k, i, name);
      }
      if Stray(lines, k, name) {
        StrayDeclares(lines, k, name);
      }
    }
  }

  // ---- The declared numbers, each once ------------------------------------------------------------------------

  /** The declared numbers of the first `k` lines, each once. */
  function DeclaredBefore(lines: seq<string>, k: nat): seq<nat>
    requires k <= |lines|
  {
    Dedup(Numbers(lines[..k], "Closes"))
  }

  /** The line adds nothing to the numbers before it, or just the next number of the list. */
  predicate Agrees(lines: seq<string>, k: nat, numbers: seq<nat>)
    requires k < |lines| && Declares(lines[k])
  {
    var n, before := Declared(lines[k], "Closes").value, DeclaredBefore(lines, k);
    n in before || before + [n] <= numbers
  }

  lemma DedupMore(numbers: seq<nat>, n: nat)
    ensures Dedup(numbers + [n]) == Dedup(numbers) + if n in Dedup(numbers) then [] else [n]
  {
    DedupExact(numbers);
    assert (numbers + [n])[..|numbers|] == numbers;
  }

  lemma DeclaredStep(lines: seq<string>, k: nat)
    requires k < |lines|
    ensures DeclaredBefore(lines, k + 1) ==
              if Declares(lines[k]) && Declared(lines[k], "Closes").value !in DeclaredBefore(lines, k) then
                DeclaredBefore(lines, k) + [Declared(lines[k], "Closes").value]
              else DeclaredBefore(lines, k)
  {
    hide Declared, Dedup, Numbers;
    assert lines[..k + 1] == lines[..k] + [lines[k]];
    NumbersMore(lines[..k], lines[k], "Closes");
    if Declares(lines[k]) {
      DedupMore(Numbers(lines[..k], "Closes"), Declared(lines[k], "Closes").value);
    } else {
      assert Numbers(lines[..k], "Closes") + [] == Numbers(lines[..k], "Closes");
    }
  }

  lemma {:induction false} DeclaredPrefix(lines: seq<string>, k: nat, m: nat)
    requires k <= m <= |lines|
    ensures DeclaredBefore(lines, k) <= DeclaredBefore(lines, m)
    decreases m - k
  {
    hide DeclaredBefore, Declared;
    if k < m {
      DeclaredPrefix(lines, k, m - 1);
      DeclaredStep(lines, m - 1);
    }
  }

  /** The numbers of a section up to a line, each once. */
  function SectionBefore(lines: seq<string>, name: string, k: nat): seq<nat>
    requires k <= |lines|
  {
    DeclaredBefore(Under(lines[..k], name), |Under(lines[..k], name)|)
  }

  lemma SectionBeforeIs(lines: seq<string>, name: string, k: nat)
    requires k <= |lines|
    ensures SectionBefore(lines, name, k) == Dedup(Numbers(Under(lines[..k], name), "Closes"))
  {
    assert Under(lines[..k], name)[..|Under(lines[..k], name)|] == Under(lines[..k], name);
  }

  /** One more line: the section takes a new number exactly from a declaring line that is not stray. */
  lemma SectionStep(lines: seq<string>, name: string, k: nat)
    requires k < |lines|
    ensures SectionBefore(lines, name, k + 1) ==
              if Declares(lines[k]) && !Stray(lines, k, name) &&
                 Declared(lines[k], "Closes").value !in SectionBefore(lines, name, k) then
                SectionBefore(lines, name, k) + [Declared(lines[k], "Closes").value]
              else SectionBefore(lines, name, k)
  {
    hide Declared, Dedup, Numbers, Under, Stray, SectionBefore;
    SectionBeforeIs(lines, name, k);
    SectionBeforeIs(lines, name, k + 1);
    var upTo := lines[..k + 1];
    assert upTo[..k] == lines[..k] && upTo[k] == lines[k];
    NumbersStep(upTo, name);
    StrayPrefix(lines, k + 1, k, name);
    var before := Numbers(Under(lines[..k], name), "Closes");
    if Declares(lines[k]) && !Stray(lines, k, name) {
      DedupMore(before, Declared(lines[k], "Closes").value);
    } else {
      assert before + [] == before;
    }
  }

  lemma {:induction false} SectionPrefix(lines: seq<string>, name: string, k: nat, m: nat)
    requires k <= m <= |lines|
    ensures SectionBefore(lines, name, k) <= SectionBefore(lines, name, m)
    decreases m - k
  {
    hide SectionBefore, Declared, Stray;
    if k < m {
      SectionPrefix(lines, name, k, m - 1);
      SectionStep(lines, name, m - 1);
    }
  }

  /** What the section has read so far, the whole text has read too. */
  lemma {:induction false} SectionWithin(lines: seq<string>, name: string, k: nat)
    requires k <= |lines|
    ensures forall n :: n in SectionBefore(lines, name, k) ==> n in DeclaredBefore(lines, k)
  {
    hide SectionBefore, DeclaredBefore, Declared, Stray;
    if k == 0 {
      NothingBefore(lines, name);
    } else {
      SectionWithin(lines, name, k - 1);
      SectionStep(lines, name, k - 1);
      DeclaredStep(lines, k - 1);
    }
  }

  lemma NothingBefore(lines: seq<string>, name: string)
    ensures SectionBefore(lines, name, 0) == DeclaredBefore(lines, 0) == []
  {
    assert lines[..0] == [];
  }

  /** A list that continues a shorter one with a number that a longer one of its prefixes lacks continues that one. */
  lemma NextNumber(numbers: seq<nat>, section: seq<nat>, before: seq<nat>, n: nat)
    requires section + [n] <= numbers && before <= numbers && n !in before
    requires forall m :: m in section ==> m in before
    requires forall i, j :: 0 <= i < j < |numbers| ==> numbers[i] != numbers[j]
    ensures before + [n] <= numbers
  {
    var q := |section|;
    assert numbers[q] == (section + [n])[q] == n;
    assert forall i :: 0 <= i < |before| ==> before[i] == numbers[i] && before[i] in before;
    assert forall i :: 0 <= i < q ==> section[i] == numbers[i] && section[i] in section;
  }

  /** While every stray line agrees with the section's numbers, what the text has read is a prefix of them. */
  lemma {:induction false} AgreeingPrefix(lines: seq<string>, name: string, k: nat)
    requires k <= |lines|
    requires forall i :: 0 <= i < |lines| && Stray(lines, i, name) ==>
               Declares(lines[i]) && Agrees(lines, i, SectionBefore(lines, name, |lines|))
    ensures DeclaredBefore(lines, k) <= SectionBefore(lines, name, |lines|)
  {
    hide SectionBefore, DeclaredBefore, Declared, Stray;
    if k == 0 {
      NothingBefore(lines, name);
    } else {
      var i := k - 1;
      AgreeingPrefix(lines, name, i);
      DeclaredStep(lines, i);
      if Declares(lines[i]) && !Stray(lines, i, name) &&
         Declared(lines[i], "Closes").value !in DeclaredBefore(lines, i) {
        SectionStep(lines, name, i);
        SectionWithin(lines, name, i);
        SectionPrefix(lines, name, k, |lines|);
        SectionDistinct(lines, name);
        NextNumber(SectionBefore(lines, name, |lines|), SectionBefore(lines, name, i), DeclaredBefore(lines, i),
                   Declared(lines[i], "Closes").value);
      }
    }
  }

  lemma SectionDistinct(lines: seq<string>, name: string)
    ensures var s := SectionBefore(lines, name, |lines|);
            forall i, j :: 0 <= i < j < |s| ==> s[i] != s[j]
  {
    hide Dedup, Numbers;
    DedupExact(Numbers(Under(lines[..|lines|], name)[..|Under(lines[..|lines|], name)|], "Closes"));
  }

  lemma PrefixWithAll(a: seq<nat>, b: seq<nat>)
    requires a <= b && (forall n :: n in b ==> n in a)
    requires forall i, j :: 0 <= i < j < |b| ==> b[i] != b[j]
    ensures a == b
  {
    if b != [] {
      var last := b[|b| - 1];
      assert last in a;
      var j :| 0 <= j < |a| && a[j] == last;
      assert b[j] == a[j];
    }
  }

  /**
   The whole text declares the numbers of one section, each once and in order, exactly when every stray line repeats a
   number declared before it, or comes just where the section's list has its number next.
   */
  lemma DedupUnder(lines: seq<string>, name: string)
    ensures Dedup(Numbers(lines, "Closes")) == Dedup(Numbers(Under(lines, name), "Closes")) <==>
            forall k :: 0 <= k < |lines| && Stray(lines, k, name) ==>
              Declares(lines[k]) && Agrees(lines, k, Dedup(Numbers(Under(lines, name), "Closes")))
  {
    hide SectionBefore, DeclaredBefore, Declared, Stray, Numbers, Under, Dedup;
    var n := |lines|;
    var all, section := DeclaredBefore(lines, n), SectionBefore(lines, name, n);
    assert lines[..n] == lines;
    SectionBeforeIs(lines, name, n);
    WholeIs(lines);
    if all == section {
      forall k | 0 <= k < n && Stray(lines, k, name) ensures Declares(lines[k]) && Agrees(lines, k, section) {
        StrayDeclares(lines, k, name);
        DeclaredStep(lines, k);
        DeclaredPrefix(lines, k + 1, n);
      }
    }
    if forall k :: 0 <= k < n && Stray(lines, k, name) ==> Declares(lines[k]) && Agrees(lines, k, section) {
      AgreeingPrefix(lines, name, n);
      SectionWithin(lines, name, n);
      SectionDistinct(lines, name);
      PrefixWithAll(all, section);
    }
  }

  lemma WholeIs(lines: seq<string>)
    ensures DeclaredBefore(lines, |lines|) == Dedup(Numbers(lines, "Closes"))
  {
    assert lines[..|lines|] == lines;
  }

  // ---- Reading the content again ------------------------------------------------------------------------------

  /** The lines of a text and of the same text with one more space `c` at its end. */
  ghost predicate Trails(long: seq<string>, short: seq<string>, c: char) {
    || long == short
    || long == short + [""]
    || long == short + [[c]]
    || (short != [] && long == short[..|short| - 1] + [short[|short| - 1] + [c]])
  }

  lemma TrailsBelow(line: string, long: seq<string>, short: seq<string>, c: char)
    requires Trails(long, short, c)
    ensures Trails([line] + long, [line] + short, c)
  {
    if short != [] {
      assert ([line] + short)[..|short|] == [line] + short[..|short| - 1];
    }
  }

  lemma TrailsPrepend(piece: string, long: seq<string>, short: seq<string>, c: char)
    requires Trails(long, short, c) && short != []
    ensures Trails(Prepend(piece, long), Prepend(piece, short), c)
  {
    var k := |short| - 1;
    hide Prepend;
    PrependMore(piece, short, [""]);
    PrependMore(piece, short, [[c]]);
    if long == short[..k] + [short[k] + [c]] {
      PrependLast(piece, short, c);
    }
  }

  lemma PrependMore(piece: string, lines: seq<string>, more: seq<string>)
    requires lines != []
    ensures Prepend(piece, lines + more) == Prepend(piece, lines) + more && Prepend(piece, lines) != []
  {
    assert (lines + more)[1..] == lines[1..] + more;
  }

  /** A character behind the last line. */
  lemma PrependLast(piece: string, lines: seq<string>, c: char)
    requires lines != []
    ensures var k := |lines| - 1;
            var p := Prepend(piece, lines);
            |p| == k + 1 && Prepend(piece, lines[..k] + [lines[k] + [c]]) == p[..k] + [p[k] + [c]]
  {
    var k := |lines| - 1;
    var p := Prepend(piece, lines);
    if k == 0 {
      assert piece + (lines[0] + [c]) == piece + lines[0] + [c];
      assert lines[..0] + [lines[0] + [c]] == [lines[0] + [c]];
      assert p == [piece + lines[0]];
    } else {
      PrependMore(piece, lines[..k], [lines[k] + [c]]);
      PrependMore(piece, lines[..k], [lines[k]]);
      assert lines == lines[..k] + [lines[k]];
      assert p == Prepend(piece, lines[..k]) + [lines[k]];
    }
  }

  lemma {:induction false} SplitTrail(t: string, c: char)
    requires IsSpace(c)
    ensures Trails(SplitLines(t + [c]), SplitLines(t), c)
    decreases |t|
  {
    hide IsSpace;
    if |t| == 0 {
      SplitShort(c);
      assert t + [c] == [c];
    } else if IsBreak(t[0]) {
      var long := t + [c];
      if t[0] == '\r' && |t| > 1 && t[1] == '\n' {
        assert long[2..] == t[2..] + [c];
        SplitTrail(t[2..], c);
        TrailsBelow("", SplitLines(t[2..] + [c]), SplitLines(t[2..]), c);
      } else if t == "\r" && c == '\n' {
        assert long[2..] == "";
        assert t[1..] == "";
      } else {
        assert long[1..] == t[1..] + [c];
        SplitTrail(t[1..], c);
        TrailsBelow("", SplitLines(t[1..] + [c]), SplitLines(t[1..]), c);
      }
    } else if |t| == 1 {
      SplitShort(c);
      SplitShort(t[0]);
      assert (t + [c])[1..] == [c] && t == [t[0]] && t + "" == t;
      assert SplitLines(t + [c]) == if IsBreak(c) then [t] else [t + [c]];
      assert [t][..0] + [t + [c]] == [t + [c]];
    } else {
      assert (t + [c])[1..] == t[1..] + [c];
      SplitTrail(t[1..], c);
      SplitNonEmpty(t[1..]);
      TrailsPrepend([t[0]], SplitLines(t[1..] + [c]), SplitLines(t[1..]), c);
    }
  }

  lemma SplitShort(c: char)
    ensures SplitLines("") == []
    ensures SplitLines([c]) == if IsBreak(c) then [""] else [[c]]
  {
    assert [c][1..] == "";
  }

  lemma SplitNonEmpty(t: string)
    requires t != ""
    ensures SplitLines(t) != []
  {
  }

  /** The text with its lines cut reads the same numbers with a space more or less at either end. */
  lemma NumbersTrail(t: string, c: char, keyword: string)
    requires IsSpace(c)
    ensures Numbers(SplitLines(t + [c]), keyword) == Numbers(SplitLines(t), keyword)
  {
    hide SplitLines, IsSpace;
    var long, short := SplitLines(t + [c]), SplitLines(t);
    SplitTrail(t, c);
    NothingOnSpace(c, keyword);
    if long == short + [""] {
      NumbersMore(short, "", keyword);
    } else if long == short + [[c]] {
      NumbersMore(short, [c], keyword);
    } else if long != short {
      var k := |short| - 1;
      NumbersMore(short[..k], short[k] + [c], keyword);
      NumbersMore(short[..k], short[k], keyword);
      assert short[..k] + [short[k]] == short;
      DeclaredTrail(short[k], c, keyword);
    }
  }

  lemma DeclaredTrail(line: string, c: char, keyword: string)
    requires IsSpace(c)
    ensures Declared(line + [c], keyword) == Declared(line, keyword)
  {
    WordsTrail(line, c);
  }

  lemma DeclaredLead(line: string, c: char, keyword: string)
    requires IsSpace(c)
    ensures Declared([c] + line, keyword) == Declared(line, keyword)
  {
    WordsLead(line, c);
  }

  lemma NothingOnSpace(c: char, keyword: string)
    requires IsSpace(c)
    ensures Declared("", keyword).None? && Declared([c], keyword).None?
  {
    assert [c][1..] == "";
  }

  lemma {:induction false} NumbersJoin(a: seq<string>, b: seq<string>, keyword: string)
    ensures Numbers(a + b, keyword) == Numbers(a, keyword) + Numbers(b, keyword)
  {
    hide Declared, Numbers;
    if b == [] {
      NoNumbers(keyword);
      assert a + b == a;
    } else {
      var k := |b| - 1;
      NumbersJoin(a, b[..k], keyword);
      NumbersMore(a + b[..k], b[k], keyword);
      NumbersMore(b[..k], b[k], keyword);
      assert a + b == a + b[..k] + [b[k]] && b == b[..k] + [b[k]];
    }
  }

  lemma NumbersSingle(line: string, keyword: string)
    ensures Numbers([line], keyword) == if Declared(line, keyword).Some? then [Declared(line, keyword).value] else []
  {
    NumbersMore([], line, keyword);
    assert [] + [line] == [line];
  }

  lemma NumbersBelow(line: string, lines: seq<string>, keyword: string)
    ensures Numbers([line] + lines, keyword) ==
            (if Declared(line, keyword).Some? then [Declared(line, keyword).value] else []) + Numbers(lines, keyword)
  {
    NumbersJoin([line], lines, keyword);
    NumbersSingle(line, keyword);
  }

  /** The lines of a text with one space in front. */
  lemma SplitLead(t: string, c: char)
    ensures var long, short := SplitLines([c] + t), SplitLines(t);
            if !IsBreak(c) then long == Prepend([c], short) else (long == [""] + short || long == short)
  {
    var long := [c] + t;
    assert long[1..] == t;
    if c == '\r' && t != "" && t[0] == '\n' {
      assert long[2..] == t[1..];
    }
  }

  lemma NumbersLead(t: string, c: char, keyword: string)
    requires IsSpace(c)
    ensures Numbers(SplitLines([c] + t), keyword) == Numbers(SplitLines(t), keyword)
  {
    hide SplitLines, IsSpace, Numbers, Declared;
    var short := SplitLines(t);
    SplitLead(t, c);
    NothingOnSpace(c, keyword);
    NumbersBelow("", short, keyword);
    if !IsBreak(c) {
      if short == [] {
        NumbersSingle([c], keyword);
        NoNumbers(keyword);
      } else {
        DeclaredLead(short[0], c, keyword);
        NumbersBelow([c] + short[0], short[1..], keyword);
        NumbersBelow(short[0], short[1..], keyword);
        assert short == [short[0]] + short[1..];
      }
    }
  }

  lemma NoNumbers(keyword: string)
    ensures Numbers([], keyword) == []
  {
  }

  lemma {:induction false} NumbersStripLeft(t: string, keyword: string)
    ensures Numbers(SplitLines(StripLeft(t)), keyword) == Numbers(SplitLines(t), keyword)
  {
    hide SplitLines, Numbers;
    if t != "" && IsSpace(t[0]) {
      NumbersStripLeft(t[1..], keyword);
      NumbersLead(t[1..], t[0], keyword);
      assert t == [t[0]] + t[1..];
    }
  }

  lemma {:induction false} NumbersStripRight(t: string, keyword: string)
    ensures Numbers(SplitLines(StripRight(t)), keyword) == Numbers(SplitLines(t), keyword)
  {
    hide SplitLines, Numbers;
    if t != "" && IsSpace(t[|t| - 1]) {
      NumbersStripRight(t[..|t| - 1], keyword);
      NumbersTrail(t[..|t| - 1], t[|t| - 1], keyword);
      assert t == t[..|t| - 1] + [t[|t| - 1]];
    }
  }

  lemma NumbersLastEmpty(lines: seq<string>, keyword: string)
    requires lines != [] && lines[|lines| - 1] == ""
    ensures Numbers(lines[..|lines| - 1], keyword) == Numbers(lines, keyword)
  {
    var k := |lines| - 1;
    assert lines == lines[..k] + [""];
    NumbersMore(lines[..k], "", keyword);
    NothingOnSpace(' ', keyword);
  }

  /** Joining lines and cutting the text again loses no number. */
  lemma NumbersRejoined(lines: seq<string>, keyword: string)
    requires AllLines(lines)
    ensures Numbers(SplitLines(JoinLines(lines)), keyword) == Numbers(lines, keyword)
  {
    hide SplitLines, JoinLines, Numbers, AllLines;
    SplitJoined(lines);
    if lines != [] && lines[|lines| - 1] == "" {
      NumbersLastEmpty(lines, keyword);
    } else if lines == [] {
      assert lines[..0] == lines;
    }
  }

  lemma ContentNumbers(lines: seq<string>, keyword: string)
    requires AllLines(lines)
    ensures Numbers(SplitLines(Content(lines)), keyword) == Numbers(lines, keyword)
  {
    hide SplitLines, JoinLines, Numbers, AllLines, StripLeft, StripRight;
    var t := JoinLines(lines);
    NumbersRejoined(lines, keyword);
    NumbersStripLeft(t, keyword);
    NumbersStripRight(StripLeft(t), keyword);
  }
}
