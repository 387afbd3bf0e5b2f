/**
 What acceptance of a pull request body means for the audit after the merge: the audit reads closing numbers from the
 whole body, the check verified those of the Related Issues section.
 */
module PrAudit {
  import opened Options
  import opened Decimals
  import opened TextLines
  import opened PrScanners
  import opened ClosingReferences
  import opened PrSections
  import opened PrContent
  import opened PrBody

  /** The closing numbers that the audit reads from a text, with repetitions. */
  function Read(text: string): seq<nat> {
    Numbers(LinesOf(text), "Closes")
  }

  ghost predicate Accepted(body: string, lookup: nat -> Answer, prose: Prose, repository: string) {
    ValidRepository(repository) && Violations(body, lookup, prose, repository) == []
  }

  /** A hidden closing line outside the tracking section. */
  predicate HiddenOutside(lines: seq<string>, k: nat)
    requires k < |lines|
  {
    Hidden(lines[k]) && Track(lines[..k + 1]) != Some(TRACKING)
  }

  ghost predicate NothingHidden(body: string) {
    var lines := LinesOf(body);
    forall k :: 0 <= k < |lines| ==> !HiddenOutside(lines, k)
  }

  // ---- The cleaned lines --------------------------------------------------------------------------------------

  lemma CleanedLines(body: string)
    ensures AllLines(LinesOf(body)) && NoMarkers(LinesOf(body))
    ensures !HasOpener(StripIgnored(body)) ==> NoOpeners(LinesOf(body))
  {
    hide SplitLines, JoinLines, StripComments, FenceScan, Marker, HasOpener, IsLine;
    var cut := SplitLines(StripComments(body));
    var kept := FenceScan(cut).kept;
    SplitLinesAreLines(StripComments(body));
    KeptLines(cut);
    SplitJoined(kept);
    if !HasOpener(JoinLines(kept)) {
      forall i | 0 <= i < |kept| ensures !HasOpener(kept[i]) {
        if HasOpener(kept[i]) {
          LineInJoin(kept, i);
        }
      }
    }
  }

  lemma {:induction false} UnderMembers(lines: seq<string>, name: string, i: nat)
    requires i < |Under(lines, name)|
    ensures Under(lines, name)[i] in lines
  {
    hide Heading, Track;
    var k := |lines| - 1;
    if i < |Under(lines[..k], name)| {
      UnderMembers(lines[..k], name, i);
    }
  }

  lemma UnderClean(lines: seq<string>, name: string)
    requires AllLines(lines) && NoMarkers(lines) && NoOpeners(lines)
    ensures AllLines(Under(lines, name)) && NoMarkers(Under(lines, name)) && NoOpeners(Under(lines, name))
  {
    hide Under, IsLine, Marker, HasOpener;
    forall i | 0 <= i < |Under(lines, name)|
      ensures IsLine(Under(lines, name)[i]) && Marker(Under(lines, name)[i]).None? && !HasOpener(Under(lines, name)[i])
    {
      UnderMembers(lines, name, i);
    }
  }

  // ---- Acceptance ---------------------------------------------------------------------------------------------

  lemma TrackingRequired()
    ensures |REQUIRED_SECTIONS| == 9 && Lower(REQUIRED_SECTIONS[2]) == TRACKING
  {
    TrackingLower(REQUIRED_SECTIONS[2]);
  }

  lemma TrackingLower(heading: string)
    requires heading == "Related Issues"
    ensures Lower(heading) == TRACKING
  {
    hide Lower;
    forall i | 0 <= i < |heading| ensures Lower(heading)[i] == TRACKING[i] {
      LowerAt(heading, i);
    }
  }

  lemma AcceptedParts(body: string, lookup: nat -> Answer, prose: Prose, repository: string)
    requires Accepted(body, lookup, prose, repository)
    ensures RequiredViolations(REQUIRED_SECTIONS, SectionsOf(body)) == []
    ensures IssueViolations(ContentsOf(SectionsOf(body), TRACKING), lookup, prose) == []
    ensures RouteViolations(LinesOf(body), repository) == []
  {
    hide RequiredViolations, IssueViolations, RouteViolations, SectionsOf, LinesOf, ValidRepository, ContentsOf;
  }

  /** The single content of the tracking section, and its lines. */
  lemma TrackingContent(body: string) returns (content: string)
    requires RequiredViolations(REQUIRED_SECTIONS, SectionsOf(body)) == []
    ensures ContentsOf(SectionsOf(body), TRACKING) == [content]
    ensures content == Content(Under(LinesOf(body), TRACKING))
  {
    hide RequiredViolations, ContentsOf, LinesOf, Content, Under, Lower, Gathered;
    RequiredExact(REQUIRED_SECTIONS, SectionsOf(body));
    TrackingRequired();
    SingleContent(SectionsOf(body), TRACKING);
    ScannersAgree(LinesOf(body), TRACKING);
    content := ContentsOf(SectionsOf(body), TRACKING)[0];
  }

  /** An accepted section was not emptied by the second pass. */
  lemma NotEmptied(content: string, lookup: nat -> Answer, prose: Prose)
    requires IssueViolations([content], lookup, prose) == []
    ensures StripIgnored(content) != ""
  {
    hide StripIgnored, IssueNumbers, Reasons, SplitLines;
    if StripIgnored(content) == "" {
      EmptyReads(content);
    }
  }

  lemma EmptyReads(content: string)
    requires StripIgnored(content) == ""
    ensures IssueNumbers(content, "Closes") == IssueNumbers(content, "Refs") == []
    ensures Reasons(SplitLines(StripIgnored(content))) == []
  {
    hide StripIgnored;
  }

  /** In an accepted body the stray declarations are the hidden ones. */
  lemma StrayIsHidden(lines: seq<string>, k: nat, repository: string)
    requires ValidRepository(repository) && RouteViolations(lines, repository) == [] && k < |lines|
    ensures Stray(lines, k, TRACKING) == HiddenOutside(lines, k)
  {
    hide ValidRepository, RouteViolations, Track, References, Declares, Blank, IssueNumbers;
    RouteExact(lines, repository);
    if Stray(lines, k, TRACKING) {
      assert References(lines[k], repository) == [];
      DeclaringLineMatches(lines[k], repository);
    }
  }

  /** An open issue of this repository, with requirement scope or without. */
  predicate OpenIssue(answer: Answer, scoped: bool) {
    answer.Facts? && answer.present && answer.isOpen && (answer.requirementUids != [] <==> scoped)
  }

  /**
   The tracking section is in order exactly when it declares open issues only, `Refs` for those with requirement scope
   and `Closes` for those without, and states no reason; or declares none and states one reason that has substance.
   */
  lemma IssueExact(content: string, lookup: nat -> Answer, prose: Prose)
    ensures var closes, refs := IssueNumbers(content, "Closes"), IssueNumbers(content, "Refs");
            var reasons := Reasons(LinesOf(content));
            IssueViolations([content], lookup, prose) == [] <==>
              if closes == [] && refs == [] then |reasons| == 1 && prose.reason(reasons[0])
              else
                reasons == [] && (forall n :: n in closes ==> OpenIssue(lookup(n), false)) &&
                forall n :: n in refs ==> OpenIssue(lookup(n), true)
  {
    hide IssueNumbers, Reasons, Inspected, StripIgnored, SplitLines;
    var closes, refs := IssueNumbers(content, "Closes"), IssueNumbers(content, "Refs");
    var declarations := Declarations(closes, "Closes") + Declarations(refs, "Refs");
    assert declarations == [] <==> closes == [] && refs == [];
    InspectedExact(declarations, lookup);
    AllDeclared(closes, refs, lookup);
  }

  /** Inspecting the declarations is inspecting the numbers under both keywords. */
  lemma AllDeclared(closes: seq<nat>, refs: seq<nat>, lookup: nat -> Answer)
    ensures var ds := Declarations(closes, "Closes") + Declarations(refs, "Refs");
            (forall i :: 0 <= i < |ds| ==>
               OpenIssue(lookup(ds[i].number), ds[i].keyword == "Refs")) <==>
              (forall n :: n in closes ==> OpenIssue(lookup(n), false)) &&
              forall n :: n in refs ==> OpenIssue(lookup(n), true)
    ensures var ds := Declarations(closes, "Closes") + Declarations(refs, "Refs");
            forall i :: 0 <= i < |ds| ==> ds[i].keyword == if i < |closes| then "Closes" else "Refs"
  {
    hide OpenIssue;
    var ds := Declarations(closes, "Closes") + Declarations(refs, "Refs");
    assert forall i :: 0 <= i < |closes| ==> ds[i] == Declaration("Closes", closes[i]);
    assert forall i :: 0 <= i < |refs| ==> ds[|closes| + i] == Declaration("Refs", refs[i]);
    assert "Closes" != "Refs";
    if forall i :: 0 <= i < |ds| ==> OpenIssue(lookup(ds[i].number), ds[i].keyword == "Refs") {
      forall n | n in closes ensures OpenIssue(lookup(n), false) {
        var i :| 0 <= i < |closes| && closes[i] == n;
        assert ds[i].number == n;
      }
      forall n | n in refs ensures OpenIssue(lookup(n), true) {
        var i :| 0 <= i < |refs| && refs[i] == n;
        assert ds[|closes| + i].number == n;
      }
    }
  }

  // ---- The audit ----------------------------------------------------------------------------------------------

  lemma ReadContent(body: string, content: string, lookup: nat -> Answer, prose: Prose)
    requires !HasOpener(StripIgnored(body)) && content == Content(Under(LinesOf(body), TRACKING))
    requires IssueViolations([content], lookup, prose) == []
    ensures Read(content) == Numbers(Under(LinesOf(body), TRACKING), "Closes")
  {
    hide IssueViolations, Content, Under, Numbers, HasOpener, AllLines, NoMarkers, NoOpeners, StripIgnored, SplitLines;
    CleanedLines(body);
    UnderClean(LinesOf(body), TRACKING);
    ContentReread(Under(LinesOf(body), TRACKING));
    NotEmptied(content, lookup, prose);
  }

  /** The audit reads a number when the section or a hidden line outside it declares the number. */
  ghost predicate NumberFrom(body: string, content: string, n: nat) {
    n in Read(body) <==>
      || n in Read(content)
      || exists k :: 0 <= k < |LinesOf(body)| && HiddenOutside(LinesOf(body), k) &&
                     Declared(LinesOf(body)[k], "Closes") == Some(n)
  }

  /**
   Every hidden closing line outside the tracking section repeats a number that the text declared before it, or stands
   just where the numbers of the section have its number next.
   */
  ghost predicate HiddenAgree(body: string, numbers: seq<nat>) {
    var lines := LinesOf(body);
    forall k :: 0 <= k < |lines| && HiddenOutside(lines, k) ==> Declares(lines[k]) && Agrees(lines, k, numbers)
  }

  /**
   Acceptance, for a body whose cleaned text has no comment opener: the tracking section occurs once and its closing
   numbers are verified. The numbers that the audit reads from the whole body, each once, are exactly those of the
   section, in order, if and only if every hidden closing line outside the section agrees with them.
   */
  lemma AcceptedAudit(body: string, lookup: nat -> Answer, prose: Prose, repository: string) returns (content: string)
    requires Accepted(body, lookup, prose, repository) && !HasOpener(StripIgnored(body))
    ensures ContentsOf(SectionsOf(body), TRACKING) == [content]
    ensures forall n :: n in IssueNumbers(content, "Closes") ==> OpenIssue(lookup(n), false)
    ensures IssueNumbers(body, "Closes") == IssueNumbers(content, "Closes") <==>
            HiddenAgree(body, IssueNumbers(content, "Closes"))
    ensures Read(body) == Read(content) <==> NothingHidden(body)
    ensures NothingHidden(body) ==> IssueNumbers(body, "Closes") == IssueNumbers(content, "Closes")
    ensures forall n: nat :: NumberFrom(body, content, n)
  {
    hide HasOpener, LinesOf, SectionsOf, IssueViolations, RouteViolations, RequiredViolations, Accepted, Numbers,
         Declared, HiddenOutside, Stray, Under, ContentsOf, Content, Dedup, Agrees;
    AcceptedParts(body, lookup, prose, repository);
    AcceptedRepository(body, lookup, prose, repository);
    content := TrackingContent(body);
    IssueExact(content, lookup, prose);
    ReadContent(body, content, lookup, prose);
    var lines := LinesOf(body);
    forall k | 0 <= k < |lines| ensures Stray(lines, k, TRACKING) == HiddenOutside(lines, k) {
      StrayIsHidden(lines, k, repository);
    }
    NumbersUnder(lines, TRACKING);
    DedupUnder(lines, TRACKING);
    ReadOnce(body);
    ReadOnce(content);
    forall n: nat ensures NumberFrom(body, content, n) {
      NumberOrigin(lines, TRACKING, n);
    }
  }

  lemma AcceptedRepository(body: string, lookup: nat -> Answer, prose: Prose, repository: string)
    requires Accepted(body, lookup, prose, repository)
    ensures ValidRepository(repository)
  {
    hide ValidRepository, Violations;
  }

  lemma ReadOnce(text: string)
    ensures IssueNumbers(text, "Closes") == Dedup(Read(text))
  {
    hide Numbers, Dedup;
  }

  // ---- Routes -------------------------------------------------------------------------------------------------

  /** A cleaned line by itself is read as the line that it is. */
  lemma LineNumbers(line: string)
    requires IsLine(line) && Marker(line).None? && !HasOpener(line)
    ensures IssueNumbers(line, "Closes") != [] <==> Declares(line)
  {
    hide IsLine, Marker, HasOpener, StripComments, Declared, SplitLines, JoinLines;
    NoOpenerNothingRemoved(line);
    LineAlone(line);
    NoMarkersKeepsAll(SplitLines(line));
    DedupExact(Read(line));
    ReadOnce(line);
    NothingOnSpace(' ', "Closes");
    NumbersSingle(line, "Closes");
    NoNumbers("Closes");
    if Declares(line) {
      assert Declared(line, "Closes").value in Read(line);
    }
  }

  lemma LineAlone(line: string)
    requires IsLine(line)
    ensures SplitLines(line) == if line == "" then [] else [line]
    ensures JoinLines(SplitLines(line)) == line
  {
    hide SplitLines;
    SplitOne(line);
  }

  /** The route check on a cleaned body: a line with a closing reference is a declaration in the tracking section. */
  lemma RouteMeaning(body: string, repository: string)
    requires !HasOpener(StripIgnored(body))
    ensures var lines := LinesOf(body);
            RouteViolations(lines, repository) == [] <==>
              forall k :: 0 <= k < |lines| ==>
                || References(lines[k], repository) == []
                || (Track(lines[..k + 1]) == Some(TRACKING) && Declares(lines[k]))
  {
    hide HasOpener, LinesOf, RouteViolations, IssueNumbers, Track, References, Declares, Marker, IsLine;
    var lines := LinesOf(body);
    CleanedLines(body);
    RouteExact(lines, repository);
    forall k | 0 <= k < |lines| ensures IssueNumbers(lines[k], "Closes") != [] <==> Declares(lines[k]) {
      LineNumbers(lines[k]);
    }
  }

  // ---- Without hidden lines -----------------------------------------------------------------------------------

  lemma {:induction false} CharInLine(t: string, k: nat, i: nat)
    requires k < |SplitLines(t)| && i < |SplitLines(t)[k]|
    ensures SplitLines(t)[k][i] in t
    decreases |t|
  {
    if IsBreak(t[0]) {
      CharInLine(if t[0] == '\r' && |t| > 1 && t[1] == '\n' then t[2..] else t[1..], k - 1, i);
    } else {
      var rest := SplitLines(t[1..]);
      if k > 0 {
        CharInLine(t[1..], k, i);
      } else if i > 0 {
        assert rest != [] && SplitLines(t)[0] == [t[0]] + rest[0];
        CharInLine(t[1..], 0, i - 1);
      }
    }
  }

  /** Only a unit separator hides a closing line. */
  lemma HiddenSeparator(line: string)
    requires Hidden(line) && IsLine(line)
    ensures UNIT_SEPARATOR in line
  {
    hide Declares, CutWords;
    LeadIsSpace(line);
    DeclaredParts(line);
    var c := CutWords(line);
    var i :| 0 <= i < |Gap(line)| && !IsBlank(Gap(line)[i]);
    assert line[c.end + i] == Gap(line)[i];
  }

  /** A text without unit separators hides nothing, so there the audit and the check always agree. */
  lemma SeparatorFreeAudit(body: string, lookup: nat -> Answer, prose: Prose, repository: string)
    returns (content: string)
    requires Accepted(body, lookup, prose, repository) && !HasOpener(StripIgnored(body))
    requires UNIT_SEPARATOR !in StripIgnored(body)
    ensures ContentsOf(SectionsOf(body), TRACKING) == [content]
    ensures IssueNumbers(body, "Closes") == IssueNumbers(content, "Closes")
    ensures forall n :: n in IssueNumbers(body, "Closes") ==>
                          OpenIssue(lookup(n), false)
  {
    hide HasOpener, StripIgnored, SplitLines, SectionsOf, Accepted, IssueNumbers, ContentsOf, Hidden, Track;
    content := AcceptedAudit(body, lookup, prose, repository);
    var lines := LinesOf(body);
    CleanedLines(body);
    forall k | 0 <= k < |lines| ensures !HiddenOutside(lines, k) {
      if Hidden(lines[k]) {
        HiddenSeparator(lines[k]);
        var i :| 0 <= i < |lines[k]| && lines[k][i] == UNIT_SEPARATOR;
        CharInLine(StripIgnored(body), k, i);
      }
    }
  }

  // ---- A hidden line in front ---------------------------------------------------------------------------------

  /** A closing line whose words are separated by a unit separator. */
  function HiddenLine(reference: string): string {
    "Closes" + [UNIT_SEPARATOR] + "#" + reference
  }

  predicate NoSpaces(word: string) {
    forall i :: 0 <= i < |word| ==> !IsSpace(word[i])
  }

  lemma {:induction false} WordBeforeSpace(word: string, rest: string)
    requires NoSpaces(word) && (rest == "" || IsSpace(rest[0]))
    ensures WordLength(word + rest) == |word|
  {
    if word == "" {
      assert word + rest == rest;
    } else {
      assert (word + rest)[1..] == word[1..] + rest;
      WordBeforeSpace(word[1..], rest);
    }
  }

  /** Two words with one white space character between them. */
  lemma WordsOfTwo(a: string, c: char, b: string)
    requires a != "" && b != "" && NoSpaces(a) && NoSpaces(b) && IsSpace(c)
    ensures var line := a + ([c] + b);
            Words(line) == [a, b] && Gap(line) == [c]
  {
    hide IsSpace, Words, WordLength;
    var line := a + ([c] + b);
    WordBeforeSpace(a, [c] + b);
    WordBeforeSpace(b, "");
    assert b + "" == b && b[|b|..] == "" && b[..|b|] == b;
    assert line[0] == a[0] && line[..|a|] == a && line[|a|..] == [c] + b;
    WordAtStart(line);
    WordsLead(b, c);
    WordAtStart(b);
    NoWords();
    assert line[0..] == line;
    LeadOne(c, b);
  }

  lemma LeadOne(c: char, b: string)
    requires IsSpace(c) && b != "" && !IsSpace(b[0])
    ensures Lead([c] + b) == 1
  {
    assert ([c] + b)[1..] == b;
  }

  lemma HiddenLineShape(reference: string)
    requires IsReference(reference)
    ensures var line := HiddenLine(reference);
            line == "Closes" + ([UNIT_SEPARATOR] + ("#" + reference)) && NoSpaces("#" + reference) &&
            line[0] == 'C' && IsLine(line) && forall i :: 0 <= i < |line| ==> line[i] != '<'
  {
    var line := HiddenLine(reference);
    assert line == "Closes" + ([UNIT_SEPARATOR] + ("#" + reference));
    forall i | 0 <= i < |line| ensures line[i] != '<' && !IsBreak(line[i]) {
      if i >= 8 {
        assert line[i] == reference[i - 8];
        assert IsDigit(reference[i - 8]);
      }
    }
  }

  lemma HiddenLineHidden(reference: string)
    requires IsReference(reference)
    ensures Declared(HiddenLine(reference), "Closes") == Some(DecimalValue(reference))
    ensures Hidden(HiddenLine(reference))
  {
    hide HiddenLine, CutWords, Words;
    HiddenLineShape(reference);
    var word := "#" + reference;
    WordsOfTwo("Closes", UNIT_SEPARATOR, word);
    assert word[1..] == reference;
    var gap := Gap(HiddenLine(reference));
    assert gap[0] == UNIT_SEPARATOR && !IsBlank(gap[0]);
  }

  lemma LetterNoMarker(line: string)
    requires line != "" && line[0] == 'C'
    ensures Marker(line).None? && Heading(line).None?
  {
    if StartsWith(line, "##") {
      StartsWithAt(line, "##", 0);
    }
  }

  lemma NoCommentHere(t: string)
    requires t != "" && t[0] != '<'
    ensures StripComments(t) == [t[0]] + StripComments(t[1..])
  {
    if StartsWith(t, "<!--") {
      StartsWithAt(t, "<!--", 0);
    }
  }

  lemma {:induction false} CommentsBehind(front: string, t: string)
    requires forall i :: 0 <= i < |front| ==> front[i] != '<'
    ensures StripComments(front + t) == front + StripComments(t)
  {
    hide StripComments;
    if front == "" {
      assert front + t == t;
    } else {
      var long := front + t;
      assert long[1..] == front[1..] + t;
      NoCommentHere(long);
      CommentsBehind(front[1..], t);
    }
  }

  lemma {:induction false} FenceBehind(line: string, lines: seq<string>)
    requires Marker(line).None?
    ensures FenceScan([line] + lines) == FenceState(FenceScan(lines).fence, [line] + FenceScan(lines).kept)
  {
    hide Marker;
    if lines == [] {
      assert [line][..0] == [] && [line] + lines == [line];
    } else {
      var k := |lines| - 1;
      FenceBehind(line, lines[..k]);
      assert ([line] + lines)[..k + 1] == [line] + lines[..k];
    }
  }

  lemma {:induction false} TrackBehind(line: string, lines: seq<string>)
    requires Heading(line).None?
    ensures Track([line] + lines) == Track(lines)
  {
    hide Heading;
    if lines == [] {
      assert [line][..0] == [] && [line] + lines == [line];
    } else {
      var k := |lines| - 1;
      TrackBehind(line, lines[..k]);
      assert ([line] + lines)[..k + 1] == [line] + lines[..k];
    }
  }

  lemma {:induction false} SectionsBehind(line: string, lines: seq<string>)
    requires Heading(line).None?
    ensures var s, t := SectionScan([line] + lines), SectionScan(lines);
            s.done == t.done && s.name == t.name && (s.name.Some? ==> s.lines == t.lines)
  {
    hide Heading;
    if lines == [] {
      assert [line][..0] == [] && [line] + lines == [line];
    } else {
      var k := |lines| - 1;
      SectionsBehind(line, lines[..k]);
      assert ([line] + lines)[..k + 1] == [line] + lines[..k];
    }
  }

  lemma {:induction false} RoutesBehind(line: string, lines: seq<string>, repository: string)
    requires Heading(line).None? && References(line, repository) == []
    ensures RouteViolations([line] + lines, repository) == RouteViolations(lines, repository)
  {
    hide Heading, References, IssueNumbers, Track;
    TrackBehind(line, lines);
    if lines == [] {
      assert [line][..0] == [] && [line] + lines == [line];
    } else {
      var k := |lines| - 1;
      RoutesBehind(line, lines[..k], repository);
      assert ([line] + lines)[..k + 1] == [line] + lines[..k];
    }
  }

  lemma SplitBehind(line: string, t: string)
    requires IsLine(line)
    ensures SplitLines(line + "\n" + t) == [line] + SplitLines(t)
  {
    var tail := "\n" + t;
    assert tail[1..] == t && line + "\n" + t == line + tail;
    SplitAfterLine(line, tail);
    assert line + "" == line;
  }

  /** A plain line before a body comes before its cleaned lines. */
  lemma CleanedBehind(line: string, body: string)
    requires IsLine(line) && line != "" && line[0] == 'C' && forall i :: 0 <= i < |line| ==> line[i] != '<'
    ensures LinesOf(line + "\n" + body) == [line] + LinesOf(body)
  {
    hide StripComments, SplitLines, FenceScan, IsLine, Marker;
    var front := line + "\n";
    CommentsBehind(front, body);
    var rest := StripComments(body);
    SplitBehind(line, rest);
    LetterNoMarker(line);
    FenceBehind(line, SplitLines(rest));
    var kept := FenceScan(SplitLines(rest)).kept;
    JoinBehind(line, kept);
    SplitBehind(line, JoinLines(kept));
    SplitJoined([line]);
    assert JoinLines([line]) == line;
    SplitShort(' ');
  }

  lemma JoinBehind(line: string, lines: seq<string>)
    ensures JoinLines([line] + lines) == if lines == [] then line else line + "\n" + JoinLines(lines)
  {
    assert ([line] + lines)[1..] == lines;
  }

  /**
   The condition is needed in every accepted body: with a hidden line in front of it the body has the same violations,
   and the audit reads the number of that line.
   */
  lemma HiddenLineAccepted(body: string, reference: string, lookup: nat -> Answer, prose: Prose, repository: string)
    requires ValidRepository(repository) && IsReference(reference)
    ensures var more := HiddenLine(reference) + "\n" + body;
            Violations(more, lookup, prose, repository) == Violations(body, lookup, prose, repository) &&
            Read(more) == [DecimalValue(reference)] + Read(body)
  {
    hide HiddenLine, Hidden, ValidRepository, IsReference, SplitLines, StripIgnored, RouteViolations, Numbers,
         SectionScan,
         RequiredViolations, IssueViolations, Heading, IsLine, References, Declared;
    var line := HiddenLine(reference);
    HiddenLineShape(reference);
    HiddenLineHidden(reference);
    LetterNoMarker(line);
    CleanedBehind(line, body);
    HiddenDeclares(line);
    DeclaringLineMatches(line, repository);
    RoutesBehind(line, LinesOf(body), repository);
    SectionsBehind(line, LinesOf(body));
    NumbersBelow(line, LinesOf(body), "Closes");
  }

  lemma HiddenDeclares(line: string)
    requires Hidden(line)
    ensures Declares(line)
  {
  }
}
