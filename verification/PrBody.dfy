/**
 The pull request body check: required sections, declared issues, and closing references outside their section.
 Judgements of prose are parameters; an issue lookup either fails or answers with facts.
 */
module PrBody {
  import opened Options
  import opened TextLines
  import opened PrScanners
  import opened ClosingReferences
  import opened PrSections

  const REQUIRED_SECTIONS: seq<string> :=
    ["Summary", "Requirement UIDs", "Related Issues", "ADR Impact", "Changes", "Test Plan", "Ground Control Checks",
     "Traceability", "Checklist"]
  const SUMMARY: string := "summary"
  const TRACKING: string := "related issues"
  const VERIFICATION: string := "test plan"

  /** What the lookup says of an issue number. */
  datatype Answer = Failed | Facts(present: bool, isOpen: bool, requirementUids: seq<string>)

  /** The judgements of prose: `_meaningful` for the summary and for a reason, and the evidence test. */
  datatype Prose = Prose(summary: string -> bool, reason: string -> bool, evidence: string -> bool)

  datatype Violation =
    | SectionCount(heading: string, found: nat)
    | EmptySection(heading: string)
    | WeakSummary
    | Unverified(number: nat)
    | NoSuchIssue(keyword: string, number: nat)
    | NotOpen(keyword: string, number: nat)
    | WrongKeyword(expected: string, number: nat)
    | MixedDeclarations
    | NoDeclaration
    | StrayReference(text: string)
    | WeakVerification

  // ---- Required sections --------------------------------------------------------------------------------------

  function RequiredViolations(headings: seq<string>, sections: seq<Section>): seq<Violation> {
    if headings == [] then [] else
      var k := |headings| - 1;
      var name := Lower(headings[k]);
      var contents := ContentsOf(sections, name);
      RequiredViolations(headings[..k], sections) +
      if |contents| != 1 then [SectionCount(headings[k], |contents|)]
      else if contents[0] == "" && name !in {SUMMARY, TRACKING, VERIFICATION} then [EmptySection(headings[k])]
      else []
  }

  /** `_validate_required_sections`. */
  method ValidateRequiredSections(dict: map<string, seq<string>>, ghost sections: seq<Section>)
    returns (violations: seq<Violation>)
    requires Collects(dict, sections)
    ensures violations == RequiredViolations(REQUIRED_SECTIONS, sections)
  {
    hide Lower, ContentsOf, Lookup;
    violations := [];
    var headings := REQUIRED_SECTIONS;
    for k := 0 to |headings|
      invariant violations == RequiredViolations(headings[..k], sections)
    {
      assert headings[..k + 1][..k] == headings[..k];
      var name := Lower(headings[k]);
      var contents := Lookup(dict, name);
      if |contents| != 1 {
        violations := violations + [SectionCount(headings[k], |contents|)];
      } else if contents[0] == "" && name !in {SUMMARY, TRACKING, VERIFICATION} {
        violations := violations + [EmptySection(headings[k])];
      }
    }
    assert headings[..|headings|] == headings;
  }

  /** No violation: every required section occurs once, and has content unless it has content rules of its own. */
  lemma {:induction false} RequiredExact(headings: seq<string>, sections: seq<Section>)
    ensures RequiredViolations(headings, sections) == [] <==>
            forall i :: 0 <= i < |headings| ==>
              var name := Lower(headings[i]);
              |ContentsOf(sections, name)| == 1 &&
              (ContentsOf(sections, name)[0] != "" || name in {SUMMARY, TRACKING, VERIFICATION})
  {
    hide Lower, ContentsOf;
    if headings != [] {
      var k := |headings| - 1;
      RequiredExact(headings[..k], sections);
      assert forall i :: 0 <= i < k ==> headings[..k][i] == headings[i];
    }
  }

  // ---- Declared issues ----------------------------------------------------------------------------------------

  function TrimBlanksLeft(t: string): string {
    if t != "" && IsBlank(t[0]) then TrimBlanksLeft(t[1..]) else t
  }

  function TrimBlanksRight(t: string): string {
    if t != "" && IsBlank(t[|t| - 1]) then TrimBlanksRight(t[..|t| - 1]) else t
  }

  /** The reason that a line states after `No issue:`. */
  function Reason(line: string): Option<string> {
    var stripped := TrimBlanksRight(TrimBlanksLeft(line));
    if StartsWith(stripped, "No issue:") then Some(Strip(stripped[9..])) else None
  }

  function Reasons(lines: seq<string>): seq<string> {
    if lines == [] then [] else
      var k := |lines| - 1;
      Reasons(lines[..k]) + if Reason(lines[k]).Some? then [Reason(lines[k]).value] else []
  }

  /** `no_issue_reasons`. */
  method NoIssueReasons(body: string) returns (reasons: seq<string>)
    ensures reasons == Reasons(SplitLines(StripIgnored(body)))
  {
    hide Reason;
    var cleaned := StripIgnoredText(body);
    var lines := SplitLines(cleaned);
    reasons := [];
    for k := 0 to |lines|
      invariant reasons == Reasons(lines[..k])
    {
      assert lines[..k + 1][..k] == lines[..k];
      var reason := Reason(lines[k]);
      if reason.Some? {
        reasons := reasons + [reason.value];
      }
    }
    assert lines[..|lines|] == lines;
  }

  datatype Declaration = Declaration(keyword: string, number: nat)

  function Declarations(numbers: seq<nat>, keyword: string): seq<Declaration> {
    seq(|numbers|, i requires 0 <= i < |numbers| => Declaration(keyword, numbers[i]))
  }

  /** `_inspect_issue`. */
  function InspectIssue(d: Declaration, answer: Answer): Option<Violation> {
    if answer.Failed? then Some(Unverified(d.number))
    else if !answer.present then Some(NoSuchIssue(d.keyword, d.number))
    else if !answer.isOpen then Some(NotOpen(d.keyword, d.number))
    else
      var expected := if answer.requirementUids != [] then "Refs" else "Closes";
      if d.keyword != expected then Some(WrongKeyword(expected, d.number)) else None
  }

  function Inspected(declarations: seq<Declaration>, lookup: nat -> Answer): seq<Violation> {
    if declarations == [] then [] else
      var k := |declarations| - 1;
      var v := InspectIssue(declarations[k], lookup(declarations[k].number));
      Inspected(declarations[..k], lookup) + if v.Some? then [v.value] else []
  }

  function IssueViolations(contents: seq<string>, lookup: nat -> Answer, prose: Prose): seq<Violation> {
    if |contents| != 1 then [] else
      var declarations := Declarations(IssueNumbers(contents[0], "Closes"), "Closes") +
                          Declarations(IssueNumbers(contents[0], "Refs"), "Refs");
      var reasons := Reasons(SplitLines(StripIgnored(contents[0])));
      if declarations != [] && reasons != [] then [MixedDeclarations]
      else if declarations != [] then Inspected(declarations, lookup)
      else if |reasons| != 1 || !prose.reason(reasons[0]) then [NoDeclaration]
      else []
  }

  /** `_validate_issues`. */
  method ValidateIssues(dict: map<string, seq<string>>, lookup: nat -> Answer, prose: Prose)
    returns (violations: seq<Violation>)
    ensures violations == IssueViolations(Lookup(dict, TRACKING), lookup, prose)
  {
    hide IssueNumbers, Reasons, SplitLines, StripIgnored, InspectIssue;
    var tracking := Lookup(dict, TRACKING);
    violations := [];
    if |tracking| == 1 {
      var content := tracking[0];
      var closes := ReadIssueNumbers(content, "Closes");
      var refs := ReadIssueNumbers(content, "Refs");
      var declarations := Declarations(closes, "Closes") + Declarations(refs, "Refs");
      var reasons := NoIssueReasons(content);
      if declarations != [] && reasons != [] {
        violations := [MixedDeclarations];
      } else if declarations != [] {
        for k := 0 to |declarations|
          invariant violations == Inspected(declarations[..k], lookup)
        {
          assert declarations[..k + 1][..k] == declarations[..k];
          var violation := InspectIssue(declarations[k], lookup(declarations[k].number));
          if violation.Some? {
            violations := violations + [violation.value];
          }
        }
        assert declarations[..|declarations|] == declarations;
      } else if |reasons| != 1 || !prose.reason(reasons[0]) {
        violations := [NoDeclaration];
      }
    }
  }

  /** The issue is open, and the keyword is the one for its scope. */
  predicate Fits(d: Declaration, a: Answer) {
    a.Facts? && a.present && a.isOpen && d.keyword == if a.requirementUids != [] then "Refs" else "Closes"
  }

  lemma InspectedOne(d: Declaration, a: Answer)
    ensures InspectIssue(d, a).None? <==> Fits(d, a)
  {
  }

  lemma InspectedLast(declarations: seq<Declaration>, lookup: nat -> Answer)
    requires declarations != []
    ensures var k := |declarations| - 1;
            Inspected(declarations, lookup) == [] <==>
            Inspected(declarations[..k], lookup) == [] &&
            InspectIssue(declarations[k], lookup(declarations[k].number)).None?
  {
    hide InspectIssue;
  }

  /** No violation among the declarations: each names an open issue whose scope fits the keyword. */
  lemma {:induction false} InspectedExact(declarations: seq<Declaration>, lookup: nat -> Answer)
    ensures Inspected(declarations, lookup) == [] <==>
            forall i :: 0 <= i < |declarations| ==> Fits(declarations[i], lookup(declarations[i].number))
  {
    hide InspectIssue, Fits;
    if declarations != [] {
      hide Inspected;
      var k := |declarations| - 1;
      InspectedExact(declarations[..k], lookup);
      assert forall i :: 0 <= i < k ==> declarations[..k][i] == declarations[i];
      InspectedLast(declarations, lookup);
      InspectedOne(declarations[k], lookup(declarations[k].number));
    }
  }

  // ---- Closing references outside their section ---------------------------------------------------------------

  function StrayReferences(texts: seq<string>): seq<Violation> {
    seq(|texts|, i requires 0 <= i < |texts| => StrayReference(texts[i]))
  }

  /** The references of one line, unless it is a standalone declaration in the tracking section. */
  function RouteStep(section: Option<string>, line: string, repository: string): seq<Violation> {
    if section == Some(TRACKING) && IssueNumbers(line, "Closes") != [] then []
    else StrayReferences(References(line, repository))
  }

  function RouteViolations(lines: seq<string>, repository: string): seq<Violation> {
    if lines == [] then [] else
      var k := |lines| - 1;
      RouteViolations(lines[..k], repository) + RouteStep(Track(lines), lines[k], repository)
  }

  /** `_validate_closing_routes`, with its own section tracker. */
  method ValidateClosingRoutes(body: string, repository: string) returns (violations: seq<Violation>)
    ensures violations == RouteViolations(SplitLines(body), repository)
  {
    hide Heading, References, SplitLines, StripIgnored, Numbers;
    var lines := SplitLines(body);
    violations := [];
    var section: Option<string> := None;
    for k := 0 to |lines|
      invariant section == Track(lines[..k]) && violations == RouteViolations(lines[..k], repository)
    {
      assert lines[..k + 1][..k] == lines[..k];
      var heading := Heading(lines[k]);
      section := if heading.Some? then heading else section;
      var declared := ReadIssueNumbers(lines[k], "Closes");
      if !(section == Some(TRACKING) && declared != []) {
        violations := violations + StrayReferences(References(lines[k], repository));
      }
    }
    assert lines[..|lines|] == lines;
  }

  /** No violation: each line holds no closing reference, or it declares a number inside the tracking section. */
  lemma {:induction false} RouteExact(lines: seq<string>, repository: string)
    ensures RouteViolations(lines, repository) == [] <==>
            forall k :: 0 <= k < |lines| ==>
              || References(lines[k], repository) == []
              || (Track(lines[..k + 1]) == Some(TRACKING) && IssueNumbers(lines[k], "Closes") != [])
  {
    hide IssueNumbers, Track, References;
    if lines != [] {
      var k := |lines| - 1;
      RouteExact(lines[..k], repository);
      assert lines[..k + 1] == lines;
      assert |StrayReferences(References(lines[k], repository))| == |References(lines[k], repository)|;
      forall i | 0 <= i < k ensures lines[..k][..i + 1] == lines[..i + 1] && lines[..k][i] == lines[i] {
      }
    }
  }

  // ---- The body -----------------------------------------------------------------------------------------------

  function LinesOf(body: string): seq<string> {
    SplitLines(StripIgnored(body))
  }

  function SectionsOf(body: string): seq<Section> {
    Closed(SectionScan(LinesOf(body)))
  }

  function SummaryViolations(contents: seq<string>, prose: Prose): seq<Violation> {
    if |contents| != 1 || prose.summary(contents[0]) then [] else [WeakSummary]
  }

  function VerificationViolations(contents: seq<string>, prose: Prose): seq<Violation> {
    if |contents| != 1 || prose.evidence(contents[0]) then [] else [WeakVerification]
  }

  function Violations(body: string, lookup: nat -> Answer, prose: Prose, repository: string): seq<Violation> {
    var sections := SectionsOf(body);
    RequiredViolations(REQUIRED_SECTIONS, sections) +
    SummaryViolations(ContentsOf(sections, SUMMARY), prose) +
    IssueViolations(ContentsOf(sections, TRACKING), lookup, prose) +
    RouteViolations(LinesOf(body), repository) +
    VerificationViolations(ContentsOf(sections, VERIFICATION), prose)
  }

  /** `validate_pr_body`; no result stands for the error on a malformed repository name. */
  method ValidatePrBody(body: string, lookup: nat -> Answer, prose: Prose, repository: string)
    returns (result: Option<seq<Violation>>)
    ensures result == if ValidRepository(repository) then Some(Violations(body, lookup, prose, repository)) else None
  {
    hide ValidRepository, SplitLines, StripIgnored, SectionScan, ContentsOf, IssueViolations, Lookup,
         RouteViolations, RequiredViolations;
    if !ValidRepository(repository) {
      return None;
    }
    var cleaned := StripIgnoredText(body);
    var dict := Sections(cleaned);
    var violations := ValidateRequiredSections(dict, SectionsOf(body));
    violations := violations + SummaryViolations(Lookup(dict, SUMMARY), prose);
    var more := ValidateIssues(dict, lookup, prose);
    violations := violations + more;
    more := ValidateClosingRoutes(cleaned, repository);
    violations := violations + more;
    violations := violations + VerificationViolations(Lookup(dict, VERIFICATION), prose);
    return Some(violations);
  }
}
