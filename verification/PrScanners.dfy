/**
 The scanners of the pull request body check: comments and fenced code are removed, the rest is cut into level-two
 sections, and declared issue numbers are read line by line.
 */
module PrScanners {
  import opened Options
  import opened Decimals
  import opened TextLines

  // ---- Comments -----------------------------------------------------------------------------------------------

  predicate StartsWith(t: string, prefix: string) {
    |prefix| <= |t| && t[..|prefix|] == prefix
  }

  /** The position just after the first `-->` of the text. */
  function CommentEnd(t: string): (r: Option<nat>)
    ensures r.Some? ==> 3 <= r.value <= |t|
  {
    if |t| < 3 then None
    else if StartsWith(t, "-->") then Some(3)
    else
      var rest := CommentEnd(t[1..]);
      if rest.Some? then Some(rest.value + 1) else None
  }

  /** `re.sub(r"<!--.*?-->", "", t, flags=re.DOTALL)`. */
  function StripComments(t: string): string
    decreases |t|
  {
    if t == "" then ""
    else if StartsWith(t, "<!--") && CommentEnd(t[4..]).Some? then StripComments(t[4 + CommentEnd(t[4..]).value..])
    else [t[0]] + StripComments(t[1..])
  }

  /** The text contains the comment opener `<!--`. */
  predicate HasOpener(t: string) {
    t != "" && (StartsWith(t, "<!--") || HasOpener(t[1..]))
  }

  lemma {:induction false} NoOpenerNothingRemoved(t: string)
    requires !HasOpener(t)
    ensures StripComments(t) == t
  {
    if t != "" {
      NoOpenerNothingRemoved(t[1..]);
      assert t == [t[0]] + t[1..];
    }
  }

  lemma StartsWithAt(t: string, prefix: string, i: nat)
    requires StartsWith(t, prefix) && i < |prefix|
    ensures t[i] == prefix[i]
  {
    assert t[i] == t[..|prefix|][i];
  }

  /** The opener does not span a line feed. */
  lemma OpenerBeforeLineFeed(a: string, b: string)
    requires StartsWith(a + "\n" + b, "<!--")
    ensures StartsWith(a, "<!--")
  {
    var t := a + "\n" + b;
    forall i | 0 <= i < 4 ensures t[i] != '\n' {
      StartsWithAt(t, "<!--", i);
    }
    assert t[|a|] == '\n';
    assert |a| >= 4;
    assert a[..4] == t[..4];
  }

  lemma {:induction false} OpenerInJoin(a: string, b: string)
    requires HasOpener(a + "\n" + b)
    ensures HasOpener(a) || HasOpener(b)
  {
    var t := a + "\n" + b;
    if StartsWith(t, "<!--") {
      OpenerBeforeLineFeed(a, b);
    } else if a == "" {
      assert t[1..] == b;
    } else {
      assert t[1..] == a[1..] + "\n" + b;
      OpenerInJoin(a[1..], b);
    }
  }

  lemma {:induction false} OpenerInPart(t: string, i: nat, j: nat)
    requires i <= j <= |t| && HasOpener(t[i..j])
    ensures HasOpener(t)
  {
    if i > 0 {
      assert t[1..][i - 1..j - 1] == t[i..j];
      OpenerInPart(t[1..], i - 1, j - 1);
    } else if StartsWith(t[..j], "<!--") {
      assert t[..j][..4] == t[..4];
    } else {
      assert t[..j][1..] == t[1..][..j - 1];
      OpenerInPart(t[1..], 0, j - 1);
    }
  }

  // ---- Fences -------------------------------------------------------------------------------------------------

  /** The fence that is open: its character and length. */
  datatype Fence = Fence(token: char, length: nat)

  /** The length of the run of `c` at the start of the line. */
  function Run(line: string, c: char): (n: nat)
    ensures n <= |line|
  {
    if line != "" && line[0] == c then 1 + Run(line[1..], c) else 0
  }

  /** `re.match(r"^[ \t]*(`{3,}|~{3,})", line)`: a line that opens or closes a fence. */
  function Marker(line: string): Option<Fence> {
    if line == "" then None
    else if IsBlank(line[0]) then Marker(line[1..])
    else if Run(line, '`') >= 3 then Some(Fence('`', Run(line, '`')))
    else if Run(line, '~') >= 3 then Some(Fence('~', Run(line, '~')))
    else None
  }

  /** The fence after one more line, and whether the line is kept. */
  function FenceStep(fence: Option<Fence>, line: string): (Option<Fence>, bool) {
    match (fence, Marker(line))
    case (None, None) => (None, true)
    case (None, Some(m)) => (Some(m), false)
    case (Some(f), None) => (Some(f), false)
    case (Some(f), Some(m)) => (if m.token == f.token && m.length >= f.length then None else Some(f), false)
  }

  datatype FenceState = FenceState(fence: Option<Fence>, kept: seq<string>)

  function FenceScan(lines: seq<string>): FenceState {
    if lines == [] then FenceState(None, []) else
      var k := |lines| - 1;
      var s := FenceScan(lines[..k]);
      var (fence, keep) := FenceStep(s.fence, lines[k]);
      FenceState(fence, if keep then s.kept + [lines[k]] else s.kept)
  }

  /** `_strip_ignored`. */
  function StripIgnored(text: string): string {
    JoinLines(FenceScan(SplitLines(StripComments(text))).kept)
  }

  /** `_strip_ignored` as the loop over `fence` and `kept`. */
  method StripIgnoredText(text: string) returns (cleaned: string)
    ensures cleaned == StripIgnored(text)
  {
    var lines := SplitLines(StripComments(text));
    var kept: seq<string>, fence: Option<Fence> := [], None;
    for k := 0 to |lines|
      invariant FenceScan(lines[..k]) == FenceState(fence, kept)
    {
      assert lines[..k + 1][..k] == lines[..k];
      var marker := Marker(lines[k]);
      if fence.None? {
        if marker.Some? {
          fence := marker;
        } else {
          kept := kept + [lines[k]];
        }
      } else if marker.Some? {
        if marker.value.token == fence.value.token && marker.value.length >= fence.value.length {
          fence := None;
        }
      }
    }
    assert lines[..|lines|] == lines;
    cleaned := JoinLines(kept);
  }

  /** The line ends a fence that is open. */
  predicate Closes(fence: Fence, line: string) {
    Marker(line).Some? && Marker(line).value.token == fence.token && Marker(line).value.length >= fence.length
  }

  lemma FenceMore(lines: seq<string>, line: string)
    ensures FenceScan(lines + [line]).fence == FenceStep(FenceScan(lines).fence, line).0
    ensures FenceScan(lines + [line]).kept ==
              FenceScan(lines).kept + if FenceStep(FenceScan(lines).fence, line).1 then [line] else []
  {
    assert (lines + [line])[..|lines|] == lines;
  }

  lemma {:induction false} FenceStaysOpen(lines: seq<string>, inner: seq<string>, fence: Fence)
    requires FenceScan(lines).fence == Some(fence)
    requires forall i :: 0 <= i < |inner| ==> !Closes(fence, inner[i])
    ensures FenceScan(lines + inner) == FenceScan(lines)
  {
    hide Marker;
    if inner == [] {
      assert lines + inner == lines;
    } else {
      var k := |inner| - 1;
      FenceStaysOpen(lines, inner[..k], fence);
      FenceMore(lines + inner[..k], inner[k]);
      assert lines + inner == lines + inner[..k] + [inner[k]];
    }
  }

  /**
   A fence with everything in it, up to the first line of the same character that is at least as long, is removed
   and leaves no trace in the scan.
   */
  lemma FencedBlockRemoved(lines: seq<string>, open: string, inner: seq<string>, close: string)
    requires FenceScan(lines).fence.None? && Marker(open).Some?
    requires forall i :: 0 <= i < |inner| ==> !Closes(Marker(open).value, inner[i])
    requires Closes(Marker(open).value, close)
    ensures FenceScan(lines + [open] + inner + [close]) == FenceScan(lines)
  {
    hide Marker, FenceScan;
    FenceMore(lines, open);
    FenceStaysOpen(lines + [open], inner, Marker(open).value);
    FenceMore(lines + [open] + inner, close);
  }

  ghost predicate NoMarkers(lines: seq<string>) {
    forall i :: 0 <= i < |lines| ==> Marker(lines[i]).None?
  }

  /** No kept line opens or closes a fence, and the kept lines are lines of the text. */
  lemma {:induction false} KeptLines(lines: seq<string>)
    requires AllLines(lines)
    ensures NoMarkers(FenceScan(lines).kept) && AllLines(FenceScan(lines).kept)
  {
    if lines != [] {
      var k := |lines| - 1;
      KeptLines(lines[..k]);
      assert IsLine(lines[k]);
    }
  }

  lemma {:induction false} NoMarkersKeepsAll(lines: seq<string>)
    requires NoMarkers(lines)
    ensures FenceScan(lines) == FenceState(None, lines)
  {
    if lines != [] {
      var k := |lines| - 1;
      assert forall i :: 0 <= i < k ==> lines[..k][i] == lines[i];
      NoMarkersKeepsAll(lines[..k]);
      assert lines == lines[..k] + [lines[k]];
    }
  }

  // ---- Sections -----------------------------------------------------------------------------------------------

  /** `_level_two_heading`. */
  function Heading(line: string): Option<string> {
    if !StartsWith(line, "##") || |line| < 3 || !IsBlank(line[2]) then None
    else
      var name := Lower(Strip(line[3..]));
      if name == "" then None else Some(name)
  }

  datatype Section = Section(name: string, lines: seq<string>)

  /** The state of the section loop: finished sections, the current name, the lines below it. */
  datatype SectionState = SectionState(done: seq<Section>, name: Option<string>, lines: seq<string>)

  function SectionStep(s: SectionState, line: string): SectionState {
    match Heading(line)
    case None => s.(lines := s.lines + [line])
    case Some(name) =>
      SectionState(if s.name.Some? then s.done + [Section(s.name.value, s.lines)] else s.done, Some(name), [])
  }

  function SectionScan(lines: seq<string>): SectionState {
    if lines == [] then SectionState([], None, []) else
      SectionStep(SectionScan(lines[..|lines| - 1]), lines[|lines| - 1])
  }

  /** The sections of a text in order, the last one closed by the end of the text. */
  function Closed(s: SectionState): seq<Section> {
    if s.name.Some? then s.done + [Section(s.name.value, s.lines)] else s.done
  }

  /** `"\n".join(lines).strip()`. */
  function Content(lines: seq<string>): string {
    Strip(JoinLines(lines))
  }

  /** The contents of the sections with a name, in order: `sections.get(name, [])`. */
  function ContentsOf(sections: seq<Section>, name: string): seq<string> {
    if sections == [] then [] else
      var k := |sections| - 1;
      ContentsOf(sections[..k], name) + if sections[k].name == name then [Content(sections[k].lines)] else []
  }

  /** `sections.get(name, [])` on the dict. */
  function Lookup(dict: map<string, seq<string>>, name: string): seq<string> {
    if name in dict then dict[name] else []
  }

  /** `sections.setdefault(name, []).append(content)`. */
  function Append(dict: map<string, seq<string>>, name: string, content: string): (r: map<string, seq<string>>)
    ensures forall n :: Lookup(r, n) == Lookup(dict, n) + if n == name then [content] else []
  {
    dict[name := Lookup(dict, name) + [content]]
  }

  ghost predicate Collects(dict: map<string, seq<string>>, sections: seq<Section>) {
    forall name :: Lookup(dict, name) == ContentsOf(sections, name)
  }

  lemma CollectsMore(dict: map<string, seq<string>>, sections: seq<Section>, name: string, lines: seq<string>)
    requires Collects(dict, sections)
    ensures Collects(Append(dict, name, Content(lines)), sections + [Section(name, lines)])
  {
    hide Content;
    assert (sections + [Section(name, lines)])[..|sections|] == sections;
  }

  /** `_sections`, with its dict of contents. */
  method Sections(text: string) returns (dict: map<string, seq<string>>)
    ensures Collects(dict, Closed(SectionScan(SplitLines(text))))
  {
    hide Content, Heading, Collects, Append;
    var lines := SplitLines(text);
    dict := map[];
    CollectsNothing();
    var current: Option<string>, below: seq<string> := None, [];
    for k := 0 to |lines|
      invariant var s := SectionScan(lines[..k]);
                s.name == current && s.lines == below && Collects(dict, s.done)
    {
      assert lines[..k + 1][..k] == lines[..k] && lines[..k + 1][k] == lines[k];
      var heading := Heading(lines[k]);
      if heading.None? {
        below := below + [lines[k]];
      } else {
        if current.Some? {
          CollectsMore(dict, SectionScan(lines[..k]).done, current.value, below);
          dict := Append(dict, current.value, Content(below));
        }
        current, below := heading, [];
      }
    }
    assert lines[..|lines|] == lines;
    if current.Some? {
      CollectsMore(dict, SectionScan(lines).done, current.value, below);
      dict := Append(dict, current.value, Content(below));
    }
  }

  lemma CollectsNothing()
    ensures Collects(map[], [])
  {
  }

  // ---- Declared numbers ---------------------------------------------------------------------------------------

  /** `reference.isascii() and reference.isdecimal() and not reference.startswith("0")`. */
  predicate IsReference(t: string) {
    t != "" && (forall i :: 0 <= i < |t| ==> IsDigit(t[i])) && t[0] != '0'
  }

  /** The number that a line declares with the keyword: exactly two words, the second `#N`. */
  function Declared(line: string, keyword: string): Option<nat> {
    var parts := Words(line);
    if |parts| == 2 && parts[0] == keyword && parts[1] != "" && parts[1][0] == '#' && IsReference(parts[1][1..]) then
      Some(DecimalValue(parts[1][1..]))
    else None
  }

  /** The declared numbers of the lines, in order. */
  function Numbers(lines: seq<string>, keyword: string): seq<nat> {
    if lines == [] then [] else
      var k := |lines| - 1;
      var n := Declared(lines[k], keyword);
      Numbers(lines[..k], keyword) + if n.Some? then [n.value] else []
  }

  /** `tuple(dict.fromkeys(numbers))`: the first occurrence of each. */
  function Dedup(numbers: seq<nat>): seq<nat> {
    if numbers == [] then [] else
      var k := |numbers| - 1;
      if numbers[k] in numbers[..k] then Dedup(numbers[..k]) else Dedup(numbers[..k]) + [numbers[k]]
  }

  /** `_issue_numbers`. */
  function IssueNumbers(body: string, keyword: string): seq<nat> {
    Dedup(Numbers(SplitLines(StripIgnored(body)), keyword))
  }

  /** `_issue_numbers` as its loop. */
  method ReadIssueNumbers(body: string, keyword: string) returns (numbers: seq<nat>)
    ensures numbers == IssueNumbers(body, keyword)
  {
    hide Declared;
    var cleaned := StripIgnoredText(body);
    var lines := SplitLines(cleaned);
    var found: seq<nat> := [];
    for k := 0 to |lines|
      invariant found == Numbers(lines[..k], keyword)
    {
      assert lines[..k + 1][..k] == lines[..k];
      var n := Declared(lines[k], keyword);
      if n.Some? {
        found := found + [n.value];
      }
    }
    assert lines[..|lines|] == lines;
    numbers := Dedup(found);
  }

  /** Deduplication keeps every number, each once. */
  lemma {:induction false} DedupExact(numbers: seq<nat>)
    ensures forall n :: n in Dedup(numbers) <==> n in numbers
    ensures forall i, j :: 0 <= i < j < |Dedup(numbers)| ==> Dedup(numbers)[i] != Dedup(numbers)[j]
  {
    if numbers != [] {
      var k := |numbers| - 1;
      DedupExact(numbers[..k]);
      assert forall n :: n in numbers <==> n in numbers[..k] || n == numbers[k];
    }
  }
}
