/**
 The pattern for the closing references that GitHub reads, as a matcher that tries the alternatives in order, and the
 lines on which it agrees with the reader of standalone declarations.
 */
module ClosingReferences {
  import opened Options
  import opened Decimals
  import opened TextLines
  import opened PrScanners

  // ---- The pattern --------------------------------------------------------------------------------------------

  const KEYWORDS: seq<string> :=
    ["closes", "closed", "close", "fixes", "fixed", "fix", "resolves", "resolved", "resolve"]

  predicate IsNameChar(c: char) {
    IsWordChar(c) || c == '.' || c == '-'
  }

  /** `_REPOSITORY.fullmatch(repository)`. */
  predicate ValidRepository(repository: string) {
    exists k :: 0 < k < |repository| - 1 && repository[k] == '/' &&
                forall i :: 0 <= i < |repository| && i != k ==> IsNameChar(repository[i])
  }

  /** The three forms of a reference, each up to its number. */
  function Targets(repository: string): seq<string> {
    [Lower(repository) + "#",
     "https://github.com/" + Lower(repository) + "/issues/",
     "http://github.com/" + Lower(repository) + "/issues/",
     "#"]
  }

  /** The text starts with the lower-case prefix when letter case is ignored. */
  predicate StartsWithFold(t: string, prefix: string) {
    |prefix| <= |t| && Lower(t[..|prefix|]) == prefix
  }

  function DigitRun(t: string): (n: nat)
    ensures n <= |t|
  {
    if t != "" && IsDigit(t[0]) then 1 + DigitRun(t[1..]) else 0
  }

  function BlankRun(t: string): (n: nat)
    ensures n <= |t|
  {
    if t != "" && IsBlank(t[0]) then 1 + BlankRun(t[1..]) else 0
  }

  /** `\d+(?!\w)`. */
  function NumberLength(t: string): (r: Option<nat>)
    ensures r.Some? ==> r.value <= |t|
  {
    var n := DigitRun(t);
    if n > 0 && (n == |t| || !IsWordChar(t[n])) then Some(n) else None
  }

  /** The first target that is followed by a number. */
  function TargetLength(targets: seq<string>, t: string): (r: Option<nat>)
    ensures r.Some? ==> r.value <= |t|
  {
    if targets == [] then None
    else if StartsWithFold(t, targets[0]) && NumberLength(t[|targets[0]|..]).Some? then
      Some(|targets[0]| + NumberLength(t[|targets[0]|..]).value)
    else TargetLength(targets[1..], t)
  }

  /** `(?::[ \t]*|[ \t]+)`, as long as possible: no target starts with a blank. */
  function SeparatorLength(t: string): (r: Option<nat>)
    ensures r.Some? ==> r.value <= |t|
  {
    if t == "" then None
    else if t[0] == ':' then Some(1 + BlankRun(t[1..]))
    else if IsBlank(t[0]) then Some(BlankRun(t))
    else None
  }

  /** What follows a keyword: a separator, a target and its number. */
  function TailLength(t: string, repository: string): (r: Option<nat>)
    ensures r.Some? ==> r.value <= |t|
  {
    var separator := SeparatorLength(t);
    if separator.None? then None else
      var target := TargetLength(Targets(repository), t[separator.value..]);
      if target.None? then None else Some(separator.value + target.value)
  }

  /** The first keyword that is followed by such a tail. */
  function ReferenceLength(keywords: seq<string>, t: string, repository: string): (r: Option<nat>)
    ensures r.Some? ==> r.value <= |t|
  {
    if keywords == [] then None
    else if StartsWithFold(t, keywords[0]) && TailLength(t[|keywords[0]|..], repository).Some? then
      Some(|keywords[0]| + TailLength(t[|keywords[0]|..], repository).value)
    else ReferenceLength(keywords[1..], t, repository)
  }

  /** The length of the match that starts at a position; every keyword starts with a word character. */
  function MatchLength(line: string, i: nat, repository: string): (r: Option<nat>)
    requires i <= |line|
    ensures r.Some? ==> i + r.value <= |line|
  {
    if i > 0 && IsWordChar(line[i - 1]) then None else ReferenceLength(KEYWORDS, line[i..], repository)
  }

  /** `pattern.finditer`: the matches from a position on, left to right and without overlap. */
  function Matches(line: string, i: nat, repository: string): seq<string>
    requires i <= |line|
    decreases |line| - i
  {
    if i == |line| then [] else
      var n := MatchLength(line, i, repository);
      if n.Some? && n.value > 0 then [line[i..i + n.value]] + Matches(line, i + n.value, repository)
      else Matches(line, i + 1, repository)
  }

  /** `closing_references`. */
  function References(line: string, repository: string): seq<string> {
    Matches(line, 0, repository)
  }

  lemma {:induction false} MatchFound(line: string, from: nat, i: nat, repository: string)
    requires from <= i < |line|
    requires MatchLength(line, i, repository).Some? && MatchLength(line, i, repository).value > 0
    ensures Matches(line, from, repository) != []
    decreases i - from
  {
    hide MatchLength;
    if from < i {
      var n := MatchLength(line, from, repository);
      if n.None? || n.value == 0 {
        MatchFound(line, from + 1, i, repository);
      }
    }
  }

  lemma {:induction false} MatchPosition(line: string, from: nat, repository: string) returns (i: nat)
    requires from <= |line| && Matches(line, from, repository) != []
    ensures i < |line| && MatchLength(line, i, repository).Some? && MatchLength(line, i, repository).value > 0
    decreases |line| - from
  {
    hide MatchLength;
    var n := MatchLength(line, from, repository);
    if n.Some? && n.value > 0 {
      i := from;
    } else {
      i := MatchPosition(line, from + 1, repository);
    }
  }

  // ---- Alternatives -------------------------------------------------------------------------------------------

  lemma {:induction false} SomeTarget(targets: seq<string>, t: string, j: nat)
    requires j < |targets| && StartsWithFold(t, targets[j]) && NumberLength(t[|targets[j]|..]).Some?
    ensures TargetLength(targets, t).Some?
  {
    hide StartsWithFold, NumberLength;
    if j > 0 {
      SomeTarget(targets[1..], t, j - 1);
    }
  }

  lemma {:induction false} TargetUsed(targets: seq<string>, t: string) returns (j: nat)
    requires TargetLength(targets, t).Some?
    ensures j < |targets| && StartsWithFold(t, targets[j])
  {
    hide NumberLength;
    if StartsWithFold(t, targets[0]) && NumberLength(t[|targets[0]|..]).Some? {
      j := 0;
    } else {
      j := TargetUsed(targets[1..], t);
      j := j + 1;
    }
  }

  lemma {:induction false} KeywordUsed(keywords: seq<string>, t: string, repository: string) returns (j: nat)
    requires ReferenceLength(keywords, t, repository).Some?
    ensures j < |keywords| && StartsWithFold(t, keywords[j]) && TailLength(t[|keywords[j]|..], repository).Some?
  {
    hide TailLength;
    if StartsWithFold(t, keywords[0]) && TailLength(t[|keywords[0]|..], repository).Some? {
      j := 0;
    } else {
      j := KeywordUsed(keywords[1..], t, repository);
      j := j + 1;
    }
  }

  predicate Letters(w: string) {
    w != "" && forall i :: 0 <= i < |w| ==> 'a' <= w[i] <= 'z'
  }

  lemma KeywordLetters(j: nat)
    requires j < |KEYWORDS|
    ensures Letters(KEYWORDS[j])
  {
  }

  lemma {:induction false} LowerAt(t: string, i: nat)
    requires i < |t|
    ensures Lower(t)[i] == LowerChar(t[i])
  {
    if i > 0 {
      LowerAt(t[1..], i - 1);
    }
  }

  /** A character of the text where it starts with the prefix. */
  lemma FoldAt(t: string, prefix: string, i: nat)
    requires StartsWithFold(t, prefix) && i < |prefix|
    ensures LowerChar(t[i]) == prefix[i]
  {
    LowerAt(t[..|prefix|], i);
  }

  /** No target starts with white space. */
  lemma TargetStart(repository: string, j: nat)
    requires ValidRepository(repository) && j < |Targets(repository)|
    ensures Targets(repository)[j] != "" && !IsSpace(Targets(repository)[j][0])
  {
    if j == 0 {
      var k :| 0 < k < |repository| - 1 && repository[k] == '/' &&
               forall i :: 0 <= i < |repository| && i != k ==> IsNameChar(repository[i]);
      assert IsNameChar(repository[0]);
      LowerAt(repository, 0);
      assert Targets(repository)[0][0] == Lower(repository)[0];
    }
  }

  // ---- Declaring lines ----------------------------------------------------------------------------------------

  /** The number of white space characters at the start. */
  function Lead(t: string): (n: nat)
    ensures n <= |t|
    ensures forall i :: 0 <= i < n ==> IsSpace(t[i])
    ensures n < |t| ==> !IsSpace(t[n])
  {
    if t != "" && IsSpace(t[0]) then 1 + Lead(t[1..]) else 0
  }

  lemma {:induction false} WordsSkip(t: string)
    ensures Words(t) == Words(t[Lead(t)..])
  {
    if t != "" && IsSpace(t[0]) {
      WordsSkip(t[1..]);
      assert t[1..][Lead(t[1..])..] == t[Lead(t)..];
    }
  }

  lemma {:induction false} WordsNone(t: string)
    requires Words(t) == []
    ensures Lead(t) == |t|
  {
    if t != "" {
      WordsNone(t[1..]);
    }
  }

  /** A line cut at its first word: where the word starts, where it ends, where the second starts and ends. */
  datatype Cut = Cut(first: nat, end: nat, second: nat, stop: nat)

  function CutWords(line: string): (c: Cut)
    ensures c.first <= c.end <= c.second <= c.stop <= |line|
  {
    var first := Lead(line);
    var end := first + WordLength(line[first..]);
    var second := end + Lead(line[end..]);
    Cut(first, end, second, second + WordLength(line[second..]))
  }

  /** The white space between the first word and the second. */
  function Gap(line: string): string {
    var c := CutWords(line);
    line[c.end..c.second]
  }

  lemma WordAtStart(t: string)
    requires t != "" && !IsSpace(t[0])
    ensures var m := WordLength(t);
            0 < m && Words(t) == [t[..m]] + Words(t[m..])
  {
  }

  lemma FirstWord(t: string)
    requires Words(t) != []
    ensures var n := Lead(t);
            var m := n + WordLength(t[n..]);
            n < m && Words(t) == [t[n..m]] + Words(t[m..])
  {
    hide Words, WordLength, Lead, IsSpace;
    WordsSkip(t);
    var n := Lead(t);
    if n == |t| {
      assert t[n..] == "";
      NoWords();
    } else {
      WordAtStart(t[n..]);
      var m := WordLength(t[n..]);
      assert t[n..][..m] == t[n..n + m] && t[n..][m..] == t[n + m..];
    }
  }

  lemma NoWords()
    ensures Words("") == []
  {
  }

  lemma TwoWords(line: string)
    requires |Words(line)| == 2
    ensures var c := CutWords(line);
            c.first < c.end < c.second < c.stop &&
            Words(line) == [line[c.first..c.end], line[c.second..c.stop]]
    ensures forall i :: CutWords(line).stop <= i < |line| ==> IsSpace(line[i])
  {
    hide Words, WordLength, Lead, IsSpace;
    FirstWord(line);
    var first := Lead(line);
    var end := first + WordLength(line[first..]);
    SecondWord(line, end);
    var second := end + Lead(line[end..]);
    var stop := second + WordLength(line[second..]);
    assert Words(line[stop..]) == [];
    NoThirdWord(line, stop);
    WordEnds(line, first);
  }

  lemma NoThirdWord(line: string, stop: nat)
    requires stop <= |line| && Words(line[stop..]) == []
    ensures forall i :: stop <= i < |line| ==> IsSpace(line[i])
  {
    hide Words, WordLength, IsSpace;
    WordsNone(line[stop..]);
    forall i | stop <= i < |line| ensures IsSpace(line[i]) {
      assert line[i] == line[stop..][i - stop];
    }
  }

  /** Where a word ends before the end of the line, white space follows. */
  lemma WordEnds(line: string, first: nat)
    requires first <= |line|
    ensures var end := first + WordLength(line[first..]);
            end < |line| ==> Lead(line[end..]) > 0
  {
  }

  lemma SecondWord(line: string, end: nat)
    requires end <= |line| && Words(line[end..]) != []
    ensures var second := end + Lead(line[end..]);
            var stop := second + WordLength(line[second..]);
            second < stop && Words(line[end..]) == [line[second..stop]] + Words(line[stop..])
  {
    hide Words, WordLength, Lead, IsSpace;
    var t := line[end..];
    FirstWord(t);
    var n := Lead(t);
    assert t[n..] == line[end + n..];
    var m := WordLength(t[n..]);
    assert t[n..n + m] == line[end + n..end + n + m] && t[n + m..] == line[end + n + m..];
  }

  predicate Blank(t: string) {
    forall i :: 0 <= i < |t| ==> IsBlank(t[i])
  }

  predicate Declares(line: string) {
    Declared(line, "Closes").Some?
  }

  /** A declaring line whose two words are not separated by blanks alone. */
  predicate Hidden(line: string) {
    Declares(line) && !Blank(Gap(line))
  }

  lemma SpaceIsNoWord(c: char)
    requires IsSpace(c)
    ensures c as int <= ' ' as int
    ensures !IsDigit(c) && !IsWordChar(c)
  {
  }

  lemma {:induction false} DigitRunAll(digits: string, rest: string)
    requires forall i :: 0 <= i < |digits| ==> IsDigit(digits[i])
    requires rest == "" || IsSpace(rest[0])
    ensures DigitRun(digits + rest) == |digits|
  {
    if digits == "" {
      assert digits + rest == rest;
      if rest != "" {
        SpaceIsNoWord(rest[0]);
      }
    } else {
      assert (digits + rest)[1..] == digits[1..] + rest;
      DigitRunAll(digits[1..], rest);
    }
  }

  lemma {:induction false} BlankRunAll(blanks: string, rest: string)
    requires Blank(blanks) && (rest == "" || !IsBlank(rest[0]))
    ensures BlankRun(blanks + rest) == |blanks|
  {
    if blanks == "" {
      assert blanks + rest == rest;
    } else {
      assert (blanks + rest)[1..] == blanks[1..] + rest;
      BlankRunAll(blanks[1..], rest);
    }
  }

  lemma {:induction false} BlankRunStops(t: string)
    ensures forall i :: 0 <= i < BlankRun(t) ==> IsBlank(t[i])
    ensures BlankRun(t) < |t| ==> !IsBlank(t[BlankRun(t)])
  {
    if t != "" && IsBlank(t[0]) {
      BlankRunStops(t[1..]);
    }
  }

  /** A reference `#N` with white space or nothing behind it is a target. */
  lemma HashTarget(repository: string, word: string, rest: string)
    requires word != "" && word[0] == '#' && IsReference(word[1..])
    requires rest == "" || IsSpace(rest[0])
    ensures TargetLength(Targets(repository), word + rest).Some?
  {
    hide Targets, TargetLength, StartsWithFold, NumberLength;
    var t := word + rest;
    assert t[1..] == word[1..] + rest;
    NumberBeforeSpace(word[1..], rest);
    HashFolds(t);
    LastTarget(repository);
    SomeTarget(Targets(repository), t, 3);
  }

  lemma NumberBeforeSpace(digits: string, rest: string)
    requires IsReference(digits)
    requires rest == "" || IsSpace(rest[0])
    ensures NumberLength(digits + rest).Some?
  {
    DigitRunAll(digits, rest);
    if rest != "" {
      SpaceIsNoWord(rest[0]);
    }
  }

  lemma LastTarget(repository: string)
    ensures |Targets(repository)| == 4 && Targets(repository)[3] == "#"
  {
  }

  lemma HashFolds(t: string)
    requires t != "" && t[0] == '#'
    ensures StartsWithFold(t, "#")
  {
    assert t[..1] == "#";
    LowerAt(t[..1], 0);
  }

  /** Blanks and then a reference are what the pattern wants behind a keyword. */
  lemma BlankTail(repository: string, gap: string, word: string, rest: string)
    requires gap != "" && Blank(gap)
    requires word != "" && word[0] == '#' && IsReference(word[1..])
    requires rest == "" || IsSpace(rest[0])
    ensures TailLength(gap + (word + rest), repository).Some?
  {
    hide TargetLength, Targets;
    var t := gap + (word + rest);
    BlankRunAll(gap, word + rest);
    HashTarget(repository, word, rest);
    assert IsBlank(gap[0]) && t[0] == gap[0];
    assert t[|gap|..] == word + rest;
  }

  lemma ClosesFolds(t: string, word: string)
    requires word == "Closes" && |t| >= 6 && t[..6] == word
    ensures |KEYWORDS[0]| == 6 && StartsWithFold(t, KEYWORDS[0])
  {
    assert Lower("Closes") == "closes" == KEYWORDS[0];
  }

  lemma {:induction false} SomeKeyword(keywords: seq<string>, t: string, repository: string)
    requires keywords != [] && keywords[0] != ""
    requires StartsWithFold(t, keywords[0]) && TailLength(t[|keywords[0]|..], repository).Some?
    ensures ReferenceLength(keywords, t, repository).Some? && ReferenceLength(keywords, t, repository).value > 0
  {
  }

  lemma DeclaredParts(line: string)
    requires Declares(line)
    ensures var c := CutWords(line);
            c.first < c.end < c.second < c.stop && line[c.first..c.end] == "Closes" && line[c.second] == '#' &&
            IsReference(line[c.second..c.stop][1..])
    ensures forall i :: CutWords(line).stop <= i < |line| ==> IsSpace(line[i])
  {
    TwoWords(line);
  }

  /** A declaring line with blanks between its words is a match of the pattern. */
  lemma BlankGapMatches(line: string, repository: string)
    requires Declares(line) && Blank(Gap(line))
    ensures References(line, repository) != []
  {
    hide CutWords, Declares, TailLength, StartsWithFold, IsSpace, IsWordChar, IsReference, Blank, StartsWith;
    var c := CutWords(line);
    DeclaredParts(line);
    var gap, word, rest := line[c.end..c.second], line[c.second..c.stop], line[c.stop..];
    var t := line[c.first..];
    ClosesFolds(t, line[c.first..c.end]);
    assert t[6..] == gap + (word + rest);
    BlankTail(repository, gap, word, rest);
    SomeKeyword(KEYWORDS, t, repository);
    LeadIsSpace(line);
    if c.first > 0 {
      SpaceIsNoWord(line[c.first - 1]);
    }
    MatchFound(line, 0, c.first, repository);
  }

  lemma LeadIsSpace(line: string)
    ensures forall i :: 0 <= i < CutWords(line).first ==> IsSpace(line[i])
    ensures forall i :: CutWords(line).end <= i < CutWords(line).second ==> IsSpace(line[i])
  {
    var c := CutWords(line);
    forall i | c.end <= i < c.second ensures IsSpace(line[i]) {
      assert line[i] == line[c.end..][i - c.end];
    }
  }

  /** A letter of a declaring line belongs to the word `Closes`. */
  lemma LetterPosition(line: string, i: nat)
    requires Declares(line) && i < |line| && 'a' <= LowerChar(line[i]) <= 'z'
    ensures CutWords(line).first <= i < CutWords(line).end
  {
    hide CutWords, Declares;
    DeclaredParts(line);
    LeadIsSpace(line);
    var c := CutWords(line);
    forall k | c.second < k < c.stop ensures IsDigit(line[k]) {
      assert line[k] == line[c.second..c.stop][1..][k - c.second - 1];
    }
    LetterIsNoSpace(line[i]);
  }

  lemma LetterIsNoSpace(c: char)
    requires 'a' <= LowerChar(c) <= 'z'
    ensures !IsSpace(c) && !IsDigit(c)
  {
  }

  lemma ClosesAt(line: string, first: nat, k: nat)
    requires first + 6 <= |line| && line[first..first + 6] == "Closes" && first <= k < first + 6
    ensures IsWordChar(line[k]) && line[k] != ':' && !IsBlank(line[k])
  {
    assert line[k] == line[first..first + 6][k - first];
  }

  lemma NoTailInside(t: string, k: nat, repository: string)
    requires |t| >= 6 && t[..6] == "Closes" && k < 6
    ensures TailLength(t[k..], repository).None?
  {
    hide TargetLength, Targets, BlankRun;
    assert t[0..0 + 6] == t[..6];
    ClosesAt(t, 0, k);
  }

  /** The only keyword that fits a declaring line is as long as `Closes`. */
  lemma KeywordIsCloses(t: string, w: string, repository: string)
    requires |t| > 6 && t[..6] == "Closes" && IsSpace(t[6]) && Letters(w)
    requires StartsWithFold(t, w) && TailLength(t[|w|..], repository).Some?
    ensures |w| == 6
  {
    hide TailLength;
    if |w| < 6 {
      NoTailInside(t, |w|, repository);
    } else if |w| > 6 {
      FoldAt(t, w, 6);
      SpaceIsNoWord(t[6]);
    }
  }

  /** White space behind the keyword is part of a match only when it is all blanks. */
  lemma TailIsBlank(t: string, n: nat, repository: string)
    requires ValidRepository(repository) && 0 < n <= |t| && TailLength(t, repository).Some?
    requires forall i :: 0 <= i < n ==> IsSpace(t[i])
    ensures Blank(t[..n])
  {
    hide TargetLength, Targets, ValidRepository;
    SpaceIsNoWord(t[0]);
    var m := BlankRun(t);
    assert SeparatorLength(t) == Some(m);
    BlankRunStops(t);
    if m < n {
      var j := TargetUsed(Targets(repository), t[m..]);
      var target := Targets(repository)[j];
      TargetStart(repository, j);
      FoldAt(t[m..], target, 0);
      assert t[m..][0] == t[m];
      SpaceIsNoWord(t[m]);
    }
  }

  /** A match in a declaring line starts at the word `Closes`. */
  lemma MatchAtFirst(line: string, i: nat, repository: string)
    requires Declares(line) && i < |line| && MatchLength(line, i, repository).Some?
    ensures i == CutWords(line).first
  {
    hide CutWords, Declares, TailLength, StartsWithFold, IsSpace, Letters, IsReference, IsWordChar, IsBlank;
    DeclaredParts(line);
    var c := CutWords(line);
    var j := KeywordUsed(KEYWORDS, line[i..], repository);
    KeywordLetters(j);
    KeywordStart(line[i..], KEYWORDS[j]);
    LetterPosition(line, i);
    if i > c.first {
      ClosesAt(line, c.first, i - 1);
    }
  }

  lemma MatchHasBlankGap(line: string, repository: string)
    requires ValidRepository(repository) && Declares(line) && References(line, repository) != []
    ensures Blank(Gap(line))
  {
    hide CutWords, Declares, ValidRepository, TailLength, StartsWithFold, IsSpace, Letters, IsReference, IsWordChar,
         IsBlank, Matches;
    DeclaredParts(line);
    LeadIsSpace(line);
    var c := CutWords(line);
    var i := MatchPosition(line, 0, repository);
    MatchAtFirst(line, i, repository);
    var t := line[i..];
    var j := KeywordUsed(KEYWORDS, t, repository);
    KeywordLetters(j);
    BehindKeyword(line, c.first, c.end, c.second);
    KeywordIsCloses(t, KEYWORDS[j], repository);
    TailIsBlank(t[6..], c.second - c.end, repository);
  }

  /** The six letters from `a` on, and what follows them up to `s`. */
  lemma BehindKeyword(line: string, a: nat, e: nat, s: nat)
    requires a + 6 == e < s <= |line|
    ensures line[a..][..6] == line[a..e] && line[a..][6] == line[e] && line[a..][6..][..s - e] == line[e..s]
    ensures forall k :: 0 <= k < s - e ==> line[a..][6..][k] == line[e + k]
  {
  }

  lemma KeywordStart(t: string, w: string)
    requires Letters(w) && StartsWithFold(t, w)
    ensures t != "" && 'a' <= LowerChar(t[0]) <= 'z'
  {
    FoldAt(t, w, 0);
  }

  /** The exact agreement: a declaring line holds a closing reference precisely when blanks separate its words. */
  lemma DeclaringLineMatches(line: string, repository: string)
    requires ValidRepository(repository) && Declares(line)
    ensures References(line, repository) != [] <==> !Hidden(line)
  {
    if Blank(Gap(line)) {
      BlankGapMatches(line, repository);
    } else if References(line, repository) != [] {
      MatchHasBlankGap(line, repository);
    }
  }
}
