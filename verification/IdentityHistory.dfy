/**
 Generated history with a classified tail: retired names are counted in the tail and refused in the head. Bytes are
 characters.
 */
module IdentityHistory {

  // ---- The pattern --------------------------------------------------------------------------------------------

  predicate IsAlnum(c: char) {
    'a' <= c <= 'z' || 'A' <= c <= 'Z' || '0' <= c <= '9'
  }

  /** The retired name in one of its three spellings. */
  predicate NameAt(t: string, i: nat) {
    i + 4 <= |t| &&
    ((t[i] == 'A' && t[i + 1] == 'C' && t[i + 2] == 'E' && t[i + 3] == 'S') ||
     ((t[i] == 'A' || t[i] == 'a') && t[i + 1] == 'c' && t[i + 2] == 'e' && t[i + 3] == 's'))
  }

  predicate IsEscapeDigit(c: char) {
    c == '9' || c == 'a' || c == 'A' || c == 'd' || c == 'D'
  }

  /** What may precede the name: no letter or digit, or one that belongs to an escaped white space character. */
  predicate FreeBefore(t: string, i: nat)
    requires i <= |t|
  {
    || i == 0
    || !IsAlnum(t[i - 1])
    || (i >= 2 && t[i - 2] == '\\' && (t[i - 1] == 'n' || t[i - 1] == 'r' || t[i - 1] == 't'))
    || (i >= 4 && t[i - 4] == '\\' && t[i - 3] == 'x' && t[i - 2] == '0' && IsEscapeDigit(t[i - 1]))
    || (i >= 6 && t[i - 6] == '\\' && t[i - 5] == 'u' && t[i - 4] == '0' && t[i - 3] == '0' && t[i - 2] == '0' &&
        IsEscapeDigit(t[i - 1]))
  }

  predicate StartsAt(t: string, i: nat) {
    NameAt(t, i) && FreeBefore(t, i)
  }

  function AlnumEnd(t: string, i: nat): (j: nat)
    requires i <= |t|
    ensures i <= j <= |t|
    decreases |t| - i
  {
    if i < |t| && IsAlnum(t[i]) then AlnumEnd(t, i + 1) else i
  }

  /** The end of `(?:[-_.][A-Za-z0-9]+)*`. */
  function TailEnd(t: string, i: nat): (j: nat)
    requires i <= |t|
    ensures i <= j <= |t|
    decreases |t| - i
  {
    if i + 1 < |t| && (t[i] == '-' || t[i] == '_' || t[i] == '.') && IsAlnum(t[i + 1]) then
      TailEnd(t, AlnumEnd(t, i + 1))
    else i
  }

  /** The starts of `IDENTITY_PATTERN.finditer`, from a position on. */
  function Matches(t: string, from: nat): seq<nat>
    requires from <= |t|
    decreases |t| - from
  {
    if from == |t| then []
    else if StartsAt(t, from) then [from] + Matches(t, TailEnd(t, from + 4))
    else Matches(t, from + 1)
  }

  predicate HasIdentity(t: string) {
    exists i :: 0 <= i < |t| && StartsAt(t, i)
  }

  lemma {:induction false} NoMatchExact(t: string, from: nat)
    requires from <= |t|
    ensures Matches(t, from) == [] <==> forall i :: from <= i < |t| ==> !StartsAt(t, i)
    decreases |t| - from
  {
    hide StartsAt;
    if from < |t| && !StartsAt(t, from) {
      NoMatchExact(t, from + 1);
    }
  }

  // ---- Lines --------------------------------------------------------------------------------------------------

  predicate EndsLine(t: string) {
    t == "" || t[|t| - 1] == '\n'
  }

  lemma StartsInFront(a: string, b: string, i: nat)
    requires EndsLine(a) && i < |a|
    ensures StartsAt(a + b, i) == StartsAt(a, i)
  {
    var t := a + b;
    assert forall k :: 0 <= k < |a| ==> t[k] == a[k];
    assert t[|a| - 1] == '\n';
  }

  lemma StartsBehind(a: string, b: string, i: nat)
    requires EndsLine(a) && i < |b|
    ensures StartsAt(a + b, |a| + i) == StartsAt(b, i)
  {
    var t := a + b;
    assert forall k :: 0 <= k < |b| ==> t[|a| + k] == b[k];
    NameBehind(a, b, i);
    FreeBehind(a, b, i);
  }

  lemma NameBehind(a: string, b: string, i: nat)
    requires i < |b|
    ensures NameAt(a + b, |a| + i) == NameAt(b, i)
  {
  }

  lemma FreeBehind(a: string, b: string, i: nat)
    requires EndsLine(a) && i < |b|
    ensures FreeBefore(a + b, |a| + i) == FreeBefore(b, i)
  {
    var t := a + b;
    assert forall k :: 0 <= k < |b| ==> t[|a| + k] == b[k];
    if a != "" {
      assert t[|a| - 1] == '\n';
    }
  }

  /** A line end separates: neither the name nor what is required before it can span it. */
  lemma JoinExact(a: string, b: string)
    requires EndsLine(a)
    ensures HasIdentity(a + b) <==> HasIdentity(a) || HasIdentity(b)
  {
    hide StartsAt;
    var t := a + b;
    if HasIdentity(t) {
      var i :| 0 <= i < |t| && StartsAt(t, i);
      if i < |a| {
        StartsInFront(a, b, i);
      } else {
        StartsBehind(a, b, i - |a|);
      }
    }
    if HasIdentity(a) {
      var i :| 0 <= i < |a| && StartsAt(a, i);
      StartsInFront(a, b, i);
    }
    if HasIdentity(b) {
      var i :| 0 <= i < |b| && StartsAt(b, i);
      StartsBehind(a, b, i);
    }
  }

  // ---- The record ---------------------------------------------------------------------------------------------

  datatype Record = Record(occurrences: nat, suffix: nat)

  datatype Failure =
    | Truncated(size: nat)
    | TailCount(found: nat)
    | InHead(found: nat, lines: seq<nat>)

  function Feeds(t: string): nat {
    if t == "" then 0 else Feeds(t[..|t| - 1]) + if t[|t| - 1] == '\n' then 1 else 0
  }

  /** `_match_lines`. */
  function MatchLines(content: string, starts: seq<nat>): (r: seq<nat>)
    requires forall i :: 0 <= i < |starts| ==> starts[i] <= |content|
  {
    seq(|starts|, i requires 0 <= i < |starts| => Feeds(content[..starts[i]]) + 1)
  }

  lemma {:induction false} MatchesInText(t: string, from: nat)
    requires from <= |t|
    ensures forall i :: 0 <= i < |Matches(t, from)| ==> from <= Matches(t, from)[i] < |t|
    decreases |t| - from
  {
    hide StartsAt;
    if from < |t| {
      if StartsAt(t, from) {
        StartFits(t, from);
        MatchesInText(t, TailEnd(t, from + 4));
      } else {
        MatchesInText(t, from + 1);
      }
    }
  }

  lemma StartFits(t: string, i: nat)
    requires StartsAt(t, i)
    ensures i + 4 <= |t|
  {
  }

  /** `_evaluate_generated_history`. */
  method EvaluateGeneratedHistory(record: Record, content: string) returns (failures: seq<Failure>)
    ensures failures == [] <==> Passes(record, content)
    ensures failures == HistoryFailures(record, content)
  {
    hide StartsAt, Feeds;
    var boundary := |content| - record.suffix;
    if boundary < 0 {
      return [Truncated(|content|)];
    }
    var head, suffix := content[..boundary], content[boundary..];
    failures := [];
    var suffixMatches := Matches(suffix, 0);
    if |suffixMatches| != record.occurrences {
      failures := failures + [TailCount(|suffixMatches|)];
    }
    var headMatches := Matches(head, 0);
    MatchesInText(head, 0);
    NoMatchExact(head, 0);
    if headMatches != [] {
      failures := failures + [InHead(|headMatches|, MatchLines(content, headMatches))];
    }
  }

  function HistoryFailures(record: Record, content: string): seq<Failure> {
    if record.suffix > |content| then [Truncated(|content|)] else
      var boundary := |content| - record.suffix;
      var head, suffix := content[..boundary], content[boundary..];
      MatchesInText(head, 0);
      (if |Matches(suffix, 0)| != record.occurrences then [TailCount(|Matches(suffix, 0)|)] else []) +
      if Matches(head, 0) != [] then [InHead(|Matches(head, 0)|, MatchLines(content, Matches(head, 0)))] else []
  }

  /** The declared tail is there with its occurrences, and the head is free of the name. */
  predicate Passes(record: Record, content: string) {
    record.suffix <= |content| &&
    |Matches(content[|content| - record.suffix..], 0)| == record.occurrences &&
    !HasIdentity(content[..|content| - record.suffix])
  }

  /** The count of the tail is decided by the classified bytes alone. */
  lemma TailOnly(record: Record, a: string, b: string)
    requires record.suffix <= |a| && record.suffix <= |b|
    requires a[|a| - record.suffix..] == b[|b| - record.suffix..]
    ensures forall n :: TailCount(n) in HistoryFailures(record, a) <==> TailCount(n) in HistoryFailures(record, b)
  {
    hide Matches, MatchLines;
    forall n: nat ensures TailCount(n) in HistoryFailures(record, a) <==> TailCount(n) in HistoryFailures(record, b) {
    }
  }

  // ---- Releases -----------------------------------------------------------------------------------------------

  /** A release inserts lines into the generated head. */
  datatype Release = Release(at: nat, lines: string)

  predicate Fits(record: Record, content: string, release: Release) {
    record.suffix <= |content| && release.at <= |content| - record.suffix &&
    EndsLine(content[..release.at]) &&
    (EndsLine(release.lines) || release.at == |content| - record.suffix)
  }

  function Insert(content: string, release: Release): string {
    if release.at <= |content| then content[..release.at] + release.lines + content[release.at..] else content
  }

  /** Lines inserted at a line boundary of the head leave a record passing exactly when they are free of the name. */
  lemma InsertExact(record: Record, content: string, release: Release)
    requires Fits(record, content, release)
    ensures Passes(record, Insert(content, release)) <==> Passes(record, content) && !HasIdentity(release.lines)
  {
    hide HasIdentity, Matches;
    var boundary := |content| - record.suffix;
    var a, b, more := content[..release.at], content[release.at..boundary], Insert(content, release);
    assert content[..boundary] == a + b;
    assert more[..|more| - record.suffix] == a + (release.lines + b);
    assert more[|more| - record.suffix..] == content[boundary..];
    JoinExact(a, b);
    JoinExact(a, release.lines + b);
    if EndsLine(release.lines) {
      JoinExact(release.lines, b);
    } else {
      assert b == "" && release.lines + b == release.lines;
      NoIdentity();
    }
  }

  lemma NoIdentity()
    ensures !HasIdentity("")
  {
  }

  function InsertAll(content: string, releases: seq<Release>): string
    decreases |releases|
  {
    if releases == [] then content else InsertAll(Insert(content, releases[0]), releases[1..])
  }

  ghost predicate AllFit(record: Record, content: string, releases: seq<Release>)
    decreases |releases|
  {
    releases == [] ||
    (Fits(record, content, releases[0]) && AllFit(record, Insert(content, releases[0]), releases[1..]))
  }

  /** Over any sequence of releases a record keeps passing exactly when every one of them inserts only free lines. */
  lemma {:induction false} ReleasesExact(record: Record, content: string, releases: seq<Release>)
    requires Passes(record, content) && AllFit(record, content, releases)
    ensures (forall i :: 0 <= i < |releases| ==> !HasIdentity(releases[i].lines)) ==>
              Passes(record, InsertAll(content, releases))
    ensures Passes(record, InsertAll(content, releases)) ==>
              forall i :: 0 <= i < |releases| ==> !HasIdentity(releases[i].lines)
    decreases |releases|
  {
    hide HasIdentity, Passes, Fits, Insert;
    if releases != [] {
      var next := Insert(content, releases[0]);
      InsertExact(record, content, releases[0]);
      if Passes(record, next) {
        ReleasesExact(record, next, releases[1..]);
        assert forall i :: 1 <= i < |releases| ==> releases[i] == releases[1..][i - 1];
      } else {
        StaysFailing(record, next, releases[1..]);
      }
    }
  }

  lemma {:induction false} StaysFailing(record: Record, content: string, releases: seq<Release>)
    requires !Passes(record, content) && AllFit(record, content, releases)
    ensures !Passes(record, InsertAll(content, releases))
    decreases |releases|
  {
    hide HasIdentity, Passes, Fits, Insert;
    if releases != [] {
      InsertExact(record, content, releases[0]);
      StaysFailing(record, Insert(content, releases[0]), releases[1..]);
    }
  }
}
