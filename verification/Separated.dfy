/** `sep.join(parts)` and `s.split(sep)` for a one-character separator. */
module Separated {

  function Join(parts: seq<string>, sep: char): string {
    if parts == [] then ""
    else if |parts| == 1 then parts[0]
    else parts[0] + [sep] + Join(parts[1..], sep)
  }

  function Split(s: string, sep: char): (r: seq<string>)
    ensures r != []
  {
    if s == "" then [""] else
      var rest := Split(s[1..], sep);
      if s[0] == sep then [""] + rest else [[s[0]] + rest[0]] + rest[1..]
  }

  lemma {:induction false} SplitSegment(segment: string, rest: string, sep: char)
    requires sep !in segment
    ensures Split(segment + [sep] + rest, sep) == [segment] + Split(rest, sep)
  {
    if segment == "" {
      assert ("" + [sep] + rest)[1..] == rest;
    } else {
      assert (segment + [sep] + rest)[1..] == segment[1..] + [sep] + rest;
      SplitSegment(segment[1..], rest, sep);
      assert segment == [segment[0]] + segment[1..];
    }
  }

  lemma {:induction false} SplitWhole(segment: string, sep: char)
    requires sep !in segment
    ensures Split(segment, sep) == [segment]
  {
    if segment != "" {
      SplitWhole(segment[1..], sep);
      assert segment == [segment[0]] + segment[1..];
    }
  }

  lemma {:induction false} SplitJoin(parts: seq<string>, sep: char)
    requires parts != [] && forall i :: 0 <= i < |parts| ==> sep !in parts[i]
    ensures Split(Join(parts, sep), sep) == parts
  {
    if |parts| == 1 {
      SplitWhole(parts[0], sep);
    } else {
      SplitJoin(parts[1..], sep);
      SplitSegment(parts[0], Join(parts[1..], sep), sep);
    }
  }

  /** A first empty part opens with the separator, and a character in front of the first part opens the text. */
  lemma JoinFront(c: char, parts: seq<string>, sep: char)
    requires parts != []
    ensures Join([""] + parts, sep) == [sep] + Join(parts, sep)
    ensures Join([[c] + parts[0]] + parts[1..], sep) == [c] + Join(parts, sep)
  {
    assert ([""] + parts)[1..] == parts && "" + [sep] + Join(parts, sep) == [sep] + Join(parts, sep);
    assert ([[c] + parts[0]] + parts[1..])[1..] == parts[1..];
    if |parts| > 1 {
      var rest := Join(parts[1..], sep);
      assert [c] + parts[0] + [sep] + rest == [c] + (parts[0] + [sep] + rest);
    }
  }

  lemma SplitFirst(s: string, sep: char)
    ensures s == "" ==> Split(s, sep) == [""]
    ensures s != "" ==>
              var rest := Split(s[1..], sep);
              Split(s, sep) == if s[0] == sep then [""] + rest else [[s[0]] + rest[0]] + rest[1..]
  {
  }

  lemma {:induction false} JoinSplit(s: string, sep: char)
    ensures Join(Split(s, sep), sep) == s
  {
    hide Split;
    SplitFirst(s, sep);
    if s != "" {
      hide Join;
      JoinSplit(s[1..], sep);
      JoinFront(s[0], Split(s[1..], sep), sep);
      assert s == [s[0]] + s[1..];
    }
  }

  lemma {:induction false} SplitHasNone(s: string, sep: char, i: nat)
    requires i < |Split(s, sep)|
    ensures sep !in Split(s, sep)[i]
  {
    if s != "" {
      if i > 0 {
        SplitHasNone(s[1..], sep, if s[0] == sep then i - 1 else i);
      } else if s[0] != sep {
        SplitHasNone(s[1..], sep, 0);
      }
    }
  }

  /** Joining up to three parts. */
  lemma JoinFew(a: string, b: string, c: string, sep: char)
    ensures Join([], sep) == "" && Join([a], sep) == a && Join([a, b], sep) == a + [sep] + b
    ensures Join([a, b, c], sep) == a + [sep] + b + [sep] + c
  {
    assert [a, b][1..] == [b] && [b, c][1..] == [c] && [a, b, c][1..] == [b, c];
    assert Join([b, c], sep) == b + [sep] + Join([c], sep);
    assert a + [sep] + (b + [sep] + c) == a + [sep] + b + [sep] + c;
  }
}
