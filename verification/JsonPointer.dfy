/**
 JSON pointer text (RFC 6901): the escaped paths that the publication check gives to object schemas,
 and the resolver of the lineage check, which decodes them.
 */
module JsonPointer {
  import opened Decimals
  import opened Json
  import opened Options
  import Separated

  /** `s.replace(c, text)` for a one-character pattern. */
  function ReplaceChar(s: string, c: char, text: string): string {
    if s == [] then [] else (if s[0] == c then text else [s[0]]) + ReplaceChar(s[1..], c, text)
  }

  /** `s.replace(a + b, text)` for a two-character pattern: left to right, without overlap. */
  function ReplacePair(s: string, a: char, b: char, text: char): string {
    if s == [] then []
    else if |s| >= 2 && s[0] == a && s[1] == b then [text] + ReplacePair(s[2..], a, b, text)
    else [s[0]] + ReplacePair(s[1..], a, b, text)
  }

  /** `token.replace("~", "~0").replace("/", "~1")`. */
  function Escape(token: string): string {
    ReplaceChar(ReplaceChar(token, '~', "~0"), '/', "~1")
  }

  /** `token.replace("~1", "/").replace("~0", "~")`. */
  function Unescape(token: string): string {
    ReplacePair(ReplacePair(token, '~', '1', '/'), '~', '0', '~')
  }

  /** The escape of one character, and `Escape` as that map. */
  function EscapeChar(c: char): string {
    if c == '~' then "~0" else if c == '/' then "~1" else [c]
  }

  lemma {:induction false} ReplaceCharConcat(s: string, t: string, c: char, text: string)
    ensures ReplaceChar(s + t, c, text) == ReplaceChar(s, c, text) + ReplaceChar(t, c, text)
  {
    if s == [] {
      assert s + t == t;
    } else {
      assert (s + t)[1..] == s[1..] + t;
      ReplaceCharConcat(s[1..], t, c, text);
    }
  }

  lemma EscapeStep(token: string)
    requires token != []
    ensures Escape(token) == EscapeChar(token[0]) + Escape(token[1..])
  {
    var head := if token[0] == '~' then "~0" else [token[0]];
    ReplaceCharConcat(head, ReplaceChar(token[1..], '~', "~0"), '/', "~1");
    if token[0] == '~' {
      calc {
        ReplaceChar("~0", '/', "~1");
        "~" + ReplaceChar("~0"[1..], '/', "~1");
        { assert "~0"[1..] == "0"; }
        "~" + ("0" + ReplaceChar("0"[1..], '/', "~1"));
        { assert "0"[1..] == ""; }
        "~0";
      }
    } else {
      assert [token[0]][1..] == "";
    }
  }

  /** After the first decoding step only the `~0` pairs are left. */
  function TildeOnly(s: string): string {
    ReplaceChar(s, '~', "~0")
  }

  lemma {:induction false} DecodeSlash(token: string)
    ensures ReplacePair(Escape(token), '~', '1', '/') == TildeOnly(token)
  {
    if token != [] {
      EscapeStep(token);
      DecodeSlash(token[1..]);
      var rest := Escape(token[1..]);
      var e := Escape(token);
      if token[0] == '~' {
        assert e[1..] == "0" + rest && ("0" + rest)[1..] == rest;
      } else if token[0] == '/' {
        assert e[2..] == rest;
      } else {
        assert e[1..] == rest;
      }
    }
  }

  lemma {:induction false} DecodeTilde(token: string)
    ensures ReplacePair(TildeOnly(token), '~', '0', '~') == token
  {
    if token != [] {
      DecodeTilde(token[1..]);
      var rest := TildeOnly(token[1..]);
      var e := TildeOnly(token);
      if token[0] == '~' {
        assert e == "~0" + rest;
        assert e[2..] == rest;
      } else {
        assert e[1..] == rest;
      }
      assert token == [token[0]] + token[1..];
    }
  }

  /** Decoding undoes encoding for every token (RFC 6901 sections 3 and 4). */
  lemma UnescapeEscape(token: string)
    ensures Unescape(Escape(token)) == token
  {
    DecodeSlash(token);
    DecodeTilde(token);
  }

  lemma {:induction false} EscapeShape(token: string)
    ensures '/' !in Escape(token)
    ensures Escape(token) == "" <==> token == ""
  {
    if token != [] {
      EscapeStep(token);
      EscapeShape(token[1..]);
    }
  }

  lemma EscapeInjective(a: string, b: string)
    requires Escape(a) == Escape(b)
    ensures a == b
  {
    UnescapeEscape(a);
    UnescapeEscape(b);
  }

  /** `"/".join(parts)`. */
  function Join(parts: seq<string>): string {
    Separated.Join(parts, '/')
  }

  /** `s.split("/")`. */
  function Split(s: string): (r: seq<string>)
    ensures r != []
  {
    Separated.Split(s, '/')
  }

  function NonEmpty(parts: seq<string>): seq<string> {
    if parts == [] then []
    else (if parts[0] == "" then [] else [parts[0]]) + NonEmpty(parts[1..])
  }

  function EscapeAll(parts: seq<string>): (r: seq<string>)
    ensures |r| == |parts| && forall i :: 0 <= i < |parts| ==> r[i] == Escape(parts[i])
  {
    if parts == [] then [] else [Escape(parts[0])] + EscapeAll(parts[1..])
  }

  /** `_json_path(base, *parts)`: the escaped parts after the base, where an empty part leaves no trace. */
  function JsonPath(base: string, parts: seq<string>): string {
    Join(NonEmpty([base] + EscapeAll(parts)))
  }

  /** One named step below `base`. */
  function Child(base: string, name: string): string {
    JsonPath(base, [name])
  }

  /** `NonEmpty` and `Join` on up to three parts. */
  lemma JoinText(a: string, b: string, c: string)
    ensures NonEmpty([a]) == if a == "" then [] else [a]
    ensures NonEmpty([a, b]) == NonEmpty([a]) + NonEmpty([b])
    ensures NonEmpty([a, b, c]) == NonEmpty([a]) + NonEmpty([b]) + NonEmpty([c])
    ensures Join([]) == "" && Join([a]) == a && Join([a, b]) == a + "/" + b
    ensures Join([a, b, c]) == a + "/" + b + "/" + c
  {
    assert [a][1..] == [] && [b][1..] == [] && [c][1..] == [];
    assert [a, b][1..] == [b] && [b, c][1..] == [c] && [a, b, c][1..] == [b, c];
    assert NonEmpty([b, c]) == NonEmpty([b]) + NonEmpty([c]);
    Separated.JoinFew(a, b, c, '/');
  }

  lemma ChildText(base: string, name: string)
    ensures name == "" ==> Child(base, name) == base
    ensures name != "" && base == "" ==> Child(base, name) == Escape(name)
    ensures name != "" && base != "" ==> Child(base, name) == base + "/" + Escape(name)
    ensures name != "" ==> Child(base, name) != ""
  {
    hide Escape, Join, NonEmpty;
    var e := Escape(name);
    EscapeShape(name);
    EscapeOne(name);
    assert [base] + EscapeAll([name]) == [base, e];
    JoinText(base, e, "");
    JoinText(e, "", "");
    assert [] + NonEmpty([e]) == NonEmpty([e]) && NonEmpty([base]) + [] == NonEmpty([base]);
    assert [base] + [e] == [base, e];
    assert Child(base, name) == Join(NonEmpty([base]) + NonEmpty([e]));
  }

  lemma EscapeOne(name: string)
    ensures EscapeAll([name]) == [Escape(name)]
    ensures Escape("") == ""
  {
    hide ReplaceChar;
    EscapeShape("");
  }

  lemma PathOfTwo(base: string, a: string, b: string)
    ensures JsonPath(base, [a, b]) == Child(Child(base, a), b)
  {
    hide Escape;
    var x, y := Escape(a), Escape(b);
    ChildText(base, a);
    ChildText(Child(base, a), b);
    EscapeShape(a);
    EscapeShape(b);
    assert EscapeAll([a, b]) == [x, y];
    assert [base] + [x, y] == [base, x, y];
    JoinText(base, x, y);
    JoinText(x, y, "");
    JoinText(y, "", "");
    JoinText(base, y, "");
  }

  /** The pointer of a location: its steps, one below the other, from the root pointer "". */
  function PointerFrom(base: string, steps: seq<string>): string
    decreases steps
  {
    if steps == [] then base else PointerFrom(Child(base, steps[0]), steps[1..])
  }

  function PointerOf(steps: seq<string>): string {
    PointerFrom("", steps)
  }

  ghost predicate AllNonEmpty(steps: seq<string>) {
    forall i :: 0 <= i < |steps| ==> steps[i] != ""
  }

  lemma {:induction false} PointerFromText(base: string, steps: seq<string>)
    requires base != "" && steps != [] && AllNonEmpty(steps)
    ensures PointerFrom(base, steps) == base + "/" + Join(EscapeAll(steps))
    decreases steps
  {
    hide Child, Escape;
    ChildText(base, steps[0]);
    var rest := EscapeAll(steps[1..]);
    assert EscapeAll(steps) == [Escape(steps[0])] + rest;
    if |steps| > 1 {
      PointerFromText(Child(base, steps[0]), steps[1..]);
      assert Join(EscapeAll(steps)) == Escape(steps[0]) + "/" + Join(rest);
      assert base + "/" + Escape(steps[0]) + "/" + Join(rest) == base + "/" + (Escape(steps[0]) + "/" + Join(rest));
    }
  }

  /** A pointer is the join of its escaped steps, so splitting it at `/` gives the escaped steps back. */
  lemma PointerText(steps: seq<string>)
    requires steps != [] && AllNonEmpty(steps)
    ensures PointerOf(steps) == Join(EscapeAll(steps)) != ""
    ensures Split(PointerOf(steps)) == EscapeAll(steps)
  {
    ChildText("", steps[0]);
    assert EscapeAll(steps) == [Escape(steps[0])] + EscapeAll(steps[1..]);
    if |steps| > 1 {
      PointerFromText(Child("", steps[0]), steps[1..]);
      assert EscapeAll(steps)[1..] == EscapeAll(steps[1..]);
      assert |PointerOf(steps)| > 0;
    } else {
      assert steps[1..] == [];
      assert PointerFrom("", steps) == PointerFrom(Child("", steps[0]), []);
    }
    forall i | 0 <= i < |steps| ensures '/' !in EscapeAll(steps)[i] {
      EscapeShape(steps[i]);
    }
    Separated.SplitJoin(EscapeAll(steps), '/');
  }

  /** Distinct locations with non-empty names have distinct pointers. */
  lemma PointerInjective(a: seq<string>, b: seq<string>)
    requires AllNonEmpty(a) && AllNonEmpty(b)
    requires PointerOf(a) == PointerOf(b)
    ensures a == b
  {
    if a != [] { PointerText(a); }
    if b != [] { PointerText(b); }
    if a != [] && b != [] {
      forall i | 0 <= i < |a| ensures a[i] == b[i] {
        EscapeInjective(a[i], b[i]);
      }
    }
  }

  // ---- Positions in a list ------------------------------------------------------------------------------------

  predicate IsArrayIndexToken(token: string) {
    && token != "" && (forall i :: 0 <= i < |token| ==> IsDigit(token[i]))
    && (|token| == 1 || token[0] != '0')
  }

  /** `array_index(token, length)`: the list position that a pointer token names. */
  function ArrayIndex(token: string, length: nat): (r: Option<nat>)
    ensures r.Some? ==> r.value < length
  {
    if !IsArrayIndexToken(token) then None
    else if |token| > |Decimal(length)| || DecimalValue(token) >= length then None
    else Some(DecimalValue(token))
  }

  /** The decimal text of an existing position names that position. */
  lemma ArrayIndexOfDecimal(i: nat, length: nat)
    requires i < length
    ensures ArrayIndex(Decimal(i), length) == Some(i)
  {
    DecimalRoundTrip(i);
    DecimalLeadingZero(i);
    DecimalLengthMonotone(i, length);
  }

  // ---- The resolver -------------------------------------------------------------------------------------------

  /** One decoded step from a document: a member of a dict or a position of a list. */
  function Enter(current: Json, part: string): Option<Json> {
    match current
    case Obj(fields) => Find(fields, part)
    case Arr(items) =>
      var position := ArrayIndex(part, |items|);
      if position.Some? then Some(items[position.value]) else None
    case _ => None
  }

  /** The value that the steps name, if they name one. */
  function Locate(document: Json, steps: seq<string>): Option<Json> {
    if steps == [] then Some(document) else
      var next := Enter(document, steps[0]);
      if next.None? then None else Locate(next.value, steps[1..])
  }

  function UnescapeAll(parts: seq<string>): (r: seq<string>)
    ensures |r| == |parts| && forall i :: 0 <= i < |parts| ==> r[i] == Unescape(parts[i])
  {
    if parts == [] then [] else [Unescape(parts[0])] + UnescapeAll(parts[1..])
  }

  /** `_resolve_json_pointer`: whether a `#` pointer names a value; `target` is the last value of `current`. */
  method ResolveJsonPointer(document: Json, pointer: string) returns (found: bool, target: Json)
    ensures pointer == "#" ==> found && target == document
    ensures !("#/" <= pointer) && pointer != "#" ==> !found
    ensures "#/" <= pointer ==>
              var located := Locate(document, UnescapeAll(Split(pointer[2..])));
              found == located.Some? && (found ==> target == located.value)
  {
    if pointer == "#" {
      return true, document;
    }
    if !("#/" <= pointer) {
      return false, document;
    }
    var current := document;
    var parts := Split(pointer[2..]);
    var k := 0;
    while k < |parts|
      invariant k <= |parts|
      invariant Locate(document, UnescapeAll(parts)) == Locate(current, UnescapeAll(parts)[k..])
    {
      var part := Unescape(parts[k]);
      assert UnescapeAll(parts)[k..][0] == part;
      assert UnescapeAll(parts)[k..][1..] == UnescapeAll(parts)[k + 1..];
      var next := Enter(current, part);
      if next.None? {
        return false, current;
      }
      current := next.value;
      k := k + 1;
    }
    return true, current;
  }

  /** The resolver, given `#/` and the pointer of a location, walks exactly the steps of that location. */
  lemma PointerDecodes(steps: seq<string>)
    requires steps != [] && AllNonEmpty(steps)
    ensures UnescapeAll(Split(PointerOf(steps))) == steps
  {
    PointerText(steps);
    forall i | 0 <= i < |steps| ensures UnescapeAll(EscapeAll(steps))[i] == steps[i] {
      UnescapeEscape(steps[i]);
    }
  }
}
