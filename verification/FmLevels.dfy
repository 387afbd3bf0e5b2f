/** Assurance levels: the numeric order of their ids without reading numbers, and required artifacts that only grow. */
module FmLevels {
  import opened Options
  import opened Decimals
  import opened Ordering

  // ---- The key ------------------------------------------------------------------------------------------------

  /** The count of significant digits, and the digits. */
  datatype Key = Key(count: nat, digits: string)

  predicate KeyLeq(a: Key, b: Key) {
    a.count < b.count || (a.count == b.count && StringLeq(a.digits, b.digits))
  }

  predicate Digits(t: string) {
    forall i :: 0 <= i < |t| ==> IsDigit(t[i])
  }

  function StripZeros(t: string): (r: string)
    ensures |r| <= |t|
    ensures r != "" ==> r[0] != '0'
  {
    if t != "" && t[0] == '0' then StripZeros(t[1..]) else t
  }

  /** `suffix.lstrip("0") or "0"`. */
  function Significant(suffix: string): (r: string)
    ensures r != ""
  {
    if StripZeros(suffix) == "" then "0" else StripZeros(suffix)
  }

  /** `_fm_index`; a level without a text id has none. */
  function FmIndex(id: Option<string>): Option<Key> {
    if id.None? || |id.value| < 3 || id.value[0] != 'F' || id.value[1] != 'M' || !Digits(id.value[2..]) then None
    else Some(Key(|Significant(id.value[2..])|, Significant(id.value[2..])))
  }

  /** The number that an FM id names. */
  function FmNumber(id: string): nat
    requires FmIndex(Some(id)).Some?
  {
    DecimalValue(id[2..])
  }

  function Power10(n: nat): (p: nat)
    ensures p > 0
  {
    if n == 0 then 1 else 10 * Power10(n - 1)
  }

  /** The first digit counts for its place. */
  lemma {:induction false} ValueOfHead(t: string)
    requires t != "" && Digits(t)
    ensures DecimalValue(t) == DigitValue(t[0]) * Power10(|t| - 1) + DecimalValue(t[1..])
  {
    var k := |t| - 1;
    if k == 0 {
      assert t[..0] == "" && t[1..] == "";
    } else {
      ValueOfHead(t[..k]);
      assert t[..k][1..] == t[1..k] == t[1..][..k - 1];
      var p := Power10(k - 1);
      assert Power10(k) == 10 * p;
      HeadTimesTen(DigitValue(t[0]), p);
    }
  }

  lemma HeadTimesTen(d: nat, p: nat)
    ensures d * p * 10 == d * (10 * p)
  {
  }

  lemma {:induction false} ValueBound(t: string)
    requires Digits(t)
    ensures DecimalValue(t) < Power10(|t|)
  {
    if t != "" {
      ValueBound(t[..|t| - 1]);
    }
  }

  lemma {:induction false} StripZerosValue(t: string)
    requires Digits(t)
    ensures Digits(StripZeros(t)) && DecimalValue(StripZeros(t)) == DecimalValue(t)
  {
    if t != "" && t[0] == '0' {
      ValueOfHead(t);
      StripZerosValue(t[1..]);
    }
  }

  lemma SignificantValue(t: string)
    requires Digits(t)
    ensures Digits(Significant(t)) && DecimalValue(Significant(t)) == DecimalValue(t)
    ensures |Significant(t)| > 1 ==> Significant(t)[0] != '0'
  {
    StripZerosValue(t);
    assert "0"[..0] == "";
  }

  lemma Places(d: nat, e: nat, p: nat, x: nat, y: nat)
    requires x < p && y < p
    ensures d < e ==> d * p + x < e * p + y
  {
    if d < e {
      assert (d + 1) * p <= e * p by {
        assert (e - d - 1) * p >= 0;
        assert e * p == (d + 1) * p + (e - d - 1) * p;
      }
    }
  }

  /** Digit strings of one length compare as their values. */
  lemma {:induction false} SameLengthOrder(a: string, b: string)
    requires Digits(a) && Digits(b) && |a| == |b|
    ensures StringLeq(a, b) <==> DecimalValue(a) <= DecimalValue(b)
  {
    if a != "" {
      hide DecimalValue, Power10;
      ValueOfHead(a);
      ValueOfHead(b);
      ValueBound(a[1..]);
      ValueBound(b[1..]);
      PlacesOrder(DigitValue(a[0]), DigitValue(b[0]), Power10(|a| - 1), DecimalValue(a[1..]), DecimalValue(b[1..]));
      SameLengthOrder(a[1..], b[1..]);
    }
  }

  /** The leading digit decides, then the rest. */
  lemma PlacesOrder(d: nat, e: nat, p: nat, x: nat, y: nat)
    requires x < p && y < p
    ensures d * p + x <= e * p + y <==> d < e || (d == e && x <= y)
  {
    Places(d, e, p, x, y);
    Places(e, d, p, y, x);
  }

  lemma {:induction false} PowerMonotone(m: nat, n: nat)
    requires m <= n
    ensures Power10(m) <= Power10(n)
  {
    if m < n {
      PowerMonotone(m, n - 1);
    }
  }

  /** More significant digits make a larger number. */
  lemma ShorterIsSmaller(a: string, b: string)
    requires Digits(a) && Digits(b) && |a| < |b| && b[0] != '0'
    ensures DecimalValue(a) < DecimalValue(b)
  {
    hide DecimalValue, Power10;
    ValueBound(a);
    PowerMonotone(|a|, |b| - 1);
    ValueOfHead(b);
    AtLeastOnce(DigitValue(b[0]), Power10(|b| - 1));
  }

  lemma AtLeastOnce(d: nat, p: nat)
    requires d >= 1
    ensures d * p >= p
  {
    assert (d - 1) * p >= 0;
  }

  /** The key orders digit strings of any length exactly as their values. */
  lemma KeyOrderIsNumeric(a: string, b: string)
    requires Digits(a) && Digits(b)
    ensures var ka, kb := Key(|Significant(a)|, Significant(a)), Key(|Significant(b)|, Significant(b));
            KeyLeq(ka, kb) <==> DecimalValue(a) <= DecimalValue(b)
  {
    hide Significant, StringLeq, DecimalValue;
    SignificantValue(a);
    SignificantValue(b);
    var x, y := Significant(a), Significant(b);
    if |x| < |y| {
      ShorterIsSmaller(x, y);
    } else if |y| < |x| {
      ShorterIsSmaller(y, x);
    } else {
      SameLengthOrder(x, y);
    }
  }

  // ---- Levels -------------------------------------------------------------------------------------------------

  /** A level entry: its id where that is text, and its required artifacts. */
  datatype Level = Level(id: Option<string>, required: seq<string>)

  datatype Failure =
    | Duplicates(ids: set<string>)
    | Order
    | Proportionality(child: string, parent: string, missing: set<string>)

  predicate IsFm(level: Level) {
    FmIndex(level.id).Some?
  }

  /** The FM-numbered levels in document order. */
  function FmLevelsOf(levels: seq<Level>): (r: seq<Level>)
    ensures forall i :: 0 <= i < |r| ==> IsFm(r[i])
  {
    if levels == [] then [] else
      (if IsFm(levels[0]) then [levels[0]] else []) + FmLevelsOf(levels[1..])
  }

  function KeyOf(level: Level): Key {
    if IsFm(level) then FmIndex(level.id).value else Key(0, "")
  }

  function LevelLeq(): (Level, Level) -> bool {
    (a: Level, b: Level) => KeyLeq(KeyOf(a), KeyOf(b))
  }

  lemma LevelOrder()
    ensures TotalOrder(LevelLeq())
  {
    hide KeyOf;
    var leq := LevelLeq();
    forall a, b ensures leq(a, b) || leq(b, a) {
      StringLeqTotal(KeyOf(a).digits, KeyOf(b).digits);
    }
    forall a, b, c | leq(a, b) && leq(b, c) ensures leq(a, c) {
      if KeyOf(a).count == KeyOf(b).count == KeyOf(c).count {
        StringLeqTransitive(KeyOf(a).digits, KeyOf(b).digits, KeyOf(c).digits);
      }
    }
  }

  function Required(level: Level): set<string> {
    set artifact | artifact in level.required
  }

  function IdText(level: Level): string {
    if level.id.Some? then level.id.value else "?"
  }

  /** The failures of the neighbours in a list. */
  function NeighbourFailures(ordered: seq<Level>): seq<Failure> {
    if |ordered| < 2 then [] else
      var k := |ordered| - 1;
      var parent, child := ordered[k - 1], ordered[k];
      var missing := Required(parent) - Required(child);
      NeighbourFailures(ordered[..k]) +
      if missing != {} then [Proportionality(IdText(child), IdText(parent), missing)] else []
  }

  ghost predicate Grows(ordered: seq<Level>) {
    forall i, j :: 0 <= i < j < |ordered| ==> Required(ordered[i]) <= Required(ordered[j])
  }

  /** When the neighbours pass, artifacts grow along every pair, not only the neighbours. */
  lemma {:induction false} NeighboursDecide(ordered: seq<Level>)
    ensures NeighbourFailures(ordered) == [] <==> Grows(ordered)
  {
    hide Required;
    if |ordered| >= 2 {
      var k := |ordered| - 1;
      var rest := ordered[..k];
      NeighboursDecide(rest);
      assert forall i :: 0 <= i < k ==> rest[i] == ordered[i];
      var parent, child := Required(ordered[k - 1]), Required(ordered[k]);
      NothingMissing(parent, child);
      if Grows(rest) && parent <= child {
        forall i | 0 <= i < k ensures Required(ordered[i]) <= child {
          assert i < k - 1 ==> Required(rest[i]) <= Required(rest[k - 1]);
        }
      }
    }
  }

  lemma NothingMissing(parent: set<string>, child: set<string>)
    ensures parent - child == {} <==> parent <= child
  {
    if parent - child == {} {
      forall x | x in parent ensures x in child {
        assert x !in parent - child;
      }
    }
  }

  /** The text ids that occur again later in the document. */
  function DuplicateIds(levels: seq<Level>): set<string> {
    if levels == [] then {} else
      var k := |levels| - 1;
      var id := levels[k].id;
      DuplicateIds(levels[..k]) + if id.Some? && id in IdsOf(levels[..k]) then {id.value} else {}
  }

  function IdsOf(levels: seq<Level>): set<Option<string>> {
    set i | 0 <= i < |levels| :: levels[i].id
  }

  ghost predicate UniqueIds(levels: seq<Level>) {
    forall i, j :: 0 <= i < j < |levels| && levels[i].id.Some? ==> levels[i].id != levels[j].id
  }

  lemma {:induction false} DuplicatesExact(levels: seq<Level>)
    ensures DuplicateIds(levels) == {} <==> UniqueIds(levels)
  {
    if levels != [] {
      var k := |levels| - 1;
      var rest := levels[..k];
      DuplicatesExact(rest);
      assert forall i :: 0 <= i < k ==> rest[i] == levels[i];
      var id := levels[k].id;
      if id.Some? && id in IdsOf(rest) {
        var i :| 0 <= i < |rest| && rest[i].id == id;
        assert levels[i].id == levels[k].id;
      } else if UniqueIds(rest) {
        forall i, j | 0 <= i < j < |levels| && levels[i].id.Some? ensures levels[i].id != levels[j].id {
          if j == k {
            assert rest[i].id in IdsOf(rest);
          } else {
            assert rest[i].id != rest[j].id;
          }
        }
      }
    }
  }

  // ---- The check ----------------------------------------------------------------------------------------------

  /** The duplicate, order and proportionality parts of `_check_levels`. */
  function LevelFailures(levels: seq<Level>): seq<Failure> {
    var fm := FmLevelsOf(levels);
    var ordered := SortBy(LevelLeq(), fm);
    (if DuplicateIds(levels) != {} then [Duplicates(DuplicateIds(levels))] else []) +
    (if Names(fm) != Names(ordered) then [Order] else []) +
    NeighbourFailures(ordered)
  }

  function Names(levels: seq<Level>): seq<string> {
    seq(|levels|, i requires 0 <= i < |levels| => IdText(levels[i]))
  }

  /** The loop over `seen`. */
  method FindDuplicates(levels: seq<Level>) returns (duplicates: set<string>)
    ensures duplicates == DuplicateIds(levels)
  {
    hide IdsOf;
    var seen: set<string> := {};
    duplicates := {};
    IdsNone();
    for k := 0 to |levels|
      invariant forall id :: id in seen <==> Some(id) in IdsOf(levels[..k])
      invariant duplicates == DuplicateIds(levels[..k])
    {
      assert levels[..k + 1][..k] == levels[..k];
      IdsMore(levels, k);
      var id := levels[k].id;
      if id.Some? {
        if id.value in seen {
          duplicates := duplicates + {id.value};
        } else {
          seen := seen + {id.value};
        }
      }
    }
    assert levels[..|levels|] == levels;
  }

  /** The loop over neighbours. */
  method CheckNeighbours(ordered: seq<Level>) returns (failures: seq<Failure>)
    ensures failures == NeighbourFailures(ordered)
  {
    hide Required;
    failures := [];
    var k := 1;
    while k < |ordered|
      invariant k <= |ordered| || ordered == []
      invariant failures == NeighbourFailures(ordered[..if ordered == [] then 0 else k])
    {
      assert ordered[..k + 1][..k] == ordered[..k];
      var parent, child := ordered[k - 1], ordered[k];
      var missing := Required(parent) - Required(child);
      if missing != {} {
        failures := failures + [Proportionality(IdText(child), IdText(parent), missing)];
      }
      k := k + 1;
    }
    assert ordered[..|ordered|] == ordered;
  }

  method CheckLevels(levels: seq<Level>) returns (failures: seq<Failure>)
    ensures failures == LevelFailures(levels)
  {
    hide SortBy, DuplicateIds, NeighbourFailures, FmLevelsOf;
    failures := [];
    var duplicates := FindDuplicates(levels);
    if duplicates != {} {
      failures := failures + [Duplicates(duplicates)];
    }
    var fm := FmLevelsOf(levels);
    var ordered := SortBy(LevelLeq(), fm);
    if Names(fm) != Names(ordered) {
      failures := failures + [Order];
    }
    var more := CheckNeighbours(ordered);
    failures := failures + more;
  }

  lemma IdsNone()
    ensures IdsOf([]) == {}
  {
  }

  lemma IdsMore(levels: seq<Level>, k: nat)
    requires k < |levels|
    ensures IdsOf(levels[..k + 1]) == IdsOf(levels[..k]) + {levels[k].id}
  {
    var more := levels[..k + 1];
    forall id | id in IdsOf(levels[..k]) ensures id in IdsOf(more) {
      var i :| 0 <= i < k && levels[..k][i].id == id;
      assert more[i].id == id;
    }
    assert more[k].id == levels[k].id;
  }

  lemma {:induction false} InsertFirst(x: Level, xs: seq<Level>)
    requires Ascending(LevelLeq(), [x] + xs)
    ensures Insert(LevelLeq(), x, xs) == [x] + xs
  {
    if xs != [] {
      assert ([x] + xs)[0] == x && ([x] + xs)[1] == xs[0];
    }
  }

  /** Sorting levels that are in order changes nothing. */
  lemma {:induction false} SortedStays(levels: seq<Level>)
    requires Ascending(LevelLeq(), levels)
    ensures SortBy(LevelLeq(), levels) == levels
  {
    if levels != [] {
      assert levels == [levels[0]] + levels[1..];
      SortedStays(levels[1..]);
      InsertFirst(levels[0], levels[1..]);
    }
  }

  /** The keys follow from the ids. */
  lemma SameNamesSameOrder(a: seq<Level>, b: seq<Level>)
    requires |a| == |b| && Names(a) == Names(b) && Ascending(LevelLeq(), b)
    requires forall i :: 0 <= i < |a| ==> IsFm(a[i]) && IsFm(b[i])
    ensures Ascending(LevelLeq(), a)
  {
    hide KeyLeq;
    var leq := LevelLeq();
    forall i | 0 <= i < |a| ensures KeyOf(a[i]) == KeyOf(b[i]) {
      assert Names(a)[i] == Names(b)[i];
    }
    forall i, j | 0 <= i < j < |a| ensures leq(a[i], a[j]) {
      assert leq(b[i], b[j]);
    }
  }

  lemma SortedMembers(levels: seq<Level>)
    requires forall i :: 0 <= i < |levels| ==> IsFm(levels[i])
    ensures var s := SortBy(LevelLeq(), levels);
            |s| == |levels| && forall i :: 0 <= i < |s| ==> IsFm(s[i])
  {
    hide IsFm, SortBy;
    var s := SortBy(LevelLeq(), levels);
    assert |multiset(s)| == |s| && |multiset(levels)| == |levels|;
    forall i | 0 <= i < |s| ensures IsFm(s[i]) {
      assert s[i] in multiset(s);
      assert s[i] in levels;
    }
  }

  /** Numbers ascend and artifacts grow along every pair of FM levels in the document. */
  ghost predicate InNumericOrder(fm: seq<Level>) {
    forall i, j :: 0 <= i < j < |fm| && IsFm(fm[i]) && IsFm(fm[j]) ==>
      FmNumber(fm[i].id.value) <= FmNumber(fm[j].id.value)
  }

  lemma AscendingIsNumeric(fm: seq<Level>)
    requires forall i :: 0 <= i < |fm| ==> IsFm(fm[i])
    ensures Ascending(LevelLeq(), fm) <==> InNumericOrder(fm)
  {
    hide KeyLeq, Significant, DecimalValue;
    var leq := LevelLeq();
    forall i, j | 0 <= i < j < |fm|
      ensures leq(fm[i], fm[j]) <==> FmNumber(fm[i].id.value) <= FmNumber(fm[j].id.value)
    {
      KeyOrderIsNumeric(fm[i].id.value[2..], fm[j].id.value[2..]);
    }
  }

  /**
   The check passes exactly when text ids are unique, the FM numbers ascend through the document, and the required
   artifacts grow along every pair of FM levels.
   */
  lemma CheckLevelsExact(levels: seq<Level>)
    ensures LevelFailures(levels) == [] <==>
            UniqueIds(levels) && InNumericOrder(FmLevelsOf(levels)) && Grows(FmLevelsOf(levels))
  {
    hide SortBy, IsFm, KeyLeq, DuplicateIds, Names, NeighbourFailures, UniqueIds, Grows, InNumericOrder;
    var fm := FmLevelsOf(levels);
    var ordered := SortBy(LevelLeq(), fm);
    DuplicatesExact(levels);
    AscendingIsNumeric(fm);
    NeighboursDecide(ordered);
    SortedMembers(fm);
    LevelOrder();
    SortByAscending(LevelLeq(), fm);
    if Names(fm) == Names(ordered) {
      SameNamesSameOrder(fm, ordered);
    }
    if Ascending(LevelLeq(), fm) {
      SortedStays(fm);
    }
  }

  // ---- Ids and names in a document ----------------------------------------------------------------------------

  predicate OccursAt(text: string, part: string, i: nat) {
    i + |part| <= |text| && text[i..i + |part|] == part
  }

  /** `text.find(part, start)`. */
  function FindFrom(text: string, part: string, start: nat): (r: Option<nat>)
    ensures r.Some? ==> start <= r.value && OccursAt(text, part, r.value)
    ensures r.Some? ==> forall i :: start <= i < r.value ==> !OccursAt(text, part, i)
    ensures r.None? ==> forall i :: start <= i ==> !OccursAt(text, part, i)
    decreases |text| - start
  {
    if start > |text| then None
    else if OccursAt(text, part, start) then Some(start)
    else FindFrom(text, part, start + 1)
  }

  /** The id at `i` and the name at `j`, within the window. */
  predicate Paired(text: string, id: string, name: string, window: nat, i: nat, j: nat) {
    OccursAt(text, id, i) && OccursAt(text, name, j) && i - window <= j && j + |name| <= i + |id| + window
  }

  /** `_id_name_paired`: some occurrence of the id has the name within `window` characters on either side. */
  method IdNamePaired(text: string, id: string, name: string, window: nat) returns (paired: bool)
    ensures paired <==> exists i: nat, j: nat :: Paired(text, id, name, window, i, j)
  {
    hide OccursAt, Paired;
    var start := 0;
    while true
      invariant forall i: nat, j: nat :: i < start ==> !Paired(text, id, name, window, i, j)
      decreases |text| + 1 - start
    {
      var idx := FindFrom(text, id, start);
      if idx.None? {
        NoneLeft(text, id, name, window, start);
        return false;
      }
      OccursInside(text, id, idx.value);
      var from := if idx.value < window then 0 else idx.value - window;
      var to := if idx.value + |id| + window > |text| then |text| else idx.value + |id| + window;
      var found := FindFrom(text[from..to], name, 0);
      if found.Some? {
        InWindow(text, id, name, window, idx.value, found.value);
        return true;
      }
      NotInWindow(text, id, name, window, start, idx.value);
      start := idx.value + 1;
    }
    return false;
  }

  lemma OccursInside(text: string, part: string, i: nat)
    requires OccursAt(text, part, i)
    ensures i + |part| <= |text|
  {
  }

  function From(i: nat, window: nat): nat {
    if i < window then 0 else i - window
  }

  function To(text: string, id: string, i: nat, window: nat): (to: nat)
    requires i + |id| <= |text|
    ensures From(i, window) <= to <= |text|
  {
    if i + |id| + window > |text| then |text| else i + |id| + window
  }

  lemma SliceOccurs(text: string, part: string, from: nat, to: nat, k: nat)
    requires from <= to <= |text|
    ensures OccursAt(text[from..to], part, k) <==> from + k + |part| <= to && OccursAt(text, part, from + k)
  {
    if from + k + |part| <= to {
      var window := text[from..to];
      var a, b := window[k..k + |part|], text[from + k..from + k + |part|];
      assert forall m :: 0 <= m < |part| ==> a[m] == window[k + m] == text[from + k + m] == b[m];
      assert a == b;
    }
  }

  lemma InWindow(text: string, id: string, name: string, window: nat, i: nat, k: nat)
    requires OccursAt(text, id, i) && OccursAt(text[From(i, window)..To(text, id, i, window)], name, k)
    ensures Paired(text, id, name, window, i, From(i, window) + k)
  {
    SliceOccurs(text, name, From(i, window), To(text, id, i, window), k);
  }

  lemma NotInWindow(text: string, id: string, name: string, window: nat, start: nat, i: nat)
    requires i + |id| <= |text| && start <= i
    requires forall k :: 0 <= k ==> !OccursAt(text[From(i, window)..To(text, id, i, window)], name, k)
    requires forall k :: start <= k < i ==> !OccursAt(text, id, k)
    requires forall m: nat, j: nat :: m < start ==> !Paired(text, id, name, window, m, j)
    ensures forall m: nat, j: nat :: m <= i ==> !Paired(text, id, name, window, m, j)
  {
    hide OccursAt;
    forall m: nat, j: nat | m <= i ensures !Paired(text, id, name, window, m, j) {
      if m == i && Paired(text, id, name, window, i, j) {
        OccursInside(text, name, j);
        SliceOccurs(text, name, From(i, window), To(text, id, i, window), j - From(i, window));
      }
    }
  }

  lemma NoneLeft(text: string, id: string, name: string, window: nat, start: nat)
    requires forall k :: start <= k ==> !OccursAt(text, id, k)
    requires forall m: nat, j: nat :: m < start ==> !Paired(text, id, name, window, m, j)
    ensures forall m: nat, j: nat :: !Paired(text, id, name, window, m, j)
  {
    hide OccursAt;
    forall m: nat, j: nat ensures !Paired(text, id, name, window, m, j) {
    }
  }
}
