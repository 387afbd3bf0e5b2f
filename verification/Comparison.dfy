/**
 The related-work comparison: the Pareto frontier of the systems over a set of axes, the weighted totals and the
 ranking by total. A missing or null cell of the score table is None.
 */
module Comparison {
  import opened Options
  import opened Ordering

  type Cell = (string, string)
  type Scores = map<Cell, Option<int>>

  /** `scores.get((system, axis))`. */
  function Score(scores: Scores, system: string, axis: string): Option<int> {
    if (system, axis) in scores then scores[(system, axis)] else None
  }

  predicate RowComplete(scores: Scores, system: string, axes: seq<string>) {
    forall i :: 0 <= i < |axes| ==> Score(scores, system, axes[i]).Some?
  }

  /** The challenger is at least as good on every axis and better on one; both rows must be complete. */
  predicate Dominates(scores: Scores, axes: seq<string>, challenger: string, candidate: string) {
    && challenger != candidate
    && RowComplete(scores, candidate, axes) && RowComplete(scores, challenger, axes)
    && (forall i :: 0 <= i < |axes| ==>
          Score(scores, challenger, axes[i]).value >= Score(scores, candidate, axes[i]).value)
    && (exists i :: 0 <= i < |axes| &&
          Score(scores, challenger, axes[i]).value > Score(scores, candidate, axes[i]).value)
  }

  predicate IsDominated(scores: Scores, systems: seq<string>, axes: seq<string>, candidate: string) {
    exists i :: 0 <= i < |systems| && Dominates(scores, axes, systems[i], candidate)
  }

  /** The candidates that nothing dominates, in list order. */
  function Undominated(scores: Scores, systems: seq<string>, axes: seq<string>, candidates: seq<string>): seq<string> {
    if candidates == [] then [] else
      var k := |candidates| - 1;
      Undominated(scores, systems, axes, candidates[..k])
      + if IsDominated(scores, systems, axes, candidates[k]) then [] else [candidates[k]]
  }

  function Frontier(scores: Scores, systems: seq<string>, axes: seq<string>): seq<string> {
    SortBy(StringLeq, Undominated(scores, systems, axes, systems))
  }

  /** The two score rows, and the comparison of one pair in the inner loop. */
  method CompareRows(scores: Scores, axes: seq<string>, candidate: string, challenger: string)
    returns (dominates: bool)
    ensures challenger != candidate ==> dominates == Dominates(scores, axes, challenger, candidate)
  {
    var missing, allAtLeast, anyBetter := false, true, false;
    for i := 0 to |axes|
      invariant missing <==>
                (exists j :: 0 <= j < i &&
                   (Score(scores, candidate, axes[j]).None? || Score(scores, challenger, axes[j]).None?))
      invariant !missing ==>
                  && (allAtLeast <==> forall j :: 0 <= j < i ==>
                        Score(scores, challenger, axes[j]).value >= Score(scores, candidate, axes[j]).value)
                  && (anyBetter <==>
                        (exists j :: 0 <= j < i && Score(scores, challenger, axes[j]).value
                                                   > Score(scores, candidate, axes[j]).value))
    {
      var left, right := Score(scores, candidate, axes[i]), Score(scores, challenger, axes[i]);
      if left.None? || right.None? {
        missing := true;
      } else if !missing {
        allAtLeast := allAtLeast && right.value >= left.value;
        anyBetter := anyBetter || right.value > left.value;
      }
    }
    dominates := !missing && allAtLeast && anyBetter;
  }

  lemma NotBySelf(scores: Scores, axes: seq<string>, system: string)
    ensures !Dominates(scores, axes, system, system)
  {
  }

  /** `_pareto_frontier`. */
  method ParetoFrontier(systems: seq<string>, axes: seq<string>, scores: Scores) returns (frontier: seq<string>)
    ensures frontier == Frontier(scores, systems, axes)
  {
    hide Dominates, RowComplete, Score, StringLeq, SortBy;
    frontier := [];
    for c := 0 to |systems|
      invariant frontier == Undominated(scores, systems, axes, systems[..c])
    {
      assert systems[..c + 1][..c] == systems[..c];
      var candidate := systems[c];
      var dominated := false;
      var k := 0;
      while k < |systems| && !dominated
        invariant k <= |systems|
        invariant dominated ==> IsDominated(scores, systems, axes, candidate)
        invariant !dominated ==> forall j :: 0 <= j < k ==> !Dominates(scores, axes, systems[j], candidate)
        decreases |systems| - k
      {
        NotBySelf(scores, axes, candidate);
        if systems[k] != candidate {
          dominated := CompareRows(scores, axes, candidate, systems[k]);
        }
        k := k + 1;
      }
      if !dominated {
        frontier := frontier + [candidate];
      }
    }
    assert systems[..|systems|] == systems;
    frontier := SortBy(StringLeq, frontier);
  }

  // ---- Dominance is a strict order with finite height ---------------------------------------------------------

  lemma DominanceStrict(scores: Scores, axes: seq<string>, a: string, b: string, c: string)
    ensures !Dominates(scores, axes, a, a)
    ensures Dominates(scores, axes, a, b) ==> !Dominates(scores, axes, b, a)
    ensures Dominates(scores, axes, a, b) && Dominates(scores, axes, b, c) ==> Dominates(scores, axes, a, c)
  {
    if Dominates(scores, axes, a, b) && Dominates(scores, axes, b, c) {
      var i :| 0 <= i < |axes| && Score(scores, a, axes[i]).value > Score(scores, b, axes[i]).value;
      assert Score(scores, a, axes[i]).value > Score(scores, c, axes[i]).value;
    }
  }

  /** The sum of a row. */
  function RowSum(scores: Scores, system: string, axes: seq<string>): int {
    if axes == [] then 0 else
      var k := |axes| - 1;
      RowSum(scores, system, axes[..k])
      + if Score(scores, system, axes[k]).Some? then Score(scores, system, axes[k]).value else 0
  }

  lemma {:induction false} SumMonotone(scores: Scores, axes: seq<string>, a: string, b: string)
    requires RowComplete(scores, a, axes) && RowComplete(scores, b, axes)
    requires forall i :: 0 <= i < |axes| ==> Score(scores, a, axes[i]).value >= Score(scores, b, axes[i]).value
    ensures RowSum(scores, a, axes) >= RowSum(scores, b, axes)
    ensures (exists i :: 0 <= i < |axes| && Score(scores, a, axes[i]).value > Score(scores, b, axes[i]).value) ==>
              RowSum(scores, a, axes) > RowSum(scores, b, axes)
  {
    if axes != [] {
      var k := |axes| - 1;
      assert forall i :: 0 <= i < k ==> axes[..k][i] == axes[i];
      SumMonotone(scores, axes[..k], a, b);
      if i :| 0 <= i < |axes| && Score(scores, a, axes[i]).value > Score(scores, b, axes[i]).value {
        if i < k {
          assert axes[..k][i] == axes[i];
        }
      }
    }
  }

  /** Among finitely many systems one has the largest row sum. */
  lemma {:induction false} LargestSum(scores: Scores, systems: seq<string>, axes: seq<string>) returns (top: int)
    ensures forall i :: 0 <= i < |systems| ==> RowSum(scores, systems[i], axes) <= top
  {
    if systems == [] {
      return 0;
    }
    var k := |systems| - 1;
    top := LargestSum(scores, systems[..k], axes);
    assert forall i :: 0 <= i < k ==> systems[..k][i] == systems[i];
    if top < RowSum(scores, systems[k], axes) {
      top := RowSum(scores, systems[k], axes);
    }
  }

  /** Climbing from a dominator ends at a dominator that nothing dominates. */
  lemma {:induction false} Climb(scores: Scores, systems: seq<string>, axes: seq<string>, candidate: string,
                               start: string,
                                 top: int)
    returns (winner: string)
    requires start in systems && Dominates(scores, axes, start, candidate)
    requires forall i :: 0 <= i < |systems| ==> RowSum(scores, systems[i], axes) <= top
    ensures winner in systems && Dominates(scores, axes, winner, candidate)
    ensures !IsDominated(scores, systems, axes, winner)
    decreases top - RowSum(scores, start, axes)
  {
    if !IsDominated(scores, systems, axes, start) {
      return start;
    }
    var i :| 0 <= i < |systems| && Dominates(scores, axes, systems[i], start);
    SumMonotone(scores, axes, systems[i], start);
    DominanceStrict(scores, axes, systems[i], start, candidate);
    winner := Climb(scores, systems, axes, candidate, systems[i], top);
  }

  lemma {:induction false} UndominatedMembers(scores: Scores, systems: seq<string>, axes: seq<string>,
                                              candidates: seq<string>, s: string)
    ensures s in Undominated(scores, systems, axes, candidates) <==>
            s in candidates && !IsDominated(scores, systems, axes, s)
  {
    if candidates != [] {
      var k := |candidates| - 1;
      UndominatedMembers(scores, systems, axes, candidates[..k], s);
      assert s in candidates <==> s in candidates[..k] || s == candidates[k];
    }
  }

  lemma SortKeepsMembers(xs: seq<string>, s: string)
    ensures s in SortBy(StringLeq, xs) <==> s in xs
  {
    assert s in SortBy(StringLeq, xs) <==> s in multiset(SortBy(StringLeq, xs));
    assert s in xs <==> s in multiset(xs);
  }

  lemma StringOrderTotal()
    ensures TotalOrder(StringLeq) && Antisymmetric(StringLeq)
  {
    forall a, b ensures StringLeq(a, b) || StringLeq(b, a) {
      StringLeqTotal(a, b);
    }
    forall a, b, c | StringLeq(a, b) && StringLeq(b, c) ensures StringLeq(a, c) {
      StringLeqTransitive(a, b, c);
    }
    forall a, b | StringLeq(a, b) && StringLeq(b, a) ensures a == b {
      StringLeqAntisymmetric(a, b);
    }
  }

  /**
   For any score table: the frontier is exactly the systems that nothing dominates, in ascending order; it contains a
   dominator of every system that it leaves out, so it is not empty when there are systems.
   */
  lemma FrontierComplete(scores: Scores, systems: seq<string>, axes: seq<string>)
    ensures forall s :: s in Frontier(scores, systems, axes) <==>
              s in systems && !IsDominated(scores, systems, axes, s)
    ensures Ascending(StringLeq, Frontier(scores, systems, axes))
    ensures forall s :: s in systems && s !in Frontier(scores, systems, axes) ==>
              exists w :: w in Frontier(scores, systems, axes) && Dominates(scores, axes, w, s)
    ensures systems != [] ==> Frontier(scores, systems, axes) != []
  {
    var frontier := Frontier(scores, systems, axes);
    forall s ensures s in frontier <==> s in systems && !IsDominated(scores, systems, axes, s) {
      UndominatedMembers(scores, systems, axes, systems, s);
      SortKeepsMembers(Undominated(scores, systems, axes, systems), s);
    }
    StringOrderTotal();
    SortByAscending(StringLeq, Undominated(scores, systems, axes, systems));
    forall s | s in systems && s !in frontier ensures exists w :: w in frontier && Dominates(scores, axes, w, s) {
      var i :| 0 <= i < |systems| && Dominates(scores, axes, systems[i], s);
      var top := LargestSum(scores, systems, axes);
      var w := Climb(scores, systems, axes, s, systems[i], top);
      assert w in frontier;
    }
    if systems != [] && systems[0] !in frontier {
      var w :| w in frontier && Dominates(scores, axes, w, systems[0]);
    }
  }

  /** A system with a missing cell is always kept. */
  lemma MissingCellKept(scores: Scores, systems: seq<string>, axes: seq<string>, s: string)
    requires s in systems && !RowComplete(scores, s, axes)
    ensures s in Frontier(scores, systems, axes)
  {
    FrontierComplete(scores, systems, axes);
  }

  // ---- Weighted totals and the ranking ------------------------------------------------------------------------

  /** A weight as it stands in the profile: an integer, a boolean (Python counts it as one), or something else. */
  datatype Weight = Whole(n: int) | Truth(b: bool) | NotANumber

  function WeightValue(w: Weight): int {
    match w
    case Whole(n) => n
    case Truth(b) => if b then 1 else 0
    case NotANumber => 0
  }

  /** The items of the weights dict, in order. */
  type Weights = seq<(string, Weight)>

  function Total(scores: Scores, system: string, weights: Weights): int {
    if weights == [] then 0 else
      var k := |weights| - 1;
      var score := Score(scores, system, weights[k].0);
      Total(scores, system, weights[..k]) + if score.Some? then score.value * WeightValue(weights[k].1) else 0
  }

  function Totals(scores: Scores, systems: seq<string>, weights: Weights): (r: map<string, int>)
    ensures forall s :: s in r <==> s in systems
    ensures forall s :: s in r ==> r[s] == Total(scores, s, weights)
  {
    map s | s in systems :: Total(scores, s, weights)
  }

  /** `_weighted_totals`. */
  method WeightedTotals(systems: seq<string>, weights: Weights, scores: Scores) returns (totals: map<string, int>)
    ensures totals == Totals(scores, systems, weights)
  {
    totals := map[];
    for k := 0 to |systems|
      invariant totals == Totals(scores, systems[..k], weights)
    {
      var total := 0;
      for j := 0 to |weights|
        invariant total == Total(scores, systems[k], weights[..j])
      {
        assert weights[..j + 1][..j] == weights[..j];
        var weight := WeightValue(weights[j].1);
        var score := Score(scores, systems[k], weights[j].0);
        if score.Some? {
          total := total + score.value * weight;
        }
      }
      assert weights[..|weights|] == weights;
      totals := totals[systems[k] := total];
      assert forall s :: s in systems[..k + 1] <==> s in systems[..k] || s == systems[k];
    }
    assert systems[..|systems|] == systems;
  }

  /** The sort key `(-total, id)`. */
  predicate RankLeq(totals: map<string, int>, a: string, b: string) {
    var ta, tb := if a in totals then totals[a] else 0, if b in totals then totals[b] else 0;
    ta > tb || (ta == tb && StringLeq(a, b))
  }

  /** `_ranking`: the keys of the totals, sorted by total descending, then by id. */
  function Ranking(totals: map<string, int>): seq<string> {
    SortBy((a, b) => RankLeq(totals, a, b), SortedSet(totals.Keys))
  }

  lemma RankOrder(totals: map<string, int>)
    ensures TotalOrder((a, b) => RankLeq(totals, a, b)) && Antisymmetric((a, b) => RankLeq(totals, a, b))
  {
    forall a, b ensures RankLeq(totals, a, b) || RankLeq(totals, b, a) {
      StringLeqTotal(a, b);
    }
    forall a, b, c | RankLeq(totals, a, b) && RankLeq(totals, b, c) ensures RankLeq(totals, a, c) {
      if StringLeq(a, b) && StringLeq(b, c) {
        StringLeqTransitive(a, b, c);
      }
    }
    forall a, b | RankLeq(totals, a, b) && RankLeq(totals, b, a) ensures a == b {
      StringLeqAntisymmetric(a, b);
    }
  }

  /** A listing of the systems, each once, by total descending and then by id. */
  ghost predicate IsRanking(totals: map<string, int>, r: seq<string>) {
    && multiset(r) == multiset(totals.Keys)
    && forall i, j :: 0 <= i < j < |r| ==> RankLeq(totals, r[i], r[j])
  }

  lemma {:induction false} SortedSetMultiset(s: set<string>)
    ensures multiset(SortedSet(s)) == multiset(s)
  {
    if s != {} {
      var m := Least(s);
      SortedSetMultiset(s - {m});
      assert SortedSet(s) == [m] + SortedSet(s - {m});
      assert s == {m} + (s - {m});
    }
  }

  /** The ranking is the one and only such listing. */
  lemma RankingUnique(totals: map<string, int>, r: seq<string>)
    ensures IsRanking(totals, Ranking(totals))
    ensures IsRanking(totals, r) ==> r == Ranking(totals)
  {
    var leq := (a, b) => RankLeq(totals, a, b);
    RankOrder(totals);
    SortByAscending(leq, SortedSet(totals.Keys));
    SortedSetMultiset(totals.Keys);
    var ranking := Ranking(totals);
    assert Ascending(leq, ranking);
    forall i, j | 0 <= i < j < |ranking| ensures RankLeq(totals, ranking[i], ranking[j]) {
      assert leq(ranking[i], ranking[j]);
    }
    if IsRanking(totals, r) {
      AscendingUnique(leq, r, ranking);
    }
  }

  function Scaled(weights: Weights, factor: int): (r: Weights)
    ensures |r| == |weights|
    ensures forall i :: 0 <= i < |r| ==> r[i] == (weights[i].0, Whole(factor * WeightValue(weights[i].1)))
  {
    if weights == [] then [] else
      var k := |weights| - 1;
      Scaled(weights[..k], factor) + [(weights[k].0, Whole(factor * WeightValue(weights[k].1)))]
  }

  lemma ScaleTerm(score: int, factor: int, w: int, rest: int)
    ensures factor * rest + score * (factor * w) == factor * (rest + score * w)
  {
  }

  /** The last weight adds its term to the total of the others. */
  lemma LastTerm(scores: Scores, system: string, weights: Weights, score: int)
    requires weights != []
    requires Score(scores, system, weights[|weights| - 1].0) == Some(score)
    ensures var k := |weights| - 1;
            Total(scores, system, weights) == Total(scores, system, weights[..k]) + score * WeightValue(weights[k].1)
  {
    hide Score, WeightValue;
  }

  lemma NoTerm(scores: Scores, system: string, weights: Weights)
    requires weights != []
    requires Score(scores, system, weights[|weights| - 1].0) == None
    ensures Total(scores, system, weights) == Total(scores, system, weights[..|weights| - 1])
  {
    hide Score, WeightValue;
  }

  lemma {:induction false} TotalScales(scores: Scores, system: string, weights: Weights, factor: int)
    ensures Total(scores, system, Scaled(weights, factor)) == factor * Total(scores, system, weights)
  {
    hide Score, Total, Scaled;
    if weights == [] {
      EmptyTotal(scores, system, factor);
    } else {
      var k := |weights| - 1;
      var w := WeightValue(weights[k].1);
      TotalScales(scores, system, weights[..k], factor);
      assert Scaled(weights, factor)[..k] == Scaled(weights[..k], factor);
      var score := Score(scores, system, weights[k].0);
      if score.Some? {
        LastTerm(scores, system, weights, score.value);
        LastTerm(scores, system, Scaled(weights, factor), score.value);
        ScaleTerm(score.value, factor, w, Total(scores, system, weights[..k]));
      } else {
        NoTerm(scores, system, weights);
        NoTerm(scores, system, Scaled(weights, factor));
      }
    }
  }

  lemma EmptyTotal(scores: Scores, system: string, factor: int)
    ensures Total(scores, system, Scaled([], factor)) == 0 == factor * Total(scores, system, [])
  {
  }

  /** Scaling all weights by one positive factor leaves the ranking unchanged. */
  lemma RankingScaleInvariant(scores: Scores, systems: seq<string>, weights: Weights, factor: int)
    requires factor > 0
    ensures Ranking(Totals(scores, systems, Scaled(weights, factor))) == Ranking(Totals(scores, systems, weights))
  {
    var totals, scaled := Totals(scores, systems, weights), Totals(scores, systems, Scaled(weights, factor));
    RankingUnique(totals, []);
    assert scaled.Keys == totals.Keys;
    var r := Ranking(totals);
    forall s | s in totals ensures scaled[s] == factor * totals[s] {
      TotalScales(scores, s, weights, factor);
    }
    forall i, j | 0 <= i < j < |r| ensures RankLeq(scaled, r[i], r[j]) {
      assert RankLeq(totals, r[i], r[j]);
      assert r[i] in multiset(r) && r[j] in multiset(r);
      ScaleOrder(totals[r[i]], totals[r[j]], factor);
    }
    RankingUnique(scaled, r);
  }

  lemma ScaleOrder(a: int, b: int, factor: int)
    requires factor > 0
    ensures a > b ==> factor * a > factor * b
    ensures a == b ==> factor * a == factor * b
  {
    if a > b {
      assert factor * (a - b) > 0;
    }
  }

  // ---- Winners and the frontier -------------------------------------------------------------------------------

  function AxesOf(weights: Weights): (r: seq<string>)
    ensures |r| == |weights| && forall i :: 0 <= i < |r| ==> r[i] == weights[i].0
  {
    if weights == [] then [] else AxesOf(weights[..|weights| - 1]) + [weights[|weights| - 1].0]
  }

  predicate NonNegative(weights: Weights) {
    forall i :: 0 <= i < |weights| ==> WeightValue(weights[i].1) >= 0
  }

  predicate AllPositive(weights: Weights) {
    forall i :: 0 <= i < |weights| ==> WeightValue(weights[i].1) > 0
  }

  lemma TermMonotone(a: int, b: int, w: int)
    requires w >= 0 && a >= b
    ensures a * w >= b * w
    ensures w > 0 && a > b ==> a * w > b * w
  {
    ProductSign(a - b, w);
    assert (a - b) * w == a * w - b * w;
  }

  lemma ProductSign(x: int, y: int)
    requires x >= 0 && y >= 0
    ensures x * y >= 0
    ensures x > 0 && y > 0 ==> x * y > 0
  {
  }

  /** A dominator has at least the total, and a larger one when every weight counts. */
  lemma {:induction false} DominatorTotal(scores: Scores, weights: Weights, a: string, b: string)
    requires NonNegative(weights)
    requires RowComplete(scores, a, AxesOf(weights)) && RowComplete(scores, b, AxesOf(weights))
    requires forall i :: 0 <= i < |weights| ==>
               Score(scores, a, AxesOf(weights)[i]).value >= Score(scores, b, AxesOf(weights)[i]).value
    ensures Total(scores, a, weights) >= Total(scores, b, weights)
    ensures AllPositive(weights) &&
            (exists i :: 0 <= i < |weights| &&
               Score(scores, a, AxesOf(weights)[i]).value > Score(scores, b, AxesOf(weights)[i]).value) ==>
              Total(scores, a, weights) > Total(scores, b, weights)
  {
    if weights != [] {
      var k := |weights| - 1;
      var axes, init := AxesOf(weights), weights[..k];
      assert AxesOf(init) == axes[..k];
      assert forall i :: 0 <= i < k ==> init[i] == weights[i] && AxesOf(init)[i] == axes[i];
      DominatorTotal(scores, init, a, b);
      assert axes[k] == weights[k].0;
      TermMonotone(Score(scores, a, axes[k]).value, Score(scores, b, axes[k]).value, WeightValue(weights[k].1));
      if AllPositive(weights) {
        if i :| 0 <= i < |weights| && Score(scores, a, axes[i]).value > Score(scores, b, axes[i]).value {
          if i < k {
            assert Score(scores, a, AxesOf(init)[i]).value > Score(scores, b, AxesOf(init)[i]).value;
          }
        }
      }
    }
  }

  lemma RankingMembers(totals: map<string, int>, s: string)
    ensures s in Ranking(totals) <==> s in totals
  {
    RankingUnique(totals, []);
    assert s in Ranking(totals) <==> s in multiset(Ranking(totals));
  }

  lemma FirstHasTopTotal(totals: map<string, int>, s: string)
    requires s in totals
    ensures Ranking(totals) != [] && Ranking(totals)[0] in totals && totals[Ranking(totals)[0]] >= totals[s]
  {
    hide Ranking, StringLeq;
    RankingUnique(totals, []);
    RankingMembers(totals, s);
    var r := Ranking(totals);
    var i :| 0 <= i < |r| && r[i] == s;
    RankingMembers(totals, r[0]);
    if i > 0 {
      assert RankLeq(totals, r[0], r[i]);
    }
  }

  /** Under all-positive weights the first-ranked system is on the frontier over the weighted axes. */
  lemma WinnerOnFrontier(scores: Scores, systems: seq<string>, weights: Weights)
    requires systems != [] && AllPositive(weights)
    ensures var ranking := Ranking(Totals(scores, systems, weights));
            ranking != [] && ranking[0] in Frontier(scores, systems, AxesOf(weights))
  {
    hide Frontier, Total, IsDominated, Dominates;
    var totals := Totals(scores, systems, weights);
    FirstHasTopTotal(totals, systems[0]);
    var w := Ranking(totals)[0];
    FrontierComplete(scores, systems, AxesOf(weights));
    if w !in Frontier(scores, systems, AxesOf(weights)) {
      var d :| d in Frontier(scores, systems, AxesOf(weights)) && Dominates(scores, AxesOf(weights), d, w);
      DominatorGains(scores, weights, d, w);
      FirstHasTopTotal(totals, d);
    }
  }

  lemma DominatorGains(scores: Scores, weights: Weights, a: string, b: string)
    requires NonNegative(weights) && Dominates(scores, AxesOf(weights), a, b)
    ensures Total(scores, a, weights) >= Total(scores, b, weights)
    ensures AllPositive(weights) ==> Total(scores, a, weights) > Total(scores, b, weights)
  {
    DominatorTotal(scores, weights, a, b);
  }

  /** Under non-negative weights some system of the top total is on the frontier. */
  lemma TopTotalOnFrontier(scores: Scores, systems: seq<string>, weights: Weights)
    requires systems != [] && NonNegative(weights)
    ensures exists w :: && w in Frontier(scores, systems, AxesOf(weights))
                        && forall s :: s in systems ==> Total(scores, w, weights) >= Total(scores, s, weights)
  {
    hide Frontier, Total, IsDominated, Dominates;
    var totals := Totals(scores, systems, weights);
    FirstHasTopTotal(totals, systems[0]);
    var first := Ranking(totals)[0];
    forall s | s in systems ensures Total(scores, first, weights) >= Total(scores, s, weights) {
      FirstHasTopTotal(totals, s);
    }
    FrontierComplete(scores, systems, AxesOf(weights));
    if first !in Frontier(scores, systems, AxesOf(weights)) {
      var w :| w in Frontier(scores, systems, AxesOf(weights)) && Dominates(scores, AxesOf(weights), w, first);
      DominatorGains(scores, weights, w, first);
    }
  }

  // ---- Sensitivity to the weights -----------------------------------------------------------------------------

  /** A weight profile, with the systems of its scope stratum in ascending order. */
  datatype Profile = Profile(id: string, weights: Weights, systems: seq<string>)

  /** An entry of the profile list: without exactly the expected keys, or a profile with the results it records. */
  datatype RawProfile =
    | NoProfile
    | Recorded(profile: Profile, totals: map<string, int>, ranking: seq<string>)

  /** The sensitivity record; a flag that is no boolean is None. */
  datatype RawRecord =
    | NoRecord
    | Record(profileIds: seq<string>, winningSystems: seq<string>, reversal: Option<bool>)

  datatype ProfileFailure =
    | ProfileShape(index: nat)
    | WeightShape(index: nat)
    | WeightDrift(index: nat)
    | RecordShape
    | RecordDrift

  /** The weights cover exactly the axes with integers from 0 to 10, at least one of them not zero. */
  predicate Admitted(profile: Profile, axes: set<string>) {
    var weights := profile.weights;
    && (set i | 0 <= i < |weights| :: weights[i].0) == axes
    && (forall i :: 0 <= i < |weights| ==> !weights[i].1.NotANumber? && 0 <= WeightValue(weights[i].1) <= 10)
    && (exists i :: 0 <= i < |weights| && WeightValue(weights[i].1) != 0)
  }

  function RankingOf(scores: Scores, profile: Profile): seq<string> {
    Ranking(Totals(scores, profile.systems, profile.weights))
  }

  /** The first-ranked system of a profile, when it is admitted and its stratum is not empty. */
  function Winner(scores: Scores, raw: RawProfile, axes: set<string>): Option<string> {
    if raw.Recorded? && Admitted(raw.profile, axes) && RankingOf(scores, raw.profile) != [] then
      Some(RankingOf(scores, raw.profile)[0])
    else None
  }

  function WinnerSet(scores: Scores, profiles: seq<RawProfile>, axes: set<string>): set<string> {
    if profiles == [] then {} else
      var k := |profiles| - 1;
      var w := Winner(scores, profiles[k], axes);
      WinnerSet(scores, profiles[..k], axes) + if w.Some? then {w.value} else {}
  }

  /** What one entry of the profile list is reported for. */
  function EntryFailures(scores: Scores, raw: RawProfile, axes: set<string>, index: nat): seq<ProfileFailure> {
    if raw.NoProfile? then [ProfileShape(index)]
    else if !Admitted(raw.profile, axes) then [WeightShape(index)]
    else if raw.totals != Totals(scores, raw.profile.systems, raw.profile.weights) ||
            raw.ranking != RankingOf(scores, raw.profile) then [WeightDrift(index)]
    else []
  }

  function ProfileFailures(scores: Scores, profiles: seq<RawProfile>, axes: set<string>): seq<ProfileFailure> {
    if profiles == [] then [] else
      var k := |profiles| - 1;
      ProfileFailures(scores, profiles[..k], axes) + EntryFailures(scores, profiles[k], axes, k)
  }

  /** The ids of the entries with the expected keys, the others among them that fail later included. */
  function ProfileIds(profiles: seq<RawProfile>): seq<string> {
    if profiles == [] then [] else
      var k := |profiles| - 1;
      ProfileIds(profiles[..k]) + if profiles[k].Recorded? then [profiles[k].profile.id] else []
  }

  /** The profile loop of `_validate_analysis` and the comparison with the recorded sensitivity. */
  method Sensitivity(scores: Scores, profiles: seq<RawProfile>, axes: set<string>, record: RawRecord)
    returns (winners: seq<string>, reversal: bool, failures: seq<ProfileFailure>)
    ensures winners == SortedSet(WinnerSet(scores, profiles, axes))
    ensures reversal <==> |WinnerSet(scores, profiles, axes)| > 1
    ensures failures == ProfileFailures(scores, profiles, axes) +
                        (if record.NoRecord? then [RecordShape]
                         else if record == Record(ProfileIds(profiles), winners, Some(reversal)) then []
                         else [RecordDrift])
  {
    hide Winner, EntryFailures;
    failures := [];
    var firsts, ids := {}, [];
    for k := 0 to |profiles|
      invariant firsts == WinnerSet(scores, profiles[..k], axes)
      invariant ids == ProfileIds(profiles[..k])
      invariant failures == ProfileFailures(scores, profiles[..k], axes)
    {
      assert profiles[..k + 1][..k] == profiles[..k];
      if profiles[k].Recorded? {
        ids := ids + [profiles[k].profile.id];
      }
      var first, more := RankProfile(scores, profiles[k], axes, k);
      failures := failures + more;
      if first.Some? {
        firsts := firsts + {first.value};
      }
    }
    assert profiles[..|profiles|] == profiles;
    winners := SortedSet(firsts);
    reversal := |winners| > 1;
    if record.NoRecord? {
      failures := failures + [RecordShape];
    } else if record.profileIds != ids || record.winningSystems != winners || record.reversal != Some(reversal) {
      failures := failures + [RecordDrift];
    }
  }

  lemma EntryResult(scores: Scores, raw: RawProfile, axes: set<string>, index: nat)
    ensures raw.NoProfile? ==>
              Winner(scores, raw, axes) == None && EntryFailures(scores, raw, axes, index) == [ProfileShape(index)]
    ensures raw.Recorded? && !Admitted(raw.profile, axes) ==>
              Winner(scores, raw, axes) == None && EntryFailures(scores, raw, axes, index) == [WeightShape(index)]
    ensures raw.Recorded? && Admitted(raw.profile, axes) ==>
              var totals := Totals(scores, raw.profile.systems, raw.profile.weights);
              var ranking := Ranking(totals);
              && Winner(scores, raw, axes) == (if ranking == [] then None else Some(ranking[0]))
              && EntryFailures(scores, raw, axes, index) ==
                 (if raw.totals != totals || raw.ranking != ranking then [WeightDrift(index)] else [])
  {
    hide Admitted, Total, Totals, Ranking;
  }

  method RankProfile(scores: Scores, raw: RawProfile, axes: set<string>, index: nat)
    returns (first: Option<string>, failures: seq<ProfileFailure>)
    ensures first == Winner(scores, raw, axes)
    ensures failures == EntryFailures(scores, raw, axes, index)
  {
    hide Admitted, Total, Ranking, Winner, EntryFailures;
    EntryResult(scores, raw, axes, index);
    if raw.NoProfile? {
      return None, [ProfileShape(index)];
    }
    if !Admitted(raw.profile, axes) {
      return None, [WeightShape(index)];
    }
    var totals := WeightedTotals(raw.profile.systems, raw.profile.weights, scores);
    var ranking := Ranking(totals);
    failures := if raw.totals != totals || raw.ranking != ranking then [WeightDrift(index)] else [];
    first := if ranking == [] then None else Some(ranking[0]);
  }

  /** The entry records the total of each of its systems under admitted weights, and their one ranking. */
  ghost predicate Confirmed(scores: Scores, raw: RawProfile, axes: set<string>) {
    && raw.Recorded? && Admitted(raw.profile, axes)
    && (forall s :: s in raw.totals <==> s in raw.profile.systems)
    && (forall s :: s in raw.totals ==> raw.totals[s] == Total(scores, s, raw.profile.weights))
    && IsRanking(raw.totals, raw.ranking)
  }

  /** The recorded ranking puts the system first. */
  predicate RanksFirst(raw: RawProfile, system: string) {
    raw.Recorded? && raw.ranking != [] && raw.ranking[0] == system
  }

  lemma EntryExact(scores: Scores, raw: RawProfile, axes: set<string>, index: nat)
    ensures EntryFailures(scores, raw, axes, index) == [] <==> Confirmed(scores, raw, axes)
    ensures Confirmed(scores, raw, axes) ==> raw.ranking == RankingOf(scores, raw.profile)
  {
    hide Admitted, Ranking, IsRanking;
    if raw.Recorded? {
      var totals := Totals(scores, raw.profile.systems, raw.profile.weights);
      RankingUnique(totals, raw.ranking);
      if Confirmed(scores, raw, axes) {
        assert raw.totals.Keys == totals.Keys;
        assert raw.totals == totals;
      }
    }
  }

  lemma AllButLast(scores: Scores, profiles: seq<RawProfile>, axes: set<string>)
    requires profiles != []
    ensures var k := |profiles| - 1;
            (forall i :: 0 <= i < |profiles| ==> Confirmed(scores, profiles[i], axes)) <==>
            (forall i :: 0 <= i < k ==> Confirmed(scores, profiles[..k][i], axes)) &&
            Confirmed(scores, profiles[k], axes)
  {
    hide Confirmed;
    var k := |profiles| - 1;
    assert forall i :: 0 <= i < k ==> profiles[..k][i] == profiles[i];
  }

  lemma NoFailures(scores: Scores, axes: set<string>)
    ensures ProfileFailures(scores, [], axes) == []
  {
  }

  lemma LastFailures(scores: Scores, profiles: seq<RawProfile>, axes: set<string>)
    requires profiles != []
    ensures var k := |profiles| - 1;
            ProfileFailures(scores, profiles, axes) == [] <==>
            ProfileFailures(scores, profiles[..k], axes) == [] && EntryFailures(scores, profiles[k], axes, k) == []
  {
    hide EntryFailures;
  }

  lemma {:induction false} ProfilesExact(scores: Scores, profiles: seq<RawProfile>, axes: set<string>)
    ensures ProfileFailures(scores, profiles, axes) == [] <==>
            forall k :: 0 <= k < |profiles| ==> Confirmed(scores, profiles[k], axes)
  {
    hide EntryFailures, Confirmed, ProfileFailures;
    if profiles == [] {
      NoFailures(scores, axes);
    } else {
      var k := |profiles| - 1;
      ProfilesExact(scores, profiles[..k], axes);
      EntryExact(scores, profiles[k], axes, k);
      AllButLast(scores, profiles, axes);
      LastFailures(scores, profiles, axes);
    }
  }

  lemma {:induction false} IdsOfAll(profiles: seq<RawProfile>)
    requires forall k :: 0 <= k < |profiles| ==> profiles[k].Recorded?
    ensures |ProfileIds(profiles)| == |profiles|
    ensures forall k :: 0 <= k < |profiles| ==> ProfileIds(profiles)[k] == profiles[k].profile.id
  {
    if profiles != [] {
      IdsOfAll(profiles[..|profiles| - 1]);
    }
  }

  lemma {:induction false} WinnerSetMembers(scores: Scores, profiles: seq<RawProfile>, axes: set<string>, w: string)
    ensures w in WinnerSet(scores, profiles, axes) <==>
            exists i :: 0 <= i < |profiles| && Winner(scores, profiles[i], axes) == Some(w)
  {
    hide Winner;
    if profiles != [] {
      var k := |profiles| - 1;
      WinnerSetMembers(scores, profiles[..k], axes, w);
      if w in WinnerSet(scores, profiles[..k], axes) {
        var i :| 0 <= i < k && Winner(scores, profiles[..k][i], axes) == Some(w);
        assert Winner(scores, profiles[i], axes) == Some(w);
      }
      if i :| 0 <= i < |profiles| && Winner(scores, profiles[i], axes) == Some(w) {
        if i < k {
          assert profiles[..k][i] == profiles[i];
        }
      }
    }
  }

  lemma TwoMembers(s: set<string>)
    ensures |s| > 1 <==> exists a, b :: a in s && b in s && a != b
  {
    if |s| > 1 {
      var a :| a in s;
      assert |s - {a}| == |s| - 1;
      var b :| b in s - {a};
    }
    if a, b :| a in s && b in s && a != b {
      assert |s - {a}| == |s| - 1 && b in s - {a};
    }
  }

  /** A reversal is recorded exactly when two admitted profiles rank different systems first. */
  lemma ReversalMeaning(scores: Scores, profiles: seq<RawProfile>, axes: set<string>)
    ensures |WinnerSet(scores, profiles, axes)| > 1 <==>
            exists i, j :: && 0 <= i < |profiles| && 0 <= j < |profiles|
                           && Winner(scores, profiles[i], axes).Some? && Winner(scores, profiles[j], axes).Some?
                           && Winner(scores, profiles[i], axes) != Winner(scores, profiles[j], axes)
  {
    hide Winner;
    var winners := WinnerSet(scores, profiles, axes);
    TwoMembers(winners);
    if a, b :| a in winners && b in winners && a != b {
      WinnerSetMembers(scores, profiles, axes, a);
      WinnerSetMembers(scores, profiles, axes, b);
    }
    if i, j :| && 0 <= i < |profiles| && 0 <= j < |profiles|
               && Winner(scores, profiles[i], axes).Some? && Winner(scores, profiles[j], axes).Some?
               && Winner(scores, profiles[i], axes) != Winner(scores, profiles[j], axes) {
      WinnerSetMembers(scores, profiles, axes, Winner(scores, profiles[i], axes).value);
      WinnerSetMembers(scores, profiles, axes, Winner(scores, profiles[j], axes).value);
    }
  }

  lemma FirstsAreWinners(scores: Scores, profiles: seq<RawProfile>, axes: set<string>)
    requires forall k :: 0 <= k < |profiles| ==> Confirmed(scores, profiles[k], axes)
    ensures forall s :: s in WinnerSet(scores, profiles, axes) <==>
                        exists k :: 0 <= k < |profiles| && RanksFirst(profiles[k], s)
  {
    hide Admitted, RankingOf, IsRanking, WinnerSet;
    forall s ensures s in WinnerSet(scores, profiles, axes) <==>
                     exists k :: 0 <= k < |profiles| && RanksFirst(profiles[k], s)
    {
      WinnerSetMembers(scores, profiles, axes, s);
      forall k | 0 <= k < |profiles|
        ensures Winner(scores, profiles[k], axes) == Some(s) <==> RanksFirst(profiles[k], s)
      {
        EntryExact(scores, profiles[k], axes, k);
      }
    }
  }

  /** The record names the profiles in order, exactly the systems ranked first, ascending, and whether they differ. */
  ghost predicate RecordHonest(profiles: seq<RawProfile>, record: RawRecord) {
    && record.Record?
    && |record.profileIds| == |profiles|
    && (forall k :: 0 <= k < |profiles| ==>
          profiles[k].Recorded? && record.profileIds[k] == profiles[k].profile.id)
    && StrictlySorted(record.winningSystems)
    && (forall s :: s in record.winningSystems <==> exists k :: 0 <= k < |profiles| && RanksFirst(profiles[k], s))
    && record.reversal == Some(exists a, b :: a in record.winningSystems && b in record.winningSystems && a != b)
  }

  /** Nothing is reported exactly when every profile records its ranking and the record tells them apart honestly. */
  lemma SensitivityExact(scores: Scores, profiles: seq<RawProfile>, axes: set<string>, record: RawRecord)
    ensures var winners := WinnerSet(scores, profiles, axes);
            ProfileFailures(scores, profiles, axes) == [] &&
            record == Record(ProfileIds(profiles), SortedSet(winners), Some(|winners| > 1)) <==>
            (forall k :: 0 <= k < |profiles| ==> Confirmed(scores, profiles[k], axes)) && RecordHonest(profiles, record)
  {
    hide ProfileFailures, Confirmed, WinnerSet, SortedSet, RanksFirst, ProfileIds, StringLeq;
    ProfilesExact(scores, profiles, axes);
    if forall k :: 0 <= k < |profiles| ==> Confirmed(scores, profiles[k], axes) {
      AllRecorded(scores, profiles, axes);
      FirstsAreWinners(scores, profiles, axes);
      IdsOfAll(profiles);
      var winners := WinnerSet(scores, profiles, axes);
      TwoMembers(winners);
      if record.Record? && StrictlySorted(record.winningSystems) &&
         forall s :: s in record.winningSystems <==> s in winners {
        SortedUnique(record.winningSystems, SortedSet(winners));
      }
    }
  }

  lemma AllRecorded(scores: Scores, profiles: seq<RawProfile>, axes: set<string>)
    requires forall k :: 0 <= k < |profiles| ==> Confirmed(scores, profiles[k], axes)
    ensures forall k :: 0 <= k < |profiles| ==> profiles[k].Recorded?
  {
    hide Admitted, IsRanking, Total;
  }

  lemma SortedHead(a: seq<string>, b: seq<string>)
    requires StrictlySorted(a) && StrictlySorted(b) && a != [] && b != []
    requires forall s :: s in a <==> s in b
    ensures a[0] == b[0]
  {
    hide StringLeq;
    assert a[0] in b && b[0] in a;
    var i :| 0 <= i < |b| && b[i] == a[0];
    var j :| 0 <= j < |a| && a[j] == b[0];
    if i > 0 && j > 0 {
      StringLeqAntisymmetric(a[0], b[0]);
    }
  }

  lemma BothEmpty(a: seq<string>, b: seq<string>)
    requires forall s :: s in a <==> s in b
    ensures a != [] ==> b != []
  {
    if a != [] {
      assert a[0] in a;
    }
  }

  /** One strictly ascending list has given members. */
  lemma {:induction false} SortedUnique(a: seq<string>, b: seq<string>)
    requires StrictlySorted(a) && StrictlySorted(b)
    requires forall s :: s in a <==> s in b
    ensures a == b
  {
    hide StringLeq;
    BothEmpty(a, b);
    BothEmpty(b, a);
    if a != [] {
      SortedHead(a, b);
      assert a == [a[0]] + a[1..] && b == [b[0]] + b[1..];
      HeadOnce(a);
      HeadOnce(b);
      forall s ensures s in a[1..] <==> s in b[1..] {
        assert s in a <==> s == a[0] || s in a[1..];
        assert s in b <==> s == b[0] || s in b[1..];
      }
      SortedUnique(a[1..], b[1..]);
    }
  }

  lemma HeadOnce(a: seq<string>)
    requires StrictlySorted(a) && a != []
    ensures a[0] !in a[1..]
  {
    hide StringLeq;
  }
}
