/** The orders that Python's `sorted` applies to text and to keyed records. */
module Ordering {

  /** `a <= b` for two Python strings: lexicographic by code point. */
  predicate StringLeq(a: string, b: string) {
    a == [] || (b != [] && (a[0] < b[0] || (a[0] == b[0] && StringLeq(a[1..], b[1..]))))
  }

  /** `a < b` for two Python strings. */
  predicate StringLess(a: string, b: string) {
    StringLeq(a, b) && a != b
  }

  lemma {:induction false} StringLeqReflexive(a: string)
    ensures StringLeq(a, a)
  {
    if a != [] {
      StringLeqReflexive(a[1..]);
    }
  }

  lemma {:induction false} StringLeqTotal(a: string, b: string)
    ensures StringLeq(a, b) || StringLeq(b, a)
  {
    if a != [] && b != [] {
      StringLeqTotal(a[1..], b[1..]);
    }
  }

  lemma {:induction false} StringLeqAntisymmetric(a: string, b: string)
    requires StringLeq(a, b) && StringLeq(b, a)
    ensures a == b
  {
    if a != [] && b != [] {
      StringLeqAntisymmetric(a[1..], b[1..]);
      assert a == [a[0]] + a[1..] && b == [b[0]] + b[1..];
    }
  }

  lemma {:induction false} StringLeqTransitive(a: string, b: string, c: string)
    requires StringLeq(a, b) && StringLeq(b, c)
    ensures StringLeq(a, c)
  {
    if a != [] && a[0] == b[0] == c[0] {
      StringLeqTransitive(a[1..], b[1..], c[1..]);
    }
  }

  lemma StringLessTransitive(a: string, b: string, c: string)
    requires StringLess(a, b) && StringLess(b, c)
    ensures StringLess(a, c)
  {
    StringLeqTransitive(a, b, c);
    if a == c {
      StringLeqAntisymmetric(a, b);
    }
  }

  ghost predicate StrictlySorted(xs: seq<string>) {
    forall i, j :: 0 <= i < j < |xs| ==> StringLess(xs[i], xs[j])
  }

  predicate IsLeast(m: string, s: set<string>) {
    m in s && forall x :: x in s ==> StringLeq(m, x)
  }

  lemma {:induction false} LeastExists(s: set<string>)
    requires s != {}
    ensures exists m :: IsLeast(m, s)
  {
    var x :| x in s;
    if s == {x} {
      StringLeqReflexive(x);
      assert IsLeast(x, s);
    } else {
      LeastExists(s - {x});
      var m :| IsLeast(m, s - {x});
      StringLeqTotal(x, m);
      StringLeqReflexive(x);
      if StringLeq(x, m) {
        forall y | y in s ensures StringLeq(x, y) {
          if y != x {
            StringLeqTransitive(x, m, y);
          }
        }
        assert IsLeast(x, s);
      } else {
        assert IsLeast(m, s);
      }
    }
  }

  function Least(s: set<string>): (m: string)
    requires s != {}
    ensures IsLeast(m, s)
  {
    LeastExists(s);
    assert forall m, n :: IsLeast(m, s) && IsLeast(n, s) ==> m == n by {
      forall m, n | IsLeast(m, s) && IsLeast(n, s) ensures m == n {
        StringLeqAntisymmetric(m, n);
      }
    }
    var m :| m in s && IsLeast(m, s);
    m
  }

  lemma LeastFirst(m: string, rest: seq<string>, s: set<string>)
    requires IsLeast(m, s) && StrictlySorted(rest)
    requires forall x :: x in rest <==> x in s - {m}
    ensures StrictlySorted([m] + rest)
    ensures forall x :: x in [m] + rest <==> x in s
  {
    hide StringLeq;
    forall i, j | 0 <= i < j < |[m] + rest| ensures StringLess(([m] + rest)[i], ([m] + rest)[j]) {
      var y := rest[j - 1];
      assert ([m] + rest)[j] == y && y in s - {m};
      if i > 0 {
        assert StringLess(rest[i - 1], rest[j - 1]);
      }
    }
  }

  /** `sorted(s)` for a set of strings. */
  function SortedSet(s: set<string>): (r: seq<string>)
    ensures |r| == |s|
    ensures forall x :: x in r <==> x in s
    ensures StrictlySorted(r)
  {
    if s == {} then [] else
      var m := Least(s);
      var rest := SortedSet(s - {m});
      LeastFirst(m, rest, s);
      [m] + rest
  }

  /** Stable insertion of `x` before the first element that it does not follow. */
  function Insert<T>(leq: (T, T) -> bool, x: T, xs: seq<T>): (r: seq<T>)
    ensures multiset(r) == multiset{x} + multiset(xs)
  {
    if xs == [] then [x]
    else if leq(x, xs[0]) then [x] + xs
    else
      assert xs == [xs[0]] + xs[1..];
      [xs[0]] + Insert(leq, x, xs[1..])
  }

  /** `sorted(xs, key=...)`: the stable sort of a list by the order `leq` of its keys. */
  function SortBy<T>(leq: (T, T) -> bool, xs: seq<T>): (r: seq<T>)
    ensures multiset(r) == multiset(xs)
  {
    if xs == [] then [] else
      assert xs == [xs[0]] + xs[1..];
      Insert(leq, xs[0], SortBy(leq, xs[1..]))
  }

  ghost predicate TotalOrder<T(!new)>(leq: (T, T) -> bool) {
    && (forall a, b :: leq(a, b) || leq(b, a))
    && (forall a, b, c :: leq(a, b) && leq(b, c) ==> leq(a, c))
  }

  ghost predicate Ascending<T>(leq: (T, T) -> bool, xs: seq<T>) {
    forall i, j :: 0 <= i < j < |xs| ==> leq(xs[i], xs[j])
  }

  lemma PrependAscending<T>(leq: (T, T) -> bool, head: T, rest: seq<T>)
    requires Ascending(leq, rest) && forall y :: y in rest ==> leq(head, y)
    ensures Ascending(leq, [head] + rest)
  {
  }

  lemma InsertMembers<T>(leq: (T, T) -> bool, x: T, xs: seq<T>, y: T)
    requires y in Insert(leq, x, xs)
    ensures y == x || y in xs
  {
    assert y in multiset(Insert(leq, x, xs));
    assert y in multiset{x} + multiset(xs);
  }

  lemma {:induction false} InsertAscending<T(!new)>(leq: (T, T) -> bool, x: T, xs: seq<T>)
    requires TotalOrder(leq) && Ascending(leq, xs)
    ensures Ascending(leq, Insert(leq, x, xs))
  {
    if xs != [] {
      forall y | y in xs[1..] ensures leq(xs[0], y) {
        var k :| 0 <= k < |xs[1..]| && xs[1..][k] == y;
        assert leq(xs[0], xs[k + 1]);
      }
      if leq(x, xs[0]) {
        forall y | y in xs ensures leq(x, y) {
          assert y == xs[0] || y in xs[1..];
        }
        PrependAscending(leq, x, xs);
      } else {
        InsertAscending(leq, x, xs[1..]);
        forall y | y in Insert(leq, x, xs[1..]) ensures leq(xs[0], y) {
          InsertMembers(leq, x, xs[1..], y);
        }
        PrependAscending(leq, xs[0], Insert(leq, x, xs[1..]));
      }
    }
  }

  lemma {:induction false} SortByAscending<T(!new)>(leq: (T, T) -> bool, xs: seq<T>)
    requires TotalOrder(leq)
    ensures Ascending(leq, SortBy(leq, xs))
  {
    if xs != [] {
      SortByAscending(leq, xs[1..]);
      InsertAscending(leq, xs[0], SortBy(leq, xs[1..]));
    }
  }

  ghost predicate Antisymmetric<T(!new)>(leq: (T, T) -> bool) {
    forall a, b :: leq(a, b) && leq(b, a) ==> a == b
  }

  lemma HeadIsLeast<T>(leq: (T, T) -> bool, xs: seq<T>, y: T)
    requires Ascending(leq, xs) && y in xs
    ensures y == xs[0] || leq(xs[0], y)
  {
    var m :| 0 <= m < |xs| && xs[m] == y;
  }

  lemma DropHead<T>(xs: seq<T>)
    requires xs != []
    ensures multiset(xs[1..]) == multiset(xs) - multiset{xs[0]}
  {
    assert xs == [xs[0]] + xs[1..];
  }

  /** Under an antisymmetric order a multiset has at most one ascending listing. */
  lemma {:induction false} AscendingUnique<T(!new)>(leq: (T, T) -> bool, xs: seq<T>, ys: seq<T>)
    requires Antisymmetric(leq)
    requires Ascending(leq, xs) && Ascending(leq, ys)
    requires multiset(xs) == multiset(ys)
    ensures xs == ys
  {
    assert |xs| == |multiset(xs)| == |multiset(ys)| == |ys|;
    if xs != [] {
      assert xs[0] in multiset(ys) && ys[0] in multiset(xs);
      HeadIsLeast(leq, xs, ys[0]);
      HeadIsLeast(leq, ys, xs[0]);
      DropHead(xs);
      DropHead(ys);
      AscendingUnique(leq, xs[1..], ys[1..]);
      assert xs == [xs[0]] + xs[1..] && ys == [ys[0]] + ys[1..];
    }
  }
}
