/** A stable sort, standing for the standard library's `sort_by`, and what sorting by one key
    does to an order that was already there. */
module StableSort {

  /** `x` goes before the first element it may precede, and so before those it ties with. */
  function Insert<T>(x: T, xs: seq<T>, le: (T, T) -> bool): seq<T> {
    if xs == [] || le(x, xs[0]) then [x] + xs else [xs[0]] + Insert(x, xs[1..], le)
  }

  function SortBy<T>(xs: seq<T>, le: (T, T) -> bool): seq<T> {
    if xs == [] then [] else Insert(xs[0], SortBy(xs[1..], le), le)
  }

  /** Every earlier element stands in the relation to every later one. */
  ghost predicate Ordered<T>(xs: seq<T>, before: (T, T) -> bool) {
    forall i, j | 0 <= i < j < |xs| :: before(xs[i], xs[j])
  }

  /** First by `le`; among ties, by `before`. */
  function Lexicographic<T>(le: (T, T) -> bool, before: (T, T) -> bool): (T, T) -> bool {
    (a, b) => le(a, b) && (le(b, a) ==> before(a, b))
  }

  lemma {:induction false} InsertPermutes<T>(x: T, xs: seq<T>, le: (T, T) -> bool)
    ensures multiset(Insert(x, xs, le)) == multiset([x] + xs)
  {
    if xs != [] && !le(x, xs[0]) {
      InsertPermutes(x, xs[1..], le);
      assert xs == [xs[0]] + xs[1..];
    }
  }

  /** Sorting permutes. */
  lemma {:induction false} SortPermutes<T>(xs: seq<T>, le: (T, T) -> bool)
    ensures multiset(SortBy(xs, le)) == multiset(xs)
    ensures |SortBy(xs, le)| == |xs|
  {
    if xs != [] {
      SortPermutes(xs[1..], le);
      InsertPermutes(xs[0], SortBy(xs[1..], le), le);
      assert xs == [xs[0]] + xs[1..];
      assert |multiset(SortBy(xs, le))| == |multiset(xs)|;
    }
  }

  lemma PermutedMember<T>(xs: seq<T>, ys: seq<T>, y: T)
    requires multiset(xs) == multiset(ys)
    ensures y in xs <==> y in ys
  {
    assert y in xs <==> y in multiset(xs);
    assert y in ys <==> y in multiset(ys);
  }

  /** Everything `le` is asked about, pointwise: total and transitive on the elements of `all`. */
  ghost predicate Comparable<T>(all: set<T>, le: (T, T) -> bool) {
    && (forall a, b | a in all && b in all :: le(a, b) || le(b, a))
    && (forall a, b, c | a in all && b in all && c in all :: le(a, b) && le(b, c) ==> le(a, c))
  }

  lemma {:induction false} InsertOrders<T>(x: T, xs: seq<T>, all: set<T>, le: (T, T) -> bool, before: (T, T) -> bool)
    requires Comparable(all, le) && x in all && forall y | y in xs :: y in all
    requires Ordered(xs, Lexicographic(le, before))
    requires forall y | y in xs :: before(x, y)
    ensures Ordered(Insert(x, xs, le), Lexicographic(le, before))
  {
    var r := Insert(x, xs, le);
    if xs == [] {
    } else if le(x, xs[0]) {
      forall j | 0 <= j < |xs|
        ensures Lexicographic(le, before)(x, xs[j])
      {
        if j > 0 {
          assert Lexicographic(le, before)(xs[0], xs[j]);
        }
      }
      forall i, j | 0 <= i < j < |r|
        ensures Lexicographic(le, before)(r[i], r[j])
      {
        assert r[j] == xs[j - 1];
      }
    } else {
      var rest := Insert(x, xs[1..], le);
      InsertOrders(x, xs[1..], all, le, before);
      InsertPermutes(x, xs[1..], le);
      forall j | 0 <= j < |rest|
        ensures Lexicographic(le, before)(xs[0], rest[j])
      {
        PermutedMember(rest, [x] + xs[1..], rest[j]);
        if rest[j] != x {
          assert rest[j] in xs[1..];
          var m :| 0 <= m < |xs[1..]| && xs[1..][m] == rest[j];
          assert xs[m + 1] == rest[j];
          assert Lexicographic(le, before)(xs[0], xs[m + 1]);
        } else if x in xs[1..] {
          var m :| 0 <= m < |xs[1..]| && xs[1..][m] == x;
          assert xs[m + 1] == x;
          assert Lexicographic(le, before)(xs[0], xs[m + 1]);
        }
      }
      forall i, j | 0 <= i < j < |r|
        ensures Lexicographic(le, before)(r[i], r[j])
      {
        assert r[j] == rest[j - 1];
        if i > 0 {
          assert r[i] == rest[i - 1];
        }
      }
    }
  }

  /** Stability: sorting by one key what was ordered by `before` orders it by the key first and
      by `before` among ties. */
  lemma {:induction false} SortRefinesOrder<T>(xs: seq<T>, all: set<T>, le: (T, T) -> bool, before: (T, T) -> bool)
    requires Comparable(all, le) && forall x | x in xs :: x in all
    requires Ordered(xs, before)
    ensures Ordered(SortBy(xs, le), Lexicographic(le, before))
  {
    if xs != [] {
      SortRefinesOrder(xs[1..], all, le, before);
      SortPermutes(xs[1..], le);
      forall y | y in SortBy(xs[1..], le)
        ensures before(xs[0], y) && y in all
      {
        PermutedMember(SortBy(xs[1..], le), xs[1..], y);
        var m :| 0 <= m < |xs[1..]| && xs[1..][m] == y;
        assert xs[m + 1] == y;
      }
      InsertOrders(xs[0], SortBy(xs[1..], le), all, le, before);
    }
  }
}
