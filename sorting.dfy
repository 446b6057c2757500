/** sort.Slice with a `<` on string keys, as an insertion sort: the result
    is a permutation of the input ordered by the key. Go's sort is not
    stable; records with equal keys may come out in any order, and this
    model fixes one. */
module Sorting {
  import opened Strings

  predicate LexLeq(a: string, b: string) {
    a == b || LexLess(a, b)
  }

  lemma LexLeqTransitive(a: string, b: string, c: string)
    requires LexLeq(a, b) && LexLeq(b, c)
    ensures LexLeq(a, c)
  {
    if a != b && b != c {
      LexLessTransitive(a, b, c);
    }
  }

  ghost predicate SortedBy<T>(xs: seq<T>, key: T -> string) {
    forall i, j :: 0 <= i < j < |xs| ==> LexLeq(key(xs[i]), key(xs[j]))
  }

  /** No two elements share an identity. */
  ghost predicate DistinctBy<T>(xs: seq<T>, id: T -> string) {
    forall i, j :: 0 <= i < j < |xs| ==> id(xs[i]) != id(xs[j])
  }

  /** `x` placed before the first element whose key is not below its own. */
  function InsertBy<T>(x: T, xs: seq<T>, key: T -> string): (r: seq<T>)
    ensures multiset(r) == multiset(xs) + multiset{x}
    ensures |r| == |xs| + 1
  {
    if xs == [] || LexLeq(key(x), key(xs[0])) then [x] + xs
    else
      assert xs == [xs[0]] + xs[1..];
      [xs[0]] + InsertBy(x, xs[1..], key)
  }

  function SortBy<T>(xs: seq<T>, key: T -> string): (r: seq<T>)
    ensures multiset(r) == multiset(xs)
    ensures |r| == |xs|
  {
    if xs == [] then []
    else
      assert xs == [xs[0]] + xs[1..];
      InsertBy(xs[0], SortBy(xs[1..], key), key)
  }

  lemma {:induction false} InsertSorted<T>(x: T, xs: seq<T>, key: T -> string)
    requires SortedBy(xs, key)
    ensures SortedBy(InsertBy(x, xs, key), key)
  {
    var r := InsertBy(x, xs, key);
    if xs == [] {
    } else if LexLeq(key(x), key(xs[0])) {
      forall j | 1 <= j < |r| ensures LexLeq(key(r[0]), key(r[j])) {
        LexLeqTransitive(key(x), key(xs[0]), key(r[j]));
      }
    } else {
      var rest := xs[1..];
      InsertSorted(x, rest, key);
      LexLessTotal(key(x), key(xs[0]));
      forall j | 1 <= j < |r| ensures LexLeq(key(r[0]), key(r[j])) {
        var y := r[j];
        assert y in multiset(InsertBy(x, rest, key));
        assert y == x || y in rest;
      }
    }
  }

  /** The sorted result is ordered by the key. */
  lemma {:induction false} SortSorted<T>(xs: seq<T>, key: T -> string)
    ensures SortedBy(SortBy(xs, key), key)
  {
    if xs != [] {
      SortSorted(xs[1..], key);
      InsertSorted(xs[0], SortBy(xs[1..], key), key);
    }
  }

  lemma {:induction false} InsertDistinct<T>(x: T, xs: seq<T>, key: T -> string, id: T -> string)
    requires DistinctBy(xs, id)
    requires forall y :: y in xs ==> id(y) != id(x)
    ensures DistinctBy(InsertBy(x, xs, key), id)
  {
    if xs != [] && !LexLeq(key(x), key(xs[0])) {
      var rest := xs[1..];
      InsertDistinct(x, rest, key, id);
      var r := InsertBy(x, xs, key);
      forall j | 1 <= j < |r| ensures id(r[0]) != id(r[j]) {
        var y := r[j];
        assert y in multiset(InsertBy(x, rest, key));
        if y != x {
          var k :| 0 <= k < |rest| && rest[k] == y;
          assert xs[k + 1] == y;
        }
      }
    }
  }

  /** Sorting keeps distinct identities distinct. */
  lemma {:induction false} SortDistinct<T>(xs: seq<T>, key: T -> string, id: T -> string)
    requires DistinctBy(xs, id)
    ensures DistinctBy(SortBy(xs, key), id)
  {
    if xs != [] {
      var rest := xs[1..];
      SortDistinct(rest, key, id);
      forall y | y in SortBy(rest, key) ensures id(y) != id(xs[0]) {
        assert y in multiset(SortBy(rest, key));
        var k :| 0 <= k < |rest| && rest[k] == y;
        assert xs[k + 1] == y;
      }
      InsertDistinct(xs[0], SortBy(rest, key), key, id);
    }
  }
}
