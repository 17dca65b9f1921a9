/**
 * The array combinators the components use on case collections and
 * category lists: `filter`, a numeric `reduce`, and `sort` with a string key.
 */
module Seqs {
  import opened Strings

  /** `r` is `s` with some elements left out, the rest in their original order. */
  predicate IsSubsequence<T(==)>(r: seq<T>, s: seq<T>)
    decreases |s|
  {
    r == [] || (s != [] && ((r[0] == s[0] && IsSubsequence(r[1..], s[1..])) || IsSubsequence(r, s[1..])))
  }

  /** `xs.filter(p)`. */
  function Filter<T(==,!new)>(p: T -> bool, xs: seq<T>): (r: seq<T>)
    ensures |r| <= |xs|
    ensures forall x :: x in r <==> x in xs && p(x)
    ensures forall x :: multiset(r)[x] == if p(x) then multiset(xs)[x] else 0
    ensures IsSubsequence(r, xs)
  {
    if xs == [] then []
    else
      var rest := Filter(p, xs[1..]);
      assert xs == [xs[0]] + xs[1..];
      if p(xs[0]) then [xs[0]] + rest else rest
  }

  /** A filter that keeps everything returns its input unchanged. */
  lemma {:induction false} FilterKeepsAll<T(!new)>(p: T -> bool, xs: seq<T>)
    requires forall x :: x in xs ==> p(x)
    ensures Filter(p, xs) == xs
  {
    if xs != [] {
      FilterKeepsAll(p, xs[1..]);
      assert xs == [xs[0]] + xs[1..];
    }
  }

  /** Filtering by `q` then by `p` is filtering once by their conjunction. */
  lemma {:induction false} FilterFilter<T(!new)>(p: T -> bool, q: T -> bool, xs: seq<T>)
    ensures Filter(p, Filter(q, xs)) == Filter(x => p(x) && q(x), xs)
  {
    if xs != [] {
      FilterFilter(p, q, xs[1..]);
    }
  }

  /** Two filters applied one after the other give the same result in either order. */
  lemma FilterCommutes<T(!new)>(p: T -> bool, q: T -> bool, xs: seq<T>)
    ensures Filter(p, Filter(q, xs)) == Filter(q, Filter(p, xs))
  {
    FilterFilter(p, q, xs);
    FilterFilter(q, p, xs);
    FilterSamePredicate(x => p(x) && q(x), x => q(x) && p(x), xs);
  }

  lemma {:induction false} FilterSamePredicate<T(!new)>(p: T -> bool, q: T -> bool, xs: seq<T>)
    requires forall x :: p(x) == q(x)
    ensures Filter(p, xs) == Filter(q, xs)
  {
    if xs != [] { FilterSamePredicate(p, q, xs[1..]); }
  }

  lemma FilterLengthStep<T(!new)>(p: T -> bool, xs: seq<T>)
    requires xs != []
    ensures |Filter(p, xs)| == (if p(xs[0]) then 1 else 0) + |Filter(p, xs[1..])|
  {
  }

  /** Filters by two predicates that never hold together keep, in total, at most all elements. */
  lemma {:induction false} DisjointFiltersBound<T(!new)>(p: T -> bool, q: T -> bool, xs: seq<T>)
    requires forall x :: x in xs ==> !(p(x) && q(x))
    ensures |Filter(p, xs)| + |Filter(q, xs)| <= |xs|
  {
    if xs != [] { DisjointFiltersBound(p, q, xs[1..]); }
  }

  /** `xs.reduce((acc, x) => acc + f(x), 0)`. */
  function SumOf<T>(f: T -> nat, xs: seq<T>): nat {
    if xs == [] then 0 else f(xs[0]) + SumOf(f, xs[1..])
  }

  lemma {:induction false} SumOfConcat<T>(f: T -> nat, a: seq<T>, b: seq<T>)
    ensures SumOf(f, a + b) == SumOf(f, a) + SumOf(f, b)
  {
    if a == [] {
      assert a + b == b;
    } else {
      assert (a + b)[0] == a[0] && (a + b)[1..] == a[1..] + b;
      SumOfConcat(f, a[1..], b);
    }
  }

  /** Taking one term out of a sum. */
  lemma {:induction false} SumOfRemove<T>(f: T -> nat, b: seq<T>, j: int)
    requires 0 <= j < |b|
    ensures SumOf(f, b) == f(b[j]) + SumOf(f, b[..j] + b[j + 1..])
  {
    var p, x, q := b[..j], b[j], b[j + 1..];
    assert b == (p + [x]) + q;
    SumOfConcat(f, p + [x], q);
    SumOfConcat(f, p, [x]);
    SumOfConcat(f, p, q);
    assert SumOf(f, [x]) == f(x) by { assert [x][1..] == []; }
  }

  /** Removing matching elements from two permutations of each other leaves permutations. */
  lemma {:induction false} MultisetRemove<T>(a: seq<T>, b: seq<T>, j: int)
    requires multiset(a) == multiset(b) && a != [] && 0 <= j < |b| && b[j] == a[0]
    ensures multiset(a[1..]) == multiset(b[..j] + b[j + 1..])
  {
    assert a == [a[0]] + a[1..];
    assert b == b[..j] + [b[j]] + b[j + 1..];
    assert multiset(b) == multiset(b[..j]) + multiset{b[j]} + multiset(b[j + 1..]);
    assert multiset(b[..j] + b[j + 1..]) == multiset(b) - multiset{b[j]};
    assert multiset(a[1..]) == multiset(a) - multiset{a[0]};
  }

  /** A sum does not depend on the order of its terms. */
  lemma {:induction false} SumOfPermutation<T>(f: T -> nat, a: seq<T>, b: seq<T>)
    requires multiset(a) == multiset(b)
    ensures SumOf(f, a) == SumOf(f, b)
    decreases |a|
  {
    if a != [] {
      assert a[0] in multiset(a);
      var j :| 0 <= j < |b| && b[j] == a[0];
      MultisetRemove(a, b, j);
      SumOfPermutation(f, a[1..], b[..j] + b[j + 1..]);
      SumOfRemove(f, b, j);
    }
  }

  /** Elements outside `p` that contribute nothing can be dropped from a sum. */
  lemma {:induction false} SumOverFilter<T(!new)>(f: T -> nat, p: T -> bool, xs: seq<T>)
    requires forall x :: x in xs && !p(x) ==> f(x) == 0
    ensures SumOf(f, xs) == SumOf(f, Filter(p, xs))
  {
    if xs != [] {
      SumOverFilter(f, p, xs[1..]);
    }
  }

  // ---------------------------------------------------------------------
  // Sorting by a string key
  // ---------------------------------------------------------------------

  /** Non-decreasing by `key`. */
  predicate SortedBy<T>(xs: seq<T>, key: T -> string) {
    forall i, j :: 0 <= i < j < |xs| ==> Le(key(xs[i]), key(xs[j]))
  }

  /** No two elements share the same `f` image. */
  predicate DistinctBy<T>(xs: seq<T>, f: T -> string) {
    forall i, j :: 0 <= i < j < |xs| ==> f(xs[i]) != f(xs[j])
  }

  /** Insert `x` before the first element whose key is not smaller, keeping the order of equal keys. */
  function InsertBy<T(==)>(x: T, xs: seq<T>, key: T -> string): (r: seq<T>)
    ensures multiset(r) == multiset(xs) + multiset{x}
    ensures |r| == |xs| + 1
  {
    if xs == [] || Le(key(x), key(xs[0])) then [x] + xs
    else
      assert xs == [xs[0]] + xs[1..];
      [xs[0]] + InsertBy(x, xs[1..], key)
  }

  lemma {:induction false} InsertBySorted<T>(x: T, xs: seq<T>, key: T -> string)
    requires SortedBy(xs, key)
    ensures SortedBy(InsertBy(x, xs, key), key)
  {
    var r := InsertBy(x, xs, key);
    if xs == [] {
    } else if Le(key(x), key(xs[0])) {
      forall i, j | 0 <= i < j < |r| ensures Le(key(r[i]), key(r[j])) {
        if i == 0 && j > 1 { LeTransitive(key(x), key(xs[0]), key(r[j])); }
      }
    } else {
      var rest := InsertBy(x, xs[1..], key);
      InsertBySorted(x, xs[1..], key);
      LeTotal(key(x), key(xs[0]));
      forall j | 0 <= j < |rest| ensures Le(key(xs[0]), key(rest[j])) {
        assert rest[j] in multiset(rest);
        if rest[j] != x {
          assert rest[j] in multiset(xs[1..]);
          var k :| 0 <= k < |xs[1..]| && xs[1..][k] == rest[j];
          assert xs[k + 1] == rest[j];
        }
      }
    }
  }

  lemma {:induction false} InsertByDistinct<T>(x: T, xs: seq<T>, key: T -> string, f: T -> string)
    requires DistinctBy(xs, f)
    requires forall y :: y in xs ==> f(y) != f(x)
    ensures DistinctBy(InsertBy(x, xs, key), f)
  {
    if xs != [] && !Le(key(x), key(xs[0])) {
      var rest := InsertBy(x, xs[1..], key);
      InsertByDistinct(x, xs[1..], key, f);
      forall j | 0 <= j < |rest| ensures f(xs[0]) != f(rest[j]) {
        assert rest[j] in multiset(rest);
        if rest[j] != x {
          assert rest[j] in multiset(xs[1..]);
          var k :| 0 <= k < |xs[1..]| && xs[1..][k] == rest[j];
          assert xs[k + 1] == rest[j];
        }
      }
    }
  }

  /** `xs.sort((a, b) => compare(key(a), key(b)))`, as a stable insertion sort. */
  function SortBy<T(==)>(xs: seq<T>, key: T -> string): (r: seq<T>)
    ensures multiset(r) == multiset(xs)
    ensures |r| == |xs|
    ensures SortedBy(r, key)
  {
    if xs == [] then []
    else
      var rest := SortBy(xs[1..], key);
      InsertBySorted(xs[0], rest, key);
      assert xs == [xs[0]] + xs[1..];
      InsertBy(xs[0], rest, key)
  }

  /** Sorting a sequence whose elements have distinct `f` images keeps them distinct. */
  lemma {:induction false} SortByDistinct<T>(xs: seq<T>, key: T -> string, f: T -> string)
    requires DistinctBy(xs, f)
    ensures DistinctBy(SortBy(xs, key), f)
  {
    if xs != [] {
      SortByDistinct(xs[1..], key, f);
      var rest := SortBy(xs[1..], key);
      forall y | y in rest ensures f(y) != f(xs[0]) {
        assert y in multiset(rest);
        var k :| 0 <= k < |xs[1..]| && xs[1..][k] == y;
        assert xs[k + 1] == y;
      }
      InsertByDistinct(xs[0], rest, key, f);
    }
  }

  /** Membership survives sorting. */
  lemma SortByMembers<T>(xs: seq<T>, key: T -> string)
    ensures forall y :: y in SortBy(xs, key) <==> y in xs
  {
    var r := SortBy(xs, key);
    forall y ensures y in r <==> y in xs {
      assert y in r <==> y in multiset(r);
      assert y in xs <==> y in multiset(xs);
    }
  }
}
