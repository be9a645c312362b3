/** The list operations the dashboard and the API use: lodash's `filter`,
    `reverse`, `slice`, `indexOf`, `[...new Set(xs)]` and the stable `sortBy`,
    and Python's stable `sorted`. A sort is parameterised by a total preorder
    `leq`; stability is stated through `Ties`, the subsequence of the elements
    that `leq` cannot tell apart from a given one. */
module Lists {

  // ---------------------------------------------------------------------------
  // filter, reverse, slice
  // ---------------------------------------------------------------------------

  /** The elements of `s` that satisfy `p`, in their original order. */
  function Filter<T(!new)>(s: seq<T>, p: T -> bool): (r: seq<T>)
    ensures |r| <= |s|
    ensures forall x :: x in r <==> x in s && p(x)
  {
    if s == [] then []
    else
      assert s == [s[0]] + s[1..];
      (if p(s[0]) then [s[0]] else []) + Filter(s[1..], p)
  }

  /** A filter keeps each element at most as often as the sequence holds it. */
  lemma FilterSubMultiset<T(!new)>(s: seq<T>, p: T -> bool)
    ensures multiset(Filter(s, p)) <= multiset(s)
  {
    forall x ensures multiset(Filter(s, p))[x] <= multiset(s)[x] {
      FilterMultiplicity(s, p, x);
    }
  }

  lemma {:induction false} FilterAppend<T(!new)>(a: seq<T>, b: seq<T>, p: T -> bool)
    ensures Filter(a + b, p) == Filter(a, p) + Filter(b, p)
  {
    if a == [] {
      assert a + b == b;
    } else {
      var x, t := a[0], a[1..];
      SplitFirst(a, b);
      FilterAppend(t, b, p);
      FilterCons(x, t + b, p);
      FilterCons(x, t, p);
      var head := if p(x) then [x] else [];
      assert head + (Filter(t, p) + Filter(b, p)) == (head + Filter(t, p)) + Filter(b, p);
    }
  }

  /** Filtering twice with the same predicate changes nothing more. */
  lemma {:induction false} FilterIdempotent<T(!new)>(s: seq<T>, p: T -> bool)
    ensures Filter(Filter(s, p), p) == Filter(s, p)
  {
    if s != [] {
      var t := Filter(s[1..], p);
      FilterIdempotent(s[1..], p);
      if p(s[0]) {
        assert Filter(s, p) == [s[0]] + t;
        FilterAppend([s[0]], t, p);
      } else {
        assert Filter(s, p) == t;
      }
    }
  }

  /** A filter that rejects nothing keeps the sequence as it is. */
  lemma {:induction false} FilterKeepsAll<T(!new)>(s: seq<T>, p: T -> bool)
    requires forall x :: x in s ==> p(x)
    ensures Filter(s, p) == s
  {
    if s != [] {
      FilterKeepsAll(s[1..], p);
    }
  }

  /** What the first element adds to the multiset of a filter. */
  lemma FilterFirstMultiset<T(!new)>(s: seq<T>, p: T -> bool)
    requires s != []
    ensures multiset(s) == multiset{s[0]} + multiset(s[1..])
    ensures multiset(Filter(s, p)) == (if p(s[0]) then multiset{s[0]} else multiset{}) + multiset(Filter(s[1..], p))
  {
    assert s == [s[0]] + s[1..];
  }

  /** A predicate and its negation split a sequence into two parts that
      together hold every element exactly as often as the sequence does. */
  lemma {:induction false} FilterPartition<T(!new)>(s: seq<T>, p: T -> bool, q: T -> bool)
    requires forall x :: q(x) == !p(x)
    ensures multiset(Filter(s, p)) + multiset(Filter(s, q)) == multiset(s)
  {
    if s != [] {
      FilterPartition(s[1..], p, q);
      FilterFirstMultiset(s, p);
      FilterFirstMultiset(s, q);
      assert q(s[0]) == !p(s[0]);
    }
  }

  /** A filter keeps every element that satisfies the predicate exactly as
      often as the sequence holds it, and no other. */
  lemma {:induction false} FilterMultiplicity<T(!new)>(s: seq<T>, p: T -> bool, x: T)
    ensures multiset(Filter(s, p))[x] == if p(x) then multiset(s)[x] else 0
  {
    if s != [] {
      FilterMultiplicity(s[1..], p, x);
      FilterFirstMultiset(s, p);
    }
  }

  /** Filtering two permutations of each other gives permutations of each other. */
  lemma FilterPermutation<T(!new)>(s: seq<T>, t: seq<T>, p: T -> bool)
    requires multiset(s) == multiset(t)
    ensures multiset(Filter(s, p)) == multiset(Filter(t, p))
  {
    forall x ensures multiset(Filter(s, p))[x] == multiset(Filter(t, p))[x] {
      FilterMultiplicity(s, p, x);
      FilterMultiplicity(t, p, x);
    }
  }

  /** Two filters in a row keep what satisfies both predicates, as the
      single filter by their conjunction `both` does. */
  lemma {:induction false} FilterCompose<T(!new)>(s: seq<T>, p: T -> bool, q: T -> bool, both: T -> bool)
    requires forall x :: both(x) == (p(x) && q(x))
    ensures Filter(Filter(s, p), q) == Filter(s, both)
  {
    if s != [] {
      FilterCompose(s[1..], p, q, both);
      var head := if p(s[0]) then [s[0]] else [];
      FilterAppend(head, Filter(s[1..], p), q);
    }
  }

  /** Filters with predicates that agree everywhere agree. */
  lemma {:induction false} FilterSamePredicate<T(!new)>(s: seq<T>, p: T -> bool, q: T -> bool)
    requires forall x :: p(x) == q(x)
    ensures Filter(s, p) == Filter(s, q)
  {
    if s != [] {
      FilterSamePredicate(s[1..], p, q);
    }
  }

  lemma PrefixMultiset<T>(s: seq<T>, k: nat)
    requires k <= |s|
    ensures multiset(s[..k]) <= multiset(s)
  {
    assert s == s[..k] + s[k..];
  }

  /** The first `k` of a sorted permutation of `pool`: as many as there are,
      up to `k`, drawn from `pool`, in order, and no element of `pool` left
      out comes before any of them. */
  lemma SortedTake<T(!new)>(s: seq<T>, pool: seq<T>, leq: (T, T) -> bool, k: nat)
    requires Sorted(s, leq) && multiset(s) == multiset(pool)
    ensures var data := Take(s, k);
      && |data| == (if |pool| < k then |pool| else k)
      && multiset(data) <= multiset(pool)
      && Sorted(data, leq)
      && forall x :: x in pool && x !in data ==> forall i :: 0 <= i < |data| ==> leq(data[i], x)
  {
    var data := Take(s, k);
    assert |s| == |pool| by {
      assert |multiset(s)| == |multiset(pool)|;
    }
    assert s == data + s[|data|..];
    SameMultisetSameElements(s, pool);
    forall x | x in pool && x !in data ensures forall i :: 0 <= i < |data| ==> leq(data[i], x) {
      var j :| 0 <= j < |s| && s[j] == x;
    }
  }

  /** The reverse of `s`. */
  function Reverse<T(!new)>(s: seq<T>): (r: seq<T>)
    ensures |r| == |s|
    ensures forall i :: 0 <= i < |s| ==> r[i] == s[|s| - 1 - i]
    ensures multiset(r) == multiset(s)
  {
    if s == [] then []
    else
      assert s == [s[0]] + s[1..];
      Reverse(s[1..]) + [s[0]]
  }

  lemma ReverseAppend<T(!new)>(a: seq<T>, b: seq<T>)
    ensures Reverse(a + b) == Reverse(b) + Reverse(a)
  {
    var l, r := Reverse(a + b), Reverse(b) + Reverse(a);
    assert |l| == |r|;
    forall i | 0 <= i < |l| ensures l[i] == r[i] {
      if i < |b| {
        assert l[i] == (a + b)[|a| + |b| - 1 - i];
      }
    }
  }

  /** Reversing a sequence with one more element at the end puts it first. */
  lemma ReverseSnoc<T(!new)>(init: seq<T>, last: T)
    ensures Reverse(init + [last]) == [last] + Reverse(init)
  {
    ReverseAppend(init, [last]);
    assert Reverse([last]) == [last];
  }

  /** Filtering a sequence with one more element at the front. */
  lemma FilterCons<T(!new)>(x: T, t: seq<T>, p: T -> bool)
    ensures Filter([x] + t, p) == (if p(x) then [x] else []) + Filter(t, p)
  {
    assert ([x] + t)[0] == x && ([x] + t)[1..] == t;
  }

  /** `filter(reverse(s), p)[0]`: the first element kept when `s` is read
      backwards is the last element of `s` that satisfies `p`, and there is
      none exactly when no element does. */
  lemma {:induction false} FilterReverseHead<T(!new)>(s: seq<T>, p: T -> bool)
    ensures Filter(Reverse(s), p) == [] <==> forall i :: 0 <= i < |s| ==> !p(s[i])
    ensures Filter(Reverse(s), p) != [] ==> exists i :: LastSatisfying(s, p, i) && Filter(Reverse(s), p)[0] == s[i]
  {
    if s != [] {
      var init, last := s[..|s| - 1], s[|s| - 1];
      SplitLast(s);
      ReverseSnoc(init, last);
      FilterCons(last, Reverse(init), p);
      if p(last) {
        assert LastSatisfying(s, p, |s| - 1);
      } else {
        FilterReverseHead(init, p);
        assert Filter(Reverse(s), p) == Filter(Reverse(init), p);
        NoneSatisfyingSnoc(s, init, p);
        if Filter(Reverse(init), p) != [] {
          var i :| LastSatisfying(init, p, i) && Filter(Reverse(init), p)[0] == init[i];
          LastSatisfyingSnoc(s, init, p, i);
        }
      }
    }
  }

  /** A last element that fails `p` changes neither whether some element
      satisfies `p` nor which one is the last to. */
  lemma NoneSatisfyingSnoc<T(!new)>(s: seq<T>, init: seq<T>, p: T -> bool)
    requires s != [] && init == s[..|s| - 1] && !p(s[|s| - 1])
    ensures (forall i :: 0 <= i < |s| ==> !p(s[i])) <==> (forall i :: 0 <= i < |init| ==> !p(init[i]))
  {
    if forall i :: 0 <= i < |init| ==> !p(init[i]) {
      forall i | 0 <= i < |s| ensures !p(s[i]) {
        if i < |init| {
          assert s[i] == init[i];
        }
      }
    }
  }

  lemma LastSatisfyingSnoc<T(!new)>(s: seq<T>, init: seq<T>, p: T -> bool, i: int)
    requires s != [] && init == s[..|s| - 1] && !p(s[|s| - 1]) && LastSatisfying(init, p, i)
    ensures LastSatisfying(s, p, i) && init[i] == s[i]
  {
  }

  lemma SplitFirst<T>(a: seq<T>, b: seq<T>)
    requires a != []
    ensures a == [a[0]] + a[1..] && a + b == [a[0]] + (a[1..] + b)
  {
  }

  lemma SplitLast<T>(s: seq<T>)
    requires s != []
    ensures s == s[..|s| - 1] + [s[|s| - 1]]
  {
  }

  /** Position `i` satisfies `p` and no later position does. */
  predicate LastSatisfying<T(!new)>(s: seq<T>, p: T -> bool, i: int) {
    0 <= i < |s| && p(s[i]) && forall j :: i < j < |s| ==> !p(s[j])
  }

  lemma LastSatisfyingUnique<T(!new)>(s: seq<T>, p: T -> bool, i: int, j: int)
    requires LastSatisfying(s, p, i) && LastSatisfying(s, p, j)
    ensures i == j
  {
  }

  /** The first `n` elements of `s`, or all of them when there are fewer
      (JavaScript `s.slice(0, n)`). */
  function Take<T(!new)>(s: seq<T>, n: nat): (r: seq<T>)
    ensures |r| == if |s| < n then |s| else n
    ensures r == s[..|r|]
  {
    if |s| <= n then s else s[..n]
  }

  // ---------------------------------------------------------------------------
  // indexOf and [...new Set(xs)]
  // ---------------------------------------------------------------------------

  /** JavaScript `s.indexOf(x)`: the first position of `x`, or -1. */
  function IndexOf<T(==,!new)>(s: seq<T>, x: T): (r: int)
    ensures -1 <= r < |s|
    ensures r == -1 <==> x !in s
    ensures 0 <= r ==> s[r] == x && forall k :: 0 <= k < r ==> s[k] != x
  {
    if s == [] then -1
    else if s[0] == x then 0
    else
      var k := IndexOf(s[1..], x);
      if k == -1 then -1 else k + 1
  }

  /** The first position of an element does not depend on what follows it. */
  lemma IndexOfPrefix<T(!new)>(a: seq<T>, b: seq<T>, x: T)
    requires x in a
    ensures IndexOf(a + b, x) == IndexOf(a, x)
  {
    var r, q := IndexOf(a + b, x), IndexOf(a, x);
    assert (a + b)[q] == x;
    assert r <= q;
    assert a[r] == x;
  }

  predicate NoDup<T(==,!new)>(s: seq<T>) {
    forall i, j :: 0 <= i < j < |s| ==> s[i] != s[j]
  }

  /** `[...new Set(s)]`: each distinct element once, where it first appears. */
  function Distinct<T(==,!new)>(s: seq<T>): (r: seq<T>)
    ensures NoDup(r)
    ensures forall x :: x in r <==> x in s
  {
    if s == [] then []
    else
      var d := Distinct(s[..|s| - 1]);
      assert s == s[..|s| - 1] + [s[|s| - 1]];
      if s[|s| - 1] in d then d else d + [s[|s| - 1]]
  }

  /** The elements of `Distinct(s)` are ordered by their first appearance in `s`. */
  lemma {:induction false} DistinctFirstAppearance<T(!new)>(s: seq<T>)
    ensures forall i, j :: 0 <= i < j < |Distinct(s)| ==>
      IndexOf(s, Distinct(s)[i]) < IndexOf(s, Distinct(s)[j])
  {
    if s != [] {
      var n := |s| - 1;
      var init, last := s[..n], s[n];
      assert s == init + [last];
      DistinctFirstAppearance(init);
      var d := Distinct(init);
      forall x | x in d ensures IndexOf(s, x) == IndexOf(init, x) && IndexOf(s, x) < n {
        IndexOfPrefix(init, [last], x);
      }
      if last !in d {
        assert IndexOf(s, last) == n;
      }
    }
  }

  /** `reverse([...new Set(s)])`: the element that appears first in `s`
      comes last. */
  lemma ReverseDistinctOrder<T(!new)>(s: seq<T>)
    ensures forall i, j :: 0 <= i < j < |Reverse(Distinct(s))| ==>
      IndexOf(s, Reverse(Distinct(s))[i]) > IndexOf(s, Reverse(Distinct(s))[j])
  {
    forall i, j | 0 <= i < j < |Reverse(Distinct(s))|
      ensures IndexOf(s, Reverse(Distinct(s))[i]) > IndexOf(s, Reverse(Distinct(s))[j])
    {
      ReverseDistinctAt(s, i, j);
    }
  }

  lemma ReverseDistinctAt<T(!new)>(s: seq<T>, i: int, j: int)
    requires 0 <= i < j < |Reverse(Distinct(s))|
    ensures IndexOf(s, Reverse(Distinct(s))[i]) > IndexOf(s, Reverse(Distinct(s))[j])
  {
    var d := Distinct(s);
    var r := Reverse(d);
    var a, b := |d| - 1 - j, |d| - 1 - i;
    assert r[i] == d[b] && r[j] == d[a];
    DistinctOrderAt(s, a, b);
  }

  lemma DistinctOrderAt<T(!new)>(s: seq<T>, a: int, b: int)
    requires 0 <= a < b < |Distinct(s)|
    ensures IndexOf(s, Distinct(s)[a]) < IndexOf(s, Distinct(s)[b])
  {
    DistinctFirstAppearance(s);
  }

  // ---------------------------------------------------------------------------
  // stable sorting
  // ---------------------------------------------------------------------------

  /** `leq` is total and transitive, as a comparison of sort keys is. */
  ghost predicate IsTotalPreorder<T(!new)>(leq: (T, T) -> bool) {
    && (forall a, b :: leq(a, b) || leq(b, a))
    && (forall a, b, c :: leq(a, b) && leq(b, c) ==> leq(a, c))
  }

  /** Non-decreasing with respect to `leq`. */
  predicate Sorted<T(!new)>(s: seq<T>, leq: (T, T) -> bool) {
    forall i, j :: 0 <= i < j < |s| ==> leq(s[i], s[j])
  }

  /** Non-increasing with respect to `leq`. */
  predicate SortedDesc<T(!new)>(s: seq<T>, leq: (T, T) -> bool) {
    forall i, j :: 0 <= i < j < |s| ==> leq(s[j], s[i])
  }

  /** `leq` does not tell `a` and `b` apart: they have equal sort keys. */
  predicate Equiv<T(!new)>(leq: (T, T) -> bool, a: T, b: T) {
    leq(a, b) && leq(b, a)
  }

  /** The elements of `s` whose sort key equals that of `e`, in order. */
  function Ties<T(!new)>(s: seq<T>, leq: (T, T) -> bool, e: T): seq<T> {
    if s == [] then [] else (if Equiv(leq, s[0], e) then [s[0]] else []) + Ties(s[1..], leq, e)
  }

  /** Places `x` before the first element that is not below it. */
  function Insert<T(!new)>(x: T, s: seq<T>, leq: (T, T) -> bool): (r: seq<T>)
    ensures |r| == |s| + 1
    ensures multiset(r) == multiset(s) + multiset{x}
  {
    if s == [] || leq(x, s[0]) then [x] + s
    else
      assert s == [s[0]] + s[1..];
      [s[0]] + Insert(x, s[1..], leq)
  }

  /** Stable insertion sort: lodash `sortBy` and Python `sorted`. */
  function SortBy<T(!new)>(s: seq<T>, leq: (T, T) -> bool): (r: seq<T>)
    ensures |r| == |s|
    ensures multiset(r) == multiset(s)
  {
    if s == [] then []
    else
      assert s == [s[0]] + s[1..];
      Insert(s[0], SortBy(s[1..], leq), leq)
  }

  lemma {:induction false} InsertSorted<T(!new)>(x: T, s: seq<T>, leq: (T, T) -> bool)
    requires IsTotalPreorder(leq) && Sorted(s, leq)
    ensures Sorted(Insert(x, s, leq), leq)
  {
    if s == [] || leq(x, s[0]) {
      var r := [x] + s;
      forall i, j | 0 <= i < j < |r| ensures leq(r[i], r[j]) {
        if i == 0 && j > 1 {
          assert leq(s[0], s[j - 1]);
        }
      }
    } else {
      InsertSorted(x, s[1..], leq);
      var t := Insert(x, s[1..], leq);
      assert leq(s[0], x);
      forall k | 0 <= k < |t| ensures leq(s[0], t[k]) {
        assert t[k] in multiset(t);
        if t[k] != x {
          assert t[k] in multiset(s[1..]);
          var j :| 0 <= j < |s[1..]| && s[1..][j] == t[k];
          assert s[j + 1] == t[k];
        }
      }
      var r := [s[0]] + t;
      forall i, j | 0 <= i < j < |r| ensures leq(r[i], r[j]) {
        if i > 0 {
          assert r[i] == t[i - 1] && r[j] == t[j - 1];
        }
      }
    }
  }

  lemma {:induction false} SortBySorted<T(!new)>(s: seq<T>, leq: (T, T) -> bool)
    requires IsTotalPreorder(leq)
    ensures Sorted(SortBy(s, leq), leq)
  {
    if s != [] {
      SortBySorted(s[1..], leq);
      InsertSorted(s[0], SortBy(s[1..], leq), leq);
    }
  }

  lemma {:induction false} TiesAppend<T(!new)>(a: seq<T>, b: seq<T>, leq: (T, T) -> bool, e: T)
    ensures Ties(a + b, leq, e) == Ties(a, leq, e) + Ties(b, leq, e)
  {
    if a != [] {
      assert (a + b)[0] == a[0] && (a + b)[1..] == a[1..] + b;
      TiesAppend(a[1..], b, leq, e);
      var head := if Equiv(leq, a[0], e) then [a[0]] else [];
      assert Ties(a + b, leq, e) == head + Ties(a[1..] + b, leq, e);
      assert Ties(a, leq, e) == head + Ties(a[1..], leq, e);
    } else {
      assert a + b == b;
    }
  }

  /** An inserted element lands before every element with the same key. */
  lemma {:induction false} InsertTies<T(!new)>(x: T, s: seq<T>, leq: (T, T) -> bool, e: T)
    requires IsTotalPreorder(leq)
    ensures Ties(Insert(x, s, leq), leq, e) == (if Equiv(leq, x, e) then [x] else []) + Ties(s, leq, e)
  {
    if s == [] || leq(x, s[0]) {
      assert ([x] + s)[1..] == s;
    } else {
      var rest := Insert(x, s[1..], leq);
      InsertTies(x, s[1..], leq, e);
      assert ([s[0]] + rest)[1..] == rest;
      // `x` and `s[0]` have different keys, so at most one of them ties with `e`
      var y := s[0];
      assert Equiv(leq, x, e) && Equiv(leq, y, e) ==> leq(x, y);
      var hx: seq<T> := if Equiv(leq, x, e) then [x] else [];
      var h0: seq<T> := if Equiv(leq, y, e) then [y] else [];
      assert hx == [] || h0 == [];
      assert Ties(Insert(x, s, leq), leq, e) == h0 + (hx + Ties(s[1..], leq, e));
      assert Ties(s, leq, e) == h0 + Ties(s[1..], leq, e);
    }
  }

  /** Stability: sorting keeps the relative order of elements with equal keys. */
  lemma {:induction false} SortByTies<T(!new)>(s: seq<T>, leq: (T, T) -> bool, e: T)
    requires IsTotalPreorder(leq)
    ensures Ties(SortBy(s, leq), leq, e) == Ties(s, leq, e)
  {
    if s != [] {
      SortByTies(s[1..], leq, e);
      InsertTies(s[0], SortBy(s[1..], leq), leq, e);
    }
  }

  /** `SortBy` is a stable sort: ordered, a permutation, and ties in input order. */
  lemma SortByIsStableSort<T(!new)>(s: seq<T>, leq: (T, T) -> bool)
    requires IsTotalPreorder(leq)
    ensures Sorted(SortBy(s, leq), leq)
    ensures multiset(SortBy(s, leq)) == multiset(s)
    ensures forall e :: Ties(SortBy(s, leq), leq, e) == Ties(s, leq, e)
  {
    SortBySorted(s, leq);
    forall e ensures Ties(SortBy(s, leq), leq, e) == Ties(s, leq, e) {
      SortByTies(s, leq, e);
    }
  }

  /** Reversing a non-decreasing sequence gives a non-increasing one. */
  lemma ReverseSorted<T(!new)>(s: seq<T>, leq: (T, T) -> bool)
    requires Sorted(s, leq)
    ensures SortedDesc(Reverse(s), leq)
  {
    var r := Reverse(s);
    forall i, j | 0 <= i < j < |r| ensures leq(r[j], r[i]) {
      assert r[j] == s[|s| - 1 - j] && r[i] == s[|s| - 1 - i];
    }
  }

  /** Reversing reverses the order of the elements with equal keys. */
  lemma {:induction false} TiesReverse<T(!new)>(s: seq<T>, leq: (T, T) -> bool, e: T)
    ensures Ties(Reverse(s), leq, e) == Reverse(Ties(s, leq, e))
  {
    if s != [] {
      TiesReverse(s[1..], leq, e);
      TiesAppend(Reverse(s[1..]), [s[0]], leq, e);
      var head := if Equiv(leq, s[0], e) then [s[0]] else [];
      assert Ties([s[0]], leq, e) == head;
      ReverseAppend(head, Ties(s[1..], leq, e));
      assert Reverse(head) == head;
    }
  }

  /** Sequences with the same multiset hold the same elements. */
  lemma SameMultisetSameElements<T(!new)>(a: seq<T>, b: seq<T>)
    requires multiset(a) == multiset(b)
    ensures forall x :: x in a <==> x in b
  {
    forall x ensures x in a <==> x in b {
      assert x in a <==> x in multiset(a);
      assert x in b <==> x in multiset(b);
    }
  }

  /** lodash `reverse(sortBy(s, key))`: non-increasing, a permutation of `s`,
      and elements with equal keys in the reverse of their order in `s`. */
  lemma ReverseSortByProperties<T(!new)>(s: seq<T>, leq: (T, T) -> bool)
    requires IsTotalPreorder(leq)
    ensures SortedDesc(Reverse(SortBy(s, leq)), leq)
    ensures multiset(Reverse(SortBy(s, leq))) == multiset(s)
    ensures forall e :: Ties(Reverse(SortBy(s, leq)), leq, e) == Reverse(Ties(s, leq, e))
  {
    SortByIsStableSort(s, leq);
    ReverseSorted(SortBy(s, leq), leq);
    forall e ensures Ties(Reverse(SortBy(s, leq)), leq, e) == Reverse(Ties(s, leq, e)) {
      TiesReverse(SortBy(s, leq), leq, e);
    }
  }

  /** A subsequence chosen by a filter of a sorted sequence is sorted. */
  lemma {:induction false} FilterSorted<T(!new)>(s: seq<T>, p: T -> bool, leq: (T, T) -> bool)
    requires Sorted(s, leq)
    ensures Sorted(Filter(s, p), leq)
  {
    if s != [] {
      FilterSorted(s[1..], p, leq);
      var t := Filter(s[1..], p);
      forall k | 0 <= k < |t| ensures leq(s[0], t[k]) {
        assert t[k] in s[1..];
        var j :| 0 <= j < |s[1..]| && s[1..][j] == t[k];
        assert s[j + 1] == t[k];
      }
      var r := Filter(s, p);
      if p(s[0]) {
        forall i, j | 0 <= i < j < |r| ensures leq(r[i], r[j]) {
          if i > 0 {
            assert r[i] == t[i - 1] && r[j] == t[j - 1];
          }
        }
      }
    }
  }
}
