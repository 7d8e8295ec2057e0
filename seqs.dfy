/** Sequence helpers shared by the pipeline: first-appearance de-duplication,
    index ranges, an insertion sort under a comparator, and the sorted
    set of distinct naturals. */
module Seqs {

  /** No element occurs twice. */
  ghost predicate NoDuplicates<T>(s: seq<T>) {
    forall i, j :: 0 <= i < j < |s| ==> s[i] != s[j]
  }

  /** The distinct elements of `s`, in order of first appearance (pandas' `unique()`). */
  function Distinct<T(==,!new)>(s: seq<T>): (r: seq<T>)
    ensures NoDuplicates(r)
    ensures forall x :: x in r <==> x in s
    ensures |r| <= |s|
  {
    if s == [] then []
    else
      var rest := Distinct(s[..|s| - 1]);
      if s[|s| - 1] in rest then rest else rest + [s[|s| - 1]]
  }

  /** `0, 1, ..., n - 1` (numpy's `arange(n)`). */
  function Range(n: nat): (r: seq<nat>)
    ensures |r| == n
    ensures forall i :: 0 <= i < n ==> r[i] == i
  {
    if n == 0 then [] else Range(n - 1) + [n - 1]
  }

  /** Position of the first occurrence of `x` in `s`. */
  function IndexOf<T(==)>(s: seq<T>, x: T): (i: nat)
    requires x in s
    ensures i < |s| && s[i] == x
    ensures forall j :: 0 <= j < i ==> s[j] != x
  {
    if s[0] == x then 0 else 1 + IndexOf(s[1..], x)
  }

  /** `le` is a total preorder: every two elements compare, and comparison chains. */
  ghost predicate TotalPreorder<T(!new)>(le: (T, T) -> bool) {
    && (forall a, b :: le(a, b) || le(b, a))
    && (forall a, b, c :: le(a, b) && le(b, c) ==> le(a, c))
  }

  ghost predicate SortedWith<T>(s: seq<T>, le: (T, T) -> bool) {
    forall i, j :: 0 <= i < j < |s| ==> le(s[i], s[j])
  }

  /** Inserts `x` after every element that is not strictly greater than it. */
  function Insert<T>(x: T, s: seq<T>, le: (T, T) -> bool): (r: seq<T>)
    ensures multiset(r) == multiset(s) + multiset{x}
    ensures |r| == |s| + 1
  {
    if s == [] then [x]
    else if le(s[0], x) then
      assert s == [s[0]] + s[1..];
      [s[0]] + Insert(x, s[1..], le)
    else [x] + s
  }

  /** Insertion sort of `s` under the comparator `le` (the order among
      elements that compare both ways is not specified). */
  function SortWith<T>(s: seq<T>, le: (T, T) -> bool): (r: seq<T>)
    ensures multiset(r) == multiset(s)
    ensures |r| == |s|
  {
    if s == [] then []
    else
      assert s == [s[0]] + s[1..];
      Insert(s[0], SortWith(s[1..], le), le)
  }

  lemma {:induction false} InsertSorted<T(!new)>(x: T, s: seq<T>, le: (T, T) -> bool)
    requires TotalPreorder(le)
    requires SortedWith(s, le)
    ensures SortedWith(Insert(x, s, le), le)
  {
    if s != [] && le(s[0], x) {
      InsertSorted(x, s[1..], le);
      var r := Insert(x, s[1..], le);
      assert multiset(r) == multiset(s[1..]) + multiset{x};
      forall j | 0 <= j < |r| ensures le(s[0], r[j]) {
        assert r[j] in multiset(r);
        if r[j] != x {
          assert r[j] in multiset(s[1..]);
          var k :| 0 <= k < |s[1..]| && s[1..][k] == r[j];
          assert s[k + 1] == r[j];
        }
      }
    }
  }

  /** The sort yields a sequence ordered by `le` whenever `le` is a total preorder. */
  lemma {:induction false} SortWithSorted<T(!new)>(s: seq<T>, le: (T, T) -> bool)
    requires TotalPreorder(le)
    ensures SortedWith(SortWith(s, le), le)
  {
    if s != [] {
      SortWithSorted(s[1..], le);
      InsertSorted(s[0], SortWith(s[1..], le), le);
    }
  }

  /** Membership is preserved by the sort, in both directions. */
  lemma SortWithMembers<T>(s: seq<T>, le: (T, T) -> bool, x: T)
    ensures x in SortWith(s, le) <==> x in s
  {
    var r := SortWith(s, le);
    assert x in r <==> x in multiset(r);
    assert x in s <==> x in multiset(s);
  }

  /** One more than the largest element, 0 for the empty sequence. */
  function Bound(s: seq<nat>): (b: nat)
    ensures forall i :: 0 <= i < |s| ==> s[i] < b
    ensures s != [] ==> b - 1 in s
  {
    if s == [] then 0
    else
      var b := Bound(s[..|s| - 1]);
      if s[|s| - 1] < b then b else s[|s| - 1] + 1
  }

  /** The values of `0 .. n - 1` that occur in `s`, ascending. */
  function ValuesBelow(s: seq<nat>, n: nat): (r: seq<nat>)
    ensures forall v :: v in r <==> v < n && v in s
    ensures forall i, j :: 0 <= i < j < |r| ==> r[i] < r[j]
  {
    if n == 0 then []
    else
      var r := ValuesBelow(s, n - 1);
      assert forall i :: 0 <= i < |r| ==> r[i] in r;
      if n - 1 in s then r + [n - 1] else r
  }

  /** Python's `sorted(set(s))` for naturals: the distinct values, ascending. */
  function SortedUnique(s: seq<nat>): (r: seq<nat>)
    ensures forall v :: v in r <==> v in s
    ensures forall i, j :: 0 <= i < j < |r| ==> r[i] < r[j]
  {
    ValuesBelow(s, Bound(s))
  }

  ghost predicate Increasing(a: seq<int>) {
    forall i, j :: 0 <= i < j < |a| ==> a[i] < a[j]
  }

  lemma LastIsLargest(a: seq<nat>, v: nat)
    requires Increasing(a) && a != []
    ensures v in a[..|a| - 1] ==> v < a[|a| - 1]
    ensures v in a ==> v <= a[|a| - 1]
  {
    if v in a[..|a| - 1] {
      var k :| 0 <= k < |a| - 1 && a[k] == v;
    }
  }

  /** A strictly increasing sequence is fixed by its set of values. */
  lemma {:induction false} IncreasingDeterminedBySet(a: seq<nat>, b: seq<nat>)
    requires Increasing(a) && Increasing(b)
    requires forall v :: v in a <==> v in b
    ensures a == b
  {
    assert a != [] ==> a[0] in b;
    assert b != [] ==> b[0] in a;
    if a != [] && b != [] {
      var la, lb := a[|a| - 1], b[|b| - 1];
      LastIsLargest(a, lb);
      LastIsLargest(b, la);
      assert la == lb;
      var a', b' := a[..|a| - 1], b[..|b| - 1];
      forall v ensures v in a' <==> v in b' {
        LastIsLargest(a, v);
        LastIsLargest(b, v);
        DropLastMembers(a, v);
        DropLastMembers(b, v);
      }
      IncreasingDeterminedBySet(a', b');
      assert a == a' + [la] && b == b' + [lb];
    }
  }

  lemma DropLastMembers<T>(a: seq<T>, v: T)
    requires a != []
    ensures v in a <==> v in a[..|a| - 1] || v == a[|a| - 1]
  {
    assert a == a[..|a| - 1] + [a[|a| - 1]];
  }

  /** The sorted distinct values of a sequence whose values are exactly `0 .. n - 1` are `Range(n)`. */
  lemma SortedUniqueOfFullRange(s: seq<nat>, n: nat)
    requires forall v: nat :: v in s <==> v < n
    ensures SortedUnique(s) == Range(n)
  {
    var r := Range(n);
    forall v: nat ensures v in r <==> v in SortedUnique(s) {
      if v < n { assert r[v] == v; }
      if v in r { var k :| 0 <= k < n && r[k] == v; }
    }
    IncreasingDeterminedBySet(SortedUnique(s), r);
  }

  /** The elements of `s` that satisfy `p`, in order. */
  function Filter<T(!new)>(s: seq<T>, p: T -> bool): (r: seq<T>)
    ensures |r| <= |s|
    ensures forall x :: x in r <==> x in s && p(x)
  {
    if s == [] then []
    else Filter(s[..|s| - 1], p) + (if p(s[|s| - 1]) then [s[|s| - 1]] else [])
  }

  /** A sequence without repeats has as many distinct elements as entries. */
  lemma {:induction false} NoDuplicatesSetSize<T>(s: seq<T>)
    requires NoDuplicates(s)
    ensures |set x | x in s| == |s|
  {
    if s != [] {
      var init := s[..|s| - 1];
      assert NoDuplicates(init) by {
        forall i, j | 0 <= i < j < |init| ensures init[i] != init[j] {
          assert init[i] == s[i] && init[j] == s[j];
        }
      }
      NoDuplicatesSetSize(init);
      assert s == init + [s[|s| - 1]];
      assert (set x | x in s) == (set x | x in init) + {s[|s| - 1]};
      assert s[|s| - 1] !in init by {
        forall i | 0 <= i < |init| ensures init[i] != s[|s| - 1] {
          assert init[i] == s[i];
        }
      }
    }
  }

  /** A sequence has at most as many distinct elements as entries. */
  lemma {:induction false} SetSizeAtMost<T>(s: seq<T>)
    ensures |set x | x in s| <= |s|
  {
    if s != [] {
      var init := s[..|s| - 1];
      SetSizeAtMost(init);
      assert s == init + [s[|s| - 1]];
      assert (set x | x in s) == (set x | x in init) + {s[|s| - 1]};
    }
  }

  /** Each element of a sequence without repeats occurs at most once. */
  lemma {:induction false} NoDuplicatesCount<T>(s: seq<T>, x: T)
    requires NoDuplicates(s)
    ensures multiset(s)[x] <= 1
  {
    if s != [] {
      var init := s[..|s| - 1];
      assert s == init + [s[|s| - 1]];
      assert NoDuplicates(init) by {
        forall i, j | 0 <= i < j < |init| ensures init[i] != init[j] {
          assert init[i] == s[i] && init[j] == s[j];
        }
      }
      NoDuplicatesCount(init, x);
      if x == s[|s| - 1] {
        assert x !in init by {
          forall i | 0 <= i < |init| ensures init[i] != x {
            assert init[i] == s[i];
          }
        }
      }
    }
  }

  /** A rearrangement of a sequence without repeats has no repeats. */
  lemma PermutationNoDuplicates<T>(s: seq<T>, r: seq<T>)
    requires NoDuplicates(s)
    requires multiset(r) == multiset(s)
    ensures NoDuplicates(r)
  {
    forall i, j | 0 <= i < j < |r| ensures r[i] != r[j] {
      NoDuplicatesCount(s, r[i]);
      assert r == r[..j] + [r[j]] + r[j + 1..];
      assert r[i] in r[..j];
    }
  }

  /** Sum over `ds` of the number of times each occurs in `s`. */
  function SumCounts<T(==)>(ds: seq<T>, s: seq<T>): nat {
    if ds == [] then 0 else SumCounts(ds[..|ds| - 1], s) + multiset(s)[ds[|ds| - 1]]
  }

  lemma {:induction false} SumCountsSnoc<T>(ds: seq<T>, s: seq<T>, x: T)
    requires NoDuplicates(ds)
    ensures SumCounts(ds, s + [x]) == SumCounts(ds, s) + (if x in ds then 1 else 0)
  {
    if ds != [] {
      var init, d := ds[..|ds| - 1], ds[|ds| - 1];
      assert ds == init + [d];
      assert NoDuplicates(init) by {
        forall i, j | 0 <= i < j < |init| ensures init[i] != init[j] {
          assert init[i] == ds[i] && init[j] == ds[j];
        }
      }
      SumCountsSnoc(init, s, x);
      assert multiset(s + [x]) == multiset(s) + multiset{x};
      assert d !in init by {
        forall i | 0 <= i < |init| ensures init[i] != d {
          assert init[i] == ds[i];
        }
      }
    }
  }

  /** Counting every distinct element of `s` in `s` counts every entry once. */
  lemma {:induction false} DistinctCountsSum<T(!new)>(s: seq<T>)
    ensures SumCounts(Distinct(s), s) == |s|
  {
    if s != [] {
      var init, x := s[..|s| - 1], s[|s| - 1];
      assert s == init + [x];
      var d := Distinct(init);
      DistinctCountsSum(init);
      SumCountsSnoc(d, init, x);
      if x !in d {
        assert Distinct(s) == d + [x];
        assert (d + [x])[..|d|] == d;
        assert multiset(s)[x] == multiset(init)[x] + 1;
        assert multiset(init)[x] == 0;
      }
    }
  }
}
