/**
 * `Array.prototype.sort` with a comparator, which is stable: a comparator
 * returns a negative number, zero or a positive number, and elements the
 * comparator calls equal keep their input order. The sort is modelled as a
 * stable insertion sort on sequences.
 */
module Sorting {

  /** `cmp(a, b) > 0` means `b` goes first; a consistent comparator then says `a` goes after `b`. */
  ghost predicate Antisymmetric<T(!new)>(cmp: (T, T) -> int) {
    forall a, b :: cmp(a, b) > 0 ==> cmp(b, a) < 0
  }

  /** Adjacent elements are in comparator order. */
  ghost predicate SortedBy<T>(s: seq<T>, cmp: (T, T) -> int) {
    forall i :: 0 < i < |s| ==> cmp(s[i - 1], s[i]) <= 0
  }

  /** Puts `x` before the first element it does not sort after. */
  function InsertBy<T>(x: T, s: seq<T>, cmp: (T, T) -> int): (r: seq<T>)
    ensures |r| == |s| + 1
  {
    if s == [] || cmp(x, s[0]) <= 0 then [x] + s
    else [s[0]] + InsertBy(x, s[1..], cmp)
  }

  /** Stable sort: earlier input elements are inserted in front of later equal ones. */
  function SortBy<T>(s: seq<T>, cmp: (T, T) -> int): (r: seq<T>)
    ensures |r| == |s|
  {
    if s == [] then [] else InsertBy(s[0], SortBy(s[1..], cmp), cmp)
  }

  lemma {:induction false} InsertByPermutes<T>(x: T, s: seq<T>, cmp: (T, T) -> int)
    ensures multiset(InsertBy(x, s, cmp)) == multiset(s) + multiset{x}
  {
    if s != [] && cmp(x, s[0]) > 0 {
      InsertByPermutes(x, s[1..], cmp);
      assert s == [s[0]] + s[1..];
    }
  }

  /** The sort is a permutation of its input. */
  lemma {:induction false} SortByPermutes<T>(s: seq<T>, cmp: (T, T) -> int)
    ensures multiset(SortBy(s, cmp)) == multiset(s)
  {
    if s != [] {
      SortByPermutes(s[1..], cmp);
      InsertByPermutes(s[0], SortBy(s[1..], cmp), cmp);
      assert s == [s[0]] + s[1..];
    }
  }

  lemma InsertBySorted<T(!new)>(x: T, s: seq<T>, cmp: (T, T) -> int)
    requires Antisymmetric(cmp) && SortedBy(s, cmp)
    ensures SortedBy(InsertBy(x, s, cmp), cmp)
    ensures s != [] && cmp(x, s[0]) > 0 ==> InsertBy(x, s, cmp)[0] == s[0]
    ensures s == [] || cmp(x, s[0]) <= 0 ==> InsertBy(x, s, cmp)[0] == x
  {
    if s != [] && cmp(x, s[0]) > 0 {
      InsertBySorted(x, s[1..], cmp);
    }
  }

  /** The sort puts every adjacent pair in comparator order. */
  lemma {:induction false} SortBySorted<T(!new)>(s: seq<T>, cmp: (T, T) -> int)
    requires Antisymmetric(cmp)
    ensures SortedBy(SortBy(s, cmp), cmp)
  {
    if s != [] {
      SortBySorted(s[1..], cmp);
      InsertBySorted(s[0], SortBy(s[1..], cmp), cmp);
    }
  }

  /** Sorting a sequence that is already in order changes nothing. */
  lemma {:induction false} SortBySortedIsIdentity<T>(s: seq<T>, cmp: (T, T) -> int)
    requires SortedBy(s, cmp)
    ensures SortBy(s, cmp) == s
  {
    if s != [] {
      SortBySortedIsIdentity(s[1..], cmp);
      assert s == [s[0]] + s[1..];
    }
  }

  /** `rel` holds of every two elements at different positions. */
  ghost predicate Pairwise<T>(s: seq<T>, rel: (T, T) -> bool) {
    forall i, j :: 0 <= i < |s| && 0 <= j < |s| && i != j ==> rel(s[i], s[j])
  }

  /** Dropping the first element keeps a pairwise relation. */
  lemma PairwiseTail<T>(s: seq<T>, rel: (T, T) -> bool)
    requires s != [] && Pairwise(s, rel)
    ensures Pairwise(s[1..], rel)
  {
    forall i, j | 0 <= i < |s[1..]| && 0 <= j < |s[1..]| && i != j ensures rel(s[1..][i], s[1..][j]) {
      assert s[1..][i] == s[i + 1] && s[1..][j] == s[j + 1];
    }
  }

  /** An element related both ways to every element of a pairwise sequence extends it in front. */
  lemma PairwiseCons<T>(y: T, t: seq<T>, rel: (T, T) -> bool)
    requires Pairwise(t, rel)
    requires forall k :: 0 <= k < |t| ==> rel(y, t[k]) && rel(t[k], y)
    ensures Pairwise([y] + t, rel)
  {
    var r := [y] + t;
    forall i, j | 0 <= i < |r| && 0 <= j < |r| && i != j ensures rel(r[i], r[j]) {
      if i > 0 {
        assert r[i] == t[i - 1];
      }
      if j > 0 {
        assert r[j] == t[j - 1];
      }
    }
  }

  /** An element related to every element of `s` is related to every element of a rearrangement of `s`. */
  lemma RelatedToPermutation<T>(y: T, s: seq<T>, p: seq<T>, rel: (T, T) -> bool)
    requires multiset(p) == multiset(s)
    requires forall j :: 0 <= j < |s| ==> rel(y, s[j]) && rel(s[j], y)
    ensures forall k :: 0 <= k < |p| ==> rel(y, p[k]) && rel(p[k], y)
  {
    forall k | 0 <= k < |p| ensures rel(y, p[k]) && rel(p[k], y) {
      assert p[k] in multiset(s);
      var m :| 0 <= m < |s| && s[m] == p[k];
    }
  }

  lemma {:induction false} InsertByPairwise<T>(x: T, s: seq<T>, cmp: (T, T) -> int, rel: (T, T) -> bool)
    requires Pairwise(s, rel)
    requires forall j :: 0 <= j < |s| ==> rel(x, s[j]) && rel(s[j], x)
    ensures Pairwise(InsertBy(x, s, cmp), rel)
  {
    if s == [] || cmp(x, s[0]) <= 0 {
      PairwiseCons(x, s, rel);
    } else {
      PairwiseTail(s, rel);
      InsertByPairwise(x, s[1..], cmp, rel);
      InsertByPermutes(x, s[1..], cmp);
      assert forall j :: 0 <= j < |s[1..]| ==> rel(s[0], s[1..][j]) && rel(s[1..][j], s[0]) by {
        forall j | 0 <= j < |s[1..]| ensures rel(s[0], s[1..][j]) && rel(s[1..][j], s[0]) {
          assert s[1..][j] == s[j + 1];
        }
      }
      RelatedToPermutation(s[0], s[1..] + [x], InsertBy(x, s[1..], cmp), rel);
      PairwiseCons(s[0], InsertBy(x, s[1..], cmp), rel);
    }
  }

  /** A relation that holds of every two elements of the input holds of every two elements of the sort. */
  lemma {:induction false} SortByPairwise<T>(s: seq<T>, cmp: (T, T) -> int, rel: (T, T) -> bool)
    requires Pairwise(s, rel)
    ensures Pairwise(SortBy(s, cmp), rel)
  {
    if s != [] {
      PairwiseTail(s, rel);
      SortByPairwise(s[1..], cmp, rel);
      SortByPermutes(s[1..], cmp);
      forall j | 0 <= j < |s[1..]| ensures rel(s[0], s[1..][j]) && rel(s[1..][j], s[0]) {
        assert s[1..][j] == s[j + 1];
      }
      RelatedToPermutation(s[0], s[1..], SortBy(s[1..], cmp), rel);
      InsertByPairwise(s[0], SortBy(s[1..], cmp), cmp, rel);
    }
  }
}
