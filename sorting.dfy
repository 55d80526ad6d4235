/** `[...values].sort((a, b) => a - b)`: an ascending numeric sort of a copy.
    The library sort is modelled by insertion sort; any sort that returns an
    ascending permutation returns the same sequence (SortedUnique). */
module Sorting {

  ghost predicate IsSorted(s: seq<real>)
  {
    forall i, j :: 0 <= i < j < |s| ==> s[i] <= s[j]
  }

  /** Inserts `x` before the first element not smaller than it. */
  function Insert(x: real, s: seq<real>): (r: seq<real>)
    ensures |r| == |s| + 1
    ensures multiset(r) == multiset(s) + multiset{x}
    ensures r[0] == if s == [] || x <= s[0] then x else s[0]
    ensures IsSorted(s) ==> IsSorted(r)
  {
    if s == [] || x <= s[0] then [x] + s
    else
      var rest := Insert(x, s[1..]);
      assert multiset([s[0]] + rest) == multiset{s[0]} + multiset(rest);
      MultisetHeadTail(s);
      assert IsSorted(s) ==> IsSorted([s[0]] + rest) by {
        if IsSorted(s) {
          SortedTail(s);
          PrependSorted(s[0], rest);
        }
      }
      [s[0]] + rest
  }

  lemma PrependSorted(h: real, t: seq<real>)
    requires IsSorted(t) && (t != [] ==> h <= t[0])
    ensures IsSorted([h] + t)
  {
  }

  /** The ascending permutation of `s`. */
  function SortAscending(s: seq<real>): (r: seq<real>)
    ensures |r| == |s|
    ensures IsSorted(r)
    ensures multiset(r) == multiset(s)
  {
    if s == [] then []
    else
      assert s == [s[0]] + s[1..];
      Insert(s[0], SortAscending(s[1..]))
  }

  /** The head of an ascending sequence is below each of its elements. */
  lemma SortedHeadIsLeast(a: seq<real>, x: real)
    requires IsSorted(a) && x in multiset(a)
    ensures a[0] <= x
  {
    var i :| 0 <= i < |a| && a[i] == x;
  }

  /** The last element of an ascending sequence is above each of its elements. */
  lemma SortedLastIsGreatest(a: seq<real>, x: real)
    requires IsSorted(a) && x in multiset(a)
    ensures x <= a[|a| - 1]
  {
    var i :| 0 <= i < |a| && a[i] == x;
  }

  /** Splits a non-empty sequence's multiset into its head and its tail. */
  lemma MultisetHeadTail(a: seq<real>)
    requires a != []
    ensures multiset(a) == multiset{a[0]} + multiset(a[1..])
  {
    assert a == [a[0]] + a[1..];
  }

  /** Two ascending sequences with the same elements are equal: sorting
      depends only on the multiset of its input. */
  lemma {:induction false} SortedUnique(a: seq<real>, b: seq<real>)
    requires IsSorted(a) && IsSorted(b)
    requires multiset(a) == multiset(b)
    ensures a == b
  {
    if a == [] || b == [] {
      assert |multiset(a)| == |a| && |multiset(b)| == |b|;
    } else {
      SortedSameHead(a, b);
      SortedTail(a);
      SortedTail(b);
      SortedUnique(a[1..], b[1..]);
      assert a == [a[0]] + a[1..];
      assert b == [b[0]] + b[1..];
    }
  }

  /** Two non-empty ascending sequences with the same elements start alike
      and continue with the same elements. */
  lemma SortedSameHead(a: seq<real>, b: seq<real>)
    requires IsSorted(a) && IsSorted(b) && a != [] && b != []
    requires multiset(a) == multiset(b)
    ensures a[0] == b[0]
    ensures multiset(a[1..]) == multiset(b[1..])
  {
    assert b[0] in multiset(b) && a[0] in multiset(a);
    SortedHeadIsLeast(a, b[0]);
    SortedHeadIsLeast(b, a[0]);
    MultisetHeadTail(a);
    MultisetHeadTail(b);
    assert multiset(a[1..]) == multiset(a) - multiset{a[0]};
    assert multiset(b[1..]) == multiset(b) - multiset{b[0]};
  }

  /** Dropping the head keeps a sequence ascending. */
  lemma SortedTail(a: seq<real>)
    requires IsSorted(a) && a != []
    ensures IsSorted(a[1..])
  {
    forall i, j | 0 <= i < j < |a| - 1 ensures a[1..][i] <= a[1..][j] {
      assert a[1..][i] == a[i + 1] && a[1..][j] == a[j + 1];
    }
  }

  /** Sorting an ascending sequence leaves it as it is. */
  lemma SortedFixed(s: seq<real>)
    requires IsSorted(s)
    ensures SortAscending(s) == s
  {
    SortedUnique(SortAscending(s), s);
  }

  /** Sorting a permutation gives the same sequence. */
  lemma SortPermutationInvariant(a: seq<real>, b: seq<real>)
    requires multiset(a) == multiset(b)
    ensures SortAscending(a) == SortAscending(b)
  {
    SortedUnique(SortAscending(a), SortAscending(b));
  }

  /** The smallest element of a non-empty sequence. */
  function Min(s: seq<real>): (m: real)
    requires |s| > 0
    ensures m in s
    ensures forall k :: 0 <= k < |s| ==> m <= s[k]
  {
    if |s| == 1 then s[0]
    else
      var rest := Min(s[1..]);
      if s[0] <= rest then s[0] else rest
  }

  /** The largest element of a non-empty sequence. */
  function Max(s: seq<real>): (m: real)
    requires |s| > 0
    ensures m in s
    ensures forall k :: 0 <= k < |s| ==> s[k] <= m
  {
    if |s| == 1 then s[0]
    else
      var rest := Max(s[1..]);
      if s[0] >= rest then s[0] else rest
  }

  /** The ends of the sorted copy are the minimum and the maximum of the input. */
  lemma SortedEnds(s: seq<real>)
    requires |s| > 0
    ensures SortAscending(s)[0] == Min(s)
    ensures SortAscending(s)[|s| - 1] == Max(s)
  {
    var r := SortAscending(s);
    assert r[0] in multiset(s);
    var i :| 0 <= i < |s| && s[i] == r[0];
    assert Min(s) <= r[0];
    assert Min(s) in multiset(r);
    SortedHeadIsLeast(r, Min(s));
    assert r[|s| - 1] in multiset(s);
    var j :| 0 <= j < |s| && s[j] == r[|s| - 1];
    assert r[|s| - 1] <= Max(s);
    assert Max(s) in multiset(r);
    SortedLastIsGreatest(r, Max(s));
  }
}
