/** `quantileBreaks`: the interior thresholds of an equal-count (quantile)
    classification, by linear interpolation between order statistics. */
module Quantile {
  import opened Sorting

  /** `Math.ceil` on a real. */
  function Ceil(x: real): (c: int)
    ensures x <= c as real < x + 1.0
    ensures x.Floor <= c <= x.Floor + 1
    ensures c == x.Floor <==> x == x.Floor as real
  {
    if x.Floor as real == x then x.Floor else x.Floor + 1
  }

  /** The quantile position of break `i` (`q = i / classes`) among `n` sorted values. */
  function Position(i: int, classes: int, n: int): (pos: real)
    requires 1 <= i < classes && 1 <= n
    ensures 0.0 <= pos <= (n - 1) as real
  {
    var q := i as real / classes as real;
    assert 0.0 < q < 1.0;
    q * (n - 1) as real
  }

  /** The value at fractional position `pos` of `sorted`: the element itself
      at an integral position, otherwise the straight line between the two
      neighbouring elements. */
  function Interpolate(sorted: seq<real>, pos: real): (r: real)
    requires 0.0 <= pos <= (|sorted| - 1) as real
    ensures 0 <= pos.Floor <= Ceil(pos) < |sorted|
    ensures pos == pos.Floor as real ==> r == sorted[pos.Floor]
    ensures pos != pos.Floor as real ==>
      r == (Ceil(pos) as real - pos) * sorted[pos.Floor] + (pos - pos.Floor as real) * sorted[Ceil(pos)]
    ensures IsSorted(sorted) ==> sorted[pos.Floor] <= r <= sorted[Ceil(pos)]
  {
    var lower := pos.Floor;
    var upper := Ceil(pos);
    // The source indexes `sorted[pos]` here; `pos` is the integer `lower`.
    if lower == upper then sorted[lower]
    else
      var t := pos - lower as real;
      var d := sorted[upper] - sorted[lower];
      assert 0.0 <= t < 1.0;
      assert d >= 0.0 ==> 0.0 <= t * d <= d;
      sorted[lower] + t * d
  }

  /** Break `i` (1-based, as in the source's loop) of a sorted, non-empty list. */
  function BreakAt(sorted: seq<real>, classes: int, i: int): (r: real)
    requires |sorted| > 0 && 1 <= i < classes
    ensures IsSorted(sorted) ==> sorted[0] <= r <= sorted[|sorted| - 1]
  {
    Interpolate(sorted, Position(i, classes, |sorted|))
  }

  /** What `quantileBreaks(values, classes)` returns: nothing for no values,
      otherwise one break per `i` in `1 .. classes - 1` over the sorted copy. */
  function Breaks(values: seq<real>, classes: int): (r: seq<real>)
    ensures |r| == if |values| == 0 || classes <= 1 then 0 else classes - 1
  {
    if |values| == 0 || classes <= 1 then []
    else
      var sorted := SortAscending(values);
      seq(classes - 1, k requires 0 <= k < classes - 1 => BreakAt(sorted, classes, k + 1))
  }

  /** `quantileBreaks`: sorts a copy of `values` and pushes one interpolated
      break per loop iteration. `values` is a value, so it is left unchanged. */
  method QuantileBreaks(values: seq<real>, classes: int) returns (breaks: seq<real>)
    ensures breaks == Breaks(values, classes)
    ensures |breaks| == if |values| == 0 || classes <= 1 then 0 else classes - 1
  {
    if |values| == 0 {
      return [];
    }
    var sorted := SortAscending(values);
    breaks := [];
    var i := 1;
    while i < classes
      invariant 1 <= i && (i <= classes || i == 1)
      invariant |breaks| == i - 1
      invariant forall k :: 0 <= k < i - 1 ==> breaks[k] == BreakAt(sorted, classes, k + 1)
    {
      // q = i / classes, pos = q * (n - 1), then interpolate at pos
      breaks := breaks + [BreakAt(sorted, classes, i)];
      i := i + 1;
    }
    assert classes > 1 ==> i == classes;
    assert forall k :: 0 <= k < |breaks| ==> breaks[k] == Breaks(values, classes)[k];
  }

  /** Later breaks sit at later positions. */
  lemma PositionMonotone(i: int, j: int, classes: int, n: int)
    requires 1 <= i <= j < classes && 1 <= n
    ensures Position(i, classes, n) <= Position(j, classes, n)
  {
    var qi := i as real / classes as real;
    var qj := j as real / classes as real;
    assert qi <= qj;
    assert qi * (n - 1) as real <= qj * (n - 1) as real;
  }

  /** Points further along a non-descending segment are not lower (kept free
      of `Floor`, so that the solver sees only real arithmetic). */
  lemma SegmentMonotone(x: real, y: real, base: real, a: real, b: real, d: real)
    requires x == base + a * d && y == base + b * d
    requires a <= b && 0.0 <= d
    ensures x <= y
  {
  }

  /** On a sorted list, interpolation is monotone in the position. */
  lemma InterpolateMonotone(sorted: seq<real>, p: real, q: real)
    requires IsSorted(sorted)
    requires 0.0 <= p <= q <= (|sorted| - 1) as real
    ensures Interpolate(sorted, p) <= Interpolate(sorted, q)
  {
    if p.Floor < q.Floor {
      assert Interpolate(sorted, p) <= sorted[Ceil(p)];
      assert Ceil(p) <= q.Floor;
      assert sorted[Ceil(p)] <= sorted[q.Floor];
    } else if p != p.Floor as real {
      var lo := p.Floor;
      assert q != q.Floor as real;
      assert Ceil(p) == lo + 1 && Ceil(q) == lo + 1;
      SegmentMonotone(Interpolate(sorted, p), Interpolate(sorted, q),
        sorted[lo], p - lo as real, q - lo as real, sorted[lo + 1] - sorted[lo]);
    } else {
      assert p.Floor == q.Floor;
      assert Interpolate(sorted, p) == sorted[q.Floor];
    }
  }

  /** Every break lies between the smallest and the largest value. */
  lemma BreaksWithinRange(values: seq<real>, classes: int)
    requires |values| > 0
    ensures forall k :: 0 <= k < |Breaks(values, classes)| ==>
      Min(values) <= Breaks(values, classes)[k] <= Max(values)
  {
    SortedEnds(values);
    var sorted := SortAscending(values);
    forall k | 0 <= k < |Breaks(values, classes)|
      ensures Min(values) <= Breaks(values, classes)[k] <= Max(values)
    {
      BreakIndex(values, classes, k);
      assert sorted[0] <= BreakAt(sorted, classes, k + 1) <= sorted[|sorted| - 1];
    }
  }

  /** Break `k` is interpolated from the sorted copy at quantile `k + 1`. */
  lemma BreakIndex(values: seq<real>, classes: int, k: int)
    requires 0 <= k < |Breaks(values, classes)|
    ensures |values| > 0 && k < classes - 1
    ensures Breaks(values, classes)[k] == BreakAt(SortAscending(values), classes, k + 1)
  {
  }

  /** The breaks come out non-decreasing. */
  lemma BreaksNondecreasing(values: seq<real>, classes: int)
    ensures IsSorted(Breaks(values, classes))
  {
    var r := Breaks(values, classes);
    if |values| > 0 && classes > 1 {
      var sorted := SortAscending(values);
      forall j, k | 0 <= j < k < |r| ensures r[j] <= r[k] {
        PositionMonotone(j + 1, k + 1, classes, |sorted|);
        InterpolateMonotone(sorted, Position(j + 1, classes, |sorted|), Position(k + 1, classes, |sorted|));
      }
    }
  }

  /** The breaks depend only on the multiset of values, not on their order. */
  lemma BreaksPermutationInvariant(a: seq<real>, b: seq<real>, classes: int)
    requires multiset(a) == multiset(b)
    ensures Breaks(a, classes) == Breaks(b, classes)
  {
    assert |a| == |multiset(a)| == |multiset(b)| == |b|;
    SortPermutationInvariant(a, b);
  }

  /** A single value is every break. */
  lemma BreaksOfSingleValue(v: real, classes: int)
    requires classes > 1
    ensures Breaks([v], classes) == seq(classes - 1, _ => v)
  {
    SortedUnique(SortAscending([v]), [v]);
  }

  /** The breaks of an already sorted list are interpolated from that list itself. */
  lemma BreaksOfSorted(values: seq<real>, classes: int)
    requires IsSorted(values) && |values| > 0 && classes > 1
    ensures forall k :: 0 <= k < classes - 1 ==> Breaks(values, classes)[k] == BreakAt(values, classes, k + 1)
  {
    SortedFixed(values);
    forall k | 0 <= k < classes - 1
      ensures Breaks(values, classes)[k] == BreakAt(values, classes, k + 1)
    {
      BreakIndex(values, classes, k);
    }
  }

  /** The four interpolations for the example 10, 20, 20, 30, 40. */
  lemma ExampleInterpolations(values: seq<real>)
    requires values == [10.0, 20.0, 20.0, 30.0, 40.0]
    ensures BreakAt(values, 5, 1) == 18.0 && BreakAt(values, 5, 2) == 20.0
    ensures BreakAt(values, 5, 3) == 24.0 && BreakAt(values, 5, 4) == 32.0
  {
    assert Position(1, 5, 5) == 0.8 && 0.8.Floor == 0;
    assert Position(2, 5, 5) == 1.6 && 1.6.Floor == 1;
    assert Position(3, 5, 5) == 2.4 && 2.4.Floor == 2;
    assert Position(4, 5, 5) == 3.2 && 3.2.Floor == 3;
  }

  /** An example: the five values 10, 20, 20, 30, 40 in five classes. */
  lemma BreaksExample(values: seq<real>)
    requires values == [10.0, 20.0, 20.0, 30.0, 40.0]
    ensures |Breaks(values, 5)| == 4
    ensures Breaks(values, 5)[0] == 18.0 && Breaks(values, 5)[1] == 20.0
    ensures Breaks(values, 5)[2] == 24.0 && Breaks(values, 5)[3] == 32.0
  {
    ExampleInterpolations(values);
    BreaksOfSorted(values, 5);
  }
}
