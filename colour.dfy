/** `getColorFor`: the fill colour of a region, from its value and the break list. */
module Colour {
  import opened Optional
  import opened Sorting

  /** Returned when there are no breaks at all. */
  const NoData := "#fff"
  /** Returned for values above the last break. */
  const Top := "#800026"
  /** Returned when no break lies below the value. */
  const Bottom := "#FFEDA0"
  /** The `colors` array inside the scan, indexed by the break that was passed. */
  const Palette: seq<string> := ["#BD0026", "#E31A1C", "#FC4E2A", "#FD8D3C", "#FFEDA0"]

  /** The downward loop `for (i = n - 1; i >= 0; i--)`: the first `i` with
      `value > breaks[i]` returns `colors[i]` (`undefined` past the palette);
      falling out of the loop returns the bottom colour. */
  function ScanDown(value: real, breaks: seq<real>, n: nat): (c: Option<string>)
    requires n <= |breaks|
    ensures n <= 5 ==> c.Some?
    ensures n <= 3 ==> c != Some(Palette[3])
    decreases n
  {
    if n == 0 then Some(Bottom)
    else if value > breaks[n - 1] then At(Palette, n - 1)
    else ScanDown(value, breaks, n - 1)
  }

  /** `getColorFor(value, breaks)`. `None` stands for the `undefined` that
      `colors[i]` yields when the scan stops at an index past the palette. */
  function ColorFor(value: real, breaks: seq<real>): (c: Option<string>)
    ensures |breaks| == 0 ==> c == Some(NoData)
    ensures |breaks| > 0 && value > breaks[|breaks| - 1] ==> c == Some(Top)
    ensures |breaks| <= 6 ==> c.Some?
    ensures |breaks| <= 4 ==> c != Some("#FD8D3C")
  {
    if |breaks| == 0 then Some(NoData)
    else if value > breaks[|breaks| - 1] then Some(Top)
    else ScanDown(value, breaks, |breaks|)
  }

  /** The number of breaks strictly below `value`: the class a value falls
      in, counting from 0 at the bottom. */
  function CountBelow(value: real, breaks: seq<real>): (c: nat)
    ensures c <= |breaks|
  {
    if breaks == [] then 0
    else (if breaks[0] < value then 1 else 0) + CountBelow(value, breaks[1..])
  }

  /** The colour the map uses for class `k` of `n + 1` classes, written as a
      table rather than as a scan. */
  function ClassColor(k: nat, n: nat): (c: Option<string>)
    requires k <= n
  {
    if n == 0 then Some(NoData)
    else if k == n then Some(Top)
    else if k == 0 then Some(Bottom)
    else At(Palette, k - 1)
  }

  /** When the breaks below `value` are exactly the first `k`, the class is `k`. */
  lemma {:induction false} CountBelowCut(value: real, breaks: seq<real>, k: nat)
    requires k <= |breaks|
    requires forall j :: 0 <= j < k ==> breaks[j] < value
    requires forall j :: k <= j < |breaks| ==> value <= breaks[j]
    ensures CountBelow(value, breaks) == k
  {
    if breaks != [] {
      CountBelowCut(value, breaks[1..], if k == 0 then 0 else k - 1);
    }
  }

  /** A larger value is never in a lower class (on any break list). */
  lemma {:induction false} CountBelowMonotone(v: real, w: real, breaks: seq<real>)
    requires v <= w
    ensures CountBelow(v, breaks) <= CountBelow(w, breaks)
  {
    if breaks != [] {
      CountBelowMonotone(v, w, breaks[1..]);
    }
  }

  /** On sorted breaks, the scan from `n` down finds the value's class. */
  lemma {:induction false} ScanDownFindsClass(value: real, breaks: seq<real>, n: nat)
    requires IsSorted(breaks) && n <= |breaks|
    requires forall j :: n <= j < |breaks| ==> value <= breaks[j]
    ensures CountBelow(value, breaks) <= n
    ensures ScanDown(value, breaks, n) ==
      if CountBelow(value, breaks) == 0 then Some(Bottom) else At(Palette, CountBelow(value, breaks) - 1)
  {
    if n == 0 {
      CountBelowCut(value, breaks, 0);
    } else if value > breaks[n - 1] {
      CountBelowCut(value, breaks, n);
    } else {
      ScanDownFindsClass(value, breaks, n - 1);
    }
  }

  /** On sorted breaks, `getColorFor` is the class-colour table applied to
      the number of breaks below the value. */
  lemma ColorForByClass(value: real, breaks: seq<real>)
    requires IsSorted(breaks)
    ensures ColorFor(value, breaks) == ClassColor(CountBelow(value, breaks), |breaks|)
  {
    if |breaks| > 0 {
      if value > breaks[|breaks| - 1] {
        CountBelowCut(value, breaks, |breaks|);
      } else {
        ScanDownFindsClass(value, breaks, |breaks| - 1);
      }
    }
  }

  /** A value equal to a break (strictly above the previous one) is coloured
      as the class below that break: every comparison is strict. */
  lemma BoundaryInLowerClass(breaks: seq<real>, k: nat)
    requires IsSorted(breaks) && k < |breaks|
    requires k == 0 || breaks[k - 1] < breaks[k]
    ensures ColorFor(breaks[k], breaks) == ClassColor(k, |breaks|)
  {
    CountBelowCut(breaks[k], breaks, k);
    ColorForByClass(breaks[k], breaks);
  }

  /** The five classes of four sorted breaks and their colours. */
  lemma FourBreakClasses(value: real, breaks: seq<real>)
    requires |breaks| == 4 && IsSorted(breaks)
    ensures value <= breaks[0] ==> ColorFor(value, breaks) == Some("#FFEDA0")
    ensures breaks[0] < value <= breaks[1] ==> ColorFor(value, breaks) == Some("#BD0026")
    ensures breaks[1] < value <= breaks[2] ==> ColorFor(value, breaks) == Some("#E31A1C")
    ensures breaks[2] < value <= breaks[3] ==> ColorFor(value, breaks) == Some("#FC4E2A")
    ensures breaks[3] < value ==> ColorFor(value, breaks) == Some("#800026")
  {
    ColorForByClass(value, breaks);
    if value <= breaks[0] {
      CountBelowCut(value, breaks, 0);
    } else if value <= breaks[1] {
      CountBelowCut(value, breaks, 1);
    } else if value <= breaks[2] {
      CountBelowCut(value, breaks, 2);
    } else if value <= breaks[3] {
      CountBelowCut(value, breaks, 3);
    }
  }
}
