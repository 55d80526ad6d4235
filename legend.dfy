/** `createLegendHTML`: five legend rows, each a colour swatch and a range
    label. The HTML markup is not modelled; a row is its colour and the
    kind and (rounded) end points of its label. */
module Legend {
  import opened Optional
  import opened Pkh
  import opened Sorting
  import Colour

  /** `Math.round`: to the nearest integer, halves rounded up. */
  function Round(x: real): (n: int)
    ensures x - 0.5 < n as real <= x + 0.5
  {
    (x + 0.5).Floor
  }

  /** The legend's `formatter`: an integer for the count, one decimal for the rate. */
  function Format(v: real, metric: Metric): (r: real)
    ensures metric == Jumlah ==> r == r.Floor as real && v - 0.5 < r <= v + 0.5
    ensures metric == Per1000 ==> r * 10.0 == (r * 10.0).Floor as real && v - 0.05 < r <= v + 0.05
  {
    if metric == Jumlah then Round(v) as real
    else Round(v * 10.0) as real / 10.0
  }

  /** Rounding never reverses the order of two values. */
  lemma FormatMonotone(v: real, w: real, metric: Metric)
    requires v <= w
    ensures Format(v, metric) <= Format(w, metric)
  {
    if metric == Jumlah {
      assert Round(v) <= Round(w);
    } else {
      assert Round(v * 10.0) <= Round(w * 10.0);
    }
  }

  /** The three shapes of label: `< x`, `x – y` and `> x`. */
  datatype RangeLabel = Below(bound: real) | Between(lo: real, hi: real) | Above(bound: real)

  /** One legend row: the swatch colour and its label. */
  datatype LegendRow = LegendRow(color: string, span: RangeLabel)

  /** The legend's `colors` array, low to high; row `i` shows `colors[4 - i]`. */
  const LegendPalette: seq<string> := ["#FFEDA0", "#FD8D3C", "#FC4E2A", "#E31A1C", "#BD0026"]

  /** `finalRanges`: the five labels, with the `??` fallbacks for missing breaks. */
  function FinalRanges(breaks: seq<real>, metric: Metric): (r: seq<RangeLabel>)
    requires |breaks| > 0
    ensures |r| == 5
    ensures r[0].Below? && r[4].Above?
    ensures r[1].Between? && r[2].Between? && r[3].Between?
  {
    var b1 := At(breaks, 1);
    var b2 := At(breaks, 2);
    var b3 := At(breaks, 3);
    [ Below(Format(breaks[0], metric)),
      Between(Format(breaks[0], metric), Format(b1.GetOr(breaks[0]), metric)),
      Between(Format(b1.GetOr(0.0), metric), Format(b2.GetOr(b1.GetOr(0.0)), metric)),
      Between(Format(b2.GetOr(0.0), metric), Format(b3.GetOr(b2.GetOr(0.0)), metric)),
      Above(Format(breaks[|breaks| - 1], metric)) ]
  }

  /** The rows the legend shows, top to bottom. */
  function LegendRows(breaks: seq<real>, metric: Metric): (rows: seq<LegendRow>)
    requires |breaks| > 0
    ensures |rows| == 5
  {
    var ranges := FinalRanges(breaks, metric);
    seq(5, i requires 0 <= i < 5 => LegendRow(LegendPalette[4 - i], ranges[i]))
  }

  /** The loop that emits one swatch and label per row. */
  method BuildLegend(breaks: seq<real>, metric: Metric) returns (rows: seq<LegendRow>)
    requires |breaks| > 0
    ensures rows == LegendRows(breaks, metric)
  {
    var ranges := FinalRanges(breaks, metric);
    rows := [];
    for i := 0 to 5
      invariant |rows| == i
      invariant forall k :: 0 <= k < i ==> rows[k] == LegendRow(LegendPalette[4 - k], ranges[k])
    {
      rows := rows + [LegendRow(LegendPalette[4 - i], ranges[i])];
    }
  }

  /** Top to bottom, the swatches run from dark red to pale yellow. */
  lemma LegendColours(breaks: seq<real>, metric: Metric)
    requires |breaks| > 0
    ensures forall i :: 0 <= i < 5 ==> LegendRows(breaks, metric)[i].color == LegendPalette[4 - i]
    ensures LegendRows(breaks, metric)[0].color == "#BD0026"
    ensures LegendRows(breaks, metric)[4].color == "#FFEDA0"
  {
  }

  /** With the four breaks of a five-class classification no fallback is
      used: row `k` spans the rounded breaks `k - 1` and `k`, and the first
      and last rows are open below the first and above the last break. */
  lemma FourBreakLabels(breaks: seq<real>, metric: Metric)
    requires |breaks| == 4
    ensures LegendRows(breaks, metric)[0].span == Below(Format(breaks[0], metric))
    ensures forall k :: 1 <= k < 4 ==>
      LegendRows(breaks, metric)[k].span == Between(Format(breaks[k - 1], metric), Format(breaks[k], metric))
    ensures LegendRows(breaks, metric)[4].span == Above(Format(breaks[3], metric))
  {
    var ranges := FinalRanges(breaks, metric);
    assert ranges[1] == Between(Format(breaks[0], metric), Format(breaks[1], metric));
    assert ranges[2] == Between(Format(breaks[1], metric), Format(breaks[2], metric));
    assert ranges[3] == Between(Format(breaks[2], metric), Format(breaks[3], metric));
  }

  /** For sorted breaks, three or four of them, the labels tile the line:
      each row starts where the previous one ends and no range is reversed. */
  lemma LabelsContiguous(breaks: seq<real>, metric: Metric)
    requires 3 <= |breaks| <= 4 && IsSorted(breaks)
    ensures var r := FinalRanges(breaks, metric);
      && r[0].bound == r[1].lo
      && r[1].hi == r[2].lo && r[2].hi == r[3].lo
      && r[3].hi == r[4].bound
      && r[1].lo <= r[1].hi && r[2].lo <= r[2].hi && r[3].lo <= r[3].hi
  {
    FormatMonotone(breaks[0], breaks[1], metric);
    FormatMonotone(breaks[1], breaks[2], metric);
    if |breaks| == 4 {
      FormatMonotone(breaks[2], breaks[3], metric);
    }
  }

  /** With fewer than three breaks the `?? 0` fallbacks show: the fourth row
      reads `0 – 0` whatever the breaks are. */
  lemma ShortBreaksPadWithZero(breaks: seq<real>, metric: Metric)
    requires 0 < |breaks| < 3
    ensures FinalRanges(breaks, metric)[3] == Between(Format(0.0, metric), Format(0.0, metric))
    ensures |breaks| == 1 ==> FinalRanges(breaks, metric)[2] == Between(Format(0.0, metric), Format(0.0, metric))
  {
  }

  /** The swatch colour a correct legend would show in row `k`: the colour
      the map paints class `k` with (see Colour.ClassColor). */
  const MapClassColours: seq<string> := [Colour.Bottom, Colour.Palette[0], Colour.Palette[1], Colour.Palette[2], Colour.Top]

  /** Legend rows whose swatches match the map: same labels, colours taken
      from the map's class table instead of `colors[4 - i]`. */
  function MatchedLegendRows(breaks: seq<real>, metric: Metric): (rows: seq<LegendRow>)
    requires |breaks| > 0
    ensures |rows| == 5
    ensures forall i :: 0 <= i < 5 ==> rows[i].span == LegendRows(breaks, metric)[i].span
  {
    var ranges := FinalRanges(breaks, metric);
    seq(5, i requires 0 <= i < 5 => LegendRow(MapClassColours[i], ranges[i]))
  }

  /** As written, every row of the legend contradicts the map. Values below
      the first break are painted pale yellow but the `<` row shows dark red;
      values above the last break are painted dark red but the `>` row shows
      pale yellow; and a value in the range of row `k` (1 to 3) is painted
      `colors[k - 1]` while the row shows `colors[4 - k]`. */
  lemma LegendDisagreesWithMap(breaks: seq<real>, metric: Metric, value: real)
    requires |breaks| == 4 && IsSorted(breaks)
    ensures value <= breaks[0] ==> Colour.ColorFor(value, breaks) != Some(LegendRows(breaks, metric)[0].color)
    ensures breaks[0] < value <= breaks[1] ==> Colour.ColorFor(value, breaks) != Some(LegendRows(breaks, metric)[1].color)
    ensures breaks[1] < value <= breaks[2] ==> Colour.ColorFor(value, breaks) != Some(LegendRows(breaks, metric)[2].color)
    ensures breaks[2] < value <= breaks[3] ==> Colour.ColorFor(value, breaks) != Some(LegendRows(breaks, metric)[3].color)
    ensures value > breaks[3] ==> Colour.ColorFor(value, breaks) != Some(LegendRows(breaks, metric)[4].color)
  {
    Colour.FourBreakClasses(value, breaks);
  }

  /** A concrete instance: breaks 18, 20, 24, 32 and a region with rate 10. */
  lemma LegendMismatchExample(breaks: seq<real>)
    requires breaks == [18.0, 20.0, 24.0, 32.0]
    ensures Colour.ColorFor(10.0, breaks) == Some("#FFEDA0")
    ensures LegendRows(breaks, Per1000)[0].color == "#BD0026"
  {
    Colour.FourBreakClasses(10.0, breaks);
  }

  /** The corrected legend agrees with the map: for four sorted breaks, the
      row indexed by a value's class shows exactly the colour that value is
      painted with. */
  lemma MatchedLegendAgreesWithMap(breaks: seq<real>, metric: Metric, value: real)
    requires |breaks| == 4 && IsSorted(breaks)
    ensures Colour.ColorFor(value, breaks) ==
      Some(MatchedLegendRows(breaks, metric)[Colour.CountBelow(value, breaks)].color)
  {
    Colour.ColorForByClass(value, breaks);
  }
}
