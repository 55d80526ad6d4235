/** The per-layer choropleth: each layer's values are classified by their
    own quantile breaks, every feature gets a base style from its colour,
    and the hover handlers patch that style and put it back. */
module LayerStyle {
  import opened Optional
  import opened Pkh
  import opened Sorting
  import opened Quantile
  import Colour

  /** The two boundary layers: districts and villages. */
  datatype Level = Kecamatan | Desa

  /** The Leaflet path options a layer sets: stroke colour and weight, fill
      colour (`None` for `undefined`) and fill opacity. */
  datatype PathStyle = PathStyle(color: string, weight: real, fillColor: Option<string>, fillOpacity: real)

  /** One field of a `setStyle` argument: left out, or given a value. */
  datatype Patch<T> = Keep | Put(value: T)

  /** The argument of `layer.setStyle(...)`. */
  datatype StylePatch = StylePatch(color: Patch<string>, weight: Patch<real>, fillColor: Patch<Option<string>>, fillOpacity: Patch<real>)

  function Pick<T>(p: Patch<T>, current: T): T
  {
    match p
    case Keep => current
    case Put(v) => v
  }

  /** `setStyle`: the options given replace the current ones, the rest stay. */
  function SetStyle(s: PathStyle, p: StylePatch): PathStyle
  {
    PathStyle(Pick(p.color, s.color), Pick(p.weight, s.weight), Pick(p.fillColor, s.fillColor), Pick(p.fillOpacity, s.fillOpacity))
  }

  /** The lookup table of each layer: `dummyKecamatan` by `WADMKC`, `dummyDesa` by `WADMKD`. */
  function Table(level: Level): (t: map<string, PkhRecord>)
    ensures Rated(t)
  {
    FixturesRated();
    if level == Kecamatan then KecamatanTable else DesaTable
  }

  function StrokeColor(level: Level): string
  {
    if level == Kecamatan then "#666" else "#444"
  }

  function StrokeWeight(level: Level): real
  {
    if level == Kecamatan then 1.5 else 0.8
  }

  /** The base style of a feature with value `value`. */
  function BaseStyle(level: Level, value: real, breaks: seq<real>): (s: PathStyle)
    ensures level == Kecamatan ==> s.color == "#666" && s.weight == 1.5
    ensures level == Desa ==> s.color == "#444" && s.weight == 0.8
    ensures s.fillColor == Colour.ColorFor(value, breaks) && s.fillOpacity == 0.7
  {
    PathStyle(StrokeColor(level), StrokeWeight(level), Colour.ColorFor(value, breaks), 0.7)
  }

  /** The value of the feature with region code `code` in a layer. */
  function LayerValue(level: Level, code: RegionCode, metric: Metric): real
  {
    FeatureValue(Table(level), code, metric)
  }

  /** The `style` callback: look the feature up, resolve, colour. */
  function FeatureStyle(level: Level, code: RegionCode, metric: Metric, breaks: seq<real>): (s: PathStyle)
    ensures s == BaseStyle(level, LayerValue(level, code, metric), breaks)
    ensures code.None? || code.value !in Table(level) ==> s.fillColor == Colour.ColorFor(0.0, breaks)
  {
    BaseStyle(level, LayerValue(level, code, metric), breaks)
  }

  /** The `mouseover` patch: highlight stroke, heavier line, more opaque fill. */
  function HoverPatch(level: Level): StylePatch
  {
    if level == Kecamatan then StylePatch(Put("#FFFF00"), Put(3.0), Keep, Put(0.9))
    else StylePatch(Put("#FFFF00"), Put(2.0), Keep, Put(0.95))
  }

  /** The `mouseover` handler. */
  function OnMouseOver(level: Level, s: PathStyle): (r: PathStyle)
    ensures r.fillColor == s.fillColor
    ensures r.color == "#FFFF00"
    ensures level == Kecamatan ==> r.weight == 3.0 && r.fillOpacity == 0.9
    ensures level == Desa ==> r.weight == 2.0 && r.fillOpacity == 0.95
  {
    SetStyle(s, HoverPatch(level))
  }

  /** The `mouseout` handler: recomputes the feature's value and colour and
      sets every base field again. */
  function OnMouseOut(level: Level, code: RegionCode, metric: Metric, breaks: seq<real>, s: PathStyle): (r: PathStyle)
    ensures r == FeatureStyle(level, code, metric, breaks)
  {
    var color2 := Colour.ColorFor(LayerValue(level, code, metric), breaks);
    SetStyle(s, StylePatch(Put(StrokeColor(level)), Put(StrokeWeight(level)), Put(color2), Put(0.7)))
  }

  /** Pointer events a feature's layer receives. */
  datatype PointerEvent = MouseOver | MouseOut

  /** The style after the handlers have run for `events`, in order. */
  function Replay(level: Level, code: RegionCode, metric: Metric, breaks: seq<real>, s: PathStyle, events: seq<PointerEvent>): PathStyle
    decreases |events|
  {
    if events == [] then s
    else
      var next := if events[0] == MouseOver then OnMouseOver(level, s) else OnMouseOut(level, code, metric, breaks, s);
      Replay(level, code, metric, breaks, next, events[1..])
  }

  /** Whatever sequence of hovers and exits a feature sees, it shows its base
      style or its highlighted base style; the fill colour never changes, and
      after a `mouseout` it is exactly the base style again. */
  lemma {:induction false} HoverThenLeaveRestores(level: Level, code: RegionCode, metric: Metric, breaks: seq<real>,
                                                  s: PathStyle, events: seq<PointerEvent>)
    requires var base := FeatureStyle(level, code, metric, breaks);
      s == base || s == OnMouseOver(level, base)
    ensures var base := FeatureStyle(level, code, metric, breaks);
      var r := Replay(level, code, metric, breaks, s, events);
      && r.fillColor == base.fillColor
      && (events == [] ==> r == s)
      && (events != [] && events[|events| - 1] == MouseOut ==> r == base)
      && (events != [] && events[|events| - 1] == MouseOver ==> r == OnMouseOver(level, base))
    decreases |events|
  {
    if events != [] {
      var base := FeatureStyle(level, code, metric, breaks);
      var next := if events[0] == MouseOver then OnMouseOver(level, s) else OnMouseOut(level, code, metric, breaks, s);
      assert next == base || next == OnMouseOver(level, base);
      HoverThenLeaveRestores(level, code, metric, breaks, next, events[1..]);
      if |events| > 1 {
        assert events[1..][|events[1..]| - 1] == events[|events| - 1];
      }
    }
  }

  /** The values of a layer's features, in feature order. */
  function LayerValues(level: Level, codes: seq<RegionCode>, metric: Metric): (vals: seq<real>)
    ensures |vals| == |codes|
  {
    seq(|codes|, i requires 0 <= i < |codes| => LayerValue(level, codes[i], metric))
  }

  /** The `forEach` that pushes one value per feature. */
  method CollectValues(level: Level, codes: seq<RegionCode>, metric: Metric) returns (vals: seq<real>)
    ensures vals == LayerValues(level, codes, metric)
    ensures forall i :: 0 <= i < |codes| && (codes[i].None? || codes[i].value !in Table(level)) ==> vals[i] == 0.0
  {
    vals := [];
    for i := 0 to |codes|
      invariant |vals| == i
      invariant forall k :: 0 <= k < i ==> vals[k] == LayerValue(level, codes[k], metric)
    {
      vals := vals + [LayerValue(level, codes[i], metric)];
    }
  }

  /** One layer: collect values, compute five-class breaks, style every
      feature. The not-a-number filter before classification keeps every
      value here, since values are reals (see `Pkh.Lookup` for the one case
      where the source's filter drops a value). */
  method ClassifyLayer(level: Level, codes: seq<RegionCode>, metric: Metric) returns (breaks: seq<real>, styles: seq<PathStyle>)
    ensures breaks == Breaks(LayerValues(level, codes, metric), 5)
    ensures |codes| == 0 ==> breaks == []
    ensures |codes| > 0 ==> |breaks| == 4 && IsSorted(breaks)
    ensures |codes| > 0 ==> forall k :: 0 <= k < 4 ==>
      Min(LayerValues(level, codes, metric)) <= breaks[k] <= Max(LayerValues(level, codes, metric))
    ensures |styles| == |codes|
    ensures forall i :: 0 <= i < |codes| ==> styles[i] == FeatureStyle(level, codes[i], metric, breaks)
    ensures forall i :: 0 <= i < |codes| ==> styles[i].fillColor.Some? && styles[i].fillColor != Some("#FD8D3C")
  {
    var vals := CollectValues(level, codes, metric);
    breaks := QuantileBreaks(vals, 5);
    BreaksNondecreasing(vals, 5);
    if |vals| > 0 {
      BreaksWithinRange(vals, 5);
    }
    styles := seq(|codes|, i requires 0 <= i < |codes| => FeatureStyle(level, codes[i], metric, breaks));
  }
}
