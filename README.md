# Choropleth classification of PKH statistics

A Dafny model of the classification core of the PKH (Program Keluarga
Harapan) web map in `app/page.tsx`. The page colours district (kecamatan)
and village (desa) boundaries by the number of programme beneficiaries,
either as a raw count (`jumlah`) or per 1000 inhabitants (`per1000`).
For each layer the page:

1. resolves every feature's value from a fixture table (`valueFor`);
2. computes four quantile breaks over all values (`quantileBreaks` with
   five classes), by linear interpolation over a sorted copy;
3. colours each feature from its value and the breaks (`getColorFor`);
4. builds a five-row legend from the district breaks (`createLegendHTML`);
5. highlights a feature on `mouseover` and restores its base style on
   `mouseout`.

Modules, one per concern:

- `optional.dfy`, module `Optional`: `undefined` as `Option`, and the `??` operator.
- `pkh.dfy`, module `Pkh`: records, the metric, `valueFor` and the two fixture tables.
- `sorting.dfy`, module `Sorting`: the ascending numeric sort of a copy, modelled by insertion sort. Any ascending permutation is the same sequence.
- `quantile.dfy`, module `Quantile`: `quantileBreaks`. A loop method is proved against the function `Breaks`, and lemmas cover length, bounds, order, permutation invariance and the example 10, 20, 20, 30, 40.
- `colour.dfy`, module `Colour`: `getColorFor`. A reference table (`ClassColor` of `CountBelow`) is proved equal to the downward scan on sorted breaks.
- `legend.dfy`, module `Legend`: the legend rows, with rounding, labels and the `??` padding.
- `style.dfy`, module `LayerStyle`: base, hover and mouse-out styles, and the per-layer pipeline.

Numbers are Dafny `real`, so interpolation and division are exact.

## Model

| member | source | states |
|---|---|---|
| `Pkh.ValueFor` | app/page.tsx:57-61 | An absent record gives 0. `jumlah` mode gives the count unchanged. `per1000` gives a rate r with r × penduduk = 1000 × jumlah. The result is non-negative for a non-negative count and, in `per1000` mode, at most 1000 when the count does not exceed the population. |
| `Pkh.Lookup` | app/page.tsx:154-155 | A record is found exactly when the code is present and is one of the table's own keys, and then it is that key's record. Inherited property names are listed under Left out. |
| `Pkh.FeatureValue` | app/page.tsx:154-156 | A missing or unmatched code gives 0. In `jumlah` mode a matched code gives that record's count. In `per1000` mode it gives r with r · penduduk = 1000 · jumlah for that record. |
| `Pkh.FixturesRated` | app/page.tsx:34-54 | Every record in both fixture tables has a positive population, so the rate never divides by zero. |
| `LayerStyle.Table` | app/page.tsx:34-54 | The table each layer reads from has only positive populations. |
| `Sorting.SortAscending` | app/page.tsx:66 | The sorted copy has the same length and the same multiset of elements as the input, and it is ascending. |
| `Sorting.SortedUnique` | app/page.tsx:66 | Two ascending sequences with the same multiset are equal, so the sort's result does not depend on how it sorts. |
| `Sorting.SortPermutationInvariant` | app/page.tsx:66 | Sorting two permutations of one list gives the same sequence. |
| `Sorting.SortedFixed` | app/page.tsx:66 | Sorting an already ascending list returns it unchanged. |
| `Sorting.SortedEnds` | app/page.tsx:66 | The first and last elements of the sorted copy are the minimum and maximum of the input. |
| `Quantile.Ceil` | app/page.tsx:72 | `Math.ceil`: the least integer not below x. It equals the floor exactly when x is integral. |
| `Quantile.Position` | app/page.tsx:69-70 | For 1 ≤ i < classes, the quantile position lies in [0, n−1]. |
| `Quantile.PositionMonotone` | app/page.tsx:69-70 | Later breaks sit at positions that are not earlier. |
| `Quantile.Interpolate` | app/page.tsx:71-73 | An integral position yields that element. Otherwise the result is the weighted mean (upper − pos)·sorted[lower] + (pos − lower)·sorted[upper], and on a sorted list it lies between the two neighbours. |
| `Quantile.InterpolateMonotone` | app/page.tsx:71-73 | On a sorted list, a later position never gives a smaller value. |
| `Quantile.BreakAt` | app/page.tsx:69-74 | Each break of a sorted list lies between its first and last element. |
| `Quantile.Breaks` | app/page.tsx:64-77 | Empty input gives no breaks. Otherwise there are exactly classes − 1 breaks, or none when classes ≤ 1. |
| `Quantile.QuantileBreaks` | app/page.tsx:64-77 | The loop pushes one break per i in 1 .. classes−1 and returns exactly `Breaks(values, classes)` with that length. |
| `Quantile.BreakIndex` | app/page.tsx:68-75 | Break k is the interpolation at quantile k+1 of the sorted copy. |
| `Quantile.BreaksWithinRange` | app/page.tsx:66-75 | For non-empty input, every break lies in [min(values), max(values)]. |
| `Quantile.BreaksNondecreasing` | app/page.tsx:66-75 | The breaks are in non-decreasing order. |
| `Quantile.BreaksPermutationInvariant` | app/page.tsx:66 | Permuting the input leaves the breaks unchanged: they depend only on the multiset of values. |
| `Quantile.BreaksOfSingleValue` | app/page.tsx:69-73 | A single value v gives classes−1 copies of v. |
| `Quantile.BreaksOfSorted` | app/page.tsx:66-74 | For an already sorted input, each break is interpolated directly from the input. |
| `Quantile.ExampleInterpolations` | app/page.tsx:69-73 | On 10, 20, 20, 30, 40 the quantile positions 0.8, 1.6, 2.4 and 3.2 interpolate to 18, 20, 24 and 32. |
| `Quantile.BreaksExample` | app/page.tsx:68-75 | `[10,20,20,30,40]` in 5 classes gives exactly `[18,20,24,32]`. |
| `Colour.ScanDown` | app/page.tsx:84-90 | The downward scan returns a defined colour when it starts at most 5 deep. It never returns `#FD8D3C` when it starts at most 3 deep. |
| `Colour.ColorFor` | app/page.tsx:80-91 | No breaks gives `#fff`. A value above the last break gives `#800026`. Up to 6 breaks always give a defined colour, and up to 4 breaks never give `#FD8D3C`. |
| `Colour.CountBelow` | app/page.tsx:84-89 | The class index (number of breaks strictly below the value) is at most the number of breaks. |
| `Colour.CountBelowCut` | app/page.tsx:84-89 | If exactly the first k breaks are below the value, the class index is k. |
| `Colour.CountBelowMonotone` | app/page.tsx:84-89 | A larger value never gets a lower class index. |
| `Colour.ScanDownFindsClass` | app/page.tsx:84-90 | On sorted breaks, the scan returns the bottom colour for class 0 and `colors[c−1]` for class c. |
| `Colour.ColorForByClass` | app/page.tsx:80-91 | On sorted breaks, `getColorFor` equals the class-colour table applied to the class index. |
| `Colour.BoundaryInLowerClass` | app/page.tsx:83-85 | A value equal to break k, when break k is above break k−1, is coloured as class k (the class below that break), because comparisons are strict. |
| `Colour.FourBreakClasses` | app/page.tsx:82-90 | For four sorted breaks: ≤ b0 gives `#FFEDA0`; (b0,b1] gives `#BD0026`; (b1,b2] gives `#E31A1C`; (b2,b3] gives `#FC4E2A`; > b3 gives `#800026`. |
| `Legend.Round` | app/page.tsx:97 | `Math.round`: the integer n with x − ½ < n ≤ x + ½. |
| `Legend.Format` | app/page.tsx:96-97 | `jumlah` gives an integer within ½ of v. `per1000` gives a value with one decimal within 0.05 of v. |
| `Legend.FormatMonotone` | app/page.tsx:96-97 | Rounding preserves order. |
| `Legend.FinalRanges` | app/page.tsx:109-115 | There are five labels: `<`, then three ranges, then `>`. |
| `Legend.LegendRows` | app/page.tsx:119-123 | The legend always has exactly five rows. |
| `Legend.BuildLegend` | app/page.tsx:94-126 | The row loop returns exactly the five rows of `LegendRows`. |
| `Legend.LegendColours` | app/page.tsx:119-121 | Row i shows `colors[4−i]`, from `#BD0026` at the top to `#FFEDA0` at the bottom. |
| `Legend.FourBreakLabels` | app/page.tsx:109-115 | With four breaks no `??` fallback fires. Row k spans rounded breaks k−1 and k; the first row is `< b0` and the last is `> b3`. |
| `Legend.LabelsContiguous` | app/page.tsx:109-115 | For 3 or 4 sorted breaks, each label starts where the previous one ends, and no range is reversed. |
| `Legend.ShortBreaksPadWithZero` | app/page.tsx:112-113 | With fewer than 3 breaks, the `?? 0` fallbacks make row 3 (and, for one break, row 2) read `0 – 0`. |
| `Legend.LegendDisagreesWithMap` | app/page.tsx:119-121 | As written, for four sorted breaks, every row's swatch differs from the map colour of every value in that row's range: at or below b0, in (b_{k−1}, b_k] for rows 1–3, and above b3. |
| `Legend.LegendMismatchExample` | app/page.tsx:120 | With breaks 18, 20, 24, 32, a rate of 10 is painted `#FFEDA0` while its legend row shows `#BD0026`. |
| `Legend.MatchedLegendRows` | app/page.tsx:119-121 | The corrected legend keeps the same five labels as the original. |
| `Legend.MatchedLegendAgreesWithMap` | app/page.tsx:119-121 | In the corrected legend, for four sorted breaks, the row indexed by a value's class shows exactly the colour the map paints that value. |
| `LayerStyle.BaseStyle` | app/page.tsx:168-173 | Kecamatan gives stroke `#666`, weight 1.5. Desa gives stroke `#444`, weight 0.8 (app/page.tsx:252-257). The fill is `getColorFor(value, breaks)` at opacity 0.7. |
| `LayerStyle.FeatureStyle` | app/page.tsx:163-174 | The `style` callback is the base style of the looked-up value. A feature with no matching record is coloured as value 0. |
| `LayerStyle.OnMouseOver` | app/page.tsx:190-198 | Hover sets stroke `#FFFF00`: kecamatan weight 3 at opacity 0.9, desa weight 2 at opacity 0.95 (app/page.tsx:273-281). The fill colour is unchanged. |
| `LayerStyle.OnMouseOut` | app/page.tsx:199-211 | From any current style, mouse-out yields exactly the feature's base style for the same metric and breaks. |
| `LayerStyle.HoverThenLeaveRestores` | app/page.tsx:189-212 | After any sequence of hover events, the fill colour is the base fill colour. After a final `mouseout` the style is the base style, and after a final `mouseover` it is the highlighted base style. |
| `LayerStyle.LayerValues` | app/page.tsx:152-158 | There is one value per feature. |
| `LayerStyle.CollectValues` | app/page.tsx:152-158 | The `forEach` loop returns the layer's values in feature order, with 0 for every feature whose code is missing or unmatched. |
| `LayerStyle.ClassifyLayer` | app/page.tsx:152-174 | With no features there are no breaks. With features there are four breaks, sorted and within [min, max] of the values. Each feature gets its base style, and every fill colour is defined and never `#FD8D3C`. |

## Left out

- Map creation, the tile layer, `fetch` of the two GeoJSON files, `L.geoJSON` construction, and removing and re-adding the layer and legend refs (app/page.tsx:129-151, 216-228, 298, 318-324). These are Leaflet and network plumbing; the model takes a layer's region codes as a sequence.
- The `setTimeout(…, 700)` that builds the layer control (app/page.tsx:304-313). Its effect depends on timing and on Leaflet.
- The `v !== undefined && !Number.isNaN(v)` filter before classification (app/page.tsx:160, 244). A looked-up value here is always a real, so the model keeps every value. In the source the filter removes the values of regions whose name is an inherited property (see `Pkh.Lookup` below).
- `Pkh.Lookup`: inherited property names are treated as absent. `dummyKecamatan[code]` and `dummyDesa[code]` are JavaScript object-literal lookups, so a name such as `"constructor"`, `"toString"` or `"__proto__"` finds an `Object.prototype` member. `valueFor` (app/page.tsx:57-60) then yields `undefined` or `NaN`, and the filter drops that value from the breaks. The model gives such a region `None` and the value 0, which enters `Quantile.Breaks`. The model does not cover the difference for these names.
- The default arguments `metricChoice = "per1000"` (app/page.tsx:57) and `classes = 5` (app/page.tsx:64). Every call site passes both explicitly, so `Pkh.ValueFor` and `Quantile.Breaks` take them as ordinary parameters.
- IEEE floating point. Rounding of `i / classes * (n − 1)`, `Number.EPSILON` in the popup labels (app/page.tsx:181, 265), and NaN/Infinity from division by zero are not captured. `Pkh.ValueFor` instead requires a positive population when a record is present and the metric is `per1000`; both fixtures satisfy this (`Pkh.FixturesRated`).
- Number-to-string conversion, the legend title and the HTML of the legend, tooltips and popups (app/page.tsx:118-124, 176-187, 259-271). A legend row is its colour plus a label kind with rounded end points.
- The `ranges` array (app/page.tsx:99-107). It is computed and never used.
- `Legend.BuildLegend`: requires at least one break. With none, the source formats `undefined` as `NaN`.
- `Quantile.QuantileBreaks`: takes the values as an immutable sequence. The source's promise that the argument is not mutated (it sorts a spread copy) therefore holds by construction, not by a proof about an array.
- `Quantile.QuantileBreaks`: `classes` is an integer. A fractional class count, which JavaScript would accept, is not modelled.
- The `layer instanceof L.Path` guards in the hover handlers: every boundary feature is a path. `setStyle` is modelled as replacing the given options (`LayerStyle.SetStyle`).
- Which breaks feed the legend: the source builds it from the kecamatan layer's breaks (app/page.tsx:220-227). The model's `Legend.BuildLegend` takes those breaks as a parameter.
- The JSX control panel (app/page.tsx:326-373), `app/admin/page.tsx` (a dummy report viewer) and `components/MapClient.tsx.tsx` (a click-forwarding map wrapper) are UI only.
- `app/page.tsx` has no click-to-select beneficiary list, so none is modelled.

## Behaviour worth noting

- The fourth break of 10, 20, 20, 30, 40 in five classes is 30 + 0.2 × 10 = 32 (`Quantile.BreaksExample`).
- `valueFor` has no guard against a zero population, so `Pkh.ValueFor` requires a positive one.
- `getColorFor` returns `#fff`, not a palette colour, when there are no breaks (`Colour.ColorFor`).
- With fewer than three breaks the legend pads with 0 (`Legend.ShortBreaksPadWithZero`).
- Only the class index is monotone (`Colour.CountBelowMonotone`); the palette shades are not, since the lowest class is pale, then dark red, then lighter reds, then the darkest red on top.

## Findings

| source | as written | input that shows it | evidently intended | confidence | as-written member | corrected member |
|---|---|---|---|---|---|---|
| app/page.tsx:119-121 | Legend row i shows `colors[4−i]`. So `< b0` shows `#BD0026` and `> b_last` shows `#FFEDA0`. But `getColorFor` paints values ≤ b0 `#FFEDA0` and values above b_last `#800026`. With four sorted breaks every row is wrong: rows 1–3 show `colors[4−k]` while the map paints their range `colors[k−1]`, and no region is ever painted `#FD8D3C`. | Breaks 18, 20, 24, 32 with a rate of 10. The region is pale yellow `#FFEDA0`, but the legend row for `< 18` shows dark red `#BD0026` (`Legend.LegendMismatchExample`; in general `Legend.LegendDisagreesWithMap`). | Each row's swatch is the colour the map paints values in that row's range (`Legend.MatchedLegendAgreesWithMap`). | high (not executed) | `Legend.LegendRows` | `Legend.MatchedLegendRows` |
