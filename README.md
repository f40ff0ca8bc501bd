# Gujarat district choropleth — a Dafny model

This project models the logic of the `GujaratMap` React/D3 component
(`src/components/Gujarat.js`). The component draws one SVG path per district of
Gujarat and colours it by the district's `Overall_3` value in a year-specific
drop-rate table. Hovering a district highlights it. Leaving it restores its
colour and binds a click handler, and a click reports the district's name to
the parent. A year slider (2015..2022) chooses which table file is fetched.

Modules:

- `JsText` (`js_text.dfy`): how a template literal prints an integer, and the
  fact that distinct integers print differently.
- `DatasetPath` (`dataset_path.dfy`): JavaScript's truncating `%`, the file
  path derived from a year, and the `YearControl` class holding the
  `selectedYear` / `filePath` state.
- `StatsJoin` (`stats_join.dfy`): a feature's `dt_code` used as an index into
  the fetched array, with the defaults on a miss (value 0, tooltip `""`, click
  label `"Gujarat"`).
- `ColorScale` (`color_scale.dfy`): the maximum of `Overall_3`, the linear
  scale `[0, max] -> [0, 1]`, the gradient from `#e0f3db` to `#43a2ca`, and the
  fill of a region.
- `RegionRenderer` (`map_view.dfy`): the `MapView` class with the drawn paths
  (their codes, fills, tooltips and click-bound flags), the table the handlers
  captured, the hovered code (`districtRowNum`) and the last selected label.
  Its methods are the render effect and the three event handlers.

Numbers are Dafny `real`s (exact rationals). Colours are triples of real
channels, and interpolation is exactly linear per channel.

In these points the model follows the code as written:

- Lookup is by array index (`tableData[dt_code]`), not by a keyed map.
- The scale is not clamped. A value outside `[0, max]` is extrapolated, so a
  negative value normalises below 0.
- An unmatched region's click label is `"Gujarat"`. Only its tooltip is `""`.
- Stale fetch responses are not discarded. In the code the response that
  arrives last wins (this part is not modelled, see below).

## Model

| member | source | states |
|---|---|---|
| JsText.NatToString | src/components/Gujarat.js:24 | the printed form of a natural number is non-empty, made only of decimal digits, and has no leading zero (only 0 itself starts with '0') |
| JsText.IntToString | src/components/Gujarat.js:24 | a printed integer starts with '-' exactly when it is negative; every character after the first is a digit; no leading zero, after the sign or otherwise (only 0 itself starts with '0') |
| JsText.ParseNatRoundTrip | src/components/Gujarat.js:24 | reading back the printed digits of n gives n |
| JsText.IntToStringInjective | src/components/Gujarat.js:24 | two integers print the same exactly when they are equal |
| DatasetPath.PathFor | src/components/Gujarat.js:24 | the path is "/data/DropRate" + the printed `year % 100 - 1` + "_" + the printed `year % 100` + ".json"; its meaning is pinned down by PathsEqualIff and InitialPathAgrees |
| DatasetPath.JsRem100 | src/components/Gujarat.js:24 | `year % 100` as JavaScript computes it: the remainder has the sign of the year, is less than 100 in magnitude, and differs from the year by a multiple of 100 |
| DatasetPath.PathsEqualIff | src/components/Gujarat.js:22-25 | two years derive the same dataset path exactly when their JavaScript `year % 100` agree (both directions) |
| DatasetPath.SliderPathsDistinct | src/components/Gujarat.js:109-110 | any two different years of the slider's range 2015..2022 derive different paths |
| DatasetPath.InitialPathAgrees | src/components/Gujarat.js:15-16 | the hard-coded initial path `/data/DropRate21_22.json` is the path derived from the initial year 2022 |
| DatasetPath.YearControl.constructor | src/components/Gujarat.js:15-16 | initial state is year 2022 with path `/data/DropRate21_22.json`, and path agrees with year |
| DatasetPath.YearControl.HandleYearChange | src/components/Gujarat.js:22-25 | sets the year and the path derived from it, keeping path and year in agreement |
| StatsJoin.Lookup | src/components/Gujarat.js:71 | a row is found exactly when the code is an index of the table, and it is the row at that index |
| StatsJoin.ValueOf | src/components/Gujarat.js:71-73 | a region's value is its row's `Overall_3` when the row exists, otherwise 0 |
| StatsJoin.TooltipLabel | src/components/Gujarat.js:95 | the tooltip is the row's `Location` when the row exists, otherwise `""` |
| StatsJoin.ClickLabel | src/components/Gujarat.js:88 | the click label is never empty: the row's `Location` when the row exists with a non-empty label, otherwise `"Gujarat"` |
| StatsJoin.ClickLabelFromTooltip | src/components/Gujarat.js:88-95 | the click label is the tooltip text with `""` replaced by `"Gujarat"` |
| StatsJoin.ValueComesFromTable | src/components/Gujarat.js:71-73 | a region's value is the default 0 or the `Overall_3` of some row of the table |
| ColorScale.MaxOverall | src/components/Gujarat.js:55 | the maximum is at least every row's `Overall_3` and is attained by some row |
| ColorScale.Normalize | src/components/Gujarat.js:57 | the scale is linear with slope 1/max: the normalised value times max gives back the value |
| ColorScale.NormalizeEndpoints | src/components/Gujarat.js:57 | 0 normalises to 0 and the maximum to 1 |
| ColorScale.NormalizeMonotone | src/components/Gujarat.js:57 | on a positive domain normalisation keeps order and sends [0, max] into [0, 1] |
| ColorScale.Interpolate | src/components/Gujarat.js:75 | position 0 gives `#e0f3db`, position 1 gives `#43a2ca`, positions in [0, 1] give channels between the two |
| ColorScale.InterpolateInjective | src/components/Gujarat.js:75 | with exact real channels, different gradient positions give different colours (after d3's rounding, nearby positions print alike) |
| ColorScale.HighlightOffGradient | src/components/Gujarat.js:75-78 | the hover colour rgba(0, 200, 200, 1) is no colour of the gradient |
| ColorScale.FillFor | src/components/Gujarat.js:70-76 | a table whose maximum is 0 gets the unmodelled degenerate-domain fill; otherwise an unmatched region gets the low colour and a region holding the maximum gets the high colour; no gradient fill is the highlight |
| ColorScale.FillOnGradient | src/components/Gujarat.js:55-76 | with non-negative values and a positive maximum, every region's normalised value is in [0, 1] and its fill lies between the two gradient colours |
| ColorScale.FillOrdered | src/components/Gujarat.js:70-76 | with a positive maximum, a larger value gets a colour no further from the high colour in any channel |
| RegionRenderer.MapView.constructor | src/components/Gujarat.js:12-14 | no paths, no table, no hovered code, nothing selected |
| RegionRenderer.MapView.Render | src/components/Gujarat.js:43-76 | an empty table changes nothing; otherwise every earlier path is gone and exactly one path per feature is drawn, in feature order, with its computed fill and tooltip and no click handler; the hovered code and the selection are untouched |
| RegionRenderer.MapView.MouseOver | src/components/Gujarat.js:77-80 | only path i's fill changes, to the highlight; the hovered code becomes path i's `dt_code` |
| RegionRenderer.MapView.MouseOut | src/components/Gujarat.js:81-93 | only path i's fill changes, to its computed fill; its click handler becomes bound; the hovered code becomes null |
| RegionRenderer.MapView.Click | src/components/Gujarat.js:87-90 | with a bound handler the selection becomes the region's click label; without one nothing changes |
| RegionRenderer.HoverRoundTrip | src/components/Gujarat.js:77-86 | mouse-over followed by mouse-out on a freshly painted map leaves every fill as the render drew it and clears the hovered code |
| RegionRenderer.ClickIgnoredAfterRender | src/components/Gujarat.js:61-90 | a click right after a render leaves the selection unchanged, since no click handler is bound yet |
| RegionRenderer.ClickNeedsMouseOut | src/components/Gujarat.js:81-90 | after a render, a mouse-over and a mouse-out, a click selects the region's label |
| RegionRenderer.RenderIdempotent | src/components/Gujarat.js:41-100 | rendering the same table twice leaves the same fills |

## Left out

- The asynchronous `fetch` of the table file and its error logging: I/O. The table arrives as the `data` argument of `Render`. The code does not guard against out-of-order responses, and no discard policy is modelled.
- `topojson.feature`: the boundary features are given as the sequence of their `dt_code`s. Each `dt_code` is taken to be an integer (a number or its canonical decimal string); any other key, such as "05", "5.0" or " 5", misses in JavaScript and is not modelled.
- The Mercator projection, `fitSize` and the `geoPath` path strings: floating-point library geometry. A path is represented only by its code.
- The exact output of `interpolateRgb`: per-channel rounding, clamping of channels to 0..255, and the `rgb(...)` string. Channels are exact reals, and they are extrapolated without clamping for values outside [0, max].
- ColorScale.Normalize: requires a non-zero maximum, because d3's behaviour for the domain `[0, 0]` is library-defined. `FillFor` gives such a table the `DegenerateScale` tag. The tag stands for d3's colour, which is not modelled and may also be painted by tables whose maximum is not 0.
- ColorScale.FillFor: says nothing about how d3's degenerate-domain colour compares with the gradient or with the highlight, because that colour is library-defined.
- ColorScale.MaxOverall: requires a non-empty table. `Math.max` of no values is `-Infinity`, and the only call comes after the empty-table guard.
- The initial `fill: white` and the fixed stroke attributes: the fill is overwritten at once, and the stroke never changes.
- The `pointer-events: none` style on the tooltips, and DOM selection in general: fills and tooltips are fields of `MapView`.
- The React hook machinery, the `Slider` widget and the JSX layout, and the unused `AIModule` import.
- Rows whose `Overall_3` is absent or not a number, and table elements that are not objects. Every row carries a numeric value.
- A `Location` that is absent and one that is empty are both modelled as `""`. JavaScript's `||` treats them alike.
- The highlight colour string in the source, `'rgba(0, 200, 200, 1'`, lacks its closing parenthesis. It is modelled as the opaque colour (0, 200, 200), on the assumption that CSS parsing closes the unfinished function; CSS parsing itself is not modelled.
