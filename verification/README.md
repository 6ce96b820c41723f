# covid19india choropleth and time-series core, in Dafny

This project models the decision logic of two React components of the
covid19india dashboard and proves properties of that logic.

**The choropleth map** (`src/components/choropleth.js`). A map shows either
the whole country or one state, drawn from state or district boundaries.
Each region is filled from a nested statistics mapping. In total mode the
mapping holds counts per metric (confirmed, active, recovered, deceased). In
zone mode it holds a red/orange/green label per district. The model covers:

- the value lookup for a region, with JavaScript truthiness on every level;
- the colour scale: a clamped sequential scale on `[0, max(1, max)]`, or the
  fixed three-way zone scale;
- the fill rule, where 0 gives `#ffffff00`;
- the feature key `map-state[-district]`;
- the tooltip share `100 * n / (total || 0.001)`;
- the border layers;
- the selector a hovered region emits.

The map object is a class, `ChoroplethMap.ChoroplethMap`. It holds the
ordered region shapes, a count of its renders, the touch flag
(`onceTouchedRegion`) and the svg's pointer-events switch. Every render
builds fresh feature objects, and the handlers compare them by identity, so
the flag holds a datum: a feature together with the render that bound it. A
new map inherits the svg's pointer-events state, which a drill-down click
leaves off until the new map's first draw; while it is off, no region or
svg handler reacts. Its methods cover:

- the highlight: mark exactly the matching shapes and move them to the end of
  their parent;
- the redraw of a data join: keyed by feature id, keeping each key's hover
  mark;
- the mouse and touch handlers;
- the outside tap.

Colours are opaque tokens. A colour is either a hex string or a point on one
of d3's colour ramps, given by the ramp and an intensity in `[0, 0.85]`.

**The time-series charts** (`src/components/timeseries.js`). The pure rules
are:

- the per-series maxima;
- the y-scale domain of each national chart (shared maxima in `mode`, log or
  linear);
- the domain of each per-state chart;
- the log-mode floor at 1;
- the day-over-day label. It is empty at index 0 and for an empty series,
  `'+' + d` for a gain and the negative number for a drop.

The label reads `timeseries[index]`. An index outside the series makes that
read undefined and the field access throw. The model returns this as the
`TypeError` failure.

The component state is a class, `TimeSeriesChart.TimeSeries`. It holds:

- the national series with its datapoint and cursor;
- the per-state rows, kept in an `array`. `graphDataStates` drops the first
  row and sorts the rest in place by confirmed count, modelled as an
  insertion sort. With no row left after the first, placing the focus dots
  reads a field of undefined; the method returns that as the `TypeError`
  failure.

One cursor `index` serves both the national and the per-state charts, as in
the source. The method `TimeSeriesChart.SharedCursor` shows the consequence.
Drawing the state rows moves the national label's index, and with fewer days
than states the label reads past the end of the series.

Modules: `Wrappers` (Option, Result), `Text` (decimal rendering of numbers),
`ChoroplethRules`, `ChoroplethMap`, `TimeSeriesRules`, `TimeSeriesChart`.

## Model

| member | source | states |
|---|---|---|
| ChoroplethRules.CaseColor | src/components/choropleth.js:28-41 | each metric's base colour is a seven-character hex code with the alpha suffix appended |
| ChoroplethRules.ColorInterpolator | src/components/choropleth.js:13-26 | a metric's scale position t is painted on that metric's ramp at intensity t * 0.85 |
| ChoroplethRules.HueOf | src/components/choropleth.js:13-26 | each metric's ramp: Reds, Blues, Greens, Greys; pairwise distinct by MetricColorsDistinct |
| ChoroplethRules.MetricColorsDistinct | src/components/choropleth.js:13-41 | different metrics get different ramps and different base colours |
| ChoroplethRules.DistrictKey | src/components/choropleth.js:112-118 | the district counts only when truthy: absent and "" both mean no district |
| ChoroplethRules.FeatureId | src/components/choropleth.js:112-118 | the key starts with `map-`, and its length is that of map, state and (only when truthy) district with their separators |
| ChoroplethRules.FeatureIdRoundTrip | src/components/choropleth.js:112-118 | splitting a key gives back the feature's state and truthy district (state names without '-') |
| ChoroplethRules.FeatureIdInjective | src/components/choropleth.js:112-118 | two features share a key exactly when they have the same state and truthy district (state names without '-') |
| ChoroplethRules.FeatureIdCollision | src/components/choropleth.js:112-118 | without that restriction, state "A-B" and district "B" of "A" share a key |
| ChoroplethRules.CountOf | src/components/choropleth.js:174-189 | total mode reads the district's or the state's recorded value for the metric; any missing level or a recorded 0 gives 0 |
| ChoroplethRules.ZoneOf | src/components/choropleth.js:167-173 | zone mode reads `mapData[state][district]`, with an absent district reading the key "undefined"; no label when either level is missing |
| ChoroplethRules.RegionValueOf | src/components/choropleth.js:165-189 | the fill input is the count in total mode; in zone mode it is the zone label that `mapData[state][district]` holds, or 0 when either level is missing; a state missing from the mapping gives 0 |
| ChoroplethRules.BuildColorScale | src/components/choropleth.js:63-76 | zone mode uses the ordinal scale; total mode uses a clamped scale on the metric's ramp whose upper bound is at least 1 and at least the metric's max, and is one of the two |
| ChoroplethRules.Clamp01 | src/components/choropleth.js:74 | clamping keeps the position in [0, 1]: positions already there are unchanged, those below go to 0 and those above to 1 |
| ChoroplethRules.Paint | src/components/choropleth.js:63-76 | a value the scale accepts is never painted transparent |
| ChoroplethRules.SequentialIntensity | src/components/choropleth.js:70-74 | on the clamped scale the ramp intensity stays in [0, 0.85] and grows with the value; it is 0 for values at or below 0, 0.85 * n / upper inside the domain, and 0.85 from the upper bound on |
| ChoroplethRules.ZoneColors | src/components/choropleth.js:64-68 | Red, Orange and Green map to #d73027, #fee08b and #66bd63, and to distinct colours |
| ChoroplethRules.Fill | src/components/choropleth.js:190-191 | the fill is transparent exactly when the value is 0, and any other value is painted by the scale |
| ChoroplethRules.RegionFill | src/components/choropleth.js:165-192 | a region is transparent exactly when its looked-up count is 0 (total) or it has no zone (zone); otherwise a total-mode fill is the metric's ramp at 0.85 times the clamped ratio of the count to the scale's upper bound, and a zone-mode fill is the fixed colour of its label |
| ChoroplethRules.MissingRegionTransparent | src/components/choropleth.js:165-191 | a region whose state is missing from the mapping is filled transparent in either mode; in total mode so is a region recorded as 0, or with no value for the metric at its state or district level |
| ChoroplethRules.Share | src/components/choropleth.js:220 | the share times the total is 100 * n, with 0.001 standing in for a zero total; it is 0 exactly when n is 0, and within [0, 100] when 0 <= n <= total |
| ChoroplethRules.DisplayName | src/components/choropleth.js:224 | the tooltip names the district when it is truthy, else the state |
| ChoroplethRules.RegionTooltip | src/components/choropleth.js:206-227 | a tooltip exists only in total mode, names the region, gives the region's share of the metric total from the guarded count, and shows 0% exactly when the region is filled transparent |
| ChoroplethRules.TooltipCountAsWritten | src/components/choropleth.js:210-216 | the tooltip lookup as written is undefined exactly when the region's entry exists without the metric, and otherwise equals the fill's lookup |
| ChoroplethRules.ShareAsWritten | src/components/choropleth.js:210-220 | the as-written share is NaN exactly when the region's entry lacks the metric, and otherwise the share of the guarded count |
| ChoroplethRules.TooltipNaNWitness | src/components/choropleth.js:206-227 | a state present without the metric gets a transparent fill but a NaN tooltip as written |
| ChoroplethRules.TooltipAgreesWhereDefined | src/components/choropleth.js:206-227 | wherever the as-written tooltip is a number, it equals the modelled tooltip's |
| ChoroplethRules.KeralaScenario | src/components/choropleth.js:165-227 | 500 of 1000 confirmed fills with the red ramp at half the ceiling and shows 50% from Kerala |
| ChoroplethRules.BorderLayers | src/components/choropleth.js:252-303 | the primary layer is the current view's group and the other layer is the other group; the secondary layer has width/250 and #343a4099; the primary stroke is #00000060 in zone mode, else the metric colour with alpha 30 |
| ChoroplethRules.BorderRules | src/components/choropleth.js:236-273 | the state mesh exists exactly on country maps, the district mesh exactly in districts view, each in its own group; the district mesh has width 0 exactly on country maps, and width/250 otherwise |
| ChoroplethRules.SelectorOf | src/components/choropleth.js:132-136 | hovering emits the region's state, plus its district when truthy |
| ChoroplethRules.HoverSelectsOwnRegion | src/components/choropleth.js:132-136 | the emitted selector matches its own region, except a region whose district property is "" |
| ChoroplethRules.Matches | src/components/choropleth.js:331-334 | the highlight test holds only for a region whose own hover selector is the given one, or whose district property is "" |
| ChoroplethRules.MatchedShareKey | src/components/choropleth.js:331-334 | two regions matched by one selector have the same key |
| ChoroplethMap.HoverStroke | src/components/choropleth.js:336-348 | a hovered shape's stroke is #343a40 in zone mode, else its metric's base colour |
| ChoroplethMap.Mark | src/components/choropleth.js:329-349 | marking sets the hover class and the hover stroke together, clearing unsets both, and nothing else changes |
| ChoroplethMap.MarkAll | src/components/choropleth.js:329-352 | every shape is marked exactly when it matches the selector |
| ChoroplethMap.Highlighted | src/components/choropleth.js:326-352 | the scene after `highlightRegionInMap`: marking then raising; its properties are HighlightMarksExactly, HighlightSingle and HighlightKeyed |
| ChoroplethMap.Unhovered | src/components/choropleth.js:335 | the unhovered group holds exactly the unhovered shapes of the scene, and is no longer than it |
| ChoroplethMap.HoveredShapes | src/components/choropleth.js:335 | the hovered group holds exactly the hovered shapes of the scene, and is no longer than it |
| ChoroplethMap.RaiseHovered | src/components/choropleth.js:335 | appending every hovered path to its parent: the unhovered shapes in order, then the hovered ones in order; its properties are the lemmas below |
| ChoroplethMap.AppendGroups | src/components/choropleth.js:335 | the groups of a concatenated scene are the groups of its parts, in order |
| ChoroplethMap.OnlyUnhovered | src/components/choropleth.js:335 | the unhovered group holds no hovered shape |
| ChoroplethMap.OnlyHovered | src/components/choropleth.js:335 | the hovered group holds no unhovered shape |
| ChoroplethMap.RaiseKeepsOrder | src/components/choropleth.js:335 | raising keeps the relative order of the unhovered shapes and of the hovered shapes |
| ChoroplethMap.RaisedMember | src/components/choropleth.js:335 | every shape of the reordered scene comes from the scene before it |
| ChoroplethMap.RaiseHoveredPermutes | src/components/choropleth.js:335 | moving hovered shapes to the end is a permutation |
| ChoroplethMap.RaiseHoveredKeepsFeatures | src/components/choropleth.js:335 | moving hovered shapes to the end keeps the same regions |
| ChoroplethMap.KeepsFeaturesStep | src/components/choropleth.js:335 | raising one more shape at the end of a scene keeps the same regions when raising the rest did |
| ChoroplethMap.FeaturesInsert | src/components/choropleth.js:335 | inserting a shape anywhere in a scene adds exactly its region to the scene's regions |
| ChoroplethMap.RaisedFromScene | src/components/choropleth.js:335 | the two groups take their shapes from the scene |
| ChoroplethMap.DistinctPrefix | src/components/choropleth.js:335 | in a scene with distinct keys, every earlier shape has distinct keys and a key different from the last one's |
| ChoroplethMap.DistinctStep | src/components/choropleth.js:335 | raising one more shape with a new key keeps the keys distinct |
| ChoroplethMap.RaisedOnTop | src/components/choropleth.js:335 | afterwards no unhovered shape comes after a hovered one |
| ChoroplethMap.RaiseHoveredDistinct | src/components/choropleth.js:335 | moving hovered shapes to the end keeps keys distinct |
| ChoroplethMap.HoveredAtMostOne | src/components/choropleth.js:330-351 | with at most one marked shape, at most one is moved |
| ChoroplethMap.HighlightMarksExactly | src/components/choropleth.js:326-352 | the highlight keeps the regions, marks exactly the shapes whose state and district equal the selector's, gives only them the hover stroke, draws them last, and keeps the relative order of the unmarked shapes and of the marked ones |
| ChoroplethMap.MarkAllDistinct | src/components/choropleth.js:329-352 | marking keeps the keys distinct |
| ChoroplethMap.MarkedAtMostOne | src/components/choropleth.js:326-352 | with distinct keys derived from the regions, a selector marks at most one shape |
| ChoroplethMap.RaisedSingle | src/components/choropleth.js:335 | when at most one shape is marked, the raised scene keeps that and puts the marked shape last |
| ChoroplethMap.HighlightSingle | src/components/choropleth.js:326-352 | with distinct keys at most one shape is marked, and a matching region ends up last and marked |
| ChoroplethMap.HighlightKeyed | src/components/choropleth.js:326-352 | the highlight keeps every shape keyed by its own feature |
| ChoroplethMap.Joined | src/components/choropleth.js:122-204 | the shape a feature joins to is keyed by the feature, in the current metric class, filled and titled from the current data, hovered exactly when its key was, with the matching stroke |
| ChoroplethMap.JoinAll | src/components/choropleth.js:122-127 | the join yields one shape per incoming feature, in the features' order, each built from that feature |
| ChoroplethMap.JoinAllFacts | src/components/choropleth.js:122-204 | the joined shapes carry exactly the incoming features, have distinct keys, and are each drawn from the current data |
| ChoroplethMap.Reconciled | src/components/choropleth.js:122-204 | the scene after a redraw: the join, then hovered shapes raised; its properties are ReconcileFacts and ReconcileSingle |
| ChoroplethMap.RaisedDrawn | src/components/choropleth.js:193-195 | raising hovered shapes keeps every shape as it was drawn |
| ChoroplethMap.ReconcileFacts | src/components/choropleth.js:123-204 | a redraw has one shape per incoming feature with distinct keys, each filled and titled from the current data with the current metric class, keeping its key's hover mark and stroke, with hovered shapes last |
| ChoroplethMap.MarkAndRaise | src/components/choropleth.js:326-352 | the pass over the paths produces the highlighted scene |
| ChoroplethMap.ChoroplethMap.constructor | src/components/choropleth.js:121-122 | a new map has no shapes, no renders and no touched region, and inherits the shared svg's pointer-events state (off after a drill-down click) until its first draw |
| ChoroplethMap.ChoroplethMap.Highlight | src/components/choropleth.js:326-352 | the scene becomes the highlighted scene; keys stay valid, at most one shape is marked, and a matching region is last; the touch flag and pointer events are unchanged |
| ChoroplethMap.ReconcileSingle | src/components/choropleth.js:123-204 | a redraw hovers only shapes whose key was hovered before, so at most one hovered shape before it means at most one after it |
| ChoroplethMap.ChoroplethMap.MouseEnter | src/components/choropleth.js:132-136 | while the svg takes pointer events, hovering emits the region's selector and highlights it; otherwise nothing happens |
| ChoroplethMap.ChoroplethMap.Redraw | src/components/choropleth.js:123-204 | the scene becomes the keyed join of the features; the shapes are bound to a new render's datum objects, the touch flag is kept, pointer events are on again, and keys stay unique with at most one shape hovered |
| ChoroplethMap.ChoroplethMap.MouseLeave | src/components/choropleth.js:137-139 | leaving clears the touch flag only when the svg takes pointer events and the flag holds the very datum bound to the region left, that is the same region in the current render |
| ChoroplethMap.ChoroplethMap.TouchStart | src/components/choropleth.js:140-143 | while the svg takes pointer events, touching the flagged datum clears the flag, and touching any other region, or the same region after a redraw rebound it, flags the datum now bound to it; otherwise the flag is kept |
| ChoroplethMap.ChoroplethMap.Click | src/components/choropleth.js:144-153 | a click requests the region's state exactly when the svg takes pointer events, no touch is pending and the map is not a state map, and then switches pointer events off; a locked map ignores further clicks |
| ChoroplethMap.ChoroplethMap.TapOutside | src/components/choropleth.js:305-312 | once the map has been drawn (which binds the handler), a tap outside the regions resets the selection to {state: 'Total'} when the svg takes pointer events and the map is not a state map, and does nothing otherwise |
| TimeSeriesRules.Column | src/components/timeseries.js:101-104 | one series read row by row |
| TimeSeriesRules.IsCumulative | src/components/timeseries.js:118-121 | the series whose key starts with `total`, which share the total-confirmed maximum in `mode` (DomainMax, SharedScaleInMode) |
| TimeSeriesRules.IsLogChart | src/components/timeseries.js:95-99 | the log charts are exactly the cumulative series, the only national charts drawn on a log scale in log mode (TimeScale) |
| TimeSeriesRules.MaxOf | src/components/timeseries.js:101-104 | the maximum is one of the values and at least every value; there is none exactly for no values |
| TimeSeriesRules.SeriesMax | src/components/timeseries.js:101-104 | a series' maximum is at least every row's value and equals one of them |
| TimeSeriesRules.Maxima | src/components/timeseries.js:101-104 | every series has a maximum that is at least every row's value and equals one of them |
| TimeSeriesRules.DomainMax | src/components/timeseries.js:118-124 | in `mode`, cumulative charts use the total-confirmed maximum and daily charts the daily-confirmed maximum; otherwise each chart uses its own |
| TimeSeriesRules.TimeScale | src/components/timeseries.js:105-126 | a chart is on a log scale exactly in log mode for a cumulative chart, starting at 1 (else linear from 0), and reaches 1.1 times its domain maximum |
| TimeSeriesRules.SharedScaleInMode | src/components/timeseries.js:118-124 | in `mode` the three cumulative charts share one scale, and so do the three daily charts |
| TimeSeriesRules.OwnScaleCovers | src/components/timeseries.js:105-126 | outside `mode` every non-negative value of a series lies under its chart's domain maximum |
| TimeSeriesRules.SharedScaleCovers | src/components/timeseries.js:118-124 | in `mode` every cumulative value lies under the shared maximum when it does not exceed that day's confirmed total |
| TimeSeriesRules.StateScale | src/components/timeseries.js:317-327 | a state chart's scale is log on [1, m] in log mode, else linear on [-m/10, m]; there is none when there are no rows |
| TimeSeriesRules.PlotValue | src/components/timeseries.js:128-135 | a log chart in log mode plots at least 1, and the value itself when it is at least 1; every other value is plotted unchanged |
| TimeSeriesRules.StatePlotValue | src/components/timeseries.js:330-335 | in log mode a state chart plots at least 1, and the value itself when it is at least 1; otherwise unchanged |
| TimeSeriesRules.PlotInsideDomain | src/components/timeseries.js:105-135 | outside `mode` every plotted point, after the floor, lies inside its chart's domain; on a log chart in log mode this needs some value of at least 1 |
| TimeSeriesRules.DeltaAt | src/components/timeseries.js:487-498 | no delta for an empty series or at index 0; a TypeError exactly when the index is otherwise outside the series; a gain or a negative drop that takes the previous day's value to the current one |
| TimeSeriesRules.DeltaText | src/components/timeseries.js:487-498 | the label is empty exactly for no delta, `+` and the digits for a gain, `-` and the digits for a drop |
| TimeSeriesRules.DeltaTextRoundTrip | src/components/timeseries.js:487-498 | the label text determines the delta: parsing it gives the delta back |
| TimeSeriesRules.SignedRoundTrip | src/components/timeseries.js:491-495 | a sign followed by a number's digits reads back as that sign and that number |
| TimeSeriesRules.DeltaSign | src/components/timeseries.js:487-498 | inside the series the label is non-empty, and starts with `+` exactly when the value did not decrease and with `-` exactly when it did |
| TimeSeriesRules.GainScenario | src/components/timeseries.js:487-498 | going from 100 to 130 shows `+30`, the first day shows nothing, and an index past the end fails |
| Text.Decimal | src/components/timeseries.js:491-495 | a number's decimal text is a non-empty run of digits without a leading zero |
| Text.DecimalRoundTrip | src/components/timeseries.js:491-495 | reading the decimal text back gives the number |
| TimeSeriesChart.StateColumn | src/components/timeseries.js:312-315 | one state field read row by row |
| TimeSeriesChart.StateMax | src/components/timeseries.js:312-315 | a state field's maximum is at least every row's value and equals one of them; there is none exactly when there are no rows |
| TimeSeriesChart.SortByConfirmed | src/components/timeseries.js:265-267 | the rows end up sorted ascending by confirmed count and are a permutation of the input; an already sorted array is left unchanged |
| TimeSeriesChart.InsertAt | src/components/timeseries.js:265-267 | one insertion step extends the sorted prefix by one row, only permuting, and changes nothing on a sorted array |
| TimeSeriesChart.InsertionStart | src/components/timeseries.js:265-267 | a sorted prefix is the start of inserting the next row |
| TimeSeriesChart.SwapStep | src/components/timeseries.js:265-267 | swapping the inserted row with a larger left neighbour keeps the insertion in progress and the same rows |
| TimeSeriesChart.InsertionDone | src/components/timeseries.js:265-267 | once the inserted row is not below its left neighbour, the prefix through it is sorted |
| TimeSeriesChart.Spliced | src/components/timeseries.js:264 | removing the first element leaves every later row, in order, and leaves an empty array empty |
| TimeSeriesChart.TimeSeries.constructor | src/components/timeseries.js:5-11 | the component starts with no series, no datapoints, no state rows, and the cursor at 10 |
| TimeSeriesChart.TimeSeries.LoadTimeseries | src/components/timeseries.js:28-32 | a series is accepted only with more than one day; then the datapoint is the last day, the cursor is on it, and every label is defined |
| TimeSeriesChart.TimeSeries.MouseMove | src/components/timeseries.js:160-171 | the datapoint and cursor move to day i only when i is inside the series, which keeps every label defined; otherwise nothing changes |
| TimeSeriesChart.TimeSeries.MouseOut | src/components/timeseries.js:149-158 | leaving a national chart puts the datapoint and cursor back on the last day |
| TimeSeriesChart.TimeSeries.Label | src/components/timeseries.js:487-498 | the label under a national chart is DeltaAt of the series at the shared cursor; LoadTimeseries and MouseMove keep it defined |
| TimeSeriesChart.TimeSeries.GraphDataStates | src/components/timeseries.js:261-269 | the state rows become the input minus its first row, permuted and sorted by confirmed count; the datapoint is the last row and the cursor its index; with fewer than two input rows the cursor becomes -1 and drawing the focus dots fails with a TypeError, otherwise the dots sit on the last row |
| TimeSeriesChart.TimeSeries.StateMouseMove | src/components/timeseries.js:360-371 | the re-sort leaves the sorted rows unchanged; the datapoint and cursor move to row i only when i is inside the rows |
| TimeSeriesChart.TimeSeries.StateMouseOut | src/components/timeseries.js:349-358 | leaving a state chart puts the datapoint and cursor back on the last row; with no rows the handler was never bound and nothing changes |

## Left out

- Projection, `fitWidth`/`fitSize`, `path.bounds` and the view-box computation (choropleth.js:92-109). This is floating-point geometry; `width` is a parameter of `BorderLayers`.
- `topojson.feature`/`topojson.mesh` decoding and the `useSWR`/`d3.json` geometry fetch. These are a foreign library and network I/O. Features and meshes arrive as values.
- The d3 ramps `interpolateReds`/`Blues`/`Greens`/`Greys`. Colours are tokens: a ramp and an intensity.
- `capitalizeAll`, `MapLegend` and the i18n `t(...)`. Their source is not part of this model. The tooltip name is kept as it is in the data.
- ChoroplethRules.Share: the tooltip's `toFixed(2)` rounding and its number-to-text formatting are not modelled. The share is the exact real ratio.
- Transitions, the 500 ms timing, the svg's `zone` class, and the per-region `pointer-events` switched off at each redraw and back on at transition end. These are rendering side effects. Only the svg-level switch is modelled; while it is off every region and svg handler does nothing.
- `changeMap` and `setRegionHighlighted`. These are calls into the parent. `Click` returns the requested state, and `MouseEnter`/`TapOutside` return the selector to set.
- The zone ordinal scale's implicit domain growth for labels other than Red, Orange and Green. The zone label type has exactly those three.
- `MAP_STATISTICS`, `MAP_TYPES` and `MAP_META` from `constants.js`. That file is not part of this model. The component only tests for ZONE and TOTAL, STATE and COUNTRY, and STATES and DISTRICTS, so those are the enumerations used.
- ChoroplethMap.ChoroplethMap.TouchStart: the handlers are bound only when a path enters, so they close over the `onceTouchedRegion` of the render that created the path. The model keeps one flag per map identity. That is the source's behaviour when every region of the map entered in its first render; a region entered by a later render of the same map closes over that render's fresh flag, which is not modelled.
- ChoroplethMap.ChoroplethMap.Redraw: titles regions with the corrected tooltip (`RegionTooltip`), so a region whose entry lacks the metric shows 0% where the source shows `NaN%`; the as-written tooltip is `ShareAsWritten`, see Findings.
- ChoroplethMap.ChoroplethMap.TapOutside: before a new map's first draw, the svg still carries the click handler of the previous map, which tests the previous map's type; the model lets the undrawn map ignore the tap instead.
- ChoroplethMap.ChoroplethMap.Redraw: requires the incoming feature keys to be distinct. d3's keyed join accepts duplicate keys and sends the extra data to the enter selection; that case is not modelled.
- ChoroplethRules.FeatureIdInjective: uniqueness of keys is proved only for state names without `-`. `FeatureIdCollision` shows that the key scheme itself allows collisions otherwise.
- String-to-number coercion (`+d[c]`, `a.confirmed - b.confirmed`). Row fields are integers.
- d3 scale objects, `.nice()`, `scaleTime`/`scaleBand`, `indexScale.invert` and `Math.round`. The hovered index is an input of `MouseMove`/`StateMouseMove`. Scales are described by kind and domain.
- Tick counts (`Math.log10`), date parsing (`new Date(date + '2020')`), the "Yesterday" caption, dots, lines and focus circles. These are float and display formatting.
- React lifecycle: `useEffect`/`useCallback`, the `update` counter and `refreshGraphs`, and `mode`/`logMode` state. These are parameters of the rules.
- TimeSeriesChart.SortByConfirmed: the contract states sortedness and permutation, not stability. `Array.prototype.sort` is stable, and the adjacent-swap insertion sort is too, but that is not proved.
- TimeSeriesChart.TimeSeries.GraphDataStates: `splice` and `sort` mutate the caller's `statesData` array in place. The model copies the spliced rows into a fresh array and sorts that, so it does not capture the aliasing of the parent's array.
- `Home.js`, `footer.js` and `About.js`: page composition, static markup and a FAQ fetch.

## Findings

| source | as written | input that shows it | evidently intended | confidence | as-written member | corrected member |
|---|---|---|---|---|---|---|
| src/components/choropleth.js:211-216 | the tooltip lookup guards `mapData[state]` and `mapData[state][district]` but not the metric level, so a region whose entry lacks the metric reads `undefined` and shows `NaN% from …` | total mode, confirmed metric, `mapData = {Kerala: {}}`, feature Kerala: the fill is `#ffffff00`, the tooltip is NaN | the same guarded lookup as the fill (lines 177-188), so the tooltip reads 0% for any region the fill leaves transparent | medium, not executed | ChoroplethRules.TooltipNaNWitness | ChoroplethRules.RegionTooltip |
