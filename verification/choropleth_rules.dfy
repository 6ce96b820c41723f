/**
 * The per-region decision rules of the choropleth map: which value a region
 * shows, how that value becomes a fill colour, the colour-scale configuration,
 * the feature identity key, the tooltip share, the border layers and the
 * selector a hovered region produces.  Colours are opaque tokens: a hex string,
 * or a point on one of the library's colour ramps.
 */
module ChoroplethRules {
  import opened Wrappers
  import opened Text

  // ---------------------------------------------------------------------------
  // Enumerations the component switches on
  // ---------------------------------------------------------------------------

  /** Whether the map shows the whole country or one state. */
  datatype MapType = Country | State
  /** Which boundary layer the regions are drawn from. */
  datatype MapView = States | Districts
  /** Numeric totals, or the categorical zone classification. */
  datatype MapStatistic = Total | Zone
  /** The metric (`mapOption`) the map is coloured by. */
  datatype Metric = Confirmed | Active | Recovered | Deceased
  /** The three zone categories. */
  datatype ZoneLabel = Red | Orange | Green
  /** The library colour ramps, one per metric. */
  datatype Hue = Reds | Blues | Greens | Greys

  datatype Color = Hex(code: string) | Ramp(hue: Hue, intensity: real)

  const TRANSPARENT: Color := Hex("#ffffff00")
  /** Stroke of a hovered region in zone mode. */
  const ZONE_HOVER_STROKE: Color := Hex("#343a40")
  /** Intensity ceiling of every ramp: inputs in [0, 1] are scaled by 0.85. */
  const RAMP_CEILING: real := 0.85
  const ZONE_DOMAIN: seq<ZoneLabel> := [Red, Orange, Green]
  const ZONE_RANGE: seq<string> := ["#d73027", "#fee08b", "#66bd63"]

  /** The base colour of a metric with an alpha suffix appended (`caseColor`). */
  function CaseColor(m: Metric, alpha: string): (c: string)
    ensures |c| == 7 + |alpha| && c[0] == '#' && c[7..] == alpha
  {
    match m
    case Confirmed => "#ff073a" + alpha
    case Active => "#007bff" + alpha
    case Recovered => "#28a745" + alpha
    case Deceased => "#6c757d" + alpha
  }

  /** The ramp a metric is interpolated on (`colorInterpolator`). */
  function HueOf(m: Metric): Hue
  {
    match m
    case Confirmed => Reds
    case Active => Blues
    case Recovered => Greens
    case Deceased => Greys
  }

  /** The interpolator handed to the sequential scale: ramp of `m` at `t * 0.85`. */
  function ColorInterpolator(m: Metric, t: real): (c: Color)
    ensures c.Ramp? && c.hue == HueOf(m) && c.intensity == t * RAMP_CEILING
  {
    Ramp(HueOf(m), t * RAMP_CEILING)
  }

  /** Distinct metrics get distinct ramps and distinct base colours. */
  lemma MetricColorsDistinct(m1: Metric, m2: Metric)
    ensures HueOf(m1) == HueOf(m2) <==> m1 == m2
    ensures CaseColor(m1, "") == CaseColor(m2, "") <==> m1 == m2
  {
  }

  // ---------------------------------------------------------------------------
  // Features and their identity key
  // ---------------------------------------------------------------------------

  /** A region of the loaded geometry: its state name and optional district name. */
  datatype Feature = Feature(state: string, district: Option<string>)

  /** JavaScript truthiness of the district property: absent and "" both count as no district. */
  predicate IsDistrict(f: Feature)
  {
    f.district.Some? && f.district.value != ""
  }

  /** The district the key and the lookups use: the property when it is truthy. */
  function DistrictKey(f: Feature): (d: Option<string>)
    ensures d.Some? <==> IsDistrict(f)
    ensures d.Some? ==> d == f.district
  {
    if IsDistrict(f) then f.district else None
  }

  /** The identity key `map-state[-district]` that joins features to shapes. */
  function FeatureId(mapName: string, f: Feature): (id: string)
    ensures |id| == |mapName| + 1 + |f.state| + (if IsDistrict(f) then 1 + |f.district.value| else 0)
    ensures id[..|mapName| + 1] == mapName + "-"
  {
    mapName + "-" + f.state + (if IsDistrict(f) then "-" + f.district.value else "")
  }

  /** Splits a key back into state and district, the inverse of `FeatureId` for state names without '-'. */
  function ParseFeatureId(mapName: string, id: string): (r: Option<(string, Option<string>)>)
    ensures r.Some? <==> |id| > |mapName| && id[..|mapName| + 1] == mapName + "-"
    ensures r.Some? ==> '-' !in r.value.0
  {
    if |id| > |mapName| && id[..|mapName| + 1] == mapName + "-" then
      var rest := id[|mapName| + 1..];
      match IndexOf(rest, '-')
      case None => Some((rest, None))
      case Some(k) => Some((rest[..k], Some(rest[k + 1..])))
    else None
  }

  /** Parsing a key gives back the feature's state and its truthy district. */
  lemma {:induction false} FeatureIdRoundTrip(mapName: string, f: Feature)
    requires '-' !in f.state
    ensures ParseFeatureId(mapName, FeatureId(mapName, f)) == Some((f.state, DistrictKey(f)))
  {
    var id := FeatureId(mapName, f);
    var rest := id[|mapName| + 1..];
    if IsDistrict(f) {
      var d := f.district.value;
      assert rest == f.state + "-" + d;
      assert rest[|f.state|] == '-';
      assert rest[..|f.state|] == f.state;
      assert IndexOf(rest, '-') == Some(|f.state|);
      assert rest[|f.state| + 1..] == d;
    } else {
      assert rest == f.state;
    }
  }

  /** Keys are unique per region: two features whose state names have no '-' share a key exactly when they name the same region. */
  lemma FeatureIdInjective(mapName: string, f: Feature, g: Feature)
    requires '-' !in f.state && '-' !in g.state
    ensures FeatureId(mapName, f) == FeatureId(mapName, g) <==>
            f.state == g.state && DistrictKey(f) == DistrictKey(g)
  {
    if FeatureId(mapName, f) == FeatureId(mapName, g) {
      FeatureIdRoundTrip(mapName, f);
      FeatureIdRoundTrip(mapName, g);
    }
  }

  /** Without the '-' restriction keys can collide: state "A-B" and district "B" of state "A". */
  lemma FeatureIdCollision()
    ensures FeatureId("India", Feature("A-B", None)) == FeatureId("India", Feature("A", Some("B")))
  {
  }

  // ---------------------------------------------------------------------------
  // Statistics and the per-region value lookup
  // ---------------------------------------------------------------------------

  /** The counts of one state and, nested under district names, of its districts. */
  datatype StateEntry = StateEntry(counts: map<Metric, int>, districts: map<string, map<Metric, int>>)

  /** The statistic mapping: numeric counts in total mode, zone labels per district in zone mode. */
  datatype MapData =
    | Counts(states: map<string, StateEntry>)
    | Zones(zones: map<string, map<string, ZoneLabel>>)

  /** The mapping has the shape the statistic mode reads. */
  predicate Conforms(stat: MapStatistic, data: MapData)
  {
    (stat == Zone) == data.Zones?
  }

  /** The per-metric aggregates `{max, total}` of the statistic mapping. */
  datatype Aggregate = Aggregate(max: int, total: int)

  /** What the fill rule receives: a count (0 when missing) or a zone label. */
  datatype RegionValue = Count(n: int) | Zoned(category: ZoneLabel)

  /** Whether the mapping records `v` for the region of `f` under `metric`. */
  ghost predicate Recorded(states: map<string, StateEntry>, f: Feature, metric: Metric, v: int)
  {
    && f.state in states
    && (if IsDistrict(f)
        then f.district.value in states[f.state].districts
             && metric in states[f.state].districts[f.district.value]
             && states[f.state].districts[f.district.value][metric] == v
        else metric in states[f.state].counts && states[f.state].counts[metric] == v)
  }

  /**
   * Total-mode lookup: `mapData[state][district][metric]` for a district,
   * `mapData[state][metric]` for a state, each guarded by JavaScript truthiness.
   */
  function CountOf(states: map<string, StateEntry>, f: Feature, metric: Metric): (n: int)
    ensures Recorded(states, f, metric, n) || (n == 0 && forall v :: !Recorded(states, f, metric, v))
    ensures forall v :: Recorded(states, f, metric, v) ==> n == v
  {
    if IsDistrict(f) then
      var d := f.district.value;
      if f.state in states && d in states[f.state].districts
         && metric in states[f.state].districts[d] && states[f.state].districts[d][metric] != 0
      then states[f.state].districts[d][metric] else 0
    else
      if f.state in states && metric in states[f.state].counts && states[f.state].counts[metric] != 0
      then states[f.state].counts[metric] else 0
  }

  /** The property key JavaScript reads for `mapData[state][district]`: an absent district reads key "undefined". */
  function ZoneKey(f: Feature): string
  {
    match f.district
    case Some(d) => d
    case None => "undefined"
  }

  /** Zone-mode lookup: `mapData[state][district]`, or nothing when either level is missing. */
  function ZoneOf(zones: map<string, map<string, ZoneLabel>>, f: Feature): (z: Option<ZoneLabel>)
    ensures z.Some? <==> f.state in zones && ZoneKey(f) in zones[f.state]
    ensures z.Some? ==> z.value == zones[f.state][ZoneKey(f)]
  {
    if f.state in zones && ZoneKey(f) in zones[f.state] then Some(zones[f.state][ZoneKey(f)]) else None
  }

  /** The value a region is filled by, in either statistic mode; every missing level gives 0. */
  function RegionValueOf(stat: MapStatistic, data: MapData, f: Feature, metric: Metric): (v: RegionValue)
    requires Conforms(stat, data)
    ensures stat == Zone ==> (v.Zoned? <==> ZoneOf(data.zones, f).Some?)
    ensures stat == Total ==> v == Count(CountOf(data.states, f, metric))
    ensures stat == Zone ==> v == (if ZoneOf(data.zones, f).Some? then Zoned(ZoneOf(data.zones, f).value) else Count(0))
    ensures f.state !in (if data.Zones? then data.zones.Keys else data.states.Keys) ==> v == Count(0)
  {
    if stat == Zone then
      match ZoneOf(data.zones, f)
      case Some(z) => Zoned(z)
      case None => Count(0)
    else Count(CountOf(data.states, f, metric))
  }

  // ---------------------------------------------------------------------------
  // Colour scale and fill rule
  // ---------------------------------------------------------------------------

  /**
   * A sequential scale over the domain [0, upper] on the ramp of `metric`, or
   * the fixed three-way ordinal scale of zone mode.
   */
  datatype ColorScale = Sequential(metric: Metric, upper: int, clamped: bool) | ZoneOrdinal

  /** The colour scale for the statistic mode and metric (`colorScale`). */
  function BuildColorScale(stat: MapStatistic, metric: Metric, statistic: map<Metric, Aggregate>): (s: ColorScale)
    requires stat == Total ==> metric in statistic
    ensures s.ZoneOrdinal? <==> stat == Zone
    ensures s.Sequential? ==> s.metric == metric && s.clamped
    ensures s.Sequential? ==> s.upper >= 1 && s.upper >= statistic[metric].max
    ensures s.Sequential? ==> s.upper == statistic[metric].max || s.upper == 1
  {
    if stat == Zone then ZoneOrdinal
    else Sequential(metric, if statistic[metric].max > 1 then statistic[metric].max else 1, true)
  }

  /** The values a scale accepts: counts for a sequential scale, labels for the ordinal one. */
  predicate Accepts(scale: ColorScale, v: RegionValue)
  {
    scale.Sequential? == v.Count?
  }

  /** Position of a zone label in the ordinal domain. */
  function ZoneIndex(z: ZoneLabel): (i: nat)
    ensures i < |ZONE_DOMAIN| && ZONE_DOMAIN[i] == z
  {
    match z
    case Red => 0
    case Orange => 1
    case Green => 2
  }

  /** Clamping to [0, 1] as `scale.clamp(true)` does. */
  function Clamp01(t: real): (r: real)
    ensures 0.0 <= r <= 1.0
    ensures 0.0 <= t <= 1.0 ==> r == t
    ensures t < 0.0 ==> r == 0.0
    ensures t > 1.0 ==> r == 1.0
  {
    if t < 0.0 then 0.0 else if t > 1.0 then 1.0 else t
  }

  /** Applying a scale to a value it accepts. */
  function Paint(scale: ColorScale, v: RegionValue): (c: Color)
    requires scale.Sequential? ==> scale.upper >= 1
    requires Accepts(scale, v)
    ensures c != TRANSPARENT
  {
    match scale
    case Sequential(m, upper, clamped) =>
      var t := v.n as real / upper as real;
      ColorInterpolator(m, if clamped then Clamp01(t) else t)
    case ZoneOrdinal => Hex(ZONE_RANGE[ZoneIndex(v.category)])
  }

  /** On a clamped sequential scale the intensity stays within [0, 0.85], reaches 0.85 from the domain maximum on, and grows with the value. */
  lemma SequentialIntensity(m: Metric, upper: int, a: int, b: int)
    requires upper >= 1 && a <= b
    ensures var ca, cb := Paint(Sequential(m, upper, true), Count(a)), Paint(Sequential(m, upper, true), Count(b));
      && ca.hue == HueOf(m)
      && 0.0 <= ca.intensity <= RAMP_CEILING
      && ca.intensity <= cb.intensity
      && (a <= 0 ==> ca.intensity == 0.0)
      && (a >= upper ==> ca.intensity == RAMP_CEILING)
      && (0 <= a <= upper ==> ca.intensity == RAMP_CEILING * (a as real / upper as real))
  {
    var u := upper as real;
    RatioFacts(a as real, u);
    RatioMonotone(a as real, b as real, u);
  }

  /** Where x / u lies relative to 0 and 1, for a positive u. */
  lemma RatioFacts(x: real, u: real)
    requires u > 0.0
    ensures x >= u ==> x / u >= 1.0
    ensures 0.0 <= x <= u ==> 0.0 <= x / u <= 1.0
  {
    assert (x / u) * u == x;
  }

  /** Division by a positive u keeps order. */
  lemma RatioMonotone(x: real, y: real, u: real)
    requires u > 0.0 && x <= y
    ensures x / u <= y / u
  {
    assert (x / u) * u == x && (y / u) * u == y;
  }

  /** Zone mode maps exactly Red, Orange and Green to three fixed, distinct colours. */
  lemma ZoneColors(z1: ZoneLabel, z2: ZoneLabel)
    ensures Paint(ZoneOrdinal, Zoned(Red)) == Hex("#d73027")
    ensures Paint(ZoneOrdinal, Zoned(Orange)) == Hex("#fee08b")
    ensures Paint(ZoneOrdinal, Zoned(Green)) == Hex("#66bd63")
    ensures Paint(ZoneOrdinal, Zoned(z1)) == Paint(ZoneOrdinal, Zoned(z2)) <==> z1 == z2
  {
  }

  /** The fill rule: a value of 0 is transparent whatever the scale; anything else goes through the scale. */
  function Fill(scale: ColorScale, v: RegionValue): (c: Color)
    requires scale.Sequential? ==> scale.upper >= 1
    requires v != Count(0) ==> Accepts(scale, v)
    ensures c == TRANSPARENT <==> v == Count(0)
    ensures v != Count(0) ==> c == Paint(scale, v)
  {
    if v == Count(0) then TRANSPARENT else Paint(scale, v)
  }

  /** The fill of the region of `f` in the current statistic mode, metric and data. */
  function RegionFill(stat: MapStatistic, metric: Metric, statistic: map<Metric, Aggregate>, data: MapData, f: Feature): (c: Color)
    requires Conforms(stat, data)
    requires stat == Total ==> metric in statistic
    ensures c == TRANSPARENT <==> RegionValueOf(stat, data, f, metric) == Count(0)
    ensures stat == Total ==> (c == TRANSPARENT <==> CountOf(data.states, f, metric) == 0)
    ensures stat == Zone ==> (c == TRANSPARENT <==> ZoneOf(data.zones, f).None?)
    ensures stat == Total && c != TRANSPARENT ==> c.Ramp? && c.hue == HueOf(metric) && 0.0 <= c.intensity <= RAMP_CEILING
    ensures stat == Total && c != TRANSPARENT ==>
      c.intensity == RAMP_CEILING * Clamp01(CountOf(data.states, f, metric) as real / BuildColorScale(stat, metric, statistic).upper as real)
    ensures stat == Zone && ZoneOf(data.zones, f).Some? ==> c == Hex(ZONE_RANGE[ZoneIndex(ZoneOf(data.zones, f).value)])
  {
    Fill(BuildColorScale(stat, metric, statistic), RegionValueOf(stat, data, f, metric))
  }

  /**
   * A region missing from the mapping is transparent in either mode; in total
   * mode so is a region recorded as 0 or without a value for the metric at
   * any level.
   */
  lemma MissingRegionTransparent(stat: MapStatistic, metric: Metric, statistic: map<Metric, Aggregate>, data: MapData, f: Feature)
    requires Conforms(stat, data)
    requires stat == Total ==> metric in statistic
    requires f.state !in (if data.Zones? then data.zones.Keys else data.states.Keys)
             || (stat == Total && (Recorded(data.states, f, metric, 0) || forall v :: !Recorded(data.states, f, metric, v)))
    ensures RegionFill(stat, metric, statistic, data, f) == TRANSPARENT
  {
  }

  // ---------------------------------------------------------------------------
  // Tooltip
  // ---------------------------------------------------------------------------

  /** Tooltip text: `percent + "% from " + name`; the two-decimal rounding and capitalisation are not modelled. */
  datatype Tooltip = Tooltip(percent: real, name: string)

  /** `100 * n / (total || 0.001)`: a zero total is replaced by 0.001 to avoid dividing by zero. */
  function Share(n: int, total: int): (r: real)
    ensures total != 0 ==> r * total as real == 100.0 * n as real
    ensures total == 0 ==> r == 100000.0 * n as real
    ensures r == 0.0 <==> n == 0
    ensures 0 <= n <= total ==> 0.0 <= r <= 100.0
  {
    var denominator: real := if total == 0 then 0.001 else total as real;
    var r := 100.0 * (n as real / denominator);
    assert r * denominator == 100.0 * n as real;
    assert 0 <= n <= total ==> 0.0 <= n as real / denominator <= 1.0;
    r
  }

  /** The name the tooltip labels a region with: its district when it has one, else its state. */
  function DisplayName(f: Feature): (s: string)
    ensures IsDistrict(f) ==> s == f.district.value
    ensures !IsDistrict(f) ==> s == f.state
  {
    if IsDistrict(f) then f.district.value else f.state
  }

  /** The tooltip of a region: only in total mode, with the region's share of the metric total. */
  function RegionTooltip(stat: MapStatistic, metric: Metric, statistic: map<Metric, Aggregate>, data: MapData, f: Feature): (t: Option<Tooltip>)
    requires Conforms(stat, data)
    requires stat == Total ==> metric in statistic
    ensures t.Some? <==> stat == Total
    ensures t.Some? ==> t.value.name == DisplayName(f)
    ensures t.Some? ==> t.value.percent == Share(CountOf(data.states, f, metric), statistic[metric].total)
    ensures t.Some? ==> (t.value.percent == 0.0 <==> RegionFill(stat, metric, statistic, data, f) == TRANSPARENT)
  {
    if stat == Total
    then Some(Tooltip(Share(CountOf(data.states, f, metric), statistic[metric].total), DisplayName(f)))
    else None
  }

  /** The region's own entry is in the mapping but has no value for the metric. */
  predicate MetricMissing(states: map<string, StateEntry>, f: Feature, metric: Metric)
  {
    && f.state in states
    && (if IsDistrict(f)
        then f.district.value in states[f.state].districts && metric !in states[f.state].districts[f.district.value]
        else metric !in states[f.state].counts)
  }

  /**
   * The tooltip count as written: `mapData[state][district] ? ...[metric] : 0`
   * and `mapData[state] ? mapData[state][metric] : 0` do not guard the metric
   * level, so a missing metric reads `undefined` (None here).
   */
  function TooltipCountAsWritten(states: map<string, StateEntry>, f: Feature, metric: Metric): (n: Option<int>)
    ensures n.None? <==> MetricMissing(states, f, metric)
    ensures n.Some? ==> n.value == CountOf(states, f, metric)
  {
    if IsDistrict(f) then
      var d := f.district.value;
      if f.state in states && d in states[f.state].districts then
        if metric in states[f.state].districts[d] then
          assert Recorded(states, f, metric, states[f.state].districts[d][metric]);
          Some(states[f.state].districts[d][metric])
        else None
      else Some(0)
    else if f.state in states then
      if metric in states[f.state].counts then
        assert Recorded(states, f, metric, states[f.state].counts[metric]);
        Some(states[f.state].counts[metric])
      else None
    else Some(0)
  }

  /** The as-written share: `undefined / total` is NaN (None here). */
  function ShareAsWritten(states: map<string, StateEntry>, f: Feature, metric: Metric, total: int): (p: Option<real>)
    ensures p.None? <==> MetricMissing(states, f, metric)
    ensures p.Some? ==> p.value == Share(CountOf(states, f, metric), total)
  {
    match TooltipCountAsWritten(states, f, metric)
    case Some(n) => Some(Share(n, total))
    case None => None
  }

  /** A state that is in the mapping without the metric gets a transparent fill but a NaN tooltip as written. */
  lemma TooltipNaNWitness()
    ensures var states := map["Kerala" := StateEntry(map[], map[])];
      && ShareAsWritten(states, Feature("Kerala", None), Confirmed, 1000).None?
      && RegionFill(Total, Confirmed, map[Confirmed := Aggregate(1000, 1000)], Counts(states), Feature("Kerala", None)) == TRANSPARENT
  {
    var states := map["Kerala" := StateEntry(map[], map[])];
    assert !Recorded(states, Feature("Kerala", None), Confirmed, 0);
  }

  /** Wherever the as-written tooltip is defined it agrees with the model's tooltip. */
  lemma TooltipAgreesWhereDefined(metric: Metric, statistic: map<Metric, Aggregate>, states: map<string, StateEntry>, f: Feature)
    requires metric in statistic
    requires ShareAsWritten(states, f, metric, statistic[metric].total).Some?
    ensures RegionTooltip(Total, metric, statistic, Counts(states), f).value.percent
            == ShareAsWritten(states, f, metric, statistic[metric].total).value
  {
  }

  /** The scenario: Kerala with 500 of 1000 confirmed shows the confirmed ramp at half the ceiling, and "50% from Kerala". */
  lemma KeralaScenario()
    ensures var data := Counts(map["Kerala" := StateEntry(map[Confirmed := 500], map[])]);
      var statistic := map[Confirmed := Aggregate(1000, 1000)];
      && RegionFill(Total, Confirmed, statistic, data, Feature("Kerala", None)) == Ramp(Reds, 0.5 * RAMP_CEILING)
      && RegionTooltip(Total, Confirmed, statistic, data, Feature("Kerala", None)) == Some(Tooltip(50.0, "Kerala"))
  {
    var states := map["Kerala" := StateEntry(map[Confirmed := 500], map[])];
    assert Recorded(states, Feature("Kerala", None), Confirmed, 500);
  }

  // ---------------------------------------------------------------------------
  // Border layers
  // ---------------------------------------------------------------------------

  /** The two SVG groups boundary lines are drawn into. */
  datatype BorderGroup = StateBorders | DistrictBorders
  /** The two meshes derived from the topology. */
  datatype Mesh = StatesMesh | DistrictsMesh

  /** One border group, the meshes joined into it, and the stroke its new paths get. */
  datatype BorderLayer = BorderLayer(group: BorderGroup, meshes: seq<Mesh>, strokeWidth: real, stroke: Color)

  /** The state mesh exists only on country maps. */
  function StateMeshes(mapType: MapType): seq<Mesh>
  {
    if mapType == Country then [StatesMesh] else []
  }

  /** The district mesh exists only in the districts view. */
  function DistrictMeshes(view: MapView): seq<Mesh>
  {
    if view == Districts then [DistrictsMesh] else []
  }

  /**
   * The primary layer (the group of the current view) followed by the other
   * group; `width` is the width of the frozen view box.
   */
  function BorderLayers(mapType: MapType, view: MapView, stat: MapStatistic, metric: Metric, width: real): (layers: seq<BorderLayer>)
    ensures |layers| == 2 && layers[0].group != layers[1].group
    ensures layers[0].group == (if view == States then StateBorders else DistrictBorders)
    ensures layers[1].strokeWidth == width / 250.0 && layers[1].stroke == Hex("#343a4099")
    ensures layers[0].stroke == (if stat == Zone then Hex("#00000060") else Hex(CaseColor(metric, "30")))
  {
    var primaryWidth := if mapType == Country && view == Districts then 0.0 else width / 250.0;
    var primaryStroke := if stat == Zone then Hex("#00000060") else Hex(CaseColor(metric, "30"));
    if view == States then
      [BorderLayer(StateBorders, StateMeshes(mapType), primaryWidth, primaryStroke),
       BorderLayer(DistrictBorders, DistrictMeshes(view), width / 250.0, Hex("#343a4099"))]
    else
      [BorderLayer(DistrictBorders, DistrictMeshes(view), primaryWidth, primaryStroke),
       BorderLayer(StateBorders, StateMeshes(mapType), width / 250.0, Hex("#343a4099"))]
  }

  /** Which mesh exists, where it is drawn, and the width it is drawn with. */
  lemma BorderRules(mapType: MapType, view: MapView, stat: MapStatistic, metric: Metric, width: real)
    requires width > 0.0
    ensures var layers := BorderLayers(mapType, view, stat, metric, width);
      && (forall i :: 0 <= i < 2 && StatesMesh in layers[i].meshes ==> layers[i].group == StateBorders)
      && (forall i :: 0 <= i < 2 && DistrictsMesh in layers[i].meshes ==> layers[i].group == DistrictBorders)
      && ((exists i :: 0 <= i < 2 && StatesMesh in layers[i].meshes) <==> mapType == Country)
      && ((exists i :: 0 <= i < 2 && DistrictsMesh in layers[i].meshes) <==> view == Districts)
      && (forall i :: 0 <= i < 2 && StatesMesh in layers[i].meshes ==> layers[i].strokeWidth == width / 250.0)
      && (forall i :: 0 <= i < 2 && DistrictsMesh in layers[i].meshes ==>
            (layers[i].strokeWidth == 0.0 <==> mapType == Country)
            && (mapType == State ==> layers[i].strokeWidth == width / 250.0))
  {
    var layers := BorderLayers(mapType, view, stat, metric, width);
    if mapType == Country {
      assert StatesMesh in layers[if view == States then 0 else 1].meshes;
    }
    if view == Districts {
      assert DistrictsMesh in layers[0].meshes;
    }
  }

  // ---------------------------------------------------------------------------
  // Selection
  // ---------------------------------------------------------------------------

  /** The externally owned highlighted region `{state, district?}`. */
  datatype Selector = Selector(state: string, district: Option<string>)

  /** The selection an outside tap resets to. */
  const WHOLE_AREA: Selector := Selector("Total", None)

  /** The selector `mouseenter` emits: the state, and the district when it is truthy. */
  function SelectorOf(f: Feature): (s: Selector)
    ensures s.state == f.state && s.district == DistrictKey(f)
  {
    Selector(f.state, DistrictKey(f))
  }

  /** The highlight test: state and district both strictly equal to the selector's. */
  predicate Matches(sel: Selector, f: Feature)
    ensures Matches(sel, f) ==> sel == SelectorOf(f) || f.district == Some("")
  {
    sel.district == f.district && sel.state == f.state
  }

  /** Hovering a region selects it, except a region whose district property is the empty string. */
  lemma HoverSelectsOwnRegion(f: Feature)
    ensures Matches(SelectorOf(f), f) <==> f.district != Some("")
  {
  }

  /** Regions that a selector matches share a key. */
  lemma MatchedShareKey(mapName: string, sel: Selector, f: Feature, g: Feature)
    requires Matches(sel, f) && Matches(sel, g)
    ensures FeatureId(mapName, f) == FeatureId(mapName, g)
  {
  }
}
