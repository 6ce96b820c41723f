/**
 * The scene of region shapes the choropleth map keeps between renders, and the
 * interaction state that its event handlers update: the touch flag that tells
 * an inspecting tap from a drill-down click, the map's pointer-events switch,
 * and the hover highlight that marks one region and raises it to the top.
 */
module ChoroplethMap {
  import opened Wrappers
  import opened ChoroplethRules

  /** One region path: its feature and key, the metric class it carries, and its drawn attributes. */
  datatype Shape = Shape(
    feature: Feature,
    id: string,
    metric: Metric,
    hovered: bool,
    fill: Color,
    stroke: Option<Color>,
    title: Option<Tooltip>)

  /** The stroke of a hovered shape: a fixed dark tone in zone mode, else the base colour of the shape's metric class. */
  function HoverStroke(stat: MapStatistic, s: Shape): (c: Color)
    ensures stat == Total ==> c == Hex(CaseColor(s.metric, ""))
    ensures stat == Zone ==> c == ZONE_HOVER_STROKE
  {
    if stat == Zone then ZONE_HOVER_STROKE else Hex(CaseColor(s.metric, ""))
  }

  /** Sets or clears the `map-hover` class together with the stroke that goes with it. */
  function Mark(s: Shape, on: bool, stat: MapStatistic): (r: Shape)
    ensures r.feature == s.feature && r.id == s.id && r.metric == s.metric
    ensures r.fill == s.fill && r.title == s.title
    ensures r.hovered == on
    ensures r.stroke == if on then Some(HoverStroke(stat, s)) else None
  {
    s.(hovered := on, stroke := if on then Some(HoverStroke(stat, s)) else None)
  }

  function Features(s: seq<Shape>): (fs: seq<Feature>)
    ensures |fs| == |s| && forall i :: 0 <= i < |s| ==> fs[i] == s[i].feature
  {
    seq(|s|, i requires 0 <= i < |s| => s[i].feature)
  }

  /** Shape keys are pairwise distinct. */
  predicate DistinctIds(s: seq<Shape>)
  {
    forall i, j :: 0 <= i < |s| && 0 <= j < |s| && i != j ==> s[i].id != s[j].id
  }

  /** At most one shape carries the hover mark. */
  predicate SingleHover(s: seq<Shape>)
  {
    forall i, j :: 0 <= i < |s| && 0 <= j < |s| && s[i].hovered && s[j].hovered ==> i == j
  }

  /** The shapes without the hover mark, in their order: exactly the unhovered shapes of the scene. */
  function Unhovered(s: seq<Shape>): (r: seq<Shape>)
    ensures |r| <= |s|
    ensures forall x {:trigger x in r} :: x in r <==> x in s && !x.hovered
  {
    if s == [] then []
    else
      assert s == s[..|s| - 1] + [s[|s| - 1]];
      Unhovered(s[..|s| - 1]) + (if s[|s| - 1].hovered then [] else [s[|s| - 1]])
  }

  /** The shapes with the hover mark, in their order: exactly the hovered shapes of the scene. */
  function HoveredShapes(s: seq<Shape>): (r: seq<Shape>)
    ensures |r| <= |s|
    ensures forall x {:trigger x in r} :: x in r <==> x in s && x.hovered
  {
    if s == [] then []
    else
      assert s == s[..|s| - 1] + [s[|s| - 1]];
      HoveredShapes(s[..|s| - 1]) + (if s[|s| - 1].hovered then [s[|s| - 1]] else [])
  }

  /**
   * Every hovered shape moved behind the others (`parentNode.appendChild`),
   * each group keeping its relative order.
   */
  function RaiseHovered(s: seq<Shape>): seq<Shape>
  {
    Unhovered(s) + HoveredShapes(s)
  }

  lemma FeaturesAppend(a: seq<Shape>, b: seq<Shape>)
    ensures Features(a + b) == Features(a) + Features(b)
  {
  }

  /** How the two groups grow when one shape is appended. */
  lemma UnfoldLast(p: seq<Shape>, x: Shape)
    ensures Unhovered(p + [x]) == Unhovered(p) + (if x.hovered then [] else [x])
    ensures HoveredShapes(p + [x]) == HoveredShapes(p) + (if x.hovered then [x] else [])
  {
    assert (p + [x])[..|p|] == p;
  }

  /** Every shape of the raised scene comes from the original scene. */
  lemma RaisedMember(s: seq<Shape>, j: nat)
    requires j < |RaiseHovered(s)|
    ensures RaiseHovered(s)[j] in s
  {
    var u := Unhovered(s);
    if j < |u| {
      assert RaiseHovered(s)[j] == u[j] && u[j] in u;
    } else {
      assert RaiseHovered(s)[j] == HoveredShapes(s)[j - |u|] && HoveredShapes(s)[j - |u|] in HoveredShapes(s);
    }
  }

  /** Both groups of a concatenation are the groups of its parts, in order. */
  lemma {:induction false} AppendGroups(a: seq<Shape>, b: seq<Shape>)
    ensures Unhovered(a + b) == Unhovered(a) + Unhovered(b)
    ensures HoveredShapes(a + b) == HoveredShapes(a) + HoveredShapes(b)
    decreases |b|
  {
    if b == [] {
      assert a + b == a;
    } else {
      var p, x := b[..|b| - 1], b[|b| - 1];
      assert b == p + [x];
      assert a + b == (a + p) + [x];
      AppendGroups(a, p);
      UnfoldLast(a + p, x);
      UnfoldLast(p, x);
    }
  }

  /** The unhovered group has no hovered shape, and taking it again changes nothing. */
  lemma {:induction false} OnlyUnhovered(s: seq<Shape>)
    ensures Unhovered(Unhovered(s)) == Unhovered(s)
    ensures HoveredShapes(Unhovered(s)) == []
  {
    if s != [] {
      var p, x := s[..|s| - 1], s[|s| - 1];
      assert s == p + [x];
      OnlyUnhovered(p);
      UnfoldLast(p, x);
      if x.hovered {
        assert Unhovered(s) == Unhovered(p);
      } else {
        UnfoldLast(Unhovered(p), x);
      }
    }
  }

  /** The hovered group has no unhovered shape, and taking it again changes nothing. */
  lemma {:induction false} OnlyHovered(s: seq<Shape>)
    ensures HoveredShapes(HoveredShapes(s)) == HoveredShapes(s)
    ensures Unhovered(HoveredShapes(s)) == []
  {
    if s != [] {
      var p, x := s[..|s| - 1], s[|s| - 1];
      assert s == p + [x];
      OnlyHovered(p);
      UnfoldLast(p, x);
      if x.hovered {
        UnfoldLast(HoveredShapes(p), x);
      } else {
        assert HoveredShapes(s) == HoveredShapes(p);
      }
    }
  }

  /** Raising keeps the relative order within each group: only hovered shapes move, and among themselves they stay in order. */
  lemma RaiseKeepsOrder(s: seq<Shape>)
    ensures Unhovered(RaiseHovered(s)) == Unhovered(s)
    ensures HoveredShapes(RaiseHovered(s)) == HoveredShapes(s)
  {
    AppendGroups(Unhovered(s), HoveredShapes(s));
    OnlyUnhovered(s);
    OnlyHovered(s);
  }

  /** Raising hovered shapes only reorders: the same shapes remain. */
  lemma {:induction false} RaiseHoveredPermutes(s: seq<Shape>)
    ensures multiset(RaiseHovered(s)) == multiset(s)
  {
    if s != [] {
      var p, x := s[..|s| - 1], s[|s| - 1];
      assert s == p + [x];
      RaiseHoveredPermutes(p);
      UnfoldLast(p, x);
    }
  }

  /** Raising hovered shapes keeps the same regions. */
  lemma {:induction false} RaiseHoveredKeepsFeatures(s: seq<Shape>)
    ensures multiset(Features(RaiseHovered(s))) == multiset(Features(s))
  {
    if s != [] {
      var p, x := s[..|s| - 1], s[|s| - 1];
      assert s == p + [x];
      RaiseHoveredKeepsFeatures(p);
      KeepsFeaturesStep(p, x);
    }
  }

  /** Appending one shape keeps the regions of the raised scene in step with the scene's. */
  lemma KeepsFeaturesStep(p: seq<Shape>, x: Shape)
    requires multiset(Features(RaiseHovered(p))) == multiset(Features(p))
    ensures multiset(Features(RaiseHovered(p + [x]))) == multiset(Features(p + [x]))
  {
    UnfoldLast(p, x);
    var u, h := Unhovered(p), HoveredShapes(p);
    FeaturesInsert(p, x, []);
    assert p + [x] + [] == p + [x] && p + [] == p;
    if x.hovered {
      assert RaiseHovered(p + [x]) == (u + h) + [x] + [];
      FeaturesInsert(u + h, x, []);
      assert (u + h) + [] == u + h;
    } else {
      assert RaiseHovered(p + [x]) == u + [x] + h;
      FeaturesInsert(u, x, h);
    }
  }

  /** Inserting one shape adds exactly its region. */
  lemma FeaturesInsert(a: seq<Shape>, x: Shape, b: seq<Shape>)
    ensures multiset(Features(a + [x] + b)) == multiset(Features(a + b)) + multiset{x.feature}
  {
    FeaturesAppend(a + [x], b);
    FeaturesAppend(a, [x]);
    FeaturesAppend(a, b);
  }

  /** After raising, no unhovered shape lies above a hovered one. */
  lemma RaisedOnTop(s: seq<Shape>)
    ensures var r := RaiseHovered(s);
      forall i, j :: 0 <= i < j < |r| && r[i].hovered ==> r[j].hovered
  {
    var r, u, h := RaiseHovered(s), Unhovered(s), HoveredShapes(s);
    forall k | 0 <= k < |u|
      ensures !u[k].hovered
    {
      assert u[k] in u;
    }
    forall i, j | 0 <= i < j < |r| && r[i].hovered
      ensures r[j].hovered
    {
      assert h[j - |u|] in h;
    }
  }

  /** Distinct keys stay distinct when a shape with a new key is inserted. */
  lemma DistinctInsert(a: seq<Shape>, x: Shape, b: seq<Shape>)
    requires DistinctIds(a + b)
    requires forall y :: y in a + b ==> y.id != x.id
    ensures DistinctIds(a + [x] + b)
  {
    var ab, s := a + b, a + [x] + b;
    forall i, j | 0 <= i < |s| && 0 <= j < |s| && i != j
      ensures s[i].id != s[j].id
    {
      if i == |a| {
        assert s[j] in ab by {
          if j < |a| { assert s[j] == ab[j]; } else { assert s[j] == ab[j - 1]; }
        }
      } else if j == |a| {
        assert s[i] in ab by {
          if i < |a| { assert s[i] == ab[i]; } else { assert s[i] == ab[i - 1]; }
        }
      } else {
        var i', j' := if i < |a| then i else i - 1, if j < |a| then j else j - 1;
        assert s[i] == ab[i'] && s[j] == ab[j'];
      }
    }
  }

  /** Raising hovered shapes keeps keys distinct. */
  lemma {:induction false} RaiseHoveredDistinct(s: seq<Shape>)
    requires DistinctIds(s)
    ensures DistinctIds(RaiseHovered(s))
  {
    if s != [] {
      var p, x := s[..|s| - 1], s[|s| - 1];
      assert s == p + [x];
      DistinctPrefix(p, x);
      RaiseHoveredDistinct(p);
      DistinctStep(p, x);
    }
  }

  /** Distinct keys in `p + [x]`: distinct in `p`, and no shape of `p` has the key of `x`. */
  lemma DistinctPrefix(p: seq<Shape>, x: Shape)
    requires DistinctIds(p + [x])
    ensures DistinctIds(p)
    ensures forall y :: y in p ==> y.id != x.id
  {
    var s := p + [x];
    forall i, j | 0 <= i < |p| && 0 <= j < |p| && i != j ensures p[i].id != p[j].id {
      assert p[i] == s[i] && p[j] == s[j];
    }
    forall y | y in p ensures y.id != x.id {
      var k :| 0 <= k < |p| && p[k] == y;
      assert s[k] == y && s[|p|] == x;
    }
  }

  /** Both groups draw their shapes from the scene. */
  lemma RaisedFromScene(s: seq<Shape>)
    ensures forall y :: y in Unhovered(s) + HoveredShapes(s) ==> y in s
  {
  }

  /** Appending a shape with a new key keeps the raised scene's keys distinct. */
  lemma DistinctStep(p: seq<Shape>, x: Shape)
    requires DistinctIds(RaiseHovered(p))
    requires forall y :: y in p ==> y.id != x.id
    ensures DistinctIds(RaiseHovered(p + [x]))
  {
    UnfoldLast(p, x);
    var u, h := Unhovered(p), HoveredShapes(p);
    RaisedFromScene(p);
    assert forall y: Shape :: y in u + h ==> y.id != x.id;
    if x.hovered {
      assert RaiseHovered(p + [x]) == (u + h) + [x] + [];
      DistinctInsert(u + h, x, []);
    } else {
      assert RaiseHovered(p + [x]) == u + [x] + h;
      DistinctInsert(u, x, h);
    }
  }

  /** At most one hovered shape in, at most one hovered shape out. */
  lemma {:induction false} HoveredAtMostOne(s: seq<Shape>)
    requires SingleHover(s)
    ensures |HoveredShapes(s)| <= 1
    ensures (forall i :: 0 <= i < |s| ==> !s[i].hovered) ==> HoveredShapes(s) == []
  {
    if s != [] {
      var p, x := s[..|s| - 1], s[|s| - 1];
      HoveredAtMostOne(p);
      if x.hovered {
        assert forall i :: 0 <= i < |p| ==> !p[i].hovered by {
          forall i | 0 <= i < |p| ensures !p[i].hovered {
            assert p[i] == s[i];
          }
        }
      }
    }
  }

  // ---------------------------------------------------------------------------
  // The highlight (highlightRegionInMap)
  // ---------------------------------------------------------------------------

  /** Every shape marked exactly when it matches the selector, strokes reset on the others. */
  function MarkAll(shapes: seq<Shape>, sel: Selector, stat: MapStatistic): (r: seq<Shape>)
    ensures |r| == |shapes|
    ensures forall i :: 0 <= i < |shapes| ==> r[i] == Mark(shapes[i], Matches(sel, shapes[i].feature), stat)
  {
    seq(|shapes|, i requires 0 <= i < |shapes| => Mark(shapes[i], Matches(sel, shapes[i].feature), stat))
  }

  /** The scene after `highlightRegionInMap(sel)`. */
  function Highlighted(shapes: seq<Shape>, sel: Selector, stat: MapStatistic): seq<Shape>
  {
    RaiseHovered(MarkAll(shapes, sel, stat))
  }

  /** Each shape's key is the key of its feature on this map. */
  predicate KeyedBy(mapName: string, s: seq<Shape>)
  {
    forall i :: 0 <= i < |s| ==> s[i].id == FeatureId(mapName, s[i].feature)
  }

  /**
   * The highlight marks exactly the shapes whose state and district equal the
   * selector's, gives only them the hover stroke, keeps the same regions,
   * and puts the marked ones above all others, leaving the relative order of
   * the unmarked shapes, and of the marked ones, as it was.
   */
  lemma HighlightMarksExactly(shapes: seq<Shape>, sel: Selector, stat: MapStatistic)
    ensures var r := Highlighted(shapes, sel, stat);
      && multiset(Features(r)) == multiset(Features(shapes))
      && (forall j :: 0 <= j < |r| ==> (r[j].hovered <==> Matches(sel, r[j].feature)))
      && (forall j :: 0 <= j < |r| ==> r[j].stroke == (if r[j].hovered then Some(HoverStroke(stat, r[j])) else None))
      && (forall i, j :: 0 <= i < j < |r| && r[i].hovered ==> r[j].hovered)
      && Unhovered(r) == Unhovered(MarkAll(shapes, sel, stat))
      && HoveredShapes(r) == HoveredShapes(MarkAll(shapes, sel, stat))
  {
    var m := MarkAll(shapes, sel, stat);
    RaiseKeepsOrder(m);
    RaiseHoveredKeepsFeatures(m);
    RaisedOnTop(m);
    assert Features(m) == Features(shapes);
    var r := Highlighted(shapes, sel, stat);
    forall j | 0 <= j < |r|
      ensures r[j].hovered <==> Matches(sel, r[j].feature)
      ensures r[j].stroke == (if r[j].hovered then Some(HoverStroke(stat, r[j])) else None)
    {
      RaisedMember(m, j);
    }
  }

  /**
   * With distinct keys at most one shape is highlighted, and a shape that
   * matches the selector ends up last in paint order as the only one marked.
   */
  lemma HighlightSingle(mapName: string, shapes: seq<Shape>, sel: Selector, stat: MapStatistic)
    requires DistinctIds(shapes) && KeyedBy(mapName, shapes)
    ensures var r := Highlighted(shapes, sel, stat);
      && DistinctIds(r)
      && SingleHover(r)
      && (forall k :: 0 <= k < |shapes| && Matches(sel, shapes[k].feature) ==>
            r[|r| - 1].hovered && r[|r| - 1].feature == shapes[k].feature)
  {
    var m := MarkAll(shapes, sel, stat);
    MarkAllDistinct(shapes, sel, stat);
    RaiseHoveredDistinct(m);
    MarkedAtMostOne(mapName, shapes, sel, stat);
    RaisedSingle(m);
    forall k | 0 <= k < |shapes| && Matches(sel, shapes[k].feature)
      ensures m[k].hovered && m[k].feature == shapes[k].feature
    {
    }
  }

  /** Marking keeps every key, so distinct keys stay distinct. */
  lemma MarkAllDistinct(shapes: seq<Shape>, sel: Selector, stat: MapStatistic)
    requires DistinctIds(shapes)
    ensures DistinctIds(MarkAll(shapes, sel, stat))
  {
    var m := MarkAll(shapes, sel, stat);
    forall i, j | 0 <= i < |m| && 0 <= j < |m| && i != j ensures m[i].id != m[j].id {
      assert m[i].id == shapes[i].id && m[j].id == shapes[j].id;
    }
  }

  /** In a keyed scene with distinct keys, a selector marks at most one shape. */
  lemma MarkedAtMostOne(mapName: string, shapes: seq<Shape>, sel: Selector, stat: MapStatistic)
    requires DistinctIds(shapes) && KeyedBy(mapName, shapes)
    ensures SingleHover(MarkAll(shapes, sel, stat))
  {
    var m := MarkAll(shapes, sel, stat);
    forall i, j | 0 <= i < |m| && 0 <= j < |m| && m[i].hovered && m[j].hovered
      ensures i == j
    {
      MatchedShareKey(mapName, sel, shapes[i].feature, shapes[j].feature);
    }
  }

  /** With at most one hovered shape, raising keeps it the only one and puts it last. */
  lemma RaisedSingle(m: seq<Shape>)
    requires SingleHover(m)
    ensures var r := RaiseHovered(m);
      && SingleHover(r)
      && (forall k :: 0 <= k < |m| && m[k].hovered ==> r[|r| - 1] == m[k])
  {
    HoveredAtMostOne(m);
    var u, h, r := Unhovered(m), HoveredShapes(m), RaiseHovered(m);
    forall k | 0 <= k < |u|
      ensures !u[k].hovered
    {
      assert u[k] in u;
    }
    forall i | 0 <= i < |r| && r[i].hovered
      ensures i == |r| - 1
    {
    }
    forall k | 0 <= k < |m| && m[k].hovered
      ensures r[|r| - 1] == m[k]
    {
      assert m[k] in h;
    }
  }

  /** The highlight keeps every shape keyed by its own feature. */
  lemma HighlightKeyed(mapName: string, shapes: seq<Shape>, sel: Selector, stat: MapStatistic)
    requires KeyedBy(mapName, shapes)
    ensures KeyedBy(mapName, Highlighted(shapes, sel, stat))
  {
    var m := MarkAll(shapes, sel, stat);
    var r := Highlighted(shapes, sel, stat);
    forall j | 0 <= j < |r|
      ensures r[j].id == FeatureId(mapName, r[j].feature)
    {
      RaisedMember(m, j);
      var k :| 0 <= k < |m| && m[k] == r[j];
      assert m[k].id == shapes[k].id;
    }
  }

  // ---------------------------------------------------------------------------
  // The reconciliation of a redraw
  // ---------------------------------------------------------------------------

  /** Whether the shape that had key `id` before the redraw carried the hover mark. */
  predicate WasHovered(shapes: seq<Shape>, id: string)
  {
    exists k :: 0 <= k < |shapes| && shapes[k].id == id && shapes[k].hovered
  }

  /** Feature keys on this map are pairwise distinct. */
  predicate DistinctKeys(mapName: string, features: seq<Feature>)
  {
    forall i, j :: 0 <= i < |features| && 0 <= j < |features| && i != j ==>
      FeatureId(mapName, features[i]) != FeatureId(mapName, features[j])
  }

  /** The shape the join produces for a feature: drawn from the current data, keeping the hover mark of its key. */
  function Joined(mapName: string, old_shapes: seq<Shape>, stat: MapStatistic, metric: Metric,
                  statistic: map<Metric, Aggregate>, data: MapData, f: Feature): (s: Shape)
    requires Conforms(stat, data) && (stat == Total ==> metric in statistic)
    ensures s.feature == f && Drawn(mapName, old_shapes, stat, metric, statistic, data, s)
  {
    var id := FeatureId(mapName, f);
    Mark(Shape(f, id, metric, false, RegionFill(stat, metric, statistic, data, f), None,
               RegionTooltip(stat, metric, statistic, data, f)),
         WasHovered(old_shapes, id), stat)
  }

  /** The joined shapes, one per feature in data order. */
  function JoinAll(mapName: string, old_shapes: seq<Shape>, stat: MapStatistic, metric: Metric,
                   statistic: map<Metric, Aggregate>, data: MapData, features: seq<Feature>): (j: seq<Shape>)
    requires Conforms(stat, data) && (stat == Total ==> metric in statistic)
    ensures |j| == |features|
    ensures forall i :: 0 <= i < |features| ==> j[i] == Joined(mapName, old_shapes, stat, metric, statistic, data, features[i])
  {
    seq(|features|, i requires 0 <= i < |features| =>
      Joined(mapName, old_shapes, stat, metric, statistic, data, features[i]))
  }

  /** The scene after a redraw: one shape per feature in data order, hovered shapes raised to the top. */
  function Reconciled(mapName: string, old_shapes: seq<Shape>, stat: MapStatistic, metric: Metric,
                      statistic: map<Metric, Aggregate>, data: MapData, features: seq<Feature>): seq<Shape>
    requires Conforms(stat, data) && (stat == Total ==> metric in statistic)
  {
    RaiseHovered(JoinAll(mapName, old_shapes, stat, metric, statistic, data, features))
  }

  /**
   * What a redraw makes of one shape: keyed by its feature, in the current
   * metric class, filled and titled from the current data, hovered exactly
   * when its key was hovered before, and stroked accordingly.
   */
  predicate Drawn(mapName: string, old_shapes: seq<Shape>, stat: MapStatistic, metric: Metric,
                  statistic: map<Metric, Aggregate>, data: MapData, sh: Shape)
    requires Conforms(stat, data) && (stat == Total ==> metric in statistic)
  {
    && sh.id == FeatureId(mapName, sh.feature)
    && sh.metric == metric
    && sh.fill == RegionFill(stat, metric, statistic, data, sh.feature)
    && sh.title == RegionTooltip(stat, metric, statistic, data, sh.feature)
    && (sh.hovered <==> WasHovered(old_shapes, sh.id))
    && sh.stroke == (if sh.hovered then Some(HoverStroke(stat, sh)) else None)
  }

  /** Every joined shape is drawn from its feature, the joined scene has the incoming regions, and keys are distinct. */
  lemma JoinAllFacts(mapName: string, old_shapes: seq<Shape>, stat: MapStatistic, metric: Metric,
                     statistic: map<Metric, Aggregate>, data: MapData, features: seq<Feature>)
    requires Conforms(stat, data) && (stat == Total ==> metric in statistic)
    requires DistinctKeys(mapName, features)
    ensures var j := JoinAll(mapName, old_shapes, stat, metric, statistic, data, features);
      && Features(j) == features
      && DistinctIds(j)
      && forall k :: 0 <= k < |j| ==> Drawn(mapName, old_shapes, stat, metric, statistic, data, j[k])
  {
    var j := JoinAll(mapName, old_shapes, stat, metric, statistic, data, features);
    forall a, b | 0 <= a < |j| && 0 <= b < |j| && a != b ensures j[a].id != j[b].id {
      assert j[a].id == FeatureId(mapName, features[a]) && j[b].id == FeatureId(mapName, features[b]);
    }
  }

  /** Raising keeps every shape drawn, since it only reorders. */
  lemma RaisedDrawn(mapName: string, old_shapes: seq<Shape>, stat: MapStatistic, metric: Metric,
                    statistic: map<Metric, Aggregate>, data: MapData, s: seq<Shape>)
    requires Conforms(stat, data) && (stat == Total ==> metric in statistic)
    requires forall k :: 0 <= k < |s| ==> Drawn(mapName, old_shapes, stat, metric, statistic, data, s[k])
    ensures var r := RaiseHovered(s);
      forall i :: 0 <= i < |r| ==> Drawn(mapName, old_shapes, stat, metric, statistic, data, r[i])
  {
    var r := RaiseHovered(s);
    forall i | 0 <= i < |r|
      ensures Drawn(mapName, old_shapes, stat, metric, statistic, data, r[i])
    {
      RaisedMember(s, i);
      var k :| 0 <= k < |s| && s[k] == r[i];
    }
  }

  /**
   * A redraw keeps exactly the incoming regions with distinct keys, draws
   * every shape from the current data keeping its key's hover mark, and
   * draws hovered shapes last.
   */
  lemma ReconcileFacts(mapName: string, old_shapes: seq<Shape>, stat: MapStatistic, metric: Metric,
                       statistic: map<Metric, Aggregate>, data: MapData, features: seq<Feature>)
    requires Conforms(stat, data) && (stat == Total ==> metric in statistic)
    requires DistinctKeys(mapName, features)
    ensures var r := Reconciled(mapName, old_shapes, stat, metric, statistic, data, features);
      && multiset(Features(r)) == multiset(features)
      && DistinctIds(r) && KeyedBy(mapName, r)
      && (forall j :: 0 <= j < |r| ==> Drawn(mapName, old_shapes, stat, metric, statistic, data, r[j]))
      && (forall i, j :: 0 <= i < j < |r| && r[i].hovered ==> r[j].hovered)
  {
    var joined := JoinAll(mapName, old_shapes, stat, metric, statistic, data, features);
    JoinAllFacts(mapName, old_shapes, stat, metric, statistic, data, features);
    RaiseHoveredKeepsFeatures(joined);
    RaisedOnTop(joined);
    RaiseHoveredDistinct(joined);
    RaisedDrawn(mapName, old_shapes, stat, metric, statistic, data, joined);
  }

  /**
   * A redraw hovers a shape only for a key hovered before, so with at most
   * one hovered shape before it there is at most one after it.
   */
  lemma ReconcileSingle(mapName: string, old_shapes: seq<Shape>, stat: MapStatistic, metric: Metric,
                        statistic: map<Metric, Aggregate>, data: MapData, features: seq<Feature>)
    requires Conforms(stat, data) && (stat == Total ==> metric in statistic)
    requires DistinctKeys(mapName, features)
    requires SingleHover(old_shapes)
    ensures SingleHover(Reconciled(mapName, old_shapes, stat, metric, statistic, data, features))
  {
    var r := Reconciled(mapName, old_shapes, stat, metric, statistic, data, features);
    ReconcileFacts(mapName, old_shapes, stat, metric, statistic, data, features);
    forall i, j | 0 <= i < |r| && 0 <= j < |r| && r[i].hovered && r[j].hovered
      ensures i == j
    {
      assert Drawn(mapName, old_shapes, stat, metric, statistic, data, r[i]);
      assert Drawn(mapName, old_shapes, stat, metric, statistic, data, r[j]);
      var a :| 0 <= a < |old_shapes| && old_shapes[a].id == r[i].id && old_shapes[a].hovered;
      var b :| 0 <= b < |old_shapes| && old_shapes[b].id == r[j].id && old_shapes[b].hovered;
      assert a == b;
    }
  }

  /**
   * The pass of `highlightRegionInMap` over the paths in document order:
   * each path is marked or cleared, and each marked one is appended behind
   * the others.
   */
  method MarkAndRaise(paths: seq<Shape>, sel: Selector, stat: MapStatistic) returns (r: seq<Shape>)
    ensures r == Highlighted(paths, sel, stat)
  {
    ghost var m := MarkAll(paths, sel, stat);
    var rest, raised := [], [];
    var i := 0;
    while i < |paths|
      invariant 0 <= i <= |paths|
      invariant rest == Unhovered(m[..i]) && raised == HoveredShapes(m[..i])
    {
      var marked := Mark(paths[i], Matches(sel, paths[i].feature), stat);
      assert m[..i + 1] == m[..i] + [marked];
      UnfoldLast(m[..i], marked);
      if marked.hovered {
        raised := raised + [marked];
      } else {
        rest := rest + [marked];
      }
      i := i + 1;
    }
    assert m[..|paths|] == m;
    r := rest + raised;
  }

  // ---------------------------------------------------------------------------
  // The map object: its scene and its interaction state
  // ---------------------------------------------------------------------------

  /**
   * The datum bound to a region path: its feature as copied by one render.
   * Every render builds fresh feature objects and rebinds them, so the same
   * region is a different datum after each redraw.
   */
  datatype Datum = Datum(feature: Feature, render: nat)

  /**
   * One map identity (a `currentMap.name`): the ordered region shapes under
   * `.regions`, the number of renders so far (which tells the datum objects
   * of one render from the next), the datum flagged by a first touch
   * (`onceTouchedRegion`), and whether the svg currently takes pointer events.
   */
  class ChoroplethMap {
    const mapName: string
    const mapType: MapType
    var shapes: seq<Shape>
    var renders: nat
    var touched: Option<Datum>
    var pointerEvents: bool

    /** Every shape carries the key of its own feature, keys are unique, and at most one shape is hovered. */
    ghost predicate Valid()
      reads this
    {
      DistinctIds(shapes) && KeyedBy(mapName, shapes) && SingleHover(shapes)
    }

    /**
     * A map before its first draw: no shapes of its own and no touched
     * region. The svg element is shared by successive maps, so a new map
     * takes its pointer-events state as the previous map left it (off after
     * a drill-down click) until its first draw.
     */
    constructor (mapName: string, mapType: MapType, svgPointerEvents: bool)
      ensures this.mapName == mapName && this.mapType == mapType
      ensures shapes == [] && renders == 0 && touched == None
      ensures pointerEvents == svgPointerEvents
      ensures Valid()
    {
      this.mapName := mapName;
      this.mapType := mapType;
      shapes := [];
      renders := 0;
      touched := None;
      pointerEvents := svgPointerEvents;
    }

    /**
     * `highlightRegionInMap`: clears every stroke, marks exactly the shapes
     * matching the selector, and appends each marked shape to the end of
     * its parent.
     */
    method Highlight(sel: Selector, stat: MapStatistic)
      requires Valid()
      modifies this
      ensures shapes == Highlighted(old(shapes), sel, stat)
      ensures renders == old(renders) && touched == old(touched) && pointerEvents == old(pointerEvents)
      ensures Valid()
      ensures forall k :: 0 <= k < |old(shapes)| && Matches(sel, old(shapes)[k].feature) ==>
                shapes[|shapes| - 1].hovered && shapes[|shapes| - 1].feature == old(shapes)[k].feature
    {
      HighlightSingle(mapName, shapes, sel, stat);
      HighlightKeyed(mapName, shapes, sel, stat);
      shapes := MarkAndRaise(shapes, sel, stat);
    }

    /**
     * `mouseenter`: the region's selector is emitted and highlighted. While
     * the svg takes no pointer events the event is not delivered and nothing
     * happens.
     */
    method MouseEnter(f: Feature, stat: MapStatistic) returns (sel: Option<Selector>)
      requires Valid()
      modifies this
      ensures sel == if old(pointerEvents) then Some(SelectorOf(f)) else None
      ensures shapes == if sel.Some? then Highlighted(old(shapes), sel.value, stat) else old(shapes)
      ensures renders == old(renders) && touched == old(touched) && pointerEvents == old(pointerEvents)
      ensures Valid()
    {
      if !pointerEvents {
        return None;
      }
      var s := SelectorOf(f);
      Highlight(s, stat);
      sel := Some(s);
    }

    /**
     * The data join of a render: one shape per feature in data order, each
     * drawn from the current data and keeping the hover mark of its key,
     * hovered shapes last; the shapes are bound to this render's datum
     * objects, and the svg takes pointer events again.
     */
    method Redraw(stat: MapStatistic, metric: Metric, statistic: map<Metric, Aggregate>,
                  data: MapData, features: seq<Feature>)
      requires Conforms(stat, data) && (stat == Total ==> metric in statistic)
      requires DistinctKeys(mapName, features)
      requires Valid()
      modifies this
      ensures shapes == Reconciled(mapName, old(shapes), stat, metric, statistic, data, features)
      ensures renders == old(renders) + 1
      ensures touched == old(touched) && pointerEvents
      ensures Valid()
      ensures multiset(Features(shapes)) == multiset(features)
    {
      ReconcileFacts(mapName, shapes, stat, metric, statistic, data, features);
      ReconcileSingle(mapName, shapes, stat, metric, statistic, data, features);
      shapes := Reconciled(mapName, shapes, stat, metric, statistic, data, features);
      renders := renders + 1;
      pointerEvents := true;
    }

    /**
     * `mouseleave` on the region of `f`: the touch flag is cleared only when
     * it holds the very datum now bound to that region, one of this render,
     * and only when the svg takes pointer events.
     */
    method MouseLeave(f: Feature)
      modifies this
      ensures touched == if old(pointerEvents) && old(touched) == Some(Datum(f, renders)) then None else old(touched)
      ensures shapes == old(shapes) && renders == old(renders) && pointerEvents == old(pointerEvents)
    {
      if pointerEvents && touched == Some(Datum(f, renders)) {
        touched := None;
      }
    }

    /**
     * `touchstart` on the region of `f`: a second touch on the flagged datum
     * clears the flag; a touch anywhere else, or on the same region after a
     * redraw rebound it, flags the datum now bound to it. Nothing happens
     * while the svg takes no pointer events.
     */
    method TouchStart(f: Feature)
      modifies this
      ensures !old(pointerEvents) ==> touched == old(touched)
      ensures old(pointerEvents) ==>
        touched == if old(touched) == Some(Datum(f, renders)) then None else Some(Datum(f, renders))
      ensures shapes == old(shapes) && renders == old(renders) && pointerEvents == old(pointerEvents)
    {
      if !pointerEvents {
        return;
      }
      if touched == Some(Datum(f, renders)) {
        touched := None;
      } else {
        touched := Some(Datum(f, renders));
      }
    }

    /**
     * `click` on a region: while the svg takes pointer events, with no touch
     * pending on a non-state map, pointer events are switched off and a
     * drill-down to the region's state is requested; otherwise nothing
     * happens.
     */
    method Click(f: Feature) returns (request: Option<string>)
      modifies this
      ensures request == if old(pointerEvents) && old(touched).None? && mapType != State then Some(f.state) else None
      ensures pointerEvents == (old(pointerEvents) && request.None?)
      ensures shapes == old(shapes) && renders == old(renders) && touched == old(touched)
    {
      if !pointerEvents || touched.Some? || mapType == State {
        return None;
      }
      pointerEvents := false;
      request := Some(f.state);
    }

    /**
     * A tap on the svg outside every region resets the selection, except on a
     * state map and while the svg takes no pointer events. The handler is
     * bound by the first draw, so before it the tap does nothing.
     */
    method TapOutside() returns (reset: Option<Selector>)
      ensures reset == if renders > 0 && pointerEvents && mapType != State then Some(WHOLE_AREA) else None
    {
      if renders > 0 && pointerEvents && mapType != State {
        reset := Some(WHOLE_AREA);
      } else {
        reset := None;
      }
    }
  }

  /** On a touch screen the first tap only inspects a region; the tap after it drills down. */
  method TouchThenClick()
  {
    var m := new ChoroplethMap("india", Country, true);
    var kerala := Feature("Kerala", None);
    m.TouchStart(kerala);
    var first := m.Click(kerala);
    assert first == None && m.pointerEvents;
    m.TouchStart(kerala);
    var second := m.Click(kerala);
    assert second == Some("Kerala") && !m.pointerEvents;
  }

  /** A state map never drills down and ignores taps outside its regions. */
  method StateMapStays()
  {
    var m := new ChoroplethMap("Kerala", State, true);
    var d := Feature("Kerala", Some("Wayanad"));
    DrawRegion(m, d);
    var request := m.Click(d);
    var reset := m.TapOutside();
    assert request == None && reset == None && m.pointerEvents;
  }

  /**
   * A drill-down locks the svg until the next map is drawn: the click turns
   * pointer events off, the state map starts with them off and without its
   * own tap handler, and only its first draw turns them on again.
   */
  method DrillDownLock()
  {
    var india := new ChoroplethMap("india", Country, true);
    var kerala := Feature("Kerala", None);
    DrawRegion(india, kerala);
    var first := india.TapOutside();
    assert first == Some(WHOLE_AREA);
    var request := india.Click(kerala);
    assert request == Some("Kerala") && !india.pointerEvents;
    var again := india.Click(kerala);
    var reset := india.TapOutside();
    assert again == None && reset == None;
    var next := new ChoroplethMap("Kerala", State, india.pointerEvents);
    var early := next.TapOutside();
    assert !next.pointerEvents && early == None;
    var stats := map[Confirmed := Aggregate(10, 10)];
    next.Redraw(Total, Confirmed, stats, Counts(map[]), [Feature("Kerala", Some("Wayanad"))]);
    assert next.pointerEvents;
  }

  /** A zone-mode render of the single region `f`, seen from the interaction state only. */
  method DrawRegion(m: ChoroplethMap, f: Feature)
    requires m.Valid()
    modifies m
    ensures m.renders == old(m.renders) + 1 && m.touched == old(m.touched) && m.pointerEvents
    ensures m.Valid()
  {
    m.Redraw(Zone, Confirmed, map[], Zones(map[]), [f]);
  }

  /**
   * A redraw between two taps rebinds the region to a new datum, so the
   * second tap flags it again instead of clearing the flag, and the click
   * after it still does not drill down.
   */
  method TapRedrawTap()
  {
    var m := new ChoroplethMap("india", Country, true);
    var kerala := Feature("Kerala", None);
    DrawRegion(m, kerala);
    m.TouchStart(kerala);
    DrawRegion(m, kerala);
    m.TouchStart(kerala);
    assert m.touched == Some(Datum(kerala, 2));
    var request := m.Click(kerala);
    assert request == None;
  }
}
