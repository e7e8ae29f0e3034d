/**
 * Pure data building for the map: zoom-interpolation expressions, the GeoJSON
 * feature collection of walks, and the pixel box around a click.
 */
module MapData {
  import opened Optional

  // ---------------------------------------------------------------------------
  // Zoom interpolation expressions
  // ---------------------------------------------------------------------------

  /** The fragment of the rendering library's expression language used here. */
  datatype Expr = Name(name: string) | Num(n: real) | List(items: seq<Expr>)

  /** A stop of a zoom curve: at zoom level `zoom` the property is `value`. */
  datatype Stop = Stop(zoom: real, value: real)

  /** `['interpolate', ['linear'], ['zoom']]` */
  const InterpolateHeader: seq<Expr> := [Name("interpolate"), List([Name("linear")]), List([Name("zoom")])]

  /** Each stop contributes its zoom and then its value, stops kept in order. */
  function FlattenStops(stops: seq<Stop>): (r: seq<Expr>)
    ensures |r| == 2 * |stops|
    ensures forall i :: 0 <= i < |stops| ==> r[2 * i] == Num(stops[i].zoom) && r[2 * i + 1] == Num(stops[i].value)
    decreases |stops|
  {
    if |stops| == 0 then []
    else
      var rest := FlattenStops(stops[1..]);
      assert forall i :: 1 <= i < |stops| ==> stops[1..][i - 1] == stops[i];
      [Num(stops[0].zoom), Num(stops[0].value)] + rest
  }

  /** `fromZoom(...pairs)`: a linear interpolation over the zoom level through the given stops. */
  function FromZoom(stops: seq<Stop>): (r: seq<Expr>)
    ensures |r| == 3 + 2 * |stops|
    ensures r[..3] == InterpolateHeader
    ensures forall i :: 0 <= i < |stops| ==> r[3 + 2 * i] == Num(stops[i].zoom) && r[4 + 2 * i] == Num(stops[i].value)
  {
    var r := InterpolateHeader + FlattenStops(stops);
    assert r[..3] == InterpolateHeader;
    r
  }

  /** Reads the stops back out of a flat `zoom, value, ...` list; `None` if it is not one. */
  function ParseStops(flat: seq<Expr>): Option<seq<Stop>>
    decreases |flat|
  {
    if |flat| == 0 then Some([])
    else if |flat| == 1 || !flat[0].Num? || !flat[1].Num? then None
    else match ParseStops(flat[2..])
      case None => None
      case Some(rest) => Some([Stop(flat[0].n, flat[1].n)] + rest)
  }

  /** Reads the stops back out of an interpolation expression. */
  function StopsOf(expr: seq<Expr>): Option<seq<Stop>> {
    if |expr| < 3 || expr[..3] != InterpolateHeader then None
    else ParseStops(expr[3..])
  }

  lemma {:induction false} ParseFlattenStops(stops: seq<Stop>)
    ensures ParseStops(FlattenStops(stops)) == Some(stops)
    decreases |stops|
  {
    if |stops| > 0 {
      var flat := FlattenStops(stops);
      assert flat[2..] == FlattenStops(stops[1..]);
      ParseFlattenStops(stops[1..]);
      assert [stops[0]] + stops[1..] == stops;
    }
  }

  /** `fromZoom` loses nothing: the stops, in order, can be read back from its result. */
  lemma FromZoomRoundTrip(stops: seq<Stop>)
    ensures StopsOf(FromZoom(stops)) == Some(stops)
  {
    var r := FromZoom(stops);
    assert r[3..] == FlattenStops(stops);
    ParseFlattenStops(stops);
  }

  // ---------------------------------------------------------------------------
  // GeoJSON feature collection
  // ---------------------------------------------------------------------------

  /** What the feature builder reads of a walk: its identifier and its encoded path. */
  datatype MapWalk = MapWalk(id: string, polyline: string)

  /** A line feature whose `properties.id` is the walk's identifier. */
  datatype Feature<G> = Feature(id: string, geometry: G)

  datatype FeatureCollection<G> = FeatureCollection(features: seq<Feature<G>>)

  /** A string is truthy in TypeScript exactly when it is not empty. */
  predicate HasPolyline(w: MapWalk) {
    |w.polyline| > 0
  }

  /** The walks whose encoded polyline is non-empty, in their original order. */
  function WithPolyline(walks: seq<MapWalk>): (r: seq<MapWalk>)
    ensures |r| <= |walks|
    ensures forall i :: 0 <= i < |r| ==> HasPolyline(r[i])
    decreases |walks|
  {
    if |walks| == 0 then []
    else
      var rest := WithPolyline(walks[1..]);
      if HasPolyline(walks[0]) then [walks[0]] + rest else rest
  }

  /** The filter keeps exactly the walks that have a path. */
  lemma {:induction false} WithPolylineMembers(walks: seq<MapWalk>, w: MapWalk)
    ensures w in WithPolyline(walks) <==> w in walks && HasPolyline(w)
    decreases |walks|
  {
    if |walks| > 0 {
      WithPolylineMembers(walks[1..], w);
      assert w in walks <==> w == walks[0] || w in walks[1..];
    }
  }

  /** The filter keeps relative order: filtering a concatenation filters each part. */
  lemma {:induction false} WithPolylineAppend(a: seq<MapWalk>, b: seq<MapWalk>)
    ensures WithPolyline(a + b) == WithPolyline(a) + WithPolyline(b)
    decreases |a|
  {
    if |a| == 0 {
      assert a + b == b;
    } else {
      WithPolylineAppend(a[1..], b);
      assert (a + b)[0] == a[0];
      assert (a + b)[1..] == a[1..] + b;
      var head := if HasPolyline(a[0]) then [a[0]] else [];
      assert WithPolyline(a + b) == head + WithPolyline(a[1..] + b);
      assert WithPolyline(a) == head + WithPolyline(a[1..]);
      assert head + (WithPolyline(a[1..]) + WithPolyline(b)) == (head + WithPolyline(a[1..])) + WithPolyline(b);
    }
  }

  /**
   * `makeGeoJsonData(walks)`: one feature per walk with a non-empty encoded
   * path, in the walks' order. `toGeoJson` is the polyline decoder, which is
   * not part of this model.
   */
  function MakeGeoJsonData<G>(walks: seq<MapWalk>, toGeoJson: string -> G): (r: FeatureCollection<G>)
    ensures |r.features| == |WithPolyline(walks)|
    ensures forall i :: 0 <= i < |r.features| ==>
              var w := WithPolyline(walks)[i];
              r.features[i] == Feature(w.id, toGeoJson(w.polyline))
  {
    var kept := WithPolyline(walks);
    FeatureCollection(seq(|kept|, i requires 0 <= i < |kept| => Feature(kept[i].id, toGeoJson(kept[i].polyline))))
  }

  /** Every feature comes from a walk of the input that has a path. */
  lemma FeaturesComeFromWalks<G>(walks: seq<MapWalk>, toGeoJson: string -> G, f: Feature<G>)
    requires f in MakeGeoJsonData(walks, toGeoJson).features
    ensures exists w :: w in walks && HasPolyline(w) && f == Feature(w.id, toGeoJson(w.polyline))
  {
    var features := MakeGeoJsonData(walks, toGeoJson).features;
    var i :| 0 <= i < |features| && features[i] == f;
    var w := WithPolyline(walks)[i];
    WithPolylineMembers(walks, w);
  }

  /** With the default (empty) walk list there are no features. */
  lemma MakeGeoJsonDataEmpty<G>(toGeoJson: string -> G)
    ensures MakeGeoJsonData([], toGeoJson).features == []
  {
  }

  /** Features of a concatenation are the features of each part, in order. */
  lemma MakeGeoJsonDataAppend<G>(a: seq<MapWalk>, b: seq<MapWalk>, toGeoJson: string -> G)
    ensures MakeGeoJsonData(a + b, toGeoJson).features
            == MakeGeoJsonData(a, toGeoJson).features + MakeGeoJsonData(b, toGeoJson).features
  {
    WithPolylineAppend(a, b);
    var fa := MakeGeoJsonData(a, toGeoJson).features;
    var fb := MakeGeoJsonData(b, toGeoJson).features;
    var fab := MakeGeoJsonData(a + b, toGeoJson).features;
    assert |fab| == |fa| + |fb|;
    forall i | 0 <= i < |fab|
      ensures fab[i] == (fa + fb)[i]
    {
      if i < |fa| {
        assert WithPolyline(a + b)[i] == WithPolyline(a)[i];
      } else {
        assert WithPolyline(a + b)[i] == WithPolyline(b)[i - |fa|];
      }
    }
  }

  /** Every walk with a path shows up as a feature carrying its identifier. */
  lemma EveryDrawableWalkHasFeature<G>(walks: seq<MapWalk>, toGeoJson: string -> G, w: MapWalk)
    requires w in walks && HasPolyline(w)
    ensures Feature(w.id, toGeoJson(w.polyline)) in MakeGeoJsonData(walks, toGeoJson).features
  {
    var kept := WithPolyline(walks);
    WithPolylineMembers(walks, w);
    var i :| 0 <= i < |kept| && kept[i] == w;
    assert MakeGeoJsonData(walks, toGeoJson).features[i] == Feature(w.id, toGeoJson(w.polyline));
  }

  // ---------------------------------------------------------------------------
  // The pixel box around a click
  // ---------------------------------------------------------------------------

  /** A screen point in pixels. */
  datatype Point = Point(x: real, y: real)

  /** Two opposite corners of a screen rectangle. */
  datatype Box = Box(corner1: Point, corner2: Point)

  function Min(a: real, b: real): real { if a <= b then a else b }
  function Max(a: real, b: real): real { if a <= b then b else a }

  /** `q` lies in the closed rectangle spanned by the two corners. */
  predicate InBox(q: Point, b: Box) {
    && Min(b.corner1.x, b.corner2.x) <= q.x <= Max(b.corner1.x, b.corner2.x)
    && Min(b.corner1.y, b.corner2.y) <= q.y <= Max(b.corner1.y, b.corner2.y)
  }

  function Abs(d: real): real { if d < 0.0 then -d else d }

  /** `surround(point, offset)`: the square of half-width `offset` centred on `point`. */
  function Surround(p: Point, offset: real): (b: Box)
    ensures (b.corner1.x + b.corner2.x) / 2.0 == p.x && (b.corner1.y + b.corner2.y) / 2.0 == p.y
    ensures b.corner2.x - b.corner1.x == 2.0 * offset && b.corner1.y - b.corner2.y == 2.0 * offset
  {
    Box(Point(p.x - offset, p.y + offset), Point(p.x + offset, p.y - offset))
  }

  /** A point is in the surrounding box exactly when it is within `offset` of the centre on both axes. */
  lemma InSurround(p: Point, offset: real, q: Point)
    requires offset >= 0.0
    ensures InBox(q, Surround(p, offset)) <==> Abs(q.x - p.x) <= offset && Abs(q.y - p.y) <= offset
  {
  }

  /** Boxes grow with the offset: a wider ring covers every point of a narrower one. */
  lemma SurroundNested(p: Point, inner: real, outer: real, q: Point)
    requires 0.0 <= inner <= outer
    requires InBox(q, Surround(p, inner))
    ensures InBox(q, Surround(p, outer))
  {
    InSurround(p, inner, q);
    InSurround(p, outer, q);
  }
}
