/** Building geometry: where a building record keeps its coordinates, the
    centre of a polygon as the mean of its points, and the bounding box of
    all building centres. Coordinates are GeoJSON `[lng, lat]` pairs; centres
    are reported as (lat, lng). Floating point is modelled by reals. */
module Geometry {
  import opened Wrappers
  import opened Json

  datatype LatLng = LatLng(lat: real, lng: real)

  /** One `[lng, lat, ...]` point. */
  datatype Point = Point(lng: real, lat: real)

  /** `point[0]` and `point[1]` as they enter `sum(...)`: a list with at
      least two numbers in front. A string point fails in the sum, a dict
      point with an integer key, anything shorter at the index. */
  function PointOf(v: Value): (r: Result<Point>)
    ensures r.Ok? <==> v.List? && |v.items| >= 2 && AsNumber(v.items[0]).Some? && AsNumber(v.items[1]).Some?
    ensures r.Ok? ==> r.value == Point(AsNumber(v.items[0]).value, AsNumber(v.items[1]).value)
  {
    match v
    case List(xs) =>
      if |xs| >= 2 && AsNumber(xs[0]).Some? && AsNumber(xs[1]).Some? then
        Ok(Point(AsNumber(xs[0]).value, AsNumber(xs[1]).value))
      else Raised
    case _ => Raised
  }

  /** The points of a ring, or Raised when one of them is not a point. */
  function PointsOf(vs: seq<Value>): (r: Result<seq<Point>>)
    ensures r.Ok? <==> forall k | 0 <= k < |vs| :: PointOf(vs[k]).Ok?
    ensures r.Ok? ==> |r.value| == |vs| && forall k | 0 <= k < |vs| :: r.value[k] == PointOf(vs[k]).value
  {
    if vs == [] then Ok([])
    else
      var init :- PointsOf(vs[..|vs| - 1]);
      var last :- PointOf(vs[|vs| - 1]);
      Ok(init + [last])
  }

  function SumLng(ps: seq<Point>): real {
    if ps == [] then 0.0 else SumLng(ps[..|ps| - 1]) + ps[|ps| - 1].lng
  }

  function SumLat(ps: seq<Point>): real {
    if ps == [] then 0.0 else SumLat(ps[..|ps| - 1]) + ps[|ps| - 1].lat
  }

  /** `sum(lngs) / len(lngs)` and `sum(lats) / len(lats)`, returned as
      (lat, lng); an empty ring divides by zero. */
  function RingCentre(vs: seq<Value>): (r: Result<LatLng>)
    ensures r.Ok? <==> |vs| > 0 && PointsOf(vs).Ok?
    ensures r.Ok? ==> r.value.lat == SumLat(PointsOf(vs).value) / (|vs| as real)
    ensures r.Ok? ==> r.value.lng == SumLng(PointsOf(vs).value) / (|vs| as real)
  {
    var ps :- PointsOf(vs);
    if |ps| == 0 then Raised
    else Ok(LatLng(SumLat(ps) / (|ps| as real), SumLng(ps) / (|ps| as real)))
  }

  /** The ring `calculate_polygon_center` of the labelling scripts averages:
      `coordinates[0]` when `coordinates[0][0]` is a list (a polygon given as
      rings), `coordinates` itself otherwise. None where `coordinates[0][0]`
      raises: `coordinates` no list or empty, or its first item neither a
      non-empty list nor a non-empty string. A string `coordinates` gives
      None as well, since its one-character points raise later anyway. */
  function RingOf(coordinates: Value): (r: Option<seq<Value>>)
    ensures r.Some? <==> (coordinates.List? && |coordinates.items| > 0 &&
      ((coordinates.items[0].List? && |coordinates.items[0].items| > 0) ||
       (coordinates.items[0].Str? && |coordinates.items[0].s| > 0)))
    ensures r.Some? ==> var first := coordinates.items[0];
      r.value == if first.List? && first.items[0].List? then first.items else coordinates.items
  {
    match coordinates
    case List(xs) =>
      if |xs| == 0 then None
      else
        (match xs[0]
         case List(ys) => if |ys| == 0 then None else if ys[0].List? then Some(ys) else Some(xs)
         case Str(s) => if |s| == 0 then None else Some(xs)
         case _ => None)
    case _ => None
  }

  /** `calculate_polygon_center` of the labelling scripts and of adam.py. A
      string `coordinates` always raises: its characters are one-character
      points, whose `point[1]` is out of range. */
  function PolygonCentre(coordinates: Value): (r: Result<LatLng>)
    ensures r.Ok? <==> RingOf(coordinates).Some? && RingCentre(RingOf(coordinates).value).Ok?
    ensures r.Ok? ==> r == RingCentre(RingOf(coordinates).value)
  {
    match RingOf(coordinates)
    case None => Raised
    case Some(ring) => RingCentre(ring)
  }

  /** `calculate_polygon_center` of the HTML script: always `coordinates[0]`,
      which must be a ring of points. A string or dict in its place raises
      too: its characters or keys are no points, and an empty one divides
      by zero. */
  function OuterRingCentre(coordinates: Value): (r: Result<LatLng>)
    ensures r.Ok? <==> (coordinates.List? && |coordinates.items| > 0 && coordinates.items[0].List? &&
      RingCentre(coordinates.items[0].items).Ok?)
    ensures coordinates.List? && |coordinates.items| > 0 && coordinates.items[0].List? ==>
      r == RingCentre(coordinates.items[0].items)
  {
    match First(coordinates)
    case Ok(List(ring)) => RingCentre(ring)
    case _ => Raised
  }

  lemma {:induction false} SumLatBounds(ps: seq<Point>, lo: real, hi: real)
    requires forall k | 0 <= k < |ps| :: lo <= ps[k].lat <= hi
    ensures (|ps| as real) * lo <= SumLat(ps) <= (|ps| as real) * hi
  {
    if ps != [] {
      SumLatBounds(ps[..|ps| - 1], lo, hi);
    }
  }

  lemma {:induction false} SumLngBounds(ps: seq<Point>, lo: real, hi: real)
    requires forall k | 0 <= k < |ps| :: lo <= ps[k].lng <= hi
    ensures (|ps| as real) * lo <= SumLng(ps) <= (|ps| as real) * hi
  {
    if ps != [] {
      SumLngBounds(ps[..|ps| - 1], lo, hi);
    }
  }

  /** The centre is a mean: when every point of the ring lies in a latitude
      band and a longitude band, so does the centre. */
  lemma RingCentreWithin(vs: seq<Value>, latLo: real, latHi: real, lngLo: real, lngHi: real)
    requires RingCentre(vs).Ok?
    requires forall k | 0 <= k < |vs| :: latLo <= PointOf(vs[k]).value.lat <= latHi
    requires forall k | 0 <= k < |vs| :: lngLo <= PointOf(vs[k]).value.lng <= lngHi
    ensures latLo <= RingCentre(vs).value.lat <= latHi
    ensures lngLo <= RingCentre(vs).value.lng <= lngHi
  {
    var ps := PointsOf(vs).value;
    assert |ps| == |vs|;
    assert forall k | 0 <= k < |ps| :: latLo <= ps[k].lat <= latHi;
    assert forall k | 0 <= k < |ps| :: lngLo <= ps[k].lng <= lngHi;
    MeanLatWithin(ps, latLo, latHi);
    MeanLngWithin(ps, lngLo, lngHi);
  }

  lemma MeanLatWithin(ps: seq<Point>, lo: real, hi: real)
    requires |ps| > 0
    requires forall k | 0 <= k < |ps| :: lo <= ps[k].lat <= hi
    ensures lo <= SumLat(ps) / (|ps| as real) <= hi
  {
    SumLatBounds(ps, lo, hi);
    MeanWithin(SumLat(ps), |ps| as real, lo, hi);
  }

  lemma MeanLngWithin(ps: seq<Point>, lo: real, hi: real)
    requires |ps| > 0
    requires forall k | 0 <= k < |ps| :: lo <= ps[k].lng <= hi
    ensures lo <= SumLng(ps) / (|ps| as real) <= hi
  {
    SumLngBounds(ps, lo, hi);
    MeanWithin(SumLng(ps), |ps| as real, lo, hi);
  }

  /** A total between n * lo and n * hi has its mean between lo and hi. */
  lemma MeanWithin(s: real, n: real, lo: real, hi: real)
    requires n > 0.0 && n * lo <= s <= n * hi
    ensures lo <= s / n <= hi
  {
    var x := s / n;
    assert x * n == s;
    assert (x - lo) * n == s - lo * n;
    assert (hi - x) * n == hi * n - s;
  }

  /** The order swap: a ring made of one point [lng, lat] has centre (lat, lng). */
  lemma RingCentreSwaps(lng: real, lat: real)
    ensures RingCentre([List([Real(lng), Real(lat)])]) == Ok(LatLng(lat, lng))
  {
    var vs := [List([Real(lng), Real(lat)])];
    assert PointOf(vs[0]) == Ok(Point(lng, lat));
    assert vs[..0] == [];
    assert PointsOf(vs[..0]) == Ok([]);
    var ps := [Point(lng, lat)];
    assert [] + [Point(lng, lat)] == ps;
    assert PointsOf(vs) == Ok(ps);
    assert ps[..0] == [];
    assert SumLat(ps) == lat && SumLng(ps) == lng;
  }

  // ---------------------------------------------------------------------
  // Where a building keeps its coordinates.

  /** The coordinates a building record offers and the geometry type they
      come with. */
  datatype Located = Located(coordinates: Value, geomType: Value)

  const Polygon: Value := Str("Polygon")
  const MultiPolygon: Value := Str("MultiPolygon")

  /** The geometry lookup shared by every labelling script:
      `geometry = building.get('geometry', {})`; its `coordinates` and `type`
      (default 'Polygon') when `'coordinates' in geometry`, else the
      building's own `coordinates` and `type`, else None. The membership test
      raises for a geometry that is not a dict, list or string, and the
      index for a list or string that passes it. */
  function Locate(building: map<string, Value>): (r: Result<Option<Located>>)
    ensures var g := GetOr(building, "geometry", Object(map[]));
      r.Raised? <==> !(g.Object? || g.List? || g.Str?) || (!g.Object? && Contains(g, "coordinates") == Ok(true))
    ensures var g := GetOr(building, "geometry", Object(map[]));
      g.Object? && "coordinates" in g.fields ==>
        r == Ok(Some(Located(g.fields["coordinates"], GetOr(g.fields, "type", Polygon))))
    ensures var g := GetOr(building, "geometry", Object(map[]));
      r.Ok? && Contains(g, "coordinates") == Ok(false) ==>
        r.value == if "coordinates" in building
                   then Some(Located(building["coordinates"], GetOr(building, "type", Polygon)))
                   else None
  {
    var geometry := GetOr(building, "geometry", Object(map[]));
    var inGeometry :- Contains(geometry, "coordinates");
    if inGeometry then
      var coordinates :- Index(geometry, "coordinates");
      Ok(Some(Located(coordinates, GetOr(geometry.fields, "type", Polygon))))
    else if "coordinates" in building then
      Ok(Some(Located(building["coordinates"], GetOr(building, "type", Polygon))))
    else Ok(None)
  }

  /** The centre the scripts compute for located coordinates: of the first
      polygon for a MultiPolygon, of the coordinates themselves otherwise. */
  function BuildingCentre(loc: Located): (r: Result<LatLng>)
    ensures loc.geomType != MultiPolygon ==> r == PolygonCentre(loc.coordinates)
    ensures loc.geomType == MultiPolygon && loc.coordinates.List? && |loc.coordinates.items| > 0 ==>
      r == PolygonCentre(loc.coordinates.items[0])
  {
    if loc.geomType == MultiPolygon then
      var first :- First(loc.coordinates);
      PolygonCentre(first)
    else PolygonCentre(loc.coordinates)
  }

  // ---------------------------------------------------------------------
  // `calculate_bounding_box`.

  /** What one building contributes to the box: nothing for a non-dict,
      for missing coordinates or for a centre that raises (caught); Raised
      when the geometry lookup, which is outside the `try`, raises. */
  function CountedCentre(building: Value): (r: Result<Option<LatLng>>)
    ensures !building.Object? ==> r == Ok(None)
    ensures building.Object? ==> (r.Raised? <==> Locate(building.fields).Raised?)
    ensures r.Ok? && r.value.Some? ==>
      building.Object? && Locate(building.fields).Ok? && Locate(building.fields).value.Some? &&
      BuildingCentre(Locate(building.fields).value.value) == Ok(r.value.value)
    ensures building.Object? && Locate(building.fields) == Ok(None) ==> r == Ok(None)
    ensures building.Object? && Locate(building.fields).Ok? && Locate(building.fields).value.Some? ==>
      r == Ok(match BuildingCentre(Locate(building.fields).value.value)
              case Ok(c) => Some(c)
              case Raised => None)
  {
    match building
    case Object(fields) =>
      var loc :- Locate(fields);
      (match loc
       case None => Ok(None)
       case Some(located) =>
         match BuildingCentre(located)
         case Ok(c) => Ok(Some(c))
         case Raised => Ok(None))
    case _ => Ok(None)
  }

  /** The centres that enter the box, in building order. */
  function Centres(buildings: seq<Value>): Result<seq<LatLng>> {
    if buildings == [] then Ok([])
    else
      var init :- Centres(buildings[..|buildings| - 1]);
      var c :- CountedCentre(buildings[|buildings| - 1]);
      Ok(init + (if c.Some? then [c.value] else []))
  }

  /** Every centre a building contributes enters the box's list. */
  lemma {:induction false} CentreCounted(buildings: seq<Value>, k: nat, c: LatLng)
    requires Centres(buildings).Ok? && k < |buildings| && CountedCentre(buildings[k]) == Ok(Some(c))
    ensures c in Centres(buildings).value
  {
    var n := |buildings| - 1;
    var init := buildings[..n];
    assert buildings[..n + 1] == buildings;
    assert Centres(init).Ok? && CountedCentre(buildings[n]).Ok?;
    CentresNext(buildings, n);
    if k < n {
      assert init[k] == buildings[k];
      CentreCounted(init, k, c);
    }
  }

  datatype Extent = Extent(minLat: real, maxLat: real, minLng: real, maxLng: real) {
    predicate Holds(c: LatLng) {
      minLat <= c.lat <= maxLat && minLng <= c.lng <= maxLng
    }
  }

  function Min(a: real, b: real): real { if a <= b then a else b }
  function Max(a: real, b: real): real { if a >= b then a else b }

  /** The running min/max of the loop; None while it still holds its
      infinite starting values. */
  function Hull(cs: seq<LatLng>): (r: Option<Extent>)
    ensures r.None? <==> cs == []
    ensures r.Some? ==> forall k | 0 <= k < |cs| :: r.value.Holds(cs[k])
  {
    if cs == [] then None
    else
      var c := cs[|cs| - 1];
      match Hull(cs[..|cs| - 1])
      case None => Some(Extent(c.lat, c.lat, c.lng, c.lng))
      case Some(e) => Some(Extent(Min(e.minLat, c.lat), Max(e.maxLat, c.lat), Min(e.minLng, c.lng), Max(e.maxLng, c.lng)))
  }

  /** The 10% margin on each side. */
  function Widen(e: Extent): Extent {
    var latMargin := (e.maxLat - e.minLat) * 0.1;
    var lngMargin := (e.maxLng - e.minLng) * 0.1;
    Extent(e.minLat - latMargin, e.maxLat + latMargin, e.minLng - lngMargin, e.maxLng + lngMargin)
  }

  /** The centres of one more building. */
  lemma CentresNext(buildings: seq<Value>, n: nat)
    requires n < |buildings| && Centres(buildings[..n]).Ok? && CountedCentre(buildings[n]).Ok?
    ensures var c := CountedCentre(buildings[n]).value;
      Centres(buildings[..n + 1]) == Ok(Centres(buildings[..n]).value + (if c.Some? then [c.value] else []))
  {
    assert buildings[..n + 1][..n] == buildings[..n];
  }

  /** The hull of one more centre. */
  lemma HullNext(cs: seq<LatLng>, c: LatLng)
    ensures Hull(cs + [c]) == match Hull(cs)
      case None => Some(Extent(c.lat, c.lat, c.lng, c.lng))
      case Some(e) => Some(Extent(Min(e.minLat, c.lat), Max(e.maxLat, c.lat), Min(e.minLng, c.lng), Max(e.maxLng, c.lng)))
  {
    assert (cs + [c])[..|cs|] == cs;
  }

  /** The box the script returns; None stands for the infinite box it
      returns when no centre was found. */
  function BoxOf(buildings: seq<Value>): Result<Option<Extent>> {
    var cs :- Centres(buildings);
    Ok(match Hull(cs) case None => None case Some(e) => Some(Widen(e)))
  }

  /** The loop of `calculate_bounding_box`: keeps the running minimum and
      maximum of the centres' latitudes and longitudes, then adds the margins.
      MapParser/download_buildings_with_labels.py:45-87. */
  method BoundingBox(buildings: seq<Value>) returns (r: Result<Option<Extent>>)
    ensures r == BoxOf(buildings)
  {
    var found := false;
    var minLat, maxLat, minLng, maxLng := 0.0, 0.0, 0.0, 0.0;
    var n := 0;
    while n < |buildings|
      invariant 0 <= n <= |buildings|
      invariant Centres(buildings[..n]).Ok?
      invariant var h := Hull(Centres(buildings[..n]).value);
        if found then h == Some(Extent(minLat, maxLat, minLng, maxLng)) else h.None?
    {
      var counted := CountedCentre(buildings[n]);
      if counted.Raised? {
        CentresRaise(buildings, n);
        return Raised;
      }
      CentresNext(buildings, n);
      ghost var before := Centres(buildings[..n]).value;
      if counted.value.Some? {
        var c := counted.value.value;
        if found {
          minLat, maxLat := Min(minLat, c.lat), Max(maxLat, c.lat);
          minLng, maxLng := Min(minLng, c.lng), Max(maxLng, c.lng);
        } else {
          minLat, maxLat, minLng, maxLng := c.lat, c.lat, c.lng, c.lng;
        }
        found := true;
        HullNext(before, c);
      } else {
        assert before + [] == before;
      }
      n := n + 1;
    }
    assert buildings[..n] == buildings;
    if found {
      r := Ok(Some(Widen(Extent(minLat, maxLat, minLng, maxLng))));
    } else {
      r := Ok(None);
    }
  }

  /** Once the lookup of one building raises, so does the whole box. */
  lemma {:induction false} CentresRaise(buildings: seq<Value>, n: nat)
    requires n < |buildings| && CountedCentre(buildings[n]).Raised?
    ensures Centres(buildings).Raised?
  {
    var init := buildings[..|buildings| - 1];
    if n < |init| {
      assert init[n] == buildings[n];
      CentresRaise(init, n);
    }
  }

  /** Every centre the box was computed from lies inside it: the margins
      are never negative. */
  lemma BoxHoldsCentres(buildings: seq<Value>)
    requires BoxOf(buildings).Ok? && BoxOf(buildings).value.Some?
    ensures forall c | c in Centres(buildings).value :: BoxOf(buildings).value.value.Holds(c)
  {
    var cs := Centres(buildings).value;
    var e := Hull(cs).value;
    assert e.minLat <= e.maxLat && e.minLng <= e.maxLng by {
      assert e.Holds(cs[0]);
    }
    forall c | c in cs
      ensures Widen(e).Holds(c)
    {
      var k :| 0 <= k < |cs| && cs[k] == c;
      assert e.Holds(cs[k]);
    }
  }
}
