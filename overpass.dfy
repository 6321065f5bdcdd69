/** The Overpass building fetcher (MapParser/overpass_fetcher.py): the
    query text for a bounding box, the conversion of the decoded response
    into closed building rings, and the retry policy of `fetch_buildings`.
    The HTTP exchange is an input: for each attempt, what the request gave. */
module Overpass {
  import opened Wrappers
  import opened Json
  import Seqs

  // ---------------------------------------------------------------------
  // The query.

  const Header: string := "\n    [out:json][timeout:180];\n    (\n      way[\"building\"]"
  const Middle: string := "\n      relation[\"building\"]"
  const Footer: string := "\n    );\n    out geom;\n    "

  /** `({south},{west},{north},{east});`, each value as Python renders it. */
  function BoxClause(south: string, west: string, north: string, east: string): string {
    "(" + south + "," + west + "," + north + "," + east + ");"
  }

  /** `build_overpass_query`: the same box for the `way` and the `relation`
      clause. */
  function Query(south: string, west: string, north: string, east: string): (q: string)
    ensures |q| == |Header| + 2 * |BoxClause(south, west, north, east)| + |Middle| + |Footer|
  {
    Header + BoxClause(south, west, north, east) + Middle + BoxClause(south, west, north, east) + Footer
  }

  /** Both clauses carry the box. */
  lemma QueryClauses(south: string, west: string, north: string, east: string)
    ensures var q, b := Query(south, west, north, east), BoxClause(south, west, north, east);
      q[..|Header|] == Header &&
      q[|Header|..|Header| + |b|] == b &&
      q[|Header| + |b|..|Header| + |b| + |Middle|] == Middle &&
      q[|Header| + |b| + |Middle|..|Header| + 2 * |b| + |Middle|] == b
  {
    var b := BoxClause(south, west, north, east);
    Parts(Header, b, Middle, b, Footer);
  }

  /** The box lists south, west, north and east in that order, separated by
      commas. */
  lemma BoxClauseFields(south: string, west: string, north: string, east: string)
    ensures var b := BoxClause(south, west, north, east);
      b[1..1 + |south|] == south && b[1 + |south|] == ',' &&
      b[2 + |south|..2 + |south| + |west|] == west && b[2 + |south| + |west|] == ','
  {
    BoxParts("(", south, ",", west, ",", north, ",", east, ");");
  }

  /** Where the first four parts of a box clause sit. */
  lemma BoxParts<T>(a: seq<T>, b: seq<T>, c: seq<T>, d: seq<T>, e: seq<T>, f: seq<T>, g: seq<T>, h: seq<T>, i: seq<T>)
    ensures var q := a + b + c + d + e + f + g + h + i;
      q[|a|..|a| + |b|] == b && q[|a| + |b|..|a| + |b| + |c|] == c &&
      q[|a| + |b| + |c|..|a| + |b| + |c| + |d|] == d
  {
    var q := a + b + c + d + e + f + g + h + i;
    assert q == a + (b + (c + (d + (e + f + g + h + i))));
  }

  /** Where each part of a concatenation of five sits. */
  lemma Parts<T>(a: seq<T>, b: seq<T>, c: seq<T>, d: seq<T>, e: seq<T>)
    ensures var q := a + b + c + d + e;
      q[..|a|] == a && q[|a|..|a| + |b|] == b && q[|a| + |b|..|a| + |b| + |c|] == c &&
      q[|a| + |b| + |c|..|a| + |b| + |c| + |d|] == d
  {
    var q := a + b + c + d + e;
    assert q == a + (b + (c + (d + e)));
  }

  /** The position of the first `c` in `s`, or `|s|` when there is none. */
  function FirstIndex(c: char, s: string): (i: nat)
    ensures i <= |s|
  {
    if s == [] || s[0] == c then 0 else 1 + FirstIndex(c, s[1..])
  }

  lemma {:induction false} FirstIndexAfter(c: char, a: string, x: string)
    requires c !in a
    ensures FirstIndex(c, a + ([c] + x)) == |a|
  {
    if a != [] {
      assert (a + ([c] + x))[1..] == a[1..] + ([c] + x);
      FirstIndexAfter(c, a[1..], x);
    }
  }

  /** When a part without `c` is followed by `c` in two strings, the parts
      and the rests agree. */
  lemma SplitAtFirst(c: char, a: string, x: string, b: string, y: string)
    requires c !in a && c !in b
    requires a + ([c] + x) == b + ([c] + y)
    ensures a == b && x == y
  {
    var s := a + ([c] + x);
    FirstIndexAfter(c, a, x);
    FirstIndexAfter(c, b, y);
    assert a == s[..|a|];
    assert b == s[..|b|];
    assert x == s[|a| + 1..];
    assert y == s[|b| + 1..];
  }

  /** The box clause followed by anything, read back from its start. */
  lemma BoxInjective(s1: string, w1: string, n1: string, e1: string, x1: string,
                     s2: string, w2: string, n2: string, e2: string, x2: string)
    requires ',' !in s1 && ',' !in w1 && ',' !in n1 && ')' !in e1
    requires ',' !in s2 && ',' !in w2 && ',' !in n2 && ')' !in e2
    requires BoxClause(s1, w1, n1, e1) + x1 == BoxClause(s2, w2, n2, e2) + x2
    ensures s1 == s2 && w1 == w2 && n1 == n2 && e1 == e2 && x1 == x2
  {
    var d1 := e1 + ([')'] + (";" + x1));
    var d2 := e2 + ([')'] + (";" + x2));
    var c1 := n1 + ([','] + d1);
    var c2 := n2 + ([','] + d2);
    var b1 := w1 + ([','] + c1);
    var b2 := w2 + ([','] + c2);
    var a1 := s1 + ([','] + b1);
    var a2 := s2 + ([','] + b2);
    assert ");" == [')'] + ";" && "," == [','];
    assert ");" + x1 == [')'] + (";" + x1) && ");" + x2 == [')'] + (";" + x2);
    Nest("(", s1, ",", w1, ",", n1, ",", e1, ");", x1);
    Nest("(", s2, ",", w2, ",", n2, ",", e2, ");", x2);
    Seqs.DropPrefix("(", a1, a2);
    SplitAtFirst(',', s1, b1, s2, b2);
    SplitAtFirst(',', w1, c1, w2, c2);
    SplitAtFirst(',', n1, d1, n2, d2);
    SplitAtFirst(')', e1, ";" + x1, e2, ";" + x2);
    Seqs.DropPrefix(";", x1, x2);
  }

  lemma Nest<T>(a: seq<T>, b: seq<T>, c: seq<T>, d: seq<T>, e: seq<T>, f: seq<T>, g: seq<T>, h: seq<T>, i: seq<T>,
                 x: seq<T>)
    ensures a + b + c + d + e + f + g + h + i + x == a + (b + (c + (d + (e + (f + (g + (h + (i + x))))))))
  {
  }

  lemma Regroup(h: string, b: string, m: string, f: string)
    ensures h + b + m + b + f == h + (b + (m + b + f))
  {
  }

  /** Values without commas or closing parentheses, which every number
      rendering is, give different queries for different boxes: the query
      determines the box it was built from. */
  lemma QueryInjective(s1: string, w1: string, n1: string, e1: string,
                       s2: string, w2: string, n2: string, e2: string)
    requires ',' !in s1 && ',' !in w1 && ',' !in n1 && ')' !in e1
    requires ',' !in s2 && ',' !in w2 && ',' !in n2 && ')' !in e2
    requires Query(s1, w1, n1, e1) == Query(s2, w2, n2, e2)
    ensures s1 == s2 && w1 == w2 && n1 == n2 && e1 == e2
  {
    var b1, b2 := BoxClause(s1, w1, n1, e1), BoxClause(s2, w2, n2, e2);
    var r1, r2 := Middle + b1 + Footer, Middle + b2 + Footer;
    Regroup(Header, b1, Middle, Footer);
    Regroup(Header, b2, Middle, Footer);
    Seqs.DropPrefix(Header, b1 + r1, b2 + r2);
    BoxInjective(s1, w1, n1, e1, r1, s2, w2, n2, e2, r2);
  }

  // ---------------------------------------------------------------------
  // The response.

  /** A `(lon, lat)` pair of a ring, once shapely has read it as numbers. */
  datatype LonLat = LonLat(lon: real, lat: real)

  /** One row of the parsed frame: the ring of its polygon and the value of
      its `building` column. */
  datatype Building = Building(ring: seq<LonLat>, buildingType: Value)

  /** `[(node['lon'], node['lat']) for node in nodes]`: each node must be a
      dict with both keys. */
  function NodeCoords(nodes: seq<Value>): (r: Result<seq<(Value, Value)>>)
    ensures r.Ok? <==> forall k | 0 <= k < |nodes| ::
      nodes[k].Object? && "lon" in nodes[k].fields && "lat" in nodes[k].fields
    ensures r.Ok? ==> |r.value| == |nodes| && forall k | 0 <= k < |nodes| ::
      r.value[k] == (nodes[k].fields["lon"], nodes[k].fields["lat"])
  {
    if nodes == [] then Ok([])
    else
      var init :- NodeCoords(nodes[..|nodes| - 1]);
      var node := nodes[|nodes| - 1];
      var lon :- Index(node, "lon");
      var lat :- Index(node, "lat");
      assert forall k | 0 <= k < |nodes| - 1 :: nodes[..|nodes| - 1][k] == nodes[k];
      Ok(init + [(lon, lat)])
  }

  /** Every coordinate is a number shapely can read. */
  predicate Numeric(coords: seq<(Value, Value)>) {
    forall k | 0 <= k < |coords| :: AsNumber(coords[k].0).Some? && AsNumber(coords[k].1).Some?
  }

  function Points(coords: seq<(Value, Value)>): (ps: seq<LonLat>)
    requires Numeric(coords)
    ensures |ps| == |coords|
    ensures forall k | 0 <= k < |coords| ::
      ps[k] == LonLat(AsNumber(coords[k].0).value, AsNumber(coords[k].1).value)
  {
    seq(|coords|, k requires 0 <= k < |coords| => LonLat(AsNumber(coords[k].0).value, AsNumber(coords[k].1).value))
  }

  /** `if coords[0] != coords[-1]: coords.append(coords[0])`. */
  function Close(ring: seq<LonLat>): (r: seq<LonLat>)
    requires |ring| > 0
    ensures |r| == |ring| || |r| == |ring| + 1
    ensures r[0] == r[|r| - 1]
    ensures r[..|ring|] == ring
    ensures ring[0] == ring[|ring| - 1] <==> r == ring
  {
    if ring[0] != ring[|ring| - 1] then ring + [ring[0]] else ring
  }

  /** Closing a ring twice is closing it once. */
  lemma CloseIdempotent(ring: seq<LonLat>)
    requires |ring| > 0
    ensures Close(Close(ring)) == Close(ring)
  {
  }

  /** Three or more coordinates that `Polygon` refuses: one is no number,
      or the closed ring has fewer than four points. */
  predicate ShapelyRefuses(coords: seq<(Value, Value)>) {
    |coords| >= 3 && (!Numeric(coords) || |Close(Points(coords))| < 4)
  }

  /** The ring of an element's `geometry` value: every node must be a dict
      with `lon` and `lat`; fewer than three nodes give no ring; otherwise
      the ring is closed and given to shapely, which raises for a coordinate
      that is no number and for a closed ring of fewer than four points. */
  function GeometryRing(geometry: Value): (r: Result<Option<seq<LonLat>>>)
    ensures r.Ok? && r.value.Some? ==>
      var ring := r.value.value; |ring| >= 4 && ring[0] == ring[|ring| - 1]
    ensures r.Raised? <==> (Members(geometry).None? || NodeCoords(Members(geometry).value).Raised? ||
      ShapelyRefuses(NodeCoords(Members(geometry).value).value))
    ensures r == Ok(None) <==> (Members(geometry).Some? && NodeCoords(Members(geometry).value).Ok? &&
      |NodeCoords(Members(geometry).value).value| < 3)
    ensures r.Ok? && r.value.Some? ==>
      (Members(geometry).Some? && NodeCoords(Members(geometry).value).Ok? &&
       var coords := NodeCoords(Members(geometry).value).value;
       |coords| >= 3 && Numeric(coords) && r.value.value == Close(Points(coords)))
  {
    var nodes :- (match Members(geometry) case Some(ns) => Ok(ns) case None => Raised);
    var coords :- NodeCoords(nodes);
    if |coords| < 3 then Ok(None)
    else if !Numeric(coords) then Raised
    else
      var ring := Close(Points(coords));
      if |ring| < 4 then Raised else Ok(Some(ring))
  }

  /** `element.get('tags', {})`. */
  function Tags(element: map<string, Value>): Value {
    GetOr(element, "tags", Object(map[]))
  }

  /** One element of `data['elements']`: `'geometry' not in element` skips
      it (and raises when the element is no container), and the building
      type is `element.get('tags', {}).get('building', 'yes')`. */
  function ElementBuilding(element: Value): (r: Result<Option<Building>>)
    ensures element.Object? && "geometry" !in element.fields ==> r == Ok(None)
    ensures r.Raised? <==> (Contains(element, "geometry").Raised? ||
      (Contains(element, "geometry") == Ok(true) &&
       (!element.Object? || !Tags(element.fields).Object? || GeometryRing(element.fields["geometry"]).Raised?)))
    ensures (element.Object? && "geometry" in element.fields && Tags(element.fields).Object? &&
             GeometryRing(element.fields["geometry"]).Ok? && GeometryRing(element.fields["geometry"]).value.Some?) ==>
      r == Ok(Some(Building(GeometryRing(element.fields["geometry"]).value.value,
                            GetOr(Tags(element.fields).fields, "building", Str("yes")))))
    ensures r.Ok? && r.value.Some? ==>
      element.Object? && "geometry" in element.fields &&
      GeometryRing(element.fields["geometry"]) == Ok(Some(r.value.value.ring))
  {
    var hasGeometry :- Contains(element, "geometry");
    if !hasGeometry then Ok(None)
    else
      var tags :- Get(element, "tags", Object(map[]));
      var buildingType :- Get(tags, "building", Str("yes"));
      var ring :- GeometryRing(element.fields["geometry"]);
      Ok(match ring case Some(ps) => Some(Building(ps, buildingType)) case None => None)
  }

  /** A kept element's ring is its nodes' `(lon, lat)` in order, followed by
      the first node again exactly when the nodes do not already end where
      they start; its type is the `building` tag, `'yes'` when the element
      has no tags or no such tag. */
  lemma ElementBuildingRing(element: map<string, Value>, nodes: seq<Value>)
    requires "geometry" in element && element["geometry"] == List(nodes)
    requires "tags" !in element || element["tags"].Object?
    requires ElementBuilding(Object(element)).Ok? && ElementBuilding(Object(element)).value.Some?
    ensures var b := ElementBuilding(Object(element)).value.value;
      |nodes| >= 3 &&
      (|b.ring| == |nodes| || |b.ring| == |nodes| + 1) &&
      (forall k | 0 <= k < |nodes| ::
        AsNumber(nodes[k].fields["lon"]) == Some(b.ring[k].lon) &&
        AsNumber(nodes[k].fields["lat"]) == Some(b.ring[k].lat)) &&
      b.buildingType == (if "tags" in element && "building" in element["tags"].fields
                         then element["tags"].fields["building"] else Str("yes"))
  {
  }

  /** Two or fewer nodes drop the element without raising, whatever the
      nodes hold. */
  lemma ShortElementDropped(element: map<string, Value>, nodes: seq<Value>)
    requires "geometry" in element && element["geometry"] == List(nodes)
    requires "tags" !in element || element["tags"].Object?
    requires |nodes| < 3
    requires forall k | 0 <= k < |nodes| :: nodes[k].Object? && "lon" in nodes[k].fields && "lat" in nodes[k].fields
    ensures ElementBuilding(Object(element)) == Ok(None)
  {
  }

  /** Three nodes that already return to the start make a closed ring of
      three points, which shapely refuses. */
  lemma ThreeClosedNodesRaise(p: map<string, Value>, q: map<string, Value>)
    requires "lon" in p && "lat" in p && "lon" in q && "lat" in q
    requires p["lon"].Real? && p["lat"].Real? && q["lon"].Real? && q["lat"].Real?
    ensures ElementBuilding(Object(map["geometry" := List([Object(p), Object(q), Object(p)])])) == Raised
  {
    var nodes := [Object(p), Object(q), Object(p)];
    var coords := NodeCoords(nodes).value;
    assert Points(coords)[0] == Points(coords)[2];
  }

  /** `parse_overpass_response` up to the list of rows: `data.get('elements',
      [])`, which must be something `len` and `for` accept, then every
      element in order; an exception anywhere ends the parse. */
  function Elements(data: Value): (r: Result<seq<Value>>)
    ensures r.Raised? <==> !data.Object? || ("elements" in data.fields && Members(data.fields["elements"]).None?)
    ensures data.Object? && "elements" !in data.fields ==> r == Ok([])
    ensures r.Ok? && data.Object? && "elements" in data.fields ==> r.value == Members(data.fields["elements"]).value
  {
    var elements :- Get(data, "elements", List([]));
    match Members(elements) case Some(es) => Ok(es) case None => Raised
  }

  /** A dict under `elements` is iterated by its keys. A key holding the
      text `geometry` passes `'geometry' not in element` as a substring and
      then has no `.get`, so the parse raises and the attempt gives None. */
  lemma ElementKeysRaise(allowed: set<Value>)
    ensures var data := Object(map["elements" := Object(map["geometry" := Null])]);
      ParseResponse(data).Raised? && AttemptStep(Response(Some(data)), 0, allowed) == Done(None)
  {
    var elements := Object(map["geometry" := Null]);
    var members := Members(elements).value;
    assert |members| == 1 && Str("geometry") in members;
    assert members == [Str("geometry")];
    assert IsSubstring("geometry", "geometry");
    assert ElementBuilding(Str("geometry")).Raised?;
    KeptRaises(members);
  }

  /** The row an element contributes: none for a skipped element. */
  function Rows(o: Option<Building>): (r: seq<Building>)
    ensures |r| <= 1
  {
    match o case Some(b) => [b] case None => []
  }

  /** The rows of the kept elements, in element order. */
  function Kept(elements: seq<Value>): (r: Result<seq<Building>>)
    ensures r.Ok? ==> |r.value| <= |elements|
  {
    KeptBy(ElementBuilding, elements)
  }

  /** The element loop for any treatment of one element. */
  function KeptBy(step: Value -> Result<Option<Building>>, elements: seq<Value>): (r: Result<seq<Building>>)
    ensures r.Ok? ==> |r.value| <= |elements|
  {
    if elements == [] then Ok([])
    else
      var init := elements[..|elements| - 1];
      match KeptBy(step, init)
      case Raised => Raised
      case Ok(rows) =>
        match step(elements[|elements| - 1])
        case Raised => Raised
        case Ok(o) => Ok(rows + Rows(o))
  }

  /** The parse raises exactly when one of the elements does. */
  lemma KeptRaises(elements: seq<Value>)
    ensures Kept(elements).Ok? <==> forall k | 0 <= k < |elements| :: ElementBuilding(elements[k]).Ok?
  {
    KeptByRaises(ElementBuilding, elements);
  }

  lemma {:induction false} KeptByRaises(step: Value -> Result<Option<Building>>, elements: seq<Value>)
    ensures KeptBy(step, elements).Ok? <==> forall k | 0 <= k < |elements| :: step(elements[k]).Ok?
  {
    if elements != [] {
      var init := elements[..|elements| - 1];
      KeptByRaises(step, init);
      assert forall k | 0 <= k < |init| :: init[k] == elements[k];
    }
  }

  /** The rows after one more element. */
  lemma KeptNext(elements: seq<Value>, n: nat)
    requires n < |elements| && Kept(elements[..n]).Ok? && ElementBuilding(elements[n]).Ok?
    ensures Kept(elements[..n + 1]) == Ok(Kept(elements[..n]).value + Rows(ElementBuilding(elements[n]).value))
  {
    KeptByNext(ElementBuilding, elements, n);
  }

  lemma KeptByNext(step: Value -> Result<Option<Building>>, elements: seq<Value>, n: nat)
    requires n < |elements| && KeptBy(step, elements[..n]).Ok? && step(elements[n]).Ok?
    ensures KeptBy(step, elements[..n + 1]) == Ok(KeptBy(step, elements[..n]).value + Rows(step(elements[n]).value))
  {
    assert elements[..n + 1][..n] == elements[..n];
  }

  function ParseResponse(data: Value): Result<seq<Building>> {
    var elements :- Elements(data);
    Kept(elements)
  }

  /** Every row of a parse comes from some element in the list. */
  lemma {:induction false} KeptFromElements(elements: seq<Value>, i: nat)
    requires Kept(elements).Ok? && i < |Kept(elements).value|
    ensures exists k | 0 <= k < |elements| :: ElementBuilding(elements[k]) == Ok(Some(Kept(elements).value[i]))
  {
    var init := elements[..|elements| - 1];
    var last := elements[|elements| - 1];
    var rows := Kept(init).value;
    var o := ElementBuilding(last).value;
    assert Kept(elements).value == rows + Rows(o);
    if i < |rows| {
      KeptFromElements(init, i);
      var j :| 0 <= j < |init| && ElementBuilding(init[j]) == Ok(Some(rows[i]));
      assert elements[j] == init[j];
    } else {
      assert ElementBuilding(elements[|elements| - 1]) == Ok(Some(Kept(elements).value[i]));
    }
  }

  /** Every row of a parse is a closed ring of at least four points. */
  lemma KeptClosed(elements: seq<Value>, i: nat)
    requires Kept(elements).Ok? && i < |Kept(elements).value|
    ensures var ring := Kept(elements).value[i].ring; |ring| >= 4 && ring[0] == ring[|ring| - 1]
  {
    KeptFromElements(elements, i);
    var b := Kept(elements).value[i];
    var k :| 0 <= k < |elements| && ElementBuilding(elements[k]) == Ok(Some(b));
    ElementClosed(elements[k]);
  }

  lemma ElementClosed(element: Value)
    requires ElementBuilding(element).Ok? && ElementBuilding(element).value.Some?
    ensures var ring := ElementBuilding(element).value.value.ring; |ring| >= 4 && ring[0] == ring[|ring| - 1]
  {
    var ring := ElementBuilding(element).value.value.ring;
    assert GeometryRing(element.fields["geometry"]) == Ok(Some(ring));
  }

  /** The `for element in ...` loop of `parse_overpass_response`. */
  method ParseOverpassResponse(data: Value) returns (r: Result<seq<Building>>)
    ensures r == ParseResponse(data)
  {
    var elements := Elements(data);
    if elements.Raised? {
      return Raised;
    }
    var es := elements.value;
    var buildings: seq<Building> := [];
    for n := 0 to |es|
      invariant Kept(es[..n]) == Ok(buildings)
    {
      var b := ElementBuilding(es[n]);
      if b.Raised? {
        KeptRaises(es);
        return Raised;
      }
      KeptNext(es, n);
      buildings := buildings + Rows(b.value);
    }
    assert es[..|es|] == es;
    return Ok(buildings);
  }

  /** `gdf[gdf['building'].isin(ALLOWED_BUILDING_TYPES)]`, the allowed types
      being a set the configuration supplies. */
  function Filter(buildings: seq<Building>, allowed: set<Value>): (r: seq<Building>)
    ensures |r| <= |buildings|
    ensures forall k | 0 <= k < |r| :: r[k].buildingType in allowed
  {
    if buildings == [] then []
    else
      Filter(buildings[..|buildings| - 1], allowed) +
      (if buildings[|buildings| - 1].buildingType in allowed then [buildings[|buildings| - 1]] else [])
  }

  /** The filter keeps exactly the allowed rows and keeps their order:
      filtering again changes nothing, and a row is kept iff its type is
      allowed. */
  lemma FilterKeeps(buildings: seq<Building>, allowed: set<Value>)
    ensures Filter(Filter(buildings, allowed), allowed) == Filter(buildings, allowed)
    ensures forall b | b in buildings :: b in Filter(buildings, allowed) <==> b.buildingType in allowed
    ensures forall b | b in Filter(buildings, allowed) :: b in buildings
  {
    FilterAll(Filter(buildings, allowed), allowed);
    FilterMembers(buildings, allowed);
  }

  /** Rows that are all allowed pass the filter unchanged. */
  lemma {:induction false} FilterAll(buildings: seq<Building>, allowed: set<Value>)
    requires forall k | 0 <= k < |buildings| :: buildings[k].buildingType in allowed
    ensures Filter(buildings, allowed) == buildings
  {
    if buildings != [] {
      var init := buildings[..|buildings| - 1];
      assert forall k | 0 <= k < |init| :: init[k] == buildings[k];
      FilterAll(init, allowed);
      assert buildings == init + [buildings[|buildings| - 1]];
    }
  }

  lemma {:induction false} FilterMembers(buildings: seq<Building>, allowed: set<Value>)
    ensures forall b | b in buildings :: b in Filter(buildings, allowed) <==> b.buildingType in allowed
    ensures forall b | b in Filter(buildings, allowed) :: b in buildings
  {
    if buildings != [] {
      var init, last := buildings[..|buildings| - 1], buildings[|buildings| - 1];
      FilterMembers(init, allowed);
      assert buildings == init + [last];
    }
  }

  // ---------------------------------------------------------------------
  // The retry loop.

  const MaxRetries: nat := 3

  /** What one `requests.post` and the steps after it gave: a decoded body
      (None when `response.json()` raised), a timeout, an HTTP error status
      from `raise_for_status`, or any other request failure. */
  datatype Attempt = Response(body: Option<Value>) | Timeout | HttpError(status: int) | RequestError

  /** What one attempt leads to: a result, or a wait before the next. */
  datatype Step = Done(result: Option<seq<Building>>) | Retry(wait: nat)

  /** The handlers of one attempt: a timeout waits `5 * (attempt + 1)` and a
      504 `10 * (attempt + 1)` unless it is the last attempt; any other
      error, and a processing error, returns None. */
  function AttemptStep(a: Attempt, attempt: nat, allowed: set<Value>): (s: Step)
    ensures s.Retry? <==> attempt < MaxRetries - 1 && (a.Timeout? || a == HttpError(504))
    ensures s.Retry? ==> s.wait == (if a.Timeout? then 5 else 10) * (attempt + 1)
    ensures s.Done? && !a.Response? ==> s.result == None
    ensures a.Response? ==>
      (s.Done? && (s.result.Some? <==> a.body.Some? && ParseResponse(a.body.value).Ok?))
    ensures a.Response? && s.result.Some? ==> s.result.value == Filter(ParseResponse(a.body.value).value, allowed)
  {
    match a
    case Response(body) =>
      Done(match body
           case None => None
           case Some(data) =>
             match ParseResponse(data) case Ok(bs) => Some(Filter(bs, allowed)) case Raised => None)
    case Timeout => if attempt < MaxRetries - 1 then Retry(5 * (attempt + 1)) else Done(None)
    case HttpError(status) => if status == 504 && attempt < MaxRetries - 1 then Retry(10 * (attempt + 1)) else Done(None)
    case RequestError => Done(None)
  }

  /** The result of `fetch_buildings` from attempt `attempt` on, with the
      waits it sleeps. */
  function FetchFrom(outcome: nat -> Attempt, attempt: nat, allowed: set<Value>): (r: (Option<seq<Building>>, seq<nat>))
    requires attempt < MaxRetries
    ensures |r.1| < MaxRetries - attempt
    decreases MaxRetries - attempt
  {
    match AttemptStep(outcome(attempt), attempt, allowed)
    case Done(result) => (result, [])
    case Retry(wait) =>
      var rest := FetchFrom(outcome, attempt + 1, allowed);
      (rest.0, [wait] + rest.1)
  }

  function Fetch(outcome: nat -> Attempt, allowed: set<Value>): (Option<seq<Building>>, seq<nat>) {
    FetchFrom(outcome, 0, allowed)
  }

  /** The whole run, in terms of the attempts: every attempt before the
      last one made was a timeout or a 504 and waited its time, the last
      one made was not retried, and that last attempt alone decides the
      result, which is None unless it was a response that parsed. */
  lemma {:induction false} FetchFromShape(outcome: nat -> Attempt, attempt: nat, allowed: set<Value>)
    requires attempt < MaxRetries
    ensures var r := FetchFrom(outcome, attempt, allowed);
      var last := attempt + |r.1|;
      last < MaxRetries &&
      (forall k | 0 <= k < |r.1| :: AttemptStep(outcome(attempt + k), attempt + k, allowed) == Retry(r.1[k])) &&
      AttemptStep(outcome(last), last, allowed) == Done(r.0)
    decreases MaxRetries - attempt
  {
    var s := AttemptStep(outcome(attempt), attempt, allowed);
    if s.Retry? {
      FetchFromShape(outcome, attempt + 1, allowed);
      var rest := FetchFrom(outcome, attempt + 1, allowed);
      assert FetchFrom(outcome, attempt, allowed).1 == [s.wait] + rest.1;
      forall k | 0 < k < 1 + |rest.1|
        ensures AttemptStep(outcome(attempt + k), attempt + k, allowed) == Retry(([s.wait] + rest.1)[k])
      {
        assert attempt + k == (attempt + 1) + (k - 1);
      }
    }
  }

  /** At most three requests: a run sleeps at most twice, and the result is
      Some only if the response of the last request parsed. */
  lemma FetchAttempts(outcome: nat -> Attempt, allowed: set<Value>)
    ensures |Fetch(outcome, allowed).1| <= MaxRetries - 1
    ensures Fetch(outcome, allowed).0.Some? ==>
      var last := |Fetch(outcome, allowed).1|;
      outcome(last).Response? && outcome(last).body.Some? && ParseResponse(outcome(last).body.value).Ok?
  {
    FetchFromShape(outcome, 0, allowed);
    var r := Fetch(outcome, allowed);
    assert AttemptStep(outcome(|r.1|), |r.1|, allowed) == Done(r.0);
  }

  /** Three timeouts: waits of 5 and 10 seconds, then None. */
  lemma AllTimeouts(outcome: nat -> Attempt, allowed: set<Value>)
    requires outcome(0).Timeout? && outcome(1).Timeout? && outcome(2).Timeout?
    ensures Fetch(outcome, allowed) == (None, [5, 10])
  {
    assert FetchFrom(outcome, 2, allowed) == (None, []);
    assert AttemptStep(outcome(1), 1, allowed) == Retry(10);
    assert [10] + FetchFrom(outcome, 2, allowed).1 == [10];
    assert FetchFrom(outcome, 1, allowed) == (None, [10]);
    assert AttemptStep(outcome(0), 0, allowed) == Retry(5);
    assert [5] + [10] == [5, 10];
  }

  /** Three 504 responses: waits of 10 and 20 seconds, then None. */
  lemma AllGatewayTimeouts(outcome: nat -> Attempt, allowed: set<Value>)
    requires outcome(0) == HttpError(504) && outcome(1) == HttpError(504) && outcome(2) == HttpError(504)
    ensures Fetch(outcome, allowed) == (None, [10, 20])
  {
    assert FetchFrom(outcome, 2, allowed) == (None, []);
    assert AttemptStep(outcome(1), 1, allowed) == Retry(20);
    assert [20] + FetchFrom(outcome, 2, allowed).1 == [20];
    assert FetchFrom(outcome, 1, allowed) == (None, [20]);
    assert AttemptStep(outcome(0), 0, allowed) == Retry(10);
    assert [10] + [20] == [10, 20];
  }

  /** Any HTTP error other than 504, and any other request failure, ends
      the run at once with None. */
  lemma OtherErrorsStop(outcome: nat -> Attempt, allowed: set<Value>)
    requires outcome(0) == RequestError || (outcome(0).HttpError? && outcome(0).status != 504)
    ensures Fetch(outcome, allowed) == (None, [])
  {
  }

  /** A response ends the run at once, at whichever attempt it comes: with
      the allowed buildings when its body parses, with None otherwise. */
  lemma ResponseEnds(outcome: nat -> Attempt, attempt: nat, allowed: set<Value>)
    requires attempt < MaxRetries && outcome(attempt).Response?
    ensures FetchFrom(outcome, attempt, allowed).1 == []
    ensures var body := outcome(attempt).body;
      FetchFrom(outcome, attempt, allowed).0 ==
        if body.Some? && ParseResponse(body.value).Ok? then Some(Filter(ParseResponse(body.value).value, allowed))
        else None
  {
  }

  /** A first response that parses returns the allowed buildings without a
      wait. */
  lemma FirstResponseFiltered(outcome: nat -> Attempt, allowed: set<Value>, data: Value)
    requires outcome(0) == Response(Some(data)) && ParseResponse(data).Ok?
    ensures Fetch(outcome, allowed) == (Some(Filter(ParseResponse(data).value, allowed)), [])
  {
    ResponseEnds(outcome, 0, allowed);
  }

  /** A timeout followed by a response that parses: one wait of 5 seconds,
      then the allowed buildings of the second response. */
  lemma TimeoutThenResponse(outcome: nat -> Attempt, allowed: set<Value>, data: Value)
    requires outcome(0).Timeout? && outcome(1) == Response(Some(data)) && ParseResponse(data).Ok?
    ensures Fetch(outcome, allowed) == (Some(Filter(ParseResponse(data).value, allowed)), [5])
  {
    ResponseEnds(outcome, 1, allowed);
    assert [5] + FetchFrom(outcome, 1, allowed).1 == [5];
  }

  /** An attempt that is not retried ends the run with its own result. */
  lemma FetchDone(outcome: nat -> Attempt, attempt: nat, allowed: set<Value>)
    requires attempt < MaxRetries && AttemptStep(outcome(attempt), attempt, allowed).Done?
    ensures AttemptStep(outcome(attempt), attempt, allowed).result == FetchFrom(outcome, attempt, allowed).0
    ensures FetchFrom(outcome, attempt, allowed).1 == []
  {
  }

  /** An attempt that is retried adds its wait and leaves the rest to the
      next attempt. */
  lemma FetchRetry(outcome: nat -> Attempt, attempt: nat, allowed: set<Value>, waits: seq<nat>)
    requires attempt < MaxRetries && AttemptStep(outcome(attempt), attempt, allowed).Retry?
    ensures attempt + 1 < MaxRetries
    ensures FetchFrom(outcome, attempt, allowed).0 == FetchFrom(outcome, attempt + 1, allowed).0
    ensures waits + FetchFrom(outcome, attempt, allowed).1 ==
      (waits + [AttemptStep(outcome(attempt), attempt, allowed).wait]) + FetchFrom(outcome, attempt + 1, allowed).1
  {
  }

  /** `fetch_buildings`, with the `time.sleep` durations as an output. */
  method FetchBuildings(outcome: nat -> Attempt, allowed: set<Value>) returns (result: Option<seq<Building>>, waits: seq<nat>)
    ensures (result, waits) == Fetch(outcome, allowed)
  {
    waits := [];
    for attempt := 0 to MaxRetries
      invariant attempt < MaxRetries
      invariant Fetch(outcome, allowed).0 == FetchFrom(outcome, attempt, allowed).0
      invariant Fetch(outcome, allowed).1 == waits + FetchFrom(outcome, attempt, allowed).1
      invariant |waits| == attempt
    {
      match outcome(attempt)
      case Response(body) =>
        FetchDone(outcome, attempt, allowed);
        assert waits + [] == waits;
        if body.None? {
          return None, waits;
        }
        var parsed := ParseOverpassResponse(body.value);
        if parsed.Raised? {
          return None, waits;
        }
        return Some(Filter(parsed.value, allowed)), waits;
      case Timeout =>
        if attempt < MaxRetries - 1 {
          FetchRetry(outcome, attempt, allowed, waits);
          waits := waits + [5 * (attempt + 1)];
        } else {
          FetchDone(outcome, attempt, allowed);
          assert waits + [] == waits;
          return None, waits;
        }
      case HttpError(status) =>
        if status == 504 && attempt < MaxRetries - 1 {
          FetchRetry(outcome, attempt, allowed, waits);
          waits := waits + [10 * (attempt + 1)];
        } else {
          FetchDone(outcome, attempt, allowed);
          assert waits + [] == waits;
          return None, waits;
        }
      case RequestError =>
        FetchDone(outcome, attempt, allowed);
        assert waits + [] == waits;
        return None, waits;
    }
    assert false;
  }
}
