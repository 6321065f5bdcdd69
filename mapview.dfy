/** The map preview (MapParser/map_visualizer.py): one layer per building
    row, coloured by building type unless the row is marked as containing
    asbestos, on a map centred on the middle of all geometries. folium
    itself, the tile server and the HTML file are not modelled; the map is
    the list of layers added to it. */
module MapView {
  import opened Wrappers
  import opened Json
  import opened Geometry
  import Overpass

  /** One row of the frame: its polygon ring, its `building` value and its
      `isAsbestos` value (None when the frame has no such column). */
  datatype Row = Row(ring: seq<Overpass.LonLat>, building: string, isAsbestos: Option<Value>)

  /** `building_colors`. */
  const BuildingColours: map<string, string> := map[
    "house" := "#ffff00", "detached" := "#ffff00", "residential" := "#ffff00",
    "apartments" := "#ffaa00", "bungalow" := "#ffff00", "garage" := "#ffffff",
    "office" := "#ff00ff", "commercial" := "#ff00ff", "retail" := "#ff00ff",
    "industrial" := "#ff0000", "warehouse" := "#ff0000", "school" := "#00ff00",
    "kindergarten" := "#00ff00", "hospital" := "#ff3333", "church" := "#00ffff",
    "yes" := "#ffffff"]

  const AsbestosColour: string := "#ff6600"
  const DefaultColour: string := "#ffffff"

  /** What `folium.GeoJson` is given for one row: the style function's
      colour (for fill and outline), weight 3, fill opacity 0.3, and the
      tooltip. */
  datatype Layer = Layer(ring: seq<Overpass.LonLat>, colour: string, weight: nat, fillOpacity: real, tooltip: string)

  /** `'isAsbestos' in row and row['isAsbestos'] == True`. */
  predicate MarkedAsbestos(row: Row) {
    row.isAsbestos.Some? && EqualsTrue(row.isAsbestos.value)
  }

  /** The colour and tooltip choice of the row loop. */
  function LayerOf(row: Row): (l: Layer)
    ensures l.ring == row.ring && l.weight == 3 && l.fillOpacity == 0.3
    ensures l.colour == AsbestosColour <==> MarkedAsbestos(row)
    ensures MarkedAsbestos(row) ==> l.tooltip == "Type: " + row.building + " (ASBESTOS)"
    ensures !MarkedAsbestos(row) ==> l.tooltip == "Type: " + row.building
    ensures !MarkedAsbestos(row) && row.building in BuildingColours ==> l.colour == BuildingColours[row.building]
    ensures !MarkedAsbestos(row) && row.building !in BuildingColours ==> l.colour == DefaultColour
  {
    var choice :=
      if MarkedAsbestos(row) then (AsbestosColour, "Type: " + row.building + " (ASBESTOS)")
      else (if row.building in BuildingColours then BuildingColours[row.building] else DefaultColour,
            "Type: " + row.building);
    assert AsbestosColour !in BuildingColours.Values;
    Layer(row.ring, choice.0, 3, 0.3, choice.1)
  }

  /** The mark wins over every type; `True`, `1` and `1.0` all mark a row. */
  lemma MarkOverridesType(ring: seq<Overpass.LonLat>, t: string)
    ensures LayerOf(Row(ring, t, Some(Int(1)))).colour == AsbestosColour
    ensures LayerOf(Row(ring, t, Some(Real(1.0)))).colour == AsbestosColour
    ensures LayerOf(Row(ring, t, Some(Bool(true)))).colour == AsbestosColour
    ensures LayerOf(Row(ring, t, Some(Str("True")))).colour != AsbestosColour
  {
  }

  /** Every colour a layer gets is the asbestos colour, a table colour or
      the default. */
  lemma ColoursFromPalette(row: Row)
    ensures LayerOf(row).colour == AsbestosColour || LayerOf(row).colour in BuildingColours.Values ||
            LayerOf(row).colour == DefaultColour
  {
  }

  function Layers(rows: seq<Row>): (ls: seq<Layer>)
    ensures |ls| == |rows| && forall k | 0 <= k < |rows| :: ls[k] == LayerOf(rows[k])
  {
    seq(|rows|, k requires 0 <= k < |rows| => LayerOf(rows[k]))
  }

  lemma LayersNext(rows: seq<Row>, n: nat)
    requires n < |rows|
    ensures Layers(rows[..n + 1]) == Layers(rows[..n]) + [LayerOf(rows[n])]
  {
    var before, after := Layers(rows[..n]), Layers(rows[..n + 1]);
    assert forall k | 0 <= k < n :: after[k] == before[k];
  }

  /** All vertices of all rows, as (lat, lng). */
  function AllPoints(rows: seq<Row>): (ps: seq<LatLng>)
    ensures |ps| >= (if rows == [] then 0 else |rows[|rows| - 1].ring|)
  {
    if rows == [] then []
    else
      var ring := rows[|rows| - 1].ring;
      AllPoints(rows[..|rows| - 1]) + seq(|ring|, k requires 0 <= k < |ring| => LatLng(ring[k].lat, ring[k].lon))
  }

  /** `gdf.total_bounds` as an extent, and the map location: the middle of
      it in each coordinate. */
  function Centre(e: Extent): LatLng {
    LatLng((e.minLat + e.maxLat) / 2.0, (e.minLng + e.maxLng) / 2.0)
  }

  /** The centre lies within the bounds, which hold every vertex. */
  lemma CentreWithin(rows: seq<Row>)
    requires rows != [] && |rows[|rows| - 1].ring| > 0
    ensures Hull(AllPoints(rows)).Some?
    ensures var e := Hull(AllPoints(rows)).value;
      e.Holds(Centre(e)) && forall p | p in AllPoints(rows) :: e.Holds(p)
  {
    var e := Hull(AllPoints(rows)).value;
    assert e.Holds(AllPoints(rows)[0]);
  }

  /** The folium map with the layers added so far. */
  class FoliumMap {
    const location: LatLng
    const zoomStart: nat
    var layers: seq<Layer>

    constructor (location: LatLng)
      ensures this.location == location && zoomStart == 17 && layers == []
    {
      this.location := location;
      zoomStart := 17;
      layers := [];
    }

    /** `.add_to(m)`. */
    method Add(layer: Layer)
      modifies this
      ensures layers == old(layers) + [layer]
    {
      layers := layers + [layer];
    }
  }

  /** `create_map_preview`: None for a missing or empty frame, otherwise a
      map centred on the bounds with one layer per row, in row order. The
      rows' polygons come from shapely, so each has a vertex. */
  method CreateMapPreview(gdf: Option<seq<Row>>) returns (m: Option<FoliumMap>)
    requires gdf.Some? ==> forall k | 0 <= k < |gdf.value| :: |gdf.value[k].ring| > 0
    ensures m.None? <==> gdf.None? || gdf.value == []
    ensures m.Some? ==> (fresh(m.value) && m.value.zoomStart == 17 &&
      Hull(AllPoints(gdf.value)).Some? && m.value.location == Centre(Hull(AllPoints(gdf.value)).value) &&
      m.value.layers == Layers(gdf.value))
  {
    if gdf.None? || gdf.value == [] {
      return None;
    }
    var rows := gdf.value;
    CentreWithin(rows);
    var bounds := Hull(AllPoints(rows)).value;
    var preview := new FoliumMap(Centre(bounds));
    for idx := 0 to |rows|
      invariant preview.layers == Layers(rows[..idx])
    {
      LayersNext(rows, idx);
      preview.Add(LayerOf(rows[idx]));
    }
    assert rows[..|rows|] == rows;
    return Some(preview);
  }
}
