/** The main loops of the labelling and image scripts: which buildings are
    skipped, which count as successful or failed, which rows reach the CSV
    file, and when the whole script stops on an exception. What a download
    does to the network and the disk is an input: for each building, whether
    saving its image completed or raised. */
module Accounting {
  import opened Wrappers
  import opened Json
  import opened Seqs
  import opened Geometry
  import opened Labels
  import opened Crop
  import Text
  import Arith

  /** One CSV row; the file name is formatted from the two coordinates. */
  datatype Row = Row(lat: real, lng: real, hasAsbestos: int)

  /** What one building (or feature) contributes to the counters. */
  datatype Outcome<R> = Skipped | Saved(row: R) | Failed

  predicate IsSaved<R>(o: Outcome<R>) { o.Saved? }
  predicate IsFailed<R>(o: Outcome<R>) { o.Failed? }
  predicate IsSkipped<R>(o: Outcome<R>) { o.Skipped? }

  /** `successful`, `failed` and `csv_data` at some point of a run. */
  datatype Run<R> = Run(successful: nat, failed: nat, rows: seq<R>)

  /** The counter updates for one outcome. */
  function Record<R>(run: Run<R>, o: Outcome<R>): Run<R> {
    match o
    case Skipped => run
    case Saved(row) => Run(run.successful + 1, run.failed, run.rows + [row])
    case Failed => Run(run.successful, run.failed + 1, run.rows)
  }

  /** The counters after a sequence of outcomes. */
  function Tally<R>(outcomes: seq<Outcome<R>>): Run<R> {
    if outcomes == [] then Run(0, 0, []) else Record(Tally(outcomes[..|outcomes| - 1]), outcomes[|outcomes| - 1])
  }

  /** The rows of the saved outcomes, in order. */
  function SavedRows<R>(outcomes: seq<Outcome<R>>): seq<R> {
    if outcomes == [] then []
    else (if outcomes[0].Saved? then [outcomes[0].row] else []) + SavedRows(outcomes[1..])
  }

  lemma {:induction false} SavedRowsAppend<R>(a: seq<Outcome<R>>, b: seq<Outcome<R>>)
    ensures SavedRows(a + b) == SavedRows(a) + SavedRows(b)
  {
    if a != [] {
      assert (a + b)[1..] == a[1..] + b;
      SavedRowsAppend(a[1..], b);
    } else {
      assert a + b == b;
    }
  }

  /** Every building increments at most one counter: `successful` counts
      the saved ones, `failed` the failed ones, the skipped ones change
      nothing, and the CSV gets exactly the rows of the saved ones. */
  lemma {:induction false} TallyCounts<R>(outcomes: seq<Outcome<R>>)
    ensures Tally(outcomes).successful == Count(outcomes, IsSaved)
    ensures Tally(outcomes).failed == Count(outcomes, IsFailed)
    ensures Tally(outcomes).successful + Tally(outcomes).failed + Count(outcomes, IsSkipped) == |outcomes|
    ensures Tally(outcomes).rows == SavedRows(outcomes)
    ensures |Tally(outcomes).rows| == Tally(outcomes).successful
  {
    if outcomes != [] {
      var init, last := outcomes[..|outcomes| - 1], outcomes[|outcomes| - 1];
      TallyCounts(init);
      assert outcomes == init + [last];
      SavedRowsAppend(init, [last]);
      assert [last][1..] == [];
    }
  }

  /** The saved rows, counted with multiplicity, depend only on the outcomes
      and not on their order. */
  lemma {:induction false} SavedRowsPermutation<R>(a: seq<Outcome<R>>, b: seq<Outcome<R>>)
    requires multiset(a) == multiset(b)
    ensures multiset(SavedRows(a)) == multiset(SavedRows(b))
    decreases |a|
  {
    if a != [] {
      var x := a[0];
      assert x in multiset(b);
      var k := IndexOf(b, x);
      var b' := b[..k] + b[k + 1..];
      MultisetRemove(b, k);
      assert a == [x] + a[1..];
      assert multiset(a[1..]) == multiset(b');
      SavedRowsPermutation(a[1..], b');
      SavedRowsRemove(b, k);
    } else {
      assert |b| == |multiset(b)|;
    }
  }

  /** Taking one outcome out of the middle takes out its row, if any. */
  lemma SavedRowsRemove<R>(b: seq<Outcome<R>>, k: nat)
    requires k < |b|
    ensures multiset(SavedRows(b)) == multiset(SavedRows(b[..k] + b[k + 1..])) + multiset(SavedRows([b[k]]))
  {
    var front, x, back := b[..k], [b[k]], b[k + 1..];
    Seqs.SplitAt(b, k);
    SavedRowsAppend(front, x + back);
    SavedRowsAppend(x, back);
    SavedRowsAppend(front, back);
  }

  /** A whole run over per-building steps, where a step that raises outside
      every `try` ends the script before it writes the CSV file. */
  function RunOf<R>(steps: seq<Result<Outcome<R>>>): Result<Run<R>> {
    if steps == [] then Ok(Run(0, 0, []))
    else
      var run :- RunOf(steps[..|steps| - 1]);
      var o :- steps[|steps| - 1];
      Ok(Record(run, o))
  }

  /** A run reaches its end exactly when no step raised. */
  lemma {:induction false} RunOfOk<R>(steps: seq<Result<Outcome<R>>>)
    ensures RunOf(steps).Ok? <==> forall k | 0 <= k < |steps| :: steps[k].Ok?
  {
    if steps != [] {
      var init := steps[..|steps| - 1];
      RunOfOk(init);
      assert forall k | 0 <= k < |init| :: init[k] == steps[k];
    }
  }

  /** One step that raises ends the run. */
  lemma RunOfRaises<R>(steps: seq<Result<Outcome<R>>>, k: nat)
    requires k < |steps| && steps[k].Raised?
    ensures RunOf(steps).Raised?
  {
    RunOfOk(steps);
  }

  function Values<T>(steps: seq<Result<T>>): (vs: seq<T>)
    requires forall k | 0 <= k < |steps| :: steps[k].Ok?
    ensures |vs| == |steps| && forall k | 0 <= k < |steps| :: vs[k] == steps[k].value
  {
    seq(|steps|, k requires 0 <= k < |steps| => steps[k].value)
  }

  /** A run that does not stop is the tally of its outcomes. */
  lemma {:induction false} RunOfTally<R>(steps: seq<Result<Outcome<R>>>)
    requires forall k | 0 <= k < |steps| :: steps[k].Ok?
    ensures RunOf(steps) == Ok(Tally(Values(steps)))
  {
    if steps != [] {
      var init := steps[..|steps| - 1];
      RunOfTally(init);
      assert Values(steps)[..|steps| - 1] == Values(init);
    }
  }

  // ---------------------------------------------------------------------
  // Where the buildings are in the loaded JSON.

  /** The `buildings` of the labelling scripts' `main`: a list as it is, the
      `features` of a dict before its `buildings`, any other dict as a list
      of one; None for any other value, where the script prints that the
      structure is unknown and returns. Printing `len(buildings)` raises for
      a member that is no container.
      MapParser/download_buildings_with_labels.py:248-261. */
  function BuildingsOf(data: Value): (r: Result<Option<seq<Value>>>)
    ensures r.Ok? && r.value.None? <==> !(data.List? || data.Object?)
    ensures data.List? ==> r == Ok(Some(data.items))
    ensures data.Object? && "features" in data.fields && data.fields["features"].List? ==>
      r == Ok(Some(data.fields["features"].items))
    ensures data.Object? && "features" !in data.fields && "buildings" in data.fields && data.fields["buildings"].List? ==>
      r == Ok(Some(data.fields["buildings"].items))
    ensures data.Object? && "features" !in data.fields && "buildings" !in data.fields ==> r == Ok(Some([data]))
    ensures r.Raised? <==> (data.Object? &&
      (("features" in data.fields && Members(data.fields["features"]).None?) ||
       ("features" !in data.fields && "buildings" in data.fields && Members(data.fields["buildings"]).None?)))
  {
    match data
    case List(xs) => Ok(Some(xs))
    case Object(m) =>
      if "features" in m then
        (match Members(m["features"]) case Some(bs) => Ok(Some(bs)) case None => Raised)
      else if "buildings" in m then
        (match Members(m["buildings"]) case Some(bs) => Ok(Some(bs)) case None => Raised)
      else Ok(Some([data]))
    case _ => Ok(None)
  }

  /** A FeatureCollection that also carries `buildings` is read from its
      `features`. */
  lemma FeaturesBeforeBuildings(features: seq<Value>, buildings: seq<Value>)
    ensures BuildingsOf(Object(map["features" := List(features), "buildings" := List(buildings)])) ==
      Ok(Some(features))
  {
  }

  // ---------------------------------------------------------------------
  // The per-building preparation shared by the labelling scripts.

  /** A building either cannot be used (it is skipped, or in the threaded
      script counted as failed) or yields a centre and a label. */
  datatype Prep = Unusable | Ready(centre: LatLng, hasAsbestos: int)

  /** A dict building whose coordinates were found and whose label was
      found and coerced without raising. */
  predicate Labelled(building: Value) {
    building.Object? && Locate(building.fields).Ok? && Locate(building.fields).value.Some? &&
    Label(building.fields).Ok? && Coerce(Label(building.fields).value).Ok?
  }

  /** The body of the per-building loop up to the download: a non-dict is
      ignored; the geometry lookup, the label search and the label
      coercion are outside any `try`, so their exceptions end the script;
      missing coordinates and a centre that raises skip the building. */
  function Prepare(building: Value): (r: Result<Prep>)
    ensures !building.Object? ==> r == Ok(Unusable)
    ensures building.Object? && Locate(building.fields) == Ok(None) ==> r == Ok(Unusable)
    ensures r.Ok? && r.value.Ready? ==>
      building.Object? && Locate(building.fields).Ok? && Locate(building.fields).value.Some? &&
      BuildingCentre(Locate(building.fields).value.value) == Ok(r.value.centre) &&
      Label(building.fields).Ok? && Coerce(Label(building.fields).value) == Ok(r.value.hasAsbestos)
  {
    match building
    case Object(fields) =>
      var loc :- Locate(fields);
      if loc.None? then Ok(Unusable)
      else
        var found :- Label(fields);
        var hasAsbestos :- Coerce(found);
        (match BuildingCentre(loc.value)
         case Ok(c) => Ok(Ready(c, hasAsbestos))
         case Raised => Ok(Unusable))
    case _ => Ok(Unusable)
  }

  /** Which buildings reach the download: the preparation raises exactly
      where the coordinate lookup, the label search or the coercion raises;
      a located, labelled building is ready with its centre and label when
      the centre computes, and skipped when it raises. */
  lemma PrepareCases(building: Value)
    ensures Prepare(building).Raised? <==> (building.Object? &&
      (Locate(building.fields).Raised? ||
       (Locate(building.fields).value.Some? &&
        (Label(building.fields).Raised? || Coerce(Label(building.fields).value).Raised?))))
    ensures Labelled(building) && BuildingCentre(Locate(building.fields).value.value).Ok? ==>
      Prepare(building) == Ok(Ready(BuildingCentre(Locate(building.fields).value.value).value,
                                    Coerce(Label(building.fields).value).value))
    ensures Labelled(building) && BuildingCentre(Locate(building.fields).value.value).Raised? ==>
      Prepare(building) == Ok(Unusable)
  {
  }

  /** The preparation agrees with `calculate_bounding_box`: it never raises
      where the box does not expect it to, and a ready building's centre is
      one the box was computed from. */
  lemma PrepareAgreesWithBox(building: Value)
    ensures CountedCentre(building).Raised? ==> Prepare(building).Raised?
    ensures Prepare(building).Ok? && Prepare(building).value.Ready? ==>
      CountedCentre(building) == Ok(Some(Prepare(building).value.centre))
  {
  }

  /** The statements of the loop body, with the label search written as the
      loop it is. */
  method PrepareBuilding(building: Value) returns (r: Result<Prep>)
    ensures r == Prepare(building)
  {
    if !building.Object? {
      return Ok(Unusable);
    }
    var fields := building.fields;
    var loc := Locate(fields);
    if loc.Raised? {
      return Raised;
    }
    if loc.value.None? {
      return Ok(Unusable);
    }
    var found := FindLabel(fields);
    if found.Raised? {
      return Raised;
    }
    var hasAsbestos := Coerce(found.value);
    if hasAsbestos.Raised? {
      return Raised;
    }
    var centre := BuildingCentre(loc.value.value);
    if centre.Raised? {
      return Ok(Unusable);
    }
    r := Ok(Ready(centre.value, hasAsbestos.value));
  }

  // ---------------------------------------------------------------------
  // The individual method of MapParser/download_buildings_with_labels.py.

  /** A ready building is saved when its 3x3 download completes and failed
      when it raises. */
  function IndividualStep(building: Value, i: nat, saved: nat -> bool): Result<Outcome<Row>> {
    var p :- Prepare(building);
    Ok(match p
       case Unusable => Skipped
       case Ready(c, hasAsbestos) => if saved(i) then Saved(Row(c.lat, c.lng, hasAsbestos)) else Failed)
  }

  function IndividualSteps(buildings: seq<Value>, saved: nat -> bool): (steps: seq<Result<Outcome<Row>>>)
    ensures |steps| == |buildings|
  {
    seq(|buildings|, i requires 0 <= i < |buildings| => IndividualStep(buildings[i], i, saved))
  }

  /** MapParser/download_buildings_with_labels.py:374-438. */
  method IndividualMethod(buildings: seq<Value>, saved: nat -> bool) returns (r: Result<Run<Row>>)
    ensures r == RunOf(IndividualSteps(buildings, saved))
  {
    ghost var steps := IndividualSteps(buildings, saved);
    var successful, failed, csvData := 0, 0, [];
    for i := 0 to |buildings|
      invariant RunOf(steps[..i]) == Ok(Run(successful, failed, csvData))
    {
      var p := PrepareBuilding(buildings[i]);
      if p.Raised? {
        RunOfRaises(steps, i);
        return Raised;
      }
      ghost var prior := Run(successful, failed, csvData);
      ghost var o: Outcome<Row> := Skipped;
      if p.value.Ready? {
        var c, hasAsbestos := p.value.centre, p.value.hasAsbestos;
        if saved(i) {
          successful := successful + 1;
          csvData := csvData + [Row(c.lat, c.lng, hasAsbestos)];
          o := Saved(Row(c.lat, c.lng, hasAsbestos));
        } else {
          failed := failed + 1;
          o := Failed;
        }
      }
      assert steps[i] == Ok(o);
      RunOfNext(steps, i, prior, o, Run(successful, failed, csvData));
    }
    assert steps[..|buildings|] == steps;
    r := Ok(Run(successful, failed, csvData));
  }

  /** Every ready building is either saved, with its row, or failed; the
      others change nothing. */
  lemma IndividualAccounts(buildings: seq<Value>, saved: nat -> bool, i: nat)
    requires i < |buildings| && Prepare(buildings[i]).Ok?
    ensures var o := IndividualSteps(buildings, saved)[i].value;
      match Prepare(buildings[i]).value
      case Unusable => o == Skipped
      case Ready(c, hasAsbestos) => o == (if saved(i) then Saved(Row(c.lat, c.lng, hasAsbestos)) else Failed)
  {
  }

  // ---------------------------------------------------------------------
  // no_not_delete/adam.py: Google first, then Bing.

  /** Bing is tried only when the Google download raised; the building
      fails only when both raised. */
  function FallbackStep(building: Value, i: nat, google: nat -> bool, bing: nat -> bool): Result<Outcome<Row>> {
    var p :- Prepare(building);
    Ok(match p
       case Unusable => Skipped
       case Ready(c, hasAsbestos) =>
         if google(i) then Saved(Row(c.lat, c.lng, hasAsbestos))
         else if bing(i) then Saved(Row(c.lat, c.lng, hasAsbestos))
         else Failed)
  }

  function FallbackSteps(buildings: seq<Value>, google: nat -> bool, bing: nat -> bool): (steps: seq<Result<Outcome<Row>>>)
    ensures |steps| == |buildings|
  {
    seq(|buildings|, i requires 0 <= i < |buildings| => FallbackStep(buildings[i], i, google, bing))
  }

  /** no_not_delete/adam.py:202-295. */
  method FallbackMethod(buildings: seq<Value>, google: nat -> bool, bing: nat -> bool) returns (r: Result<Run<Row>>)
    ensures r == RunOf(FallbackSteps(buildings, google, bing))
  {
    ghost var steps := FallbackSteps(buildings, google, bing);
    var successful, failed, csvData := 0, 0, [];
    for i := 0 to |buildings|
      invariant RunOf(steps[..i]) == Ok(Run(successful, failed, csvData))
    {
      var o := FallbackBuilding(buildings[i], i, google, bing);
      if o.Raised? {
        RunOfRaises(steps, i);
        return Raised;
      }
      ghost var prior := Run(successful, failed, csvData);
      match o.value {
        case Saved(row) =>
          successful := successful + 1;
          csvData := csvData + [row];
        case Failed =>
          failed := failed + 1;
        case Skipped =>
      }
      RunOfNext(steps, i, prior, o.value, Run(successful, failed, csvData));
    }
    assert steps[..|buildings|] == steps;
    r := Ok(Run(successful, failed, csvData));
  }

  /** The body of the loop for one building: Google first, Bing after
      Google raised. */
  method FallbackBuilding(building: Value, i: nat, google: nat -> bool, bing: nat -> bool)
    returns (o: Result<Outcome<Row>>)
    ensures o == FallbackStep(building, i, google, bing)
  {
    var p := PrepareBuilding(building);
    if p.Raised? {
      return Raised;
    }
    if p.value.Unusable? {
      return Ok(Skipped);
    }
    var c, hasAsbestos := p.value.centre, p.value.hasAsbestos;
    if google(i) {
      o := Ok(Saved(Row(c.lat, c.lng, hasAsbestos)));
    } else if bing(i) {
      o := Ok(Saved(Row(c.lat, c.lng, hasAsbestos)));
    } else {
      o := Ok(Failed);
    }
  }


  /** When Google succeeds, the outcome does not depend on Bing at all. */
  lemma BingOnlyAfterGoogle(building: Value, i: nat, google: nat -> bool, bing1: nat -> bool, bing2: nat -> bool)
    requires google(i)
    ensures FallbackStep(building, i, google, bing1) == FallbackStep(building, i, google, bing2)
  {
  }

  /** A ready building fails exactly when both providers raised. */
  lemma FallbackFails(building: Value, i: nat, google: nat -> bool, bing: nat -> bool)
    requires Prepare(building).Ok? && Prepare(building).value.Ready?
    ensures FallbackStep(building, i, google, bing) == Ok(Failed) <==> !google(i) && !bing(i)
  {
  }

  // ---------------------------------------------------------------------
  // The area method of both labelling scripts.

  /** `lat_lng_to_pixel_in_tile`: tile x, tile y and the pixel offsets
      within the tile for a latitude, longitude and zoom. */
  type Projection = (real, real, nat) -> (int, int, Pixel, Pixel)

  /** The mosaic a building is cut from: its first tile column and row, its
      size in tiles and the zoom. */
  datatype Area = Area(minXTile: int, minYTile: int, tilesX: nat, tilesY: nat, zoom: nat)

  /** The tile range of `download_area_image`: from the tile of the NW
      corner (max_lat, min_lng) to that of the SE corner (min_lat, max_lng)
      of the box. With no centre found the box is infinite and the
      projection raises; a range that is negative makes `Image.new` raise. */
  function AreaOf(box: Option<Extent>, project: Projection, zoom: nat): (r: Result<Area>)
    ensures box.None? ==> r.Raised?
    ensures r.Ok? ==>
      var nw, se := project(box.value.maxLat, box.value.minLng, zoom), project(box.value.minLat, box.value.maxLng, zoom);
      r.value.minXTile == nw.0 && r.value.minYTile == nw.1 &&
      r.value.tilesX == se.0 - nw.0 + 1 && r.value.tilesY == se.1 - nw.1 + 1 && r.value.zoom == zoom
  {
    match box
    case None => Raised
    case Some(e) =>
      var nw := project(e.maxLat, e.minLng, zoom);
      var se := project(e.minLat, e.maxLng, zoom);
      var tilesX, tilesY := se.0 - nw.0 + 1, se.1 - nw.1 + 1;
      if tilesX < 0 || tilesY < 0 then Raised else Ok(Area(nw.0, nw.1, tilesX, tilesY, zoom))
  }

  /** Web Mercator's order: moving east never lowers the tile column and
      moving south never lowers the tile row. */
  ghost predicate Monotone(project: Projection, zoom: nat) {
    forall lat1: real, lng1: real, lat2: real, lng2: real | lat2 <= lat1 && lng1 <= lng2 ::
      project(lat1, lng1, zoom).0 <= project(lat2, lng2, zoom).0 &&
      project(lat1, lng1, zoom).1 <= project(lat2, lng2, zoom).1
  }

  /** Under that order every point of the box falls in a tile of the
      mosaic, so its pixel lies on the canvas. */
  lemma PointInArea(box: Option<Extent>, project: Projection, zoom: nat, c: LatLng)
    requires Monotone(project, zoom) && AreaOf(box, project, zoom).Ok? && box.value.Holds(c)
    ensures var a, t := AreaOf(box, project, zoom).value, project(c.lat, c.lng, zoom);
      0 <= AreaCentre(t.0, a.minXTile, t.2) < TileSize * a.tilesX &&
      0 <= AreaCentre(t.1, a.minYTile, t.3) < TileSize * a.tilesY
  {
    var e := box.value;
    var a, t := AreaOf(box, project, zoom).value, project(c.lat, c.lng, zoom);
    var nw, se := project(e.maxLat, e.minLng, zoom), project(e.minLat, e.maxLng, zoom);
    assert nw.0 <= t.0 <= se.0 && nw.1 <= t.1 <= se.1;
    InCanvas(t.0 - a.minXTile, a.tilesX, t.2);
    InCanvas(t.1 - a.minYTile, a.tilesY, t.3);
  }

  /** Every building the area method prepares lies on the mosaic built
      from the box of all the buildings: its centre is one the box was
      computed from, the box holds it, and the tile range covers the box. */
  lemma ReadyOnCanvas(buildings: seq<Value>, k: nat, project: Projection, zoom: nat)
    requires Monotone(project, zoom) && k < |buildings|
    requires BoxOf(buildings).Ok? && AreaOf(BoxOf(buildings).value, project, zoom).Ok?
    requires Prepare(buildings[k]).Ok? && Prepare(buildings[k]).value.Ready?
    ensures var a, c := AreaOf(BoxOf(buildings).value, project, zoom).value, Prepare(buildings[k]).value.centre;
      var t := project(c.lat, c.lng, zoom);
      0 <= AreaCentre(t.0, a.minXTile, t.2) < TileSize * a.tilesX &&
      0 <= AreaCentre(t.1, a.minYTile, t.3) < TileSize * a.tilesY
  {
    var c := Prepare(buildings[k]).value.centre;
    PrepareAgreesWithBox(buildings[k]);
    CentreCounted(buildings, k, c);
    BoxHoldsCentres(buildings);
    PointInArea(BoxOf(buildings).value, project, zoom, c);
  }

  lemma InCanvas(offset: int, tiles: nat, pixel: Pixel)
    requires 0 <= offset < tiles
    ensures 0 <= offset * TileSize + pixel < TileSize * tiles
  {
    Arith.MulMonotone(tiles, offset + 1, TileSize);
  }

  /** A ready building is cut out of the area mosaic around its centre
      pixel; a window that does not fit and a save that raises both count as
      failed. */
  function AreaStep(building: Value, i: nat, area: Area, project: Projection, saved: nat -> bool): Result<Outcome<Row>> {
    var p :- Prepare(building);
    Ok(match p
       case Unusable => Skipped
       case Ready(c, hasAsbestos) =>
         var t := project(c.lat, c.lng, area.zoom);
         var window := ExtractWindow(TileSize * area.tilesX, TileSize * area.tilesY,
                                     AreaCentre(t.0, area.minXTile, t.2), AreaCentre(t.1, area.minYTile, t.3), 128);
         if window.Some? && saved(i) then Saved(Row(c.lat, c.lng, hasAsbestos)) else Failed)
  }

  function AreaSteps(buildings: seq<Value>, area: Area, project: Projection, saved: nat -> bool): (steps: seq<Result<Outcome<Row>>>)
    ensures |steps| == |buildings|
  {
    seq(|buildings|, i requires 0 <= i < |buildings| => AreaStep(buildings[i], i, area, project, saved))
  }

  /** Step 3 of the area method: MapParser/download_buildings_with_labels.py:301-366
      and MapParser/download_buildings_with_labels_multithreaded.py:376-437. */
  method ExtractBuildings(buildings: seq<Value>, area: Area, project: Projection, saved: nat -> bool)
    returns (r: Result<Run<Row>>)
    ensures r == RunOf(AreaSteps(buildings, area, project, saved))
  {
    ghost var steps := AreaSteps(buildings, area, project, saved);
    var successful, failed, csvData := 0, 0, [];
    for i := 0 to |buildings|
      invariant RunOf(steps[..i]) == Ok(Run(successful, failed, csvData))
    {
      var p := PrepareBuilding(buildings[i]);
      if p.Raised? {
        RunOfRaises(steps, i);
        return Raised;
      }
      ghost var prior := Run(successful, failed, csvData);
      ghost var o: Outcome<Row> := Skipped;
      if p.value.Ready? {
        var c, hasAsbestos := p.value.centre, p.value.hasAsbestos;
        var t := project(c.lat, c.lng, area.zoom);
        var centreX := AreaCentre(t.0, area.minXTile, t.2);
        var centreY := AreaCentre(t.1, area.minYTile, t.3);
        var window := ExtractWindow(TileSize * area.tilesX, TileSize * area.tilesY, centreX, centreY, 128);
        if window.Some? && saved(i) {
          successful := successful + 1;
          csvData := csvData + [Row(c.lat, c.lng, hasAsbestos)];
          o := Saved(Row(c.lat, c.lng, hasAsbestos));
        } else {
          failed := failed + 1;
          o := Failed;
        }
      }
      assert steps[i] == Ok(o);
      RunOfNext(steps, i, prior, o, Run(successful, failed, csvData));
    }
    assert steps[..|buildings|] == steps;
    r := Ok(Run(successful, failed, csvData));
  }

  /** A building whose centre pixel lies at least 64 pixels inside every
      edge of the mosaic always gets its 128 x 128 window, so it fails only
      when its save raises. */
  lemma AreaWindowFits(building: Value, i: nat, area: Area, project: Projection, saved: nat -> bool)
    requires Prepare(building).Ok? && Prepare(building).value.Ready?
    requires var c := Prepare(building).value.centre;
      var t := project(c.lat, c.lng, area.zoom);
      64 <= AreaCentre(t.0, area.minXTile, t.2) <= TileSize * area.tilesX - 64 &&
      64 <= AreaCentre(t.1, area.minYTile, t.3) <= TileSize * area.tilesY - 64
    ensures AreaStep(building, i, area, project, saved) == Ok(Failed) <==> !saved(i)
  {
  }

  // ---------------------------------------------------------------------
  // The individual method of the multithreaded script.

  /** `process_building_individual`: the whole body is in one `try`, so a
      building that raises, has no coordinates or is not a dict comes back
      as a failure, like a download that raises. */
  function ProcessBuilding(building: Value, i: nat, saved: nat -> bool): (o: Outcome<Row>)
    ensures o.Saved? <==> Prepare(building).Ok? && Prepare(building).value.Ready? && saved(i)
    ensures !o.Skipped?
  {
    match Prepare(building)
    case Ok(Ready(c, hasAsbestos)) => if saved(i) then Saved(Row(c.lat, c.lng, hasAsbestos)) else Failed
    case _ => Failed
  }

  function Submitted(buildings: seq<Value>, saved: nat -> bool): (outcomes: seq<Outcome<Row>>)
    ensures |outcomes| == |buildings|
  {
    seq(|buildings|, i requires 0 <= i < |buildings| => ProcessBuilding(buildings[i], i, saved))
  }

  /** The `as_completed` loop of MapParser/download_buildings_with_labels_multithreaded.py:444-461:
      `completed` is the order in which the workers' results come back, any
      permutation of the submitted tasks' results. Every building counts
      exactly once, and the counters and the rows (up to order) are those of
      the submission order. */
  method ThreadedIndividual(buildings: seq<Value>, saved: nat -> bool, completed: seq<Outcome<Row>>)
    returns (run: Run<Row>)
    requires multiset(completed) == multiset(Submitted(buildings, saved))
    ensures run == Tally(completed)
    ensures run.successful + run.failed == |buildings|
    ensures run.successful == Count(Submitted(buildings, saved), IsSaved)
    ensures multiset(run.rows) == multiset(SavedRows(Submitted(buildings, saved)))
  {
    ghost var submitted := Submitted(buildings, saved);
    forall k | 0 <= k < |completed|
      ensures !completed[k].Skipped?
    {
      assert completed[k] in multiset(submitted);
    }
    var successful, failed, csvData := 0, 0, [];
    for k := 0 to |completed|
      invariant Tally(completed[..k]) == Run(successful, failed, csvData)
    {
      var result := completed[k];
      if result.Saved? {
        successful := successful + 1;
        csvData := csvData + [result.row];
      } else {
        assert result.Failed?;
        failed := failed + 1;
      }
      assert completed[..k + 1][..k] == completed[..k];
    }
    assert completed[..|completed|] == completed;
    run := Run(successful, failed, csvData);
    assert |completed| == |submitted| by {
      assert |multiset(completed)| == |multiset(submitted)|;
    }
    TallyCounts(completed);
    CountPermutation(completed, submitted, IsSaved);
    CountPermutation(completed, submitted, IsSkipped);
    assert Count(submitted, IsSkipped) == 0 by {
      NoneSkipped(submitted);
    }
    SavedRowsPermutation(completed, submitted);
  }

  lemma {:induction false} NoneSkipped(outcomes: seq<Outcome<Row>>)
    requires forall k | 0 <= k < |outcomes| :: !outcomes[k].Skipped?
    ensures Count(outcomes, IsSkipped) == 0
  {
    if outcomes != [] {
      NoneSkipped(outcomes[..|outcomes| - 1]);
    }
  }

  // ---------------------------------------------------------------------
  // MapParser/download_building_images.py: features scraped from a map page.

  /** `extract_geojson_from_html` after the regex: the matches that parse
      as JSON, in match order. `parse` is `json.loads`, None where it raises. */
  function Parsed(matches: seq<string>, parse: string -> Option<Value>): (r: seq<Value>)
    ensures |r| <= |matches|
  {
    if matches == [] then []
    else
      var last := parse(matches[|matches| - 1]);
      Parsed(matches[..|matches| - 1], parse) + (if last.Some? then [last.value] else [])
  }

  method ExtractGeojson(matches: seq<string>, parse: string -> Option<Value>) returns (geojsonList: seq<Value>)
    ensures geojsonList == Parsed(matches, parse)
  {
    geojsonList := [];
    for k := 0 to |matches|
      invariant geojsonList == Parsed(matches[..k], parse)
    {
      var geojson := parse(matches[k]);
      if geojson.Some? {
        geojsonList := geojsonList + [geojson.value];
      }
      assert matches[..k + 1][..k] == matches[..k];
    }
    assert matches[..|matches|] == matches;
  }

  /** When every match parses, all of them are kept, in order. */
  lemma {:induction false} ParsedAll(matches: seq<string>, parse: string -> Option<Value>)
    requires forall k | 0 <= k < |matches| :: parse(matches[k]).Some?
    ensures |Parsed(matches, parse)| == |matches|
    ensures forall k | 0 <= k < |matches| :: Parsed(matches, parse)[k] == parse(matches[k]).value
  {
    if matches != [] {
      var init := matches[..|matches| - 1];
      ParsedAll(init, parse);
    }
  }

  /** A match that does not parse is dropped without a trace. */
  lemma ParsedDrops(matches: seq<string>, bad: string, parse: string -> Option<Value>)
    requires parse(bad).None?
    ensures Parsed(matches + [bad], parse) == Parsed(matches, parse)
  {
    assert (matches + [bad])[..|matches|] == matches;
  }

  /** `feature.get('geometry', {})` and `geometry.get('type')` answer: the
      feature and its geometry are dicts. */
  predicate FeatureLookups(feature: Value) {
    feature.Object? && GetOr(feature.fields, "geometry", Object(map[])).Object?
  }

  /** The coordinates of a feature the loop processes: a Polygon whose
      coordinates are truthy. None for every other feature. */
  function PolygonCoordinates(feature: Value): (r: Option<Value>)
    ensures r.Some? ==> FeatureLookups(feature) && Truthy(r.value)
  {
    if !FeatureLookups(feature) then None
    else
      var geometry := GetOr(feature.fields, "geometry", Object(map[])).fields;
      var coordinates := GetOr(geometry, "coordinates", List([]));
      if GetOr(geometry, "type", Null) == Polygon && Truthy(coordinates) then Some(coordinates) else None
  }

  /** One feature: only a Polygon with truthy coordinates is processed; its
      centre is outside any `try`, so a malformed ring ends the script; the
      image is then saved with Google or, after Google raised, with Bing.
      A feature or geometry that is not a dict makes `.get` raise. */
  function FeatureStep(feature: Value, g: nat, f: nat, google: (nat, nat) -> bool, bing: (nat, nat) -> bool)
    : (r: Result<Outcome<LatLng>>)
    ensures r.Ok? && r.value.Saved? ==> feature.Object? && (google(g, f) || bing(g, f))
    ensures r.Raised? <==> (!FeatureLookups(feature) ||
      (PolygonCoordinates(feature).Some? && OuterRingCentre(PolygonCoordinates(feature).value).Raised?))
    ensures r == Ok(Skipped) <==> FeatureLookups(feature) && PolygonCoordinates(feature).None?
    ensures PolygonCoordinates(feature).Some? && OuterRingCentre(PolygonCoordinates(feature).value).Ok? ==>
      r == Ok(if google(g, f) || bing(g, f) then Saved(OuterRingCentre(PolygonCoordinates(feature).value).value)
              else Failed)
  {
    var geometry :- Get(feature, "geometry", Object(map[]));
    var geomType :- Get(geometry, "type", Null);
    if geomType != Polygon then Ok(Skipped)
    else
      var coordinates := GetOr(geometry.fields, "coordinates", List([]));
      if !Truthy(coordinates) then Ok(Skipped)
      else
        var c :- OuterRingCentre(coordinates);
        Ok(if google(g, f) then Saved(c) else if bing(g, f) then Saved(c) else Failed)
  }

  /** The features of one parsed document; iterating `features` raises
      for a value that is no container, as does `.get` on a non-dict. */
  function DocumentSteps(geojson: Value, g: nat, google: (nat, nat) -> bool, bing: (nat, nat) -> bool)
    : (steps: seq<Result<Outcome<LatLng>>>)
  {
    match Get(geojson, "features", List([]))
    case Raised => [Raised]
    case Ok(features) =>
      match Members(features)
      case None => [Raised]
      case Some(ms) => FeatureSteps(ms, g, google, bing)
  }

  function FeatureSteps(features: seq<Value>, g: nat, google: (nat, nat) -> bool, bing: (nat, nat) -> bool)
    : (steps: seq<Result<Outcome<LatLng>>>)
    ensures |steps| == |features|
  {
    seq(|features|, f requires 0 <= f < |features| => FeatureStep(features[f], g, f, google, bing))
  }

  function PageSteps(geojsons: seq<Value>, google: (nat, nat) -> bool, bing: (nat, nat) -> bool)
    : seq<Result<Outcome<LatLng>>>
  {
    if geojsons == [] then []
    else PageSteps(geojsons[..|geojsons| - 1], google, bing) +
         DocumentSteps(geojsons[|geojsons| - 1], |geojsons| - 1, google, bing)
  }

  lemma {:induction false} PageStepsPrefix(geojsons: seq<Value>, n: nat, google: (nat, nat) -> bool, bing: (nat, nat) -> bool)
    requires n <= |geojsons|
    ensures |PageSteps(geojsons[..n], google, bing)| <= |PageSteps(geojsons, google, bing)|
    ensures PageSteps(geojsons[..n], google, bing) ==
      PageSteps(geojsons, google, bing)[..|PageSteps(geojsons[..n], google, bing)|]
    decreases |geojsons|
  {
    if n < |geojsons| {
      var init := geojsons[..|geojsons| - 1];
      assert geojsons[..n] == init[..n];
      PageStepsPrefix(init, n, google, bing);
    } else {
      assert geojsons[..n] == geojsons;
    }
  }

  /** A run that stops within a prefix of the documents stops. */
  lemma PageRaises(geojsons: seq<Value>, n: nat, google: (nat, nat) -> bool, bing: (nat, nat) -> bool)
    requires n <= |geojsons| && RunOf(PageSteps(geojsons[..n], google, bing)).Raised?
    ensures RunOf(PageSteps(geojsons, google, bing)).Raised?
  {
    PageStepsPrefix(geojsons, n, google, bing);
    RunOfPrefixRaises(PageSteps(geojsons, google, bing), |PageSteps(geojsons[..n], google, bing)|);
  }

  /** A run whose prefix raises raises too. */
  lemma RunOfPrefixRaises<R>(steps: seq<Result<Outcome<R>>>, m: nat)
    requires m <= |steps| && RunOf(steps[..m]).Raised?
    ensures RunOf(steps).Raised?
  {
    var prefix := steps[..m];
    RunOfOk(prefix);
    var k :| 0 <= k < m && prefix[k].Raised?;
    assert steps[k] == prefix[k];
    RunOfRaises(steps, k);
  }

  /** The loop step of a run: the counters after step `n`. */
  lemma RunOfNext<R>(steps: seq<Result<Outcome<R>>>, n: nat, prior: Run<R>, o: Outcome<R>, next: Run<R>)
    requires n < |steps| && RunOf(steps[..n]) == Ok(prior) && steps[n] == Ok(o)
    requires next == Record(prior, o)
    ensures RunOf(steps[..n + 1]) == Ok(next)
  {
    assert steps[..n + 1][..n] == steps[..n];
  }

  /** The steps of `items`, step k taking item k. */
  function StepsOf<X, R>(items: seq<X>, step: (X, nat) -> Result<Outcome<R>>): (steps: seq<Result<Outcome<R>>>)
    ensures |steps| == |items| && forall k | 0 <= k < |items| :: steps[k] == step(items[k], k)
  {
    seq(|items|, k requires 0 <= k < |items| => step(items[k], k))
  }

  /** A `for` loop whose body is one step inside a `try`: it continues a run
      whose steps so far are `before`, counting each outcome, and stops at
      the first step that raises. */
  method RunSteps<X, R>(items: seq<X>, step: (X, nat) -> Result<Outcome<R>>,
                        ghost before: seq<Result<Outcome<R>>>, start: Run<R>)
    returns (r: Result<Run<R>>)
    requires RunOf(before) == Ok(start)
    ensures r == RunOf(before + StepsOf(items, step))
  {
    ghost var all := before + StepsOf(items, step);
    assert all[..|before|] == before;
    var run := start;
    for f := 0 to |items|
      invariant RunOf(all[..|before| + f]) == Ok(run)
    {
      var s := step(items[f], f);
      ghost var n := |before| + f;
      assert all[n] == s;
      if s.Raised? {
        RunOfRaises(all, n);
        return Raised;
      }
      ghost var prior := run;
      run := Record(run, s.value);
      RunOfNext(all, n, prior, s.value, run);
    }
    assert all[..|before| + |items|] == all;
    r := Ok(run);
  }

  /** The inner `for feature in ...` loop, continuing a run whose steps so
      far are `before`. */
  method FeatureLoop(features: seq<Value>, g: nat, google: (nat, nat) -> bool, bing: (nat, nat) -> bool,
                     ghost before: seq<Result<Outcome<LatLng>>>, start: Run<LatLng>)
    returns (r: Result<Run<LatLng>>)
    requires RunOf(before) == Ok(start)
    ensures r == RunOf(before + FeatureSteps(features, g, google, bing))
  {
    var step := (feature: Value, f: nat) => FeatureStep(feature, g, f, google, bing);
    r := RunSteps(features, step, before, start);
    assert StepsOf(features, step) == FeatureSteps(features, g, google, bing);
  }

  /** `main` of MapParser/download_building_images.py:186-226. */
  method PageMethod(geojsons: seq<Value>, google: (nat, nat) -> bool, bing: (nat, nat) -> bool)
    returns (r: Result<Run<LatLng>>)
    ensures r == RunOf(PageSteps(geojsons, google, bing))
  {
    var run := Run(0, 0, []);
    for g := 0 to |geojsons|
      invariant RunOf(PageSteps(geojsons[..g], google, bing)) == Ok(run)
    {
      ghost var before := PageSteps(geojsons[..g], google, bing);
      assert geojsons[..g + 1][..g] == geojsons[..g];
      assert PageSteps(geojsons[..g + 1], google, bing) == before + DocumentSteps(geojsons[g], g, google, bing);
      var features := Get(geojsons[g], "features", List([]));
      if features.Raised? {
        assert (before + [Raised])[|before|].Raised?;
        RunOfRaises(before + [Raised], |before|);
        PageRaises(geojsons, g + 1, google, bing);
        return Raised;
      }
      var members := Members(features.value);
      if members.None? {
        assert (before + [Raised])[|before|].Raised?;
        RunOfRaises(before + [Raised], |before|);
        PageRaises(geojsons, g + 1, google, bing);
        return Raised;
      }
      var next := FeatureLoop(members.value, g, google, bing, before, run);
      if next.Raised? {
        PageRaises(geojsons, g + 1, google, bing);
        return Raised;
      }
      run := next.value;
    }
    assert geojsons[..|geojsons|] == geojsons;
    r := Ok(run);
  }

  // ---------------------------------------------------------------------
  // The prompts of `main`: only the acceptance rules are modelled.

  /** The method choice is accepted exactly as '1' or '2' after stripping. */
  predicate ChoiceAccepted(input: string) {
    Text.Strip(input) == "1" || Text.Strip(input) == "2"
  }

  /** The thread count: `int()` of the stripped input, accepted in 1..50. */
  function ThreadCount(input: string): (r: Option<int>)
    ensures r.Some? ==> 1 <= r.value <= 50
    ensures r.Some? <==> Text.ParseInt(Text.Strip(input)).Some? && 1 <= Text.ParseInt(Text.Strip(input)).value <= 50
  {
    match Text.ParseInt(Text.Strip(input))
    case Some(n) => if 1 <= n <= 50 then Some(n) else None
    case None => None
  }

  /** Typing any count from 1 to 50 is accepted and gives that count; 0 and
      51 are refused. */
  lemma ThreadCountAccepts(n: nat)
    ensures 1 <= n <= 50 ==> ThreadCount(Text.NatToString(n)) == Some(n)
    ensures n == 0 || n > 50 ==> ThreadCount(Text.NatToString(n)).None?
  {
    var s := Text.NatToString(n);
    assert !Text.IsSpace(s[0]) && !Text.IsSpace(s[|s| - 1]);
    assert Text.StripLeft(s) == s;
    assert Text.Strip(s) == s;
    Text.ParseIntNatToString(n);
  }

  /** Surrounding blanks do not matter for the choice. */
  lemma ChoiceIgnoresBlanks()
    ensures ChoiceAccepted(" 2\n")
  {
    assert " 2\n" == [' '] + "2\n" && "2\n" == ['2'] + "\n" && "2\n" == "2" + ['\n'] && "2" == [] + ['2'];
    Text.StripLeftSpace(' ', "2\n");
    Text.StripLeftStops('2', "\n");
    Text.StripRightSpace("2", '\n');
    Text.StripRightStops([], '2');
  }

  /** Anything but the two digits is refused, "12" included. */
  lemma ChoiceRefuses()
    ensures !ChoiceAccepted("12")
  {
    assert "12" == ['1'] + "2" && "12" == "1" + ['2'];
    Text.StripLeftStops('1', "2");
    Text.StripRightStops("1", '2');
  }
}
