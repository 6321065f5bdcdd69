/** Tile mosaics of the image scripts. A mosaic is a grid of 256 x 256 cells;
    cell (i, j) holds the tile pasted at pixel offset (i * 256, j * 256). A
    tile is an image a tile server returned (an abstract handle), an opened
    image whose data does not decode, or a solid colour. The servers are a
    parameter: they map a tile request to its answer. Where a script pastes
    inside its `try`, every failure, the paste of undecodable data included,
    leaves a grey cell; the threaded area download pastes outside its `try`,
    so one undecodable tile ends it with an exception. */
module Mosaic {
  import opened Wrappers
  import Text
  import Quadkey
  import opened Crop
  import opened Arith
  import Seqs

  /** `Undecodable` is what `Image.open` returns for data whose header it
      accepts but whose pixels do not decode: pasting it raises. */
  datatype Tile = Imagery(image: nat) | Undecodable | Solid(r: nat, g: nat, b: nat)

  /** The stand-in for a tile that could not be fetched. */
  const Grey := Solid(128, 128, 128)

  /** What `Image.new('RGB', size)` starts with. */
  const Black := Solid(0, 0, 0)

  datatype Provider = Google | Bing

  /** One tile request: a Google tile by index, or a Bing tile by quadkey. */
  datatype TileRequest = GoogleTile(x: int, y: int, zoom: nat) | BingTile(quadkey: string)

  /** The URL each request fetches. */
  function Url(request: TileRequest): string {
    match request
    case GoogleTile(x, y, zoom) =>
      "https://mt1.google.com/vt/lyrs=s&x=" + Text.IntToString(x) + "&y=" + Text.IntToString(y) +
      "&z=" + Text.NatToString(zoom)
    case BingTile(quadkey) =>
      "https://ecn.t0.tiles.virtualearth.net/tiles/a" + quadkey + ".jpeg?g=1"
  }

  /** What one tile request comes to. `Refused`: the request or the status
      check raises, or `Image.open` rejects the header. `Corrupt`: the
      header is accepted but the pixel data does not decode; `Image.open`
      reads only the header, so this raises at the first paste or
      conversion. `Answered`: a tile that decodes. */
  datatype Answer = Refused | Corrupt | Answered(image: nat)

  /** The tile servers as seen by one run: what each request comes back with. */
  type Server = TileRequest -> Answer

  function Request(provider: Provider, tx: int, ty: int, zoom: nat): TileRequest {
    match provider
    case Google => GoogleTile(tx, ty, zoom)
    case Bing => BingTile(Quadkey.QuadkeyOf(tx, ty, zoom))
  }

  /** The tile a fetch and paste inside one `try` leaves: the image, or
      grey when anything raised, the paste of undecodable data included. */
  function Fetched(answer: Answer): (t: Tile)
    ensures !answer.Answered? <==> t == Grey
    ensures answer.Answered? ==> t == Imagery(answer.image)
  {
    match answer
    case Answered(image) => Imagery(image)
    case _ => Grey
  }

  /** The tile `download_tile` hands back from inside its `try`: the opened
      image, which need not decode, or grey when the request or
      `Image.open` raised. */
  function Opened(answer: Answer): (t: Tile)
    ensures answer.Refused? <==> t == Grey
    ensures answer.Corrupt? <==> t == Undecodable
    ensures answer.Answered? <==> t.Imagery?
    ensures answer.Answered? ==> t == Imagery(answer.image)
  {
    match answer
    case Refused => Grey
    case Corrupt => Undecodable
    case Answered(image) => Imagery(image)
  }

  /** Opening alone and opening then pasting inside the `try` differ exactly
      for undecodable data. */
  lemma OpenedAgrees(answer: Answer)
    ensures Opened(answer) == Fetched(answer) <==> !answer.Corrupt?
  {
  }

  // ---------------------------------------------------------------------
  // The area mosaic of the labelling scripts.

  /** `lat_lng_to_pixel_in_tile(...)` results kept by `download_area_image`. */
  datatype AreaInfo = AreaInfo(minXTile: int, minYTile: int, zoom: nat)

  datatype TileTask = TileTask(tx: int, ty: int, zoom: nat, i: nat, j: nat, tileSize: nat)

  datatype TileResult = TileResult(i: nat, j: nat, tile: Tile, success: bool)

  /** `tiles_x = max_x_tile - min_x_tile + 1`. */
  function TilesAcross(minTile: int, maxTile: int): int {
    maxTile - minTile + 1
  }

  /** Task k of `for i in range(tiles_x): for j in range(tiles_y)`. */
  function AreaTask(minX: int, minY: int, zoom: nat, tilesY: nat, k: nat): TileTask
    requires tilesY > 0
  {
    var i, j := k / tilesY, k % tilesY;
    TileTask(minX + i, minY + j, zoom, i, j, TileSize)
  }

  /** Position i * tiles_y + j of the enumeration holds the task of cell (i, j). */
  lemma AreaTaskCell(minX: int, minY: int, zoom: nat, tilesX: nat, tilesY: nat, i: nat, j: nat)
    requires i < tilesX && j < tilesY
    ensures i * tilesY + j < tilesX * tilesY
    ensures AreaTask(minX, minY, zoom, tilesY, i * tilesY + j) == TileTask(minX + i, minY + j, zoom, i, j, TileSize)
  {
    GridIndex(i, j, tilesX, tilesY);
  }

  /** The task-building loop of `download_area_image`
      (tasks.append((tx, ty, zoom, i, j, tile_size))). */
  method AreaTasks(minX: int, minY: int, tilesX: nat, tilesY: nat, zoom: nat) returns (tasks: seq<TileTask>)
    ensures |tasks| == tilesX * tilesY
    ensures forall k | 0 <= k < |tasks| :: tasks[k] == AreaTask(minX, minY, zoom, tilesY, k)
  {
    tasks := [];
    var i := 0;
    while i < tilesX
      invariant 0 <= i <= tilesX
      invariant |tasks| == i * tilesY
      invariant forall k | 0 <= k < |tasks| :: tasks[k] == AreaTask(minX, minY, zoom, tilesY, k)
    {
      var j := 0;
      while j < tilesY
        invariant 0 <= j <= tilesY
        invariant |tasks| == i * tilesY + j
        invariant forall k | 0 <= k < |tasks| :: tasks[k] == AreaTask(minX, minY, zoom, tilesY, k)
      {
        AreaTaskCell(minX, minY, zoom, tilesX, tilesY, i, j);
        tasks := tasks + [TileTask(minX + i, minY + j, zoom, i, j, TileSize)];
        j := j + 1;
      }
      assert i * tilesY + tilesY == (i + 1) * tilesY;
      i := i + 1;
    }
  }

  /** Every cell of the grid gets exactly one task: the task of cell (i, j) is
      at position i * tiles_y + j and no other position names that cell. */
  lemma AreaTasksOnePerCell(minX: int, minY: int, zoom: nat, tilesX: nat, tilesY: nat, i: nat, j: nat, k: nat)
    requires i < tilesX && j < tilesY && k < tilesX * tilesY
    ensures var t := AreaTask(minX, minY, zoom, tilesY, k);
      t.i == i && t.j == j <==> k == i * tilesY + j
    ensures AreaTask(minX, minY, zoom, tilesY, k).tx == minX + AreaTask(minX, minY, zoom, tilesY, k).i
    ensures AreaTask(minX, minY, zoom, tilesY, k).ty == minY + AreaTask(minX, minY, zoom, tilesY, k).j
  {
    AreaTaskCell(minX, minY, zoom, tilesX, tilesY, i, j);
  }

  /** `download_tile`: the opened image flagged True, or a grey tile
      flagged False, for the cell the task names. An image that opened but
      does not decode is flagged True as well. */
  function DownloadTile(task: TileTask, server: Server): (r: TileResult)
    ensures r.i == task.i && r.j == task.j
    ensures var answer := server(GoogleTile(task.tx, task.ty, task.zoom));
      (r.success <==> !answer.Refused?) && (!r.success ==> r.tile == Grey) &&
      (r.success ==> (r.tile == Undecodable <==> answer.Corrupt?)) &&
      (answer.Answered? ==> r.tile == Imagery(answer.image))
  {
    var answer := server(GoogleTile(task.tx, task.ty, task.zoom));
    TileResult(task.i, task.j, Opened(answer), !answer.Refused?)
  }

  /** The answer to the request for cell (i, j) of the area. */
  function CellAnswer(info: AreaInfo, server: Server, i: int, j: int): Answer {
    server(GoogleTile(info.minXTile + i, info.minYTile + j, info.zoom))
  }

  /** The tile the mosaic should hold in cell (i, j). */
  function CellTile(info: AreaInfo, server: Server, i: int, j: int): Tile {
    Fetched(CellAnswer(info, server, i, j))
  }

  /** The tile the threaded download of cell (i, j) hands back. */
  function AreaTile(info: AreaInfo, server: Server, i: int, j: int): Tile {
    Opened(CellAnswer(info, server, i, j))
  }

  /** Some tile of the area opens but does not decode. */
  predicate AnyCorrupt(info: AreaInfo, tilesX: int, tilesY: int, server: Server) {
    exists i, j | 0 <= i < tilesX && 0 <= j < tilesY :: CellAnswer(info, server, i, j).Corrupt?
  }

  /** The results of all tasks, in submission order. */
  function AreaResults(info: AreaInfo, tilesX: nat, tilesY: nat, server: Server): (rs: seq<TileResult>)
    ensures |rs| == tilesX * tilesY
  {
    if tilesY == 0 then []
    else
      seq(tilesX * tilesY, k requires 0 <= k < tilesX * tilesY =>
        DownloadTile(AreaTask(info.minXTile, info.minYTile, info.zoom, tilesY, k), server))
  }

  /** The flag of `download_tile`. */
  predicate IsSuccess(r: TileResult) {
    r.success
  }

  /** A tile that decodes came with the result. */
  predicate Arrived(r: TileResult) {
    r.tile.Imagery?
  }

  /** The number of tiles of the area whose download the threaded script
      flags as a success. */
  function DownloadedTiles(info: AreaInfo, tilesX: nat, tilesY: nat, server: Server): (n: nat)
    ensures n <= tilesX * tilesY
  {
    Seqs.Count(AreaResults(info, tilesX, tilesY, server), IsSuccess)
  }

  /** The number of tiles of the area that arrived and decode: the count of
      the sequential script, which counts a tile only once it is pasted. */
  function ArrivedTiles(info: AreaInfo, tilesX: nat, tilesY: nat, server: Server): (n: nat)
    ensures n <= DownloadedTiles(info, tilesX, tilesY, server)
  {
    var rs := AreaResults(info, tilesX, tilesY, server);
    ArrivedFlagged(info, tilesX, tilesY, server);
    Seqs.CountMonotone(rs, Arrived, IsSuccess);
    Seqs.Count(rs, Arrived)
  }

  lemma ArrivedFlagged(info: AreaInfo, tilesX: nat, tilesY: nat, server: Server)
    ensures var rs := AreaResults(info, tilesX, tilesY, server);
      forall k | 0 <= k < |rs| :: (Arrived(rs[k]) ==> IsSuccess(rs[k])) && (IsSuccess(rs[k]) ==> rs[k].tile != Grey)
  {
  }

  /** Without an undecodable tile the threaded download hands back exactly
      the tiles the sequential one pastes, and both count the same tiles. */
  lemma NoCorruptAgrees(info: AreaInfo, tilesX: nat, tilesY: nat, server: Server)
    requires !AnyCorrupt(info, tilesX, tilesY, server)
    ensures forall i, j | 0 <= i < tilesX && 0 <= j < tilesY :: AreaTile(info, server, i, j) == CellTile(info, server, i, j)
    ensures ArrivedTiles(info, tilesX, tilesY, server) == DownloadedTiles(info, tilesX, tilesY, server)
  {
    var rs := AreaResults(info, tilesX, tilesY, server);
    forall k | 0 <= k < |rs|
      ensures IsSuccess(rs[k]) ==> Arrived(rs[k])
    {
      AreaResultCell(info, tilesX, tilesY, server, k);
    }
    Seqs.CountMonotone(rs, IsSuccess, Arrived);
  }

  /** A result for cell (i, j) always carries that cell's tile. */
  lemma AreaResultCell(info: AreaInfo, tilesX: nat, tilesY: nat, server: Server, k: nat)
    requires k < tilesX * tilesY
    ensures var r := AreaResults(info, tilesX, tilesY, server)[k];
      r.i < tilesX && r.j < tilesY && r.tile == AreaTile(info, server, r.i, r.j) &&
      (r.success <==> !CellAnswer(info, server, r.i, r.j).Refused?)
  {
    DivBelow(k, tilesY, tilesX);
  }

  /** The tile left in cell (i, j) once `results` have been pasted in order
      over a canvas whose cell held `before`: the last result for that cell wins. */
  function LastPasted(results: seq<TileResult>, i: int, j: int, before: Tile): Tile {
    if results == [] then before
    else
      var last := results[|results| - 1];
      if last.i == i && last.j == j then last.tile else LastPasted(results[..|results| - 1], i, j, before)
  }

  /** When every pasted result for a cell carries the same tile and there is
      at least one, the cell ends up with that tile whatever the order. */
  lemma {:induction false} LastPastedAgreeing(results: seq<TileResult>, i: int, j: int, before: Tile, t: Tile)
    requires exists k | 0 <= k < |results| :: results[k].i == i && results[k].j == j
    requires forall k | 0 <= k < |results| && results[k].i == i && results[k].j == j :: results[k].tile == t
    ensures LastPasted(results, i, j, before) == t
  {
    var last := results[|results| - 1];
    if !(last.i == i && last.j == j) {
      var init := results[..|results| - 1];
      var k :| 0 <= k < |results| && results[k].i == i && results[k].j == j;
      assert init[k].i == i && init[k].j == j;
      LastPastedAgreeing(init, i, j, before, t);
    }
  }

  /** The paste loop over `as_completed(futures)`, outside any `try`: each
      result is pasted at its own cell and every successful one counts; the
      paste of an undecodable image raises and ends the download. */
  method PasteCompleted(canvas: array2<Tile>, completed: seq<TileResult>) returns (r: Result<nat>)
    requires forall k | 0 <= k < |completed| :: completed[k].i < canvas.Length0 && completed[k].j < canvas.Length1
    modifies canvas
    ensures r.Raised? <==> exists k | 0 <= k < |completed| :: completed[k].tile == Undecodable
    ensures r.Ok? ==> r.value == Seqs.Count(completed, IsSuccess)
    ensures r.Ok? ==> forall i, j | 0 <= i < canvas.Length0 && 0 <= j < canvas.Length1 ::
      canvas[i, j] == LastPasted(completed, i, j, old(canvas[i, j]))
  {
    var downloaded := 0;
    var n := 0;
    while n < |completed|
      invariant 0 <= n <= |completed|
      invariant forall k | 0 <= k < n :: completed[k].tile != Undecodable
      invariant downloaded == Seqs.Count(completed[..n], IsSuccess)
      invariant forall i, j | 0 <= i < canvas.Length0 && 0 <= j < canvas.Length1 ::
        canvas[i, j] == LastPasted(completed[..n], i, j, old(canvas[i, j]))
    {
      var result := completed[n];
      if result.tile == Undecodable {
        return Raised;
      }
      canvas[result.i, result.j] := result.tile;
      if result.success {
        downloaded := downloaded + 1;
      }
      assert completed[..n + 1][..n] == completed[..n];
      n := n + 1;
    }
    assert completed[..n] == completed;
    r := Ok(downloaded);
  }

  /** The mosaic `download_area_image` returns: its cells, the tile range it
      covers and the number of tiles that downloaded. */
  datatype AreaImage = AreaImage(cells: array2<Tile>, info: AreaInfo, downloaded: nat)

  /** `Image.new` rejects a negative size, which the tile range gives when the
      SE corner projects left of or above the NW one. */
  predicate NegativeRange(minX: int, minY: int, maxX: int, maxY: int) {
    TilesAcross(minX, maxX) < 0 || TilesAcross(minY, maxY) < 0
  }

  /** What the tile downloads of an area produce, in submission order; empty
      when the canvas cannot be created. */
  function SubmittedResults(minX: int, minY: int, maxX: int, maxY: int, zoom: nat, server: Server): seq<TileResult> {
    if NegativeRange(minX, minY, maxX, maxY) then []
    else AreaResults(AreaInfo(minX, minY, zoom), TilesAcross(minX, maxX), TilesAcross(minY, maxY), server)
  }

  /** `download_area_image` of the multithreaded script. The tiles of the
      area are fetched by worker threads; `completed` is the order in which
      their results come back, any permutation of the submitted results.
      The download raises when the range is negative or some tile opened
      but does not decode; otherwise the mosaic and the count are the same
      for every order, and the same as the sequential script's.
      MapParser/download_buildings_with_labels_multithreaded.py:107-160. */
  method DownloadAreaThreaded(minX: int, minY: int, maxX: int, maxY: int, zoom: nat, server: Server,
                              completed: seq<TileResult>)
    returns (r: Result<AreaImage>)
    requires multiset(completed) == multiset(SubmittedResults(minX, minY, maxX, maxY, zoom, server))
    ensures r.Raised? <==> (NegativeRange(minX, minY, maxX, maxY) ||
      AnyCorrupt(AreaInfo(minX, minY, zoom), TilesAcross(minX, maxX), TilesAcross(minY, maxY), server))
    ensures r.Ok? ==> fresh(r.value.cells)
    ensures r.Ok? ==> AreaImageOf(r.value, minX, minY, maxX, maxY, zoom, server)
  {
    var tilesX, tilesY := TilesAcross(minX, maxX), TilesAcross(minY, maxY);
    if tilesX < 0 || tilesY < 0 {
      return Raised;
    }
    var info := AreaInfo(minX, minY, zoom);
    var canvas := new Tile[tilesX, tilesY]((i, j) => Black);
    var tasks := AreaTasks(minX, minY, tilesX, tilesY, zoom);
    CompletedCells(info, tilesX, tilesY, server, completed);
    CompletedCorrupt(info, tilesX, tilesY, server, completed);
    var pasted := PasteCompleted(canvas, completed);
    if pasted.Raised? {
      return Raised;
    }
    CompletedMosaic(info, tilesX, tilesY, server, completed);
    NoCorruptAgrees(info, tilesX, tilesY, server);
    Seqs.CountPermutation(completed, AreaResults(info, tilesX, tilesY, server), IsSuccess);
    r := Ok(AreaImage(canvas, info, pasted.value));
  }

  /** Every completed result names a cell of the grid and carries its tile. */
  lemma CompletedCells(info: AreaInfo, tilesX: nat, tilesY: nat, server: Server, completed: seq<TileResult>)
    requires multiset(completed) == multiset(AreaResults(info, tilesX, tilesY, server))
    ensures forall k | 0 <= k < |completed| ::
      completed[k].i < tilesX && completed[k].j < tilesY &&
      completed[k].tile == AreaTile(info, server, completed[k].i, completed[k].j)
  {
    var submitted := AreaResults(info, tilesX, tilesY, server);
    forall k | 0 <= k < |completed|
      ensures completed[k].i < tilesX && completed[k].j < tilesY
      ensures completed[k].tile == AreaTile(info, server, completed[k].i, completed[k].j)
    {
      assert completed[k] in multiset(submitted);
      var m := Seqs.IndexOf(submitted, completed[k]);
      AreaResultCell(info, tilesX, tilesY, server, m);
    }
  }

  /** Whatever the completion order, an undecodable image comes back exactly
      when some tile of the area opened but does not decode. */
  lemma CompletedCorrupt(info: AreaInfo, tilesX: nat, tilesY: nat, server: Server, completed: seq<TileResult>)
    requires multiset(completed) == multiset(AreaResults(info, tilesX, tilesY, server))
    ensures (exists k | 0 <= k < |completed| :: completed[k].tile == Undecodable) <==>
      AnyCorrupt(info, tilesX, tilesY, server)
  {
    var submitted := AreaResults(info, tilesX, tilesY, server);
    CompletedCells(info, tilesX, tilesY, server, completed);
    if AnyCorrupt(info, tilesX, tilesY, server) {
      var i, j :| 0 <= i < tilesX && 0 <= j < tilesY && CellAnswer(info, server, i, j).Corrupt?;
      SubmittedCell(info, tilesX, tilesY, server, i, j, i * tilesY + j);
      assert submitted[i * tilesY + j] in multiset(completed);
      var m := Seqs.IndexOf(completed, submitted[i * tilesY + j]);
      assert completed[m].tile == Undecodable;
    }
    if exists k | 0 <= k < |completed| :: completed[k].tile == Undecodable {
      var k :| 0 <= k < |completed| && completed[k].tile == Undecodable;
      assert CellAnswer(info, server, completed[k].i, completed[k].j).Corrupt?;
    }
  }

  /** Whatever the completion order, pasting every result leaves each cell
      with the tile its download handed back. */
  lemma CompletedMosaic(info: AreaInfo, tilesX: nat, tilesY: nat, server: Server, completed: seq<TileResult>)
    requires multiset(completed) == multiset(AreaResults(info, tilesX, tilesY, server))
    ensures forall i, j | 0 <= i < tilesX && 0 <= j < tilesY ::
      LastPasted(completed, i, j, Black) == AreaTile(info, server, i, j)
  {
    var submitted := AreaResults(info, tilesX, tilesY, server);
    CompletedCells(info, tilesX, tilesY, server, completed);
    forall i, j | 0 <= i < tilesX && 0 <= j < tilesY
      ensures LastPasted(completed, i, j, Black) == AreaTile(info, server, i, j)
    {
      AreaTaskCell(info.minXTile, info.minYTile, info.zoom, tilesX, tilesY, i, j);
      var k := i * tilesY + j;
      assert submitted[k] in multiset(completed);
      var m := Seqs.IndexOf(completed, submitted[k]);
      LastPastedAgreeing(completed, i, j, Black, AreaTile(info, server, i, j));
    }
  }

  /** Position i * tiles_y + j of the submitted results is the download of cell (i, j). */
  lemma SubmittedCell(info: AreaInfo, tilesX: nat, tilesY: nat, server: Server, i: nat, j: nat, k: nat)
    requires i < tilesX && j < tilesY && k == i * tilesY + j
    ensures k < tilesX * tilesY
    ensures AreaResults(info, tilesX, tilesY, server)[k] ==
      TileResult(i, j, AreaTile(info, server, i, j), !CellAnswer(info, server, i, j).Refused?)
  {
    AreaTaskCell(info.minXTile, info.minYTile, info.zoom, tilesX, tilesY, i, j);
  }

  /** The mosaic of an area: one cell per tile of the range, holding the
      fetched tile or grey, and the count of tiles that arrived and decode. */
  ghost predicate AreaImageOf(a: AreaImage, minX: int, minY: int, maxX: int, maxY: int, zoom: nat, server: Server)
    reads a.cells
  {
    var tilesX, tilesY := TilesAcross(minX, maxX), TilesAcross(minY, maxY);
    a.info == AreaInfo(minX, minY, zoom) &&
    a.cells.Length0 == tilesX && a.cells.Length1 == tilesY &&
    (forall i, j | 0 <= i < tilesX && 0 <= j < tilesY :: a.cells[i, j] == CellTile(a.info, server, i, j)) &&
    tilesX >= 0 && tilesY >= 0 &&
    a.downloaded == ArrivedTiles(a.info, tilesX, tilesY, server)
  }

  /** `download_area_image` of the sequential script: the same grid, fetched
      and pasted cell by cell in `i`-major order. Each paste is inside the
      `try`, so an undecodable tile is grey and does not count.
      MapParser/download_buildings_with_labels.py:90-141. */
  method DownloadAreaSequential(minX: int, minY: int, maxX: int, maxY: int, zoom: nat, server: Server)
    returns (r: Result<AreaImage>)
    ensures r.Raised? <==> NegativeRange(minX, minY, maxX, maxY)
    ensures r.Ok? ==> fresh(r.value.cells)
    ensures r.Ok? ==> AreaImageOf(r.value, minX, minY, maxX, maxY, zoom, server)
  {
    var tilesX, tilesY := TilesAcross(minX, maxX), TilesAcross(minY, maxY);
    if tilesX < 0 || tilesY < 0 {
      return Raised;
    }
    var info := AreaInfo(minX, minY, zoom);
    var canvas := new Tile[tilesX, tilesY]((i, j) => Black);
    var downloaded := FillArea(canvas, info, server);
    r := Ok(AreaImage(canvas, info, downloaded));
  }

  /** The two loops of the sequential `download_area_image`: column by
      column, every cell gets its tile, and the tiles that arrived are
      counted. */
  method FillArea(canvas: array2<Tile>, info: AreaInfo, server: Server) returns (downloaded: nat)
    modifies canvas
    ensures forall a, b | 0 <= a < canvas.Length0 && 0 <= b < canvas.Length1 :: canvas[a, b] == CellTile(info, server, a, b)
    ensures downloaded == ArrivedTiles(info, canvas.Length0, canvas.Length1, server)
  {
    var tilesX, tilesY := canvas.Length0, canvas.Length1;
    ghost var submitted := AreaResults(info, tilesX, tilesY, server);
    downloaded := 0;
    var i := 0;
    while i < tilesX
      invariant 0 <= i <= tilesX
      invariant i * tilesY <= |submitted|
      invariant downloaded == Seqs.Count(submitted[..i * tilesY], Arrived)
      invariant forall a, b | 0 <= a < i && 0 <= b < tilesY :: canvas[a, b] == CellTile(info, server, a, b)
    {
      var column := FetchColumn(canvas, info, i, server);
      AreaCountStep(info, tilesX, tilesY, server, i);
      downloaded := downloaded + column;
      i := i + 1;
    }
    AreaCountAll(info, tilesX, tilesY, server);
  }

  /** The results of column i, in the order the inner loop visits them. */
  function ColumnResults(info: AreaInfo, i: int, tilesY: nat, server: Server): (rs: seq<TileResult>)
    requires i >= 0
    ensures |rs| == tilesY
  {
    seq(tilesY, j requires 0 <= j < tilesY =>
      TileResult(i, j, AreaTile(info, server, i, j), !CellAnswer(info, server, i, j).Refused?))
  }

  /** The submitted results run column by column. */
  lemma ColumnOfResults(info: AreaInfo, tilesX: nat, tilesY: nat, server: Server, i: nat)
    requires i < tilesX
    ensures (i + 1) * tilesY <= tilesX * tilesY
    ensures AreaResults(info, tilesX, tilesY, server)[..(i + 1) * tilesY] ==
      AreaResults(info, tilesX, tilesY, server)[..i * tilesY] + ColumnResults(info, i, tilesY, server)
  {
    MulMonotone(tilesX, i + 1, tilesY);
    var s := AreaResults(info, tilesX, tilesY, server);
    var c := ColumnResults(info, i, tilesY, server);
    assert (i + 1) * tilesY == i * tilesY + tilesY;
    forall j | 0 <= j < tilesY
      ensures s[i * tilesY + j] == c[j]
    {
      SubmittedCell(info, tilesX, tilesY, server, i, j, i * tilesY + j);
    }
  }

  /** The count after column i is the count before it plus column i's own. */
  lemma AreaCountStep(info: AreaInfo, tilesX: nat, tilesY: nat, server: Server, i: nat)
    requires i < tilesX
    ensures i * tilesY <= (i + 1) * tilesY <= tilesX * tilesY
    ensures var submitted := AreaResults(info, tilesX, tilesY, server);
      Seqs.Count(submitted[..(i + 1) * tilesY], Arrived) ==
        Seqs.Count(submitted[..i * tilesY], Arrived) + Seqs.Count(ColumnResults(info, i, tilesY, server), Arrived)
  {
    ColumnOfResults(info, tilesX, tilesY, server, i);
    var submitted := AreaResults(info, tilesX, tilesY, server);
    Seqs.CountAppend(submitted[..i * tilesY], ColumnResults(info, i, tilesY, server), Arrived);
  }

  lemma AreaCountAll(info: AreaInfo, tilesX: nat, tilesY: nat, server: Server)
    ensures var submitted := AreaResults(info, tilesX, tilesY, server);
      Seqs.Count(submitted[..tilesX * tilesY], Arrived) == Seqs.Count(submitted, Arrived)
  {
    var submitted := AreaResults(info, tilesX, tilesY, server);
    assert submitted[..tilesX * tilesY] == submitted;
  }

  /** The tiles that arrived and decode among the first j cells of column i. */
  function ColumnHits(info: AreaInfo, i: nat, j: nat, server: Server): nat {
    if j == 0 then 0
    else
      var hit := CellAnswer(info, server, i, j - 1).Answered?;
      ColumnHits(info, i, j - 1, server) + (if hit then 1 else 0)
  }

  /** Counting the answered cells of a column, given what arrived in each. */
  lemma {:induction false} ColumnHitsCount(info: AreaInfo, i: nat, server: Server, column: seq<TileResult>, j: nat)
    requires j <= |column|
    requires forall b | 0 <= b < |column| :: Arrived(column[b]) == CellAnswer(info, server, i, b).Answered?
    ensures ColumnHits(info, i, j, server) == Seqs.Count(column[..j], Arrived)
    decreases j
  {
    if j > 0 {
      ColumnHitsCount(info, i, server, column, j - 1);
      Seqs.CountPrefix(column, j - 1, Arrived);
    }
  }

  /** The answered cells of a whole column are the results of it that
      arrived and decode. */
  lemma ColumnCount(info: AreaInfo, i: nat, tilesY: nat, server: Server)
    ensures ColumnHits(info, i, tilesY, server) == Seqs.Count(ColumnResults(info, i, tilesY, server), Arrived)
  {
    var column := ColumnResults(info, i, tilesY, server);
    ColumnHitsCount(info, i, server, column, tilesY);
    assert column[..tilesY] == column;
  }

  /** The inner loop of the sequential `download_area_image`: fetches and
      pastes column i top to bottom, counting the tiles that arrived and
      pasted; the other columns are untouched. */
  method FetchColumn(canvas: array2<Tile>, info: AreaInfo, i: nat, server: Server) returns (count: nat)
    requires i < canvas.Length0
    modifies canvas
    ensures forall b | 0 <= b < canvas.Length1 :: canvas[i, b] == CellTile(info, server, i, b)
    ensures forall a, b | 0 <= a < canvas.Length0 && a != i && 0 <= b < canvas.Length1 ::
      canvas[a, b] == old(canvas[a, b])
    ensures count == Seqs.Count(ColumnResults(info, i, canvas.Length1, server), Arrived)
  {
    count := 0;
    var j := 0;
    while j < canvas.Length1
      invariant 0 <= j <= canvas.Length1
      invariant count == ColumnHits(info, i, j, server)
      invariant forall a, b | 0 <= a < canvas.Length0 && 0 <= b < canvas.Length1 ::
        canvas[a, b] == if a == i && b < j then CellTile(info, server, a, b) else old(canvas[a, b])
    {
      var answer := server(GoogleTile(info.minXTile + i, info.minYTile + j, info.zoom));
      if answer.Answered? {
        canvas[i, j] := Imagery(answer.image);
        count := count + 1;
      } else {
        // the request, the status check, the opening or the paste raised
        canvas[i, j] := Grey;
      }
      j := j + 1;
    }
    ColumnCount(info, i, j, server);
  }

  /** The paste regions tile the canvas: pixel (x, y) of a 256 tiles_x by
      256 tiles_y canvas lies in the region (i * 256 .. i * 256 + 255,
      j * 256 .. j * 256 + 255) of exactly one cell, (x / 256, y / 256), and
      that cell exists. */
  lemma PasteRegionsPartition(tilesX: nat, tilesY: nat, x: int, y: int, i: int, j: int)
    requires 0 <= x < TileSize * tilesX && 0 <= y < TileSize * tilesY
    ensures 0 <= x / TileSize < tilesX && 0 <= y / TileSize < tilesY
    ensures (i * TileSize <= x < i * TileSize + TileSize && j * TileSize <= y < j * TileSize + TileSize) <==>
      (i == x / TileSize && j == y / TileSize)
  {
    CellOfPixel(x, i, TileSize);
    CellOfPixel(y, j, TileSize);
    DivBelow(x, TileSize, tilesX);
    DivBelow(y, TileSize, tilesY);
  }

  // ---------------------------------------------------------------------
  // The n x n neighbourhood of one building's tile.

  /** Column (or row) i of an n x n neighbourhood around tile x:
      `x_tile - tiles_needed // 2 + i`. */
  function NeighbourTile(x: int, n: nat, i: int): int {
    x - n / 2 + i
  }

  /** The fetch-and-paste loops of the per-building `download_satellite_image`
      variants: a fresh n x n canvas whose cell (i, j) holds tile
      (x - n // 2 + i, y - n // 2 + j) from the provider, or grey. The Bing
      variant builds each tile's quadkey with `tile_to_quadkey`. The middle
      cell (n // 2, n // 2) is the building's own tile. */
  method DownloadNeighbourhood(provider: Provider, x: int, y: int, zoom: nat, n: nat, server: Server)
    returns (canvas: array2<Tile>)
    ensures fresh(canvas) && canvas.Length0 == n && canvas.Length1 == n
    ensures forall i, j | 0 <= i < n && 0 <= j < n ::
      canvas[i, j] == Fetched(server(Request(provider, NeighbourTile(x, n, i), NeighbourTile(y, n, j), zoom)))
    ensures n > 0 ==> canvas[n / 2, n / 2] == Fetched(server(Request(provider, x, y, zoom)))
  {
    canvas := new Tile[n, n]((i, j) => Black);
    var i := 0;
    while i < n
      invariant 0 <= i <= n
      invariant forall a, b | 0 <= a < i && 0 <= b < n ::
        canvas[a, b] == Fetched(server(Request(provider, NeighbourTile(x, n, a), NeighbourTile(y, n, b), zoom)))
    {
      FetchNeighbourColumn(canvas, provider, x, y, zoom, i, server);
      i := i + 1;
    }
  }

  /** The request for one tile: its Google coordinates, or for Bing the
      quadkey that `tile_to_quadkey` builds. */
  method TileRequestOf(provider: Provider, tx: int, ty: int, zoom: nat) returns (request: TileRequest)
    ensures request == Request(provider, tx, ty, zoom)
  {
    match provider {
      case Google =>
        request := GoogleTile(tx, ty, zoom);
      case Bing =>
        var quadkey := Quadkey.TileToQuadkey(tx, ty, zoom);
        request := BingTile(quadkey);
    }
  }

  /** The inner loop of the neighbourhood: column i, top to bottom; the
      other columns are untouched. */
  method FetchNeighbourColumn(canvas: array2<Tile>, provider: Provider, x: int, y: int, zoom: nat, i: nat,
                              server: Server)
    requires canvas.Length0 == canvas.Length1 && i < canvas.Length0
    modifies canvas
    ensures forall b | 0 <= b < canvas.Length1 ::
      canvas[i, b] == Fetched(server(Request(provider, NeighbourTile(x, canvas.Length0, i),
                                             NeighbourTile(y, canvas.Length0, b), zoom)))
    ensures forall a, b | 0 <= a < canvas.Length0 && a != i && 0 <= b < canvas.Length1 ::
      canvas[a, b] == old(canvas[a, b])
  {
    var n := canvas.Length0;
    var j := 0;
    while j < n
      invariant 0 <= j <= n
      invariant forall a, b | 0 <= a < n && 0 <= b < n ::
        canvas[a, b] == if a == i && b < j
          then Fetched(server(Request(provider, NeighbourTile(x, n, a), NeighbourTile(y, n, b), zoom)))
          else old(canvas[a, b])
    {
      var request := TileRequestOf(provider, x - n / 2 + i, y - n / 2 + j, zoom);
      var answer := server(request);
      if answer.Answered? {
        canvas[i, j] := Imagery(answer.image);
      } else {
        canvas[i, j] := Grey;
      }
      j := j + 1;
    }
  }

  /** The 3 x 3 variant with the unclamped centred box (the labelling scripts'
      individual downloads and the API): the box is exactly size x size and,
      for size up to 512, never leaves the 768 x 768 mosaic; its centre pixel
      is the building's pixel in the middle tile.
      MapParser/download_buildings_with_labels.py:170-215,
      MapParser/download_buildings_with_labels_multithreaded.py:186-224,
      api/main.py:28-66. */
  method CentredSatelliteImage(x: int, y: int, pixelX: Pixel, pixelY: Pixel, zoom: nat, size: nat, server: Server)
    returns (cells: array2<Tile>, window: Window)
    ensures fresh(cells) && cells.Length0 == 3 && cells.Length1 == 3
    ensures forall i, j | 0 <= i < 3 && 0 <= j < 3 ::
      cells[i, j] == Fetched(server(GoogleTile(x - 1 + i, y - 1 + j, zoom)))
    ensures window.Width() == size && window.Height() == size
    ensures size <= 2 * TileSize ==> window.Inside(3 * TileSize, 3 * TileSize)
    ensures (window.left + size / 2) / TileSize == 1 && (window.left + size / 2) % TileSize == pixelX
    ensures (window.top + size / 2) / TileSize == 1 && (window.top + size / 2) % TileSize == pixelY
  {
    cells := DownloadNeighbourhood(Google, x, y, zoom, 3, server);
    forall i, j | 0 <= i < 3 && 0 <= j < 3
      ensures cells[i, j] == Fetched(server(GoogleTile(x - 1 + i, y - 1 + j, zoom)))
    {
      assert NeighbourTile(x, 3, i) == x - 1 + i && NeighbourTile(y, 3, j) == y - 1 + j;
    }
    window := CentredWindow(3, pixelX, pixelY, size);
    if size <= 2 * TileSize {
      CentredWindowInside(pixelX, pixelY, size);
    }
    CentredWindowCentre(3, pixelX, pixelY, size);
  }

  /** The 2 x 2 variant with the clamped box (adam.py and the HTML script, for
      either provider): the raw crop is never larger than size x size, and
      the saved image is always resized to exactly size x size.
      no_not_delete/adam.py:45-152, MapParser/download_building_images.py:57-173. */
  method ClampedSatelliteImage(provider: Provider, x: int, y: int, pixelX: Pixel, pixelY: Pixel, zoom: nat,
                               size: nat, server: Server)
    returns (cells: array2<Tile>, window: Window, saved: (int, int), resized: bool)
    ensures fresh(cells) && cells.Length0 == 2 && cells.Length1 == 2
    ensures forall i, j | 0 <= i < 2 && 0 <= j < 2 ::
      cells[i, j] == Fetched(server(Request(provider, x - 1 + i, y - 1 + j, zoom)))
    ensures window.Inside(2 * TileSize, 2 * TileSize) && window.Width() <= size && window.Height() <= size
    ensures saved == (size, size)
    ensures resized <==> window.Width() != size || window.Height() != size
  {
    cells := DownloadNeighbourhood(provider, x, y, zoom, 2, server);
    forall i, j | 0 <= i < 2 && 0 <= j < 2
      ensures cells[i, j] == Fetched(server(Request(provider, x - 1 + i, y - 1 + j, zoom)))
    {
      assert NeighbourTile(x, 2, i) == x - 1 + i && NeighbourTile(y, 2, j) == y - 1 + j;
    }
    window := ClampedWindow(pixelX, pixelY, size);
    ClampedWindowBounds(pixelX, pixelY, size);
    var s := SavedSize(window, size);
    saved, resized := (s.0, s.1), s.2;
  }
}
