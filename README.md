# Asbestos building imagery: a Dafny model

This project models the data-handling core of the BHL hackathon asbestos-detection repository. That repository collects building outlines and cuts satellite images around the buildings. It labels each building as containing asbestos roofing or not, balances and splits the result into a training set, and serves a small API. The Python scripts are modelled here as Dafny functions, methods with loops and lemmas. The model covers these parts:

- **Overpass fetcher** (`Overpass`):
  - the query text for a bounding box;
  - the conversion of a decoded Overpass response into closed building rings;
  - the allowed-type filter;
  - the three-attempt retry policy, with its 5 s and 10 s back-offs, as waits that grow with the attempt number.
- **Map preview** (`MapView`): one coloured layer per building, with asbestos buildings overriding the type colour, on a map centred on the middle of all buildings' bounds.
- **Labelling scripts** (`Accounting`, `Labels`, `Geometry`, `Mosaic`, `Crop`, `Quadkey`):
  - where a building record keeps its coordinates and its asbestos label;
  - polygon centres and the bounding box of all centres;
  - the area mosaic, fetched sequentially or by worker threads in any completion order, where the threaded version stops on a tile whose data does not decode;
  - the 3 x 3 and 2 x 2 neighbourhood downloads with their crop windows;
  - Bing quadkeys;
  - the counters and CSV rows of every main loop, including when a script stops on an uncaught exception.
- **Class balancing** (`Balance`), with the three shuffles as Fisher–Yates shuffles over arrays (`Shuffling`).
- **Dataset preparation** (`Dataset`):
  - image/mask pairing;
  - the checks that abort the script;
  - the 80/20 split;
  - the `NNNNN_image.tif` / `NNNNN_label.tif` names.

  An empty pair list is not caught. When images and masks are equally many but no name matches, the script reaches the percentage printout and divides by zero (`Dataset.UnmatchedNamesCrash`).
- **API** (`Api`): the `/` payload and the default crop of the satellite download.

Python exceptions are the `Raised` case of `Wrappers.Result`. Decoded JSON is `Json.Value`, and its lookups raise exactly where Python's `in`, `[]` and `.get` raise. Network answers, the disk and the random shuffles are function parameters. Floating point is modelled by `real`.

## Model

| member | source | states |
|---|---|---|
| Overpass.Query | MapParser/overpass_fetcher.py:13-23 | the query is the fixed header, the box clause, the middle part, the box clause again and the footer, so its length is their sum |
| Overpass.QueryClauses | MapParser/overpass_fetcher.py:14-19 | the query is the header, then the box, then the middle part, then the box again: both the `way` and the `relation` clause carry it |
| Overpass.BoxClauseFields | MapParser/overpass_fetcher.py:17-18 | the box lists south, then west, each followed by a comma, in the positions that follow the opening parenthesis |
| Overpass.QueryInjective | MapParser/overpass_fetcher.py:13-23 | for number renderings (no commas, no closing parenthesis) equal queries come from equal boxes |
| Overpass.NodeCoords | MapParser/overpass_fetcher.py:34 | the coordinate list exists iff every node is a dict with `lon` and `lat`, and it holds them in node order |
| Overpass.Close | MapParser/overpass_fetcher.py:37-38 | the ring is returned unchanged iff it already ends at its start, otherwise the first point is appended; either way the result is closed and starts with the input |
| Overpass.CloseIdempotent | MapParser/overpass_fetcher.py:37-38 | closing a ring twice is closing it once |
| Overpass.GeometryRing | MapParser/overpass_fetcher.py:34-40 | raises iff the geometry cannot be iterated, a node is not a dict with `lon` and `lat`, or three or more coordinates hold a non-number or close to fewer than four points; fewer than three coordinates give no ring; otherwise the ring is the closed list of the nodes' points |
| Overpass.ElementBuilding | MapParser/overpass_fetcher.py:29-44 | an element without `geometry` is skipped; it raises iff `in` fails, or it has `geometry` and is no dict, has non-dict tags or an invalid ring; an element whose geometry yields a ring becomes a row holding that ring and the type `tags.building`, `'yes'` when the element has no tags or no such tag |
| Overpass.ElementBuildingRing | MapParser/overpass_fetcher.py:33-38 | a kept element's ring is its nodes' (lon, lat) in order, closed, and its type defaults to `yes` |
| Overpass.ShortElementDropped | MapParser/overpass_fetcher.py:36 | an element with two or fewer nodes is dropped without raising, whatever the nodes hold |
| Overpass.ThreeClosedNodesRaise | MapParser/overpass_fetcher.py:36-40 | three nodes that already return to the start form a three-point ring, which shapely refuses |
| Overpass.ElementKeysRaise | MapParser/overpass_fetcher.py:29-32 | a dict under `elements` with a key containing `geometry` makes the parse raise, so that attempt gives None |
| Overpass.Elements | MapParser/overpass_fetcher.py:29 | `data.get('elements', [])` raises for a non-dict response and for a member that cannot be iterated; otherwise it yields that member's items, or none when it is missing |
| Overpass.Kept | MapParser/overpass_fetcher.py:29-44 | the rows of the kept elements, in element order, with an exception anywhere ending the parse |
| Overpass.KeptRaises | MapParser/overpass_fetcher.py:29-44 | the parse raises exactly when one of the elements raises |
| Overpass.KeptFromElements | MapParser/overpass_fetcher.py:29-44 | every row of a parse comes from some element of the list |
| Overpass.KeptClosed | MapParser/overpass_fetcher.py:36-40 | every row of a parse is a closed ring with at least four points |
| Overpass.ElementClosed | MapParser/overpass_fetcher.py:36-40 | a kept element's ring is closed and has at least four points |
| Overpass.KeptByRaises | MapParser/overpass_fetcher.py:29-44 | for any per-element treatment, the loop raises exactly when one element's treatment does |
| Overpass.KeptNext | MapParser/overpass_fetcher.py:29-44 | when neither the earlier elements nor the next one raise, the next element adds its row, if any, after the earlier rows |
| Overpass.ParseOverpassResponse | MapParser/overpass_fetcher.py:26-46 | the `for element` loop computes the whole-list parse |
| Overpass.Filter | MapParser/overpass_fetcher.py:65-66 | the filtered rows are never more than the input and all have an allowed type |
| Overpass.FilterKeeps | MapParser/overpass_fetcher.py:65-67 | filtering again changes nothing; a row of the input is kept iff its type is allowed; every kept row comes from the input |
| Overpass.AttemptStep | MapParser/overpass_fetcher.py:56-93 | an attempt is retried iff it is a timeout or a 504 and not the last; the wait is 5·(attempt+1) for a timeout and 10·(attempt+1) for a 504; every other error gives None; a response ends the run, with the allowed buildings iff its body decoded and parsed |
| Overpass.FetchFrom | MapParser/overpass_fetcher.py:53-93 | from attempt `a` on, the run sleeps fewer than `3 - a` times |
| Overpass.FetchFromShape | MapParser/overpass_fetcher.py:53-93 | every attempt before the last one made was retried and waited its time; the last one alone decides the result |
| Overpass.FetchAttempts | MapParser/overpass_fetcher.py:10-53 | at most two sleeps (three requests); the result is Some only if the last request's response parsed |
| Overpass.AllTimeouts | MapParser/overpass_fetcher.py:71-79 | three timeouts give waits of 5 and 10 seconds, then None |
| Overpass.AllGatewayTimeouts | MapParser/overpass_fetcher.py:80-87 | three 504 responses give waits of 10 and 20 seconds, then None |
| Overpass.OtherErrorsStop | MapParser/overpass_fetcher.py:85-90 | any other HTTP error or request failure ends the run at once with None and no wait |
| Overpass.FirstResponseFiltered | MapParser/overpass_fetcher.py:59-69 | a first response that parses returns the allowed buildings without a wait |
| Overpass.ResponseEnds | MapParser/overpass_fetcher.py:56-69 | a response at any attempt ends the run without a wait, with the allowed buildings iff its body decoded and parsed, otherwise None |
| Overpass.TimeoutThenResponse | MapParser/overpass_fetcher.py:53-76 | a timeout and then a response that parses: one wait of 5 s, then the allowed buildings |
| Overpass.FetchBuildings | MapParser/overpass_fetcher.py:49-93 | the retry loop returns the result and sleep durations that the recursive definition gives |
| MapView.LayerOf | MapParser/map_visualizer.py:40-59 | a row gets the asbestos colour iff it is marked; otherwise it gets its type's table colour, white for an unknown type; the tooltip is `Type: t`, plus ` (ASBESTOS)` when marked; weight 3 and fill opacity 0.3 |
| MapView.MarkOverridesType | MapParser/map_visualizer.py:44-46 | `True`, `1` and `1.0` all mark a row whatever its type; the string `"True"` does not |
| MapView.ColoursFromPalette | MapParser/map_visualizer.py:21-48 | every layer colour is the asbestos colour, a table colour or the default |
| MapView.Layers | MapParser/map_visualizer.py:40-60 | one layer per row, in row order |
| MapView.CentreWithin | MapParser/map_visualizer.py:10-12 | the bounds exist for a non-empty frame, hold every vertex, and the map centre lies within them |
| MapView.FoliumMap.constructor | MapParser/map_visualizer.py:14-19 | a new map at the given location, zoom 17, no layers |
| MapView.FoliumMap.Add | MapParser/map_visualizer.py:51-60 | `.add_to(m)` appends the layer and keeps the earlier ones |
| MapView.CreateMapPreview | MapParser/map_visualizer.py:5-64 | None iff the frame is missing or empty; otherwise a fresh map at zoom 17, centred on the bounds, holding one layer per row in order |
| Api.Root | api/main.py:68-78 | the payload has exactly the keys message, version and endpoints, with message `Asbestos Detection API` and version `1.0.0` |
| Api.RootEndpoints | api/main.py:74-77 | exactly the endpoints predict and health; each is described as a verb followed by the path named by its key, and only predict is POST |
| Api.DefaultCropInside | api/main.py:56-63 | with the default size 128 the crop is 128 x 128 and lies inside the 768 x 768 mosaic for every pixel offset |
| Mosaic.CentredSatelliteImage | api/main.py:28-66 | cell (i, j) of the 3 x 3 canvas holds tile (x-1+i, y-1+j) or grey; the box is size x size, inside the mosaic for sizes up to 512, and centred on the building's pixel in the middle tile |
| Mosaic.ClampedSatelliteImage | no_not_delete/adam.py:45-89 | cell (i, j) of the 2 x 2 canvas holds tile (x-1+i, y-1+j) from the provider or grey; the raw crop is at most size x size and inside the mosaic; the saved image is size x size, resized iff the crop was smaller |
| Mosaic.DownloadNeighbourhood | MapParser/download_buildings_with_labels.py:184-199 | an n x n canvas whose cell (i, j) holds tile (x - n//2 + i, y - n//2 + j) or grey; the middle cell is the building's own tile |
| Mosaic.FetchNeighbourColumn | MapParser/download_buildings_with_labels.py:185-199 | column i gets tile (x - n//2 + i, y - n//2 + j) or grey in row j, and the other columns are untouched |
| Mosaic.TileRequestOf | no_not_delete/adam.py:119-124 | the request is the Google tile itself, or for Bing the tile's quadkey |
| Mosaic.Fetched | MapParser/download_buildings_with_labels.py:122-133 | inside the sequential loop's `try`: a grey tile exactly when the server did not answer with decodable imagery, otherwise that image |
| Mosaic.Opened | MapParser/download_buildings_with_labels_multithreaded.py:97-104 | what `download_tile` hands back: grey when the request failed, the opened but undecodable image when the bytes do not decode, otherwise the imagery |
| Mosaic.OpenedAgrees | MapParser/download_buildings_with_labels_multithreaded.py:97-104 | the threaded tile equals the sequential one exactly when the answer is not undecodable data |
| Mosaic.AreaTasks | MapParser/download_buildings_with_labels_multithreaded.py:130-135 | exactly tiles_x · tiles_y tasks, task k being cell (k / tiles_y, k % tiles_y) |
| Mosaic.AreaTaskCell | MapParser/download_buildings_with_labels_multithreaded.py:131-135 | position i · tiles_y + j holds the task of cell (i, j) with tx = min_x + i and ty = min_y + j |
| Mosaic.AreaTasksOnePerCell | MapParser/download_buildings_with_labels_multithreaded.py:131-135 | no other position names that cell, and every task's tile index is its cell's |
| Mosaic.DownloadTile | MapParser/download_buildings_with_labels_multithreaded.py:89-104 | the result names the task's cell; it is flagged True iff the request succeeded, and then holds the opened image, undecodable exactly when the data is; otherwise False with grey |
| Mosaic.AreaResults | MapParser/download_buildings_with_labels_multithreaded.py:139-140 | one result per submitted task |
| Mosaic.DownloadedTiles | MapParser/download_buildings_with_labels_multithreaded.py:146-148 | the count of tiles flagged successful never exceeds the number of tiles |
| Mosaic.ArrivedTiles | MapParser/download_buildings_with_labels.py:122-133 | the count of tiles pasted as imagery never exceeds the count flagged successful |
| Mosaic.NoCorruptAgrees | MapParser/download_buildings_with_labels_multithreaded.py:97-104 | when no answer is undecodable, every threaded tile is the sequential one and the two counts agree |
| Mosaic.AreaResultCell | MapParser/download_buildings_with_labels_multithreaded.py:139-144 | every result for cell (i, j) carries that cell's opened tile, flagged True iff its request succeeded |
| Mosaic.LastPastedAgreeing | MapParser/download_buildings_with_labels_multithreaded.py:142-144 | when every result pasted over a cell carries the same tile, the cell ends with it whatever the order |
| Mosaic.PasteCompleted | MapParser/download_buildings_with_labels_multithreaded.py:142-148 | raises iff some completed result holds an undecodable image, since the paste is outside any `try`; otherwise each cell holds the last result pasted over it, and `downloaded` counts the successful results |
| Mosaic.CompletedCells | MapParser/download_buildings_with_labels_multithreaded.py:142-144 | every result in a completion order names a cell of the grid and carries its opened tile |
| Mosaic.CompletedCorrupt | MapParser/download_buildings_with_labels_multithreaded.py:139-144 | whatever the completion order, some completed result is undecodable iff some cell's answer is |
| Mosaic.CompletedMosaic | MapParser/download_buildings_with_labels_multithreaded.py:139-144 | whatever the completion order, every cell ends with its own opened tile |
| Mosaic.DownloadAreaThreaded | MapParser/download_buildings_with_labels_multithreaded.py:107-160 | for any completion order: raises iff the tile range is negative or some tile's data does not decode; else one cell per tile of the range holding its tile or grey, and the number of tiles fetched |
| Mosaic.DownloadAreaSequential | MapParser/download_buildings_with_labels.py:90-141 | fetched cell by cell with the paste inside the `try`, so an undecodable tile is grey and not counted; raises only on a negative tile range, and whenever the threaded version does not raise both satisfy the same `AreaImageOf` |
| Mosaic.ColumnResults | MapParser/download_buildings_with_labels.py:116-133 | one result per row of the column |
| Mosaic.ColumnOfResults | MapParser/download_buildings_with_labels.py:115-133 | the results run column by column: the first i+1 columns are a prefix |
| Mosaic.FetchColumn | MapParser/download_buildings_with_labels.py:116-133 | column i gets its tiles, other columns are untouched, and the count is that column's successes |
| Mosaic.ColumnCount | MapParser/download_buildings_with_labels.py:116-133 | the successes counted while walking a column are the successful results of that column |
| Mosaic.FillArea | MapParser/download_buildings_with_labels.py:112-133 | every cell of the canvas holds its tile or grey, and `downloaded` is the number of tiles the server answered |
| Mosaic.SubmittedCell | MapParser/download_buildings_with_labels_multithreaded.py:131-140 | position i · tiles_y + j of the submitted results is the download of cell (i, j) |
| Mosaic.PasteRegionsPartition | MapParser/download_buildings_with_labels_multithreaded.py:120-144 | a pixel of the canvas lies in the paste region of exactly one cell, which exists |
| Crop.ExtractWindow | MapParser/download_buildings_with_labels_multithreaded.py:163-183 | None iff the shifted box runs past the right or bottom edge; otherwise a size x size box inside the image that starts at max(0, centre - size//2) |
| Crop.ExtractWindowClamps | MapParser/download_buildings_with_labels.py:157-163 | a box that would start left of or above the image is shifted to the edge, not rejected |
| Crop.ExtractWindowHoldsCentre | MapParser/download_buildings_with_labels.py:152-167 | a window that is produced always contains the centre pixel |
| Crop.CentredWindow | MapParser/download_buildings_with_labels.py:202-212 | the box is size x size, and its offset size//2 is the building's pixel in the middle tile |
| Crop.CentredWindowInside | MapParser/download_buildings_with_labels.py:174-212 | for sizes up to 512 the box lies inside the 768 x 768 mosaic |
| Crop.CentredWindowCentre | MapParser/download_buildings_with_labels.py:202-212 | the crop's centre pixel is pixel (pixel_x, pixel_y) of tile n//2 |
| Crop.ClampedWindowBounds | no_not_delete/adam.py:74-83 | the clamped box lies in the 512 x 512 mosaic, is at most size wide, and is exactly size wide iff size is even and the half-size fits on both sides |
| Crop.ClampedWindow128 | no_not_delete/adam.py:74-86 | for size 128 the raw crop is 128 wide iff pixel_x <= 192, so the resize branch runs otherwise |
| Crop.SavedSize | no_not_delete/adam.py:85-88 | the saved image is always size x size, and the resize ran iff the crop was not |
| Quadkey.QuadkeyOf | no_not_delete/adam.py:95-105 | the quadkey has z digits, and digit k is the x bit plus twice the y bit of level z-1-k |
| Quadkey.TileToQuadkey | no_not_delete/adam.py:95-105 | the loop computes QuadkeyOf; its digits are 0..3 |
| Quadkey.QuadkeyParent | no_not_delete/adam.py:97-104 | dropping the last digit gives the parent tile's quadkey |
| Quadkey.DecodeQuadkey | no_not_delete/adam.py:95-105 | decoding recovers every tile of the zoom level |
| Quadkey.QuadkeyInjective | no_not_delete/adam.py:95-105 | distinct tiles of one zoom level have distinct quadkeys |
| Quadkey.QuadkeyWraps | no_not_delete/adam.py:118-123 | only the low z bits matter, so a neighbour index past the edge of the zoom level wraps round |
| Geometry.PointOf | MapParser/download_buildings_with_labels.py:36-37 | a point exists iff its value is a list with two numbers in front; it is (lng, lat) |
| Geometry.PointsOf | MapParser/download_buildings_with_labels.py:36-37 | all points exist iff each does, in order |
| Geometry.RingCentre | MapParser/download_buildings_with_labels.py:36-42 | defined iff the ring is non-empty and all its points are; the centre is (mean lat, mean lng) |
| Geometry.RingOf | MapParser/download_buildings_with_labels.py:29-34 | defined iff the coordinates are a non-empty list whose first item is a non-empty list or string; then `coordinates[0]` when `coordinates[0][0]` is a list, otherwise `coordinates` |
| Geometry.PolygonCentre | MapParser/download_buildings_with_labels.py:26-42 | the centre of the ring RingOf selects, raising where that raises |
| Geometry.OuterRingCentre | MapParser/download_building_images.py:25-34 | the centre of `coordinates[0]` whenever that is a list, raising exactly where that ring's centre raises; every other `coordinates` raises |
| Geometry.RingCentreWithin | MapParser/download_buildings_with_labels.py:39-40 | a ring inside a latitude band and a longitude band has its centre inside them |
| Geometry.RingCentreSwaps | MapParser/download_buildings_with_labels.py:36-42 | a [lng, lat] point gives the centre (lat, lng) |
| Geometry.Locate | MapParser/download_buildings_with_labels.py:54-63 | the geometry's coordinates and type (default Polygon), else the building's own, else none; the lookups raise as Python's do |
| Geometry.BuildingCentre | MapParser/download_buildings_with_labels.py:65-69 | a MultiPolygon uses its first polygon, anything else the coordinates themselves |
| Geometry.CountedCentre | MapParser/download_buildings_with_labels.py:52-76 | a non-dict or a building without coordinates adds nothing; only the lookup outside the `try` raises; a located building adds its centre exactly when that centre computes, and nothing when it raises |
| Geometry.CentreCounted | MapParser/download_buildings_with_labels.py:52-76 | every centre a building adds is among the centres the box is computed from |
| Geometry.Hull | MapParser/download_buildings_with_labels.py:47-74 | no extent iff no centre was found; otherwise it holds every centre |
| Geometry.BoundingBox | MapParser/download_buildings_with_labels.py:45-87 | the min/max loop plus the 10% margin computes the box of the buildings |
| Geometry.CentresRaise | MapParser/download_buildings_with_labels.py:52-63 | once one building's lookup raises, the whole box does |
| Geometry.BoxHoldsCentres | MapParser/download_buildings_with_labels.py:78-87 | every centre lies in the widened box |
| Labels.Search | MapParser/download_buildings_with_labels.py:316-323 | a record whose properties is no container raises when any key is tried |
| Labels.FindLabel | MapParser/download_buildings_with_labels.py:316-323 | the loop with its two breaks computes the search |
| Labels.FirstKeyWins | MapParser/download_buildings_with_labels.py:317-323 | the first key present in either record decides, and the properties' value wins over the building's |
| Labels.NoKeyPresent | MapParser/download_buildings_with_labels.py:325-326 | with no key present the label is null, later 0 |
| Labels.NullStopsSearch | MapParser/download_buildings_with_labels.py:318-320 | a present null stops the search, so a later `True` is never read and the label is 0 |
| Labels.StringPropertiesRaise | MapParser/download_buildings_with_labels.py:318-319 | a string `properties` holding a key name makes the index raise |
| Labels.Truncate | MapParser/download_buildings_with_labels.py:332 | `int(x)` truncates toward zero |
| Labels.Coerce | MapParser/download_buildings_with_labels.py:325-332 | null, bool and string give 0 or 1, a string 1 iff its lower case is a true word; an int is kept, a float truncated; raises iff it is a non-empty list or dict; falsy gives 0 |
| Labels.CoerceIgnoresCase | MapParser/download_buildings_with_labels.py:330 | `TAK` and `Yes` are 1, `no` is 0 |
| Labels.StatisticsCover | MapParser/download_buildings_with_labels.py:454-455 | the two counts never exceed the rows and add up to them iff every label is 0 or 1 |
| Accounting.TallyCounts | MapParser/download_buildings_with_labels.py:349-366 | `successful` counts the saved buildings, `failed` the failed ones, skipped ones count nowhere, and the CSV holds exactly the saved rows in order |
| Accounting.SavedRowsPermutation | MapParser/download_buildings_with_labels_multithreaded.py:449-461 | rows collected in any order of the same outcomes are the same rows counted with multiplicity |
| Accounting.RunOfOk | MapParser/download_buildings_with_labels.py:440-445 | a run reaches the CSV write iff no step raised outside a `try` |
| Accounting.RunOfPrefixRaises | MapParser/download_buildings_with_labels.py:283-445 | a run whose first steps already stop stops |
| Accounting.RunSteps | MapParser/download_building_images.py:194-226 | the loop over items, one step each, continues a run exactly as the run of the steps appended to the earlier ones |
| Accounting.RunOfTally | MapParser/download_buildings_with_labels.py:283-445 | a run that does not stop ends with the tally of its outcomes |
| Accounting.BuildingsOf | MapParser/download_buildings_with_labels.py:248-261 | a list as it is, a dict's `features` before its `buildings`, any other dict as a list of one, none for other values; raises iff the chosen member cannot be measured |
| Accounting.FeaturesBeforeBuildings | MapParser/download_buildings_with_labels.py:251-254 | a dict with both keys is read from `features` |
| Accounting.Prepare | MapParser/download_buildings_with_labels.py:302-341 | a non-dict or a record without coordinates is unusable; a ready building carries its located centre and its coerced label |
| Accounting.PrepareCases | MapParser/download_buildings_with_labels.py:302-341 | the preparation raises iff the coordinate lookup, the label search or the label coercion raises; a located, labelled building is ready with its centre and label when the centre computes, and skipped when it raises |
| Accounting.PrepareAgreesWithBox | MapParser/download_buildings_with_labels.py:52-76 | whatever raises in the bounding box also raises in the loop, and a ready building's centre is one the box was built from |
| Accounting.PrepareBuilding | MapParser/download_buildings_with_labels.py:302-341 | the loop body, label loop included, computes Prepare |
| Accounting.IndividualMethod | MapParser/download_buildings_with_labels.py:374-438 | the individual loop computes the run of its per-building steps |
| Accounting.IndividualAccounts | MapParser/download_buildings_with_labels.py:423-438 | a ready building is saved with its row iff its download completed, otherwise failed; an unusable one is skipped |
| Accounting.FallbackMethod | no_not_delete/adam.py:206-295 | the loop with the Google-then-Bing fallback computes the run of its steps |
| Accounting.FallbackBuilding | no_not_delete/adam.py:207-295 | the body for one building computes its step: raising, skipped, saved with its row after Google or else Bing saved it, or failed |
| Accounting.BingOnlyAfterGoogle | no_not_delete/adam.py:267-281 | when Google succeeds the outcome does not depend on Bing |
| Accounting.FallbackFails | no_not_delete/adam.py:279-295 | a ready building fails iff both providers raised |
| Accounting.AreaOf | MapParser/download_buildings_with_labels.py:95-106 | the mosaic runs from the NW corner's tile to the SE corner's; the infinite box of an empty run raises |
| Accounting.PointInArea | MapParser/download_buildings_with_labels.py:95-153 | under Web Mercator's order every point of the box has its pixel on the canvas |
| Accounting.ReadyOnCanvas | MapParser/download_buildings_with_labels.py:71-153 | every building the area method prepares has its centre pixel on the mosaic built from the box of all the buildings |
| Accounting.ExtractBuildings | MapParser/download_buildings_with_labels.py:301-366 | the area loop computes the run of its per-building steps |
| Accounting.AreaWindowFits | MapParser/download_buildings_with_labels.py:349-366 | a building at least 64 pixels inside every edge fails iff its save raised |
| Accounting.ProcessBuilding | MapParser/download_buildings_with_labels_multithreaded.py:227-284 | a worker's result is saved iff the building is ready and its download completed; nothing is skipped, so every other building fails |
| Accounting.ThreadedIndividual | MapParser/download_buildings_with_labels_multithreaded.py:444-461 | for any completion order every building counts once, and the counts and rows (up to order) are those of the submission order |
| Accounting.Parsed | MapParser/download_building_images.py:15-21 | never more documents than matches |
| Accounting.ExtractGeojson | MapParser/download_building_images.py:9-23 | the loop keeps the matches that parse, in order |
| Accounting.ParsedAll | MapParser/download_building_images.py:15-21 | when every match parses, all are kept in order |
| Accounting.ParsedDrops | MapParser/download_building_images.py:20-21 | a match that does not parse leaves no trace |
| Accounting.FeatureStep | MapParser/download_building_images.py:194-226 | raises iff the feature or its geometry is not a dict or a processed polygon's centre raises; skipped iff it is no Polygon with truthy coordinates; otherwise saved with its centre iff Google or Bing saved the image, failed otherwise |
| Accounting.PageRaises | MapParser/download_building_images.py:193-226 | a run that stops within the first documents stops |
| Accounting.FeatureLoop | MapParser/download_building_images.py:194-226 | the inner loop continues the run by the steps of its features |
| Accounting.PageMethod | MapParser/download_building_images.py:186-226 | the nested loops compute the run of all documents' steps |
| Accounting.ThreadCount | MapParser/download_buildings_with_labels_multithreaded.py:345-353 | a count is accepted iff the stripped input parses as an integer in 1..50 |
| Accounting.ThreadCountAccepts | MapParser/download_buildings_with_labels_multithreaded.py:347-350 | typing any of 1..50 gives that count; 0 and 51 on are refused |
| Accounting.ChoiceIgnoresBlanks | MapParser/download_buildings_with_labels.py:275-277 | surrounding blanks do not matter for the method choice |
| Accounting.ChoiceRefuses | MapParser/download_buildings_with_labels.py:276 | `12` is refused |
| Text.StripLeft | MapParser/download_buildings_with_labels.py:275 | drops exactly the leading whitespace |
| Text.StripRight | MapParser/download_buildings_with_labels.py:275 | drops exactly the trailing whitespace |
| Text.Lower | MapParser/download_buildings_with_labels.py:330 | lower-cases character by character, keeping the length |
| Text.NatToStringValue | BuildingFinderModel/prepare_dataset.py:54-55 | the decimal rendering denotes the number |
| Text.ZeroPadded | BuildingFinderModel/prepare_dataset.py:54-55 | all digits, and at least `width` long |
| Text.ZeroPaddedValue | BuildingFinderModel/prepare_dataset.py:54-55 | the padded digits still denote the number |
| Text.ZeroPaddedInjective | BuildingFinderModel/prepare_dataset.py:54-55 | distinct numbers never share a padded rendering |
| Text.ParseInt | MapParser/download_buildings_with_labels_multithreaded.py:348 | only a non-empty string parses |
| Text.ParseIntNatToString | MapParser/download_buildings_with_labels_multithreaded.py:348 | `int(str(n))` gives n back |
| Json.Contains | MapParser/download_buildings_with_labels.py:56 | `key in v` raises iff v is no dict, list or string; key membership for a dict, element equality for a list |
| Json.Index | MapParser/download_buildings_with_labels.py:57 | `v[key]` answers iff v is a dict holding the key |
| Json.Get | MapParser/download_buildings_with_labels.py:54 | `.get` raises iff v is no dict; the value or the default |
| Json.Members | MapParser/download_buildings_with_labels.py:261 | the elements a loop visits exist iff `len` works: a list's items, a string's characters in order, or a dict's keys, each once |
| Balance.PixelCount | MapParser/usuwanie_balansowanie.py:12-13 | raises iff the feature or its properties are not dicts or the count is not a number; otherwise the count's value, and 0 when it is missing |
| Balance.Features | MapParser/usuwanie_balansowanie.py:9 | `data['features']` answers iff data is a dict holding the key with an iterable value, and yields that value's items |
| Balance.Groups | MapParser/usuwanie_balansowanie.py:12-13 | the comprehensions finish iff every feature's count can be compared |
| Balance.Partition | MapParser/usuwanie_balansowanie.py:12-13 | each feature is in one group or has a negative count; the groups hold different features of the input |
| Balance.Document | MapParser/usuwanie_balansowanie.py:37-42 | exactly the keys type, name, crs and features, with the input's crs or null |
| Balance.BalanceFeatures | MapParser/usuwanie_balansowanie.py:9-42 | raises iff the groups cannot be built; otherwise a document whose features hold min(with, without) of each group, none twice and none the input lacks |
| Balance.BalancedCounts | MapParser/usuwanie_balansowanie.py:19-29 | the first m of each shuffled group, shuffled again, are m of each group drawn from the input |
| Shuffling.Shuffle | MapParser/usuwanie_balansowanie.py:19 | the shuffle permutes the array's contents |
| Dataset.Pairs | BuildingFinderModel/prepare_dataset.py:90-100 | never more pairs than images, each pairing an image with the mask of its name |
| Dataset.PairsAppend | BuildingFinderModel/prepare_dataset.py:92-99 | pairing keeps the order of the images |
| Dataset.PairsMembers | BuildingFinderModel/prepare_dataset.py:92-99 | a pair is formed iff its image is listed and its mask exists |
| Dataset.PairsAll | BuildingFinderModel/prepare_dataset.py:92-99 | every image is paired iff every image has its mask |
| Dataset.PairFiles | BuildingFinderModel/prepare_dataset.py:91-99 | the pairing loop computes the pairs |
| Dataset.SplitIndex | BuildingFinderModel/prepare_dataset.py:108 | the split index is floor(4n/5) and at most n |
| Dataset.SplitBothSides | BuildingFinderModel/prepare_dataset.py:108-110 | for five or more pairs both halves are non-empty |
| Dataset.ConvertAndCopy | BuildingFinderModel/prepare_dataset.py:40-60 | the mask is converted to mode L iff its mode is not L |
| Dataset.CopyNames | BuildingFinderModel/prepare_dataset.py:40-60 | the copy records its pair and index, and goes to `dir/NNNNN_image.tif` and `dir/NNNNN_label.tif` with the index zero-padded to five digits |
| Dataset.Copies | BuildingFinderModel/prepare_dataset.py:122-132 | one copy per pair, copy k made from pair k |
| Dataset.CopyPaths | BuildingFinderModel/prepare_dataset.py:122-132 | copy k is pair k converted and copied under index start + k, to that index's two paths |
| Dataset.CopyPairs | BuildingFinderModel/prepare_dataset.py:122-132 | the copy loop computes the copies |
| Dataset.NamesDistinct | BuildingFinderModel/prepare_dataset.py:54-55 | different indices give different names, and an image name is never a label name |
| Dataset.FiveDigits | BuildingFinderModel/prepare_dataset.py:54 | below 100000 every index is written with exactly five digits |
| Dataset.CopyPathsDistinct | BuildingFinderModel/prepare_dataset.py:54-55 | two copies into one directory under different indices write four different files |
| Dataset.CopiesDistinct | BuildingFinderModel/prepare_dataset.py:122-132 | within one directory the copies have pairwise different file names |
| Dataset.Prepare | BuildingFinderModel/prepare_dataset.py:62-134 | each early return happens exactly under its own check, in the script's order; the divide-by-zero exactly when the shuffled pair list is empty; otherwise copies into train and test |
| Dataset.PreparedSplit | BuildingFinderModel/prepare_dataset.py:104-110 | the train copies followed by the test copies are the shuffled pairs, the first floor(4n/5) in train; with a permuting shuffle every pair is copied once |
| Dataset.SplitSources | BuildingFinderModel/prepare_dataset.py:104-132 | the train copies followed by the test copies are copies of the split pairs, in order |
| Dataset.SplitNames | BuildingFinderModel/prepare_dataset.py:122-132 | copies are numbered from 0 in train and on from the split point in test, and every path is its directory plus its index's name |
| Dataset.PreparedNames | BuildingFinderModel/prepare_dataset.py:122-132 | train copy k has index k and test copy k has index len(train) + k, so no two copies share an index or a name |
| Dataset.NoPairsExactly | BuildingFinderModel/prepare_dataset.py:108-113 | with a permuting shuffle the script divides by zero iff no image has its mask |
| Dataset.UnmatchedNamesCrash | BuildingFinderModel/prepare_dataset.py:113 | equally many images and masks, none with a matching name, give the zero division |
| Dataset.PrepareDataset | BuildingFinderModel/prepare_dataset.py:62-134 | the script's steps compute Prepare |

## Left out

- Network, disk and image I/O are left out: `requests`, PIL's open/paste/crop/resize/save (of these, only the fact that `Image.open` decodes lazily, so that undecodable bytes fail at the paste, is modelled, as the `Corrupt` answer), file and CSV writes, and `json.load`/`json.dump`. Network answers and save outcomes are function parameters, and an image is its grid of tiles and its crop box.
- The Web Mercator projection (`lat_lng_to_pixel_in_tile`, `lat_lng_to_tile`) is trigonometry on floats. It is a parameter, with pixel offsets in 0..255.
- Floating point is modelled over `real`: the centroid, the bbox margin, the `.7f` file names and the percentage printout. `int(n * 0.8)` is `(4n)/5`. `inf` and `nan` are not values; the infinite box of an empty run is `None`.
- Concurrency (`ThreadPoolExecutor`, `Lock`, `as_completed`) is modelled as an arbitrary completion order of the submitted results.
- `ALLOWED_BUILDING_TYPES`: config.py is not part of this model, so the allowed types are a parameter.
- Only the resulting matches of the regular expression in `extract_geojson_from_html` are modelled; they are an input.
- Json.Members: a dict's keys are iterated in code-point order, not insertion order, because a map keeps none. Every loop over iterated keys in these scripts either raises on one of them or treats each key alike as a non-dict (skipped, or counted as failed without a CSV row), so the outcome does not depend on the order.
- `Overpass.GeometryRing` treats any non-number coordinate as an error, though shapely would also read numeric strings. The GeoDataFrame construction, its CRS and its printouts are not modelled.
- `Dataset.Prepare` takes the sorted base names of the two `*.png` listings as inputs. Glob's treatment of hidden files and the exact `os.path.exists` check on non-PNG masks are not modelled.
- Dataset: the shuffle is a function of the pair list (fixed by `RANDOM_SEED = 42`); its lemmas assume only that it permutes. The directory deletion and creation of `prepare_directories` and the closing file counts are I/O.
- The interactive prompts model only which inputs are accepted, not the re-prompting loops. `Text.Lower` covers lower-casing only as far as membership in the ASCII true-words set goes, and `Text.ParseInt` does not accept non-ASCII digits.
- Mosaic.CentredSatelliteImage: the box is proved inside the 768 x 768 mosaic only for sizes up to 512; for larger sizes PIL pads the crop with black, which is not modelled.
- `MapView.CreateMapPreview` requires every row's ring to be non-empty (shapely polygons always have vertices). Tile-server options, `m.save` and the printouts are left out.
- Api: `lat_lng_to_pixel_in_tile` is a parameter as above. The `/predict` and `/health` handlers are not part of the source shown, and uvicorn start-up is left out.
- MapParser/tile_generator.py, MapParser/image_renderer.py, MapParser/osm_parser.py, MapParser/main.py and api/test_api.py are context scripts and are not modelled.
