/** Crop-window arithmetic of the image scripts. A window is PIL's crop box
    (left, top, right, bottom), right and bottom exclusive, in pixels of the
    mosaic it is cut from; PIL itself is not modelled, only the boxes. */
module Crop {
  import opened Wrappers

  const TileSize: nat := 256

  /** A pixel offset inside one tile, as `lat_lng_to_pixel_in_tile` yields it. */
  type Pixel = p: int | 0 <= p < 256

  function Max(a: int, b: int): int { if a >= b then a else b }
  function Min(a: int, b: int): int { if a <= b then a else b }

  datatype Window = Window(left: int, top: int, right: int, bottom: int) {
    function Width(): int { right - left }
    function Height(): int { bottom - top }

    /** The window lies within a width x height image. */
    predicate Inside(width: int, height: int) {
      0 <= left <= right <= width && 0 <= top <= bottom <= height
    }

    predicate Contains(x: int, y: int) {
      left <= x < right && top <= y < bottom
    }
  }

  /** Position, in a mosaic whose first column is tile `minTile`, of pixel
      `pixel` of tile `tile` (`tile_offset * 256 + pixel_x`). */
  function AreaCentre(tile: int, minTile: int, pixel: int): int {
    (tile - minTile) * TileSize + pixel
  }

  /** `extract_building_image`: a size x size box around the centre, pushed
      right or down to start at 0 when it would begin outside the image, and
      rejected (None) when it then runs past the right or bottom edge.
      MapParser/download_buildings_with_labels.py:152-167 and
      MapParser/download_buildings_with_labels_multithreaded.py:170-183. */
  function ExtractWindow(width: nat, height: nat, centreX: int, centreY: int, size: nat): (r: Option<Window>)
    ensures r.None? <==>
      Max(0, centreX - size / 2) + size > width || Max(0, centreY - size / 2) + size > height
    ensures r.Some? ==>
      r.value.Width() == size && r.value.Height() == size && r.value.Inside(width, height)
    ensures r.Some? ==>
      r.value.left == Max(0, centreX - size / 2) && r.value.top == Max(0, centreY - size / 2)
  {
    var left := Max(0, centreX - size / 2);
    var top := Max(0, centreY - size / 2);
    var right := Min(width, left + size);
    var bottom := Min(height, top + size);
    if right - left < size || bottom - top < size then None
    else Some(Window(left, top, right, bottom))
  }

  /** A window that would begin left of or above the image is shifted to the
      edge, not rejected, and still holds the centre pixel. */
  lemma ExtractWindowClamps(width: nat, height: nat, centreX: int, centreY: int, size: nat)
    requires 0 <= centreX < size / 2 && 0 <= centreY < size / 2
    requires size <= width && size <= height
    ensures ExtractWindow(width, height, centreX, centreY, size) == Some(Window(0, 0, size, size))
    ensures Window(0, 0, size, size).Contains(centreX, centreY)
  {
  }

  /** Whenever a window is produced for a centre on the image, the centre
      pixel lies inside it. */
  lemma ExtractWindowHoldsCentre(width: nat, height: nat, centreX: int, centreY: int, size: nat)
    requires 0 <= centreX && 0 <= centreY && size > 0
    requires ExtractWindow(width, height, centreX, centreY, size).Some?
    ensures ExtractWindow(width, height, centreX, centreY, size).value.Contains(centreX, centreY)
  {
  }

  /** Pixel of the point's own tile in an n x n neighbourhood whose middle
      column and row (index n / 2) hold that tile. */
  function NeighbourhoodCentre(n: nat, pixel: int): int {
    (n / 2) * TileSize + pixel
  }

  /** The unclamped box of `download_satellite_image` in the 3x3 scripts:
      left = centre - size // 2, right = left + size.
      MapParser/download_buildings_with_labels.py:202-212,
      MapParser/download_buildings_with_labels_multithreaded.py:214-223, api/main.py:56-63. */
  function CentredWindow(n: nat, pixelX: int, pixelY: int, size: nat): (w: Window)
    ensures w.Width() == size && w.Height() == size
    ensures w.left + size / 2 == NeighbourhoodCentre(n, pixelX)
    ensures w.top + size / 2 == NeighbourhoodCentre(n, pixelY)
  {
    var left := NeighbourhoodCentre(n, pixelX) - size / 2;
    var top := NeighbourhoodCentre(n, pixelY) - size / 2;
    Window(left, top, left + size, top + size)
  }

  /** In the 3x3 mosaic (768 x 768) the box never leaves the image for any
      size up to 512, in particular for the 128 the scripts use, so PIL never
      pads it. */
  lemma CentredWindowInside(pixelX: int, pixelY: int, size: nat)
    requires 0 <= pixelX < TileSize && 0 <= pixelY < TileSize
    requires size <= 2 * TileSize
    ensures CentredWindow(3, pixelX, pixelY, size).Inside(3 * TileSize, 3 * TileSize)
  {
  }

  /** The pixel at offset (size // 2, size // 2) of the crop is pixel
      (pixelX, pixelY) of the middle tile (column and row n // 2). */
  lemma CentredWindowCentre(n: nat, pixelX: int, pixelY: int, size: nat)
    requires 0 <= pixelX < TileSize && 0 <= pixelY < TileSize
    ensures var w := CentredWindow(n, pixelX, pixelY, size);
      (w.left + size / 2) / TileSize == n / 2 && (w.left + size / 2) % TileSize == pixelX &&
      (w.top + size / 2) / TileSize == n / 2 && (w.top + size / 2) % TileSize == pixelY
  {
    InTile(n / 2, pixelX);
    InTile(n / 2, pixelY);
  }

  lemma InTile(cell: nat, pixel: int)
    requires 0 <= pixel < TileSize
    ensures (cell * TileSize + pixel) / TileSize == cell && (cell * TileSize + pixel) % TileSize == pixel
  {
  }

  /** The clamped box of the 2x2 scripts: left = max(0, centre - size // 2),
      right = min(512, centre + size // 2).
      no_not_delete/adam.py:74-81,137-144 and
      MapParser/download_building_images.py:90-98,158-165. */
  function ClampedWindow(pixelX: int, pixelY: int, size: nat): Window {
    var cx, cy := NeighbourhoodCentre(2, pixelX), NeighbourhoodCentre(2, pixelY);
    var h := size / 2;
    Window(Max(0, cx - h), Max(0, cy - h), Min(2 * TileSize, cx + h), Min(2 * TileSize, cy + h))
  }

  /** The raw 2x2 crop is never wider or taller than `size`, always lies in
      the 512 x 512 mosaic, and is exactly `size` wide just when `size` is even
      and the half-size fits on both sides of the centre. */
  lemma ClampedWindowBounds(pixelX: int, pixelY: int, size: nat)
    requires 0 <= pixelX < TileSize && 0 <= pixelY < TileSize
    ensures var w := ClampedWindow(pixelX, pixelY, size);
      w.Inside(2 * TileSize, 2 * TileSize) && w.Width() <= size && w.Height() <= size &&
      (w.Width() == size <==> size % 2 == 0 && pixelX + size / 2 <= TileSize && size / 2 <= TileSize + pixelX) &&
      (w.Height() == size <==> size % 2 == 0 && pixelY + size / 2 <= TileSize && size / 2 <= TileSize + pixelY)
  {
  }

  /** For the 128-pixel crop of adam.py the raw width is 128 exactly when
      pixel_x <= 192; otherwise the resize branch runs. */
  lemma ClampedWindow128(pixelX: int, pixelY: int)
    requires 0 <= pixelX < TileSize && 0 <= pixelY < TileSize
    ensures ClampedWindow(pixelX, pixelY, 128).Width() == 128 <==> pixelX <= 192
    ensures ClampedWindow(pixelX, pixelY, 128).Height() == 128 <==> pixelY <= 192
  {
    ClampedWindowBounds(pixelX, pixelY, 128);
  }

  /** `if cropped.size != (size, size): cropped = cropped.resize(...)`:
      the saved image's dimensions, and whether the resize ran. */
  function SavedSize(w: Window, size: nat): (r: (int, int, bool))
    ensures r.0 == size && r.1 == size
    ensures r.2 <==> w.Width() != size || w.Height() != size
  {
    if (w.Width(), w.Height()) != (size, size) then (size, size, true) else (w.Width(), w.Height(), false)
  }
}
