/** The API module (api/main.py): its constants and the `/` endpoint. The
    satellite download it serves is `Mosaic.CentredSatelliteImage` with
    `Zoom` and `ImageSize`. */
module Api {
  import opened Json
  import Crop

  const ImageSize: nat := 128
  const Zoom: nat := 20

  /** The payload of `GET /`. */
  function Root(): (v: Value)
    ensures v.Object? && v.fields.Keys == {"message", "version", "endpoints"}
    ensures v.fields["message"] == Str("Asbestos Detection API") && v.fields["version"] == Str("1.0.0")
  {
    Object(map[
      "message" := Str("Asbestos Detection API"),
      "version" := Str("1.0.0"),
      "endpoints" := Object(map["predict" := Str("POST /predict"), "health" := Str("GET /health")])])
  }

  /** Every advertised endpoint is described as an HTTP verb followed by
      the path named by its key; prediction is the only POST. */
  lemma RootEndpoints()
    ensures Root().fields["endpoints"].Object?
    ensures var endpoints := Root().fields["endpoints"].fields;
      endpoints.Keys == {"predict", "health"} &&
      (forall name | name in endpoints ::
        endpoints[name] == Str("POST /" + name) || endpoints[name] == Str("GET /" + name)) &&
      (forall name | name in endpoints :: endpoints[name] == Str("POST /" + name) <==> name == "predict")
  {
    var endpoints := Root().fields["endpoints"].fields;
    assert "POST /predict" == "POST /" + "predict";
    assert "GET /health" == "GET /" + "health";
    assert "GET /health" != "POST /" + "health";
  }

  /** With the default size the crop of the 768 x 768 mosaic is 128 x 128
      and never needs padding, wherever the building is in its tile. */
  lemma DefaultCropInside(pixelX: int, pixelY: int)
    requires 0 <= pixelX < Crop.TileSize && 0 <= pixelY < Crop.TileSize
    ensures var w := Crop.CentredWindow(3, pixelX, pixelY, ImageSize);
      w.Width() == ImageSize && w.Height() == ImageSize &&
      w.Inside(3 * Crop.TileSize, 3 * Crop.TileSize)
  {
    Crop.CentredWindowInside(pixelX, pixelY, ImageSize);
  }
}
