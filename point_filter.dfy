/**
 * The pass shared by the point filters (Darker, Lighter, Invert,
 * Solarize): visit every pixel once, row by row, read it and write back a
 * colour computed from that pixel alone.
 */
module PointFilter {
  import opened Images

  /** The raster after applying f to every pixel. */
  function MapRaster(g: Raster, f: Color -> Color): (r: Raster)
    ensures |r| == |g|
    ensures forall y | 0 <= y < |g| :: |r[y]| == |g[y]|
    ensures forall y, x | 0 <= y < |g| && 0 <= x < |g[y]| :: r[y][x] == f(g[y][x])
  {
    seq(|g|, (y: int) requires 0 <= y < |g| => seq(|g[y]|, (x: int) requires 0 <= x < |g[y]| => f(g[y][x])))
  }

  /** A map preserves the size of a raster. */
  lemma MapRasterSize(g: Raster, f: Color -> Color, w: nat, h: nat)
    requires IsRaster(g, w, h)
    ensures IsRaster(MapRaster(g, f), w, h)
  {
  }

  /**
   * The y/x loop of a point filter: image.setPixel(x, y, f(image.getPixel(x, y)))
   * for every pixel.  Each pixel is read before it is written, and written once.
   */
  method MapPixels(image: OFImage, f: Color -> Color)
    requires image.Valid()
    modifies image.data
    ensures image.Pixels() == MapRaster(old(image.Pixels()), f)
  {
    ghost var g := image.Pixels();
    var height := image.height;
    var width := image.width;
    var y := 0;
    while y < height
      invariant 0 <= y <= height
      invariant forall i, j | 0 <= i < width && 0 <= j < height ::
        image.GetPixel(i, j) == if j < y then f(g[j][i]) else g[j][i]
    {
      var x := 0;
      while x < width
        invariant 0 <= x <= width
        invariant forall i, j | 0 <= i < width && 0 <= j < height ::
          image.GetPixel(i, j) == if j < y || (j == y && i < x) then f(g[j][i]) else g[j][i]
      {
        var pix := image.GetPixel(x, y);
        image.SetPixel(x, y, f(pix));
        x := x + 1;
      }
      y := y + 1;
    }
    MapRasterSize(g, f, width, height);
    RasterExt(image.Pixels(), MapRaster(g, f), width, height);
  }
}
