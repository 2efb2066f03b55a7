/** InvertFilter: every channel c becomes 255 - c. */
module InvertFilter {
  import opened Images
  import PointFilter

  /** The colour with every channel inverted. */
  function Invert(c: Color): (r: Color)
    ensures r.red + c.red == 255 && r.green + c.green == 255 && r.blue + c.blue == 255
  {
    Color(255 - c.red, 255 - c.green, 255 - c.blue)
  }

  /** The image after the filter. */
  function Inverted(g: Raster): (r: Raster)
    ensures |r| == |g| && forall y | 0 <= y < |g| :: |r[y]| == |g[y]|
    ensures forall y, x | 0 <= y < |g| && 0 <= x < |g[y]| ::
      r[y][x].red + g[y][x].red == 255 && r[y][x].green + g[y][x].green == 255 && r[y][x].blue + g[y][x].blue == 255
  {
    PointFilter.MapRaster(g, Invert)
  }

  /** apply(image): one pass that inverts every pixel in place. */
  method Apply(image: OFImage)
    requires image.Valid()
    modifies image.data
    ensures image.Pixels() == Inverted(old(image.Pixels()))
  {
    PointFilter.MapPixels(image, Invert);
  }

  /** Each output pixel is the inverse of the same input pixel, and the size is kept. */
  lemma InvertedAt(g: Raster, w: nat, h: nat, x: int, y: int)
    requires IsRaster(g, w, h) && 0 <= x < w && 0 <= y < h
    ensures IsRaster(Inverted(g), w, h)
    ensures Inverted(g)[y][x] == Color(255 - g[y][x].red, 255 - g[y][x].green, 255 - g[y][x].blue)
  {
  }

  /** Inverting twice restores the original image. */
  lemma Involution(g: Raster, w: nat, h: nat)
    requires IsRaster(g, w, h)
    ensures Inverted(Inverted(g)) == g
  {
    PointFilter.MapRasterSize(g, Invert, w, h);
    RasterExt(Inverted(Inverted(g)), g, w, h);
  }

  /** The 2x2 example: (10,200;50,240) grey levels invert to (245,55;205,15). */
  lemma TwoByTwoExample()
    ensures Inverted([[Color(10, 10, 10), Color(200, 200, 200)], [Color(50, 50, 50), Color(240, 240, 240)]])
         == [[Color(245, 245, 245), Color(55, 55, 55)], [Color(205, 205, 205), Color(15, 15, 15)]]
  {
    var g := [[Color(10, 10, 10), Color(200, 200, 200)], [Color(50, 50, 50), Color(240, 240, 240)]];
    var r := [[Color(245, 245, 245), Color(55, 55, 55)], [Color(205, 205, 205), Color(15, 15, 15)]];
    RasterExt(Inverted(g), r, 2, 2);
  }
}
