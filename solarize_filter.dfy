/** SolarizeFilter: each channel at most 127 becomes 255 - c; larger ones are kept. */
module SolarizeFilter {
  import opened Images
  import PointFilter

  /** The threshold: channels up to and including it are inverted. */
  const Threshold := 127

  /** One channel, decided on its own. */
  function SolarizeChannel(c: Channel): (r: Channel)
    ensures c <= Threshold ==> r == 255 - c
    ensures c > Threshold ==> r == c
    ensures r > Threshold
  {
    if c <= Threshold then 255 - c else c
  }

  /** The three channels of one pixel, each decided independently. */
  function Solarize(c: Color): (r: Color)
    ensures r.red > Threshold && r.green > Threshold && r.blue > Threshold
    ensures c.red > Threshold ==> r.red == c.red
    ensures c.green > Threshold ==> r.green == c.green
    ensures c.blue > Threshold ==> r.blue == c.blue
    ensures c.red <= Threshold ==> r.red + c.red == 255
    ensures c.green <= Threshold ==> r.green + c.green == 255
    ensures c.blue <= Threshold ==> r.blue + c.blue == 255
  {
    var red := SolarizeChannel(c.red);
    var green := SolarizeChannel(c.green);
    var blue := SolarizeChannel(c.blue);
    Color(red, green, blue)
  }

  /** The image after the filter. */
  function Solarized(g: Raster): (r: Raster)
    ensures |r| == |g| && forall y | 0 <= y < |g| :: |r[y]| == |g[y]|
    ensures forall y, x | 0 <= y < |g| && 0 <= x < |g[y]| ::
      r[y][x].red > Threshold && r[y][x].green > Threshold && r[y][x].blue > Threshold
  {
    PointFilter.MapRaster(g, Solarize)
  }

  /** apply(image): one pass that solarizes every pixel in place. */
  method Apply(image: OFImage)
    requires image.Valid()
    modifies image.data
    ensures image.Pixels() == Solarized(old(image.Pixels()))
  {
    PointFilter.MapPixels(image, Solarize);
  }

  /** At the threshold 127 becomes 128, and 128 stays 128. */
  lemma Boundary()
    ensures SolarizeChannel(127) == 128 && SolarizeChannel(128) == 128
  {
  }

  /** Every output channel lies in [128, 255], and the size is kept. */
  lemma SolarizedRange(g: Raster, w: nat, h: nat, x: int, y: int)
    requires IsRaster(g, w, h) && 0 <= x < w && 0 <= y < h
    ensures IsRaster(Solarized(g), w, h)
    ensures var c := Solarized(g)[y][x];
      128 <= c.red && 128 <= c.green && 128 <= c.blue
  {
  }

  /** Solarizing twice is the same as solarizing once. */
  lemma Idempotent(g: Raster, w: nat, h: nat)
    requires IsRaster(g, w, h)
    ensures Solarized(Solarized(g)) == Solarized(g)
  {
    PointFilter.MapRasterSize(g, Solarize, w, h);
    RasterExt(Solarized(Solarized(g)), Solarized(g), w, h);
  }
}
