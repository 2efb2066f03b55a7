/**
 * FishEyeFilter: every pixel (x, y) is replaced by the pixel of a snapshot
 * at (x + xa[x], y + ya[y]), where xa and ya are integer offset tables.
 *
 * The tables come from (int)(Math.sin(i / n * 2 pi) * SCALE); the sine is
 * floating point and is a parameter here, `sine(i, n)` standing for that
 * truncated value.  The code does not clamp the sampled coordinate, so the
 * pass is only defined when every sample lies inside the image.
 */
module FishEyeFilter {
  import opened Images

  /** SCALE: the largest offset, in pixels. */
  const Scale := 20

  /** What the platform's truncated sine satisfies: |sine(i, n)| <= SCALE and sine(0, n) == 0. */
  ghost predicate TruncatedSine(sine: (int, int) -> int)
  {
    (forall i, n :: -Scale <= sine(i, n) <= Scale) && (forall n :: sine(0, n) == 0)
  }

  /** An offset table for n columns (or rows): n entries, entry 0 is 0, each within SCALE. */
  predicate OffsetTable(t: seq<int>, n: nat)
  {
    |t| == n && (n > 0 ==> t[0] == 0) && forall i | 0 <= i < n :: -Scale <= t[i] <= Scale
  }

  /** Every coordinate i < n moved by its offset stays in [0, n). */
  predicate SamplesInside(t: seq<int>, n: nat)
  {
    |t| == n && forall i | 0 <= i < n :: 0 <= i + t[i] < n
  }

  /** The table computeXArray / computeYArray fill in. */
  function Table(n: nat, sine: (int, int) -> int): (t: seq<int>)
    ensures |t| == n && forall i | 0 <= i < n :: t[i] == sine(i, n)
  {
    seq(n, (i: int) => sine(i, n))
  }

  /** The image after the pass: each pixel is read from its shifted position. */
  function Remapped(g: Raster, w: nat, h: nat, xa: seq<int>, ya: seq<int>): (r: Raster)
    requires IsRaster(g, w, h) && SamplesInside(xa, w) && SamplesInside(ya, h)
    ensures IsRaster(r, w, h)
  {
    seq(h, (y: int) requires 0 <= y < h =>
      seq(w, (x: int) requires 0 <= x < w => g[y + ya[y]][x + xa[x]]))
  }

  /** computeXArray(n) / computeYArray(n): fill a fresh array of n offsets. */
  method ComputeOffsets(n: nat, sine: (int, int) -> int) returns (a: array<int>)
    ensures fresh(a) && a[..] == Table(n, sine)
  {
    a := new int[n];
    var i := 0;
    while i < n
      invariant 0 <= i <= n
      invariant forall k | 0 <= k < i :: a[k] == sine(k, n)
    {
      a[i] := sine(i, n);
      i := i + 1;
    }
  }

  /** apply(image): snapshot the image, compute both tables, then remap every pixel from the snapshot. */
  method Apply(image: OFImage, sine: (int, int) -> int)
    requires image.Valid()
    requires SamplesInside(Table(image.width, sine), image.width)
    requires SamplesInside(Table(image.height, sine), image.height)
    modifies image.data
    ensures image.Pixels() ==
      Remapped(old(image.Pixels()), image.width, image.height, Table(image.width, sine), Table(image.height, sine))
  {
    var height := image.height;
    var width := image.width;
    var original := new OFImage.Copy(image);
    var xa := ComputeOffsets(width, sine);
    var ya := ComputeOffsets(height, sine);
    Remap(image, original, xa, ya);
  }

  /**
   * The pixel pass of apply: image.setPixel(x, y, original.getPixel(x + xa[x], y + ya[y]))
   * for every pixel, row by row.  Only the snapshot is read.
   */
  method Remap(image: OFImage, original: OFImage, xa: array<int>, ya: array<int>)
    requires image.Valid() && original.Valid() && original.data != image.data
    requires original.width == image.width && original.height == image.height
    requires SamplesInside(xa[..], image.width) && SamplesInside(ya[..], image.height)
    modifies image.data
    ensures image.Pixels() == Remapped(original.Pixels(), image.width, image.height, xa[..], ya[..])
  {
    ghost var xt, yt := xa[..], ya[..];
    var height := image.height;
    var y := 0;
    while y < height
      invariant 0 <= y <= height
      invariant forall i, j | 0 <= i < image.width && 0 <= j < y ::
        image.GetPixel(i, j) == original.GetPixel(i + xt[i], j + yt[j])
    {
      RemapRow(image, original, xa, ya, y);
      y := y + 1;
    }
    ghost var p, g := image.Pixels(), original.Pixels();
    forall j, i | 0 <= j < height && 0 <= i < image.width
      ensures p[j][i] == g[j + yt[j]][i + xt[i]]
    {
      assert p[j][i] == image.GetPixel(i, j);
    }
    RemappedExt(p, g, image.width, height, xt, yt);
  }

  /** A raster that agrees with the remapped image at every pixel is the remapped image. */
  lemma RemappedExt(p: Raster, g: Raster, w: nat, h: nat, xa: seq<int>, ya: seq<int>)
    requires IsRaster(p, w, h) && IsRaster(g, w, h) && SamplesInside(xa, w) && SamplesInside(ya, h)
    requires forall j, i | 0 <= j < h && 0 <= i < w :: p[j][i] == g[j + ya[j]][i + xa[i]]
    ensures p == Remapped(g, w, h, xa, ya)
  {
    RasterExt(p, Remapped(g, w, h, xa, ya), w, h);
  }

  /** The x loop of the pass for row y; every other row is left alone. */
  method RemapRow(image: OFImage, original: OFImage, xa: array<int>, ya: array<int>, y: nat)
    requires image.Valid() && original.Valid() && original.data != image.data
    requires original.width == image.width && original.height == image.height && y < image.height
    requires SamplesInside(xa[..], image.width) && SamplesInside(ya[..], image.height)
    modifies image.data
    ensures forall i, j | 0 <= i < image.width && 0 <= j < image.height ::
      image.GetPixel(i, j) == if j == y then original.GetPixel(i + xa[..][i], y + ya[..][y]) else old(image.GetPixel(i, j))
  {
    assert 0 <= y + ya[..][y] < image.height;
    var width := image.width;
    var x := 0;
    while x < width
      invariant 0 <= x <= width
      invariant forall i, j | 0 <= i < width && 0 <= j < image.height ::
        image.GetPixel(i, j) ==
          if j == y && i < x then original.GetPixel(i + xa[i], y + ya[y]) else old(image.GetPixel(i, j))
    {
      assert 0 <= x + xa[..][x] < width;
      image.SetPixel(x, y, original.GetPixel(x + xa[x], y + ya[y]));
      x := x + 1;
    }
  }

  /** With the platform's truncated sine, both tables are offset tables of the right length. */
  lemma TablesAreOffsetTables(w: nat, h: nat, sine: (int, int) -> int)
    requires TruncatedSine(sine)
    ensures OffsetTable(Table(w, sine), w) && OffsetTable(Table(h, sine), h)
  {
  }

  /** The pass moves each pixel by at most SCALE in each direction. */
  lemma DisplacementBounded(g: Raster, w: nat, h: nat, xa: seq<int>, ya: seq<int>, x: int, y: int)
    requires IsRaster(g, w, h) && SamplesInside(xa, w) && SamplesInside(ya, h)
    requires OffsetTable(xa, w) && OffsetTable(ya, h) && 0 <= x < w && 0 <= y < h
    ensures exists i, j | x - Scale <= i <= x + Scale && y - Scale <= j <= y + Scale && 0 <= i < w && 0 <= j < h ::
      Remapped(g, w, h, xa, ya)[y][x] == g[j][i]
  {
    var i, j := x + xa[x], y + ya[y];
    assert Remapped(g, w, h, xa, ya)[y][x] == g[j][i];
  }

  /** Row 0 and column 0 are not shifted: pixel (0, 0) keeps its colour. */
  lemma OriginFixed(g: Raster, w: nat, h: nat, xa: seq<int>, ya: seq<int>)
    requires IsRaster(g, w, h) && SamplesInside(xa, w) && SamplesInside(ya, h)
    requires OffsetTable(xa, w) && OffsetTable(ya, h) && w > 0 && h > 0
    ensures Remapped(g, w, h, xa, ya)[0][0] == g[0][0]
  {
  }

  /**
   * The in-bounds precondition is real: for width 10 the truncated table is
   * 0, 11, 19, 19, 11, 0, -11, -19, -19, -11, and column 2 samples column 21.
   */
  lemma NarrowImageSamplesOutside()
    ensures var t := [0, 11, 19, 19, 11, 0, -11, -19, -19, -11];
      OffsetTable(t, 10) && !SamplesInside(t, 10) && 2 + t[2] == 21
  {
    var t := [0, 11, 19, 19, 11, 0, -11, -19, -19, -11];
    assert !(0 <= 2 + t[2] < 10);
  }

  /**
   * The same for the model's own table: whenever the truncated sine gives 19
   * at (2, 10), as (int)(20 * sin(2 pi * 2 / 10)) does, the table for width 10
   * sends column 2 outside the image, so Apply's precondition fails for every
   * image 10 pixels wide.
   */
  lemma NarrowTableFails(sine: (int, int) -> int)
    requires sine(2, 10) == 19
    ensures Table(10, sine)[2] == 19 && !SamplesInside(Table(10, sine), 10)
  {
    assert !(0 <= 2 + Table(10, sine)[2] < 10);
  }
}
