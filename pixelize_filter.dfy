/**
 * PixelizeFilter: the image is cut into 5x5 blocks aligned to the top-left
 * corner, and every block is filled with the colour of its top-left pixel.
 * Blocks that run past the right or bottom edge are clipped.
 */
module PixelizeFilter {
  import opened Images

  /** PIXEL_SIZE: the edge length of a block. */
  const PixelSize := 5

  /** The top-left coordinate of the block holding coordinate v. */
  function BlockStart(v: nat): (s: nat)
    ensures s <= v < s + PixelSize && s % PixelSize == 0
  {
    v - v % PixelSize
  }

  /** The image after the filter: every pixel takes its block's top-left colour. */
  function Pixelized(g: Raster, w: nat, h: nat): (r: Raster)
    requires IsRaster(g, w, h)
    ensures IsRaster(r, w, h)
  {
    seq(h, (y: int) requires 0 <= y < h =>
      seq(w, (x: int) requires 0 <= x < w => g[BlockStart(y)][BlockStart(x)]))
  }

  /** A multiple of the block size that is at most v and within one block of it is v's block start. */
  lemma BlockStartOf(s: nat, v: nat)
    requires s % PixelSize == 0 && s <= v < s + PixelSize
    ensures BlockStart(v) == s
  {
  }

  /** apply(image): block by block, sample the top-left pixel and fill the block. */
  method Apply(image: OFImage)
    requires image.Valid()
    modifies image.data
    ensures image.Pixels() == Pixelized(old(image.Pixels()), image.width, image.height)
  {
    ghost var g := image.Pixels();
    var height := image.height;
    var y := 0;
    while y < height
      invariant 0 <= y && y % PixelSize == 0 && (y > height ==> y < height + PixelSize)
      invariant forall i, j | 0 <= i < image.width && 0 <= j < height ::
        image.GetPixel(i, j) == if j < y then g[BlockStart(j)][BlockStart(i)] else g[j][i]
    {
      PixelizeBand(image, y);
      forall j | y <= j < y + PixelSize
        ensures BlockStart(j) == y
      {
        BlockStartOf(y, j);
      }
      y := y + PixelSize;
    }
    RasterExt(image.Pixels(), Pixelized(g, image.width, image.height), image.width, height);
  }

  /**
   * The x loop of apply for the band of rows y .. y+4: every block of the
   * band takes the colour its top-left pixel had before; other rows are kept.
   */
  method PixelizeBand(image: OFImage, y: nat)
    requires image.Valid() && y < image.height
    modifies image.data
    ensures forall i, j | 0 <= i < image.width && 0 <= j < image.height ::
      image.GetPixel(i, j) ==
        if y <= j < y + PixelSize then old(image.GetPixel(BlockStart(i), y)) else old(image.GetPixel(i, j))
  {
    ghost var before := image.Pixels();
    var width := image.width;
    var x := 0;
    while x < width
      invariant 0 <= x && x % PixelSize == 0 && (x > width ==> x < width + PixelSize)
      invariant forall i, j | 0 <= i < width && 0 <= j < image.height ::
        image.GetPixel(i, j) ==
          if y <= j < y + PixelSize && i < x then before[y][BlockStart(i)] else before[j][i]
    {
      var pix := image.GetPixel(x, y);
      FillBlock(image, x, y, pix);
      forall i | x <= i < x + PixelSize
        ensures BlockStart(i) == x
      {
        BlockStartOf(x, i);
      }
      x := x + PixelSize;
    }
  }

  /**
   * The two inner loops of apply: write c to every position of the block at
   * (x0, y0) that lies inside the image, and leave every other pixel alone.
   */
  method FillBlock(image: OFImage, x0: nat, y0: nat, c: Color)
    requires image.Valid()
    modifies image.data
    ensures forall i, j | 0 <= i < image.width && 0 <= j < image.height ::
      image.GetPixel(i, j) ==
        if x0 <= i < x0 + PixelSize && y0 <= j < y0 + PixelSize then c else old(image.GetPixel(i, j))
  {
    ghost var before := image.Pixels();
    var width := image.width;
    var height := image.height;
    var dy := y0;
    while dy < y0 + PixelSize
      invariant y0 <= dy <= y0 + PixelSize
      invariant forall i, j | 0 <= i < width && 0 <= j < height ::
        image.GetPixel(i, j) ==
          if x0 <= i < x0 + PixelSize && y0 <= j < dy then c else before[j][i]
    {
      var dx := x0;
      while dx < x0 + PixelSize
        invariant x0 <= dx <= x0 + PixelSize
        invariant forall i, j | 0 <= i < width && 0 <= j < height ::
          image.GetPixel(i, j) ==
            if x0 <= i < x0 + PixelSize && (y0 <= j < dy || (j == dy && i < dx)) then c
            else before[j][i]
      {
        if dx < width && dy < height {
          image.SetPixel(dx, dy, c);
        }
        dx := dx + 1;
      }
      dy := dy + 1;
    }
  }

  /** Every pixel of a block equals the original top-left pixel of that block. */
  lemma BlockUniform(g: Raster, w: nat, h: nat, x: nat, y: nat)
    requires IsRaster(g, w, h) && x < w && y < h
    ensures BlockStart(x) <= x < BlockStart(x) + PixelSize && BlockStart(y) <= y < BlockStart(y) + PixelSize
    ensures Pixelized(g, w, h)[y][x] == g[BlockStart(y)][BlockStart(x)]
    ensures Pixelized(g, w, h)[BlockStart(y)][BlockStart(x)] == g[BlockStart(y)][BlockStart(x)]
  {
    BlockStartOf(BlockStart(x), BlockStart(x));
    BlockStartOf(BlockStart(y), BlockStart(y));
  }

  /** Pixelizing twice is the same as pixelizing once. */
  lemma Idempotent(g: Raster, w: nat, h: nat)
    requires IsRaster(g, w, h)
    ensures Pixelized(Pixelized(g, w, h), w, h) == Pixelized(g, w, h)
  {
    var p := Pixelized(g, w, h);
    forall y, x | 0 <= y < h && 0 <= x < w
      ensures Pixelized(p, w, h)[y][x] == p[y][x]
    {
      BlockStartOf(BlockStart(x), BlockStart(x));
      BlockStartOf(BlockStart(y), BlockStart(y));
    }
    RasterExt(Pixelized(p, w, h), p, w, h);
  }

  /** A 1x1 image is left unchanged. */
  lemma SinglePixel(g: Raster)
    requires IsRaster(g, 1, 1)
    ensures Pixelized(g, 1, 1) == g
  {
    RasterExt(Pixelized(g, 1, 1), g, 1, 1);
  }
}
