/**
 * Pixels, colours and the OFImage pixel buffer.
 *
 * An OFImage is a fixed-size grid of packed 32-bit ARGB words, one per
 * pixel, indexed by column x and row y.  setPixel packs a colour into a word
 * (Color.getRGB) and getPixel unpacks a word back into a colour
 * (new Color(int)), which ignores the alpha byte.
 */
module Images {

  /** One colour channel: an integer in [0, 255]. */
  type Channel = c: int | 0 <= c <= 255

  /** An RGB colour; the alpha channel plays no part in the filters. */
  datatype Color = Color(red: Channel, green: Channel, blue: Channel)

  /** A pixel as stored in the image: the bit pattern of a 32-bit ARGB int, read unsigned. */
  type Word = p: int | 0 <= p < 0x1_0000_0000

  /** Color.getRGB: alpha byte 0xFF, then the red, green and blue bytes. */
  function Pack(c: Color): (p: Word)
    ensures p / 0x100_0000 == 0xFF
  {
    0xFF00_0000 + c.red * 0x1_0000 + c.green * 0x100 + c.blue
  }

  /** new Color(rgb): bits 16-23 are red, 8-15 green, 0-7 blue; bits 24-31 are ignored. */
  function Unpack(p: Word): (c: Color)
    ensures Pack(c) == 0xFF00_0000 + p % 0x100_0000
  {
    LowBytes(p);
    Color((p / 0x1_0000) % 0x100, (p / 0x100) % 0x100, p % 0x100)
  }

  /** The low three bytes of a word, read back as red, green and blue, make up its low 24 bits. */
  lemma LowBytes(p: Word)
    ensures ((p / 0x1_0000) % 0x100) * 0x1_0000 + ((p / 0x100) % 0x100) * 0x100 + p % 0x100 == p % 0x100_0000
  {
    var b, p1 := p % 0x100, p / 0x100;
    var g, p2 := p1 % 0x100, p1 / 0x100;
    var r, p3 := p2 % 0x100, p2 / 0x100;
    assert p == p1 * 0x100 + b;
    assert p1 == p2 * 0x100 + g;
    assert p2 == p3 * 0x100 + r;
    assert p == p3 * 0x100_0000 + (r * 0x1_0000 + g * 0x100 + b);
    assert p / 0x1_0000 == p2;
    assert p % 0x100_0000 == r * 0x1_0000 + g * 0x100 + b;
  }

  /** Reading back a written colour gives that colour. */
  lemma UnpackPack(c: Color)
    ensures Unpack(Pack(c)) == c
  {
    var p := Pack(c);
    assert p / 0x1_0000 == 0xFF00 + c.red;
    assert p / 0x100 == 0xFF_0000 + c.red * 0x100 + c.green;
  }

  /** The value view of an image: a sequence of rows, g[y][x]. */
  type Raster = seq<seq<Color>>

  /** g has h rows of w pixels each. */
  predicate IsRaster(g: Raster, w: nat, h: nat)
  {
    |g| == h && forall y | 0 <= y < h :: |g[y]| == w
  }

  /** Two rasters of the same size that agree on every pixel are equal. */
  lemma RasterExt(a: Raster, b: Raster, w: nat, h: nat)
    requires IsRaster(a, w, h) && IsRaster(b, w, h)
    requires forall y, x | 0 <= y < h && 0 <= x < w :: a[y][x] == b[y][x]
    ensures a == b
  {
    forall y | 0 <= y < h
      ensures a[y] == b[y]
    {
    }
  }

  /** (x, y) lies in a w x h image: 0 <= x < w and 0 <= y < h. */
  predicate Inside(w: nat, h: nat, x: int, y: int)
  {
    0 <= x < w && 0 <= y < h
  }

  class OFImage {
    const width: nat
    const height: nat
    /** data[x, y] is the word of the pixel in column x and row y. */
    const data: array2<Word>

    /** The dimensions are positive and match the storage; they never change. */
    ghost predicate Valid()
    {
      data.Length0 == width && data.Length1 == height && width > 0 && height > 0
    }

    /** (x, y) is a pixel position of this image. */
    predicate InBounds(x: int, y: int)
    {
      Inside(width, height, x, y)
    }

    /** OFImage(width, height): an image of the given size whose content is unspecified. */
    constructor (width: nat, height: nat)
      requires width > 0 && height > 0
      ensures Valid()
      ensures this.width == width && this.height == height
      ensures fresh(data)
    {
      this.width := width;
      this.height := height;
      data := new Word[width, height];
    }

    /** OFImage(image): a copy with its own storage (copyData). */
    constructor Copy(image: OFImage)
      requires image.Valid()
      ensures Valid()
      ensures width == image.width && height == image.height
      ensures fresh(data)
      ensures forall x, y | 0 <= x < width && 0 <= y < height :: data[x, y] == image.data[x, y]
      ensures Pixels() == image.Pixels()
    {
      width := image.width;
      height := image.height;
      var words := new Word[image.width, image.height];
      var y := 0;
      while y < image.height
        invariant 0 <= y <= image.height
        invariant forall i, j | 0 <= i < image.width && 0 <= j < y :: words[i, j] == image.data[i, j]
      {
        var x := 0;
        while x < image.width
          invariant 0 <= x <= image.width
          invariant forall i, j | 0 <= i < image.width && 0 <= j < y :: words[i, j] == image.data[i, j]
          invariant forall i | 0 <= i < x :: words[i, y] == image.data[i, y]
        {
          words[x, y] := image.data[x, y];
          x := x + 1;
        }
        y := y + 1;
      }
      data := words;
      new;
      assert forall y, x | 0 <= y < height && 0 <= x < width :: Pixels()[y][x] == image.Pixels()[y][x];
      RasterExt(Pixels(), image.Pixels(), width, height);
    }

    /** getPixel(x, y): the colour of an in-bounds pixel. */
    function GetPixel(x: int, y: int): Color
      reads data
      requires Valid() && InBounds(x, y)
    {
      Unpack(data[x, y])
    }

    /** setPixel(x, y, c): afterwards (x, y) reads back as c and no other pixel changed. */
    method SetPixel(x: int, y: int, c: Color)
      requires Valid() && InBounds(x, y)
      modifies data
      ensures data[x, y] == Pack(c)
      ensures GetPixel(x, y) == c
      ensures forall i, j | InBounds(i, j) && (i != x || j != y) :: data[i, j] == old(data[i, j])
      ensures forall i, j | InBounds(i, j) && (i != x || j != y) :: GetPixel(i, j) == old(GetPixel(i, j))
    {
      data[x, y] := Pack(c);
      UnpackPack(c);
    }

    /** The whole image as a raster of colours. */
    function Pixels(): (g: Raster)
      reads data
      requires Valid()
      ensures IsRaster(g, width, height)
      ensures forall y, x | 0 <= y < height && 0 <= x < width :: g[y][x] == GetPixel(x, y)
    {
      seq(height, (y: int) requires 0 <= y < height reads data =>
        seq(width, (x: int) requires 0 <= x < width reads data => Unpack(data[x, y])))
    }

    /**
     * Writes a whole raster into the image, pixel by pixel.  This stands for
     * the effect of a filter whose code is not part of this model.
     */
    method Overwrite(g: Raster)
      requires Valid() && IsRaster(g, width, height)
      modifies data
      ensures Pixels() == g
    {
      var y := 0;
      while y < height
        invariant 0 <= y <= height
        invariant forall i, j | 0 <= i < width && 0 <= j < y :: GetPixel(i, j) == g[j][i]
      {
        var x := 0;
        while x < width
          invariant 0 <= x <= width
          invariant forall i, j | 0 <= i < width && 0 <= j < y :: GetPixel(i, j) == g[j][i]
          invariant forall i | 0 <= i < x :: GetPixel(i, y) == g[y][i]
        {
          SetPixel(x, y, g[y][x]);
          x := x + 1;
        }
        y := y + 1;
      }
      RasterExt(Pixels(), g, width, height);
    }
  }
}
