/**
 * EdgeFilter: every pixel is replaced by 255 minus the local contrast of its
 * 3x3 neighbourhood, channel by channel.  The contrast of a channel is the
 * spread max - min over the in-bounds neighbours, less a tolerance of 20 and
 * never below 0.  All neighbourhood reads go to a snapshot taken before the
 * first write.
 */
module EdgeFilter {
  import opened Images

  /** TOLERANCE: spreads up to this value count as no edge. */
  const Tolerance := 20

  /** The three channels; diffRed, diffGreen and diffBlue differ only in this choice. */
  datatype Band = Red | Green | Blue

  function ChannelOf(c: Color, band: Band): Channel
  {
    match band
    case Red => c.red
    case Green => c.green
    case Blue => c.blue
  }

  /** The values of one channel over a list of pixels, in order. */
  function Samples(ps: seq<Color>, band: Band): (cs: seq<Channel>)
    ensures |cs| == |ps| && forall k | 0 <= k < |ps| :: cs[k] == ChannelOf(ps[k], band)
  {
    seq(|ps|, (k: int) requires 0 <= k < |ps| => ChannelOf(ps[k], band))
  }

  /** The running maximum of the diff loops, which starts at 0. */
  function Highest(cs: seq<Channel>): (m: Channel)
    ensures |cs| == 0 ==> m == 0
    ensures forall k | 0 <= k < |cs| :: cs[k] <= m
  {
    if |cs| == 0 then 0
    else
      var m := Highest(cs[..|cs| - 1]);
      if cs[|cs| - 1] > m then cs[|cs| - 1] else m
  }

  /** The running minimum of the diff loops, which starts at 255. */
  function Lowest(cs: seq<Channel>): (m: Channel)
    ensures |cs| == 0 ==> m == 255
    ensures forall k | 0 <= k < |cs| :: m <= cs[k]
  {
    if |cs| == 0 then 255
    else
      var m := Lowest(cs[..|cs| - 1]);
      if cs[|cs| - 1] < m then cs[|cs| - 1] else m
  }

  /** max - min - TOLERANCE, raised to 0 when negative. */
  function Spread(cs: seq<Channel>): (d: int)
    ensures 0 <= d <= 255 - Tolerance
  {
    var difference := Highest(cs) - Lowest(cs) - Tolerance;
    if difference < 0 then 0 else difference
  }

  /** The colour edge() returns for a neighbourhood. */
  function EdgeColor(ps: seq<Color>): (r: Color)
    ensures Tolerance <= r.red && Tolerance <= r.green && Tolerance <= r.blue
    ensures |ps| == 0 ==> r == Color(255, 255, 255)
  {
    Color(255 - Spread(Samples(ps, Red)), 255 - Spread(Samples(ps, Green)), 255 - Spread(Samples(ps, Blue)))
  }

  /** The in-bounds pixels of row y with lo <= x < hi, left to right. */
  function Cells(g: Raster, w: nat, h: nat, y: int, lo: int, hi: int): (r: seq<Color>)
    requires IsRaster(g, w, h)
    ensures |r| <= if hi <= lo then 0 else hi - lo
    ensures 0 <= y < h && 0 <= lo <= hi <= w ==> |r| == hi - lo
    decreases hi - lo
  {
    if hi <= lo then []
    else Cells(g, w, h, y, lo, hi - 1) + (if Inside(w, h, hi - 1, y) then [g[y][hi - 1]] else [])
  }

  /** The in-bounds pixels of columns xpos-1 .. xpos+1 in rows lo <= y < hi, row by row. */
  function Rows(g: Raster, w: nat, h: nat, xpos: int, lo: int, hi: int): (r: seq<Color>)
    requires IsRaster(g, w, h)
    ensures |r| <= if hi <= lo then 0 else 3 * (hi - lo)
    ensures 0 <= lo <= hi <= h && 1 <= xpos < w - 1 ==> |r| == 3 * (hi - lo)
    decreases hi - lo
  {
    if hi <= lo then []
    else Rows(g, w, h, xpos, lo, hi - 1) + Cells(g, w, h, hi - 1, xpos - 1, xpos + 2)
  }

  /** The list edge() builds for (x, y): the in-bounds cells of the 3x3 window, in scan order. */
  function Neighbourhood(g: Raster, w: nat, h: nat, x: int, y: int): (r: seq<Color>)
    requires IsRaster(g, w, h)
    ensures |r| <= 9
    ensures 1 <= x < w - 1 && 1 <= y < h - 1 ==> |r| == 9
  {
    Rows(g, w, h, x, y - 1, y + 2)
  }

  /** The image after the filter. */
  function Edged(g: Raster, w: nat, h: nat): (r: Raster)
    requires IsRaster(g, w, h)
    ensures IsRaster(r, w, h)
  {
    seq(h, (y: int) requires 0 <= y < h =>
      seq(w, (x: int) requires 0 <= x < w => EdgeColor(Neighbourhood(g, w, h, x, y))))
  }

  /** apply(image): snapshot the image, then write edge(x, y) to every pixel. */
  method Apply(image: OFImage)
    requires image.Valid()
    modifies image.data
    ensures image.Pixels() == Edged(old(image.Pixels()), image.width, image.height)
  {
    var original := new OFImage.Copy(image);
    var width := original.width;
    var height := original.height;
    ghost var g := original.Pixels();
    var y := 0;
    while y < height
      invariant 0 <= y <= height
      invariant original.Valid() && original.data != image.data && original.Pixels() == g
      invariant forall i, j | 0 <= i < width && 0 <= j < height ::
        image.GetPixel(i, j) == if j < y then EdgeColor(Neighbourhood(g, width, height, i, j)) else g[j][i]
    {
      var x := 0;
      while x < width
        invariant 0 <= x <= width
        invariant original.Valid() && original.data != image.data && original.Pixels() == g
        invariant forall i, j | 0 <= i < width && 0 <= j < height ::
          image.GetPixel(i, j) ==
            if j < y || (j == y && i < x) then EdgeColor(Neighbourhood(g, width, height, i, j)) else g[j][i]
      {
        var e := Edge(original, x, y);
        image.SetPixel(x, y, e);
        x := x + 1;
      }
      y := y + 1;
    }
    RasterExt(image.Pixels(), Edged(g, width, height), width, height);
  }

  /** edge(xpos, ypos): gather the in-bounds neighbours from the snapshot and compute the colour. */
  method Edge(original: OFImage, xpos: int, ypos: int) returns (c: Color)
    requires original.Valid() && original.InBounds(xpos, ypos)
    ensures c == EdgeColor(Neighbourhood(original.Pixels(), original.width, original.height, xpos, ypos))
  {
    ghost var g := original.Pixels();
    var width := original.width;
    var height := original.height;
    var pixels: seq<Color> := [];
    var y := ypos - 1;
    while y <= ypos + 1
      invariant ypos - 1 <= y <= ypos + 2
      invariant pixels == Rows(g, width, height, xpos, ypos - 1, y)
    {
      pixels := GatherRow(original, xpos, y, pixels);
      y := y + 1;
    }
    var red := Diff(pixels, Red);
    var green := Diff(pixels, Green);
    var blue := Diff(pixels, Blue);
    c := Color(255 - red, 255 - green, 255 - blue);
  }

  /** The x loop of edge() for row y: append the in-bounds pixels of columns xpos-1 .. xpos+1. */
  method GatherRow(original: OFImage, xpos: int, y: int, pixels: seq<Color>) returns (result: seq<Color>)
    requires original.Valid()
    ensures result == pixels + Cells(original.Pixels(), original.width, original.height, y, xpos - 1, xpos + 2)
  {
    ghost var g := original.Pixels();
    result := pixels;
    var x := xpos - 1;
    while x <= xpos + 1
      invariant xpos - 1 <= x <= xpos + 2
      invariant result == pixels + Cells(g, original.width, original.height, y, xpos - 1, x)
    {
      if x >= 0 && x < original.width && y >= 0 && y < original.height {
        result := result + [original.GetPixel(x, y)];
      }
      x := x + 1;
    }
  }

  /**
   * diffRed / diffGreen / diffBlue: one pass with running max (from 0) and
   * min (from 255), then max - min - TOLERANCE, raised to 0.
   */
  method Diff(pixels: seq<Color>, band: Band) returns (difference: int)
    ensures difference == Spread(Samples(pixels, band))
  {
    ghost var cs := Samples(pixels, band);
    var max := 0;
    var min := 255;
    var k := 0;
    while k < |pixels|
      invariant 0 <= k <= |pixels|
      invariant max == Highest(cs[..k]) && min == Lowest(cs[..k])
    {
      var val := ChannelOf(pixels[k], band);
      assert cs[..k + 1][..k] == cs[..k];
      if val > max {
        max := val;
      }
      if val < min {
        min := val;
      }
      k := k + 1;
    }
    assert cs[..|pixels|] == cs;
    difference := max - min - Tolerance;
    if difference < 0 {
      difference := 0;
    }
  }

  // ---- Properties of the spread ----

  /** On a non-empty list the running maximum is the largest element. */
  lemma {:induction false} HighestIsMax(cs: seq<Channel>)
    requires |cs| > 0
    ensures Highest(cs) in cs
    ensures forall k | 0 <= k < |cs| :: cs[k] <= Highest(cs)
  {
    var init := cs[..|cs| - 1];
    if |init| > 0 {
      HighestIsMax(init);
      assert forall k | 0 <= k < |init| :: cs[k] == init[k];
    }
  }

  /** On a non-empty list the running minimum is the smallest element. */
  lemma {:induction false} LowestIsMin(cs: seq<Channel>)
    requires |cs| > 0
    ensures Lowest(cs) in cs
    ensures forall k | 0 <= k < |cs| :: Lowest(cs) <= cs[k]
  {
    var init := cs[..|cs| - 1];
    if |init| > 0 {
      LowestIsMin(init);
      assert forall k | 0 <= k < |init| :: cs[k] == init[k];
    }
  }

  /**
   * On a non-empty list the spread is max(0, largest - smallest - TOLERANCE):
   * no pair of elements differs by more than spread + TOLERANCE, and a
   * positive spread is reached by some pair.
   */
  lemma SpreadIsRange(cs: seq<Channel>)
    requires |cs| > 0
    ensures forall i, j | 0 <= i < |cs| && 0 <= j < |cs| :: cs[i] - cs[j] - Tolerance <= Spread(cs)
    ensures Spread(cs) > 0 ==> exists i, j | 0 <= i < |cs| && 0 <= j < |cs| :: Spread(cs) == cs[i] - cs[j] - Tolerance
  {
    HighestIsMax(cs);
    LowestIsMin(cs);
  }

  /** A channel that is the same over the whole list has spread 0. */
  lemma SpreadUniform(cs: seq<Channel>, v: Channel)
    requires |cs| > 0 && forall k | 0 <= k < |cs| :: cs[k] == v
    ensures Spread(cs) == 0
  {
    HighestIsMax(cs);
    LowestIsMin(cs);
  }

  // ---- Properties of the neighbourhood ----

  /** Every in-bounds pixel of the row segment is in the gathered cells. */
  lemma {:induction false} CellsComplete(g: Raster, w: nat, h: nat, y: int, lo: int, hi: int, i: int)
    requires IsRaster(g, w, h) && lo <= i < hi && Inside(w, h, i, y)
    ensures g[y][i] in Cells(g, w, h, y, lo, hi)
    decreases hi - lo
  {
    if i < hi - 1 {
      CellsComplete(g, w, h, y, lo, hi - 1, i);
    }
  }

  /** Every gathered cell is an in-bounds pixel of the row segment. */
  lemma {:induction false} CellsSound(g: Raster, w: nat, h: nat, y: int, lo: int, hi: int, k: int) returns (i: int)
    requires IsRaster(g, w, h) && 0 <= k < |Cells(g, w, h, y, lo, hi)|
    ensures lo <= i < hi && Inside(w, h, i, y) && Cells(g, w, h, y, lo, hi)[k] == g[y][i]
    decreases hi - lo
  {
    var init := Cells(g, w, h, y, lo, hi - 1);
    if k < |init| {
      i := CellsSound(g, w, h, y, lo, hi - 1, k);
    } else {
      i := hi - 1;
    }
  }

  /** Every in-bounds pixel of the rows lo .. hi-1 and columns xpos-1 .. xpos+1 is gathered. */
  lemma {:induction false} RowsComplete(g: Raster, w: nat, h: nat, xpos: int, lo: int, hi: int, i: int, j: int)
    requires IsRaster(g, w, h) && lo <= j < hi && xpos - 1 <= i <= xpos + 1 && Inside(w, h, i, j)
    ensures g[j][i] in Rows(g, w, h, xpos, lo, hi)
    decreases hi - lo
  {
    var init, last := Rows(g, w, h, xpos, lo, hi - 1), Cells(g, w, h, hi - 1, xpos - 1, xpos + 2);
    assert Rows(g, w, h, xpos, lo, hi) == init + last;
    if j < hi - 1 {
      RowsComplete(g, w, h, xpos, lo, hi - 1, i, j);
    } else {
      CellsComplete(g, w, h, j, xpos - 1, xpos + 2, i);
    }
  }

  /** Every gathered pixel lies in rows lo .. hi-1 and columns xpos-1 .. xpos+1, inside the image. */
  lemma {:induction false} RowsSound(g: Raster, w: nat, h: nat, xpos: int, lo: int, hi: int, k: int)
    returns (i: int, j: int)
    requires IsRaster(g, w, h) && 0 <= k < |Rows(g, w, h, xpos, lo, hi)|
    ensures lo <= j < hi && xpos - 1 <= i <= xpos + 1 && Inside(w, h, i, j)
    ensures Rows(g, w, h, xpos, lo, hi)[k] == g[j][i]
    decreases hi - lo
  {
    var init := Rows(g, w, h, xpos, lo, hi - 1);
    if k < |init| {
      i, j := RowsSound(g, w, h, xpos, lo, hi - 1, k);
    } else {
      j := hi - 1;
      i := CellsSound(g, w, h, j, xpos - 1, xpos + 2, k - |init|);
    }
  }

  /**
   * The colour of every in-bounds cell of the 3x3 window occurs in the
   * neighbourhood; the centre is one of them, so it is never empty.
   */
  lemma NeighbourhoodComplete(g: Raster, w: nat, h: nat, x: int, y: int)
    requires IsRaster(g, w, h) && Inside(w, h, x, y)
    ensures forall i, j | x - 1 <= i <= x + 1 && y - 1 <= j <= y + 1 && Inside(w, h, i, j) ::
      g[j][i] in Neighbourhood(g, w, h, x, y)
    ensures g[y][x] in Neighbourhood(g, w, h, x, y) && |Neighbourhood(g, w, h, x, y)| > 0
  {
    forall i, j | x - 1 <= i <= x + 1 && y - 1 <= j <= y + 1 && Inside(w, h, i, j)
      ensures g[j][i] in Neighbourhood(g, w, h, x, y)
    {
      RowsComplete(g, w, h, x, y - 1, y + 2, i, j);
    }
    RowsComplete(g, w, h, x, y - 1, y + 2, x, y);
  }

  /** Each entry of the neighbourhood is an in-bounds cell of the 3x3 window: no wrapping, no padding. */
  lemma NeighbourhoodSound(g: Raster, w: nat, h: nat, x: int, y: int)
    requires IsRaster(g, w, h) && Inside(w, h, x, y)
    ensures forall k | 0 <= k < |Neighbourhood(g, w, h, x, y)| ::
      exists i, j | x - 1 <= i <= x + 1 && y - 1 <= j <= y + 1 && Inside(w, h, i, j) ::
        Neighbourhood(g, w, h, x, y)[k] == g[j][i]
  {
    var ns := Neighbourhood(g, w, h, x, y);
    forall k | 0 <= k < |ns|
      ensures exists i, j | x - 1 <= i <= x + 1 && y - 1 <= j <= y + 1 && Inside(w, h, i, j) :: ns[k] == g[j][i]
    {
      var i, j := RowsSound(g, w, h, x, y - 1, y + 2, k);
      assert x - 1 <= i <= x + 1 && y - 1 <= j <= y + 1 && Inside(w, h, i, j) && ns[k] == g[j][i];
    }
  }

  // ---- Properties of the filter ----

  /** Every output channel lies in [TOLERANCE, 255]. */
  lemma EdgedRange(g: Raster, w: nat, h: nat, x: int, y: int)
    requires IsRaster(g, w, h) && Inside(w, h, x, y)
    ensures var c := Edged(g, w, h)[y][x];
      Tolerance <= c.red && Tolerance <= c.green && Tolerance <= c.blue
  {
  }

  /**
   * Where every in-bounds cell of the 3x3 window has the same value in a
   * channel, the output has 255 in that channel.
   */
  lemma UniformChannel(g: Raster, w: nat, h: nat, x: int, y: int, band: Band)
    requires IsRaster(g, w, h) && Inside(w, h, x, y)
    requires forall i, j | x - 1 <= i <= x + 1 && y - 1 <= j <= y + 1 && Inside(w, h, i, j) ::
      ChannelOf(g[j][i], band) == ChannelOf(g[y][x], band)
    ensures ChannelOf(Edged(g, w, h)[y][x], band) == 255
  {
    var cs := Samples(Neighbourhood(g, w, h, x, y), band);
    NeighbourhoodSamples(g, w, h, x, y, band);
    SpreadUniform(cs, ChannelOf(g[y][x], band));
    assert Edged(g, w, h)[y][x] == EdgeColor(Neighbourhood(g, w, h, x, y));
  }

  /** Under the hypothesis of UniformChannel, every sample of the neighbourhood is the centre's value. */
  lemma NeighbourhoodSamples(g: Raster, w: nat, h: nat, x: int, y: int, band: Band)
    requires IsRaster(g, w, h) && Inside(w, h, x, y)
    requires forall i, j | x - 1 <= i <= x + 1 && y - 1 <= j <= y + 1 && Inside(w, h, i, j) ::
      ChannelOf(g[j][i], band) == ChannelOf(g[y][x], band)
    ensures |Samples(Neighbourhood(g, w, h, x, y), band)| > 0
    ensures forall k | 0 <= k < |Samples(Neighbourhood(g, w, h, x, y), band)| ::
      Samples(Neighbourhood(g, w, h, x, y), band)[k] == ChannelOf(g[y][x], band)
  {
    var ns := Neighbourhood(g, w, h, x, y);
    var cs := Samples(ns, band);
    var v := ChannelOf(g[y][x], band);
    RowsComplete(g, w, h, x, y - 1, y + 2, x, y);
    forall k | 0 <= k < |cs|
      ensures cs[k] == v
    {
      var i, j := RowsSound(g, w, h, x, y - 1, y + 2, k);
      assert cs[k] == ChannelOf(ns[k], band) && ns[k] == g[j][i];
      assert ChannelOf(g[j][i], band) == v;
    }
  }


  /** A neighbourhood of one colour gives white. */
  lemma UniformWhite(g: Raster, w: nat, h: nat, x: int, y: int)
    requires IsRaster(g, w, h) && Inside(w, h, x, y)
    requires forall i, j | x - 1 <= i <= x + 1 && y - 1 <= j <= y + 1 && Inside(w, h, i, j) :: g[j][i] == g[y][x]
    ensures Edged(g, w, h)[y][x] == Color(255, 255, 255)
  {
    UniformChannel(g, w, h, x, y, Red);
    UniformChannel(g, w, h, x, y, Green);
    UniformChannel(g, w, h, x, y, Blue);
  }
}
