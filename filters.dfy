/**
 * The Filter contract: a filter has a name, fixed when it is built, and one
 * operation, apply(image), that changes the given image in place and
 * nothing else.  The set of filters is closed, so a filter is a value that
 * carries its kind, and Apply dispatches on the kind.
 */
module Filters {
  import opened Images
  import PointFilter
  import InvertFilter
  import SolarizeFilter
  import PixelizeFilter
  import EdgeFilter
  import FishEyeFilter

  /** The concrete filter classes the application registers. */
  datatype Kind =
    | Darker | Lighter | Threshold | Invert | Solarize | Smooth
    | Pixelize | Mirror | GrayScale | Edge | FishEye
  {
    /** The kinds whose apply code is not part of this model. */
    predicate Unseen()
    {
      this in {Threshold, Smooth, Mirror, GrayScale}
    }
  }

  /**
   * A filter: its class and the name passed to its constructor, which every
   * subclass forwards unchanged to Filter(name).  There is no setter.
   */
  datatype Filter = Filter(kind: Kind, name: string)
  {
    /** getName(): the name given at construction. */
    function GetName(): string
    {
      name
    }
  }

  /**
   * Code outside the model that apply depends on: Color.darker() and
   * Color.brighter(), the truncated sine of the fish-eye tables, and the
   * effect of the filters whose source is not part of this model.
   */
  datatype Platform = Platform(
    darker: Color -> Color,
    brighter: Color -> Color,
    sine: (int, int) -> int,
    unseen: (Kind, Raster) -> Raster)

  /** When apply completes: fish-eye samples stay inside, and unseen filters keep the size. */
  predicate Applicable(k: Kind, g: Raster, w: nat, h: nat, p: Platform)
  {
    match k
    case FishEye =>
      FishEyeFilter.SamplesInside(FishEyeFilter.Table(w, p.sine), w)
      && FishEyeFilter.SamplesInside(FishEyeFilter.Table(h, p.sine), h)
    case Threshold | Smooth | Mirror | GrayScale => IsRaster(p.unseen(k, g), w, h)
    case _ => true
  }

  /** The image a filter of kind k leaves behind. */
  function Effect(k: Kind, g: Raster, w: nat, h: nat, p: Platform): (r: Raster)
    requires IsRaster(g, w, h) && Applicable(k, g, w, h, p)
    ensures IsRaster(r, w, h)
  {
    match k
    case Darker => PointFilter.MapRasterSize(g, p.darker, w, h); PointFilter.MapRaster(g, p.darker)
    case Lighter => PointFilter.MapRasterSize(g, p.brighter, w, h); PointFilter.MapRaster(g, p.brighter)
    case Invert => PointFilter.MapRasterSize(g, InvertFilter.Invert, w, h); InvertFilter.Inverted(g)
    case Solarize => PointFilter.MapRasterSize(g, SolarizeFilter.Solarize, w, h); SolarizeFilter.Solarized(g)
    case Pixelize => PixelizeFilter.Pixelized(g, w, h)
    case Edge => EdgeFilter.Edged(g, w, h)
    case FishEye =>
      FishEyeFilter.Remapped(g, w, h, FishEyeFilter.Table(w, p.sine), FishEyeFilter.Table(h, p.sine))
    case Threshold | Smooth | Mirror | GrayScale => p.unseen(k, g)
  }

  /** filter.apply(image): only the image's pixels change. */
  method Apply(f: Filter, image: OFImage, p: Platform)
    requires image.Valid() && Applicable(f.kind, image.Pixels(), image.width, image.height, p)
    modifies image.data
    ensures image.Pixels() == Effect(f.kind, old(image.Pixels()), image.width, image.height, p)
  {
    match f.kind
    case Darker => PointFilter.MapPixels(image, p.darker);
    case Lighter => PointFilter.MapPixels(image, p.brighter);
    case Invert => InvertFilter.Apply(image);
    case Solarize => SolarizeFilter.Apply(image);
    case Pixelize => PixelizeFilter.Apply(image);
    case Edge => EdgeFilter.Apply(image);
    case FishEye => FishEyeFilter.Apply(image, p.sine);
    case Threshold | Smooth | Mirror | GrayScale => image.Overwrite(p.unseen(f.kind, image.Pixels()));
  }

  /** getName() returns exactly the constructor's name, whatever the kind. */
  lemma NameKept(k: Kind, name: string)
    ensures Filter(k, name).GetName() == name
  {
  }

  /**
   * Every filter whose code is part of this model can be applied to a 1x1
   * image (a fish-eye table of length 1 holds only its 0 entry), and
   * Pixelize and FishEye leave such an image unchanged.
   */
  lemma SinglePixelApplicable(k: Kind, g: Raster, p: Platform)
    requires IsRaster(g, 1, 1) && FishEyeFilter.TruncatedSine(p.sine) && !k.Unseen()
    ensures Applicable(k, g, 1, 1, p)
    ensures k == Pixelize || k == FishEye ==> Effect(k, g, 1, 1, p) == g
  {
    if k == Pixelize {
      PixelizeFilter.SinglePixel(g);
    } else if k == FishEye {
      var t := FishEyeFilter.Table(1, p.sine);
      assert t[0] == 0;
      RasterExt(Effect(k, g, 1, 1, p), g, 1, 1);
    }
  }
}
