/**
 * The image viewer's state and the operations on it that the model covers:
 * the filter list built at start-up (whose order is the menu order),
 * applying a filter to the current image, and the two resampling commands.
 * The window, menus, dialogs and file I/O are not part of this model.
 */
module ImageViewer {
  import opened Images
  import opened Filters

  /** The order in which createFilters registers the filters. */
  const MenuOrder: seq<Kind> := [Darker, Lighter, Threshold, Invert, Solarize, Smooth, Pixelize, Mirror, GrayScale, Edge, FishEye]

  /** The display name each filter is registered under. */
  function DisplayName(k: Kind): (name: string)
    ensures |name| > 0
  {
    match k
    case Darker => "Más oscuro"
    case Lighter => "Más claro"
    case Threshold => "Threshold"
    case Invert => "Colores invertidos"
    case Solarize => "Solarize"
    case Smooth => "Suavizar"
    case Pixelize => "Pixelizar"
    case Mirror => "Mirror"
    case GrayScale => "Escala de grises"
    case Edge => "Deteción de bordes"
    case FishEye => "Fish Eye"
  }

  /** The status line after applying a filter, or when no image is loaded. */
  const NoImageStatus := "No se cargó la imagen"

  function AppliedStatus(f: Filter): (status: string)
    ensures |status| == 10 + |f.name| && status[..10] == "Aplicado: " && status[10..] == f.name
    ensures status != NoImageStatus
  {
    var status := "Aplicado: " + f.GetName();
    assert status[0] != NoImageStatus[0];
    status
  }

  /** createFilters(): the eleven filters, one per kind, in menu order. */
  method CreateFilters() returns (filters: seq<Filter>)
    ensures |filters| == |MenuOrder|
    ensures forall i | 0 <= i < |filters| :: filters[i].kind == MenuOrder[i] && filters[i].name == DisplayName(MenuOrder[i])
  {
    filters := [];
    filters := filters + [Filter(Darker, DisplayName(Darker))];
    filters := filters + [Filter(Lighter, DisplayName(Lighter))];
    filters := filters + [Filter(Threshold, DisplayName(Threshold))];
    filters := filters + [Filter(Invert, DisplayName(Invert))];
    filters := filters + [Filter(Solarize, DisplayName(Solarize))];
    filters := filters + [Filter(Smooth, DisplayName(Smooth))];
    filters := filters + [Filter(Pixelize, DisplayName(Pixelize))];
    filters := filters + [Filter(Mirror, DisplayName(Mirror))];
    filters := filters + [Filter(GrayScale, DisplayName(GrayScale))];
    filters := filters + [Filter(Edge, DisplayName(Edge))];
    filters := filters + [Filter(FishEye, DisplayName(FishEye))];
  }

  /** Every kind is registered exactly once, and no two registered names are equal. */
  lemma RegistryDistinct()
    ensures forall k: Kind :: k in MenuOrder
    ensures forall i, j | 0 <= i < j < |MenuOrder| :: MenuOrder[i] != MenuOrder[j]
    ensures forall i, j | 0 <= i < j < |MenuOrder| :: DisplayName(MenuOrder[i]) != DisplayName(MenuOrder[j])
  {
    forall k: Kind
      ensures k in MenuOrder
    {
      match k
      case Darker => assert MenuOrder[0] == k;
      case Lighter => assert MenuOrder[1] == k;
      case Threshold => assert MenuOrder[2] == k;
      case Invert => assert MenuOrder[3] == k;
      case Solarize => assert MenuOrder[4] == k;
      case Smooth => assert MenuOrder[5] == k;
      case Pixelize => assert MenuOrder[6] == k;
      case Mirror => assert MenuOrder[7] == k;
      case GrayScale => assert MenuOrder[8] == k;
      case Edge => assert MenuOrder[9] == k;
      case FishEye => assert MenuOrder[10] == k;
    }
  }

  /**
   * The filter part of makeMenuBar: the for-each loop adds one menu item per
   * filter, in list order, labelled getName().  The result is the list of labels.
   */
  method MenuLabels(filters: seq<Filter>) returns (labels: seq<string>)
    ensures |labels| == |filters|
    ensures forall i | 0 <= i < |filters| :: labels[i] == filters[i].GetName()
  {
    labels := [];
    for i := 0 to |filters|
      invariant |labels| == i
      invariant forall k | 0 <= k < i :: labels[k] == filters[k].GetName()
    {
      labels := labels + [filters[i].GetName()];
    }
  }

  /** The filter menu as the user sees it, top to bottom. */
  const MenuNames: seq<string> := ["Más oscuro", "Más claro", "Threshold", "Colores invertidos", "Solarize",
    "Suavizar", "Pixelizar", "Mirror", "Escala de grises", "Deteción de bordes", "Fish Eye"]

  /** The menu built from a filter list created as createFilters creates it shows exactly these items, in this order. */
  lemma RegistryMenu(filters: seq<Filter>, labels: seq<string>)
    requires |filters| == |MenuOrder|
    requires forall i | 0 <= i < |filters| :: filters[i].kind == MenuOrder[i] && filters[i].name == DisplayName(MenuOrder[i])
    requires |labels| == |filters| && forall i | 0 <= i < |filters| :: labels[i] == filters[i].GetName()
    ensures labels == MenuNames
  {
    forall i | 0 <= i < |labels|
      ensures labels[i] == MenuNames[i]
    {
      assert labels[i] == DisplayName(MenuOrder[i]);
    }
  }

  /** The image makeLarger builds: each pixel becomes a 2x2 square. */
  function Larger(g: Raster, w: nat, h: nat): (r: Raster)
    requires IsRaster(g, w, h)
    ensures IsRaster(r, 2 * w, 2 * h)
  {
    seq(2 * h, (y: int) requires 0 <= y < 2 * h =>
      seq(2 * w, (x: int) requires 0 <= x < 2 * w => g[y / 2][x / 2]))
  }

  /** The image makeSmaller builds: every other pixel of every other row, from (0, 0). */
  function Smaller(g: Raster, w: nat, h: nat): (r: Raster)
    requires IsRaster(g, w, h)
    ensures IsRaster(r, w / 2, h / 2)
  {
    seq(h / 2, (y: int) requires 0 <= y < h / 2 =>
      seq(w / 2, (x: int) requires 0 <= x < w / 2 => g[2 * y][2 * x]))
  }

  /** makeLarger followed by makeSmaller gives back the original image. */
  lemma SmallerLarger(g: Raster, w: nat, h: nat)
    requires IsRaster(g, w, h)
    ensures Smaller(Larger(g, w, h), 2 * w, 2 * h) == g
  {
    RasterExt(Smaller(Larger(g, w, h), 2 * w, 2 * h), g, w, h);
  }

  class Viewer {
    /** The image shown, or null when none is loaded. */
    var currentImage: OFImage?
    /** The filter list, built once at start-up. */
    const filters: seq<Filter>
    /** The labels of the filter menu, top to bottom. */
    const menu: seq<string>

    ghost predicate Valid()
      reads this
    {
      currentImage != null ==> currentImage.Valid()
    }

    /** ImageViewer(): no image, the filter list of createFilters, and the menu built from it. */
    constructor ()
      ensures Valid() && currentImage == null
      ensures |filters| == |MenuOrder|
      ensures forall i | 0 <= i < |filters| :: filters[i].kind == MenuOrder[i] && filters[i].name == DisplayName(MenuOrder[i])
      ensures |menu| == |filters| && forall i | 0 <= i < |filters| :: menu[i] == filters[i].GetName()
      ensures menu == MenuNames
    {
      var fs := CreateFilters();
      var labels := MenuLabels(fs);
      RegistryMenu(fs, labels);
      currentImage := null;
      filters := fs;
      menu := labels;
    }

    /**
     * applyFilter(filter): with an image, apply the filter to it and report
     * its name; without one, change nothing and report that.
     */
    method ApplyFilter(filter: Filter, p: Platform) returns (status: string)
      requires Valid()
      requires currentImage != null ==>
        Applicable(filter.kind, currentImage.Pixels(), currentImage.width, currentImage.height, p)
      modifies if currentImage != null then {currentImage.data} else {}
      ensures Valid() && currentImage == old(currentImage)
      ensures currentImage == null ==> status == NoImageStatus
      ensures currentImage != null ==>
        status == AppliedStatus(filter) &&
        currentImage.Pixels() ==
          Effect(filter.kind, old(currentImage.Pixels()), currentImage.width, currentImage.height, p)
    {
      if currentImage != null {
        Filters.Apply(filter, currentImage, p);
        status := AppliedStatus(filter);
      } else {
        status := NoImageStatus;
      }
    }

    /** makeLarger(): replace the image by one twice as wide and high, each pixel copied to a 2x2 square. */
    method MakeLarger()
      requires Valid()
      modifies this
      ensures Valid()
      ensures old(currentImage) == null ==> currentImage == null
      ensures old(currentImage) != null ==>
        currentImage != null && fresh(currentImage.data) &&
        currentImage.width == 2 * old(currentImage).width && currentImage.height == 2 * old(currentImage).height &&
        currentImage.Pixels() == Larger(old(currentImage.Pixels()), old(currentImage).width, old(currentImage).height)
    {
      if currentImage != null {
        var image := currentImage;
        var newImage := new OFImage(image.width * 2, image.height * 2);
        Enlarge(image, newImage);
        currentImage := newImage;
      }
    }

    /**
     * makeSmaller(): replace the image by one half as wide and high (rounded
     * down) holding the pixels at even coordinates.  When a half-size is 0
     * the OFImage constructor throws IllegalArgumentException before
     * anything changes; `raised` reports that.
     */
    method MakeSmaller() returns (raised: bool)
      requires Valid()
      modifies this
      ensures Valid()
      ensures raised <==> old(currentImage) != null && (old(currentImage).width < 2 || old(currentImage).height < 2)
      ensures old(currentImage) == null || raised ==> currentImage == old(currentImage)
      ensures old(currentImage) != null && !raised ==>
        currentImage != null && fresh(currentImage.data) &&
        currentImage.width == old(currentImage).width / 2 && currentImage.height == old(currentImage).height / 2 &&
        currentImage.Pixels() == Smaller(old(currentImage.Pixels()), old(currentImage).width, old(currentImage).height)
    {
      raised := false;
      if currentImage != null {
        var image := currentImage;
        var width := image.width / 2;
        var height := image.height / 2;
        if width == 0 || height == 0 {
          raised := true;
          return;
        }
        var newImage := new OFImage(width, height);
        Shrink(image, newImage);
        currentImage := newImage;
      }
    }
  }

  /** The loops of makeLarger: every pixel of image is written to the 2x2 square at twice its coordinates. */
  method Enlarge(image: OFImage, newImage: OFImage)
    requires image.Valid() && newImage.Valid() && image.data != newImage.data
    requires newImage.width == 2 * image.width && newImage.height == 2 * image.height
    modifies newImage.data
    ensures newImage.Pixels() == Larger(image.Pixels(), image.width, image.height)
  {
    var height := image.height;
    var y := 0;
    while y < height
      invariant 0 <= y <= height
      invariant forall i, j | 0 <= i < newImage.width && 0 <= j < 2 * y ::
        newImage.GetPixel(i, j) == image.GetPixel(i / 2, j / 2)
    {
      EnlargeRow(image, newImage, y);
      y := y + 1;
    }
    ghost var g := image.Pixels();
    RasterExt(newImage.Pixels(), Larger(g, image.width, height), newImage.width, newImage.height);
  }

  /** The x loop of makeLarger for source row y: rows 2y and 2y+1 are filled; other rows are kept. */
  method EnlargeRow(image: OFImage, newImage: OFImage, y: nat)
    requires image.Valid() && newImage.Valid() && image.data != newImage.data
    requires newImage.width == 2 * image.width && newImage.height == 2 * image.height && y < image.height
    modifies newImage.data
    ensures forall i, j | 0 <= i < newImage.width && 0 <= j < newImage.height ::
      newImage.GetPixel(i, j) ==
        if 2 * y <= j < 2 * y + 2 then image.GetPixel(i / 2, y) else old(newImage.GetPixel(i, j))
  {
    var width := image.width;
    var x := 0;
    while x < width
      invariant 0 <= x <= width
      invariant forall i, j | 0 <= i < newImage.width && 0 <= j < newImage.height ::
        newImage.GetPixel(i, j) ==
          if 2 * y <= j < 2 * y + 2 && i < 2 * x then image.GetPixel(i / 2, y) else old(newImage.GetPixel(i, j))
    {
      var col := image.GetPixel(x, y);
      FillSquare(newImage, x * 2, y * 2, col);
      x := x + 1;
    }
  }

  /** The four setPixel calls of makeLarger for one source pixel. */
  method FillSquare(image: OFImage, x0: nat, y0: nat, c: Color)
    requires image.Valid() && x0 + 1 < image.width && y0 + 1 < image.height
    modifies image.data
    ensures forall i, j | 0 <= i < image.width && 0 <= j < image.height ::
      image.GetPixel(i, j) == if x0 <= i <= x0 + 1 && y0 <= j <= y0 + 1 then c else old(image.GetPixel(i, j))
  {
    image.SetPixel(x0, y0, c);
    image.SetPixel(x0 + 1, y0, c);
    image.SetPixel(x0, y0 + 1, c);
    image.SetPixel(x0 + 1, y0 + 1, c);
  }

  /** The loops of makeSmaller: newImage gets the pixels of image at even coordinates. */
  method Shrink(image: OFImage, newImage: OFImage)
    requires image.Valid() && newImage.Valid() && image.data != newImage.data
    requires newImage.width == image.width / 2 && newImage.height == image.height / 2
    modifies newImage.data
    ensures newImage.Pixels() == Smaller(image.Pixels(), image.width, image.height)
  {
    var height := newImage.height;
    var y := 0;
    while y < height
      invariant 0 <= y <= height
      invariant forall i, j | 0 <= i < newImage.width && 0 <= j < y ::
        newImage.GetPixel(i, j) == image.GetPixel(2 * i, 2 * j)
    {
      ShrinkRow(image, newImage, y);
      y := y + 1;
    }
    ghost var g := image.Pixels();
    RasterExt(newImage.Pixels(), Smaller(g, image.width, image.height), newImage.width, height);
  }

  /** The x loop of makeSmaller for row y of the new image; other rows are kept. */
  method ShrinkRow(image: OFImage, newImage: OFImage, y: nat)
    requires image.Valid() && newImage.Valid() && image.data != newImage.data
    requires newImage.width == image.width / 2 && newImage.height == image.height / 2 && y < newImage.height
    modifies newImage.data
    ensures forall i, j | 0 <= i < newImage.width && 0 <= j < newImage.height ::
      newImage.GetPixel(i, j) == if j == y then image.GetPixel(2 * i, 2 * y) else old(newImage.GetPixel(i, j))
  {
    var width := newImage.width;
    var x := 0;
    while x < width
      invariant 0 <= x <= width
      invariant forall i, j | 0 <= i < width && 0 <= j < newImage.height ::
        newImage.GetPixel(i, j) == if j == y && i < x then image.GetPixel(2 * i, 2 * y) else old(newImage.GetPixel(i, j))
    {
      newImage.SetPixel(x, y, image.GetPixel(x * 2, y * 2));
      x := x + 1;
    }
  }
}
