# JavaPhotoEditor core in Dafny

This project models the core of JavaPhotoEditor, a small Swing image editor
(the "Objects First" image viewer). The model covers:

- the `OFImage` pixel store;
- the `Filter` abstraction and the concrete filters whose code is available
  (Invert, Solarize, Pixelize, Edge, FishEye, plus the per-pixel loop shared
  with Darker and Lighter);
- the image viewer's own image operations: building the filter list, applying
  a filter to the current image, and making the image larger or smaller.

Each in-place operation is a Dafny method on a class with an `array2` of
packed RGB words. Its postcondition ties the new pixels, read as a row-major
`Raster` value (`g[y][x]`), to a specification function of the old pixels.
Lemmas about those functions state what the filters promise: involution,
idempotence, channel ranges, the exact 3x3 neighbourhood, and the
larger/smaller round trip.

Files and modules:

- `images.dfy` (`Images`): colours, RGB packing, rasters, and the `OFImage` class.
- `point_filter.dfy` (`PointFilter`): the per-pixel loop of Darker, Lighter, Invert and Solarize.
- `invert_filter.dfy`, `solarize_filter.dfy`, `pixelize_filter.dfy`, `edge_filter.dfy`, `fisheye_filter.dfy`: one module per filter.
- `filters.dfy` (`Filters`): the filter kinds, names, and dispatch of `apply`.
- `image_viewer.dfy` (`ImageViewer`): the filter registry, `applyFilter`, `makeLarger` and `makeSmaller`.

Code outside the model enters as parameters, gathered in `Filters.Platform`:

- `Color.darker()` and `Color.brighter()`: floating-point AWT code.
- The truncated sine of the fish-eye tables: `Math.sin`.
- The result of the four filters whose classes are not part of this model.

## Model

| member | source | states |
|---|---|---|
| Images.Pack | OFImage.java:37-41 | the word `getRGB` gives for a colour has the opaque alpha byte 0xFF on top |
| Images.Unpack | OFImage.java:49-53 | `new Color(pixel)` ignores the alpha byte: packing the decoded colour again gives the word's low 24 bits under an opaque alpha |
| Images.UnpackPack | OFImage.java:37-53 | reading back the word `setRGB` stores for a colour gives that colour again |
| Images.OFImage.constructor | OFImage.java:25-28 | a new image has the requested width and height and fresh storage |
| Images.OFImage.Copy | OFImage.java:14-18 | the copy has the same dimensions and every pixel of the source, in fresh storage, so later writes to either image do not reach the other |
| Images.OFImage.SetPixel | OFImage.java:37-41 | afterwards `getPixel(x, y)` is the colour written; every other pixel of the image is unchanged; only an in-bounds position may be written |
| Images.OFImage.GetPixel | OFImage.java:49-53 | the colour at an in-bounds position, with every channel in [0, 255] |
| Images.OFImage.Pixels | OFImage.java:49-53 | the image as a width x height raster whose entry (x, y) is `getPixel(x, y)` |
| Images.OFImage.Overwrite | Filter.java:34 | the pixels become the given raster of the same size; stands for `apply` of a filter whose code is not part of this model |
| Filters.Filter.GetName | Filter.java:24-27 | the name given at construction |
| Filters.NameKept | Filter.java:14-27 | `getName()` of a filter built with a name returns exactly that name, whatever the filter class |
| Filters.Effect | Filter.java:29-34 | the image a filter leaves has the same width and height |
| Filters.Apply | Filter.java:34 | `apply` changes only the pixels of the given image, and they become the filter's effect on the old pixels |
| Filters.SinglePixelApplicable | PixelizeFilter.java:19-25 | every filter in the model applies to a 1x1 image; Pixelize and FishEye leave it unchanged |
| PointFilter.MapRaster | DarkerFilter.java:15-19 | each output pixel is the per-pixel function of the same input pixel, and the size is kept |
| PointFilter.MapRasterSize | LighterFilter.java:13-19 | a per-pixel pass keeps the width and height |
| PointFilter.MapPixels | InvertFilter.java:17-26 | after the y/x loop every pixel holds the per-pixel function of its old value; each pixel is read before it is written |
| InvertFilter.Invert | InvertFilter.java:22-24 | each output channel plus the input channel is 255 |
| InvertFilter.Inverted | InvertFilter.java:19-26 | the filtered raster has the same shape, and each output channel plus the input channel at the same position is 255 |
| InvertFilter.Apply | InvertFilter.java:15-27 | the new image is the inverted old image |
| InvertFilter.InvertedAt | InvertFilter.java:21-24 | output pixel (x, y) is (255 - r, 255 - g, 255 - b) of input pixel (x, y); the size is kept |
| InvertFilter.Involution | InvertFilter.java:22-24 | inverting twice gives back the original image |
| InvertFilter.TwoByTwoExample | InvertFilter.java:19-26 | a 2x2 grey image (10, 200; 50, 240) becomes (245, 55; 205, 15) |
| SolarizeFilter.SolarizeChannel | SolarizeFilter.java:20-31 | a channel up to 127 becomes 255 - c and a larger one is kept; the result always exceeds 127 |
| SolarizeFilter.Solarize | SolarizeFilter.java:19-32 | each channel of the pixel is decided on its own: one up to 127 becomes 255 - c, a larger one is kept, and every output channel exceeds 127 |
| SolarizeFilter.Solarized | SolarizeFilter.java:17-33 | the filtered raster has the same shape, and every output channel exceeds 127 |
| SolarizeFilter.Apply | SolarizeFilter.java:13-35 | the new image is the solarized old image, each channel decided on its own |
| SolarizeFilter.Boundary | SolarizeFilter.java:21-23 | 127 becomes 128 and 128 stays 128 |
| SolarizeFilter.SolarizedRange | SolarizeFilter.java:20-32 | every output channel lies in [128, 255], and the size is kept |
| SolarizeFilter.Idempotent | SolarizeFilter.java:20-32 | solarizing twice equals solarizing once |
| PixelizeFilter.BlockStart | PixelizeFilter.java:19-20 | the block start of v is the multiple of 5 at most v and within 5 of it |
| PixelizeFilter.BlockStartOf | PixelizeFilter.java:19-23 | a multiple of 5 within one block below v is v's block start |
| PixelizeFilter.Pixelized | PixelizeFilter.java:15-28 | the filtered image has the same size |
| PixelizeFilter.Apply | PixelizeFilter.java:13-30 | after the block loops, pixel (i, j) is the old pixel (i - i % 5, j - j % 5); each block's sample is read before the block is written |
| PixelizeFilter.PixelizeBand | PixelizeFilter.java:20-28 | every block of one 5-row band takes the colour its top-left pixel had before the band was written; other rows are unchanged |
| PixelizeFilter.FillBlock | PixelizeFilter.java:22-27 | exactly the in-bounds cells of one 5x5 block are set to the sample; every other pixel is unchanged |
| PixelizeFilter.BlockUniform | PixelizeFilter.java:21-25 | every pixel of a block equals the block's top-left pixel, which is itself unchanged |
| PixelizeFilter.Idempotent | PixelizeFilter.java:19-28 | pixelizing twice equals pixelizing once |
| PixelizeFilter.SinglePixel | PixelizeFilter.java:19-25 | a 1x1 image is unchanged |
| EdgeFilter.Samples | EdgeFilter.java:72-73 | the channel values of a pixel list, in list order |
| EdgeFilter.Highest | EdgeFilter.java:70-80 | the running maximum starts at 0 and is never below any value of the list |
| EdgeFilter.Lowest | EdgeFilter.java:70-80 | the running minimum starts at 255 and is never above any value of the list |
| EdgeFilter.Spread | EdgeFilter.java:81-85 | the clamped difference lies in [0, 235] |
| EdgeFilter.Diff | EdgeFilter.java:68-86 | the loop's difference is max - min - 20 over the list, raised to 0, with max starting at 0 and min at 255 |
| EdgeFilter.HighestIsMax | EdgeFilter.java:70-76 | on a non-empty list the running maximum is one of the values and no value exceeds it |
| EdgeFilter.LowestIsMin | EdgeFilter.java:71-79 | on a non-empty list the running minimum is one of the values and no value is below it |
| EdgeFilter.SpreadIsRange | EdgeFilter.java:81-85 | for a non-empty list no two values differ by more than the difference plus 20, and a positive difference is max - min - 20 for some pair of values |
| EdgeFilter.SpreadUniform | EdgeFilter.java:81-84 | a list with all values equal has difference 0 |
| EdgeFilter.EdgeColor | EdgeFilter.java:61 | every channel of the returned colour is at least 20, and an empty list gives white |
| EdgeFilter.Cells | EdgeFilter.java:54-58 | a row segment gathers at most one pixel per column, and exactly one per column when the segment lies inside the image |
| EdgeFilter.Rows | EdgeFilter.java:53-59 | the window rows gather at most three pixels per row, and exactly three when the columns and rows lie inside the image |
| EdgeFilter.Neighbourhood | EdgeFilter.java:51-59 | the list holds at most 9 pixels, the capacity `edge` allocates, and exactly 9 away from the border |
| EdgeFilter.Edged | EdgeFilter.java:28-39 | the filtered raster has the size of the image |
| EdgeFilter.Edge | EdgeFilter.java:49-62 | `edge(x, y)` gathers the in-bounds 3x3 neighbourhood of the snapshot in row order and returns 255 minus each channel's difference |
| EdgeFilter.GatherRow | EdgeFilter.java:54-58 | one row of the window appends exactly its in-bounds cells, left to right, read from the snapshot |
| EdgeFilter.Apply | EdgeFilter.java:28-39 | the new image is the edge colour of every pixel's neighbourhood in the pre-pass snapshot |
| EdgeFilter.CellsComplete | EdgeFilter.java:54-56 | every in-bounds cell of a row segment is gathered |
| EdgeFilter.CellsSound | EdgeFilter.java:54-56 | every gathered cell of a row segment is an in-bounds cell of it |
| EdgeFilter.RowsComplete | EdgeFilter.java:53-56 | every in-bounds cell of the window rows is gathered |
| EdgeFilter.RowsSound | EdgeFilter.java:53-56 | every gathered cell comes from an in-bounds position of the window |
| EdgeFilter.NeighbourhoodComplete | EdgeFilter.java:53-56 | the neighbourhood holds every in-bounds cell within distance 1; it contains (x, y), so it is never empty |
| EdgeFilter.NeighbourhoodSound | EdgeFilter.java:53-59 | every entry of the neighbourhood is an in-bounds cell within distance 1, with no wrapping or padding |
| EdgeFilter.EdgedRange | EdgeFilter.java:61 | every output channel lies in [20, 255] |
| EdgeFilter.UniformChannel | EdgeFilter.java:81-84 | a neighbourhood that is uniform in a channel gives 255 in that channel |
| EdgeFilter.NeighbourhoodSamples | EdgeFilter.java:53-59 | when the window is uniform in a channel, the neighbourhood is non-empty and every sample of that channel is the centre's value |
| EdgeFilter.UniformWhite | EdgeFilter.java:61 | a neighbourhood uniform in all channels gives white |
| FishEyeFilter.Table | FishEyeFilter.java:34-53 | the table has n entries and entry i is the truncated sine of i / n |
| FishEyeFilter.Remapped | FishEyeFilter.java:26-30 | the remapped image has the same size |
| FishEyeFilter.ComputeOffsets | FishEyeFilter.java:34-42 | `computeXArray` / `computeYArray` return a fresh array holding the table |
| FishEyeFilter.Apply | FishEyeFilter.java:17-31 | the new image's pixel (x, y) is the snapshot's pixel (x + xa[x], y + ya[y]); every sample must lie inside the image |
| FishEyeFilter.Remap | FishEyeFilter.java:26-30 | the pixel pass reads only the snapshot and writes every pixel from its shifted position |
| FishEyeFilter.RemapRow | FishEyeFilter.java:27-29 | row y is written from the snapshot at the shifted positions; other rows are unchanged |
| FishEyeFilter.TablesAreOffsetTables | FishEyeFilter.java:36-50 | the tables have lengths width and height, entry 0 is 0, and every entry is within 20 |
| FishEyeFilter.DisplacementBounded | FishEyeFilter.java:28 | every output pixel comes from an in-bounds pixel at most 20 away in each direction |
| FishEyeFilter.OriginFixed | FishEyeFilter.java:28 | pixel (0, 0) keeps its colour |
| FishEyeFilter.NarrowTableFails | FishEyeFilter.java:39-48 | for any sine that gives 19 at (2, 10), as Java's truncated sine does, the width-10 table sends column 2 outside the image, so `apply` cannot complete on an image 10 pixels wide |
| FishEyeFilter.NarrowImageSamplesOutside | FishEyeFilter.java:28-39 | for width 10 the table is a valid offset table, yet column 2 samples column 21, outside the image |
| ImageViewer.CreateFilters | ImageViewer.java:235-251 | eleven filters, one per class, in the registration order, each with its display name |
| ImageViewer.RegistryDistinct | ImageViewer.java:237-250 | every filter class is registered, no class twice, and no two display names are equal |
| ImageViewer.DisplayName | ImageViewer.java:237-249 | every filter is registered under a non-empty name; `RegistryDistinct` shows the names are pairwise different |
| ImageViewer.AppliedStatus | ImageViewer.java:119 | the status line after a filter is "Aplicado: " followed by the filter's name, and never equals the no-image message |
| ImageViewer.MenuLabels | ImageViewer.java:369-377 | the for-each loop adds one menu item per filter, in list order, labelled with `getName()` |
| ImageViewer.RegistryMenu | ImageViewer.java:237-377 | the menu built from a filter list created as `createFilters` creates it has the items, in order, "Más oscuro", "Más claro", "Threshold", "Colores invertidos", "Solarize", "Suavizar", "Pixelizar", "Mirror", "Escala de grises", "Deteción de bordes", "Fish Eye" |
| ImageViewer.Larger | ImageViewer.java:144-157 | the enlarged image is 2w x 2h |
| ImageViewer.Smaller | ImageViewer.java:173-182 | the reduced image is (w / 2) x (h / 2), using integer division |
| ImageViewer.SmallerLarger | ImageViewer.java:140-188 | making an image larger and then smaller restores it exactly |
| ImageViewer.Enlarge | ImageViewer.java:149-157 | new pixel (x', y') is old pixel (x' / 2, y' / 2) |
| ImageViewer.EnlargeRow | ImageViewer.java:150-156 | rows 2y and 2y+1 take the pixels of source row y, each twice; other rows are unchanged |
| ImageViewer.FillSquare | ImageViewer.java:151-155 | exactly the four pixels of one 2x2 square take the colour; the rest are unchanged |
| ImageViewer.Shrink | ImageViewer.java:178-182 | new pixel (x, y) is old pixel (2x, 2y), always in bounds |
| ImageViewer.ShrinkRow | ImageViewer.java:179-181 | new row y takes the old pixels (2x, 2y); other rows are unchanged |
| ImageViewer.Viewer.constructor | ImageViewer.java:33-38 | no image is loaded, the filter list is the one `createFilters` builds, and the filter menu holds one item per filter labelled with its name, which are the eleven display names in registration order |
| ImageViewer.Viewer.ApplyFilter | ImageViewer.java:114-124 | with an image, the filter is applied and the status is "Aplicado: " plus its name; without one, nothing changes and the status says no image is loaded |
| ImageViewer.Viewer.MakeLarger | ImageViewer.java:140-163 | with no image nothing changes; otherwise the image is replaced by a fresh one of twice the size, each old pixel copied to a 2x2 square |
| ImageViewer.Viewer.MakeSmaller | ImageViewer.java:169-188 | with no image nothing changes; a half-size of 0 raises and leaves the image; otherwise the image is replaced by a fresh half-size one of the pixels at even coordinates |

## Left out

- The Swing user interface is not modelled: ImagePanel.java, the frame and menu construction apart from the filter menu's labels, the about box, the file-name and status labels, the buttons, `quit`, and the `repaint`/`pack` calls. It is display code with no state the image operations depend on.
- ImageFileManager.java and `openFile`, `saveAs` and `close` are not modelled. They are file dialogs and ImageIO encoding and decoding, which is I/O through a library.
- `Color.darker()` and `Color.brighter()` are parameters (`Platform.darker`, `Platform.brighter`), so no numeric claim is made about Darker and Lighter. Their floating-point factor is library code.
- `Math.sin` is a parameter. `sine(i, n)` stands for the truncated value `(int)(sin(i / n * 2 pi) * 20)`. `(int)(Math.sin(i / n * 2 pi) * 20)` lies in [-20, 20] and is 0 at i = 0, so it satisfies `FishEyeFilter.TruncatedSine`.
- ThresholdFilter, SmoothFilter, MirrorFilter and GrayScaleFilter are not part of this model. They are registered by name, and their effect is the parameter `Platform.unseen`, assumed only to keep the image size.
- The colour model, alpha channel and premultiplication of `BufferedImage` are not modelled. A pixel is an RGB triple, stored as the opaque ARGB word `0xFF000000 + rgb`.
- `Images.OFImage.Copy` copies the words of an image of the model's own type. It does not model copying an arbitrary `BufferedImage` raster.
- ImageViewer.Viewer.MakeLarger: `width * 2` is unbounded here. The Java `int` overflow and the memory limit for very large images are not modelled.
- FishEyeFilter.Apply: a sample outside the image makes the Java code throw part-way through the pass. The model requires every sample to be inside, and `NarrowImageSamplesOutside` and `NarrowTableFails` show that this requirement fails for width 10.
- EdgeFilter.Apply: the filter object's `original`, `width` and `height` fields are locals of the pass. The snapshot therefore does not stay reachable from the filter after `apply` returns.
- ImageViewer.Viewer.MakeSmaller: the IllegalArgumentException is returned as the result `raised`, not propagated.
- The code is followed where its documentation differs:
  - FishEye does not clamp sample coordinates; hence the precondition above.
  - FishEye truncates the scaled sine rather than rounding it.
  - EdgeFilter computes a max - min spread, not an average, whatever its comments say.
