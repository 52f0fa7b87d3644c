# Polygon coverage and bounding-box geometry, modelled in Dafny

The scripts under `scr/` measure how much of an image the objects of a
YOLO annotation cover. A YOLO polygon annotation is a flat list of
normalised values `x1 y1 x2 y2 ...`, each a fraction of the image extent.
The scripts:

- turn the list into pixel vertices (`normalize_to_pixel_coords`);
- take the polygon's area with the vectorised shoelace formula
  `0.5 * |x . roll(y, 1) - y . roll(x, 1)|` (`calculate_polygon_area`);
- express the area as a percentage of `width * height`;
- add the per-annotation areas and percentages into dataset totals.

A separate helper, `bounding_box_coordinates`, converts a YOLO box (centre
and size as fractions) into integer pixel corners with Python `int()`, which
truncates toward zero.

This project models that core over exact `real` arithmetic. It has four
modules:

- `Shoelace` (`shoelace.dfy`):
  - the numpy form of the area, with `Xs`/`Ys` as the `coords[:, 0]` and
    `coords[:, 1]` columns, `Roll` as `np.roll(·, 1)` and `Dot` as `np.dot`;
  - an independent edge-by-edge reference definition, `CyclicSum` and
    `ShoelaceArea`;
  - a proof that the two forms agree;
  - the area laws: non-negativity, rotation and reversal invariance,
    degenerate polygons, the repeated closing vertex, axis scaling, and two
    closed-form shapes.
- `PixelCoords` (`pixel_coords.dfy`):
  - the denormalisation, as the recursive `Denormalize` and as the loop
    `NormalizeToPixelCoords`;
  - its inverse;
  - how the pixel area scales with the image extent.
- `Coverage` (`coverage.dfy`):
  - the percentage;
  - the analysis loop's per-annotation `Measure`;
  - the dataset totals;
  - the single-polygon script `CoverScript`;
  - two worked examples.
- `BoundingBoxes` (`bbox.dfy`): truncation toward zero and the box-to-corners
  conversion.

Image widths and heights are `real` parameters. The scripts read no files
and no clock in the modelled part: the image size and the annotations are
inputs.

Two behaviours of the code are worth knowing:

- Degenerate polygons are not rejected: one or two vertices give area 0 and
  no error is raised (`DegenerateAreaZero`).
- Box corners are truncated, not rounded: the box (10, 10, 0.05, 0.05, 0.2,
  0.2) gives (0, 0, 1, 1) because `int(-0.5)` is 0 and `int(1.5)` is 1
  (`BoxNearCorner`).

## Model

| member | source | states |
|---|---|---|
| Shoelace.Roll | scr/shoelace-complex.py:23 | `np.roll(s, 1)` keeps the length, puts the last element first and moves every other element one place right |
| Shoelace.PolygonArea | scr/shoelace-complex.py:18-24 | the vectorised numpy area equals the edge-by-edge shoelace area `ShoelaceArea`, so it is never negative |
| Shoelace.VectorisedIsCyclicSum | scr/shoelace-complex.py:23 | `x . roll(y) - y . roll(x)` equals the sum of the cross terms of every polygon edge, including the edge from the last vertex back to the first |
| Shoelace.ShoelaceArea | scr/shoelace-complex.py:23 | half the absolute value of the edge sum is never negative |
| Shoelace.AreaNonNegative | scr/shoelace-complex.py:23 | the area of any non-empty vertex list is at least 0 |
| Shoelace.AreaRotationInvariant | scr/shoelace-complex.py:23 | starting the vertex cycle at any vertex gives the same area |
| Shoelace.CyclicSumRotate | scr/shoelace-complex.py:23 | the signed edge sum does not depend on which vertex starts the cycle |
| Shoelace.AreaReversalInvariant | scr/shoelace-complex.py:23 | listing the vertices in the opposite order gives the same area |
| Shoelace.CyclicSumReverse | scr/shoelace-complex.py:23 | reversing the vertex order negates the signed edge sum |
| Shoelace.DegenerateAreaZero | scr/shoelace-complex.py:18-23 | one or two vertices give area exactly 0, and no error is raised |
| Shoelace.ClosingVertexNoEffect | scr/per-cover-shoelace.py:51-53 | appending a copy of the first vertex leaves the area unchanged |
| Shoelace.AreaScale | scr/shoelace-complex.py:23 | scaling every x by w and every y by h multiplies the area by abs(w)*abs(h) |
| Shoelace.AreaScalePositive | scr/shoelace-complex.py:23 | for w*h > 0 the area is multiplied by exactly w*h |
| Shoelace.ChainSumScale | scr/shoelace-complex.py:23 | the open-path cross-term sum of a scaled polygon is w*h times the original sum |
| Shoelace.RightTriangleArea | scr/shoelace-complex.py:23 | the triangle (0,0), (a,0), (0,b) has area abs(a*b)/2 |
| Shoelace.RectangleArea | scr/shoelace-complex.py:23 | the rectangle (0,0), (a,0), (a,b), (0,b) has area abs(a*b) |
| PixelCoords.Denormalize | scr/shoelace-complex.py:38-43 | a list of even length 2n yields n vertices |
| PixelCoords.DenormalizeAt | scr/shoelace-complex.py:39-42 | vertex i is `(c[2i]*W, c[2i+1]*H)`, in the original order |
| PixelCoords.DenormalizeEveryVertex | scr/shoelace-complex.py:39-42 | every vertex i is `(c[2i]*W, c[2i+1]*H)` |
| PixelCoords.NormalizeToPixelCoords | scr/shoelace-complex.py:38-43 | the loop stepping by two values returns n vertices, vertex i is `(c[2i]*W, c[2i+1]*H)`, and the result is `Denormalize` |
| PixelCoords.DenormalizeRoundTrip | scr/shoelace-complex.py:40-41 | dividing the vertices back by a non-zero W and H and flattening recovers the annotation |
| PixelCoords.DenormalizeIsScale | scr/shoelace-complex.py:40-41 | denormalising against (W, H) scales the raw normalised polygon by W in x and H in y |
| PixelCoords.DenormalizedAreaScales | scr/shoelace-complex.py:110-113 | for W*H > 0 the pixel area is W*H times the area of the raw normalised polygon |
| PixelCoords.RescaledImageArea | scr/shoelace-complex.py:110-113 | enlarging the image by factors a and b with a*b > 0 multiplies the pixel area by a*b |
| PixelCoords.DoubledImageQuadruplesArea | scr/shoelace-complex.py:110-113 | doubling both image dimensions multiplies the pixel area by 4 |
| PixelCoords.DenormalizeClosed | scr/per-cover-shoelace.py:35-45 | an annotation that repeats its first (x, y) pair at the end denormalises to the open polygon with its first vertex repeated at the end |
| PixelCoords.ClosedAnnotationSameArea | scr/per-cover-shoelace.py:35-53 | an annotation that repeats its first (x, y) pair at the end has the same pixel area as without the repeat |
| Coverage.Percentage | scr/shoelace-complex.py:114 | `(area / image_area) * 100` for a non-zero image area; the function has no ensures of its own, and PercentageMeaning states what the value means |
| Coverage.PercentageMeaning | scr/shoelace-complex.py:114 | the percentage times the image area is 100 times the area; it is exactly 100 when the area equals the image area; for a positive image area it is non-negative exactly when the area is, and at most 100 when the area does not exceed the image |
| Coverage.PercentageAdditive | scr/shoelace-complex.py:114 | the percentage of a sum of areas is the sum of their percentages |
| Coverage.Measure | scr/shoelace-complex.py:109-123 | one annotation's record keeps its class id, its pixel vertices are the denormalised list, its area is the shoelace area of those vertices and is non-negative, and its percentage is that area's percentage of W*H |
| Coverage.PercentageIsNormalisedArea | scr/shoelace-complex.py:110-114 | for W*H > 0 the recorded percentage is 100 times the area of the raw normalised polygon, whatever the image size |
| Coverage.FullCoverageIsHundred | scr/shoelace-complex.py:113-114 | a polygon whose area equals the image area is recorded as 100 percent |
| Coverage.AnalyzeAnnotations | scr/shoelace-complex.py:108-123 | the analysis loop yields one record per annotation, in input order, each the annotation's `Measure` |
| Coverage.TotalArea | scr/shoelace-complex.py:143 | `sum(r['area_pixels'] for r in results)`: the records' areas added from the front; TotalsAppend and TotalAreaNonNegative state its properties |
| Coverage.TotalCoverage | scr/shoelace-complex.py:137-140 | `total_coverage += r['percentage']`: the records' percentages added from the front; TotalsAppend and TotalCoverageOfTotalArea state its properties |
| Coverage.Totals | scr/shoelace-complex.py:137-143 | the accumulated `total_coverage` and the summed `area_pixels` are the plain sums of the records' percentages and areas |
| Coverage.TotalsAppend | scr/shoelace-complex.py:137-143 | the totals of two concatenated result lists are the sums of their totals |
| Coverage.DuplicatesCountTwice | scr/shoelace-complex.py:137-143 | no overlap is removed: listing the same results twice doubles both totals, so total coverage can exceed 100 |
| Coverage.TotalCoverageOfTotalArea | scr/shoelace-complex.py:137-143 | for results of one image, the total coverage is the percentage of the total area |
| Coverage.TotalAreaNonNegative | scr/shoelace-complex.py:143 | a total of non-negative areas is non-negative |
| Coverage.AnalysisTotals | scr/shoelace-complex.py:108-143 | the analysis of one image has a non-negative total area, and its total coverage is the percentage of that total area |
| Coverage.TriangleExample | scr/shoelace-complex.py:108-114 | the annotation `0 0 0.4 0 0 0.3` on a 10 by 10 image has vertices (0,0), (4,0), (0,3), area 6 and coverage 6 percent |
| Coverage.UnitSquareCoversImage | scr/shoelace-complex.py:108-114 | the unit-square annotation `0 0 1 0 1 1 0 1` covers 100 percent of any image with W*H > 0 |
| Coverage.CoverScript | scr/per-cover-shoelace.py:41-57 | the script's inline loop gives the same vertices as `normalize_to_pixel_coords`; its inline expression gives the same non-negative area as `calculate_polygon_area`; its percentage is that area's percentage of W*H, which is 100 times the normalised area when W*H > 0 |
| BoundingBoxes.Trunc | scr/bboxCord.py:9-12 | `int()` of a non-negative value lies at most 1 below it; of a negative value, at most 1 above it |
| BoundingBoxes.TruncUnique | scr/bboxCord.py:9-12 | the truncation of r is the only integer within those bounds of r |
| BoundingBoxes.TruncMonotone | scr/bboxCord.py:9-12 | truncation is monotone |
| BoundingBoxes.TruncNegate | scr/bboxCord.py:9-12 | truncation is symmetric about zero: `int(-r) == -int(r)` |
| BoundingBoxes.TruncOfInteger | scr/bboxCord.py:9-12 | an integral value is unchanged |
| BoundingBoxes.TruncTowardZero | scr/bboxCord.py:9-12 | truncation moves toward zero and by less than 1 |
| BoundingBoxes.TruncIsNotFloor | scr/bboxCord.py:9 | `int(-0.5)` is 0, while floor gives -1 |
| BoundingBoxes.CornersOrdered | scr/bboxCord.py:9-12 | with a non-negative half extent, the lower corner never exceeds the upper one |
| BoundingBoxes.BoundingBoxCoordinates | scr/bboxCord.py:1-14 | each corner is its exact value (centre pixel minus or plus half the pixel extent) truncated toward zero, so it lies within 1 of that value; along an axis with non-negative pixel extent the minimum does not exceed the maximum |
| BoundingBoxes.BoxCornersAreTruncations | scr/bboxCord.py:3-12 | each corner equals the truncation of its exact value |
| BoundingBoxes.BoxAxesIndependent | scr/bboxCord.py:3-12 | the x corners do not depend on the height inputs, and the y corners do not depend on the width inputs |
| BoundingBoxes.BoxAxesSymmetric | scr/bboxCord.py:3-12 | both axes use the same formula: swapping the x and y inputs swaps the corners |
| BoundingBoxes.BoxCentredOnOrigin | scr/bboxCord.py:3-12 | a box centred at 0 has mirrored corners, `xmin == -xmax` and `ymin == -ymax` |
| BoundingBoxes.BoxFullImage | scr/bboxCord.py:3-12 | the whole-image box (0.5, 0.5, 1, 1) gives (0, 0, W, H) for any integral W and H |
| BoundingBoxes.BoxNearCorner | scr/bboxCord.py:3-12 | (10, 10, 0.05, 0.05, 0.2, 0.2) gives (0, 0, 1, 1): the exact corners -0.5 and 1.5 truncate to 0 and 1 |
| BoundingBoxes.BoxNotClamped | scr/bboxCord.py:9-14 | nothing clamps the corners: (100, 100, 0, 1, 0.5, 0.5) gives (-25, 75, 25, 125) |

## Left out

- Plotting: masks, `PatchCollection`, `savefig` and the centroid used only to place labels (scr/shoelace-complex.py:145-244), together with the plot lists `polygons_for_plot` and `polygon_colors` (scr/shoelace-complex.py:104-105) and the `PlotPolygon(pixel_coords, True)` patch and `colors[class_id]` lookup the analysis loop prepares for them (scr/shoelace-complex.py:125-127). It is presentation and file output, except lines 209-214 of `visualize_real_example`, which recompute one polygon's area and percentage on a 360 by 360 image; that computation is `Coverage.Measure(Annotation(class_id, coords), 360.0, 360.0)` and is modelled.
- Printing and report formatting (scr/shoelace-complex.py:129-143 as text, scr/shoelace-complex.py:246-258, scr/per-cover-shoelace.py:59-65). The totals it prints are modelled.
- `parse_yolo_polygon` (scr/shoelace-complex.py:45-59). It depends on Python's `float()` text parsing; the model takes the parsed class id and values as input.
- The demo data (the hard-coded annotations, image sizes, class-name and colour tables). The `class_names[class_id]` lookup is left out with them, including the `KeyError` it raises for an unknown class id.
- Floating point: every value is an exact real. numpy float64 rounding, overflow, and the inf or nan of a division by a zero image area are not modelled.
- Coverage.Percentage requires a non-zero image area. numpy returns inf or nan there, and exact reals have no such values.
- Shoelace.PolygonArea and Coverage.Measurable require a non-empty vertex list. For an empty one, `np.array([])` is one-dimensional and `coords[:, 0]` raises.
- PixelCoords.Denormalize requires an even-length list. On an odd length the loop reads `normalized_coords[i+1]` past the end and raises.
- Shoelace.AreaScale states `abs(w)*abs(h)` rather than `w*h`. A reflection (a negative factor) keeps the area non-negative; AreaScalePositive gives the exact `w*h` form for `w*h > 0`.
