/**
 Coverage figures: the share of the image a polygon annotation covers, the
 per-annotation measurements of the multi-class analysis, the dataset totals,
 and the single-polygon script.

 The percentage is `area / image_area * 100` with `image_area` the product
 of the image width and height. numpy divides a float64 by a zero image area
 without raising (the result is inf or nan), so the model requires a
 non-zero image area.
 */
module Coverage {
  import opened Shoelace
  import opened PixelCoords

  /** `(area / image_area) * 100`. */
  function Percentage(area: real, imageArea: real): real
    requires imageArea != 0.0
  {
    area / imageArea * 100.0
  }

  /**
   What a percentage means: it is the area in hundredths of the image area,
   it is exactly 100 for a polygon as large as the image, and for a positive
   image area it is non-negative exactly when the area is and at most 100
   when the area does not exceed the image.
   */
  lemma PercentageMeaning(area: real, imageArea: real)
    requires imageArea != 0.0
    ensures Percentage(area, imageArea) * imageArea == 100.0 * area
    ensures area == imageArea ==> Percentage(area, imageArea) == 100.0
    ensures 0.0 < imageArea ==> (0.0 <= Percentage(area, imageArea) <==> 0.0 <= area)
    ensures 0.0 < imageArea && area <= imageArea ==> Percentage(area, imageArea) <= 100.0
  {
  }

  /** Percentages of the same image add up: the percentage of a sum is the sum of the percentages. */
  lemma PercentageAdditive(a: real, b: real, imageArea: real)
    requires imageArea != 0.0
    ensures Percentage(a + b, imageArea) == Percentage(a, imageArea) + Percentage(b, imageArea)
  {
    assert (a + b) / imageArea == a / imageArea + b / imageArea;
  }

  /** If the area is w*h times x, its percentage of a w-by-h image is 100*x. */
  lemma PercentageOfScaledArea(area: real, x: real, w: real, h: real)
    requires w * h != 0.0
    requires area == w * h * x
    ensures Percentage(area, w * h) == 100.0 * x
  {
  }

  /** One YOLO polygon annotation: a class id and the flat normalised list `x1 y1 x2 y2 ...`. */
  datatype Annotation = Annotation(classId: int, coords: seq<real>)

  /** What the analysis records for one annotation. */
  datatype Measurement = Measurement(classId: int, area: real, percentage: real, pixels: seq<Point>)

  /**
   An annotation the analysis can measure: an odd-length list fails when
   the denormalisation loop reads the missing y, and an empty one makes the
   vertex array one-dimensional, so that taking its x column fails.
   */
  predicate Measurable(a: Annotation)
  {
    |a.coords| > 0 && |a.coords| % 2 == 0
  }

  /** The body of the analysis loop for one annotation: denormalise, take the area, take the percentage. */
  function Measure(a: Annotation, w: real, h: real): (m: Measurement)
    requires Measurable(a)
    requires w * h != 0.0
    ensures m.classId == a.classId
    ensures m.pixels == Denormalize(a.coords, w, h) && |m.pixels| == |a.coords| / 2
    ensures m.area == ShoelaceArea(m.pixels) && m.area >= 0.0
    ensures m.percentage == Percentage(m.area, w * h)
  {
    var pixels := Denormalize(a.coords, w, h);
    var area := PolygonArea(pixels);
    Measurement(a.classId, area, Percentage(area, w * h), pixels)
  }

  /**
   For a positive image extent the recorded percentage depends only on the
   annotation: it is 100 times the area of the raw normalised polygon.
   */
  lemma PercentageIsNormalisedArea(a: Annotation, w: real, h: real)
    requires Measurable(a)
    requires w * h > 0.0
    ensures Measure(a, w, h).percentage == 100.0 * PolygonArea(Denormalize(a.coords, 1.0, 1.0))
  {
    var raw := Denormalize(a.coords, 1.0, 1.0);
    PercentageIsNormalisedShoelaceArea(a, w, h);
    HundredTimes(Measure(a, w, h).percentage, ShoelaceArea(raw), PolygonArea(raw));
  }

  lemma PercentageIsNormalisedShoelaceArea(a: Annotation, w: real, h: real)
    requires Measurable(a)
    requires w * h > 0.0
    ensures Measure(a, w, h).percentage == 100.0 * ShoelaceArea(Denormalize(a.coords, 1.0, 1.0))
  {
    var m, raw := Measure(a, w, h), Denormalize(a.coords, 1.0, 1.0);
    DenormalizedShoelaceScales(a.coords, w, h);
    PercentageOfScaledReference(m.percentage, m.area, ShoelaceArea(raw), ShoelaceArea(raw), w, h);
  }

  /** Solver hint: substitutes an equal area into a percentage fact, away from the unfolded area definitions. */
  lemma HundredTimes(pct: real, ref: real, x: real)
    requires pct == 100.0 * ref && x == ref
    ensures pct == 100.0 * x
  {
  }

  /** Solver hint: a percentage of a scaled reference area, stated over plain reals. */
  lemma PercentageOfScaledReference(pct: real, area: real, ref: real, x: real, w: real, h: real)
    requires w * h != 0.0
    requires pct == Percentage(area, w * h)
    requires area == w * h * ref && x == ref
    ensures pct == 100.0 * x
  {
    PercentageOfScaledArea(area, x, w, h);
  }

  /** A polygon covering exactly the image area is recorded as 100 percent. */
  lemma FullCoverageIsHundred(a: Annotation, w: real, h: real)
    requires Measurable(a)
    requires w * h != 0.0
    requires PolygonArea(Denormalize(a.coords, w, h)) == w * h
    ensures Measure(a, w, h).percentage == 100.0
  {
  }

  /** The analysis loop: one measurement per annotation, in the input order. */
  method AnalyzeAnnotations(anns: seq<Annotation>, w: real, h: real) returns (results: seq<Measurement>)
    requires forall i :: 0 <= i < |anns| ==> Measurable(anns[i])
    requires w * h != 0.0
    ensures |results| == |anns|
    ensures forall i :: 0 <= i < |anns| ==> results[i] == Measure(anns[i], w, h)
  {
    results := [];
    var k := 0;
    while k < |anns|
      invariant 0 <= k <= |anns|
      invariant |results| == k
      invariant forall i :: 0 <= i < k ==> results[i] == Measure(anns[i], w, h)
    {
      var m := Measure(anns[k], w, h);
      var prev := results;
      results := prev + [m];
      assert forall i :: 0 <= i < k ==> results[i] == prev[i];
      k := k + 1;
    }
  }

  /* ---------------------------------------------------------------------
     Dataset totals
     --------------------------------------------------------------------- */

  /** `sum(r['area_pixels'] for r in results)`, added from the front. */
  function TotalArea(rs: seq<Measurement>): real
  {
    if |rs| == 0 then 0.0 else TotalArea(rs[..|rs| - 1]) + rs[|rs| - 1].area
  }

  /** The accumulated `total_coverage`: every percentage added, from the front. */
  function TotalCoverage(rs: seq<Measurement>): real
  {
    if |rs| == 0 then 0.0 else TotalCoverage(rs[..|rs| - 1]) + rs[|rs| - 1].percentage
  }

  /** The report's totals: `total_coverage += r['percentage']` over the results, and the sum of the areas. */
  method Totals(rs: seq<Measurement>) returns (totalArea: real, totalCoverage: real)
    ensures totalArea == TotalArea(rs)
    ensures totalCoverage == TotalCoverage(rs)
  {
    totalCoverage := 0.0;
    totalArea := 0.0;
    var k := 0;
    while k < |rs|
      invariant 0 <= k <= |rs|
      invariant totalCoverage == TotalCoverage(rs[..k])
      invariant totalArea == TotalArea(rs[..k])
    {
      assert rs[..k + 1][..k] == rs[..k];
      totalCoverage := totalCoverage + rs[k].percentage;
      totalArea := totalArea + rs[k].area;
      k := k + 1;
    }
    assert rs[..k] == rs;
  }

  /** The totals are plain sums: the total of two result lists is the sum of their totals. */
  lemma {:induction false} TotalsAppend(a: seq<Measurement>, b: seq<Measurement>)
    ensures TotalArea(a + b) == TotalArea(a) + TotalArea(b)
    ensures TotalCoverage(a + b) == TotalCoverage(a) + TotalCoverage(b)
    decreases |b|
  {
    if |b| > 0 {
      var c := a + b;
      assert c[..|c| - 1] == a + b[..|b| - 1];
      assert c[|c| - 1] == b[|b| - 1];
      TotalsAppend(a, b[..|b| - 1]);
    } else {
      assert a + b == a;
    }
  }

  /**
   No overlap removal: listing the same results twice doubles both totals,
   so the total coverage can exceed 100 percent.
   */
  lemma DuplicatesCountTwice(rs: seq<Measurement>)
    ensures TotalArea(rs + rs) == 2.0 * TotalArea(rs)
    ensures TotalCoverage(rs + rs) == 2.0 * TotalCoverage(rs)
  {
    TotalsAppend(rs, rs);
  }

  /** Every result of one image has percentage `area / (w*h) * 100`. */
  predicate SameImage(rs: seq<Measurement>, w: real, h: real)
    requires w * h != 0.0
  {
    forall i :: 0 <= i < |rs| ==> rs[i].percentage == Percentage(rs[i].area, w * h)
  }

  /** For results of one image, the total coverage is the percentage of the total area. */
  lemma {:induction false} TotalCoverageOfTotalArea(rs: seq<Measurement>, w: real, h: real)
    requires w * h != 0.0
    requires SameImage(rs, w, h)
    ensures TotalCoverage(rs) == Percentage(TotalArea(rs), w * h)
    decreases |rs|
  {
    if |rs| > 0 {
      var init := rs[..|rs| - 1];
      assert SameImage(init, w, h) by {
        forall i | 0 <= i < |init|
          ensures init[i].percentage == Percentage(init[i].area, w * h)
        {
          assert init[i] == rs[i];
        }
      }
      TotalCoverageOfTotalArea(init, w, h);
      PercentageAdditive(TotalArea(init), rs[|rs| - 1].area, w * h);
    }
  }

  /** Areas are never negative, so neither is their total. */
  lemma {:induction false} TotalAreaNonNegative(rs: seq<Measurement>)
    requires forall i :: 0 <= i < |rs| ==> rs[i].area >= 0.0
    ensures TotalArea(rs) >= 0.0
    decreases |rs|
  {
    if |rs| > 0 {
      TotalAreaNonNegative(rs[..|rs| - 1]);
    }
  }

  /** The analysis of one image yields results of that image, with non-negative total area. */
  lemma AnalysisTotals(anns: seq<Annotation>, w: real, h: real, results: seq<Measurement>)
    requires forall i :: 0 <= i < |anns| ==> Measurable(anns[i])
    requires w * h != 0.0
    requires |results| == |anns|
    requires forall i :: 0 <= i < |anns| ==> results[i] == Measure(anns[i], w, h)
    ensures TotalCoverage(results) == Percentage(TotalArea(results), w * h)
    ensures TotalArea(results) >= 0.0
  {
    TotalCoverageOfTotalArea(results, w, h);
    TotalAreaNonNegative(results);
  }

  /* ---------------------------------------------------------------------
     Worked examples
     --------------------------------------------------------------------- */

  /** The triangle (0,0) (0.4,0) (0,0.3) on a 10 by 10 image has vertices (0,0) (4,0) (0,3), area 6 and coverage 6 percent. */
  lemma TriangleExample()
    ensures Measure(Annotation(0, [0.0, 0.0, 0.4, 0.0, 0.0, 0.3]), 10.0, 10.0).pixels == [Point(0.0, 0.0), Point(4.0, 0.0), Point(0.0, 3.0)]
    ensures Measure(Annotation(0, [0.0, 0.0, 0.4, 0.0, 0.0, 0.3]), 10.0, 10.0).area == 6.0
    ensures Measure(Annotation(0, [0.0, 0.0, 0.4, 0.0, 0.0, 0.3]), 10.0, 10.0).percentage == 6.0
  {
    TriangleVertices();
    RightTriangleShoelaceArea(4.0, 3.0);
  }

  lemma TriangleVertices()
    ensures Denormalize([0.0, 0.0, 0.4, 0.0, 0.0, 0.3], 10.0, 10.0) == [Point(0.0, 0.0), Point(4.0, 0.0), Point(0.0, 3.0)]
  {
    var c := [0.0, 0.0, 0.4, 0.0, 0.0, 0.3];
    assert c[2..] == [0.4, 0.0, 0.0, 0.3];
    assert c[2..][2..] == [0.0, 0.3];
    assert c[2..][2..][2..] == [];
  }

  /** The unit square covers the whole image, whatever its positive extent. */
  lemma UnitSquareCoversImage(w: real, h: real)
    requires w * h > 0.0
    ensures Measure(Annotation(0, [0.0, 0.0, 1.0, 0.0, 1.0, 1.0, 0.0, 1.0]), w, h).percentage == 100.0
  {
    var c := [0.0, 0.0, 1.0, 0.0, 1.0, 1.0, 0.0, 1.0];
    UnitSquareVertices();
    RectangleShoelaceArea(1.0, 1.0);
    PercentageIsNormalisedShoelaceArea(Annotation(0, c), w, h);
  }

  lemma UnitSquareVertices()
    ensures Denormalize([0.0, 0.0, 1.0, 0.0, 1.0, 1.0, 0.0, 1.0], 1.0, 1.0) == [Point(0.0, 0.0), Point(1.0, 0.0), Point(1.0, 1.0), Point(0.0, 1.0)]
  {
    var c := [0.0, 0.0, 1.0, 0.0, 1.0, 1.0, 0.0, 1.0];
    assert c[2..] == [1.0, 0.0, 1.0, 1.0, 0.0, 1.0];
    assert c[2..][2..] == [1.0, 1.0, 0.0, 1.0];
    assert c[2..][2..][2..] == [0.0, 1.0];
    assert c[2..][2..][2..][2..] == [];
  }

  /* ---------------------------------------------------------------------
     The single-polygon script
     --------------------------------------------------------------------- */

  /**
   The single-polygon script: its inline denormalisation loop (the same
   code as `normalize_to_pixel_coords`), its inline shoelace expression and
   its percentage. It computes exactly what the functions above compute.
   */
  method CoverScript(coords: seq<real>, w: real, h: real) returns (pixels: seq<Point>, area: real, percentage: real)
    requires |coords| > 0 && |coords| % 2 == 0
    requires w * h != 0.0
    ensures pixels == Denormalize(coords, w, h)
    ensures area == PolygonArea(pixels) && area >= 0.0
    ensures percentage == Percentage(area, w * h)
    ensures 0.0 < w * h ==> percentage == 100.0 * PolygonArea(Denormalize(coords, 1.0, 1.0))
  {
    pixels := NormalizeToPixelCoords(coords, w, h);
    area := 0.5 * Abs(Dot(Xs(pixels), Roll(Ys(pixels))) - Dot(Ys(pixels), Roll(Xs(pixels))));
    percentage := area / (w * h) * 100.0;
    if 0.0 < w * h {
      PercentageIsNormalisedArea(Annotation(0, coords), w, h);
    }
  }
}
