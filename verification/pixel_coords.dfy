/**
 Denormalisation of a polygon annotation: a flat list of normalised values
 `x1 y1 x2 y2 ...` (fractions of the image extent) becomes a list of pixel
 vertices, x scaled by the image width and y by the image height, in the
 original order and without rounding.

 The list must have even length: on an odd length the loop reads past the
 end (`normalized_coords[i+1]`) and fails, so callers must not pass one.
 */
module PixelCoords {
  import opened Shoelace

  /** The pixel vertices of a flat normalised coordinate list. */
  function Denormalize(coords: seq<real>, w: real, h: real): (pts: seq<Point>)
    requires |coords| % 2 == 0
    ensures |pts| == |coords| / 2
    decreases |coords|
  {
    if |coords| == 0 then [] else [Point(coords[0] * w, coords[1] * h)] + Denormalize(coords[2..], w, h)
  }

  /** Vertex i is pair i of the list, x scaled by the width and y by the height, in the original order. */
  lemma {:induction false} DenormalizeAt(coords: seq<real>, w: real, h: real, i: nat)
    requires |coords| % 2 == 0
    requires i < |coords| / 2
    ensures Denormalize(coords, w, h)[i] == Point(coords[2 * i] * w, coords[2 * i + 1] * h)
    decreases i
  {
    if i > 0 {
      var rest := coords[2..];
      DenormalizeAt(rest, w, h, i - 1);
      assert rest[2 * (i - 1)] == coords[2 * i];
      assert rest[2 * (i - 1) + 1] == coords[2 * i + 1];
    }
  }

  /** Every vertex is the scaled pair at the same position. */
  lemma DenormalizeEveryVertex(coords: seq<real>, w: real, h: real)
    requires |coords| % 2 == 0
    ensures forall i :: 0 <= i < |coords| / 2 ==>
      Denormalize(coords, w, h)[i] == Point(coords[2 * i] * w, coords[2 * i + 1] * h)
  {
    forall i | 0 <= i < |coords| / 2
      ensures Denormalize(coords, w, h)[i] == Point(coords[2 * i] * w, coords[2 * i + 1] * h)
    {
      DenormalizeAt(coords, w, h, i);
    }
  }

  /**
   `normalize_to_pixel_coords`, and the identical inline loop of the
   single-polygon script: step through the list two values at a time and
   append one scaled vertex per step.
   */
  method NormalizeToPixelCoords(coords: seq<real>, w: real, h: real) returns (pixels: seq<Point>)
    requires |coords| % 2 == 0
    ensures |pixels| == |coords| / 2
    ensures forall i :: 0 <= i < |pixels| ==> pixels[i] == Point(coords[2 * i] * w, coords[2 * i + 1] * h)
    ensures pixels == Denormalize(coords, w, h)
  {
    DenormalizeEveryVertex(coords, w, h);
    pixels := [];
    var i := 0;
    while i < |coords|
      invariant 0 <= i <= |coords| && i % 2 == 0
      invariant |pixels| == i / 2
      invariant forall k :: 0 <= k < |pixels| ==> pixels[k] == Point(coords[2 * k] * w, coords[2 * k + 1] * h)
    {
      var x := coords[i] * w;
      var y := coords[i + 1] * h;
      pixels := pixels + [Point(x, y)];
      i := i + 2;
    }
  }

  /** The inverse direction: divide each pixel vertex back by the image extent and flatten. */
  function Normalize(pts: seq<Point>, w: real, h: real): (coords: seq<real>)
    requires w != 0.0 && h != 0.0
    ensures |coords| == 2 * |pts|
  {
    if |pts| == 0 then [] else [pts[0].x / w, pts[0].y / h] + Normalize(pts[1..], w, h)
  }

  /** Denormalising loses nothing: dividing back by a non-zero extent recovers the annotation. */
  lemma {:induction false} DenormalizeRoundTrip(coords: seq<real>, w: real, h: real)
    requires |coords| % 2 == 0
    requires w != 0.0 && h != 0.0
    ensures Normalize(Denormalize(coords, w, h), w, h) == coords
    decreases |coords|
  {
    if |coords| > 0 {
      var pts := Denormalize(coords, w, h);
      assert pts[1..] == Denormalize(coords[2..], w, h);
      DenormalizeRoundTrip(coords[2..], w, h);
      assert coords[0] * w / w == coords[0];
      assert coords[1] * h / h == coords[1];
      assert coords == [coords[0], coords[1]] + coords[2..];
    }
  }

  /** Denormalising against (w, h) is scaling the raw normalised polygon by w and h. */
  lemma DenormalizeIsScale(coords: seq<real>, w: real, h: real)
    requires |coords| % 2 == 0
    ensures IsScaled(Denormalize(coords, w, h), Denormalize(coords, 1.0, 1.0), w, h)
  {
    var a, u := Denormalize(coords, w, h), Denormalize(coords, 1.0, 1.0);
    forall i | 0 <= i < |a|
      ensures a[i] == Point(u[i].x * w, u[i].y * h)
    {
      DenormalizeAt(coords, w, h, i);
      DenormalizeAt(coords, 1.0, 1.0, i);
    }
  }

  /**
   The pixel area of a denormalised polygon is w*h times the area of the raw
   normalised polygon, for any positive image extent.
   */
  lemma DenormalizedAreaScales(coords: seq<real>, w: real, h: real)
    requires |coords| > 0 && |coords| % 2 == 0
    requires w * h > 0.0
    ensures PolygonArea(Denormalize(coords, w, h)) == w * h * PolygonArea(Denormalize(coords, 1.0, 1.0))
  {
    DenormalizedScaledNonEmpty(coords, w, h);
    AreaScalePositive(Denormalize(coords, w, h), Denormalize(coords, 1.0, 1.0), w, h);
  }

  lemma DenormalizedShoelaceScales(coords: seq<real>, w: real, h: real)
    requires |coords| > 0 && |coords| % 2 == 0
    requires w * h > 0.0
    ensures ShoelaceArea(Denormalize(coords, w, h)) == w * h * ShoelaceArea(Denormalize(coords, 1.0, 1.0))
  {
    DenormalizedScaledNonEmpty(coords, w, h);
    ShoelaceAreaScalePositive(Denormalize(coords, w, h), Denormalize(coords, 1.0, 1.0), w, h);
  }

  /** Solver hint: the preconditions of the area scaling laws for a denormalised annotation, in a proof of their own. */
  lemma DenormalizedScaledNonEmpty(coords: seq<real>, w: real, h: real)
    requires |coords| > 0 && |coords| % 2 == 0
    ensures IsScaled(Denormalize(coords, w, h), Denormalize(coords, 1.0, 1.0), w, h)
    ensures |Denormalize(coords, 1.0, 1.0)| > 0
  {
    DenormalizeIsScale(coords, w, h);
  }

  /** Denormalising against (a*w, b*h) is scaling the (w, h) polygon by a and b. */
  lemma DenormalizeRescale(coords: seq<real>, w: real, h: real, a: real, b: real)
    requires |coords| % 2 == 0
    ensures IsScaled(Denormalize(coords, a * w, b * h), Denormalize(coords, w, h), a, b)
  {
    var big, small := Denormalize(coords, a * w, b * h), Denormalize(coords, w, h);
    forall i | 0 <= i < |big|
      ensures big[i] == Point(small[i].x * a, small[i].y * b)
    {
      DenormalizeAt(coords, a * w, b * h, i);
      DenormalizeAt(coords, w, h, i);
      Rearrange(coords[2 * i], w, a);
      Rearrange(coords[2 * i + 1], h, b);
    }
  }

  lemma Rearrange(x: real, w: real, a: real)
    ensures x * (a * w) == x * w * a
  {
  }

  /** Enlarging the image by factors a and b with a*b > 0 multiplies the pixel area by a*b. */
  lemma RescaledImageArea(coords: seq<real>, w: real, h: real, a: real, b: real)
    requires |coords| > 0 && |coords| % 2 == 0
    requires a * b > 0.0
    ensures PolygonArea(Denormalize(coords, a * w, b * h)) == a * b * PolygonArea(Denormalize(coords, w, h))
  {
    var big, small := Denormalize(coords, a * w, b * h), Denormalize(coords, w, h);
    RescaledShoelaceArea(coords, w, h, a, b);
    Transfer(PolygonArea(big), PolygonArea(small), ShoelaceArea(big), ShoelaceArea(small), a, b);
  }

  lemma RescaledShoelaceArea(coords: seq<real>, w: real, h: real, a: real, b: real)
    requires |coords| > 0 && |coords| % 2 == 0
    requires a * b > 0.0
    ensures ShoelaceArea(Denormalize(coords, a * w, b * h)) == a * b * ShoelaceArea(Denormalize(coords, w, h))
  {
    DenormalizeRescale(coords, w, h, a, b);
    ShoelaceAreaScalePositive(Denormalize(coords, a * w, b * h), Denormalize(coords, w, h), a, b);
  }

  /** Doubling both image dimensions multiplies the pixel area by exactly 4. */
  lemma DoubledImageQuadruplesArea(coords: seq<real>, w: real, h: real)
    requires |coords| > 0 && |coords| % 2 == 0
    ensures PolygonArea(Denormalize(coords, 2.0 * w, 2.0 * h)) == 4.0 * PolygonArea(Denormalize(coords, w, h))
  {
    RescaledImageArea(coords, w, h, 2.0, 2.0);
  }

  /**
   An annotation that repeats its first (x, y) pair at the end, as closed
   YOLO polygons often do, has the same area as the open list.
   */
  lemma ClosedAnnotationSameArea(coords: seq<real>, w: real, h: real)
    requires |coords| > 0 && |coords| % 2 == 0
    ensures PolygonArea(Denormalize(coords + coords[..2], w, h)) == PolygonArea(Denormalize(coords, w, h))
  {
    DenormalizeClosed(coords, w, h);
    ClosingVertexNoEffect(Denormalize(coords, w, h));
  }

  /** Repeating the first (x, y) pair at the end of the list repeats the first vertex at the end of the polygon. */
  lemma DenormalizeClosed(coords: seq<real>, w: real, h: real)
    requires |coords| > 0 && |coords| % 2 == 0
    ensures Denormalize(coords + coords[..2], w, h) == Denormalize(coords, w, h) + [Denormalize(coords, w, h)[0]]
  {
    var pts := Denormalize(coords, w, h);
    var c := coords + coords[..2];
    var closed := Denormalize(c, w, h);
    DenormalizeEveryVertex(coords, w, h);
    DenormalizeEveryVertex(c, w, h);
    assert |closed| == |pts| + 1;
    forall i | 0 <= i < |closed|
      ensures closed[i] == (pts + [pts[0]])[i]
    {
      if i < |pts| {
        assert c[2 * i] == coords[2 * i] && c[2 * i + 1] == coords[2 * i + 1];
      } else {
        assert c[2 * i] == coords[0] && c[2 * i + 1] == coords[1];
      }
    }
  }
}
