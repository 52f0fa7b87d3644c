/**
 Conversion of a YOLO bounding box (centre and size as fractions of the
 image) to integer pixel corners. Each corner is the exact real corner
 passed through Python's `int()`, which truncates toward zero: it neither
 floors nor rounds, and nothing clamps the result to the image.
 */
module BoundingBoxes {

  /** n is r with its fractional part dropped toward zero: below r by less than 1 for r >= 0, above it by less than 1 for r < 0. */
  predicate TruncatedFrom(n: int, r: real)
  {
    (0.0 <= r ==> n as real <= r < n as real + 1.0) && (r < 0.0 ==> n as real - 1.0 < r <= n as real)
  }

  /** Python `int()` on a float: drop the fractional part, toward zero. */
  function Trunc(r: real): (t: int)
    ensures TruncatedFrom(t, r)
  {
    if r >= 0.0 then r.Floor else -((-r).Floor)
  }

  /** Truncation is the only integer related to r by TruncatedFrom. */
  lemma TruncUnique(n: int, r: real)
    ensures TruncatedFrom(n, r) <==> n == Trunc(r)
  {
    if TruncatedFrom(n, r) {
      var t := Trunc(r);
      assert (n - t) as real < 1.0 && (t - n) as real < 1.0;
    }
  }

  /** Truncation never decreases along the reals. */
  lemma TruncMonotone(a: real, b: real)
    requires a <= b
    ensures Trunc(a) <= Trunc(b)
  {
    assert (Trunc(a) - Trunc(b)) as real < 1.0;
  }

  /** The corner below a centre never exceeds the corner above it when the half extent is non-negative. */
  lemma CornersOrdered(center: real, half: real)
    ensures 0.0 <= half ==> Trunc(center - half) <= Trunc(center + half)
  {
    if 0.0 <= half {
      TruncMonotone(center - half, center + half);
    }
  }

  /** Truncation commutes with negation: it is symmetric about zero, unlike floor. */
  lemma TruncNegate(r: real)
    ensures Trunc(-r) == -Trunc(r)
  {
    TruncUnique(-Trunc(r), -r);
  }

  /** An integral value is left unchanged. */
  lemma TruncOfInteger(n: int)
    ensures Trunc(n as real) == n
  {
    TruncUnique(n, n as real);
  }

  /** Truncation moves toward zero and by less than 1. */
  lemma TruncTowardZero(r: real)
    ensures 0.0 <= r ==> 0 <= Trunc(r)
    ensures r <= 0.0 ==> Trunc(r) <= 0
    ensures -1.0 < Trunc(r) as real - r < 1.0
  {
  }

  /** The distinguishing case: `int(-0.5)` is 0, where floor would give -1. */
  lemma TruncIsNotFloor()
    ensures Trunc(-0.5) == 0
    ensures (-0.5).Floor == -1
  {
  }

  /** Integer pixel corners of a box. */
  datatype Box = Box(xmin: int, ymin: int, xmax: int, ymax: int)

  /** The exact lower corner along one axis: centre pixel minus half the pixel extent. */
  function LowEdge(size: real, center: real, extent: real): real
  {
    center * size - extent * size / 2.0
  }

  /** The exact upper corner along one axis: centre pixel plus half the pixel extent. */
  function HighEdge(size: real, center: real, extent: real): real
  {
    center * size + extent * size / 2.0
  }

  /**
   `bounding_box_coordinates`: every corner is its exact value truncated
   toward zero, so it lies within 1 of it; along an axis whose pixel extent
   is non-negative the corners stay ordered.
   */
  function BoundingBoxCoordinates(imageWidth: real, imageHeight: real, xCenter: real, yCenter: real, width: real, height: real): (b: Box)
    ensures TruncatedFrom(b.xmin, LowEdge(imageWidth, xCenter, width))
    ensures TruncatedFrom(b.xmax, HighEdge(imageWidth, xCenter, width))
    ensures TruncatedFrom(b.ymin, LowEdge(imageHeight, yCenter, height))
    ensures TruncatedFrom(b.ymax, HighEdge(imageHeight, yCenter, height))
    ensures 0.0 <= width * imageWidth ==> b.xmin <= b.xmax
    ensures 0.0 <= height * imageHeight ==> b.ymin <= b.ymax
  {
    var xCenterPixel := xCenter * imageWidth;
    var yCenterPixel := yCenter * imageHeight;
    var halfWidth := width * imageWidth / 2.0;
    var halfHeight := height * imageHeight / 2.0;
    CornersOrdered(xCenterPixel, halfWidth);
    CornersOrdered(yCenterPixel, halfHeight);
    Box(Trunc(xCenterPixel - halfWidth), Trunc(yCenterPixel - halfHeight),
        Trunc(xCenterPixel + halfWidth), Trunc(yCenterPixel + halfHeight))
  }

  /** The corners are exactly the truncated exact corners. */
  lemma BoxCornersAreTruncations(imageWidth: real, imageHeight: real, xCenter: real, yCenter: real, width: real, height: real)
    ensures var b := BoundingBoxCoordinates(imageWidth, imageHeight, xCenter, yCenter, width, height);
      b.xmin == Trunc(LowEdge(imageWidth, xCenter, width)) && b.xmax == Trunc(HighEdge(imageWidth, xCenter, width)) &&
      b.ymin == Trunc(LowEdge(imageHeight, yCenter, height)) && b.ymax == Trunc(HighEdge(imageHeight, yCenter, height))
  {
    var b := BoundingBoxCoordinates(imageWidth, imageHeight, xCenter, yCenter, width, height);
    TruncUnique(b.xmin, LowEdge(imageWidth, xCenter, width));
    TruncUnique(b.xmax, HighEdge(imageWidth, xCenter, width));
    TruncUnique(b.ymin, LowEdge(imageHeight, yCenter, height));
    TruncUnique(b.ymax, HighEdge(imageHeight, yCenter, height));
  }

  /** The x corners depend only on the width inputs and the y corners only on the height inputs. */
  lemma BoxAxesIndependent(imageWidth: real, imageHeight: real, xCenter: real, yCenter: real, width: real, height: real,
                           imageHeight': real, yCenter': real, height': real, imageWidth': real, xCenter': real, width': real)
    ensures var b := BoundingBoxCoordinates(imageWidth, imageHeight, xCenter, yCenter, width, height);
      var xAlt := BoundingBoxCoordinates(imageWidth, imageHeight', xCenter, yCenter', width, height');
      var yAlt := BoundingBoxCoordinates(imageWidth', imageHeight, xCenter', yCenter, width', height);
      b.xmin == xAlt.xmin && b.xmax == xAlt.xmax && b.ymin == yAlt.ymin && b.ymax == yAlt.ymax
  {
  }

  /** The two axes use one formula: swapping the axes' inputs swaps the corners. */
  lemma BoxAxesSymmetric(imageWidth: real, imageHeight: real, xCenter: real, yCenter: real, width: real, height: real)
    ensures var b := BoundingBoxCoordinates(imageWidth, imageHeight, xCenter, yCenter, width, height);
      var s := BoundingBoxCoordinates(imageHeight, imageWidth, yCenter, xCenter, height, width);
      s == Box(b.ymin, b.xmin, b.ymax, b.xmax)
  {
  }

  /** A box centred on the origin has mirrored corners, because truncation is symmetric about zero. */
  lemma BoxCentredOnOrigin(imageWidth: real, imageHeight: real, width: real, height: real)
    ensures var b := BoundingBoxCoordinates(imageWidth, imageHeight, 0.0, 0.0, width, height);
      b.xmin == -b.xmax && b.ymin == -b.ymax
  {
    TruncNegate(width * imageWidth / 2.0);
    TruncNegate(height * imageHeight / 2.0);
  }

  /** A box covering the whole image, (0.5, 0.5, 1, 1), gives the corners (0, 0, W, H) of an integral image size. */
  lemma BoxFullImage(w: int, h: int)
    ensures BoundingBoxCoordinates(w as real, h as real, 0.5, 0.5, 1.0, 1.0) == Box(0, 0, w, h)
  {
    TruncOfInteger(0);
    TruncOfInteger(w);
    TruncOfInteger(h);
  }

  /**
   A small box near the corner of a 10 by 10 image: the lower corners are
   exactly -0.5 and truncate to 0, the upper ones are 1.5 and truncate to 1.
   */
  lemma BoxNearCorner()
    ensures BoundingBoxCoordinates(10.0, 10.0, 0.05, 0.05, 0.2, 0.2) == Box(0, 0, 1, 1)
  {
    TruncIsNotFloor();
  }

  /** Nothing clamps the corners: a box past the image edge gets a negative corner and one beyond the image size. */
  lemma BoxNotClamped()
    ensures BoundingBoxCoordinates(100.0, 100.0, 0.0, 1.0, 0.5, 0.5) == Box(-25, 75, 25, 125)
  {
    TruncOfInteger(-25);
    TruncOfInteger(75);
    TruncOfInteger(25);
    TruncOfInteger(125);
  }
}
