/**
 Polygon area by the shoelace (surveyor's) formula, in the vectorised form
 the scripts use: with `x` and `y` the coordinate columns of the vertex
 array, the area is `0.5 * |x . roll(y, 1) - y . roll(x, 1)|`.

 Arithmetic is over exact reals; the float64 rounding of the scripts is
 an idealisation left out of the model.

 Besides the vectorised form, the module gives an independent, geometric
 reference definition (`CyclicSum`: one cross term per polygon edge, plus
 the closing edge) and proves the two agree. The algebraic laws (rotation,
 reversal, repeated closing vertex, axis scaling) are proved on the
 reference definition and transferred to `PolygonArea`.
 */
module Shoelace {

  /** A vertex; the `(x, y)` tuple of the scripts. */
  datatype Point = Point(x: real, y: real)

  function Abs(r: real): real
  {
    if r < 0.0 then -r else r
  }

  /* ---------------------------------------------------------------------
     The numpy operations the formula is written with
     --------------------------------------------------------------------- */

  /** `coords[:, 0]`: the column of x coordinates. */
  function Xs(pts: seq<Point>): (xs: seq<real>)
  {
    seq(|pts|, i requires 0 <= i < |pts| => pts[i].x)
  }

  /** `coords[:, 1]`: the column of y coordinates. */
  function Ys(pts: seq<Point>): (ys: seq<real>)
  {
    seq(|pts|, i requires 0 <= i < |pts| => pts[i].y)
  }

  /** `np.roll(s, 1)`: shift every element one place right, the last wrapping to the front. */
  function Roll(s: seq<real>): (r: seq<real>)
    ensures |r| == |s|
    ensures |s| > 0 ==> r[0] == s[|s| - 1]
    ensures forall i :: 1 <= i < |s| ==> r[i] == s[i - 1]
  {
    if |s| == 0 then [] else [s[|s| - 1]] + s[..|s| - 1]
  }

  /** `np.dot` of two vectors of equal length. */
  function Dot(a: seq<real>, b: seq<real>): real
    requires |a| == |b|
  {
    if |a| == 0 then 0.0 else a[0] * b[0] + Dot(a[1..], b[1..])
  }

  /**
   `calculate_polygon_area`: half the absolute value of the vectorised
   shoelace sum. The vertex list must be non-empty: for an empty list
   `np.array([])` is one-dimensional and `coords[:, 0]` raises.
   */
  function PolygonArea(pts: seq<Point>): (area: real)
    requires |pts| > 0
    ensures area == ShoelaceArea(pts)
  {
    VectorisedIsCyclicSum(pts);
    0.5 * Abs(Dot(Xs(pts), Roll(Ys(pts))) - Dot(Ys(pts), Roll(Xs(pts))))
  }

  /* ---------------------------------------------------------------------
     Reference definition: a sum over the edges of the polygon
     --------------------------------------------------------------------- */

  /** Cross term of a vertex `p` with its predecessor `q`: x_p*y_q - y_p*x_q. */
  function Cross(p: Point, q: Point): real
  {
    p.x * q.y - p.y * q.x
  }

  /** Cross terms of every vertex but the first with its predecessor (the open path). */
  function ChainSum(pts: seq<Point>): real
  {
    if |pts| < 2 then 0.0 else Cross(pts[1], pts[0]) + ChainSum(pts[1..])
  }

  /** Twice the signed area: the open path plus the edge closing the last vertex back to the first. */
  function CyclicSum(pts: seq<Point>): real
    requires |pts| > 0
  {
    Cross(pts[0], pts[|pts| - 1]) + ChainSum(pts)
  }

  /** The shoelace formula edge by edge: half the absolute value of the cyclic sum. */
  function ShoelaceArea(pts: seq<Point>): (area: real)
    requires |pts| > 0
    ensures area >= 0.0
  {
    0.5 * Abs(CyclicSum(pts))
  }

  /** Sum of `a[i] * b[i-1]` for i from 1: the dot product of `a` with `b` lagged by one. */
  function LagDot(a: seq<real>, b: seq<real>): real
    requires |a| == |b|
  {
    if |a| < 2 then 0.0 else a[1] * b[0] + LagDot(a[1..], b[1..])
  }

  lemma {:induction false} DotOfShifted(a: seq<real>, b: seq<real>)
    requires |a| == |b| > 0
    ensures Dot(a[1..], b[..|b| - 1]) == LagDot(a, b)
  {
    if |a| >= 2 {
      var n := |a|;
      assert b[..n - 1][1..] == b[1..][..n - 2];
      DotOfShifted(a[1..], b[1..]);
    }
  }

  lemma {:induction false} ChainSumIsLagDots(pts: seq<Point>)
    ensures ChainSum(pts) == LagDot(Xs(pts), Ys(pts)) - LagDot(Ys(pts), Xs(pts))
  {
    if |pts| >= 2 {
      assert Xs(pts)[1..] == Xs(pts[1..]);
      assert Ys(pts)[1..] == Ys(pts[1..]);
      ChainSumIsLagDots(pts[1..]);
    }
  }

  /** The vectorised numpy expression is the edge-by-edge shoelace sum. */
  lemma VectorisedIsCyclicSum(pts: seq<Point>)
    requires |pts| > 0
    ensures Dot(Xs(pts), Roll(Ys(pts))) - Dot(Ys(pts), Roll(Xs(pts))) == CyclicSum(pts)
  {
    var n := |pts|;
    var xs, ys := Xs(pts), Ys(pts);
    DotRolled(xs, ys);
    DotRolled(ys, xs);
    ChainSumIsLagDots(pts);
    WrapTerm(pts);
    LinearCombine(Dot(xs, Roll(ys)), Dot(ys, Roll(xs)), xs[0] * ys[n - 1], ys[0] * xs[n - 1],
      LagDot(xs, ys), LagDot(ys, xs), Cross(pts[0], pts[n - 1]), ChainSum(pts));
  }

  /** The wrap-around terms of the two rolled dot products form the closing edge's cross term. */
  lemma WrapTerm(pts: seq<Point>)
    requires |pts| > 0
    ensures Xs(pts)[0] * Ys(pts)[|pts| - 1] - Ys(pts)[0] * Xs(pts)[|pts| - 1] == Cross(pts[0], pts[|pts| - 1])
  {
  }

  /** Solver hint: regroups two differences of sums (linear arithmetic the solver misses amid the unfolded sums). */
  lemma LinearCombine(d1: real, d2: real, a: real, b: real, l1: real, l2: real, corner: real, chain: real)
    requires d1 == a + l1 && d2 == b + l2
    requires corner == a - b && chain == l1 - l2
    ensures d1 - d2 == corner + chain
  {
  }

  /** Dotting with a rolled vector pairs the first entry with the last and lags the rest. */
  lemma DotRolled(a: seq<real>, b: seq<real>)
    requires |a| == |b| > 0
    ensures Dot(a, Roll(b)) == a[0] * b[|b| - 1] + LagDot(a, b)
  {
    var r := Roll(b);
    assert r[1..] == b[..|b| - 1];
    DotOfShifted(a, b);
  }

  /* ---------------------------------------------------------------------
     Laws of the edge sum
     --------------------------------------------------------------------- */

  lemma CrossAntisymmetric(p: Point, q: Point)
    ensures Cross(p, q) == -Cross(q, p)
    ensures Cross(p, p) == 0.0
  {
  }

  /** Appending a vertex adds exactly the edge from the old last vertex to it. */
  lemma {:induction false} ChainSumAppend(pts: seq<Point>, v: Point)
    requires |pts| > 0
    ensures ChainSum(pts + [v]) == ChainSum(pts) + Cross(v, pts[|pts| - 1])
  {
    if |pts| >= 2 {
      assert (pts + [v])[1..] == pts[1..] + [v];
      ChainSumAppend(pts[1..], v);
    }
  }

  /** Rotate left by one: the first vertex moves to the end. */
  function RotateOnce(pts: seq<Point>): (r: seq<Point>)
    requires |pts| > 0
  {
    pts[1..] + [pts[0]]
  }

  /** Start the cyclic vertex sequence at index `k` instead of 0. */
  function Rotate(pts: seq<Point>, k: nat): (r: seq<Point>)
    requires k <= |pts|
  {
    pts[k..] + pts[..k]
  }

  /** The reversed vertex order (opposite orientation). */
  function Reverse(pts: seq<Point>): (r: seq<Point>)
    ensures |r| == |pts|
  {
    if |pts| == 0 then [] else Reverse(pts[1..]) + [pts[0]]
  }

  /** `q` is `pts` with every x multiplied by `w` and every y by `h`. */
  predicate IsScaled(q: seq<Point>, pts: seq<Point>, w: real, h: real)
  {
    |q| == |pts| && forall i :: 0 <= i < |q| ==> q[i] == Point(pts[i].x * w, pts[i].y * h)
  }

  /** Every cross term of `q` is w*h times the corresponding cross term of `pts`. */
  predicate CrossesScaled(q: seq<Point>, pts: seq<Point>, w: real, h: real)
  {
    |q| == |pts| &&
    forall i, j :: 0 <= i < |q| && 0 <= j < |q| ==> Cross(q[i], q[j]) == w * h * Cross(pts[i], pts[j])
  }

  lemma CyclicSumRotateOnce(pts: seq<Point>)
    requires |pts| > 0
    ensures CyclicSum(RotateOnce(pts)) == CyclicSum(pts)
  {
    if |pts| >= 2 {
      var n := |pts|;
      var r := RotateOnce(pts);
      ChainSumAppend(pts[1..], pts[0]);
      assert r[|r| - 1] == pts[0] && r[0] == pts[1];
      assert ChainSum(r) == ChainSum(pts[1..]) + Cross(pts[0], pts[n - 1]);
    } else {
      assert RotateOnce(pts) == pts;
    }
  }

  lemma {:induction false} CyclicSumRotate(pts: seq<Point>, k: nat)
    requires 0 < |pts| && k <= |pts|
    ensures CyclicSum(Rotate(pts, k)) == CyclicSum(pts)
  {
    if k == 0 {
      assert Rotate(pts, 0) == pts;
    } else {
      CyclicSumRotate(pts, k - 1);
      var r := Rotate(pts, k - 1);
      assert RotateOnce(r) == Rotate(pts, k);
      CyclicSumRotateOnce(r);
    }
  }

  lemma {:induction false} ChainSumReverse(pts: seq<Point>)
    ensures ChainSum(Reverse(pts)) == -ChainSum(pts)
  {
    if |pts| >= 2 {
      var rest := Reverse(pts[1..]);
      ReverseEnds(pts[1..]);
      ChainSumAppend(rest, pts[0]);
      ChainSumReverse(pts[1..]);
      CrossAntisymmetric(pts[0], pts[1]);
    } else if |pts| == 1 {
      assert Reverse(pts) == pts;
    }
  }

  lemma {:induction false} ReverseEnds(pts: seq<Point>)
    requires |pts| > 0
    ensures Reverse(pts)[0] == pts[|pts| - 1]
    ensures Reverse(pts)[|pts| - 1] == pts[0]
  {
    if |pts| >= 2 {
      ReverseEnds(pts[1..]);
    }
  }

  lemma CyclicSumReverse(pts: seq<Point>)
    requires |pts| > 0
    ensures CyclicSum(Reverse(pts)) == -CyclicSum(pts)
  {
    ReverseEnds(pts);
    ChainSumReverse(pts);
    CrossAntisymmetric(pts[0], pts[|pts| - 1]);
  }

  lemma CrossScale(a: Point, b: Point, p: Point, q: Point, w: real, h: real)
    requires a == Point(p.x * w, p.y * h) && b == Point(q.x * w, q.y * h)
    ensures Cross(a, b) == w * h * Cross(p, q)
  {
    calc {
      Cross(a, b);
      (p.x * w) * (q.y * h) - (p.y * h) * (q.x * w);
      w * h * (p.x * q.y) - w * h * (p.y * q.x);
      w * h * Cross(p, q);
    }
  }

  /** Scaling the coordinates scales each cross term by w*h. */
  lemma ScaledCrosses(q: seq<Point>, pts: seq<Point>, w: real, h: real)
    requires IsScaled(q, pts, w, h)
    ensures CrossesScaled(q, pts, w, h)
  {
    forall i, j | 0 <= i < |q| && 0 <= j < |q|
      ensures Cross(q[i], q[j]) == w * h * Cross(pts[i], pts[j])
    {
      CrossScale(q[i], q[j], pts[i], pts[j], w, h);
    }
  }

  lemma {:induction false} ChainSumScale(q: seq<Point>, pts: seq<Point>, w: real, h: real)
    requires CrossesScaled(q, pts, w, h)
    ensures ChainSum(q) == w * h * ChainSum(pts)
  {
    if |pts| >= 2 {
      assert CrossesScaled(q[1..], pts[1..], w, h) by {
        forall i, j | 0 <= i < |q| - 1 && 0 <= j < |q| - 1
          ensures Cross(q[1..][i], q[1..][j]) == w * h * Cross(pts[1..][i], pts[1..][j])
        {
          assert Cross(q[i + 1], q[j + 1]) == w * h * Cross(pts[i + 1], pts[j + 1]);
        }
      }
      ChainSumScale(q[1..], pts[1..], w, h);
      ScaleSum(w, h, Cross(pts[1], pts[0]), ChainSum(pts[1..]), ChainSum(pts),
        Cross(q[1], q[0]), ChainSum(q[1..]), ChainSum(q));
    }
  }

  lemma CyclicSumScale(q: seq<Point>, pts: seq<Point>, w: real, h: real)
    requires |pts| > 0
    requires CrossesScaled(q, pts, w, h)
    ensures CyclicSum(q) == w * h * CyclicSum(pts)
  {
    var n := |pts|;
    ChainSumScale(q, pts, w, h);
    ScaleSum(w, h, Cross(pts[0], pts[n - 1]), ChainSum(pts), CyclicSum(pts),
      Cross(q[0], q[n - 1]), ChainSum(q), CyclicSum(q));
  }

  /*
   Arithmetic steps over plain reals. The factor is passed as the two
   variables `w` and `h` rather than as one product, so that the solver sees
   the same monomial `w * h * c` at the call and in the contract.
   */

  /** If each of two summands scales by w*h, so does their sum. */
  lemma ScaleSum(w: real, h: real, a: real, b: real, c: real, sa: real, sb: real, sc: real)
    requires c == a + b && sc == sa + sb
    requires sa == w * h * a && sb == w * h * b
    ensures sc == w * h * c
  {
  }

  lemma HalfAbsScale(area: real, area0: real, s: real, c: real, w: real, h: real)
    requires area == 0.5 * Abs(s) && area0 == 0.5 * Abs(c) && s == w * h * c
    ensures area == Abs(w) * Abs(h) * area0
  {
    AbsMul(w, h);
    AbsMul(w * h, c);
  }

  lemma HalfAbsScalePositive(area: real, area0: real, s: real, c: real, w: real, h: real)
    requires area == 0.5 * Abs(s) && area0 == 0.5 * Abs(c) && s == w * h * c && w * h > 0.0
    ensures area == w * h * area0
  {
    AbsMul(w * h, c);
  }

  lemma AbsMul(a: real, b: real)
    ensures Abs(a * b) == Abs(a) * Abs(b)
  {
    if a < 0.0 && b < 0.0 {
      assert a * b == (-a) * (-b);
    } else if a < 0.0 {
      assert -(a * b) == (-a) * b;
    } else if b < 0.0 {
      assert -(a * b) == a * (-b);
    }
  }

  /* ---------------------------------------------------------------------
     Properties of the area
     --------------------------------------------------------------------- */

  /** The area is never negative: a named corollary of `PolygonArea`'s link to `ShoelaceArea`. */
  lemma AreaNonNegative(pts: seq<Point>)
    requires |pts| > 0
    ensures PolygonArea(pts) >= 0.0
  {
  }

  /** Starting the cycle at any vertex gives the same area. */
  lemma AreaRotationInvariant(pts: seq<Point>, k: nat)
    requires 0 < |pts| && k <= |pts|
    ensures PolygonArea(Rotate(pts, k)) == PolygonArea(pts)
  {
    CyclicSumRotate(pts, k);
  }

  /** Traversing the vertices in the opposite order flips the sign of the sum but not the area. */
  lemma AreaReversalInvariant(pts: seq<Point>)
    requires |pts| > 0
    ensures PolygonArea(Reverse(pts)) == PolygonArea(pts)
  {
    CyclicSumReverse(pts);
  }

  /** One or two vertices: every term cancels and the area is 0 (no error is raised). */
  lemma DegenerateAreaZero(pts: seq<Point>)
    requires 0 < |pts| < 3
    ensures PolygonArea(pts) == 0.0
  {
    CrossAntisymmetric(pts[0], pts[|pts| - 1]);
    if |pts| == 2 {
      CrossAntisymmetric(pts[1], pts[0]);
      assert ChainSum(pts[1..]) == 0.0;
      assert ChainSum(pts) == Cross(pts[1], pts[0]);
    }
  }

  /** Repeating the first vertex at the end adds a zero-length edge and leaves the area unchanged. */
  lemma ClosingVertexNoEffect(pts: seq<Point>)
    requires |pts| > 0
    ensures PolygonArea(pts + [pts[0]]) == PolygonArea(pts)
  {
    var closed := pts + [pts[0]];
    ChainSumAppend(pts, pts[0]);
    CrossAntisymmetric(pts[0], pts[0]);
    assert CyclicSum(closed) == Cross(pts[0], pts[0]) + ChainSum(closed);
  }

  /** A right triangle with legs a and b along the axes has area |a*b|/2. */
  lemma RightTriangleArea(a: real, b: real)
    ensures PolygonArea([Point(0.0, 0.0), Point(a, 0.0), Point(0.0, b)]) == Abs(a * b) / 2.0
  {
    RightTriangleShoelaceArea(a, b);
  }

  lemma RightTriangleShoelaceArea(a: real, b: real)
    ensures ShoelaceArea([Point(0.0, 0.0), Point(a, 0.0), Point(0.0, b)]) == Abs(a * b) / 2.0
  {
    var pts := [Point(0.0, 0.0), Point(a, 0.0), Point(0.0, b)];
    assert pts[1..][1..] == [pts[2]];
    assert ChainSum(pts[1..]) == -(a * b);
    assert ChainSum(pts) == -(a * b);
  }

  /** An axis-aligned a by b rectangle with a corner at the origin has area |a*b|. */
  lemma RectangleArea(a: real, b: real)
    ensures PolygonArea([Point(0.0, 0.0), Point(a, 0.0), Point(a, b), Point(0.0, b)]) == Abs(a * b)
  {
    RectangleShoelaceArea(a, b);
  }

  lemma RectangleShoelaceArea(a: real, b: real)
    ensures ShoelaceArea([Point(0.0, 0.0), Point(a, 0.0), Point(a, b), Point(0.0, b)]) == Abs(a * b)
  {
    var pts := [Point(0.0, 0.0), Point(a, 0.0), Point(a, b), Point(0.0, b)];
    assert pts[1..][1..][1..] == [pts[3]];
    assert ChainSum(pts[1..][1..]) == -(a * b);
    assert ChainSum(pts[1..]) == -(a * b) - a * b;
    assert ChainSum(pts) == -2.0 * (a * b);
  }

  /** Scaling x by `w` and y by `h` scales the area by |w|*|h|. */
  lemma AreaScale(q: seq<Point>, pts: seq<Point>, w: real, h: real)
    requires |pts| > 0
    requires IsScaled(q, pts, w, h)
    ensures PolygonArea(q) == Abs(w) * Abs(h) * PolygonArea(pts)
  {
    ShoelaceAreaScale(q, pts, w, h);
    Transfer(PolygonArea(q), PolygonArea(pts), ShoelaceArea(q), ShoelaceArea(pts), Abs(w), Abs(h));
  }

  lemma ShoelaceAreaScale(q: seq<Point>, pts: seq<Point>, w: real, h: real)
    requires |pts| > 0
    requires IsScaled(q, pts, w, h)
    ensures ShoelaceArea(q) == Abs(w) * Abs(h) * ShoelaceArea(pts)
  {
    ScaledCrosses(q, pts, w, h);
    CyclicSumScale(q, pts, w, h);
    HalfAbsScale(ShoelaceArea(q), ShoelaceArea(pts), CyclicSum(q), CyclicSum(pts), w, h);
  }

  /** For a positive scale factor the absolute value drops out: the area scales by exactly w*h. */
  lemma AreaScalePositive(q: seq<Point>, pts: seq<Point>, w: real, h: real)
    requires |pts| > 0
    requires w * h > 0.0
    requires IsScaled(q, pts, w, h)
    ensures PolygonArea(q) == w * h * PolygonArea(pts)
  {
    ShoelaceAreaScalePositive(q, pts, w, h);
    Transfer(PolygonArea(q), PolygonArea(pts), ShoelaceArea(q), ShoelaceArea(pts), w, h);
  }

  lemma ShoelaceAreaScalePositive(q: seq<Point>, pts: seq<Point>, w: real, h: real)
    requires |pts| > 0
    requires w * h > 0.0
    requires IsScaled(q, pts, w, h)
    ensures ShoelaceArea(q) == w * h * ShoelaceArea(pts)
  {
    ScaledCrosses(q, pts, w, h);
    CyclicSumScale(q, pts, w, h);
    HalfAbsScalePositive(ShoelaceArea(q), ShoelaceArea(pts), CyclicSum(q), CyclicSum(pts), w, h);
  }

  /** Solver hint: a scaling law carries over between two equal area functions. */
  lemma Transfer(area: real, area0: real, ref: real, ref0: real, a: real, b: real)
    requires area == ref && area0 == ref0 && ref == a * b * ref0
    ensures area == a * b * area0
  {
  }
}
