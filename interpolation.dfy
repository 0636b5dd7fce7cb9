/** Utils::IsPixelInterpolated: the edge-function coverage test, barycentric
    weights, the [0,1] depth cull and perspective-correct attribute
    interpolation for one candidate pixel of one triangle. */
module Interpolation {
  import opened Geometry

  /** Vertex_Out: a screen-space vertex. position.x/y are pixels, position.z the
      divided depth, position.w the clip-space w kept for perspective correction. */
  datatype VertexOut = VertexOut(position: Vec4, color: Rgb, uv: Vec2, normal: Vec3,
                                 tangent: Vec3, viewDirection: Vec3)

  /** What a call does with its out-parameters pixelVector, uvInterpolated and pixelDepth.
      OutsideEdge: returned false at the edge test, nothing written.
      DepthCulled: returned false after writing pixelDepth only.
      Covered:     returned true; pixel is pixelVector afterwards.
      Degenerate:  the arithmetic divides by zero (inf/NaN in single precision). The
                   source goes on with those values and draws most such pixels; the
                   model sets them aside. */
  datatype Coverage =
    | OutsideEdge
    | Degenerate
    | DepthCulled(depth: real)
    | Covered(pixel: VertexOut, uv: Vec2, depth: real)

  /** Barycentric weights W0, W1, W2. */
  datatype Bary = Bary(b0: real, b1: real, b2: real)

  /** cross0 = Cross(P - V1, V2 - V1): the edge opposite v0. */
  function Edge0(v0: VertexOut, v1: VertexOut, v2: VertexOut, p: VertexOut): real
  {
    Cross2(Sub2(XY(p.position), XY(v1.position)), Sub2(XY(v2.position), XY(v1.position)))
  }

  /** cross1 = Cross(P - V2, V0 - V2): the edge opposite v1. */
  function Edge1(v0: VertexOut, v1: VertexOut, v2: VertexOut, p: VertexOut): real
  {
    Cross2(Sub2(XY(p.position), XY(v2.position)), Sub2(XY(v0.position), XY(v2.position)))
  }

  /** cross2 = Cross(P - V0, V1 - V0): the edge opposite v2. */
  function Edge2(v0: VertexOut, v1: VertexOut, v2: VertexOut, p: VertexOut): real
  {
    Cross2(Sub2(XY(p.position), XY(v0.position)), Sub2(XY(v1.position), XY(v0.position)))
  }

  /** The triangle's signed doubled area, written without any pixel. */
  function SignedArea(v0: VertexOut, v1: VertexOut, v2: VertexOut): real
  {
    Cross2(Sub2(XY(v2.position), XY(v0.position)), Sub2(XY(v1.position), XY(v0.position)))
  }

  /** totalParallelogramArea as the source computes it, from the pixel. */
  function TotalArea(v0: VertexOut, v1: VertexOut, v2: VertexOut, p: VertexOut): real
  {
    Edge0(v0, v1, v2, p) + Edge1(v0, v1, v2, p) + Edge2(v0, v1, v2, p)
  }

  function Weights(v0: VertexOut, v1: VertexOut, v2: VertexOut, p: VertexOut): Bary
    requires TotalArea(v0, v1, v2, p) != 0.0
  {
    var t := TotalArea(v0, v1, v2, p);
    Bary(Edge0(v0, v1, v2, p) / t, Edge1(v0, v1, v2, p) / t, Edge2(v0, v1, v2, p) / t)
  }

  /** W0/h0 + W1/h1 + W2/h2 is defined and non-zero, so that its reciprocal exists. */
  predicate Invertible(wt: Bary, h: Vec3)
  {
    h.x != 0.0 && h.y != 0.0 && h.z != 0.0 && wt.b0 / h.x + wt.b1 / h.y + wt.b2 / h.z != 0.0
  }

  /** 1 / (W0/h0 + W1/h1 + W2/h2): the interpolated depth for h = z, the
      interpolated w for h = w. */
  function Harmonic(wt: Bary, h: Vec3): real
    requires Invertible(wt, h)
  {
    1.0 / (wt.b0 / h.x + wt.b1 / h.y + wt.b2 / h.z)
  }

  /** (a0*W0/w0 + a1*W1/w1 + a2*W2/w2) * interpolatedW, one channel. */
  function Perspective(a0: real, a1: real, a2: real, wt: Bary, h: Vec3): real
    requires Invertible(wt, h)
  {
    (a0 * wt.b0 / h.x + a1 * wt.b1 / h.y + a2 * wt.b2 / h.z) * Harmonic(wt, h)
  }

  function Perspective2(a0: Vec2, a1: Vec2, a2: Vec2, wt: Bary, h: Vec3): Vec2
    requires Invertible(wt, h)
  {
    Vec2(Perspective(a0.x, a1.x, a2.x, wt, h), Perspective(a0.y, a1.y, a2.y, wt, h))
  }

  function Perspective3(a0: Vec3, a1: Vec3, a2: Vec3, wt: Bary, h: Vec3): Vec3
    requires Invertible(wt, h)
  {
    Vec3(Perspective(a0.x, a1.x, a2.x, wt, h), Perspective(a0.y, a1.y, a2.y, wt, h),
         Perspective(a0.z, a1.z, a2.z, wt, h))
  }

  function PerspectiveRgb(a0: Rgb, a1: Rgb, a2: Rgb, wt: Bary, h: Vec3): Rgb
    requires Invertible(wt, h)
  {
    Rgb(Perspective(a0.r, a1.r, a2.r, wt, h), Perspective(a0.g, a1.g, a2.g, wt, h),
        Perspective(a0.b, a1.b, a2.b, wt, h))
  }

  function Depths(v0: VertexOut, v1: VertexOut, v2: VertexOut): Vec3
  {
    Vec3(v0.position.z, v1.position.z, v2.position.z)
  }

  function Ws(v0: VertexOut, v1: VertexOut, v2: VertexOut): Vec3
  {
    Vec3(v0.position.w, v1.position.w, v2.position.w)
  }

  /** Utils::IsPixelInterpolated. The interpolated normal is computed by the source
      but never stored, so the result's normal is the pixel's own. */
  function IsPixelInterpolated(v0: VertexOut, v1: VertexOut, v2: VertexOut, pixel: VertexOut): (r: Coverage)
    // the edge test rejects exactly when some cross product is positive
    ensures r.OutsideEdge? <==>
              Edge0(v0, v1, v2, pixel) > 0.0 || Edge1(v0, v1, v2, pixel) > 0.0 || Edge2(v0, v1, v2, pixel) > 0.0
    // the depth range [0,1] is inclusive at both ends
    ensures r.DepthCulled? ==> r.depth < 0.0 || r.depth > 1.0
    ensures r.Covered? ==> 0.0 <= r.depth <= 1.0
    // position, normal and uv of pixelVector are never written
    ensures r.Covered? ==>
              r.pixel.position == pixel.position && r.pixel.normal == pixel.normal && r.pixel.uv == pixel.uv
    // a pixel is set aside only where the source divides by zero
    ensures r.Degenerate? ==>
              TotalArea(v0, v1, v2, pixel) == 0.0 ||
              !Invertible(Weights(v0, v1, v2, pixel), Depths(v0, v1, v2)) ||
              !Invertible(Weights(v0, v1, v2, pixel), Ws(v0, v1, v2))
    ensures !r.OutsideEdge? && TotalArea(v0, v1, v2, pixel) == 0.0 ==> r.Degenerate?
  {
    var c1 := Edge1(v0, v1, v2, pixel);
    if c1 > 0.0 then OutsideEdge else
    var c0 := Edge0(v0, v1, v2, pixel);
    if c0 > 0.0 then OutsideEdge else
    var c2 := Edge2(v0, v1, v2, pixel);
    if c2 > 0.0 then OutsideEdge else
    if TotalArea(v0, v1, v2, pixel) == 0.0 then Degenerate else
    var wt := Weights(v0, v1, v2, pixel);
    if !Invertible(wt, Depths(v0, v1, v2)) then Degenerate else
    var depth := Harmonic(wt, Depths(v0, v1, v2));
    if depth < 0.0 || depth > 1.0 then DepthCulled(depth) else
    var h := Ws(v0, v1, v2);
    if !Invertible(wt, h) then Degenerate else
    Covered(pixel.(color := PerspectiveRgb(v0.color, v1.color, v2.color, wt, h),
                   tangent := Perspective3(v0.tangent, v1.tangent, v2.tangent, wt, h),
                   viewDirection := Perspective3(v0.viewDirection, v1.viewDirection, v2.viewDirection, wt, h)),
            Perspective2(v0.uv, v1.uv, v2.uv, wt, h),
            depth)
  }

  /** The three cross products always add up to the triangle's signed doubled
      area: totalParallelogramArea does not depend on the pixel. */
  lemma AreaIndependentOfPixel(v0: VertexOut, v1: VertexOut, v2: VertexOut, p: VertexOut)
    ensures TotalArea(v0, v1, v2, p) == SignedArea(v0, v1, v2)
  {
    var a, b, c, q := XY(v0.position), XY(v1.position), XY(v2.position), XY(p.position);
    assert Edge0(v0, v1, v2, p) == (q.x - b.x) * (c.y - b.y) - (q.y - b.y) * (c.x - b.x);
    assert Edge1(v0, v1, v2, p) == (q.x - c.x) * (a.y - c.y) - (q.y - c.y) * (a.x - c.x);
    assert Edge2(v0, v1, v2, p) == (q.x - a.x) * (b.y - a.y) - (q.y - a.y) * (b.x - a.x);
    assert SignedArea(v0, v1, v2) == (c.x - a.x) * (b.y - a.y) - (c.y - a.y) * (b.x - a.x);
  }

  /** Whenever the area is non-zero the weights form a partition of unity. */
  lemma WeightsSumToOne(v0: VertexOut, v1: VertexOut, v2: VertexOut, p: VertexOut)
    requires SignedArea(v0, v1, v2) != 0.0
    ensures TotalArea(v0, v1, v2, p) != 0.0
    ensures var wt := Weights(v0, v1, v2, p); wt.b0 + wt.b1 + wt.b2 == 1.0
  {
    AreaIndependentOfPixel(v0, v1, v2, p);
    var t := TotalArea(v0, v1, v2, p);
    var e0, e1, e2 := Edge0(v0, v1, v2, p), Edge1(v0, v1, v2, p), Edge2(v0, v1, v2, p);
    assert e0 / t + e1 / t + e2 / t == (e0 + e1 + e2) / t;
  }

  /** A covered pixel comes from a triangle of negative signed area, and its
      weights are non-negative and sum to one. */
  lemma CoveredWeights(v0: VertexOut, v1: VertexOut, v2: VertexOut, p: VertexOut)
    requires IsPixelInterpolated(v0, v1, v2, p).Covered?
    ensures SignedArea(v0, v1, v2) < 0.0
    ensures var wt := Weights(v0, v1, v2, p);
            wt.b0 >= 0.0 && wt.b1 >= 0.0 && wt.b2 >= 0.0 && wt.b0 + wt.b1 + wt.b2 == 1.0
  {
    AreaIndependentOfPixel(v0, v1, v2, p);
    WeightsSumToOne(v0, v1, v2, p);
    var t := TotalArea(v0, v1, v2, p);
    var e0, e1, e2 := Edge0(v0, v1, v2, p), Edge1(v0, v1, v2, p), Edge2(v0, v1, v2, p);
    assert t < 0.0;
    assert e0 / t >= 0.0 && e1 / t >= 0.0 && e2 / t >= 0.0 by {
      DivNonPositive(e0, t);
      DivNonPositive(e1, t);
      DivNonPositive(e2, t);
    }
  }

  lemma DivNonPositive(e: real, t: real)
    requires e <= 0.0 && t < 0.0
    ensures e / t >= 0.0
  {
    assert e / t == (-e) / (-t);
  }

  predicate NonZero(h: Vec3) { h.x != 0.0 && h.y != 0.0 && h.z != 0.0 }

  /** All weight on corner k. */
  function Unit(k: nat): Bary
    requires k < 3
  {
    if k == 0 then Bary(1.0, 0.0, 0.0) else if k == 1 then Bary(0.0, 1.0, 0.0) else Bary(0.0, 0.0, 1.0)
  }

  function Pick<T>(a0: T, a1: T, a2: T, k: nat): T
    requires k < 3
  {
    if k == 0 then a0 else if k == 1 then a1 else a2
  }

  /** With all weight on one corner, 1 / (W0/h0 + W1/h1 + W2/h2) is that corner's h. */
  lemma HarmonicAtCorner(h: Vec3, k: nat)
    requires k < 3 && NonZero(h)
    ensures Invertible(Unit(k), h) && Harmonic(Unit(k), h) == Pick(h.x, h.y, h.z, k)
  {
    var c := Pick(h.x, h.y, h.z, k);
    assert 1.0 / c != 0.0;
    assert 1.0 / (1.0 / c) == c;
  }

  /** With all weight on one corner, perspective interpolation returns that
      corner's own value. */
  lemma PerspectiveAtCorner(a0: real, a1: real, a2: real, h: Vec3, k: nat)
    requires k < 3 && NonZero(h)
    ensures Invertible(Unit(k), h) && Perspective(a0, a1, a2, Unit(k), h) == Pick(a0, a1, a2, k)
  {
    HarmonicAtCorner(h, k);
    var wt := Unit(k);
    var s := a0 * wt.b0 / h.x + a1 * wt.b1 / h.y + a2 * wt.b2 / h.z;
    if k == 0 {
      assert s == a0 / h.x;
      assert a0 / h.x * h.x == a0;
    } else if k == 1 {
      assert s == a1 / h.y;
      assert a1 / h.y * h.y == a1;
    } else {
      assert s == a2 / h.z;
      assert a2 / h.z * h.z == a2;
    }
  }

  lemma Perspective2AtCorner(a0: Vec2, a1: Vec2, a2: Vec2, h: Vec3, k: nat)
    requires k < 3 && NonZero(h)
    ensures Invertible(Unit(k), h) && Perspective2(a0, a1, a2, Unit(k), h) == Pick(a0, a1, a2, k)
  {
    PerspectiveAtCorner(a0.x, a1.x, a2.x, h, k);
    PerspectiveAtCorner(a0.y, a1.y, a2.y, h, k);
  }

  lemma Perspective3AtCorner(a0: Vec3, a1: Vec3, a2: Vec3, h: Vec3, k: nat)
    requires k < 3 && NonZero(h)
    ensures Invertible(Unit(k), h) && Perspective3(a0, a1, a2, Unit(k), h) == Pick(a0, a1, a2, k)
  {
    PerspectiveAtCorner(a0.x, a1.x, a2.x, h, k);
    PerspectiveAtCorner(a0.y, a1.y, a2.y, h, k);
    PerspectiveAtCorner(a0.z, a1.z, a2.z, h, k);
  }

  lemma PerspectiveRgbAtCorner(a0: Rgb, a1: Rgb, a2: Rgb, h: Vec3, k: nat)
    requires k < 3 && NonZero(h)
    ensures Invertible(Unit(k), h) && PerspectiveRgb(a0, a1, a2, Unit(k), h) == Pick(a0, a1, a2, k)
  {
    PerspectiveAtCorner(a0.r, a1.r, a2.r, h, k);
    PerspectiveAtCorner(a0.g, a1.g, a2.g, h, k);
    PerspectiveAtCorner(a0.b, a1.b, a2.b, h, k);
  }

  /** At a pixel centred on corner k the weights are that corner's unit weights. */
  lemma WeightsAtCorner(v0: VertexOut, v1: VertexOut, v2: VertexOut, p: VertexOut, k: nat)
    requires k < 3 && XY(p.position) == XY(Pick(v0, v1, v2, k).position)
    requires SignedArea(v0, v1, v2) != 0.0
    ensures TotalArea(v0, v1, v2, p) != 0.0 && Weights(v0, v1, v2, p) == Unit(k)
  {
    AreaIndependentOfPixel(v0, v1, v2, p);
    var t := TotalArea(v0, v1, v2, p);
    var e0, e1, e2 := Edge0(v0, v1, v2, p), Edge1(v0, v1, v2, p), Edge2(v0, v1, v2, p);
    if k == 0 {
      assert e1 == 0.0 && e2 == 0.0 && e0 == t;
      assert e0 / t == 1.0 && e1 / t == 0.0 && e2 / t == 0.0;
    } else if k == 1 {
      assert e0 == 0.0 && e2 == 0.0 && e1 == t;
      assert e0 / t == 0.0 && e1 / t == 1.0 && e2 / t == 0.0;
    } else {
      assert e0 == 0.0 && e1 == 0.0 && e2 == t;
      assert e0 / t == 0.0 && e1 / t == 0.0 && e2 / t == 1.0;
    }
  }

  /** Interpolation is exact at the vertices: at a pixel centred on corner k
      (k = 0, 1, 2), a covered pixel carries exactly that corner's depth, uv,
      colour, tangent and view direction; and such a pixel is covered whenever
      the triangle has negative area, every z and w is non-zero and the
      corner's depth lies in (0, 1]. */
  lemma ExactAtVertex(v0: VertexOut, v1: VertexOut, v2: VertexOut, p: VertexOut, k: nat)
    requires k < 3 && XY(p.position) == XY(Pick(v0, v1, v2, k).position)
    ensures var r := IsPixelInterpolated(v0, v1, v2, p); var v := Pick(v0, v1, v2, k);
            r.Covered? ==>
              r.depth == v.position.z && r.uv == v.uv && r.pixel.color == v.color &&
              r.pixel.tangent == v.tangent && r.pixel.viewDirection == v.viewDirection
    ensures var v := Pick(v0, v1, v2, k);
            (SignedArea(v0, v1, v2) < 0.0 && NonZero(Depths(v0, v1, v2)) && NonZero(Ws(v0, v1, v2)) &&
             0.0 < v.position.z <= 1.0) ==> IsPixelInterpolated(v0, v1, v2, p).Covered?
  {
    AreaIndependentOfPixel(v0, v1, v2, p);
    var r := IsPixelInterpolated(v0, v1, v2, p);
    var zs, h := Depths(v0, v1, v2), Ws(v0, v1, v2);
    if r.Covered? || (SignedArea(v0, v1, v2) < 0.0 && NonZero(zs) && NonZero(h)) {
      WeightsAtCorner(v0, v1, v2, p, k);
      if NonZero(zs) {
        HarmonicAtCorner(zs, k);
      }
      if NonZero(h) {
        Perspective2AtCorner(v0.uv, v1.uv, v2.uv, h, k);
        PerspectiveRgbAtCorner(v0.color, v1.color, v2.color, h, k);
        Perspective3AtCorner(v0.tangent, v1.tangent, v2.tangent, h, k);
        Perspective3AtCorner(v0.viewDirection, v1.viewDirection, v2.viewDirection, h, k);
      }
    }
  }

  function Min3(a: real, b: real, c: real): real
  {
    if a <= b && a <= c then a else if b <= c then b else c
  }

  function Max3(a: real, b: real, c: real): real
  {
    if a >= b && a >= c then a else if b >= c then b else c
  }

  /** The cross products weight the vertices into the pixel:
      cross0*V0 + cross1*V1 + cross2*V2 == totalParallelogramArea * P. */
  lemma Reconstruction(v0: VertexOut, v1: VertexOut, v2: VertexOut, p: VertexOut)
    ensures var e0, e1, e2 := Edge0(v0, v1, v2, p), Edge1(v0, v1, v2, p), Edge2(v0, v1, v2, p);
            e0 * v0.position.x + e1 * v1.position.x + e2 * v2.position.x == TotalArea(v0, v1, v2, p) * p.position.x &&
            e0 * v0.position.y + e1 * v1.position.y + e2 * v2.position.y == TotalArea(v0, v1, v2, p) * p.position.y
  {
    var x0, y0, x1, y1 := v0.position.x, v0.position.y, v1.position.x, v1.position.y;
    var x2, y2, px, py := v2.position.x, v2.position.y, p.position.x, p.position.y;
    var e0 := (px - x1) * (y2 - y1) - (py - y1) * (x2 - x1);
    var e1 := (px - x2) * (y0 - y2) - (py - y2) * (x0 - x2);
    var e2 := (px - x0) * (y1 - y0) - (py - y0) * (x1 - x0);
    assert Edge0(v0, v1, v2, p) == e0 && Edge1(v0, v1, v2, p) == e1 && Edge2(v0, v1, v2, p) == e2;
    AreaIndependentOfPixel(v0, v1, v2, p);
    var t := (x2 - x0) * (y1 - y0) - (y2 - y0) * (x1 - x0);
    assert e0 * x0 + e1 * x1 + e2 * x2 == t * px;
    assert e0 * y0 + e1 * y1 + e2 * y2 == t * py;
  }

  /** A convex combination of three reals lies between their minimum and maximum. */
  lemma ConvexBounds(w0: real, w1: real, w2: real, a: real, b: real, c: real)
    requires w0 >= 0.0 && w1 >= 0.0 && w2 >= 0.0 && w0 + w1 + w2 == 1.0
    ensures Min3(a, b, c) <= w0 * a + w1 * b + w2 * c <= Max3(a, b, c)
  {
    var lo, hi := Min3(a, b, c), Max3(a, b, c);
    var s := w0 * a + w1 * b + w2 * c;
    assert lo <= a && lo <= b && lo <= c && a <= hi && b <= hi && c <= hi;
    MulNonNegative(w0, a - lo);
    MulNonNegative(w1, b - lo);
    MulNonNegative(w2, c - lo);
    MulNonNegative(w0, hi - a);
    MulNonNegative(w1, hi - b);
    MulNonNegative(w2, hi - c);
    assert s - lo == w0 * (a - lo) + w1 * (b - lo) + w2 * (c - lo);
    assert hi - s == w0 * (hi - a) + w1 * (hi - b) + w2 * (hi - c);
  }

  /** A covered pixel lies inside the triangle's axis-aligned hull. */
  lemma CoveredPixelInHull(v0: VertexOut, v1: VertexOut, v2: VertexOut, p: VertexOut)
    requires IsPixelInterpolated(v0, v1, v2, p).Covered?
    ensures Min3(v0.position.x, v1.position.x, v2.position.x) <= p.position.x <= Max3(v0.position.x, v1.position.x, v2.position.x)
    ensures Min3(v0.position.y, v1.position.y, v2.position.y) <= p.position.y <= Max3(v0.position.y, v1.position.y, v2.position.y)
  {
    CoveredWeights(v0, v1, v2, p);
    AreaIndependentOfPixel(v0, v1, v2, p);
    Reconstruction(v0, v1, v2, p);
    var e0, e1, e2 := Edge0(v0, v1, v2, p), Edge1(v0, v1, v2, p), Edge2(v0, v1, v2, p);
    var t := TotalArea(v0, v1, v2, p);
    HullOfCombination(e0, e1, e2, t, v0.position.x, v1.position.x, v2.position.x, p.position.x);
    HullOfCombination(e0, e1, e2, t, v0.position.y, v1.position.y, v2.position.y, p.position.y);
  }

  /** q with t*q = e0*a + e1*b + e2*c, all e's of the sign of their sum t, lies between
      the least and the greatest of a, b, c. */
  lemma HullOfCombination(e0: real, e1: real, e2: real, t: real, a: real, b: real, c: real, q: real)
    requires t < 0.0 && e0 <= 0.0 && e1 <= 0.0 && e2 <= 0.0 && e0 + e1 + e2 == t
    requires e0 * a + e1 * b + e2 * c == t * q
    ensures Min3(a, b, c) <= q <= Max3(a, b, c)
  {
    DivNonPositive(e0, t);
    DivNonPositive(e1, t);
    DivNonPositive(e2, t);
    assert e0 / t + e1 / t + e2 / t == (e0 + e1 + e2) / t == 1.0;
    DividedCombination(e0, e1, e2, t, a, b, c, q);
    ConvexBounds(e0 / t, e1 / t, e2 / t, a, b, c);
  }

  lemma DividedCombination(e0: real, e1: real, e2: real, t: real, a: real, b: real, c: real, q: real)
    requires t != 0.0 && e0 * a + e1 * b + e2 * c == t * q
    ensures e0 / t * a + e1 / t * b + e2 / t * c == q
  {
    assert e0 / t * a + e1 / t * b + e2 / t * c == (e0 * a + e1 * b + e2 * c) / t;
    assert (t * q) / t == q;
  }

  lemma MulNonNegative(x: real, y: real)
    requires x >= 0.0 && y >= 0.0
    ensures x * y >= 0.0
  {
  }
}
