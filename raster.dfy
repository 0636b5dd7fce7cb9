/** The value-level meaning of one frame of Renderer::Render: which index
    triples make triangles, the clamped bounding box, the per-pixel depth test
    and colour choice, and the buffers after every triangle has been drawn.
    The Renderer class (module Frame) is proved to compute exactly these. */
module Raster {
  import opened Geometry
  import opened Interpolation
  import opened Shading
  import opened Transform

  /** std::numeric_limits<float>::max(), the "nothing drawn yet" depth. */
  const FloatMax: real := 340282346638528859811704183484516925440.0

  /** What a colour-buffer cell was last set from. The colour arithmetic itself
      (texture sampling, MaxToOne, 8-bit packing) is not part of the model. */
  datatype FragmentColor =
    | Background                                              // SDL_FillRect at frame start
    | NormalMapSample(uv: Vec2)                               // m_NormalMapVehicle->Sample(uv)
    | Shaded(mode: LightingMode, pixel: VertexOut, uv: Vec2)  // PixelShading(P, uv)
    | DepthGray(level: real)                                  // Remap of the depth, as grey

  /** The flags and mode of the renderer that decide a fragment's colour. */
  datatype ColorConfig = ColorConfig(normalMapEnabled: bool, finalColorEnabled: bool, mode: LightingMode)

  /** Remap: the linear map taking [fromLow, fromHigh] onto [toLow, toHigh]. */
  function Remap(value: real, fromLow: real, fromHigh: real, toLow: real, toHigh: real): real
    requires fromLow != fromHigh
  {
    (value - fromLow) / (fromHigh - fromLow) * (toHigh - toLow) + toLow
  }

  /** The depth visualisation maps the band [0.9, 1] of depths onto greys [0.2, 1],
      keeping their order. */
  lemma DepthRemapBand(d: real, e: real)
    ensures Remap(0.9, 0.9, 1.0, 0.2, 1.0) == 0.2 && Remap(1.0, 0.9, 1.0, 0.2, 1.0) == 1.0
    ensures d <= e ==> Remap(d, 0.9, 1.0, 0.2, 1.0) <= Remap(e, 0.9, 1.0, 0.2, 1.0)
  {
    assert Remap(d, 0.9, 1.0, 0.2, 1.0) == (d - 0.9) * 8.0 + 0.2;
    assert Remap(e, 0.9, 1.0, 0.2, 1.0) == (e - 0.9) * 8.0 + 0.2;
  }

  /** The colour source, by priority: the normal-map flag, then the final-colour
      flag, then the depth visualisation. */
  function FragmentColorOf(cfg: ColorConfig, pixel: VertexOut, uv: Vec2, depth: real): (c: FragmentColor)
    ensures c != Background
    ensures cfg.normalMapEnabled ==> c == NormalMapSample(uv)
    ensures !cfg.normalMapEnabled && cfg.finalColorEnabled ==> c == Shaded(cfg.mode, pixel, uv)
    ensures !cfg.normalMapEnabled && !cfg.finalColorEnabled ==> c == DepthGray(Remap(depth, 0.9, 1.0, 0.2, 1.0))
  {
    if cfg.normalMapEnabled then NormalMapSample(uv)
    else if cfg.finalColorEnabled && !cfg.normalMapEnabled then Shaded(cfg.mode, pixel, uv)
    else DepthGray(Remap(depth, 0.9, 1.0, 0.2, 1.0))
  }

  // ---------------------------------------------------------------- triangles

  datatype Triangle = Triangle(v0: VertexOut, v1: VertexOut, v2: VertexOut)

  /** The positions in the index buffer that make the triangle starting at i:
      strips swap the second and third for odd i. */
  function TriangleCorners(topology: Topology, i: nat): (c: (nat, nat, nat))
    ensures c.0 == i
    ensures topology == TriangleList ==> c == (i, i + 1, i + 2)
    ensures topology == TriangleStrip && i % 2 == 0 ==> c == (i, i + 1, i + 2)
    ensures topology == TriangleStrip && i % 2 == 1 ==> c == (i, i + 2, i + 1)
  {
    if topology == TriangleList then (i, i + 1, i + 2)
    else if i % 2 == 0 then (i, i + 1, i + 2)
    else (i, i + 2, i + 1)
  }

  predicate IndicesValid(indices: seq<nat>, vertexCount: nat)
  {
    forall k :: 0 <= k < |indices| ==> indices[k] < vertexCount
  }

  function SelectTriangle(vs: seq<VertexOut>, indices: seq<nat>, topology: Topology, i: nat): Triangle
    requires i + 2 < |indices| && IndicesValid(indices, |vs|)
  {
    var c := TriangleCorners(topology, i);
    Triangle(vs[indices[c.0]], vs[indices[c.1]], vs[indices[c.2]])
  }

  /** Swapping the second and third vertex negates the signed area: the odd
      strip triangles have their winding reversed. */
  lemma SwapReversesWinding(v0: VertexOut, v1: VertexOut, v2: VertexOut)
    ensures SignedArea(v0, v2, v1) == -SignedArea(v0, v1, v2)
  {
  }

  /** The loop `for (i = 0; i < size - 2; i += 3)` visits i = 3t exactly for
      t < size / 3 (with size >= 2, so that size - 2 does not wrap). */
  lemma TriangleLoopBound(size: nat, t: nat)
    requires size >= 2
    ensures 3 * t < size - 2 <==> t < size / 3
  {
  }

  /** The loop stops at the first i = 3n with i >= size - 2, which is n = size / 3. */
  lemma TriangleLoopEnd(size: nat, n: nat)
    requires size >= 2 && size - 2 <= 3 * n <= size
    ensures n == size / 3
  {
  }

  // ------------------------------------------------------------- bounding box

  /** static_cast<int>: truncation toward zero. */
  function Truncate(x: real): (n: int)
    ensures x >= 0.0 ==> n as real <= x < n as real + 1.0
    ensures x < 0.0 ==> n as real - 1.0 < x <= n as real
  {
    if x >= 0.0 then x.Floor else -((-x).Floor)
  }

  /** std::ranges::clamp */
  function Clamp(v: int, lo: int, hi: int): (r: int)
    requires lo <= hi
    ensures lo <= r <= hi
    ensures lo <= v <= hi ==> r == v
  {
    if v < lo then lo else if hi < v then hi else v
  }

  datatype Box = Box(minX: int, maxX: int, minY: int, maxY: int)

  /** The integer box of the triangle with a one-pixel margin, clamped to the screen. */
  function BoundingBox(t: Triangle, width: nat, height: nat): (b: Box)
    ensures 0 <= b.minX <= width && 0 <= b.maxX <= width
    ensures 0 <= b.minY <= height && 0 <= b.maxY <= height
  {
    var minX := Truncate(Min3(t.v0.position.x, t.v1.position.x, t.v2.position.x) - 1.0);
    var maxX := Truncate(Max3(t.v0.position.x, t.v1.position.x, t.v2.position.x) + 1.0);
    var minY := Truncate(Min3(t.v0.position.y, t.v1.position.y, t.v2.position.y) - 1.0);
    var maxY := Truncate(Max3(t.v0.position.y, t.v1.position.y, t.v2.position.y) + 1.0);
    Box(Clamp(minX, 0, width), Clamp(maxX, 0, width), Clamp(minY, 0, height), Clamp(maxY, 0, height))
  }

  predicate InBox(b: Box, px: int, py: int)
  {
    b.minX <= px < b.maxX && b.minY <= py < b.maxY
  }

  /** The pixel-centre candidate P = (px + 0.5, py + 0.5, 0, 1); its other
      attributes are the defaults of Vertex_Out. */
  function Candidate(px: int, py: int): VertexOut
  {
    VertexOut(Vec4(px as real + 0.5, py as real + 0.5, 0.0, 1.0), White, Zero2, Zero3, Zero3, Zero3)
  }

  function Fragment(t: Triangle, px: int, py: int): Coverage
  {
    IsPixelInterpolated(t.v0, t.v1, t.v2, Candidate(px, py))
  }

  /** The margin never loses a pixel: every on-screen pixel the coverage test
      accepts lies inside the clamped box, so the box only saves work. */
  lemma BoxIsConservative(t: Triangle, width: nat, height: nat, px: int, py: int)
    requires 0 <= px < width && 0 <= py < height
    requires Fragment(t, px, py).Covered?
    ensures InBox(BoundingBox(t, width, height), px, py)
  {
    CoveredPixelInHull(t.v0, t.v1, t.v2, Candidate(px, py));
    var x := px as real + 0.5;
    var y := py as real + 0.5;
    TruncateLowMargin(Min3(t.v0.position.x, t.v1.position.x, t.v2.position.x), x, px);
    TruncateHighMargin(Max3(t.v0.position.x, t.v1.position.x, t.v2.position.x), x, px);
    TruncateLowMargin(Min3(t.v0.position.y, t.v1.position.y, t.v2.position.y), y, py);
    TruncateHighMargin(Max3(t.v0.position.y, t.v1.position.y, t.v2.position.y), y, py);
  }

  lemma TruncateLowMargin(lo: real, x: real, p: int)
    requires x == p as real + 0.5 && lo <= x
    ensures Truncate(lo - 1.0) <= p
  {
  }

  lemma TruncateHighMargin(hi: real, x: real, p: int)
    requires x == p as real + 0.5 && x <= hi && p >= 0
    ensures p < Truncate(hi + 1.0)
  {
  }

  // ----------------------------------------------------------------- buffers

  /** The depth buffer and the colour buffer as values. */
  datatype Buffers = Buffers(depth: seq<real>, color: seq<FragmentColor>)

  predicate Sized(b: Buffers, n: nat)
  {
    |b.depth| == n && |b.color| == n
  }

  /** pixelIndex = px + py * width */
  function PixelIndex(px: int, py: int, width: nat): int
  {
    px + py * width
  }

  /** Every pixel of the clamped range has its index inside the buffers, and
      distinct pixels have distinct indices. */
  lemma PixelIndexInRange(px: int, py: int, qx: int, qy: int, width: nat, height: nat)
    requires 0 <= px < width && 0 <= py < height
    requires 0 <= qx < width && 0 <= qy < height
    ensures 0 <= PixelIndex(px, py, width) < width * height
    ensures PixelIndex(px, py, width) == PixelIndex(qx, qy, width) ==> px == qx && py == qy
  {
    RowStart(py, height - 1, width);
    assert (height - 1) * width == height * width - width;
    if py < qy {
      RowStart(py + 1, qy, width);
      assert (py + 1) * width == py * width + width;
    } else if qy < py {
      RowStart(qy + 1, py, width);
      assert (qy + 1) * width == qy * width + width;
    }
  }

  lemma RowStart(a: int, b: int, width: nat)
    requires a <= b
    ensures a * width <= b * width
  {
    assert b * width - a * width == (b - a) * width;
  }

  /** The buffers at frame start: depth at the sentinel, colour at the background. */
  function Cleared(n: nat): (b: Buffers)
    ensures Sized(b, n)
  {
    Buffers(seq(n, _ => FloatMax), seq(n, _ => Background))
  }

  /** One candidate pixel: coverage, then the nearest-wins depth test (ties pass),
      then one depth cell and one colour cell. */
  function StepPixel(b: Buffers, t: Triangle, cfg: ColorConfig, width: nat, height: nat, px: int, py: int): (r: Buffers)
    requires Sized(b, width * height) && 0 <= px < width && 0 <= py < height
    ensures Sized(r, width * height)
    ensures 0 <= PixelIndex(px, py, width) < width * height
    ensures var k := PixelIndex(px, py, width);
            match Fragment(t, px, py)
            case Covered(p, uv, d) =>
              if d <= b.depth[k] then r == Buffers(b.depth[k := d], b.color[k := FragmentColorOf(cfg, p, uv, d)])
              else r == b
            case _ => r == b
  {
    PixelIndexInRange(px, py, px, py, width, height);
    match Fragment(t, px, py)
    case Covered(p, uv, d) =>
      var k := PixelIndex(px, py, width);
      if d > b.depth[k] then b
      else Buffers(b.depth[k := d], b.color[k := FragmentColorOf(cfg, p, uv, d)])
    case _ => b
  }

  /** Only the pixel's own cells can change, and the stored depth never grows. */
  lemma StepPixelFrame(b: Buffers, t: Triangle, cfg: ColorConfig, width: nat, height: nat, px: int, py: int, k: int)
    requires Sized(b, width * height) && 0 <= px < width && 0 <= py < height
    requires 0 <= k < width * height
    ensures var r := StepPixel(b, t, cfg, width, height, px, py);
            r.depth[k] <= b.depth[k] &&
            (k != PixelIndex(px, py, width) ==> r.depth[k] == b.depth[k] && r.color[k] == b.color[k])
  {
  }

  /** The inner loop: py from lo up to hi, at column px. */
  function Column(b: Buffers, t: Triangle, cfg: ColorConfig, width: nat, height: nat, px: int, lo: int, hi: int): (r: Buffers)
    requires Sized(b, width * height) && 0 <= px < width && 0 <= lo && hi <= height
    ensures Sized(r, width * height)
    decreases hi - lo
  {
    if hi <= lo then b
    else StepPixel(Column(b, t, cfg, width, height, px, lo, hi - 1), t, cfg, width, height, px, hi - 1)
  }

  /** The outer loop: px from xlo up to xhi, each with the inner loop over [ylo, yhi). */
  function Rows(b: Buffers, t: Triangle, cfg: ColorConfig, width: nat, height: nat,
                xlo: int, xhi: int, ylo: int, yhi: int): (r: Buffers)
    requires Sized(b, width * height) && 0 <= xlo && xhi <= width && 0 <= ylo && yhi <= height
    ensures Sized(r, width * height)
    decreases xhi - xlo
  {
    if xhi <= xlo then b
    else Column(Rows(b, t, cfg, width, height, xlo, xhi - 1, ylo, yhi), t, cfg, width, height, xhi - 1, ylo, yhi)
  }

  /** One triangle: every pixel of its clamped box, column by column. */
  function DrawTriangle(b: Buffers, t: Triangle, cfg: ColorConfig, width: nat, height: nat): (r: Buffers)
    requires Sized(b, width * height)
    ensures Sized(r, width * height)
  {
    var box := BoundingBox(t, width, height);
    Rows(b, t, cfg, width, height, box.minX, box.maxX, box.minY, box.maxY)
  }

  /** The first n triangles of the triangle loop (i = 0, 3, ..., 3(n-1)). */
  function Triangles(b: Buffers, vs: seq<VertexOut>, indices: seq<nat>, topology: Topology,
                     cfg: ColorConfig, width: nat, height: nat, n: nat): (r: Buffers)
    requires Sized(b, width * height) && 3 * n <= |indices| && IndicesValid(indices, |vs|)
    ensures Sized(r, width * height)
  {
    if n == 0 then b
    else DrawTriangle(Triangles(b, vs, indices, topology, cfg, width, height, n - 1),
                      SelectTriangle(vs, indices, topology, 3 * (n - 1)), cfg, width, height)
  }

  /** One more iteration of the triangle loop draws the triangle at i = 3n. */
  lemma TrianglesNext(b: Buffers, vs: seq<VertexOut>, indices: seq<nat>, topology: Topology,
                      cfg: ColorConfig, width: nat, height: nat, n: nat)
    requires Sized(b, width * height) && 3 * n + 3 <= |indices| && IndicesValid(indices, |vs|)
    ensures Triangles(b, vs, indices, topology, cfg, width, height, n + 1) ==
            DrawTriangle(Triangles(b, vs, indices, topology, cfg, width, height, n),
                         SelectTriangle(vs, indices, topology, 3 * n), cfg, width, height)
  {
    assert 3 * (n + 1 - 1) == 3 * n;
  }

  predicate Drawable(s: ScreenMesh)
  {
    |s.indices| >= 2 && IndicesValid(s.indices, |s.verticesOut|)
  }

  /** The buffers at the end of a frame: cleared, then every triangle in order.
      They depend on the mesh and the configuration only, never on the previous
      frame's buffers. */
  function RenderFrame(s: ScreenMesh, cfg: ColorConfig, width: nat, height: nat): (r: Buffers)
    requires Drawable(s)
    ensures Sized(r, width * height)
  {
    Triangles(Cleared(width * height), s.verticesOut, s.indices, s.topology, cfg, width, height, |s.indices| / 3)
  }

  // ------------------------------------------------------------------ lemmas

  /** Within a frame the stored depth of a cell never increases: a column pass. */
  lemma {:induction false} ColumnMonotone(b: Buffers, t: Triangle, cfg: ColorConfig, width: nat, height: nat,
                                          px: int, lo: int, hi: int, k: int)
    requires Sized(b, width * height) && 0 <= px < width && 0 <= lo && hi <= height
    requires 0 <= k < width * height
    ensures Column(b, t, cfg, width, height, px, lo, hi).depth[k] <= b.depth[k]
    decreases hi - lo
  {
    if hi > lo {
      ColumnMonotone(b, t, cfg, width, height, px, lo, hi - 1, k);
      StepPixelFrame(Column(b, t, cfg, width, height, px, lo, hi - 1), t, cfg, width, height, px, hi - 1, k);
    }
  }

  /** Within a frame the stored depth of a cell never increases: a box pass. */
  lemma {:induction false} RowsMonotone(b: Buffers, t: Triangle, cfg: ColorConfig, width: nat, height: nat,
                                        xlo: int, xhi: int, ylo: int, yhi: int, k: int)
    requires Sized(b, width * height) && 0 <= xlo && xhi <= width && 0 <= ylo && yhi <= height
    requires 0 <= k < width * height
    ensures Rows(b, t, cfg, width, height, xlo, xhi, ylo, yhi).depth[k] <= b.depth[k]
    decreases xhi - xlo
  {
    if xhi > xlo {
      RowsMonotone(b, t, cfg, width, height, xlo, xhi - 1, ylo, yhi, k);
      ColumnMonotone(Rows(b, t, cfg, width, height, xlo, xhi - 1, ylo, yhi), t, cfg, width, height, xhi - 1, ylo, yhi, k);
    }
  }

  /** Within a frame the stored depth of a cell never increases: the triangle loop. */
  lemma {:induction false} TrianglesMonotone(b: Buffers, vs: seq<VertexOut>, indices: seq<nat>, topology: Topology,
                                             cfg: ColorConfig, width: nat, height: nat, n: nat, k: int)
    requires Sized(b, width * height) && 3 * n <= |indices| && IndicesValid(indices, |vs|)
    requires 0 <= k < width * height
    ensures Triangles(b, vs, indices, topology, cfg, width, height, n).depth[k] <= b.depth[k]
  {
    if n > 0 {
      TrianglesMonotone(b, vs, indices, topology, cfg, width, height, n - 1, k);
      var t := SelectTriangle(vs, indices, topology, 3 * (n - 1));
      var box := BoundingBox(t, width, height);
      RowsMonotone(Triangles(b, vs, indices, topology, cfg, width, height, n - 1), t, cfg, width, height,
                   box.minX, box.maxX, box.minY, box.maxY, k);
    }
  }

  /** After a column pass over a covered pixel its cell is at most that fragment's depth. */
  lemma {:induction false} ColumnBounded(b: Buffers, t: Triangle, cfg: ColorConfig, width: nat, height: nat,
                                         px: int, lo: int, hi: int, py: int)
    requires Sized(b, width * height) && 0 <= px < width && 0 <= lo && hi <= height
    requires lo <= py < hi && Fragment(t, px, py).Covered?
    ensures 0 <= PixelIndex(px, py, width) < width * height
    ensures Column(b, t, cfg, width, height, px, lo, hi).depth[PixelIndex(px, py, width)] <= Fragment(t, px, py).depth
    decreases hi - lo
  {
    PixelIndexInRange(px, py, px, py, width, height);
    if py < hi - 1 {
      ColumnBounded(b, t, cfg, width, height, px, lo, hi - 1, py);
      StepPixelFrame(Column(b, t, cfg, width, height, px, lo, hi - 1), t, cfg, width, height, px, hi - 1,
                     PixelIndex(px, py, width));
    }
  }

  /** After a box pass over a covered pixel its cell is at most that fragment's depth. */
  lemma {:induction false} RowsBounded(b: Buffers, t: Triangle, cfg: ColorConfig, width: nat, height: nat,
                                       xlo: int, xhi: int, ylo: int, yhi: int, px: int, py: int)
    requires Sized(b, width * height) && 0 <= xlo && xhi <= width && 0 <= ylo && yhi <= height
    requires xlo <= px < xhi && ylo <= py < yhi && Fragment(t, px, py).Covered?
    ensures 0 <= PixelIndex(px, py, width) < width * height
    ensures Rows(b, t, cfg, width, height, xlo, xhi, ylo, yhi).depth[PixelIndex(px, py, width)] <= Fragment(t, px, py).depth
    decreases xhi - xlo
  {
    PixelIndexInRange(px, py, px, py, width, height);
    var prev := Rows(b, t, cfg, width, height, xlo, xhi - 1, ylo, yhi);
    if px == xhi - 1 {
      ColumnBounded(prev, t, cfg, width, height, px, ylo, yhi, py);
    } else {
      RowsBounded(b, t, cfg, width, height, xlo, xhi - 1, ylo, yhi, px, py);
      ColumnMonotone(prev, t, cfg, width, height, xhi - 1, ylo, yhi, PixelIndex(px, py, width));
    }
  }

  /** After the first n triangles, a pixel covered by any of them holds a depth at
      most that fragment's depth. */
  lemma {:induction false} TrianglesBounded(b: Buffers, vs: seq<VertexOut>, indices: seq<nat>, topology: Topology,
                                            cfg: ColorConfig, width: nat, height: nat, n: nat, m: nat, px: int, py: int)
    requires Sized(b, width * height) && 3 * n <= |indices| && IndicesValid(indices, |vs|)
    requires m < n && 0 <= px < width && 0 <= py < height
    requires Fragment(SelectTriangle(vs, indices, topology, 3 * m), px, py).Covered?
    ensures 0 <= PixelIndex(px, py, width) < width * height
    ensures Triangles(b, vs, indices, topology, cfg, width, height, n).depth[PixelIndex(px, py, width)]
              <= Fragment(SelectTriangle(vs, indices, topology, 3 * m), px, py).depth
  {
    PixelIndexInRange(px, py, px, py, width, height);
    var prev := Triangles(b, vs, indices, topology, cfg, width, height, n - 1);
    var t := SelectTriangle(vs, indices, topology, 3 * (n - 1));
    var box := BoundingBox(t, width, height);
    assert Triangles(b, vs, indices, topology, cfg, width, height, n) ==
           Rows(prev, t, cfg, width, height, box.minX, box.maxX, box.minY, box.maxY);
    if m == n - 1 {
      BoxIsConservative(t, width, height, px, py);
      RowsBounded(prev, t, cfg, width, height, box.minX, box.maxX, box.minY, box.maxY, px, py);
    } else {
      TrianglesBounded(b, vs, indices, topology, cfg, width, height, n - 1, m, px, py);
      RowsMonotone(prev, t, cfg, width, height, box.minX, box.maxX, box.minY, box.maxY, PixelIndex(px, py, width));
    }
  }

  /** Nearest wins: at the end of a frame every pixel holds a depth no greater than
      that of any fragment of any triangle that covered it, whatever the draw order. */
  lemma NearestWins(s: ScreenMesh, cfg: ColorConfig, width: nat, height: nat, m: nat, px: int, py: int)
    requires Drawable(s) && m < |s.indices| / 3 && 0 <= px < width && 0 <= py < height
    requires Fragment(SelectTriangle(s.verticesOut, s.indices, s.topology, 3 * m), px, py).Covered?
    ensures 0 <= PixelIndex(px, py, width) < width * height
    ensures RenderFrame(s, cfg, width, height).depth[PixelIndex(px, py, width)]
              <= Fragment(SelectTriangle(s.verticesOut, s.indices, s.topology, 3 * m), px, py).depth
  {
    TrianglesBounded(Cleared(width * height), s.verticesOut, s.indices, s.topology, cfg, width, height,
                     |s.indices| / 3, m, px, py);
  }

  /** Every cell is either untouched (sentinel depth, background colour) or was
      drawn (a depth in [0, 1] and a fragment colour). */
  predicate Consistent(b: Buffers, n: nat)
  {
    Sized(b, n) &&
    forall k :: 0 <= k < n ==>
      (b.depth[k] == FloatMax && b.color[k] == Background) || (0.0 <= b.depth[k] <= 1.0 && b.color[k] != Background)
  }

  lemma {:induction false} ColumnConsistent(b: Buffers, t: Triangle, cfg: ColorConfig, width: nat, height: nat,
                                            px: int, lo: int, hi: int)
    requires Consistent(b, width * height) && 0 <= px < width && 0 <= lo && hi <= height
    ensures Consistent(Column(b, t, cfg, width, height, px, lo, hi), width * height)
    decreases hi - lo
  {
    if hi > lo {
      ColumnConsistent(b, t, cfg, width, height, px, lo, hi - 1);
    }
  }

  lemma {:induction false} RowsConsistent(b: Buffers, t: Triangle, cfg: ColorConfig, width: nat, height: nat,
                                          xlo: int, xhi: int, ylo: int, yhi: int)
    requires Consistent(b, width * height) && 0 <= xlo && xhi <= width && 0 <= ylo && yhi <= height
    ensures Consistent(Rows(b, t, cfg, width, height, xlo, xhi, ylo, yhi), width * height)
    decreases xhi - xlo
  {
    if xhi > xlo {
      RowsConsistent(b, t, cfg, width, height, xlo, xhi - 1, ylo, yhi);
      ColumnConsistent(Rows(b, t, cfg, width, height, xlo, xhi - 1, ylo, yhi), t, cfg, width, height, xhi - 1, ylo, yhi);
    }
  }

  lemma {:induction false} TrianglesConsistent(b: Buffers, vs: seq<VertexOut>, indices: seq<nat>, topology: Topology,
                                               cfg: ColorConfig, width: nat, height: nat, n: nat)
    requires Consistent(b, width * height) && 3 * n <= |indices| && IndicesValid(indices, |vs|)
    ensures Consistent(Triangles(b, vs, indices, topology, cfg, width, height, n), width * height)
  {
    if n > 0 {
      TrianglesConsistent(b, vs, indices, topology, cfg, width, height, n - 1);
      var t := SelectTriangle(vs, indices, topology, 3 * (n - 1));
      var box := BoundingBox(t, width, height);
      RowsConsistent(Triangles(b, vs, indices, topology, cfg, width, height, n - 1), t, cfg, width, height,
                     box.minX, box.maxX, box.minY, box.maxY);
    }
  }

  /** At the end of a frame every cell is untouched or holds a depth in [0, 1]
      together with a fragment colour. */
  lemma FrameConsistent(s: ScreenMesh, cfg: ColorConfig, width: nat, height: nat)
    requires Drawable(s)
    ensures Consistent(RenderFrame(s, cfg, width, height), width * height)
  {
    TrianglesConsistent(Cleared(width * height), s.verticesOut, s.indices, s.topology, cfg, width, height, |s.indices| / 3);
  }

  /** A pass over pixels the coverage test rejects at (px, py) leaves that cell alone. */
  lemma {:induction false} ColumnUntouched(b: Buffers, t: Triangle, cfg: ColorConfig, width: nat, height: nat,
                                           qx: int, lo: int, hi: int, px: int, py: int)
    requires Sized(b, width * height) && 0 <= qx < width && 0 <= lo && hi <= height
    requires 0 <= px < width && 0 <= py < height && !Fragment(t, px, py).Covered?
    ensures 0 <= PixelIndex(px, py, width) < width * height
    ensures var r := Column(b, t, cfg, width, height, qx, lo, hi); var k := PixelIndex(px, py, width);
            r.depth[k] == b.depth[k] && r.color[k] == b.color[k]
    decreases hi - lo
  {
    PixelIndexInRange(px, py, px, py, width, height);
    if hi > lo {
      ColumnUntouched(b, t, cfg, width, height, qx, lo, hi - 1, px, py);
      PixelIndexInRange(px, py, qx, hi - 1, width, height);
      StepPixelFrame(Column(b, t, cfg, width, height, qx, lo, hi - 1), t, cfg, width, height, qx, hi - 1,
                     PixelIndex(px, py, width));
    }
  }

  lemma {:induction false} RowsUntouched(b: Buffers, t: Triangle, cfg: ColorConfig, width: nat, height: nat,
                                         xlo: int, xhi: int, ylo: int, yhi: int, px: int, py: int)
    requires Sized(b, width * height) && 0 <= xlo && xhi <= width && 0 <= ylo && yhi <= height
    requires 0 <= px < width && 0 <= py < height && !Fragment(t, px, py).Covered?
    ensures 0 <= PixelIndex(px, py, width) < width * height
    ensures var r := Rows(b, t, cfg, width, height, xlo, xhi, ylo, yhi); var k := PixelIndex(px, py, width);
            r.depth[k] == b.depth[k] && r.color[k] == b.color[k]
    decreases xhi - xlo
  {
    PixelIndexInRange(px, py, px, py, width, height);
    if xhi > xlo {
      RowsUntouched(b, t, cfg, width, height, xlo, xhi - 1, ylo, yhi, px, py);
      ColumnUntouched(Rows(b, t, cfg, width, height, xlo, xhi - 1, ylo, yhi), t, cfg, width, height,
                      xhi - 1, ylo, yhi, px, py);
    }
  }

  /** No triangle among the first n covers (px, py). */
  predicate Uncovered(vs: seq<VertexOut>, indices: seq<nat>, topology: Topology, n: nat, px: int, py: int)
    requires 3 * n <= |indices| && IndicesValid(indices, |vs|)
  {
    forall m :: 0 <= m < n ==> !Fragment(SelectTriangle(vs, indices, topology, 3 * m), px, py).Covered?
  }

  lemma {:induction false} TrianglesUntouched(b: Buffers, vs: seq<VertexOut>, indices: seq<nat>, topology: Topology,
                                              cfg: ColorConfig, width: nat, height: nat, n: nat, px: int, py: int)
    requires Sized(b, width * height) && 3 * n <= |indices| && IndicesValid(indices, |vs|)
    requires 0 <= px < width && 0 <= py < height && Uncovered(vs, indices, topology, n, px, py)
    ensures 0 <= PixelIndex(px, py, width) < width * height
    ensures var r := Triangles(b, vs, indices, topology, cfg, width, height, n); var k := PixelIndex(px, py, width);
            r.depth[k] == b.depth[k] && r.color[k] == b.color[k]
  {
    PixelIndexInRange(px, py, px, py, width, height);
    if n > 0 {
      assert Uncovered(vs, indices, topology, n - 1, px, py);
      TrianglesUntouched(b, vs, indices, topology, cfg, width, height, n - 1, px, py);
      var prev := Triangles(b, vs, indices, topology, cfg, width, height, n - 1);
      var t := SelectTriangle(vs, indices, topology, 3 * (n - 1));
      assert !Fragment(t, px, py).Covered?;
      var box := BoundingBox(t, width, height);
      assert Triangles(b, vs, indices, topology, cfg, width, height, n) ==
             Rows(prev, t, cfg, width, height, box.minX, box.maxX, box.minY, box.maxY);
      RowsUntouched(prev, t, cfg, width, height, box.minX, box.maxX, box.minY, box.maxY, px, py);
    }
  }

  /** The footprint of a frame is exactly the set of covered pixels: a pixel keeps
      the background colour if and only if no triangle's coverage test accepts it. */
  lemma Footprint(s: ScreenMesh, cfg: ColorConfig, width: nat, height: nat, px: int, py: int)
    requires Drawable(s) && 0 <= px < width && 0 <= py < height
    ensures 0 <= PixelIndex(px, py, width) < width * height
    ensures RenderFrame(s, cfg, width, height).color[PixelIndex(px, py, width)] == Background <==>
            Uncovered(s.verticesOut, s.indices, s.topology, |s.indices| / 3, px, py)
  {
    PixelIndexInRange(px, py, px, py, width, height);
    var n := |s.indices| / 3;
    var k := PixelIndex(px, py, width);
    var r := RenderFrame(s, cfg, width, height);
    if Uncovered(s.verticesOut, s.indices, s.topology, n, px, py) {
      TrianglesUntouched(Cleared(width * height), s.verticesOut, s.indices, s.topology, cfg, width, height, n, px, py);
    } else {
      var m :| 0 <= m < n && Fragment(SelectTriangle(s.verticesOut, s.indices, s.topology, 3 * m), px, py).Covered?;
      NearestWins(s, cfg, width, height, m, px, py);
      FrameConsistent(s, cfg, width, height);
      assert r.depth[k] <= 1.0;
    }
  }

  // ------------------------------------------------------- what the frame shows

  /** Both buffers agree at cell k. */
  predicate SameCell(a: Buffers, b: Buffers, k: int)
    requires 0 <= k < |a.depth| && 0 <= k < |a.color| && 0 <= k < |b.depth| && 0 <= k < |b.color|
  {
    a.depth[k] == b.depth[k] && a.color[k] == b.color[k]
  }

  /** Cell k holds exactly the depth and the colour of the covered fragment f. */
  predicate Wrote(b: Buffers, k: int, f: Coverage, cfg: ColorConfig)
    requires 0 <= k < |b.depth| && 0 <= k < |b.color|
  {
    f.Covered? && b.depth[k] == f.depth && b.color[k] == FragmentColorOf(cfg, f.pixel, f.uv, f.depth)
  }

  /** A cell that did not change still shows the same fragment. */
  lemma WroteCarries(a: Buffers, b: Buffers, k: int, f: Coverage, cfg: ColorConfig)
    requires 0 <= k < |a.depth| && 0 <= k < |a.color| && 0 <= k < |b.depth| && 0 <= k < |b.color|
    requires SameCell(b, a, k) && Wrote(a, k, f, cfg)
    ensures Wrote(b, k, f, cfg)
  {
  }

  /** After the inner loop a cell is as before, or holds this triangle's fragment there. */
  lemma {:induction false} ColumnCell(b: Buffers, t: Triangle, cfg: ColorConfig, width: nat, height: nat,
                                      qx: int, lo: int, hi: int, px: int, py: int)
    requires Sized(b, width * height) && 0 <= qx < width && 0 <= lo && hi <= height
    requires 0 <= px < width && 0 <= py < height
    ensures 0 <= PixelIndex(px, py, width) < width * height
    ensures var r := Column(b, t, cfg, width, height, qx, lo, hi); var k := PixelIndex(px, py, width);
            SameCell(r, b, k) || Wrote(r, k, Fragment(t, px, py), cfg)
    decreases hi - lo
  {
    PixelIndexInRange(px, py, px, py, width, height);
    if hi > lo {
      ColumnCell(b, t, cfg, width, height, qx, lo, hi - 1, px, py);
      PixelIndexInRange(px, py, qx, hi - 1, width, height);
      StepPixelFrame(Column(b, t, cfg, width, height, qx, lo, hi - 1), t, cfg, width, height, qx, hi - 1,
                     PixelIndex(px, py, width));
    }
  }

  /** After the box loops a cell is as before, or holds this triangle's fragment there. */
  lemma {:induction false} RowsCell(b: Buffers, t: Triangle, cfg: ColorConfig, width: nat, height: nat,
                                    xlo: int, xhi: int, ylo: int, yhi: int, px: int, py: int)
    requires Sized(b, width * height) && 0 <= xlo && xhi <= width && 0 <= ylo && yhi <= height
    requires 0 <= px < width && 0 <= py < height
    ensures 0 <= PixelIndex(px, py, width) < width * height
    ensures var r := Rows(b, t, cfg, width, height, xlo, xhi, ylo, yhi); var k := PixelIndex(px, py, width);
            SameCell(r, b, k) || Wrote(r, k, Fragment(t, px, py), cfg)
    decreases xhi - xlo
  {
    PixelIndexInRange(px, py, px, py, width, height);
    if xhi > xlo {
      RowsCell(b, t, cfg, width, height, xlo, xhi - 1, ylo, yhi, px, py);
      ColumnCell(Rows(b, t, cfg, width, height, xlo, xhi - 1, ylo, yhi), t, cfg, width, height,
                 xhi - 1, ylo, yhi, px, py);
    }
  }

  /** After the first n triangles a cell is as before, or holds the fragment of
      one of them that covers the pixel. */
  lemma {:induction false} TrianglesCell(b: Buffers, vs: seq<VertexOut>, indices: seq<nat>, topology: Topology,
                                         cfg: ColorConfig, width: nat, height: nat, n: nat, px: int, py: int)
    requires Sized(b, width * height) && 3 * n <= |indices| && IndicesValid(indices, |vs|)
    requires 0 <= px < width && 0 <= py < height
    ensures 0 <= PixelIndex(px, py, width) < width * height
    ensures var r := Triangles(b, vs, indices, topology, cfg, width, height, n); var k := PixelIndex(px, py, width);
            SameCell(r, b, k) ||
            exists m :: 0 <= m < n && Wrote(r, k, Fragment(SelectTriangle(vs, indices, topology, 3 * m), px, py), cfg)
  {
    PixelIndexInRange(px, py, px, py, width, height);
    if n > 0 {
      TrianglesCell(b, vs, indices, topology, cfg, width, height, n - 1, px, py);
      TrianglesCellStep(b, vs, indices, topology, cfg, width, height, n, px, py);
    }
  }

  /** The inductive step of TrianglesCell: triangle n either leaves the cell as
      it was or writes its own fragment there. */
  lemma TrianglesCellStep(b: Buffers, vs: seq<VertexOut>, indices: seq<nat>, topology: Topology,
                          cfg: ColorConfig, width: nat, height: nat, n: nat, px: int, py: int)
    requires Sized(b, width * height) && 0 < n && 3 * n <= |indices| && IndicesValid(indices, |vs|)
    requires 0 <= px < width && 0 <= py < height && 0 <= PixelIndex(px, py, width) < width * height
    requires var r := Triangles(b, vs, indices, topology, cfg, width, height, n - 1); var k := PixelIndex(px, py, width);
             SameCell(r, b, k) ||
             exists m :: 0 <= m < n - 1 && Wrote(r, k, Fragment(SelectTriangle(vs, indices, topology, 3 * m), px, py), cfg)
    ensures var r := Triangles(b, vs, indices, topology, cfg, width, height, n); var k := PixelIndex(px, py, width);
            SameCell(r, b, k) ||
            exists m :: 0 <= m < n && Wrote(r, k, Fragment(SelectTriangle(vs, indices, topology, 3 * m), px, py), cfg)
  {
    var k := PixelIndex(px, py, width);
    var prev := Triangles(b, vs, indices, topology, cfg, width, height, n - 1);
    var t := SelectTriangle(vs, indices, topology, 3 * (n - 1));
    var box := BoundingBox(t, width, height);
    TrianglesNext(b, vs, indices, topology, cfg, width, height, n - 1);
    var r := Rows(prev, t, cfg, width, height, box.minX, box.maxX, box.minY, box.maxY);
    RowsCell(prev, t, cfg, width, height, box.minX, box.maxX, box.minY, box.maxY, px, py);
    if !SameCell(r, b, k) && SameCell(r, prev, k) {
      var m :| 0 <= m < n - 1 && Wrote(prev, k, Fragment(SelectTriangle(vs, indices, topology, 3 * m), px, py), cfg);
      WroteCarries(prev, r, k, Fragment(SelectTriangle(vs, indices, topology, 3 * m), px, py), cfg);
    }
  }

  /** A pixel that some triangle covers shows a covering fragment: its depth and
      its colour are those of one triangle's fragment there. With NearestWins,
      that fragment is a nearest one. */
  lemma FrameShowsCovering(s: ScreenMesh, cfg: ColorConfig, width: nat, height: nat, m: nat, px: int, py: int)
    requires Drawable(s) && m < |s.indices| / 3 && 0 <= px < width && 0 <= py < height
    requires Fragment(SelectTriangle(s.verticesOut, s.indices, s.topology, 3 * m), px, py).Covered?
    ensures 0 <= PixelIndex(px, py, width) < width * height
    ensures exists j :: 0 <= j < |s.indices| / 3 &&
              Wrote(RenderFrame(s, cfg, width, height), PixelIndex(px, py, width),
                    Fragment(SelectTriangle(s.verticesOut, s.indices, s.topology, 3 * j), px, py), cfg)
  {
    PixelIndexInRange(px, py, px, py, width, height);
    var k := PixelIndex(px, py, width);
    NearestWins(s, cfg, width, height, m, px, py);
    TrianglesCell(Cleared(width * height), s.verticesOut, s.indices, s.topology, cfg, width, height,
                  |s.indices| / 3, px, py);
    assert RenderFrame(s, cfg, width, height).depth[k] < Cleared(width * height).depth[k];
  }

  /** Order independence: when triangle m's fragment at a pixel is strictly nearer
      than every other covering fragment, the frame shows m's depth and colour
      there, wherever m stands in the index buffer. */
  lemma NearestShown(s: ScreenMesh, cfg: ColorConfig, width: nat, height: nat, m: nat, px: int, py: int)
    requires Drawable(s) && m < |s.indices| / 3 && 0 <= px < width && 0 <= py < height
    requires Fragment(SelectTriangle(s.verticesOut, s.indices, s.topology, 3 * m), px, py).Covered?
    requires forall j :: (0 <= j < |s.indices| / 3 && j != m &&
                          Fragment(SelectTriangle(s.verticesOut, s.indices, s.topology, 3 * j), px, py).Covered?) ==>
               Fragment(SelectTriangle(s.verticesOut, s.indices, s.topology, 3 * m), px, py).depth <
               Fragment(SelectTriangle(s.verticesOut, s.indices, s.topology, 3 * j), px, py).depth
    ensures 0 <= PixelIndex(px, py, width) < width * height
    ensures Wrote(RenderFrame(s, cfg, width, height), PixelIndex(px, py, width),
                  Fragment(SelectTriangle(s.verticesOut, s.indices, s.topology, 3 * m), px, py), cfg)
  {
    FrameShowsCovering(s, cfg, width, height, m, px, py);
    NearestWins(s, cfg, width, height, m, px, py);
    var j :| 0 <= j < |s.indices| / 3 &&
             Wrote(RenderFrame(s, cfg, width, height), PixelIndex(px, py, width),
                   Fragment(SelectTriangle(s.verticesOut, s.indices, s.topology, 3 * j), px, py), cfg);
    assert j == m;
  }

  /** Two triangles over one pixel, drawn in either order: the nearer fragment's
      depth and colour end up in the buffers. */
  lemma NearerWinsEitherOrder(a: Triangle, b: Triangle, cfg: ColorConfig, width: nat, height: nat, px: int, py: int)
    requires 0 <= px < width && 0 <= py < height
    requires Fragment(a, px, py).Covered? && Fragment(b, px, py).Covered?
    requires Fragment(a, px, py).depth < Fragment(b, px, py).depth
    ensures 0 <= PixelIndex(px, py, width) < width * height
    ensures var ab := ScreenMesh([a.v0, a.v1, a.v2, b.v0, b.v1, b.v2], [0, 1, 2, 3, 4, 5], TriangleList);
            var ba := ScreenMesh([b.v0, b.v1, b.v2, a.v0, a.v1, a.v2], [0, 1, 2, 3, 4, 5], TriangleList);
            Drawable(ab) && Drawable(ba) &&
            Wrote(RenderFrame(ab, cfg, width, height), PixelIndex(px, py, width), Fragment(a, px, py), cfg) &&
            Wrote(RenderFrame(ba, cfg, width, height), PixelIndex(px, py, width), Fragment(a, px, py), cfg)
  {
    var indices: seq<nat> := [0, 1, 2, 3, 4, 5];
    var ab := ScreenMesh([a.v0, a.v1, a.v2, b.v0, b.v1, b.v2], indices, TriangleList);
    var ba := ScreenMesh([b.v0, b.v1, b.v2, a.v0, a.v1, a.v2], indices, TriangleList);
    assert Drawable(ab) && Drawable(ba);
    assert |indices| / 3 == 2;
    assert SelectTriangle(ab.verticesOut, indices, TriangleList, 3 * 0) == a;
    assert SelectTriangle(ab.verticesOut, indices, TriangleList, 3 * 1) == b;
    assert SelectTriangle(ba.verticesOut, indices, TriangleList, 3 * 0) == b;
    assert SelectTriangle(ba.verticesOut, indices, TriangleList, 3 * 1) == a;
    NearestShown(ab, cfg, width, height, 0, px, py);
    NearestShown(ba, cfg, width, height, 1, px, py);
  }
}
