/** The vertex-transform stage: meshes, the per-vertex world-view-projection,
    perspective divide and NDC-to-screen map (Renderer::VertexTransformationFunction
    and Renderer::ConvertNDCtoScreen). The matrix operations are not part of the
    model: they enter as the functions of a Pipeline. */
module Transform {
  import opened Geometry
  import opened Interpolation

  datatype Topology = TriangleList | TriangleStrip

  /** Vertex: a model-space mesh vertex. */
  datatype Vertex = Vertex(position: Vec3, color: Rgb, uv: Vec2, normal: Vec3,
                           tangent: Vec3, viewDirection: Vec3)

  /** Mesh: vertex and index buffers and the primitive topology. */
  datatype Mesh = Mesh(vertices: seq<Vertex>, indices: seq<nat>, topology: Topology)

  /** Mesh4AxisVertex: the screen-space vertices with the mesh's indices and topology. */
  datatype ScreenMesh = ScreenMesh(verticesOut: seq<VertexOut>, indices: seq<nat>, topology: Topology)

  /** The matrix operations the stage uses, taken as given functions:
      worldViewProjection is TransformPoint by m_Vehicle.worldMatrix times the
      camera's view-projection, world is TransformVector by m_Vehicle.worldMatrix,
      normalize is Vector3::Normalize. */
  datatype Pipeline = Pipeline(worldViewProjection: Vec4 -> Vec4, world: Vec3 -> Vec3,
                               normalize: Vec3 -> Vec3, cameraOrigin: Vec3)

  /** Renderer::ConvertNDCtoScreen */
  function ConvertNdcToScreen(ndc: Vec3, width: int, height: int): Vec2
  {
    Vec2((ndc.x + 1.0) / 2.0 * width as real, (1.0 - ndc.y) / 2.0 * height as real)
  }

  /** The inverse map, from pixel coordinates back to NDC. */
  function ScreenToNdc(s: Vec2, width: int, height: int): Vec2
    requires width != 0 && height != 0
  {
    Vec2(2.0 * s.x / width as real - 1.0, 1.0 - 2.0 * s.y / height as real)
  }

  /** x = -1 lands on column 0 and x = 1 on column width; y is flipped:
      y = 1 lands on row 0 and y = -1 on row height. */
  lemma NdcCorners(z: real, width: int, height: int)
    ensures ConvertNdcToScreen(Vec3(-1.0, 1.0, z), width, height) == Vec2(0.0, 0.0)
    ensures ConvertNdcToScreen(Vec3(1.0, -1.0, z), width, height) == Vec2(width as real, height as real)
  {
  }

  /** On a non-empty screen the map is invertible in both directions. */
  lemma NdcRoundTrip(ndc: Vec3, s: Vec2, width: int, height: int)
    requires width != 0 && height != 0
    ensures ScreenToNdc(ConvertNdcToScreen(ndc, width, height), width, height) == Vec2(ndc.x, ndc.y)
    ensures var back := ScreenToNdc(s, width, height);
            ConvertNdcToScreen(Vec3(back.x, back.y, 0.0), width, height) == s
  {
    var w, h := width as real, height as real;
    var sx, sy := (ndc.x + 1.0) / 2.0, (1.0 - ndc.y) / 2.0;
    assert (sx * w) / w == sx;
    assert (sy * h) / h == sy;
    assert 2.0 * (sx * w) / w == 2.0 * ((sx * w) / w);
    assert 2.0 * (sy * h) / h == 2.0 * ((sy * h) / h);
    assert (2.0 * s.x / w - 1.0 + 1.0) / 2.0 * w == s.x;
    assert (1.0 - (1.0 - 2.0 * s.y / h)) / 2.0 * h == s.y;
  }

  /** On a screen of positive size larger x goes right and larger y goes up,
      i.e. to a smaller row. */
  lemma NdcOrientation(a: Vec3, b: Vec3, width: int, height: int)
    requires width > 0 && height > 0
    ensures a.x < b.x ==> ConvertNdcToScreen(a, width, height).x < ConvertNdcToScreen(b, width, height).x
    ensures a.y < b.y ==> ConvertNdcToScreen(a, width, height).y > ConvertNdcToScreen(b, width, height).y
  {
    var w, h := width as real, height as real;
    if a.x < b.x {
      assert (b.x + 1.0) / 2.0 * w - (a.x + 1.0) / 2.0 * w == (b.x - a.x) / 2.0 * w;
    }
    if a.y < b.y {
      assert (1.0 - a.y) / 2.0 * h - (1.0 - b.y) / 2.0 * h == (b.y - a.y) / 2.0 * h;
    }
  }

  /** The clip-space position of a model-space vertex (as a point, w = 1). */
  function Clip(v: Vertex, p: Pipeline): Vec4
  {
    p.worldViewProjection(Vec4(v.position.x, v.position.y, v.position.z, 1.0))
  }

  /** The perspective divide is defined for this vertex. */
  predicate Projectable(v: Vertex, p: Pipeline)
  {
    Clip(v, p).w != 0.0
  }

  /** One iteration of the inner loop of VertexTransformationFunction. The view
      direction is taken from the screen-space position, not from a world-space one. */
  function TransformVertex(v: Vertex, p: Pipeline, width: int, height: int): (o: VertexOut)
    requires Projectable(v, p)
    ensures o.uv == v.uv && o.color == v.color
    ensures o.position.w == Clip(v, p).w && o.position.z * o.position.w == Clip(v, p).z
    ensures o.normal == p.world(v.normal) && o.tangent == p.world(v.tangent)
    // the view direction is taken from the screen-space position, not a world-space one
    ensures o.viewDirection == p.normalize(Sub3(p.cameraOrigin, XYZ(o.position)))
    ensures XY(o.position) == ConvertNdcToScreen(Vec3(Clip(v, p).x / Clip(v, p).w, Clip(v, p).y / Clip(v, p).w, 0.0), width, height)
  {
    var clip := Clip(v, p);
    var ndc := Vec3(clip.x / clip.w, clip.y / clip.w, clip.z / clip.w);
    var screen := ConvertNdcToScreen(ndc, width, height);
    var position := Vec4(screen.x, screen.y, ndc.z, clip.w);
    VertexOut(position, v.color, v.uv, p.world(v.normal), p.world(v.tangent),
              p.normalize(Sub3(p.cameraOrigin, XYZ(position))))
  }

  /** Mapping the screen position back gives the perspective-divided clip x and y. */
  lemma ScreenPositionIsDividedClip(v: Vertex, p: Pipeline, width: int, height: int)
    requires Projectable(v, p) && width != 0 && height != 0
    ensures var o := TransformVertex(v, p, width, height); var c := Clip(v, p);
            ScreenToNdc(XY(o.position), width, height) == Vec2(c.x / c.w, c.y / c.w)
  {
    var c := Clip(v, p);
    NdcRoundTrip(Vec3(c.x / c.w, c.y / c.w, c.z / c.w), Vec2(0.0, 0.0), width, height);
  }

  predicate MeshProjectable(m: Mesh, p: Pipeline)
  {
    forall j :: 0 <= j < |m.vertices| ==> Projectable(m.vertices[j], p)
  }

  /** The screen mesh produced for one input mesh. */
  function TransformMesh(m: Mesh, p: Pipeline, width: int, height: int): (s: ScreenMesh)
    requires MeshProjectable(m, p)
    ensures |s.verticesOut| == |m.vertices| && s.indices == m.indices && s.topology == m.topology
    ensures forall j :: 0 <= j < |m.vertices| ==>
              s.verticesOut[j] == TransformVertex(m.vertices[j], p, width, height) && s.verticesOut[j].uv == m.vertices[j].uv
  {
    ScreenMesh(seq(|m.vertices|, j requires 0 <= j < |m.vertices| => TransformVertex(m.vertices[j], p, width, height)),
               m.indices, m.topology)
  }
}
