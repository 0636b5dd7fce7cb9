/** The Renderer object: its render flags and lighting mode, the depth buffer and
    the colour buffer it owns, and the methods that change them
    (Rasterizer/src/Renderer.h, Rasterizer/src/Renderer.cpp). Each method is
    proved against the value-level functions of modules Raster, Transform and
    Shading. */
module Frame {
  import opened Geometry
  import opened Interpolation
  import opened Shading
  import opened Transform
  import opened Raster

  /** The renderer's flags and mode as one value. */
  datatype Settings = Settings(finalColorEnabled: bool, canBeRotated: bool, normalMapEnabled: bool,
                               mode: LightingMode)

  /** The in-class initialisers: final colour on, rotation off, normal map off,
      ObservedArea. */
  const InitialSettings: Settings := Settings(true, false, false, InitialLightingMode)

  /** ToggleZBuffer: m_FinalColorEnabled = !m_FinalColorEnabled */
  function ToggledZBuffer(s: Settings): Settings
  {
    s.(finalColorEnabled := !s.finalColorEnabled)
  }

  /** ToggleNormalMap: m_NormalMapEnabled = !m_NormalMapEnabled */
  function ToggledNormalMap(s: Settings): Settings
  {
    s.(normalMapEnabled := !s.normalMapEnabled)
  }

  /** RotateModel: m_CanBeRotated = !m_CanBeRotated */
  function ToggledRotation(s: Settings): Settings
  {
    s.(canBeRotated := !s.canBeRotated)
  }

  /** CycleLightingMode */
  function Cycled(s: Settings): Settings
  {
    s.(mode := Next(s.mode))
  }

  /** What the flags decide about a fragment's colour. */
  function ColorConfigOf(s: Settings): ColorConfig
  {
    ColorConfig(s.normalMapEnabled, s.finalColorEnabled, s.mode)
  }

  /** Each toggle is an involution, changes exactly its own flag, and none of
      them touches the lighting mode. */
  lemma TogglesAreInvolutions(s: Settings)
    ensures ToggledZBuffer(ToggledZBuffer(s)) == s && ToggledZBuffer(s) != s
    ensures ToggledNormalMap(ToggledNormalMap(s)) == s && ToggledNormalMap(s) != s
    ensures ToggledRotation(ToggledRotation(s)) == s && ToggledRotation(s) != s
    ensures ToggledZBuffer(s).mode == ToggledNormalMap(s).mode == ToggledRotation(s).mode == s.mode
  {
  }

  /** Four calls of CycleLightingMode restore the settings; fewer do not. */
  lemma FourCyclesRestoreSettings(s: Settings)
    ensures Cycled(Cycled(Cycled(Cycled(s)))) == s
    ensures Cycled(s) != s && Cycled(Cycled(s)) != s && Cycled(Cycled(Cycled(s))) != s
  {
    FourCyclesRestore(s.mode);
  }

  /** Rotation is invisible to the colour choice; with the normal map off the
      z-buffer toggle switches between shading and the depth visualisation. */
  lemma ToggleEffectOnColor(s: Settings, pixel: VertexOut, uv: Vec2, depth: real)
    ensures ColorConfigOf(ToggledRotation(s)) == ColorConfigOf(s)
    ensures !s.normalMapEnabled ==>
              (FragmentColorOf(ColorConfigOf(s), pixel, uv, depth).Shaded? <==>
               FragmentColorOf(ColorConfigOf(ToggledZBuffer(s)), pixel, uv, depth).DepthGray?)
    ensures s.normalMapEnabled ==>
              FragmentColorOf(ColorConfigOf(ToggledZBuffer(s)), pixel, uv, depth) ==
              FragmentColorOf(ColorConfigOf(s), pixel, uv, depth) == NormalMapSample(uv)
  {
  }

  class Renderer {
    const width: nat
    const height: nat
    var finalColorEnabled: bool
    var canBeRotated: bool
    var normalMapEnabled: bool
    var lightingMode: LightingMode
    /** m_pDepthBuffer, one cell per pixel */
    const depthBuffer: array<real>
    /** m_pBackBufferPixels, one cell per pixel */
    const colorBuffer: array<FragmentColor>

    predicate Valid()
      reads this
    {
      depthBuffer.Length == width * height && colorBuffer.Length == width * height
    }

    function State(): Settings
      reads this
    {
      Settings(finalColorEnabled, canBeRotated, normalMapEnabled, lightingMode)
    }

    function Config(): ColorConfig
      reads this
    {
      ColorConfigOf(State())
    }

    /** Both buffers as values. */
    function Snapshot(): Buffers
      reads this, depthBuffer, colorBuffer
    {
      Buffers(depthBuffer[..], colorBuffer[..])
    }

    /** The window size is a parameter; the depth buffer is resized to
        width * height cells. */
    constructor(w: nat, h: nat)
      ensures Valid() && width == w && height == h
      ensures State() == InitialSettings
      ensures fresh(depthBuffer) && fresh(colorBuffer)
      ensures Snapshot() == Buffers(seq(w * h, _ => 0.0), seq(w * h, _ => Background))
    {
      width, height := w, h;
      finalColorEnabled, canBeRotated, normalMapEnabled := true, false, false;
      lightingMode := InitialLightingMode;
      depthBuffer := new real[w * h](_ => 0.0);
      colorBuffer := new FragmentColor[w * h](_ => Background);
    }

    method ToggleZBuffer()
      modifies this
      ensures State() == ToggledZBuffer(old(State()))
    {
      finalColorEnabled := !finalColorEnabled;
    }

    method ToggleNormalMap()
      modifies this
      ensures State() == ToggledNormalMap(old(State()))
    {
      normalMapEnabled := !normalMapEnabled;
    }

    method RotateModel()
      modifies this
      ensures State() == ToggledRotation(old(State()))
    {
      canBeRotated := !canBeRotated;
    }

    method CycleLightingMode()
      modifies this
      ensures State() == Cycled(old(State()))
    {
      var current := ModeIndex(lightingMode);
      current := (current + 1) % 4;
      lightingMode := ModeOf(current);
    }

    /** Appends one screen mesh per input mesh to meshesOut0. Every mesh is
        transformed with the same pipeline, i.e. with the vehicle's world matrix. */
    method VertexTransformation(meshesIn: seq<Mesh>, meshesOut0: seq<ScreenMesh>, p: Pipeline)
      returns (meshesOut: seq<ScreenMesh>)
      requires forall i :: 0 <= i < |meshesIn| ==> MeshProjectable(meshesIn[i], p)
      ensures |meshesOut| == |meshesOut0| + |meshesIn| && meshesOut[..|meshesOut0|] == meshesOut0
      ensures forall i :: 0 <= i < |meshesIn| ==>
                meshesOut[|meshesOut0| + i] == TransformMesh(meshesIn[i], p, width, height)
    {
      meshesOut := meshesOut0;
      var i := 0;
      while i < |meshesIn|
        invariant 0 <= i <= |meshesIn|
        invariant |meshesOut| == |meshesOut0| + i && meshesOut[..|meshesOut0|] == meshesOut0
        invariant forall k :: 0 <= k < i ==>
                    meshesOut[|meshesOut0| + k] == TransformMesh(meshesIn[k], p, width, height)
      {
        var m := meshesIn[i];
        var verticesOut: seq<VertexOut> := [];
        var j := 0;
        while j < |m.vertices|
          invariant 0 <= j <= |m.vertices| && |verticesOut| == j
          invariant forall k :: 0 <= k < j ==> verticesOut[k] == TransformVertex(m.vertices[k], p, width, height)
        {
          verticesOut := verticesOut + [TransformVertex(m.vertices[j], p, width, height)];
          j := j + 1;
        }
        var newMesh := ScreenMesh(verticesOut, m.indices, m.topology);
        assert newMesh == TransformMesh(m, p, width, height);
        meshesOut := meshesOut + [newMesh];
        i := i + 1;
      }
    }

    /** The body of the inner pixel loop: coverage, the depth test, then one
        depth cell and one colour cell. */
    method ShadePixel(t: Triangle, cfg: ColorConfig, px: int, py: int)
      requires Valid() && 0 <= px < width && 0 <= py < height
      modifies depthBuffer, colorBuffer
      ensures Snapshot() == StepPixel(old(Snapshot()), t, cfg, width, height, px, py)
    {
      var candidate := Candidate(px, py);
      var fragment := IsPixelInterpolated(t.v0, t.v1, t.v2, candidate);
      if fragment.Covered? {
        PixelIndexInRange(px, py, px, py, width, height);
        var pixelIndex := px + py * width;
        if fragment.depth <= depthBuffer[pixelIndex] {
          depthBuffer[pixelIndex] := fragment.depth;
          colorBuffer[pixelIndex] := FragmentColorOf(cfg, fragment.pixel, fragment.uv, fragment.depth);
        }
      }
    }

    /** The inner pixel loop: py from lo up to hi, at column px. */
    method ShadeColumn(t: Triangle, cfg: ColorConfig, px: int, lo: int, hi: int)
      requires Valid() && 0 <= px < width && 0 <= lo <= height && hi <= height
      modifies depthBuffer, colorBuffer
      ensures Snapshot() == Column(old(Snapshot()), t, cfg, width, height, px, lo, hi)
    {
      ghost var start := Snapshot();
      var py := lo;
      while py < hi
        invariant lo <= py && (py <= hi || py == lo)
        invariant Snapshot() == Column(start, t, cfg, width, height, px, lo, py)
      {
        ShadePixel(t, cfg, px, py);
        py := py + 1;
      }
    }

    /** The two pixel loops for one triangle, over its clamped bounding box. */
    method RasterizeTriangle(t: Triangle, cfg: ColorConfig)
      requires Valid()
      modifies depthBuffer, colorBuffer
      ensures Snapshot() == DrawTriangle(old(Snapshot()), t, cfg, width, height)
    {
      ghost var start := Snapshot();
      var box := BoundingBox(t, width, height);
      var px := box.minX;
      while px < box.maxX
        invariant box.minX <= px && (px <= box.maxX || px == box.minX)
        invariant Snapshot() == Rows(start, t, cfg, width, height, box.minX, px, box.minY, box.maxY)
      {
        ShadeColumn(t, cfg, px, box.minY, box.maxY);
        px := px + 1;
      }
    }

    /** The two fills at frame start: SDL_FillRect on the back buffer and
        std::fill of the depth buffer with the float maximum. */
    method ClearBuffers()
      requires Valid()
      modifies depthBuffer, colorBuffer
      ensures Snapshot() == Cleared(width * height)
    {
      var k := 0;
      while k < colorBuffer.Length
        invariant 0 <= k <= colorBuffer.Length
        invariant forall j :: 0 <= j < k ==> colorBuffer[j] == Background
      {
        colorBuffer[k] := Background;
        k := k + 1;
      }
      k := 0;
      while k < depthBuffer.Length
        invariant 0 <= k <= depthBuffer.Length
        invariant forall j :: 0 <= j < k ==> depthBuffer[j] == FloatMax
        invariant forall j :: 0 <= j < colorBuffer.Length ==> colorBuffer[j] == Background
      {
        depthBuffer[k] := FloatMax;
        k := k + 1;
      }
    }

    /** The triangle loop: i = 0, 3, 6, ... while i < |indices| - 2, whatever the
        topology. */
    method DrawTriangles(screen: ScreenMesh, cfg: ColorConfig)
      requires Valid() && Drawable(screen)
      modifies depthBuffer, colorBuffer
      ensures Snapshot() == Triangles(old(Snapshot()), screen.verticesOut, screen.indices, screen.topology,
                                      cfg, width, height, |screen.indices| / 3)
    {
      ghost var start := Snapshot();
      var i := 0;
      ghost var n: nat := 0;
      while i < |screen.indices| - 2
        invariant i == 3 * n && 3 * n <= |screen.indices|
        invariant Snapshot() == Triangles(start, screen.verticesOut, screen.indices,
                                          screen.topology, cfg, width, height, n)
      {
        var t := SelectTriangle(screen.verticesOut, screen.indices, screen.topology, i);
        TrianglesNext(start, screen.verticesOut, screen.indices, screen.topology, cfg, width, height, n);
        RasterizeTriangle(t, cfg);
        i, n := i + 3, n + 1;
      }
      TriangleLoopEnd(|screen.indices|, n);
    }

    /** One frame: transform the vehicle, clear both buffers, draw its triangles. */
    method Render(vehicle: Mesh, p: Pipeline)
      requires Valid() && MeshProjectable(vehicle, p)
      requires |vehicle.indices| >= 2 && IndicesValid(vehicle.indices, |vehicle.vertices|)
      modifies depthBuffer, colorBuffer
      ensures Snapshot() == RenderFrame(TransformMesh(vehicle, p, width, height), Config(), width, height)
    {
      var meshesIn: seq<Mesh>, noMeshes: seq<ScreenMesh> := [vehicle], [];
      var meshesScreen := VertexTransformation(meshesIn, noMeshes, p);
      assert meshesIn[0] == vehicle && meshesScreen[|noMeshes| + 0] == TransformMesh(meshesIn[0], p, width, height);
      var screen := meshesScreen[0];
      ClearBuffers();
      DrawTriangles(screen, Config());
    }
  }
}
