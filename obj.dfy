/** Utils::ParseOBJ over an already tokenised file: one command per line.
    The value-level meaning is Run, a fold of Step over the commands; the
    method ParseObj is the loop of the parser and is proved to compute it. */
module Obj {
  import opened Geometry
  import opened Transform

  /** One face corner "p", "p/t", "p//n" or "p/t/n", with 1-based references. */
  datatype Corner = Corner(position: nat, texCoord: Option<nat>, normal: Option<nat>)

  /** One line of the file, by its first word. */
  datatype ObjCommand =
    | CommentLine                               // "#"
    | PositionCmd(position: Vec3)               // "v x y z"
    | TexCoordCmd(u: real, v: real)             // "vt u v"
    | NormalCmd(normal: Vec3)                   // "vn x y z"
    | FaceCmd(c0: Corner, c1: Corner, c2: Corner) // "f a b c"
    | OtherCmd                                  // any other first word

  /** The parser's state: the three attribute lists and the two outputs. */
  datatype ObjState = ObjState(positions: seq<Vec3>, uvs: seq<Vec2>, normals: seq<Vec3>,
                               vertices: seq<Vertex>, indices: seq<nat>)

  /** Both outputs cleared, no attributes read. */
  const Start: ObjState := ObjState([], [], [], [], [])

  /** Vertex{}: every member zero except the colour, which defaults to white. */
  const DefaultVertex: Vertex := Vertex(Zero3, White, Zero2, Zero3, Zero3, Zero3)

  /** A 1-based reference into a list. */
  function Lookup<T>(xs: seq<T>, oneBased: nat): (r: Option<T>)
    ensures r.Some? <==> 1 <= oneBased <= |xs|
    ensures r.Some? ==> r.value == xs[oneBased - 1]
  {
    if 1 <= oneBased <= |xs| then Some(xs[oneBased - 1]) else None
  }

  /** Every reference of the corner names an element that was read before it. */
  predicate CornerInRange(st: ObjState, c: Corner)
  {
    1 <= c.position <= |st.positions| &&
    (c.texCoord.Some? ==> 1 <= c.texCoord.value <= |st.uvs|) &&
    (c.normal.Some? ==> 1 <= c.normal.value <= |st.normals|)
  }

  /** One corner: the face's single Vertex variable gets its position and, when
      the corner names them, its uv and normal; what it does not name stays as
      the previous corner left it. */
  function CornerVertex(st: ObjState, prev: Vertex, c: Corner): Option<Vertex>
  {
    match Lookup(st.positions, c.position)
    case None => None
    case Some(position) =>
      var uv := if c.texCoord.Some? then Lookup(st.uvs, c.texCoord.value) else Some(prev.uv);
      var normal := if c.normal.Some? then Lookup(st.normals, c.normal.value) else Some(prev.normal);
      if uv.None? || normal.None? then None
      else Some(prev.(position := position, uv := uv.value, normal := normal.value))
  }

  /** The vertex variable before the next corner: the last one pushed, or Vertex{}. */
  function Last(vs: seq<Vertex>): Vertex
  {
    if |vs| == 0 then DefaultVertex else vs[|vs| - 1]
  }

  /** The vertices pushed for the corners cs, in order. */
  function EmitCorners(st: ObjState, cs: seq<Corner>): (r: Option<seq<Vertex>>)
    ensures r.Some? ==> |r.value| == |cs|
    decreases |cs|
  {
    if |cs| == 0 then Some([])
    else
      match EmitCorners(st, cs[..|cs| - 1])
      case None => None
      case Some(vs) =>
        match CornerVertex(st, Last(vs), cs[|cs| - 1])
        case None => None
        case Some(v) => Some(vs + [v])
  }

  /** The three indices of a face whose first new vertex is n. */
  function FaceIndices(n: nat, flip: bool): seq<nat>
  {
    if flip then [n, n + 2, n + 1] else [n, n + 1, n + 2]
  }

  function Step(st: ObjState, cmd: ObjCommand, flip: bool): Option<ObjState>
  {
    match cmd
    case CommentLine => Some(st)
    case PositionCmd(p) => Some(st.(positions := st.positions + [p]))
    case TexCoordCmd(u, v) => Some(st.(uvs := st.uvs + [Vec2(u, 1.0 - v)]))
    case NormalCmd(n) => Some(st.(normals := st.normals + [n]))
    case FaceCmd(c0, c1, c2) =>
      (match EmitCorners(st, [c0, c1, c2])
       case None => None
       case Some(vs) =>
         Some(st.(vertices := st.vertices + vs, indices := st.indices + FaceIndices(|st.vertices|, flip))))
    case OtherCmd => Some(st)
  }

  /** The state after the commands, or None once a face names a missing element. */
  function Run(cmds: seq<ObjCommand>, flip: bool): Option<ObjState>
    decreases |cmds|
  {
    if |cmds| == 0 then Some(Start)
    else
      match Run(cmds[..|cmds| - 1], flip)
      case None => None
      case Some(st) => Step(st, cmds[|cmds| - 1], flip)
  }

  /** The last loop of the parser: with the flip, z of position, normal and
      tangent changes sign. */
  function FlipZ(v: Vertex): Vertex
  {
    v.(position := Vec3(v.position.x, v.position.y, -v.position.z),
       normal := Vec3(v.normal.x, v.normal.y, -v.normal.z),
       tangent := Vec3(v.tangent.x, v.tangent.y, -v.tangent.z))
  }

  function FinalVertices(vs: seq<Vertex>, flip: bool): seq<Vertex>
  {
    if flip then seq(|vs|, j requires 0 <= j < |vs| => FlipZ(vs[j])) else vs
  }

  function FaceCount(cmds: seq<ObjCommand>): nat
    decreases |cmds|
  {
    if |cmds| == 0 then 0
    else FaceCount(cmds[..|cmds| - 1]) + (if cmds[|cmds| - 1].FaceCmd? then 1 else 0)
  }

  /** Face f owns vertices 3f, 3f+1, 3f+2, and its indices are them in order, or
      with the last two swapped under the flip. */
  predicate Assembled(st: ObjState, flip: bool)
  {
    |st.indices| == |st.vertices| && |st.vertices| % 3 == 0 &&
    forall k :: 0 <= k < |st.indices| ==>
      st.indices[k] == k - k % 3 + (if flip && k % 3 != 0 then 3 - k % 3 else k % 3)
  }

  // ------------------------------------------------------------------ lemmas

  /** The vertex v pushed for corner c, starting from the vertex variable prev:
      the referenced position, the referenced uv and normal or those of prev, and
      prev's colour and tangent. */
  predicate Filled(st: ObjState, prev: Vertex, c: Corner, v: Vertex)
    requires CornerInRange(st, c)
  {
    v.position == st.positions[c.position - 1] &&
    v.uv == (if c.texCoord.Some? then st.uvs[c.texCoord.value - 1] else prev.uv) &&
    v.normal == (if c.normal.Some? then st.normals[c.normal.value - 1] else prev.normal) &&
    v.color == prev.color && v.tangent == prev.tangent
  }

  /** A corner is accepted exactly when its references are in range, and then
      fills the vertex by its 1-based references. */
  lemma CornerLookup(st: ObjState, prev: Vertex, c: Corner)
    ensures CornerVertex(st, prev, c).Some? <==> CornerInRange(st, c)
    ensures CornerVertex(st, prev, c).Some? ==> Filled(st, prev, c, CornerVertex(st, prev, c).value)
  {
  }

  /** A corner sequence is emitted exactly when all its references are in range,
      and each vertex is filled from the one pushed before it. */
  lemma {:induction false} EmitCornersLookup(st: ObjState, cs: seq<Corner>)
    ensures EmitCorners(st, cs).Some? <==> forall k :: 0 <= k < |cs| ==> CornerInRange(st, cs[k])
    ensures var r := EmitCorners(st, cs);
            r.Some? ==> forall k {:trigger cs[k]} :: 0 <= k < |cs| ==>
              CornerInRange(st, cs[k]) && Filled(st, if k == 0 then DefaultVertex else r.value[k - 1], cs[k], r.value[k])
    decreases |cs|
  {
    if |cs| > 0 {
      var init := cs[..|cs| - 1];
      EmitCornersLookup(st, init);
      assert forall k :: 0 <= k < |init| ==> init[k] == cs[k];
      var last := cs[|cs| - 1];
      match EmitCorners(st, init)
      case None =>
      case Some(vs) =>
        CornerLookup(st, Last(vs), last);
        var v := CornerVertex(st, Last(vs), last);
        if v.Some? {
          var r := vs + [v.value];
          assert EmitCorners(st, cs) == Some(r);
          forall k | 0 <= k < |cs|
            ensures CornerInRange(st, cs[k]) && Filled(st, if k == 0 then DefaultVertex else r[k - 1], cs[k], r[k])
          {
            if k < |vs| {
              assert r[k] == vs[k] && cs[k] == init[k];
              assert k > 0 ==> r[k - 1] == vs[k - 1];
            } else {
              assert r[k] == v.value && cs[k] == last;
              assert Last(vs) == if k == 0 then DefaultVertex else r[k - 1];
            }
          }
        }
    }
  }

  /** Run is a left fold: one more command is one more Step. */
  lemma RunSnoc(cmds: seq<ObjCommand>, c: ObjCommand, flip: bool)
    ensures Run(cmds + [c], flip) == if Run(cmds, flip).None? then None else Step(Run(cmds, flip).value, c, flip)
  {
    assert (cmds + [c])[..|cmds|] == cmds;
  }

  /** A failed face ends the parse: no longer prefix succeeds. */
  lemma {:induction false} FailureIsFinal(cmds: seq<ObjCommand>, i: nat, flip: bool)
    requires i <= |cmds| && Run(cmds[..i], flip).None?
    ensures Run(cmds, flip).None?
    decreases |cmds| - i
  {
    if i < |cmds| {
      assert cmds[..i + 1][..i] == cmds[..i];
      FailureIsFinal(cmds, i + 1, flip);
    } else {
      assert cmds[..i] == cmds;
    }
  }

  /** A face keeps the assembly pattern. */
  lemma FaceAssembles(st: ObjState, vs: seq<Vertex>, flip: bool)
    requires Assembled(st, flip) && |vs| == 3
    ensures Assembled(st.(vertices := st.vertices + vs, indices := st.indices + FaceIndices(|st.vertices|, flip)), flip)
  {
    var n := |st.vertices|;
    var r := st.indices + FaceIndices(n, flip);
    var q := n / 3;
    assert n == 3 * q;
    forall k | n <= k < n + 3
      ensures r[k] == k - k % 3 + (if flip && k % 3 != 0 then 3 - k % 3 else k % 3)
    {
      var j := k - n;
      assert k == 3 * q + j && 0 <= j < 3;
      assert k % 3 == j;
      assert r[k] == FaceIndices(n, flip)[j];
    }
  }

  /** Every face adds three vertices and three indices and keeps the assembly
      pattern; the counts equal three per face line. */
  lemma {:induction false} RunAssembles(cmds: seq<ObjCommand>, flip: bool)
    ensures var r := Run(cmds, flip);
            r.Some? ==> Assembled(r.value, flip) && |r.value.vertices| == 3 * FaceCount(cmds)
    decreases |cmds|
  {
    if |cmds| > 0 {
      var init := cmds[..|cmds| - 1];
      RunAssembles(init, flip);
      var cmd := cmds[|cmds| - 1];
      assert FaceCount(cmds) == FaceCount(init) + (if cmd.FaceCmd? then 1 else 0);
      match Run(init, flip)
      case None =>
      case Some(st) =>
        assert Run(cmds, flip) == Step(st, cmd, flip);
        if cmd.FaceCmd? {
          match EmitCorners(st, [cmd.c0, cmd.c1, cmd.c2])
          case None =>
          case Some(vs) =>
            FaceAssembles(st, vs, flip);
        }
    }
  }

  /** Every index names an emitted vertex, indices come in triples, and there
      are as many indices as vertices. */
  lemma IndicesInRange(st: ObjState, flip: bool)
    requires Assembled(st, flip)
    ensures |st.indices| == |st.vertices| && |st.indices| % 3 == 0
    ensures forall k :: 0 <= k < |st.indices| ==> st.indices[k] < |st.vertices|
  {
    forall k | 0 <= k < |st.indices|
      ensures st.indices[k] < |st.vertices|
    {
      assert k - k % 3 + 2 < |st.vertices|;
    }
  }

  /** The flip is an involution and keeps the vertex count. */
  lemma FinalVerticesFlip(vs: seq<Vertex>)
    ensures |FinalVertices(vs, true)| == |vs| && FinalVertices(vs, false) == vs
    ensures FinalVertices(FinalVertices(vs, true), true) == vs
    ensures forall j :: 0 <= j < |vs| ==>
              FinalVertices(vs, true)[j].position.z == -vs[j].position.z &&
              FinalVertices(vs, true)[j].uv == vs[j].uv
  {
  }

  /** After any successful prefix, a "v" line appends its position, a "vt" line
      appends (u, 1 - v), a "vn" line appends its normal, and comments and
      unknown lines change nothing; none of them touches the two outputs. */
  lemma AttributeStep(cmds: seq<ObjCommand>, p: Vec3, u: real, v: real, n: Vec3, flip: bool)
    requires Run(cmds, flip).Some?
    ensures var st := Run(cmds, flip).value;
            Run(cmds + [PositionCmd(p)], flip) == Some(st.(positions := st.positions + [p])) &&
            Run(cmds + [TexCoordCmd(u, v)], flip) == Some(st.(uvs := st.uvs + [Vec2(u, 1.0 - v)])) &&
            Run(cmds + [NormalCmd(n)], flip) == Some(st.(normals := st.normals + [n])) &&
            Run(cmds + [CommentLine], flip) == Some(st) && Run(cmds + [OtherCmd], flip) == Some(st)
  {
    RunSnoc(cmds, PositionCmd(p), flip);
    RunSnoc(cmds, TexCoordCmd(u, v), flip);
    RunSnoc(cmds, NormalCmd(n), flip);
    RunSnoc(cmds, CommentLine, flip);
    RunSnoc(cmds, OtherCmd, flip);
  }

  /** Three positions and three texture coordinates; the v coordinates are
      stored flipped. */
  lemma AttributeLines(p0: Vec3, p1: Vec3, p2: Vec3, u0: real, v0: real, u1: real, v1: real, u2: real, v2: real,
                       flip: bool)
    ensures Run([PositionCmd(p0), PositionCmd(p1), PositionCmd(p2),
                 TexCoordCmd(u0, v0), TexCoordCmd(u1, v1), TexCoordCmd(u2, v2)], flip) ==
            Some(ObjState([p0, p1, p2], [Vec2(u0, 1.0 - v0), Vec2(u1, 1.0 - v1), Vec2(u2, 1.0 - v2)], [], [], []))
  {
    var uv0, uv1, uv2 := Vec2(u0, 1.0 - v0), Vec2(u1, 1.0 - v1), Vec2(u2, 1.0 - v2);
    var c1 := [PositionCmd(p0)];
    var c2 := c1 + [PositionCmd(p1)];
    var c3 := c2 + [PositionCmd(p2)];
    var c4 := c3 + [TexCoordCmd(u0, v0)];
    var c5 := c4 + [TexCoordCmd(u1, v1)];
    var c6 := c5 + [TexCoordCmd(u2, v2)];
    var s1 := ObjState([p0], [], [], [], []);
    var s2 := ObjState([p0, p1], [], [], [], []);
    var s3 := ObjState([p0, p1, p2], [], [], [], []);
    var s4 := ObjState([p0, p1, p2], [uv0], [], [], []);
    var s5 := ObjState([p0, p1, p2], [uv0, uv1], [], [], []);
    var s6 := ObjState([p0, p1, p2], [uv0, uv1, uv2], [], [], []);
    RunSnoc([], PositionCmd(p0), flip);
    assert [] + [PositionCmd(p0)] == c1;
    assert Step(Start, PositionCmd(p0), flip) == Some(s1) by { assert Start.positions + [p0] == [p0]; }
    RunSnoc(c1, PositionCmd(p1), flip);
    assert Step(s1, PositionCmd(p1), flip) == Some(s2) by { assert [p0] + [p1] == [p0, p1]; }
    RunSnoc(c2, PositionCmd(p2), flip);
    assert Step(s2, PositionCmd(p2), flip) == Some(s3) by { assert [p0, p1] + [p2] == [p0, p1, p2]; }
    RunSnoc(c3, TexCoordCmd(u0, v0), flip);
    assert Step(s3, TexCoordCmd(u0, v0), flip) == Some(s4) by { assert s3.uvs + [uv0] == [uv0]; }
    RunSnoc(c4, TexCoordCmd(u1, v1), flip);
    assert Step(s4, TexCoordCmd(u1, v1), flip) == Some(s5) by { assert [uv0] + [uv1] == [uv0, uv1]; }
    RunSnoc(c5, TexCoordCmd(u2, v2), flip);
    assert Step(s5, TexCoordCmd(u2, v2), flip) == Some(s6) by { assert [uv0, uv1] + [uv2] == [uv0, uv1, uv2]; }
    assert c6 == [PositionCmd(p0), PositionCmd(p1), PositionCmd(p2),
                  TexCoordCmd(u0, v0), TexCoordCmd(u1, v1), TexCoordCmd(u2, v2)];
  }

  /** The first face of a file: its vertices are 0, 1, 2, and the indices are
      them in order, or with the last two swapped under the flip. */
  lemma FirstFace(st: ObjState, c0: Corner, c1: Corner, c2: Corner, flip: bool)
    requires st.vertices == [] && st.indices == []
    requires CornerInRange(st, c0) && CornerInRange(st, c1) && CornerInRange(st, c2)
    ensures var r := Step(st, FaceCmd(c0, c1, c2), flip);
            r.Some? && r.value.indices == (if flip then [0, 2, 1] else [0, 1, 2]) && |r.value.vertices| == 3 &&
            r.value.vertices[0].position == st.positions[c0.position - 1] &&
            r.value.vertices[1].position == st.positions[c1.position - 1] &&
            r.value.vertices[2].position == st.positions[c2.position - 1] &&
            (c0.texCoord.Some? ==> r.value.vertices[0].uv == st.uvs[c0.texCoord.value - 1]) &&
            (c1.texCoord.Some? ==> r.value.vertices[1].uv == st.uvs[c1.texCoord.value - 1]) &&
            (c2.texCoord.Some? ==> r.value.vertices[2].uv == st.uvs[c2.texCoord.value - 1])
  {
    var cs := [c0, c1, c2];
    EmitCornersLookup(st, cs);
    assert cs[0] == c0 && cs[1] == c1 && cs[2] == c2;
    var vs := EmitCorners(st, cs).value;
    assert st.vertices + vs == vs;
  }

  /** One textured triangle: three positions, three texture coordinates and a
      face "1/1 2/2 3/3". The uvs come out with v flipped, and the flip reverses
      the winding. */
  lemma OneTriangle(p0: Vec3, p1: Vec3, p2: Vec3, u0: real, v0: real, u1: real, v1: real, u2: real, v2: real,
                    flip: bool)
    ensures var cmds := [PositionCmd(p0), PositionCmd(p1), PositionCmd(p2),
                         TexCoordCmd(u0, v0), TexCoordCmd(u1, v1), TexCoordCmd(u2, v2),
                         FaceCmd(Corner(1, Some(1), None), Corner(2, Some(2), None), Corner(3, Some(3), None))];
            var r := Run(cmds, flip);
            r.Some? &&
            r.value.indices == (if flip then [0, 2, 1] else [0, 1, 2]) &&
            |r.value.vertices| == 3 &&
            r.value.vertices[0].position == p0 && r.value.vertices[1].position == p1 &&
            r.value.vertices[2].position == p2 &&
            r.value.vertices[0].uv == Vec2(u0, 1.0 - v0) && r.value.vertices[1].uv == Vec2(u1, 1.0 - v1) &&
            r.value.vertices[2].uv == Vec2(u2, 1.0 - v2)
  {
    var attributes := [PositionCmd(p0), PositionCmd(p1), PositionCmd(p2),
                       TexCoordCmd(u0, v0), TexCoordCmd(u1, v1), TexCoordCmd(u2, v2)];
    var face := FaceCmd(Corner(1, Some(1), None), Corner(2, Some(2), None), Corner(3, Some(3), None));
    AttributeLines(p0, p1, p2, u0, v0, u1, v1, u2, v2, flip);
    var st := ObjState([p0, p1, p2], [Vec2(u0, 1.0 - v0), Vec2(u1, 1.0 - v1), Vec2(u2, 1.0 - v2)], [], [], []);
    FirstFace(st, face.c0, face.c1, face.c2, flip);
    RunSnoc(attributes, face, flip);
    assert attributes + [face] == [PositionCmd(p0), PositionCmd(p1), PositionCmd(p2),
                                   TexCoordCmd(u0, v0), TexCoordCmd(u1, v1), TexCoordCmd(u2, v2), face];
  }

  /** One "f" line: three corners through the face's single vertex variable,
      their positions in the tempIndices array, then the three indices.
      ok is false when a corner names a missing element. */
  method ReadFace(st: ObjState, c0: Corner, c1: Corner, c2: Corner, flipAxisAndWinding: bool)
    returns (ok: bool, vertices: seq<Vertex>, indices: seq<nat>)
    ensures ok <==> Step(st, FaceCmd(c0, c1, c2), flipAxisAndWinding).Some?
    ensures ok ==> vertices == Step(st, FaceCmd(c0, c1, c2), flipAxisAndWinding).value.vertices
    ensures ok ==> indices == Step(st, FaceCmd(c0, c1, c2), flipAxisAndWinding).value.indices
  {
    vertices, indices := st.vertices, st.indices;
    var corners := [c0, c1, c2];
    var vertex := DefaultVertex;
    var tempIndices := new nat[3];
    var faceStart := |vertices|;
    for iFace := 0 to 3
      invariant |vertices| == faceStart + iFace && vertices[..faceStart] == st.vertices
      invariant EmitCorners(st, corners[..iFace]) == Some(vertices[faceStart..])
      invariant vertex == Last(vertices[faceStart..])
      invariant forall k :: 0 <= k < iFace ==> tempIndices[k] == faceStart + k
    {
      var c := corners[iFace];
      assert corners[..iFace + 1][..iFace] == corners[..iFace];
      if !(1 <= c.position <= |st.positions|) ||
         (c.texCoord.Some? && !(1 <= c.texCoord.value <= |st.uvs|)) ||
         (c.normal.Some? && !(1 <= c.normal.value <= |st.normals|)) {
        EmitCornersLookup(st, corners);
        return false, vertices, indices;
      }
      vertex := vertex.(position := st.positions[c.position - 1]);
      if c.texCoord.Some? {
        vertex := vertex.(uv := st.uvs[c.texCoord.value - 1]);
      }
      if c.normal.Some? {
        vertex := vertex.(normal := st.normals[c.normal.value - 1]);
      }
      vertices := vertices + [vertex];
      assert vertices[faceStart..] == vertices[faceStart..|vertices| - 1] + [vertex];
      tempIndices[iFace] := |vertices| - 1;
    }
    assert corners[..3] == corners;
    indices := indices + [tempIndices[0]];
    if flipAxisAndWinding {
      indices := indices + [tempIndices[2]];
      indices := indices + [tempIndices[1]];
    } else {
      indices := indices + [tempIndices[1]];
      indices := indices + [tempIndices[2]];
    }
    assert vertices == st.vertices + vertices[faceStart..];
    ok := true;
  }

  /** The last loop of the parser, run when the flip is requested. */
  method FlipAxis(vertices0: seq<Vertex>) returns (vertices: seq<Vertex>)
    ensures vertices == FinalVertices(vertices0, true)
  {
    vertices := vertices0;
    var j := 0;
    while j < |vertices|
      invariant 0 <= j <= |vertices| == |vertices0|
      invariant forall k :: 0 <= k < j ==> vertices[k] == FlipZ(vertices0[k])
      invariant forall k :: j <= k < |vertices| ==> vertices[k] == vertices0[k]
    {
      var v := vertices[j];
      v := v.(position := Vec3(v.position.x, v.position.y, -v.position.z));
      v := v.(normal := Vec3(v.normal.x, v.normal.y, -v.normal.z));
      v := v.(tangent := Vec3(v.tangent.x, v.tangent.y, -v.tangent.z));
      vertices := vertices[j := v];
      j := j + 1;
    }
  }

  /** The parser loop, one command per iteration, then the z-flip. A reference
      to a missing element (undefined behaviour in the original) gives ok == false. */
  method ParseObj(commands: seq<ObjCommand>, flipAxisAndWinding: bool)
    returns (ok: bool, vertices: seq<Vertex>, indices: seq<nat>)
    ensures ok <==> Run(commands, flipAxisAndWinding).Some?
    ensures ok ==> vertices == FinalVertices(Run(commands, flipAxisAndWinding).value.vertices, flipAxisAndWinding)
    ensures ok ==> indices == Run(commands, flipAxisAndWinding).value.indices
  {
    var positions: seq<Vec3> := [];
    var normals: seq<Vec3> := [];
    var uvs: seq<Vec2> := [];
    vertices, indices := [], [];
    var i := 0;
    while i < |commands|
      invariant 0 <= i <= |commands|
      invariant Run(commands[..i], flipAxisAndWinding) == Some(ObjState(positions, uvs, normals, vertices, indices))
    {
      assert commands[..i + 1][..i] == commands[..i];
      match commands[i] {
      case CommentLine =>
      case PositionCmd(p) =>
        positions := positions + [p];
      case TexCoordCmd(u, v) =>
        uvs := uvs + [Vec2(u, 1.0 - v)];
      case NormalCmd(n) =>
        normals := normals + [n];
      case FaceCmd(c0, c1, c2) =>
        var faceOk;
        faceOk, vertices, indices := ReadFace(ObjState(positions, uvs, normals, vertices, indices), c0, c1, c2,
                                              flipAxisAndWinding);
        if !faceOk {
          FailureIsFinal(commands, i + 1, flipAxisAndWinding);
          return false, vertices, indices;
        }
      case OtherCmd =>
      }
      i := i + 1;
    }
    assert commands[..i] == commands;
    if flipAxisAndWinding {
      vertices := FlipAxis(vertices);
    }
    ok := true;
  }
}
