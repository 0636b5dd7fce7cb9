# A verified model of a software triangle rasterizer

This project models the core of a small C++ software rasterizer. The renderer does the following:

- It reads the vehicle mesh from an OBJ file.
- Each frame, it transforms the mesh's vertices to screen space.
- It walks the index buffer three indices at a time.
- For every pixel of each triangle's clamped bounding box, it runs an edge-function coverage test with perspective-correct barycentric interpolation.
- It keeps the nearest fragment in a depth buffer. "Nearest wins" and ties pass.
- It writes a colour chosen by two render flags and a four-valued lighting mode.

The model is written in Dafny and split into these modules:

- `Geometry` (`geometry.dfy`): vectors and colours over exact reals.
- `Interpolation` (`interpolation.dfy`): `Utils::IsPixelInterpolated` as a function.
  - It returns a `Coverage` value: rejected by an edge, degenerate, depth-culled, or covered with the interpolated pixel, uv and depth.
  - Its lemmas cover the edge functions, the barycentric weights, exactness at the corners, and containment in the triangle's hull.
- `Shading` (`shading.dfy`): the `LightingMode` enum and its cycle, and the mode switch of `PixelShading`. The Lambert and Phong terms are given colours.
- `Transform` (`transform.dfy`): meshes, the per-vertex transform, and the linear NDC-to-screen map.
  - The matrix products and `Normalize` are the function fields of a `Pipeline` value.
- `Raster` (`raster.dfy`): the value-level meaning of one frame.
  - Triangle selection per topology and the clamped bounding box.
  - One depth-tested pixel (`StepPixel`), the two pixel loops (`Column`, `Rows`), one triangle (`DrawTriangle`), the triangle loop (`Triangles`) and a whole frame (`RenderFrame`).
  - The frame-level properties: stored depths never grow; nearest wins regardless of draw order, as a bound and by attainment (a covered pixel shows the depth and colour of a covering fragment, so a strictly nearest fragment is the one shown); every cell is either untouched or validly drawn; and the drawn footprint is exactly the set of covered pixels.
- `Frame` (`frame.dfy`): the `Renderer` class.
  - It holds the three flags, the lighting mode, and the depth and colour buffers as arrays of `width * height` cells.
  - Its methods change those fields in place.
  - `Render` is proved to leave the buffers equal to `RenderFrame` of the transformed mesh.
- `Obj` (`obj.dfy`): `Utils::ParseOBJ` over a tokenised command list (`v`, `vt`, `vn`, `f`, comments and other lines).
  - `Run` is the fold of the parser's step.
  - The method `ParseObj`, with its per-face method `ReadFace` and the z-flip loop `FlipAxis`, is proved to compute it.

The model follows the code, including these quirks:

- **Triangle loop stride.** The triangle loop steps by 3 even for triangle strips, and its bound `indices.size() - 2` is unsigned. `Render` therefore requires at least two indices.
- **Unstored normal.** `IsPixelInterpolated` computes the interpolated normal but never stores it. The candidate pixel's normal stays zero, so `PixelShading` sees a degenerate tangent basis (`Shading.ZeroNormalShading`).
- **ObservedArea.** This mode reports the cosine unclamped, negative values included.
- **One world matrix.** Every mesh is transformed with the vehicle's world matrix.
- **View direction.** It is taken from the screen-space position (`Transform.TransformVertex`).
- **Shared vertex variable.** In `ParseOBJ` a face's three corners share one `Vertex` variable. A corner without a uv or normal reference therefore inherits the previous corner's, or the default value for the first corner.

Where the code and its documentation disagree, the model follows the code.

Several things are taken as assumptions because their files are not part of this model:

- `Vector2::Cross(a, b)` is `a.x*b.y - a.y*b.x`.
- `Remap` is the linear map.
- A default-constructed `Vertex` has a white colour and zero everywhere else.
- `Maths.h` and `DataTypes.h` are not part of this model.

## Model

| member | source | states |
|---|---|---|
| Interpolation.IsPixelInterpolated | Library/src/Utils.h:14-77 | rejected at the edge test exactly when one of the three cross products is positive; set aside as degenerate only where the source divides by zero (zero total area, or a zero depth or w denominator), and always when the area is zero and the edges pass; depth-culled only when the depth lies outside [0, 1]; a covered pixel has a depth in [0, 1], both ends inclusive; the pixel's position, normal and uv are never written |
| Interpolation.AreaIndependentOfPixel | Library/src/Utils.h:16-34 | the three cross products always sum to the triangle's signed doubled area, whatever the pixel |
| Interpolation.WeightsSumToOne | Library/src/Utils.h:34-38 | when the area is non-zero, W0 + W1 + W2 = 1 |
| Interpolation.CoveredWeights | Library/src/Utils.h:26-38 | a covered pixel comes from a triangle of negative signed area (clockwise on screen), and its weights are all non-negative and sum to 1 |
| Interpolation.ExactAtVertex | Library/src/Utils.h:41-74 | at a pixel on corner k, a covered result carries exactly that corner's depth, uv, colour, tangent and view direction; and such a pixel is covered whenever the area is negative, all z and w are non-zero and the corner's depth is in (0, 1] |
| Interpolation.Reconstruction | Library/src/Utils.h:16-34 | cross0*V0 + cross1*V1 + cross2*V2 = totalArea*P: the weights are barycentric coordinates of the pixel |
| Interpolation.CoveredPixelInHull | Library/src/Utils.h:26-38 | a covered pixel lies between the least and greatest corner x and y |
| Shading.ModeOf | Rasterizer/src/Renderer.cpp:314-316 | converting an integer below 4 to a mode and back gives the same integer |
| Shading.CycleOrder | Rasterizer/src/Renderer.cpp:312-317 | cycling goes ObservedArea, Diffuse, Specular, Combined and wraps back to ObservedArea |
| Shading.FourCyclesRestore | Rasterizer/src/Renderer.cpp:312-317 | four cycles restore any mode, and one, two or three cycles never do |
| Shading.ModeColor | Rasterizer/src/Renderer.cpp:278-308 | ObservedArea gives (cos, cos, cos) unclamped; every other mode gives black when cos < 0; Diffuse and Specular scale their term by cos |
| Shading.CombinedIsSum | Rasterizer/src/Renderer.cpp:296-306 | for cos >= 0, Combined equals Diffuse plus Specular plus the ambient term scaled by cos |
| Shading.ZeroNormalShading | Rasterizer/src/Renderer.cpp:249-257 | with a zero pixel normal, the mapped normal is the sampled x times the tangent |
| Shading.ZeroNormalPixelShading | Rasterizer/src/Renderer.cpp:242-311 | PixelShading on the pixel Render passes (normal zero): the cosine is the sampled x times the tangent's dot product with the light direction, the mode switch acts on that cosine, and every mode but ObservedArea is black when it is negative |
| Transform.NdcCorners | Rasterizer/src/Renderer.cpp:236-241 | NDC (-1, 1) maps to the screen origin and (1, -1) to (width, height): x grows right, and y is flipped |
| Transform.NdcRoundTrip | Rasterizer/src/Renderer.cpp:236-241 | on a non-empty screen, NDC-to-screen and its inverse compose to the identity in both orders |
| Transform.NdcOrientation | Rasterizer/src/Renderer.cpp:236-241 | larger NDC x goes to larger screen x, and larger NDC y goes to a smaller row |
| Transform.TransformVertex | Rasterizer/src/Renderer.cpp:187-217 | uv and colour pass through; w is the clip w and z*w the clip z; x and y are the NDC-to-screen map of the divided clip x and y; normal and tangent are the vehicle world transform of the inputs; the view direction is the normalised camera origin minus the screen-space position (x, y, z), not a world-space one |
| Transform.ScreenPositionIsDividedClip | Rasterizer/src/Renderer.cpp:198-208 | mapping the screen position back to NDC gives the perspective-divided clip x and y |
| Transform.TransformMesh | Rasterizer/src/Renderer.cpp:184-227 | one output vertex per input vertex, each the transform of its input, with the uv unchanged; indices and topology are copied |
| Raster.FragmentColorOf | Rasterizer/src/Renderer.cpp:154-166 | the colour source by priority: normal map flag, then final-colour flag, then the depth remap; never the background |
| Raster.DepthRemapBand | Rasterizer/src/Renderer.cpp:162-165 | the depth visualisation sends 0.9 to grey 0.2 and 1 to 1, preserving order |
| Raster.TriangleCorners | Rasterizer/src/Renderer.cpp:92-119 | a list takes (i, i+1, i+2); a strip does the same for even i and takes (i, i+2, i+1) for odd i |
| Raster.SwapReversesWinding | Rasterizer/src/Renderer.cpp:111-118 | swapping the second and third corners negates the signed area |
| Raster.TriangleLoopBound | Rasterizer/src/Renderer.cpp:90 | with at least two indices, the loop visits triangle t, at i = 3t, exactly when t < size / 3 |
| Raster.TriangleLoopEnd | Rasterizer/src/Renderer.cpp:90 | the loop stops at the first i = 3n with i >= size - 2, which is n = size / 3 |
| Raster.TrianglesNext | Rasterizer/src/Renderer.cpp:90-119 | one more pass of the triangle loop draws the triangle selected at i = 3n on top of the buffers so far |
| Raster.Truncate | Rasterizer/src/Renderer.cpp:123-126 | static_cast to int truncates toward zero, from below for non-negative values and from above for negative ones |
| Raster.Clamp | Rasterizer/src/Renderer.cpp:129-132 | the result lies in [lo, hi], and values already in range are unchanged |
| Raster.BoundingBox | Rasterizer/src/Renderer.cpp:123-132 | 0 <= minX, maxX <= width and 0 <= minY, maxY <= height |
| Raster.BoxIsConservative | Rasterizer/src/Renderer.cpp:123-146 | every on-screen pixel the coverage test accepts lies inside the clamped box, so the box loses no fragment |
| Raster.PixelIndexInRange | Rasterizer/src/Renderer.cpp:134-148 | every visited pixel's index px + py*width lies in [0, width*height), and distinct pixels have distinct indices |
| Raster.Cleared | Rasterizer/src/Renderer.cpp:76-83 | frame start: both buffers have width*height cells, holding the float maximum and the background |
| Raster.StepPixel | Rasterizer/src/Renderer.cpp:138-171 | a covered fragment with depth <= the stored depth (ties pass) sets that one depth cell and colour cell; a rejected, culled or farther fragment changes nothing |
| Raster.StepPixelFrame | Rasterizer/src/Renderer.cpp:148-171 | one pixel step changes no cell other than its own, and never increases a stored depth |
| Raster.TrianglesMonotone | Rasterizer/src/Renderer.cpp:90-174 | within a frame no stored depth ever increases |
| Raster.RowsMonotone | Rasterizer/src/Renderer.cpp:134-173 | the box loops of one triangle never increase a stored depth |
| Raster.ColumnMonotone | Rasterizer/src/Renderer.cpp:136-172 | the inner py loop never increases a stored depth |
| Raster.ColumnBounded | Rasterizer/src/Renderer.cpp:136-172 | after the inner loop covers a pixel, its stored depth is at most that fragment's depth |
| Raster.RowsBounded | Rasterizer/src/Renderer.cpp:134-173 | after the box loops cover a pixel, its stored depth is at most that fragment's depth |
| Raster.TrianglesBounded | Rasterizer/src/Renderer.cpp:90-174 | after the first n triangles, a pixel covered by any of them holds a depth at most that fragment's |
| Raster.NearestWins | Rasterizer/src/Renderer.cpp:83-174 | at the end of the frame, each pixel's depth is at most that of every fragment any triangle produced there, whatever the draw order (the bound; Raster.FrameShowsCovering gives attainment) |
| Raster.ColumnConsistent | Rasterizer/src/Renderer.cpp:136-172 | the inner loop keeps every cell either untouched (sentinel and background) or drawn (depth in [0, 1] and a fragment colour) |
| Raster.RowsConsistent | Rasterizer/src/Renderer.cpp:134-173 | the box loops keep that invariant |
| Raster.TrianglesConsistent | Rasterizer/src/Renderer.cpp:90-174 | the triangle loop keeps that invariant |
| Raster.FrameConsistent | Rasterizer/src/Renderer.cpp:76-174 | at the end of a frame every cell is untouched, or holds a depth in [0, 1] with a fragment colour |
| Raster.ColumnUntouched | Rasterizer/src/Renderer.cpp:136-172 | a pixel the triangle does not cover keeps both cells through the inner loop |
| Raster.RowsUntouched | Rasterizer/src/Renderer.cpp:134-173 | a pixel the triangle does not cover keeps both cells through the box loops |
| Raster.TrianglesUntouched | Rasterizer/src/Renderer.cpp:90-174 | a pixel no triangle covers keeps both cells through the triangle loop |
| Raster.Footprint | Rasterizer/src/Renderer.cpp:76-174 | a pixel keeps the background colour if and only if no triangle's coverage test accepts it |
| Raster.WroteCarries | Rasterizer/src/Renderer.cpp:148-171 | a cell that a step leaves unchanged still holds the fragment written there before |
| Raster.ColumnCell | Rasterizer/src/Renderer.cpp:136-172 | after the inner loop a cell is unchanged, or holds exactly this triangle's fragment depth and colour at that pixel |
| Raster.RowsCell | Rasterizer/src/Renderer.cpp:134-173 | the same for the box loops of one triangle |
| Raster.TrianglesCell | Rasterizer/src/Renderer.cpp:90-174 | after the first n triangles a cell is unchanged, or holds exactly the depth and colour of the fragment of one of them at that pixel |
| Raster.TrianglesCellStep | Rasterizer/src/Renderer.cpp:90-174 | one more triangle keeps that property |
| Raster.FrameShowsCovering | Rasterizer/src/Renderer.cpp:76-174 | a pixel covered by some triangle ends the frame holding the depth and the colour of some covering triangle's fragment there, so with NearestWins the stored depth is the least covering depth |
| Raster.NearestShown | Rasterizer/src/Renderer.cpp:76-174 | when one triangle's fragment is strictly nearer than every other covering fragment, the frame shows its depth and colour at that pixel, wherever the triangle stands in the index buffer |
| Raster.NearerWinsEitherOrder | Rasterizer/src/Renderer.cpp:90-171 | two triangles covering a pixel, drawn in either order as a triangle list: the nearer one's depth and colour end up in the buffers |
| Frame.TogglesAreInvolutions | Rasterizer/src/Renderer.h:41-42 | each toggle flips exactly its own flag; two calls are the identity; the lighting mode is untouched |
| Frame.FourCyclesRestoreSettings | Rasterizer/src/Renderer.cpp:312-317 | four calls of CycleLightingMode restore the renderer's settings, and fewer do not |
| Frame.ToggleEffectOnColor | Rasterizer/src/Renderer.cpp:154-166 | rotation never affects the colour choice; with the normal map off, ToggleZBuffer switches between shading and the depth visualisation; with it on, the toggle has no visible effect |
| Frame.Renderer.constructor | Rasterizer/src/Renderer.h:57-84 | final colour on, rotation off, normal map off, ObservedArea; both buffers have width*height cells, the resized depth buffer holding 0 |
| Frame.Renderer.ToggleZBuffer | Rasterizer/src/Renderer.h:41 | flips m_FinalColorEnabled and nothing else |
| Frame.Renderer.ToggleNormalMap | Rasterizer/src/Renderer.h:42 | flips m_NormalMapEnabled and nothing else |
| Frame.Renderer.RotateModel | Rasterizer/src/Renderer.cpp:318-321 | flips m_CanBeRotated and nothing else |
| Frame.Renderer.CycleLightingMode | Rasterizer/src/Renderer.cpp:312-317 | sets the mode to (mode + 1) % 4 and changes nothing else |
| Frame.Renderer.VertexTransformation | Rasterizer/src/Renderer.cpp:180-229 | appends exactly one screen mesh per input mesh and keeps the earlier entries; output i is the transform of input i |
| Frame.Renderer.ShadePixel | Rasterizer/src/Renderer.cpp:138-171 | the in-place body of the inner loop (coverage test, depth test, one depth and one colour write) leaves the buffers equal to StepPixel of the buffers before |
| Frame.Renderer.ShadeColumn | Rasterizer/src/Renderer.cpp:136-172 | the in-place py loop leaves the buffers equal to Column of the buffers before |
| Frame.Renderer.ClearBuffers | Rasterizer/src/Renderer.cpp:76-83 | afterwards every colour cell is the background and every depth cell is the float maximum |
| Frame.Renderer.RasterizeTriangle | Rasterizer/src/Renderer.cpp:123-173 | the in-place px/py loops leave the buffers equal to DrawTriangle of the buffers before |
| Frame.Renderer.DrawTriangles | Rasterizer/src/Renderer.cpp:90-174 | the in-place triangle loop, stepping i by 3 while i < size - 2, leaves the buffers equal to Triangles over size / 3 triangles |
| Frame.Renderer.Render | Rasterizer/src/Renderer.cpp:67-178 | after a frame, the buffers equal RenderFrame of the transformed vehicle under the current flags, so every Raster frame lemma holds of them |
| Obj.Lookup | Library/src/Utils.h:152-173 | a 1-based reference succeeds exactly when it is between 1 and the list length, and then yields element ref - 1 |
| Obj.CornerLookup | Library/src/Utils.h:153-175 | a corner is accepted exactly when all its references are in range; it then sets the position and the referenced uv and normal, and keeps the rest of the face's vertex variable |
| Obj.EmitCornersLookup | Library/src/Utils.h:146-180 | a face's corners are emitted exactly when every reference is in range; each vertex is filled from the one pushed before it, starting from Vertex{} |
| Obj.FailureIsFinal | Library/src/Utils.h:106-196 | once a face names a missing element, no longer prefix of the file parses |
| Obj.FaceAssembles | Library/src/Utils.h:177-192 | one face keeps vertex and index counts equal and multiples of three, and keeps the (n, n+1, n+2) or flipped (n, n+2, n+1) pattern |
| Obj.RunAssembles | Library/src/Utils.h:101-196 | after any parse, \|indices\| = \|vertices\| = 3 * (number of face lines), with every face's indices in that pattern |
| Obj.IndicesInRange | Library/src/Utils.h:177-192 | in an assembled state every index names an emitted vertex, and indices come in triples |
| Obj.FinalVerticesFlip | Library/src/Utils.h:229-234 | the flip negates z and keeps the count and the uvs; applying it twice is the identity |
| Obj.AttributeStep | Library/src/Utils.h:106-137 | after any parsed prefix, a v line appends its position, a vt u v line appends (u, 1 - v), a vn line appends its normal, and comments and other lines change nothing; none of them touches the output vertices or indices |
| Obj.AttributeLines | Library/src/Utils.h:115-128 | an example file of three v lines and three vt lines: the state holds the three positions in order and the three v-flipped uvs, and nothing else |
| Obj.FirstFace | Library/src/Utils.h:146-192 | the first face yields vertices 0, 1, 2 with the referenced positions and uvs, and indices (0, 1, 2), or (0, 2, 1) under the flip |
| Obj.OneTriangle | Library/src/Utils.h:101-192 | a file of three v lines, three vt lines and "f 1/1 2/2 3/3" yields the three positions, the v-flipped uvs and the winding chosen by the flag |
| Obj.ReadFace | Library/src/Utils.h:138-193 | the imperative face code, with its shared vertex variable and tempIndices array, computes the parser step for an f line, including its failure |
| Obj.FlipAxis | Library/src/Utils.h:225-236 | the in-place loop negates z of position, normal and tangent of every vertex |
| Obj.ParseObj | Library/src/Utils.h:83-240 | succeeds exactly when Run does; the outputs are Run's indices and the (optionally z-flipped) vertices |

## Left out

- **SDL plumbing.** Locking, `SDL_FillRect`'s pixel format, `SDL_MapRGB`, blit, present, `SaveBufferToImage` and window sizing are platform I/O. The colour buffer holds an abstract `FragmentColor` in place of the 32-bit pixel.
- **Colour arithmetic.** Texture loading and sampling, the Lambert and Phong terms (`powf`, `M_PI`, light intensity, gloss), `MaxToOne` and 8-bit quantisation are float numerics on foreign types. `FragmentColor` records the sample or shading inputs instead, and `Shading.ModeColor` takes the terms as given colours.
- **Camera and matrices.** Matrix and camera math lives in files not part of this model. `TransformPoint`, `TransformVector` and `Normalize` are the uninterpreted functions of `Transform.Pipeline`.
- Shading.MappedNormal: assumes that `TransformVector` with the (tangent, binormal, normal) matrix multiplies the sample as a row vector by those three rows, and that `Vector3::Cross` is the usual cross product; `Maths.h` is not part of this model.
- Raster.FrameShowsCovering: when several covering fragments share the least depth, it does not say which of them is shown.
- **`Update`.** The timer-driven rotation in `Update`, and the destructor, are time input and resource ownership.
- **Constructor.** The window queries, camera set-up, texture loading and the ParseOBJ call with the vehicle's translation in the constructor are left out; `Render` takes the vehicle mesh and the pipeline as parameters. `Frame.Renderer.constructor` takes the size as parameters and fills the new buffers with 0 and the background.
  - `SDL_CreateRGBSurface` zero-fills the back buffer, so the source's colour buffer starts black, not the background grey. The difference is visible only before the first `Render`, whose clear overwrites every cell.
- **Floating point.** Coordinates are exact reals, so there is no single-precision rounding, NaN or infinity.
  - Where the source divides by zero, the model returns `Degenerate` and `Render` skips the pixel. This covers a zero-area triangle, z = 0 or w = 0 at a corner, or a zero interpolation denominator.
  - The C++ goes on with inf or NaN and draws most of these pixels, because a comparison with NaN is false and so rejects nothing:
    - a zero area makes every weight, and so the depth, NaN, which passes both the cull test and the depth test;
    - z = 0 at a corner gives depth 0, or NaN, and the pixel is drawn;
    - w = 0 at a corner gives NaN attributes, and the pixel is still drawn;
    - only a zero depth denominator gives an infinite depth, which the cull test rejects.
  - The model skips all of these pixels, so on such input its frame differs from the source's.
- Interpolation.IsPixelInterpolated: the division-by-zero cases are reported as `Degenerate` rather than followed through IEEE arithmetic.
- Transform.TransformVertex: requires w != 0 for the perspective divide, which the source does not check.
- Frame.Renderer.Render: requires every index to name a vertex and every vertex to have w != 0. An out-of-range index is undefined behaviour in the source.
- **Integer widths.** Indices are unbounded naturals, so uint32 wrap-around is not modelled. The unsigned `indices.size() - 2` is handled by requiring at least two indices. The `static_cast<int>` truncation of the box corners is modelled, by `Raster.Truncate`.
- **Default argument.** `ParseOBJ`'s default `flipAxisAndWinding = true` (Library/src/Utils.h:83) is an explicit `flip` parameter of `Obj.ParseObj` and `Obj.Run`.
- **OBJ tokenising.** Reading the stream (`ifstream`, `peek`, `ignore`, the `eof` loop) is left out. The parser works on a list of already tokenised lines, each processed once.
  - The original's `!file.eof()` loop can run its body once more after the last line. That is not captured.
- **Tangents.** The tangent accumulation and `Reject(...).Normalized()` are float arithmetic and are left out, so tangents keep the value the face's vertex variable gave them. Their z is still negated by the flip.
- Obj.ParseObj: a face that names a missing element is undefined behaviour in the source. The model reports it as `ok == false`, and states nothing about the partial outputs. In the source the return value is false only when the file cannot be opened, which the model does not represent.
- **Meshes and topology.** Only the one vehicle mesh that `Render` pushes is drawn. The per-mesh `worldMatrix` is not part of `Transform.Mesh`, because the source always uses the vehicle's.
