# tsrenderer rasterisation core in Dafny

tsrenderer is a step-by-step software renderer in C++. Each tutorial stage
rewrites the same integer rasterisation core with small changes. This project
models that core stage by stage and proves what each variant does.

- **Bresenham lines.** The model covers `bresenham_line` (1-initial) and `line`
  (2-triangles, and the identical copy in zbuffer/main.cpp:16-53). Each is a
  loop over the major axis that emits the sequence of `image.set` positions.
  That sequence is proved equal to a closed-form line in which the minor offset
  at step k is floor((2·dy·k + dx − 1) / (2·dx)). Count, endpoints, unit steps,
  half-pixel accuracy and direction symmetry are proved about that closed form.
- **Barycentric weights.** Two constructions are modelled, both from the
  integer cross product of the edge vectors, with exact real division:
  - the reversed order (t[2], t[1], t[0]) of 2-triangles and zbuffer;
  - the forward order (t[0], t[1], t[2]) of 4-shading and gl.h.
- **Bounding-box fillers.** Four fillers are modelled as imperative methods
  over `array2` images:
  - 2-triangles `parallel_triangle`: no depth test;
  - zbuffer `triangle`: a flat `array<int>` z-buffer with the `>=` test, and
    the depth and texture position computed with the pairing as written;
  - 4-shading `triangle`: the same flat buffer and test, with forward-order
    weights;
  - gl.h `triangle`: an `array2<int>` depth image with a strict `>` test and
    a shader `fragment` stage that may discard.

  Each is proved to leave every cell exactly as a per-pixel predicate says, and
  each scans the clamped box in x-major order. All four write the image with
  `image.set`. For 2-triangles a ghost log records the `set` calls, and for gl.h
  the fragment calls, with their order; for the zbuffer and 4-shading fillers
  only the final buffers are stated, not the order of the writes.
- **Matrix builders.** `viewport`, `projection` and the layout part of `lookat`
  assign entries of a 4×4 identity. They are proved equal to the written-out
  matrices, together with what those matrices do to homogeneous points. gl.h
  keeps its three matrices in globals; these are the fields of the class
  `Gl.Context`.

Two behaviours of the code worth stating:
- gl.h rejects ties (`zval <= stored` skips the pixel), so of two equally deep
  fragments the one drawn first stays; the `>=` fillers of zbuffer and
  4-shading let the latest draw win.
- `lookat` puts −center in column 3 of a matrix whose upper block is the
  rotation. The translation therefore applies after the change of basis, as
  `Transform.LookAtMaps` states, and not before it.

Depth and texture interpolation follow the C++ up to float rounding, in each
filler with that filler's own pairing of corners and weights; for zbuffer that
is the mispaired one described under "## Findings". `zval += t[i].z*bc[i]`
converts back to `int` after every step, which truncates toward zero.
`Raster.Accumulate` models that step by step.

## Model

| member | source | states |
|---|---|---|
| Bresenham.Normalize | 1-initial/main.cpp:38-50 | after the two swaps the frame is shallow (its minor extent is at most its major extent) and ordered, `steep` holds iff \|x0−x1\| < \|y0−y1\|, the major length is max(\|dx\|,\|dy\|), and the frame's endpoints map back to the two input endpoints, in one order or the other |
| Bresenham.Plot | 1-initial/main.cpp:52-73 | the error-term loop (D, y, yi) emits exactly the closed-form pixel sequence of the frame |
| Bresenham.BresenhamLine | 1-initial/main.cpp:37-74 | `bresenham_line` emits exactly the closed-form line from (x0,y0) to (x1,y1), which has max(\|dx\|,\|dy\|)+1 positions |
| Bresenham.Line | 2-triangles/main.cpp:13-50 | `line`, whose order swap exchanges whole points, emits the same sequence as `bresenham_line` |
| Bresenham.LineEndpoints | 1-initial/main.cpp:60-73 | the first plotted position is one endpoint and the last is the other |
| Bresenham.LineSteps | zbuffer/main.cpp:42-52 | consecutive positions differ by exactly 1 on the major axis and by 0 or 1 on the minor axis, always in the direction of the last position |
| Bresenham.LineAccuracy | 2-triangles/main.cpp:36-49 | every position is within half a pixel of the ideal line: \|2·dM·(minor−n0) − 2·dN·(major−m0)\| ≤ dM |
| Bresenham.PixelAccuracy | 1-initial/main.cpp:60-72 | the same half-pixel bound for step k of a normalised frame, the bound the error term D keeps |
| Bresenham.LineSymmetric | 1-initial/main.cpp:46-50 | drawing a→b and b→a plots the same positions in the same order |
| Barycentric.Covered | 5-shading/gl.h:90 | the test `bc.x<0 \|\| bc.y<0 \|\| bc.z<0` fails for the degenerate value (−1,1,1), and weights summing to 1 that pass it each lie in [0,1] |
| Barycentric.Weights | 5-shading/gl.h:54-71 | the forward `barycentric` returns (−1,1,1) when the cross product's z is 0, and otherwise weights that sum to 1 |
| Barycentric.WeightsReversed | zbuffer/main.cpp:55-68 | the reversed `barycentric` of 2-triangles and zbuffer returns (−1,1,1) when the cross product's z is 0, and otherwise weights that sum to 1 |
| Barycentric.EdgeCrossArea | 2-triangles/main.cpp:54-58 | the z component of both cross products is twice the signed area of the triangle, independent of p, so both report "degenerate" exactly for collinear corners |
| Barycentric.DegenerateNotCovered | zbuffer/main.cpp:65-66 | a zero-area triangle yields (−1,1,1) from both constructions, and the inside test rejects it |
| Barycentric.WeightsCombine | 5-shading/gl.h:54-71 | for a non-degenerate triangle the forward weights sum to 1 and recombine the corners into p |
| Barycentric.WeightsUnique | 4-shading/main.cpp:53-70 | any weights that sum to 1 and recombine the corners into p are the forward weights |
| Barycentric.ReversedIsReverse | zbuffer/main.cpp:55-68 | for a non-degenerate triangle the reversed construction returns the forward weights in the order (t[2], t[1], t[0]) |
| Barycentric.WeightsReversedCombine | 2-triangles/main.cpp:52-63 | the reversed weights sum to 1 and recombine the corners listed as t[2], t[1], t[0] into p |
| Barycentric.WeightsAtCorners | 5-shading/gl.h:66-70 | at t[0], t[1], t[2] the forward weights are (1,0,0), (0,1,0), (0,0,1) |
| Barycentric.WeightsReversedAtCorners | zbuffer/main.cpp:67 | at t[2], t[1], t[0] the reversed weights are (1,0,0), (0,1,0), (0,0,1) |
| Barycentric.CoveredIffConvex | 5-shading/gl.h:90 | the "no negative weight" test accepts p iff p is a convex combination of the corners of a non-degenerate triangle (both directions) |
| Barycentric.CoveredAgree | 4-shading/main.cpp:89 | both constructions accept exactly the same pixels |
| Barycentric.RightTriangleCoverage | 5-shading/gl.h:54-71 | the triangle (0,0), (4,0), (0,4) covers exactly the pixels with x ≥ 0, y ≥ 0 and x + y ≤ 4 |
| Raster.BoundingBox | 2-triangles/main.cpp:67-75 | the min/max folding loop yields lb[j] = max(0, min(dim−1, min_i t[i][j])) and rt[j] = min(dim−1, max(0, max_i t[i][j])) |
| Raster.BoxShape | 4-shading/main.cpp:74-86 | the clamped box is never inverted by more than one row or column, is non-empty on each axis with a positive extent, and lies inside the image |
| Raster.CoveredInBox | 5-shading/gl.h:75-90 | every in-image pixel the inside test accepts lies in the clamped box, so the scan visits it |
| Raster.AddTrunc | 5-shading/gl.h:93 | one `zval += t[i].z*bc[i]` on an `int`: the result is the exact sum truncated toward zero, at most 1 below it for a non-negative sum and at most 1 above it for a negative one |
| Raster.TruncBounds | 4-shading/main.cpp:95 | the float-to-int conversion truncates toward zero: \|n\| ≤ \|r\| < \|n\|+1, with the sign kept |
| Raster.InterpolateDepth | 5-shading/gl.h:91-93 | the `zval` loop computes the step-by-step truncated interpolation of t[i].z by bc[i] |
| Raster.InterpolateAttributes | 4-shading/main.cpp:90-99 | the `zval`/`uval`/`vval` loop computes the step-by-step truncated interpolation of the depths and texture coordinates |
| Raster.InterpAtCorners | 4-shading/main.cpp:93-99 | with a unit weight vector, the interpolation returns that corner's value exactly |
| Raster.AccumulateBounds | 5-shading/gl.h:92-93 | with non-negative terms, every truncated partial sum over n steps is non-negative and lies within (exact − n, exact] |
| Raster.InterpBounds | 5-shading/gl.h:91-93 | for accepted weights and non-negative depths, the interpolated depth is non-negative and within 3 below the exact convex combination |
| Raster.ZIndexInRange | 4-shading/main.cpp:100 | `p.x + p.y*width` is in [0, width·height) for every in-image pixel |
| Raster.ZIndexCell | zbuffer/main.cpp:95 | for an image no wider than 800, the index of pixel (x,y) encodes x and y back as its remainder and quotient by 800 |
| Raster.DepthAtCorners | 4-shading/main.cpp:89-99 | with the forward weights of 4-shading and gl.h, the depth and texture position at each corner of a non-degenerate triangle are that corner's own |
| Transform.BuildViewport | 4-shading/main.cpp:24-35 | the entry assignments build exactly the viewport matrix: diagonal (w/2, h/2, depth/2, 1), column 3 (x+w/2, y+h/2, depth/2, 1), identity elsewhere |
| Transform.BuildProjection | 5-shading/gl.h:48-52 | the assignment builds the identity with coefficient c at [3][2] |
| Transform.BuildLookAt | 4-shading/main.cpp:42-50 | the loop builds the matrix whose rows 0-2 of the upper block are the x, y, z basis vectors, with column 3 = (−center, 1) and row 3 = (0,0,0,1) |
| Transform.ViewportMaps | 5-shading/gl.h:21-31 | the viewport maps (a,b,c,1) to (x + w(a+1)/2, y + h(b+1)/2, depth(c+1)/2, 1) |
| Transform.ViewportCorners | 5-shading/gl.h:21-31 | (−1,−1,−1,1) goes to (x,y,0,1) and (1,1,1,1) to (x+w,y+h,depth,1) |
| Transform.ProjectionShape | 5-shading/gl.h:48-52 | projection(c) differs from the identity only at [3][2] = c, and projection(0) is the identity |
| Transform.ProjectionMaps | 5-shading/gl.h:50-51 | projection(c) keeps x, y, z and sets the homogeneous coordinate to c·z + 1 |
| Transform.LookAtMaps | 5-shading/gl.h:38-45 | look-at maps p to (x·p − center.x, y·p − center.y, z·p − center.z, 1): the translation applies after the change of basis |
| Transform.LookAtStandardBasis | 4-shading/main.cpp:42-50 | with the standard basis, look-at is the translation by −center |
| Triangles.ParallelTriangle | 2-triangles/main.cpp:65-85 | pixel p becomes `color` iff all its reversed weights are ≥ 0; every other pixel keeps its value; the `set` calls are exactly the painted in-image pixels, each once, in x-major order |
| Triangles.FillColumn | 2-triangles/main.cpp:79-84 | one column of the box: exactly its accepted pixels are set, and the log grows by them in scan order |
| Triangles.DegenerateDrawsNothing | 2-triangles/main.cpp:58-62 | a zero-area triangle paints no pixel |
| ZBuffer.DepthAsWritten | zbuffer/main.cpp:86-94 | `zval` pairs t[i].z with component i of the reversed weights; inside the triangle and with non-negative depths it is non-negative and within 3 below that mispaired exact sum |
| ZBuffer.DepthAsWrittenMispaired | zbuffer/main.cpp:89-96 | for t = (0,0,0), (4,0,0), (0,4,100) at p = (0,0) over stored depth 50, the source's pairing gives depth 100 and passes the test, whereas the corrected pairing gives t[0].z = 0 and fails it |
| ZBuffer.AsWrittenAtCorners | zbuffer/main.cpp:86-94 | at corner k of a non-degenerate triangle the source's depth and texture position are those of corner 2−k |
| ZBuffer.CornerWeightsForward | zbuffer/main.cpp:55-68 | reversed weights put back in corner order equal the forward weights of a non-degenerate triangle, and pass the inside test exactly when the reversed weights do |
| ZBuffer.CorrectedAtCorners | zbuffer/main.cpp:88-94 | with the corrected pairing, the depth and texture position at each corner are that corner's own |
| ZBuffer.Visit | zbuffer/main.cpp:86-101 | at p the z-buffer and image cells are replaced by the depth and shaded texel as written iff p is inside and that depth ≥ stored; no other cell changes |
| ZBuffer.FillColumn | zbuffer/main.cpp:84-102 | one column of the box gets the per-pixel rule as written; all other cells, and every z-buffer entry outside the image, are unchanged |
| ZBuffer.Triangle | zbuffer/main.cpp:70-103 | every image pixel gets the depth and texel as written iff inside and that depth ≥ stored, and keeps both otherwise; entries outside the image are untouched; no z-buffer entry decreases |
| ZBuffer.DegenerateDrawsNothing | zbuffer/main.cpp:65-66 | a zero-area triangle passes the test nowhere |
| Shading.Viewport | 4-shading/main.cpp:24-35 | `viewport(x,y,w,h)` builds the viewport matrix for the global depth 800 and maps (1,1,1) to (x+w,y+h,800) and (−1,−1,−1) to (x,y,0) |
| Shading.LookAt | 4-shading/main.cpp:37-51 | `lookat` builds the basis-rows, −center-column layout |
| Shading.AgreesWithCorrectedZBuffer | 4-shading/main.cpp:88-103 | this filler accepts exactly the pixels of the zbuffer rule with the corrected pairing and writes the same depth and texture position |
| Shading.Visit | 4-shading/main.cpp:88-106 | at p both cells are replaced iff p is inside and depth ≥ stored; no other cell changes |
| Shading.FillColumn | 4-shading/main.cpp:86-107 | one column of the box gets the per-pixel rule; all other cells are unchanged |
| Shading.Triangle | 4-shading/main.cpp:72-108 | every image pixel gets depth and shaded texel iff inside and depth ≥ stored, and keeps both otherwise; entries outside the image are untouched; no z-buffer entry decreases |
| Shading.DegenerateDrawsNothing | 4-shading/main.cpp:63-64 | a zero-area triangle passes the test nowhere |
| Gl.Context.constructor | 5-shading/gl.h:10-12 | the three global matrices start as given |
| Gl.Context.Viewport | 5-shading/gl.h:21-31 | replaces only the Viewport matrix, by the viewport matrix, which sends (−1,−1,−1) to (x,y,0) and (1,1,1) to (x+w,y+h,depth) |
| Gl.Context.LookAt | 5-shading/gl.h:33-46 | replaces only the ModelView matrix, by the look-at layout of the given basis |
| Gl.Context.Projection | 5-shading/gl.h:48-52 | replaces only the Projection matrix, by projection(c); coefficient 0 gives the identity |
| Gl.Visit | 5-shading/gl.h:89-102 | the fragment stage runs iff p is inside and depth > stored; both cells change iff it also keeps the fragment, to the depth and the fragment's colour; nothing else changes |
| Gl.Step | 5-shading/gl.h:88-102 | one pixel of the scan moves the buffers and the fragment-call log from the state before it to the state after it, measured against the buffers as they were before the scan |
| Gl.LoggedStep | 5-shading/gl.h:89-97 | the pixel just visited joins the log iff it passes the depth test, and the log stays in scan order |
| Gl.FillColumn | 5-shading/gl.h:87-103 | after one column the buffers and the log are those of the scan having finished that column: every finished pixel that passes and is kept is written, every other pixel is unchanged, and the log holds exactly the finished passing pixels in order |
| Gl.FillBox | 5-shading/gl.h:85-103 | over the whole box, a pixel gets depth and colour iff it is in the box, inside, in front of its old depth and kept by the shader; the log holds exactly the in-box pixels that pass, in scan order |
| Gl.Triangle | 5-shading/gl.h:73-104 | every pixel gets depth and colour iff inside, depth > stored and kept by the shader, and keeps both otherwise; no depth decreases; the fragment stage runs exactly for the inside pixels that pass the depth test, each once, in x-major order |
| Gl.DegenerateDrawsNothing | 5-shading/gl.h:64-65 | a zero-area triangle never passes, so neither the fragment stage nor a write happens |
| Gl.RedrawRejected | 5-shading/gl.h:94 | a pixel already holding the triangle's depth rejects the same triangle again, because ties fail the strict test |

## Left out

- The `main` drivers are not modelled: OBJ loading, TGA reading and writing, flipping, allocation and the console. The filler methods take the buffers as parameters.
- The initial z-buffer value `-std::numeric_limits<int>::max()` (4-shading/main.cpp:118-120) is not modelled. The fillers accept any initial contents.
- 3-zbuffer/model.cpp and zbuffer/model.h are not part of this model: they are file parsing and declarations.
- 5-shading/main.cpp `GouraudShader` and `IShader::vertex` are not modelled: they are floating-point lighting and vertex transformation. `fragment` is a total function parameter from weights to (keep, colour).
- Gl.Triangle: a shader's fragment stage may carry state between calls. The model's `fragment` is a pure function of the weights.
- `naive_line` and `naive_triangle` are not modelled: they use float interpolation outside the integer core.
- Vector normalisation and the basis computation of `lookat` are not modelled, since they need a square root. `lookat` takes the x, y, z basis vectors as given.
- `Matrix`/`Vec` operators, matrix products and the homogeneous divide are not modelled. geometry.h is not part of this model. Only the matrix-vector product is defined, and it is used only to state what each matrix does to a point.
- `TGAImage` bounds handling in `set` is not modelled. The fillers only write pixels inside the image, so the bounds check never fires.
- Gl.Triangle: the depth image stores the `int` depth itself. The `TGAColor(zval)` narrowing to one byte (5-shading/gl.h:100) and the read back of `bgra[0]` are not modelled.
- Float rounding is not modelled. Barycentric weights are exact reals, and the per-step truncation to `int` is exact on those reals.
- ZBuffer.Triangle, Shading.Triangle: the colour written is `shade(texture position)`, an uninterpreted function standing for the texture or diffuse lookup scaled by the float intensity.
- Shading.Triangle: the interpolated intensity `ival` (4-shading/main.cpp:96) is not modelled, because the source computes it and never uses it.
- Integers are unbounded. The 32-bit `int` range of coordinates, depths, the error term and the z-buffer index is not modelled.
- ZBuffer.Triangle, Shading.Triangle: the image must be at most 800×800 and the z-buffer must have 800·800 entries. These are the global sizes with which the source indexes the buffer.
- Gl.Context.constructor: the globals' initial values (default-constructed matrices) are a parameter.

## Findings

| source | as written | input that shows it | evidently intended | confidence | as-written member | corrected member |
|---|---|---|---|---|---|---|
| zbuffer/main.cpp:89-94 | `barycentric` returns the weights in the order (t[2], t[1], t[0]), and the loop adds `t[i].z*bc[i]`, `uv[i].x*bc[i]`, `uv[i].y*bc[i]`. The depth of t[0] is therefore weighted by the weight of t[2], and the other way round. | t = (0,0,0), (4,0,0), (0,4,100), pixel (0,0), the corner t[0], stored depth 50: the filler computes depth 100, the depth of t[2], passes the test and overwrites the pixel, where the intended depth 0 would fail | each corner's depth and texture coordinate weighted by that corner's own weight, as 4-shading fixes by returning the weights in forward order | high; not executed | ZBuffer.DepthAsWrittenMispaired | ZBuffer.CorrectedAtCorners |

The zbuffer filler (`ZBuffer.Visit`, `ZBuffer.FillColumn`, `ZBuffer.Triangle`)
follows the code as written. The corrected rule (`ZBuffer.AcceptsCorrected`,
`ZBuffer.DepthCorrected`, `ZBuffer.TexCorrected`) is the one the 4-shading filler
implements, as `Shading.AgreesWithCorrectedZBuffer` proves.
