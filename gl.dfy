/** The shader-generic pipeline of 5-shading/gl.h: the render context holding the
    ModelView, Viewport and Projection matrices, and the filler that calls the
    shader's fragment stage behind a strict depth test on a depth image. */
module Gl {
  import opened Geometry
  import opened Barycentric
  import opened Raster
  import opened Transform

  /** What `IShader::fragment(bar, color)` yields: whether to keep the pixel, and
      the colour it wrote. */
  datatype Fragment = Fragment(keep: bool, color: Color)

  /** The three process-wide matrices a render pass is configured with. */
  class Context {
    var modelView: Mat
    var viewport: Mat
    var projection: Mat

    constructor (modelView0: Mat, viewport0: Mat, projection0: Mat)
      ensures modelView == modelView0 && viewport == viewport0 && projection == projection0
    {
      modelView, viewport, projection := modelView0, viewport0, projection0;
    }

    /** `viewport(x, y, w, h, depth)`: replaces the Viewport matrix by one mapping
        the canonical cube onto [x, x+w] x [y, y+h] x [0, depth]. */
    method Viewport(x: int, y: int, w: int, h: int, depth: int)
      modifies this
      ensures viewport == ViewportMatrix(x, y, w, h, depth)
      ensures MulVec(viewport, Point(-1.0, -1.0, -1.0)) == Point(x as real, y as real, 0.0)
      ensures MulVec(viewport, Point(1.0, 1.0, 1.0)) == Point((x + w) as real, (y + h) as real, depth as real)
      ensures modelView == old(modelView) && projection == old(projection)
    {
      viewport := BuildViewport(x, y, w, h, depth);
      ViewportCorners(x, y, w, h, depth);
    }

    /** `lookat` with the basis vectors x, y, z already computed from eye, center
        and up: replaces the ModelView matrix. */
    method LookAt(xb: Vec3r, yb: Vec3r, zb: Vec3r, center: Vec3r)
      modifies this
      ensures modelView == LookAtMatrix(xb, yb, zb, center)
      ensures viewport == old(viewport) && projection == old(projection)
    {
      modelView := BuildLookAt(xb, yb, zb, center);
    }

    /** `projection(coeff)`: replaces the Projection matrix; coefficient 0 gives
        the identity, an orthographic projection. */
    method Projection(c: real)
      modifies this
      ensures projection == ProjectionMatrix(c)
      ensures c == 0.0 ==> projection == Identity4()
      ensures modelView == old(modelView) && viewport == old(viewport)
    {
      projection := BuildProjection(c);
      ProjectionShape(c);
    }
  }

  /** The depth test: p is inside and strictly in front of the stored depth. A tie
      fails, so of two equally deep fragments the one drawn first stays. */
  predicate Passes(t: seq<Vec3i>, p: Vec2i, stored: int)
    requires |t| == 3
  {
    Covered(Weights(Flat(t), p)) && DepthAt(t, p) > stored
  }

  /** The pixel is written: the test passes and the shader keeps the fragment. */
  predicate Writes(t: seq<Vec3i>, fragment: Vec3r -> Fragment, p: Vec2i, stored: int)
    requires |t| == 3
  {
    Passes(t, p, stored) && fragment(Weights(Flat(t), p)).keep
  }

  /** Pixel p of the scan. `called` says whether the fragment stage ran. */
  method Visit(t: seq<Vec3i>, fragment: Vec3r -> Fragment, zbuffer: array2<int>, image: array2<Color>, p: Vec2i)
    returns (ghost called: bool)
    requires |t| == 3 && zbuffer.Length0 == image.Length0 && zbuffer.Length1 == image.Length1
    requires InImage(p, image.Length0, image.Length1)
    modifies zbuffer, image
    ensures called == Passes(t, p, old(zbuffer[p.x, p.y]))
    ensures var w := Writes(t, fragment, p, old(zbuffer[p.x, p.y]));
      && zbuffer[p.x, p.y] == (if w then DepthAt(t, p) else old(zbuffer[p.x, p.y]))
      && image[p.x, p.y] == (if w then fragment(Weights(Flat(t), p)).color else old(image[p.x, p.y]))
    ensures forall a, b :: 0 <= a < image.Length0 && 0 <= b < image.Length1 && (a != p.x || b != p.y) ==>
      zbuffer[a, b] == old(zbuffer[a, b]) && image[a, b] == old(image[a, b])
  {
    called := false;
    var bc := Weights(Flat(t), p);
    if bc.x < 0.0 || bc.y < 0.0 || bc.z < 0.0 {
      return;
    }
    var zval := InterpolateDepth(t, bc);
    if zval <= zbuffer[p.x, p.y] {
      return;
    }
    called := true;
    var frag := fragment(bc);
    if frag.keep {
      zbuffer[p.x, p.y] := zval;
      image[p.x, p.y] := frag.color;
    }
  }

  /** Pixel p once the scan has reached cur, holding depth z and colour c where it
      held z0 and c0 before the scan: written when finished and the test passes and
      the shader keeps the fragment, as it was otherwise. */
  predicate CellDrawn(t: seq<Vec3i>, fragment: Vec3r -> Fragment, p: Vec2i, z: int, c: Color, z0: int, c0: Color, box: Box, cur: Vec2i)
    requires |t| == 3
  {
    var w := Done(p, box, cur) && Writes(t, fragment, p, z0);
    && z == (if w then DepthAt(t, p) else z0)
    && c == (if w then fragment(Weights(Flat(t), p)).color else c0)
  }

  /** The buffers once the scan has reached cur, against their contents z0 and i0
      before it. */
  ghost predicate Drawn(t: seq<Vec3i>, fragment: Vec3r -> Fragment, zbuffer: array2<int>, image: array2<Color>,
                        z0: seq<seq<int>>, i0: seq<seq<Color>>, box: Box, cur: Vec2i)
    requires |t| == 3
    reads zbuffer, image
  {
    && zbuffer.Length0 == image.Length0 && zbuffer.Length1 == image.Length1
    && Shaped(z0, image.Length0, image.Length1) && Shaped(i0, image.Length0, image.Length1)
    && forall a, b :: 0 <= a < image.Length0 && 0 <= b < image.Length1 ==>
      CellDrawn(t, fragment, Vec2i(a, b), zbuffer[a, b], image[a, b], z0[a][b], i0[a][b], box, cur)
  }

  /** Moving the scan past pixel (x, y) leaves every other pixel's state valid. */
  lemma CellUntouched(t: seq<Vec3i>, fragment: Vec3r -> Fragment, p: Vec2i, z: int, c: Color, z0: int, c0: Color, box: Box, x: int, y: int)
    requires |t| == 3 && InBox(Vec2i(x, y), box) && p != Vec2i(x, y)
    requires CellDrawn(t, fragment, p, z, c, z0, c0, box, Vec2i(x, y))
    ensures CellDrawn(t, fragment, p, z, c, z0, c0, box, Vec2i(x, y + 1))
  {
    DoneStep(box, x, y, p);
  }

  /** The log of fragment calls once the scan has reached cur: the finished pixels
      that pass the depth test against z0, in scan order. */
  ghost predicate Logged(calls: seq<Vec2i>, t: seq<Vec3i>, z0: seq<seq<int>>, width: int, height: int, box: Box, cur: Vec2i)
    requires |t| == 3 && Shaped(z0, width, height)
  {
    && (forall q :: q in calls <==> Done(q, box, cur) && InImage(q, width, height) && Passes(t, q, z0[q.x][q.y]))
    && Ascending(calls)
    && forall q :: q in calls ==> Before(q, cur)
  }

  /** The log after visiting pixel (x, y) of the box. */
  lemma LoggedStep(calls: seq<Vec2i>, t: seq<Vec3i>, z0: seq<seq<int>>, width: int, height: int, box: Box, x: int, y: int)
    requires |t| == 3 && Shaped(z0, width, height) && InBox(Vec2i(x, y), box) && InImage(Vec2i(x, y), width, height)
    requires Logged(calls, t, z0, width, height, box, Vec2i(x, y))
    ensures var p := Vec2i(x, y);
      Logged(if Passes(t, p, z0[x][y]) then calls + [p] else calls, t, z0, width, height, box, Vec2i(x, y + 1))
  {
    var p := Vec2i(x, y);
    forall q {
      DoneStep(box, x, y, q);
    }
    if Passes(t, p, z0[x][y]) {
      AscendingAppend(calls, p);
    }
  }

  /** The log on leaving column x is the log on entering column x + 1. */
  lemma LoggedColumn(calls: seq<Vec2i>, t: seq<Vec3i>, z0: seq<seq<int>>, width: int, height: int, box: Box, x: int)
    requires |t| == 3 && Shaped(z0, width, height)
    requires Logged(calls, t, z0, width, height, box, Vec2i(x, box.rt.y + 1))
    ensures Logged(calls, t, z0, width, height, box, Vec2i(x + 1, box.lb.y))
  {
    forall q {
      DoneColumn(box, x, q);
    }
  }

  /** Leaving column x after its last row is entering column x + 1. */
  lemma DrawnColumn(t: seq<Vec3i>, fragment: Vec3r -> Fragment, zbuffer: array2<int>, image: array2<Color>,
                    z0: seq<seq<int>>, i0: seq<seq<Color>>, box: Box, x: int)
    requires |t| == 3 && Drawn(t, fragment, zbuffer, image, z0, i0, box, Vec2i(x, box.rt.y + 1))
    ensures Drawn(t, fragment, zbuffer, image, z0, i0, box, Vec2i(x + 1, box.lb.y))
  {
    forall q {
      DoneColumn(box, x, q);
    }
  }

  /** Pixel (x, y) of the box as one step of the scan: the buffers and the log
      move from the state at (x, y) to the state at (x, y + 1). */
  method Step(t: seq<Vec3i>, fragment: Vec3r -> Fragment, zbuffer: array2<int>, image: array2<Color>,
              box: Box, x: int, y: int, ghost z0: seq<seq<int>>, ghost i0: seq<seq<Color>>, ghost calls0: seq<Vec2i>)
    returns (ghost calls: seq<Vec2i>)
    requires |t| == 3 && InBox(Vec2i(x, y), box) && InImage(Vec2i(x, y), image.Length0, image.Length1)
    requires Drawn(t, fragment, zbuffer, image, z0, i0, box, Vec2i(x, y))
    requires Logged(calls0, t, z0, image.Length0, image.Length1, box, Vec2i(x, y))
    modifies zbuffer, image
    ensures Drawn(t, fragment, zbuffer, image, z0, i0, box, Vec2i(x, y + 1))
    ensures Logged(calls, t, z0, image.Length0, image.Length1, box, Vec2i(x, y + 1))
  {
    var p := Vec2i(x, y);
    assert zbuffer[x, y] == z0[x][y];
    LoggedStep(calls0, t, z0, image.Length0, image.Length1, box, x, y);
    var called := Visit(t, fragment, zbuffer, image, p);
    forall a, b | 0 <= a < image.Length0 && 0 <= b < image.Length1
      ensures CellDrawn(t, fragment, Vec2i(a, b), zbuffer[a, b], image[a, b], z0[a][b], i0[a][b], box, Vec2i(x, y + 1))
    {
      if a != x || b != y {
        CellUntouched(t, fragment, Vec2i(a, b), zbuffer[a, b], image[a, b], z0[a][b], i0[a][b], box, x, y);
      }
    }
    calls := if called then calls0 + [p] else calls0;
  }

  /** Column x of the scan, rows lb.y to rt.y; `calls` extends the log of fragment
      calls by the pixels of this column that pass the test. */
  method FillColumn(t: seq<Vec3i>, fragment: Vec3r -> Fragment, zbuffer: array2<int>, image: array2<Color>,
                    box: Box, x: int, ghost z0: seq<seq<int>>, ghost i0: seq<seq<Color>>, ghost calls0: seq<Vec2i>)
    returns (ghost calls: seq<Vec2i>)
    requires |t| == 3 && Within(box, image.Length0, image.Length1)
    requires box.lb.x <= x <= box.rt.x && box.lb.y <= box.rt.y + 1
    requires Drawn(t, fragment, zbuffer, image, z0, i0, box, Vec2i(x, box.lb.y))
    requires Logged(calls0, t, z0, image.Length0, image.Length1, box, Vec2i(x, box.lb.y))
    modifies zbuffer, image
    ensures Drawn(t, fragment, zbuffer, image, z0, i0, box, Vec2i(x + 1, box.lb.y))
    ensures Logged(calls, t, z0, image.Length0, image.Length1, box, Vec2i(x + 1, box.lb.y))
  {
    calls := calls0;
    var y := box.lb.y;
    while y <= box.rt.y
      invariant box.lb.y <= y <= box.rt.y + 1
      invariant Drawn(t, fragment, zbuffer, image, z0, i0, box, Vec2i(x, y))
      invariant Logged(calls, t, z0, image.Length0, image.Length1, box, Vec2i(x, y))
    {
      calls := Step(t, fragment, zbuffer, image, box, x, y, z0, i0, calls);
      y := y + 1;
    }
    LoggedColumn(calls, t, z0, image.Length0, image.Length1, box, x);
    DrawnColumn(t, fragment, zbuffer, image, z0, i0, box, x);
  }

  /** The scan over the whole box, column by column. */
  method FillBox(t: seq<Vec3i>, fragment: Vec3r -> Fragment, zbuffer: array2<int>, image: array2<Color>, box: Box)
    returns (ghost calls: seq<Vec2i>)
    requires |t| == 3 && zbuffer.Length0 == image.Length0 && zbuffer.Length1 == image.Length1
    requires Within(box, image.Length0, image.Length1) && box.lb.x <= box.rt.x + 1 && box.lb.y <= box.rt.y + 1
    modifies zbuffer, image
    ensures forall a, b :: 0 <= a < image.Length0 && 0 <= b < image.Length1 ==>
      var p := Vec2i(a, b);
      var w := InBox(p, box) && Writes(t, fragment, p, old(zbuffer[a, b]));
      && zbuffer[a, b] == (if w then DepthAt(t, p) else old(zbuffer[a, b]))
      && image[a, b] == (if w then fragment(Weights(Flat(t), p)).color else old(image[a, b]))
    ensures forall q :: q in calls <==>
      InBox(q, box) && InImage(q, image.Length0, image.Length1) && Passes(t, q, old(zbuffer[q.x, q.y]))
    ensures Ascending(calls)
  {
    ghost var z0, i0 := Snapshot(zbuffer), Snapshot(image);
    calls := [];
    var x := box.lb.x;
    while x <= box.rt.x
      invariant box.lb.x <= x <= box.rt.x + 1
      invariant Drawn(t, fragment, zbuffer, image, z0, i0, box, Vec2i(x, box.lb.y))
      invariant Logged(calls, t, z0, image.Length0, image.Length1, box, Vec2i(x, box.lb.y))
    {
      calls := FillColumn(t, fragment, zbuffer, image, box, x, z0, i0, calls);
      x := x + 1;
    }
  }

  /** `triangle(t, shader, zbuffer, image)`. Every pixel of the image that is inside
      the triangle, strictly in front of the stored depth and kept by the shader
      gets the triangle's depth and the shader's colour; every other pixel keeps
      both. The ghost `calls` lists the pixels the fragment stage is called for, in
      call order: exactly the inside pixels that pass the depth test, each once. */
  method Triangle(t: seq<Vec3i>, fragment: Vec3r -> Fragment, zbuffer: array2<int>, image: array2<Color>)
    returns (ghost calls: seq<Vec2i>)
    requires |t| == 3 && zbuffer.Length0 == image.Length0 && zbuffer.Length1 == image.Length1
    modifies zbuffer, image
    ensures forall a, b :: 0 <= a < image.Length0 && 0 <= b < image.Length1 ==>
      var p := Vec2i(a, b);
      var w := Writes(t, fragment, p, old(zbuffer[a, b]));
      && zbuffer[a, b] == (if w then DepthAt(t, p) else old(zbuffer[a, b]))
      && image[a, b] == (if w then fragment(Weights(Flat(t), p)).color else old(image[a, b]))
    ensures forall a, b :: 0 <= a < image.Length0 && 0 <= b < image.Length1 ==> old(zbuffer[a, b]) <= zbuffer[a, b]
    ensures forall q :: q in calls <==>
      InImage(q, image.Length0, image.Length1) && Passes(t, q, old(zbuffer[q.x, q.y]))
    ensures Ascending(calls)
  {
    var lb, rt := BoundingBox(Flat(t), image.Length0, image.Length1);
    BoxShape(Flat(t), image.Length0, image.Length1);
    calls := FillBox(t, fragment, zbuffer, image, Box(lb, rt));
    forall q | InImage(q, image.Length0, image.Length1) && Covered(Weights(Flat(t), q))
      ensures InBox(q, Box(lb, rt))
    {
      CoveredInBox(Flat(t), image.Length0, image.Length1, q);
    }
  }

  /** A zero-area triangle passes the test nowhere: the fragment stage is never
      called and no cell changes. */
  lemma DegenerateDrawsNothing(t: seq<Vec3i>, p: Vec2i, stored: int)
    requires |t| == 3 && Degenerate(Flat(t))
    ensures !Passes(t, p, stored)
  {
    DegenerateNotCovered(Flat(t), p);
  }

  /** Once a pixel holds depth d, the same triangle drawn again cannot pass there:
      the test is strict, so redrawing changes nothing. */
  lemma RedrawRejected(t: seq<Vec3i>, p: Vec2i)
    requires |t| == 3
    ensures !Passes(t, p, DepthAt(t, p))
  {
  }
}
