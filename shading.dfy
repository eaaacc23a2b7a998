/** The z-buffered filler of 4-shading/main.cpp, with the forward-order weights,
    together with its viewport and look-at builders. */
module Shading {
  import opened Geometry
  import opened Barycentric
  import opened Raster
  import opened Transform
  import ZBuffer

  /** The global depth range. */
  const Depth := 800

  /** `viewport(x, y, w, h)`: the viewport matrix for the global depth range, which
      takes the far corner (1, 1, 1) of the canonical cube to (x + w, y + h, 800). */
  method Viewport(x: int, y: int, w: int, h: int) returns (m: Mat)
    ensures m == ViewportMatrix(x, y, w, h, Depth)
    ensures MulVec(m, Point(1.0, 1.0, 1.0)) == Point((x + w) as real, (y + h) as real, 800.0)
    ensures MulVec(m, Point(-1.0, -1.0, -1.0)) == Point(x as real, y as real, 0.0)
  {
    m := BuildViewport(x, y, w, h, Depth);
    ViewportCorners(x, y, w, h, Depth);
  }

  /** `lookat` with the basis vectors x, y, z already computed from eye, center and
      up: the matrix with the basis as rows and -center as last column. */
  method LookAt(xb: Vec3r, yb: Vec3r, zb: Vec3r, center: Vec3r) returns (res: Mat)
    ensures res == LookAtMatrix(xb, yb, zb, center)
  {
    res := BuildLookAt(xb, yb, zb, center);
  }

  /** This filler's rule and the corrected zbuffer rule accept the same pixels and
      give the same depth and texture position there: 4-shading is the zbuffer
      filler with the weights paired as intended. */
  lemma AgreesWithCorrectedZBuffer(t: seq<Vec3i>, uv: seq<Vec2i>, p: Vec2i, stored: int)
    requires |t| == 3 && |uv| == 3
    ensures Accepts(t, p, stored) <==> ZBuffer.AcceptsCorrected(t, p, stored)
    ensures Accepts(t, p, stored) ==> DepthAt(t, p) == ZBuffer.DepthCorrected(t, p) && TexAt(t, uv, p) == ZBuffer.TexCorrected(t, uv, p)
  {
    CoveredAgree(Flat(t), p);
    ZBuffer.CornerWeightsForward(t, p);
    if Degenerate(Flat(t)) {
      DegenerateNotCovered(Flat(t), p);
    }
  }

  /** The depth test passes at p against the stored value: p is inside and its
      depth is at least the stored one. */
  predicate Accepts(t: seq<Vec3i>, p: Vec2i, stored: int)
    requires |t| == 3
  {
    Covered(Weights(Flat(t), p)) && DepthAt(t, p) >= stored
  }

  /** Pixel p of the scan: test it and, when it passes, write its depth and texel. */
  method Visit(t: seq<Vec3i>, zbuffer: array<int>, image: array2<Color>, uv: seq<Vec2i>, shade: Vec2i -> Color, p: Vec2i)
    requires |t| == 3 && |uv| == 3
    requires image.Length0 <= Width && image.Length1 <= Height && zbuffer.Length == Width * Height
    requires InImage(p, image.Length0, image.Length1)
    modifies zbuffer, image
    ensures var k := ZIndex(p.x, p.y, Width);
      && zbuffer[k] == (if Accepts(t, p, old(zbuffer[k])) then DepthAt(t, p) else old(zbuffer[k]))
      && image[p.x, p.y] == (if Accepts(t, p, old(zbuffer[k])) then shade(TexAt(t, uv, p)) else old(image[p.x, p.y]))
    ensures forall j :: 0 <= j < zbuffer.Length && j != ZIndex(p.x, p.y, Width) ==> zbuffer[j] == old(zbuffer[j])
    ensures forall a, b :: 0 <= a < image.Length0 && 0 <= b < image.Length1 && (a != p.x || b != p.y) ==> image[a, b] == old(image[a, b])
  {
    var bc := Weights(Flat(t), p);
    if bc.x < 0.0 || bc.y < 0.0 || bc.z < 0.0 {
      return;
    }
    var zval, uval, vval := InterpolateAttributes(t, uv, bc);
    ZIndexInRange(p.x, p.y, Width, Height);
    var zind := p.x + p.y * Width;
    if zval >= zbuffer[zind] {
      zbuffer[zind] := zval;
      image[p.x, p.y] := shade(Vec2i(uval, vval));
    }
  }

  /** Column x of the scan, rows lb.y to rt.y. */
  method FillColumn(t: seq<Vec3i>, zbuffer: array<int>, image: array2<Color>, uv: seq<Vec2i>, shade: Vec2i -> Color,
                    box: Box, x: int)
    requires |t| == 3 && |uv| == 3
    requires image.Length0 <= Width && image.Length1 <= Height && zbuffer.Length == Width * Height
    requires Within(box, image.Length0, image.Length1) && box.lb.x <= x <= box.rt.x && box.lb.y <= box.rt.y + 1
    modifies zbuffer, image
    ensures forall a, b :: 0 <= a < image.Length0 && 0 <= b < image.Length1 ==>
      var p, k := Vec2i(a, b), ZIndex(a, b, Width);
      var hit := a == x && box.lb.y <= b <= box.rt.y && Accepts(t, p, old(zbuffer[k]));
      && zbuffer[k] == (if hit then DepthAt(t, p) else old(zbuffer[k]))
      && image[a, b] == (if hit then shade(TexAt(t, uv, p)) else old(image[a, b]))
    ensures forall k :: 0 <= k < zbuffer.Length && !ImageCell(k, image.Length0, image.Length1) ==> zbuffer[k] == old(zbuffer[k])
  {
    var y := box.lb.y;
    while y <= box.rt.y
      invariant box.lb.y <= y <= box.rt.y + 1
      invariant forall a, b :: 0 <= a < image.Length0 && 0 <= b < image.Length1 ==>
        var p, k := Vec2i(a, b), ZIndex(a, b, Width);
        var hit := a == x && box.lb.y <= b < y && Accepts(t, p, old(zbuffer[k]));
        && zbuffer[k] == (if hit then DepthAt(t, p) else old(zbuffer[k]))
        && image[a, b] == (if hit then shade(TexAt(t, uv, p)) else old(image[a, b]))
      invariant forall k :: 0 <= k < zbuffer.Length && !ImageCell(k, image.Length0, image.Length1) ==> zbuffer[k] == old(zbuffer[k])
    {
      ZIndexCell(x, y, image.Length0, image.Length1);
      Visit(t, zbuffer, image, uv, shade, Vec2i(x, y));
      y := y + 1;
    }
  }

  /** `triangle(t, uv, intensity, zbuffer, image)`: every pixel of the image that
      is inside the triangle and not behind the stored depth gets the triangle's
      depth and the shaded texel; every other pixel keeps both. `shade` stands for
      the diffuse texture lookup scaled by intensity[0]. */
  method Triangle(t: seq<Vec3i>, zbuffer: array<int>, image: array2<Color>, uv: seq<Vec2i>, shade: Vec2i -> Color)
    requires |t| == 3 && |uv| == 3
    requires image.Length0 <= Width && image.Length1 <= Height && zbuffer.Length == Width * Height
    modifies zbuffer, image
    ensures forall a, b :: 0 <= a < image.Length0 && 0 <= b < image.Length1 ==>
      var p, k := Vec2i(a, b), ZIndex(a, b, Width);
      && zbuffer[k] == (if Accepts(t, p, old(zbuffer[k])) then DepthAt(t, p) else old(zbuffer[k]))
      && image[a, b] == (if Accepts(t, p, old(zbuffer[k])) then shade(TexAt(t, uv, p)) else old(image[a, b]))
    ensures forall k :: 0 <= k < zbuffer.Length ==> old(zbuffer[k]) <= zbuffer[k]
    ensures forall k :: 0 <= k < zbuffer.Length && !ImageCell(k, image.Length0, image.Length1) ==> zbuffer[k] == old(zbuffer[k])
  {
    var lb, rt := BoundingBox(Flat(t), image.Length0, image.Length1);
    var box := Box(lb, rt);
    BoxShape(Flat(t), image.Length0, image.Length1);
    var x := lb.x;
    while x <= rt.x
      invariant lb.x <= x <= rt.x + 1
      invariant forall a, b :: 0 <= a < image.Length0 && 0 <= b < image.Length1 ==>
        var p, k := Vec2i(a, b), ZIndex(a, b, Width);
        var hit := Done(p, box, Vec2i(x, lb.y)) && Accepts(t, p, old(zbuffer[k]));
        && zbuffer[k] == (if hit then DepthAt(t, p) else old(zbuffer[k]))
        && image[a, b] == (if hit then shade(TexAt(t, uv, p)) else old(image[a, b]))
      invariant forall k :: 0 <= k < zbuffer.Length && !ImageCell(k, image.Length0, image.Length1) ==> zbuffer[k] == old(zbuffer[k])
    {
      FillColumn(t, zbuffer, image, uv, shade, box, x);
      x := x + 1;
    }
    forall a, b | 0 <= a < image.Length0 && 0 <= b < image.Length1 && Accepts(t, Vec2i(a, b), old(zbuffer[ZIndex(a, b, Width)]))
      ensures InBox(Vec2i(a, b), box)
    {
      CoveredInBox(Flat(t), image.Length0, image.Length1, Vec2i(a, b));
    }
    forall k | 0 <= k < zbuffer.Length
      ensures old(zbuffer[k]) <= zbuffer[k]
    {
      if ImageCell(k, image.Length0, image.Length1) {
        assert k == ZIndex(k % Width, k / Width, Width);
      }
    }
  }

  /** A zero-area triangle passes the test nowhere, so it changes no cell. */
  lemma DegenerateDrawsNothing(t: seq<Vec3i>, p: Vec2i, stored: int)
    requires |t| == 3 && Degenerate(Flat(t))
    ensures !Accepts(t, p, stored)
  {
    DegenerateNotCovered(Flat(t), p);
  }
}
