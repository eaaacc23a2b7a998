/** The textured, z-buffered filler of zbuffer/main.cpp. Its `barycentric` lists
    the weights in the order t[2], t[1], t[0], while the interpolation loop pairs
    t[i] with bc[i]. The filler follows that pairing as written; beside it, the
    intended pairing with the weights put back in corner order, and the wrong
    depth the written one gives. */
module ZBuffer {
  import opened Geometry
  import opened Barycentric
  import opened Raster

  /** zval, uval and vval as the source computes them: t[i].z, uv[i].x and uv[i].y
      times component i of the reversed weights, so the values of t[0] are weighted
      by the weight of t[2] and the other way round. Inside the triangle and with
      non-negative depths, zval is within 3 below that mispaired exact sum. */
  function DepthAsWritten(t: seq<Vec3i>, p: Vec2i): (r: int)
    requires |t| == 3
    ensures var w := WeightsReversed(Flat(t), p);
      var exact := t[0].z as real * w.x + t[1].z as real * w.y + t[2].z as real * w.z;
      Covered(w) && 0 <= t[0].z && 0 <= t[1].z && 0 <= t[2].z ==> 0 <= r && exact - 3.0 < r as real <= exact
  {
    var w := WeightsReversed(Flat(t), p);
    if Covered(w) && 0 <= t[0].z && 0 <= t[1].z && 0 <= t[2].z then
      InterpBounds(Depths(t), w);
      Interp(Depths(t), w)
    else
      Interp(Depths(t), w)
  }

  function TexAsWritten(t: seq<Vec3i>, uv: seq<Vec2i>, p: Vec2i): Vec2i
    requires |t| == 3 && |uv| == 3
  {
    Vec2i(Interp(Us(uv), WeightsReversed(Flat(t), p)), Interp(Vs(uv), WeightsReversed(Flat(t), p)))
  }

  /** The depth test of the source: p is inside and its depth as written is at least
      the stored one. */
  predicate Accepts(t: seq<Vec3i>, p: Vec2i, stored: int)
    requires |t| == 3
  {
    Covered(WeightsReversed(Flat(t), p)) && DepthAsWritten(t, p) >= stored
  }

  /** The weights of t[0], t[1], t[2], in that order. */
  function CornerWeights(t: seq<Vec3i>, p: Vec2i): Vec3r
    requires |t| == 3
  {
    Rev(WeightsReversed(Flat(t), p))
  }

  /** The intended depth and texture position, each corner value paired with its
      own corner's weight, and the depth test on that depth. */
  function DepthCorrected(t: seq<Vec3i>, p: Vec2i): int
    requires |t| == 3
  {
    Interp(Depths(t), CornerWeights(t, p))
  }

  function TexCorrected(t: seq<Vec3i>, uv: seq<Vec2i>, p: Vec2i): Vec2i
    requires |t| == 3 && |uv| == 3
  {
    Vec2i(Interp(Us(uv), CornerWeights(t, p)), Interp(Vs(uv), CornerWeights(t, p)))
  }

  predicate AcceptsCorrected(t: seq<Vec3i>, p: Vec2i, stored: int)
    requires |t| == 3
  {
    Covered(WeightsReversed(Flat(t), p)) && DepthCorrected(t, p) >= stored
  }

  /** The triangle (0,0,0), (4,0,0), (0,4,100) viewed at its corner t[0] = (0,0)
      over a stored depth of 50: the source's pairing gives depth 100, the depth of
      t[2], and so passes and overwrites the pixel; the intended depth is 0, which
      fails the test. */
  lemma DepthAsWrittenMispaired()
    ensures var t, p := [Vec3i(0, 0, 0), Vec3i(4, 0, 0), Vec3i(0, 4, 100)], Vec2i(0, 0);
      && DepthAsWritten(t, p) == 100 && DepthCorrected(t, p) == t[0].z
      && Accepts(t, p, 50) && !AcceptsCorrected(t, p, 50)
  {
    var t := [Vec3i(0, 0, 0), Vec3i(4, 0, 0), Vec3i(0, 4, 100)];
    var f := Flat(t);
    assert f == [Vec2i(0, 0), Vec2i(4, 0), Vec2i(0, 4)];
    assert EdgeCrossReversed(f, Vec2i(0, 0)) == Vec3i(16, 0, 16);
    var w := WeightsReversed(f, Vec2i(0, 0));
    assert w == Vec3r(0.0, 0.0, 1.0);
    InterpAtCorners(Depths(t));
    assert Depths(t) == [0, 0, 100];
  }

  /** The corrected weights are the forward weights whenever the triangle has an
      area, and are rejected by the inside test exactly when those are. */
  lemma CornerWeightsForward(t: seq<Vec3i>, p: Vec2i)
    requires |t| == 3
    ensures !Degenerate(Flat(t)) ==> CornerWeights(t, p) == Weights(Flat(t), p)
    ensures Covered(CornerWeights(t, p)) <==> Covered(WeightsReversed(Flat(t), p))
  {
    if !Degenerate(Flat(t)) {
      ReversedIsReverse(Flat(t), p);
    }
  }

  /** At each corner of a triangle with an area, the corrected depth and texture
      position are that corner's own. */
  lemma CorrectedAtCorners(t: seq<Vec3i>, uv: seq<Vec2i>, k: int)
    requires |t| == 3 && |uv| == 3 && 0 <= k < 3 && !Degenerate(Flat(t))
    ensures DepthCorrected(t, XY(t[k])) == t[k].z
    ensures TexCorrected(t, uv, XY(t[k])) == uv[k]
  {
    var f := Flat(t);
    assert f[k] == XY(t[k]);
    WeightsReversedAtCorners(f);
    InterpAtCorners(Depths(t));
    InterpAtCorners(Us(uv));
    InterpAtCorners(Vs(uv));
  }

  /** At each corner of a triangle with an area the source's depth and texture
      position are those of the opposite end of the corner list: t[2 - k]. */
  lemma AsWrittenAtCorners(t: seq<Vec3i>, uv: seq<Vec2i>, k: int)
    requires |t| == 3 && |uv| == 3 && 0 <= k < 3 && !Degenerate(Flat(t))
    ensures DepthAsWritten(t, XY(t[k])) == t[2 - k].z
    ensures TexAsWritten(t, uv, XY(t[k])) == uv[2 - k]
  {
    var f := Flat(t);
    assert f[k] == XY(t[k]);
    WeightsReversedAtCorners(f);
    InterpAtCorners(Depths(t));
    InterpAtCorners(Us(uv));
    InterpAtCorners(Vs(uv));
  }

  /** Pixel p of the scan: test it and, when it passes, write its depth and texel. */
  method Visit(t: seq<Vec3i>, zbuffer: array<int>, image: array2<Color>, uv: seq<Vec2i>, shade: Vec2i -> Color, p: Vec2i)
    requires |t| == 3 && |uv| == 3
    requires image.Length0 <= Width && image.Length1 <= Height && zbuffer.Length == Width * Height
    requires InImage(p, image.Length0, image.Length1)
    modifies zbuffer, image
    ensures var k := ZIndex(p.x, p.y, Width);
      && zbuffer[k] == (if Accepts(t, p, old(zbuffer[k])) then DepthAsWritten(t, p) else old(zbuffer[k]))
      && image[p.x, p.y] == (if Accepts(t, p, old(zbuffer[k])) then shade(TexAsWritten(t, uv, p)) else old(image[p.x, p.y]))
    ensures forall j :: 0 <= j < zbuffer.Length && j != ZIndex(p.x, p.y, Width) ==> zbuffer[j] == old(zbuffer[j])
    ensures forall a, b :: 0 <= a < image.Length0 && 0 <= b < image.Length1 && (a != p.x || b != p.y) ==> image[a, b] == old(image[a, b])
  {
    var bc := WeightsReversed(Flat(t), p);
    if bc.x < 0.0 || bc.y < 0.0 || bc.z < 0.0 {
      return;
    }
    var zval, uval, vval := InterpolateAttributes(t, uv, bc);
    ZIndexInRange(p.x, p.y, Width, Height);
    var zind := p.x + p.y * Width;
    if zval >= zbuffer[zind] {
      zbuffer[zind] := zval;
      image[p.x, p.y] := shade(Vec2i(uval, vval));
    }
  }

  /** Column x of the scan, rows lb.y to rt.y. */
  method FillColumn(t: seq<Vec3i>, zbuffer: array<int>, image: array2<Color>, uv: seq<Vec2i>, shade: Vec2i -> Color,
                    box: Box, x: int)
    requires |t| == 3 && |uv| == 3
    requires image.Length0 <= Width && image.Length1 <= Height && zbuffer.Length == Width * Height
    requires Within(box, image.Length0, image.Length1) && box.lb.x <= x <= box.rt.x && box.lb.y <= box.rt.y + 1
    modifies zbuffer, image
    ensures forall a, b :: 0 <= a < image.Length0 && 0 <= b < image.Length1 ==>
      var p, k := Vec2i(a, b), ZIndex(a, b, Width);
      var hit := a == x && box.lb.y <= b <= box.rt.y && Accepts(t, p, old(zbuffer[k]));
      && zbuffer[k] == (if hit then DepthAsWritten(t, p) else old(zbuffer[k]))
      && image[a, b] == (if hit then shade(TexAsWritten(t, uv, p)) else old(image[a, b]))
    ensures forall k :: 0 <= k < zbuffer.Length && !ImageCell(k, image.Length0, image.Length1) ==> zbuffer[k] == old(zbuffer[k])
  {
    var y := box.lb.y;
    while y <= box.rt.y
      invariant box.lb.y <= y <= box.rt.y + 1
      invariant forall a, b :: 0 <= a < image.Length0 && 0 <= b < image.Length1 ==>
        var p, k := Vec2i(a, b), ZIndex(a, b, Width);
        var hit := a == x && box.lb.y <= b < y && Accepts(t, p, old(zbuffer[k]));
        && zbuffer[k] == (if hit then DepthAsWritten(t, p) else old(zbuffer[k]))
        && image[a, b] == (if hit then shade(TexAsWritten(t, uv, p)) else old(image[a, b]))
      invariant forall k :: 0 <= k < zbuffer.Length && !ImageCell(k, image.Length0, image.Length1) ==> zbuffer[k] == old(zbuffer[k])
    {
      ZIndexCell(x, y, image.Length0, image.Length1);
      Visit(t, zbuffer, image, uv, shade, Vec2i(x, y));
      y := y + 1;
    }
  }

  /** `triangle(t, zbuffer, image, uv, texture, intensity)`: every pixel of the image
      that is inside the triangle and whose depth as written is not behind the
      stored depth gets that depth and the shaded texel at the texture position as
      written; every other pixel keeps both. `shade`
      stands for the texture lookup scaled by the intensity. */
  method Triangle(t: seq<Vec3i>, zbuffer: array<int>, image: array2<Color>, uv: seq<Vec2i>, shade: Vec2i -> Color)
    requires |t| == 3 && |uv| == 3
    requires image.Length0 <= Width && image.Length1 <= Height && zbuffer.Length == Width * Height
    modifies zbuffer, image
    ensures forall a, b :: 0 <= a < image.Length0 && 0 <= b < image.Length1 ==>
      var p, k := Vec2i(a, b), ZIndex(a, b, Width);
      && zbuffer[k] == (if Accepts(t, p, old(zbuffer[k])) then DepthAsWritten(t, p) else old(zbuffer[k]))
      && image[a, b] == (if Accepts(t, p, old(zbuffer[k])) then shade(TexAsWritten(t, uv, p)) else old(image[a, b]))
    ensures forall k :: 0 <= k < zbuffer.Length ==> old(zbuffer[k]) <= zbuffer[k]
    ensures forall k :: 0 <= k < zbuffer.Length && !ImageCell(k, image.Length0, image.Length1) ==> zbuffer[k] == old(zbuffer[k])
  {
    var lb, rt := BoundingBox(Flat(t), image.Length0, image.Length1);
    var box := Box(lb, rt);
    BoxShape(Flat(t), image.Length0, image.Length1);
    var x := lb.x;
    while x <= rt.x
      invariant lb.x <= x <= rt.x + 1
      invariant forall a, b :: 0 <= a < image.Length0 && 0 <= b < image.Length1 ==>
        var p, k := Vec2i(a, b), ZIndex(a, b, Width);
        var hit := Done(p, box, Vec2i(x, lb.y)) && Accepts(t, p, old(zbuffer[k]));
        && zbuffer[k] == (if hit then DepthAsWritten(t, p) else old(zbuffer[k]))
        && image[a, b] == (if hit then shade(TexAsWritten(t, uv, p)) else old(image[a, b]))
      invariant forall k :: 0 <= k < zbuffer.Length && !ImageCell(k, image.Length0, image.Length1) ==> zbuffer[k] == old(zbuffer[k])
    {
      FillColumn(t, zbuffer, image, uv, shade, box, x);
      x := x + 1;
    }
    forall a, b | 0 <= a < image.Length0 && 0 <= b < image.Length1 && Accepts(t, Vec2i(a, b), old(zbuffer[ZIndex(a, b, Width)]))
      ensures InBox(Vec2i(a, b), box)
    {
      CoveredInBox(Flat(t), image.Length0, image.Length1, Vec2i(a, b));
    }
    forall k | 0 <= k < zbuffer.Length
      ensures old(zbuffer[k]) <= zbuffer[k]
    {
      if ImageCell(k, image.Length0, image.Length1) {
        assert k == ZIndex(k % Width, k / Width, Width);
      }
    }
  }

  /** A zero-area triangle passes the test nowhere, so it changes no cell. */
  lemma DegenerateDrawsNothing(t: seq<Vec3i>, p: Vec2i, stored: int)
    requires |t| == 3 && Degenerate(Flat(t))
    ensures !Accepts(t, p, stored)
  {
    DegenerateNotCovered(Flat(t), p);
  }
}
