/** Barycentric weights from the integer edge cross product, with exact real
    division. Two constructions occur: `Weights` (4-shading, gl.h) gives the
    weights of t[0], t[1], t[2] in that order; `WeightsReversed` (2-triangles,
    zbuffer) gives them in the order t[2], t[1], t[0]. */
module Barycentric {
  import opened Geometry

  /** The value both constructions return for a zero-area triangle. */
  const Outside := Vec3r(-1.0, 1.0, 1.0)

  /** The rasteriser's inside test: no weight is negative. It rejects the
      degenerate value, and weights summing to one that it accepts lie in [0, 1]. */
  predicate Covered(w: Vec3r)
    ensures w == Outside ==> !Covered(w)
    ensures Covered(w) && w.x + w.y + w.z == 1.0 ==> w.x <= 1.0 && w.y <= 1.0 && w.z <= 1.0
  {
    !(w.x < 0.0 || w.y < 0.0 || w.z < 0.0)
  }

  /** The triangle's three screen corners are collinear. */
  predicate Degenerate(t: seq<Vec2i>)
    requires |t| == 3
  {
    Area2(t[0], t[1], t[2]) == 0
  }

  /** p as an affine combination of the corners with weights (a, b, c). */
  predicate Combines(t: seq<Vec2i>, a: real, b: real, c: real, p: Vec2i)
    requires |t| == 3
  {
    && a + b + c == 1.0
    && a * t[0].x as real + b * t[1].x as real + c * t[2].x as real == p.x as real
    && a * t[0].y as real + b * t[1].y as real + c * t[2].y as real == p.y as real
  }

  /** The weights listed in the opposite order. */
  function Rev(w: Vec3r): Vec3r
  {
    Vec3r(w.z, w.y, w.x)
  }

  /** `uv` in 4-shading and gl.h: the cross product of (t1-t0, t2-t0, t0-p) taken
      per axis. */
  function EdgeCross(t: seq<Vec2i>, p: Vec2i): Vec3i
    requires |t| == 3
  {
    Cross(Vec3i(t[1].x - t[0].x, t[2].x - t[0].x, t[0].x - p.x),
          Vec3i(t[1].y - t[0].y, t[2].y - t[0].y, t[0].y - p.y))
  }

  /** `uv` in 2-triangles and zbuffer: the cross product of (t2-t0, t2-t1, p-t2)
      taken per axis. */
  function EdgeCrossReversed(t: seq<Vec2i>, p: Vec2i): Vec3i
    requires |t| == 3
  {
    Cross(Vec3i(t[2].x - t[0].x, t[2].x - t[1].x, p.x - t[2].x),
          Vec3i(t[2].y - t[0].y, t[2].y - t[1].y, p.y - t[2].y))
  }

  /** `barycentric(t, p)` of 4-shading and gl.h: (-1, 1, 1) when the cross
      product has no z-component, and otherwise three weights summing to one. */
  function Weights(t: seq<Vec2i>, p: Vec2i): (r: Vec3r)
    requires |t| == 3
    ensures EdgeCross(t, p).z == 0 ==> r == Outside
    ensures EdgeCross(t, p).z != 0 ==> r.x + r.y + r.z == 1.0
  {
    var u := EdgeCross(t, p);
    if u.z == 0 then Outside
    else
      ScaledWeights(u.z as real, u.x as real, u.y as real);
      Vec3r(1.0 - (u.x + u.y) as real / u.z as real, u.x as real / u.z as real, u.y as real / u.z as real)
  }

  /** `barycentric(t, p)` of 2-triangles and zbuffer: the same two cases. */
  function WeightsReversed(t: seq<Vec2i>, p: Vec2i): (r: Vec3r)
    requires |t| == 3
    ensures EdgeCrossReversed(t, p).z == 0 ==> r == Outside
    ensures EdgeCrossReversed(t, p).z != 0 ==> r.x + r.y + r.z == 1.0
  {
    var u := EdgeCrossReversed(t, p);
    if u.z == 0 then Outside
    else
      ScaledWeights(u.z as real, u.y as real, u.x as real);
      Vec3r(1.0 - (u.x + u.y) as real / u.z as real, u.y as real / u.z as real, u.x as real / u.z as real)
  }

  /** Both cross products have the triangle's doubled area as z-component, so
      both constructions report a degenerate triangle exactly when its corners are
      collinear, whatever p is. */
  lemma EdgeCrossArea(t: seq<Vec2i>, p: Vec2i)
    requires |t| == 3
    ensures EdgeCross(t, p).z == Area2(t[0], t[1], t[2])
    ensures EdgeCrossReversed(t, p).z == Area2(t[0], t[1], t[2])
  {
    var a, b := t[2].x - t[0].x, t[2].y - t[0].y;
    var c, d := t[1].x - t[0].x, t[1].y - t[0].y;
    assert EdgeCrossReversed(t, p).z == a * (b - d) - (a - c) * b;
  }

  /** A zero-area triangle yields (-1, 1, 1) from either construction, which the
      inside test rejects. */
  lemma DegenerateNotCovered(t: seq<Vec2i>, p: Vec2i)
    requires |t| == 3 && Degenerate(t)
    ensures Weights(t, p) == Outside && WeightsReversed(t, p) == Outside
    ensures !Covered(Weights(t, p)) && !Covered(WeightsReversed(t, p))
  {
    EdgeCrossArea(t, p);
  }

  lemma CancelNonZero(z: real, a: real, b: real)
    requires z != 0.0 && z * a == z * b
    ensures a == b
  {
    assert z * (a - b) == 0.0;
  }

  lemma DivLinear(a: real, b: real, z: real)
    requires z != 0.0
    ensures (a + b) / z == a / z + b / z && (a - b) / z == a / z - b / z && z / z == 1.0
  {
    assert z * ((a + b) / z) == a + b == z * (a / z + b / z);
    CancelNonZero(z, (a + b) / z, a / z + b / z);
    assert z * ((a - b) / z) == a - b == z * (a / z - b / z);
    CancelNonZero(z, (a - b) / z, a / z - b / z);
  }

  /** The forward weights of a non-degenerate triangle are barycentric coordinates
      of p: they sum to one and recombine the corners into p. */
  lemma WeightsCombine(t: seq<Vec2i>, p: Vec2i)
    requires |t| == 3 && !Degenerate(t)
    ensures var w := Weights(t, p); Combines(t, w.x, w.y, w.z, p)
  {
    EdgeCrossArea(t, p);
    var u := EdgeCross(t, p);
    var w := Weights(t, p);
    var Z := u.z as real;
    var va := Vec3i(t[1].x - t[0].x, t[2].x - t[0].x, t[0].x - p.x);
    var vb := Vec3i(t[1].y - t[0].y, t[2].y - t[0].y, t[0].y - p.y);
    CrossOrthogonal(va, vb);
    ScaledWeights(Z, u.x as real, u.y as real);
    assert w == Vec3r(1.0 - (u.x + u.y) as real / Z, u.x as real / Z, u.y as real / Z);
    CombineAxis(Z, w.x, w.y, w.z, u.x, u.y, u.z, t[0].x, t[1].x, t[2].x, p.x);
    CombineAxis(Z, w.x, w.y, w.z, u.x, u.y, u.z, t[0].y, t[1].y, t[2].y, p.y);
  }

  /** Scaling the weights (1 - (X+Y)/Z, X/Z, Y/Z) back by Z. */
  lemma ScaledWeights(Z: real, X: real, Y: real)
    requires Z != 0.0
    ensures Z * (X / Z) == X && Z * (Y / Z) == Y
    ensures Z * (1.0 - (X + Y) / Z) == Z - X - Y
    ensures (1.0 - (X + Y) / Z) + X / Z + Y / Z == 1.0
  {
    DivLinear(X, Y, Z);
  }

  /** One coordinate of the recombination: from u.(t1-t0, t2-t0, t0-p) == 0 and
      Z*w == (Z-ux-uy, ux, uy). */
  lemma CombineAxis(Z: real, w0: real, w1: real, w2: real, ux: int, uy: int, uz: int,
                    a0: int, a1: int, a2: int, q: int)
    requires Z == uz as real && Z != 0.0
    requires Z * w1 == ux as real && Z * w2 == uy as real && Z * w0 == Z - ux as real - uy as real
    requires ux * (a1 - a0) + uy * (a2 - a0) + uz * (a0 - q) == 0
    ensures w0 * a0 as real + w1 * a1 as real + w2 * a2 as real == q as real
  {
    var A0, A1, A2 := a0 as real, a1 as real, a2 as real;
    var X, Y := ux as real, uy as real;
    assert X * (A1 - A0) + Y * (A2 - A0) + Z * (A0 - q as real) == 0.0;
    calc {
      Z * (w0 * A0 + w1 * A1 + w2 * A2);
      (Z * w0) * A0 + (Z * w1) * A1 + (Z * w2) * A2;
      (Z - X - Y) * A0 + X * A1 + Y * A2;
      Z * A0 + X * (A1 - A0) + Y * (A2 - A0);
      Z * q as real;
    }
    CancelNonZero(Z, w0 * A0 + w1 * A1 + w2 * A2, q as real);
  }

  /** Barycentric coordinates of a non-degenerate triangle are unique: any
      weights that sum to one and recombine the corners into p are the forward
      weights. */
  lemma WeightsUnique(t: seq<Vec2i>, p: Vec2i, a: real, b: real, c: real)
    requires |t| == 3 && !Degenerate(t) && Combines(t, a, b, c, p)
    ensures Weights(t, p) == Vec3r(a, b, c)
  {
    EdgeCrossArea(t, p);
    var u := EdgeCross(t, p);
    var Z := u.z as real;
    var A, B, C := (t[1].x - t[0].x) as real, (t[2].x - t[0].x) as real, (t[0].x - p.x) as real;
    var A', B', C' := (t[1].y - t[0].y) as real, (t[2].y - t[0].y) as real, (t[0].y - p.y) as real;
    assert Z == A * B' - B * A';
    assert u.x as real == B * C' - C * B';
    assert u.y as real == C * A' - A * C';
    assert b * A + c * B == -C;
    assert b * A' + c * B' == -C';
    Cramer(A, B, C, A', B', C', b, c);
    assert Z * (u.x as real / Z) == u.x as real;
    assert Z * (u.y as real / Z) == u.y as real;
    CancelNonZero(Z, b, u.x as real / Z);
    CancelNonZero(Z, c, u.y as real / Z);
  }

  /** Cramer's rule for the 2x2 system b*A + c*B == -C, b*A' + c*B' == -C'. */
  lemma Cramer(A: real, B: real, C: real, A': real, B': real, C': real, b: real, c: real)
    requires b * A + c * B == -C && b * A' + c * B' == -C'
    ensures b * (A * B' - B * A') == B * C' - C * B'
    ensures c * (A * B' - B * A') == C * A' - A * C'
  {
    calc {
      b * (A * B' - B * A');
      (b * A) * B' - (b * A') * B;
      (-C - c * B) * B' - (-C' - c * B') * B;
      B * C' - C * B';
    }
    calc {
      c * (A * B' - B * A');
      A * (c * B') - A' * (c * B);
      A * (-C' - b * A') - A' * (-C - b * A);
      C * A' - A * C';
    }
  }

  /** The reversed construction gives the same weights as the forward one, listed
      in the opposite order. */
  lemma ReversedIsReverse(t: seq<Vec2i>, p: Vec2i)
    requires |t| == 3 && !Degenerate(t)
    ensures WeightsReversed(t, p) == Rev(Weights(t, p))
  {
    EdgeCrossArea(t, p);
    var u := EdgeCross(t, p);
    var r := EdgeCrossReversed(t, p);
    var a, b := t[2].x - t[0].x, t[2].y - t[0].y;
    var c, d := t[1].x - t[0].x, t[1].y - t[0].y;
    var e, f := p.x - t[0].x, p.y - t[0].y;
    assert u.x == b * e - a * f;
    assert u.y == c * f - d * e;
    assert r.x == (a - c) * (f - b) - (e - a) * (b - d);
    assert r.y == (e - a) * b - a * (f - b);
    assert r.y == u.x;
    assert r.x == u.z - u.x - u.y;
    var Z := u.z as real;
    assert (r.x + r.y) as real / Z == (u.z - u.y) as real / Z;
    DivLinear(Z, u.y as real, Z);
    DivLinear(u.x as real, u.y as real, Z);
  }

  /** The reversed weights are barycentric coordinates too, for the corners taken
      in the order t[2], t[1], t[0]. */
  lemma WeightsReversedCombine(t: seq<Vec2i>, p: Vec2i)
    requires |t| == 3 && !Degenerate(t)
    ensures var w := WeightsReversed(t, p); Combines([t[2], t[1], t[0]], w.x, w.y, w.z, p)
  {
    ReversedIsReverse(t, p);
    WeightsCombine(t, p);
  }

  /** At the corners the forward weights are the unit vectors. */
  lemma WeightsAtCorners(t: seq<Vec2i>)
    requires |t| == 3 && !Degenerate(t)
    ensures Weights(t, t[0]) == Vec3r(1.0, 0.0, 0.0)
    ensures Weights(t, t[1]) == Vec3r(0.0, 1.0, 0.0)
    ensures Weights(t, t[2]) == Vec3r(0.0, 0.0, 1.0)
  {
    WeightsUnique(t, t[0], 1.0, 0.0, 0.0);
    WeightsUnique(t, t[1], 0.0, 1.0, 0.0);
    WeightsUnique(t, t[2], 0.0, 0.0, 1.0);
  }

  /** At the corners the reversed weights are the unit vectors, reversed:
      t[2] gives (1,0,0), t[1] gives (0,1,0), t[0] gives (0,0,1). */
  lemma WeightsReversedAtCorners(t: seq<Vec2i>)
    requires |t| == 3 && !Degenerate(t)
    ensures WeightsReversed(t, t[2]) == Vec3r(1.0, 0.0, 0.0)
    ensures WeightsReversed(t, t[1]) == Vec3r(0.0, 1.0, 0.0)
    ensures WeightsReversed(t, t[0]) == Vec3r(0.0, 0.0, 1.0)
  {
    WeightsAtCorners(t);
    ReversedIsReverse(t, t[0]);
    ReversedIsReverse(t, t[1]);
    ReversedIsReverse(t, t[2]);
  }

  /** The inside test accepts p exactly when p is a convex combination of the
      corners of a non-degenerate triangle: covered weights recombine into p with
      non-negative coefficients, and any such coefficients are the weights. */
  lemma CoveredIffConvex(t: seq<Vec2i>, p: Vec2i, a: real, b: real, c: real)
    requires |t| == 3
    ensures Covered(Weights(t, p)) ==>
      var w := Weights(t, p); !Degenerate(t) && Combines(t, w.x, w.y, w.z, p)
    ensures !Degenerate(t) && Combines(t, a, b, c, p) && a >= 0.0 && b >= 0.0 && c >= 0.0 ==>
      Covered(Weights(t, p)) && Covered(WeightsReversed(t, p))
  {
    if Degenerate(t) {
      DegenerateNotCovered(t, p);
    } else {
      WeightsCombine(t, p);
      ReversedIsReverse(t, p);
      if Combines(t, a, b, c, p) {
        WeightsUnique(t, p, a, b, c);
      }
    }
  }

  /** The two constructions accept the same pixels. */
  lemma CoveredAgree(t: seq<Vec2i>, p: Vec2i)
    requires |t| == 3
    ensures Covered(Weights(t, p)) <==> Covered(WeightsReversed(t, p))
  {
    if Degenerate(t) {
      DegenerateNotCovered(t, p);
    } else {
      ReversedIsReverse(t, p);
    }
  }

  /** The right triangle (0,0), (4,0), (0,4) covers exactly the pixels with
      x >= 0, y >= 0 and x + y <= 4. */
  lemma RightTriangleCoverage(p: Vec2i)
    ensures Covered(Weights([Vec2i(0, 0), Vec2i(4, 0), Vec2i(0, 4)], p)) <==>
      p.x >= 0 && p.y >= 0 && p.x + p.y <= 4
  {
    var t := [Vec2i(0, 0), Vec2i(4, 0), Vec2i(0, 4)];
    var u := EdgeCross(t, p);
    assert u == Vec3i(4 * p.x, 4 * p.y, 16);
    var w := Weights(t, p);
    assert w.y == p.x as real / 4.0 && w.z == p.y as real / 4.0;
    assert w.x == 1.0 - (p.x + p.y) as real / 4.0;
  }
}
