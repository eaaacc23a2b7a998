/** What the triangle fillers of every stage share: the clamped bounding box, the
    x-major scan order over it, the truncating depth interpolation, and the
    row-major index into a flat z-buffer. */
module Raster {
  import opened Geometry
  import opened Barycentric

  /** A framebuffer colour (TGAColor). */
  datatype Color = Color(b: int, g: int, r: int, a: int)

  /** The inclusive pixel box scanned by a triangle filler. */
  datatype Box = Box(lb: Vec2i, rt: Vec2i)

  predicate InBox(p: Vec2i, box: Box)
  {
    box.lb.x <= p.x <= box.rt.x && box.lb.y <= p.y <= box.rt.y
  }

  predicate InImage(p: Vec2i, width: int, height: int)
  {
    0 <= p.x < width && 0 <= p.y < height
  }

  /** Image extent along axis j. */
  function Dim(width: int, height: int, j: int): int
    requires 0 <= j < 2
  {
    if j == 0 then width else height
  }

  /** Smallest, largest coordinate j among the first n corners. */
  function MinCoord(t: seq<Vec2i>, n: int, j: int): int
    requires 1 <= n <= |t| && 0 <= j < 2
  {
    if n == 1 then Coord(t[0], j) else Min(MinCoord(t, n - 1, j), Coord(t[n - 1], j))
  }

  function MaxCoord(t: seq<Vec2i>, n: int, j: int): int
    requires 1 <= n <= |t| && 0 <= j < 2
  {
    if n == 1 then Coord(t[0], j) else Max(MaxCoord(t, n - 1, j), Coord(t[n - 1], j))
  }

  /** The box corners on axis j once the first n corners have been folded in; before
      any corner, lb starts at dim-1 and rt at 0. */
  function LowAfter(t: seq<Vec2i>, n: int, j: int, d: int): int
    requires 0 <= n <= |t| && 0 <= j < 2
  {
    if n == 0 then d - 1 else Max(0, Min(d - 1, MinCoord(t, n, j)))
  }

  function HighAfter(t: seq<Vec2i>, n: int, j: int, d: int): int
    requires 0 <= n <= |t| && 0 <= j < 2
  {
    if n == 0 then 0 else Min(d - 1, Max(0, MaxCoord(t, n, j)))
  }

  /** The bounding box of a triangle clamped to the image:
      lb[j] = max(0, min(dim-1, min_i t[i][j])), rt[j] = min(dim-1, max(0, max_i t[i][j])). */
  function ClampedBox(t: seq<Vec2i>, width: int, height: int): Box
    requires |t| == 3
  {
    Box(Vec2i(Max(0, Min(width - 1, Min(Min(t[0].x, t[1].x), t[2].x))),
              Max(0, Min(height - 1, Min(Min(t[0].y, t[1].y), t[2].y)))),
        Vec2i(Min(width - 1, Max(0, Max(Max(t[0].x, t[1].x), t[2].x))),
              Min(height - 1, Max(0, Max(Max(t[0].y, t[1].y), t[2].y)))))
  }

  /** Folding one more corner into lb and rt, as the loop body does. */
  lemma FoldStep(t: seq<Vec2i>, n: int, j: int, d: int)
    requires 0 <= n < |t| && 0 <= j < 2
    ensures LowAfter(t, n + 1, j, d) == Max(0, Min(LowAfter(t, n, j, d), Coord(t[n], j)))
    ensures HighAfter(t, n + 1, j, d) == Min(d - 1, Max(HighAfter(t, n, j, d), Coord(t[n], j)))
  {
  }

  lemma FoldAll(t: seq<Vec2i>, j: int)
    requires |t| == 3 && 0 <= j < 2
    ensures MinCoord(t, 3, j) == Min(Min(Coord(t[0], j), Coord(t[1], j)), Coord(t[2], j))
    ensures MaxCoord(t, 3, j) == Max(Max(Coord(t[0], j), Coord(t[1], j)), Coord(t[2], j))
  {
    assert MinCoord(t, 1, j) == Coord(t[0], j) && MaxCoord(t, 1, j) == Coord(t[0], j);
    assert MinCoord(t, 2, j) == Min(Coord(t[0], j), Coord(t[1], j));
    assert MaxCoord(t, 2, j) == Max(Coord(t[0], j), Coord(t[1], j));
  }

  /** The box computation at the head of every triangle filler: two nested loops
      folding each corner coordinate into lb and rt. */
  method BoundingBox(t: seq<Vec2i>, width: int, height: int) returns (lb: Vec2i, rt: Vec2i)
    requires |t| == 3
    ensures Box(lb, rt) == ClampedBox(t, width, height)
  {
    lb := Vec2i(width - 1, height - 1);
    rt := Vec2i(0, 0);
    var clamp := Vec2i(width - 1, height - 1);
    var i := 0;
    while i < 3
      invariant 0 <= i <= 3
      invariant lb.x == LowAfter(t, i, 0, width) && rt.x == HighAfter(t, i, 0, width)
      invariant lb.y == LowAfter(t, i, 1, height) && rt.y == HighAfter(t, i, 1, height)
    {
      var j := 0;
      while j < 2
        invariant 0 <= j <= 2
        invariant lb.x == LowAfter(t, if 0 < j then i + 1 else i, 0, width)
        invariant rt.x == HighAfter(t, if 0 < j then i + 1 else i, 0, width)
        invariant lb.y == LowAfter(t, if 1 < j then i + 1 else i, 1, height)
        invariant rt.y == HighAfter(t, if 1 < j then i + 1 else i, 1, height)
      {
        FoldStep(t, i, j, Dim(width, height, j));
        lb := WithCoord(lb, j, Max(0, Min(Coord(lb, j), Coord(t[i], j))));
        rt := WithCoord(rt, j, Min(Coord(clamp, j), Max(Coord(rt, j), Coord(t[i], j))));
        j := j + 1;
      }
      i := i + 1;
    }
    FoldAll(t, 0);
    FoldAll(t, 1);
  }

  /** Every pixel of box lies in a width x height image. */
  predicate Within(box: Box, width: int, height: int)
  {
    0 <= box.lb.x && 0 <= box.lb.y && box.rt.x < width && box.rt.y < height
  }

  /** The box is never inverted: lb <= rt + 1 on both axes, and lb <= rt once the
      image is not empty; and it lies in the image. */
  lemma BoxShape(t: seq<Vec2i>, width: int, height: int)
    requires |t| == 3 && 0 <= width && 0 <= height
    ensures var b := ClampedBox(t, width, height);
      b.lb.x <= b.rt.x + 1 && b.lb.y <= b.rt.y + 1 &&
      (0 < width ==> b.lb.x <= b.rt.x) && (0 < height ==> b.lb.y <= b.rt.y) &&
      Within(b, width, height)
  {
  }

  lemma MulMonotone(a: real, x: real, y: real)
    requires 0.0 <= a && x <= y
    ensures a * x <= a * y
  {
    assert a * y - a * x == a * (y - x);
  }

  /** Weighting with non-negative weights is monotone in the weighted values. */
  lemma SumBelow(a: real, b: real, c: real, x0: real, x1: real, x2: real, y0: real, y1: real, y2: real)
    requires a >= 0.0 && b >= 0.0 && c >= 0.0
    requires x0 <= y0 && x1 <= y1 && x2 <= y2
    ensures a * x0 + b * x1 + c * x2 <= a * y0 + b * y1 + c * y2
  {
    MulMonotone(a, x0, y0);
    MulMonotone(b, x1, y1);
    MulMonotone(c, x2, y2);
  }

  /** A convex combination of three reals in [lo, hi] stays in [lo, hi]. */
  lemma ConvexReal(a: real, b: real, c: real, lo: real, hi: real, x0: real, x1: real, x2: real)
    requires a >= 0.0 && b >= 0.0 && c >= 0.0 && a + b + c == 1.0
    requires lo <= x0 <= hi && lo <= x1 <= hi && lo <= x2 <= hi
    ensures lo <= a * x0 + b * x1 + c * x2 <= hi
  {
    SumBelow(a, b, c, lo, lo, lo, x0, x1, x2);
    SumBelow(a, b, c, x0, x1, x2, hi, hi, hi);
    assert a * lo + b * lo + c * lo == (a + b + c) * lo;
    assert a * hi + b * hi + c * hi == (a + b + c) * hi;
  }

  /** A convex combination of three integers lies between their minimum and maximum. */
  lemma ConvexBetween(a: real, b: real, c: real, x0: int, x1: int, x2: int, q: int)
    requires a >= 0.0 && b >= 0.0 && c >= 0.0 && a + b + c == 1.0
    requires a * x0 as real + b * x1 as real + c * x2 as real == q as real
    ensures Min(Min(x0, x1), x2) <= q <= Max(Max(x0, x1), x2)
  {
    var lo, hi := Min(Min(x0, x1), x2), Max(Max(x0, x1), x2);
    ConvexReal(a, b, c, lo as real, hi as real, x0 as real, x1 as real, x2 as real);
  }

  /** The box contains every in-image pixel that the inside test accepts, under
      either weight construction. */
  lemma CoveredInBox(t: seq<Vec2i>, width: int, height: int, p: Vec2i)
    requires |t| == 3 && InImage(p, width, height)
    requires Covered(Weights(t, p)) || Covered(WeightsReversed(t, p))
    ensures InBox(p, ClampedBox(t, width, height))
  {
    CoveredAgree(t, p);
    CoveredIffConvex(t, p, 0.0, 0.0, 0.0);
    var w := Weights(t, p);
    ConvexBetween(w.x, w.y, w.z, t[0].x, t[1].x, t[2].x, p.x);
    ConvexBetween(w.x, w.y, w.z, t[0].y, t[1].y, t[2].y, p.y);
  }

  /** Scan order of the nested loops: p is visited before q. */
  predicate Before(p: Vec2i, q: Vec2i)
  {
    p.x < q.x || (p.x == q.x && p.y < q.y)
  }

  /** The pixels of the box the loops have finished when they are at `cur`. */
  predicate Done(p: Vec2i, box: Box, cur: Vec2i)
  {
    InBox(p, box) && Before(p, cur)
  }

  /** A log of pixels in strict scan order, so without repetitions. */
  predicate Ascending(s: seq<Vec2i>)
  {
    forall i, j :: 0 <= i < j < |s| ==> Before(s[i], s[j])
  }

  /** Stepping the inner loop from (x, y) to (x, y+1) finishes exactly pixel (x, y). */
  lemma DoneStep(box: Box, x: int, y: int, q: Vec2i)
    requires InBox(Vec2i(x, y), box)
    ensures Done(q, box, Vec2i(x, y + 1)) <==> Done(q, box, Vec2i(x, y)) || q == Vec2i(x, y)
  {
  }

  /** Leaving column x after its last row finishes the same pixels as entering
      column x + 1 at its first row. */
  lemma DoneColumn(box: Box, x: int, q: Vec2i)
    ensures Done(q, box, Vec2i(x, box.rt.y + 1)) <==> Done(q, box, Vec2i(x + 1, box.lb.y))
  {
  }

  /** The contents of a two-dimensional array as a value, s[i][j] == a[i, j]. */
  ghost function Snapshot<T>(a: array2<T>): (s: seq<seq<T>>)
    reads a
    ensures Shaped(s, a.Length0, a.Length1)
    ensures forall i, j :: 0 <= i < a.Length0 && 0 <= j < a.Length1 ==> s[i][j] == a[i, j]
  {
    seq(a.Length0, i requires 0 <= i < a.Length0 reads a =>
      seq(a.Length1, j requires 0 <= j < a.Length1 reads a => a[i, j]))
  }

  /** s has width rows of height entries each. */
  predicate Shaped<T>(s: seq<seq<T>>, width: int, height: int)
  {
    |s| == width && forall i :: 0 <= i < width ==> |s[i]| == height
  }

  /** Appending a pixel later than every logged one keeps the log ascending. */
  lemma AscendingAppend(s: seq<Vec2i>, p: Vec2i)
    requires Ascending(s) && forall q :: q in s ==> Before(q, p)
    ensures Ascending(s + [p])
  {
  }

  /** C++ float-to-int conversion: truncation towards zero. */
  function Trunc(r: real): int
  {
    if r >= 0.0 then r.Floor else -((-r).Floor)
  }

  /** Truncation drops the fractional part: |n| <= |r| < |n| + 1, with the sign of r. */
  lemma TruncBounds(r: real)
    ensures var n := Trunc(r);
      Abs(n) as real <= (if r < 0.0 then -r else r) < Abs(n) as real + 1.0 &&
      (n < 0 ==> r < 0.0) && (r < 0.0 ==> n <= 0)
  {
  }

  /** One `acc += x*w` on an int accumulator: a floating-point add, truncated back. */
  function AddTrunc(acc: int, x: int, w: real): (r: int)
    ensures var e := acc as real + x as real * w;
      && (0.0 <= e ==> r as real <= e < r as real + 1.0)
      && (e < 0.0 ==> r as real - 1.0 < e <= r as real)
  {
    Trunc(acc as real + x as real * w)
  }

  /** The i-th term v[i]*bc[i] of an interpolated sum. */
  function Term(v: seq<int>, bc: Vec3r, i: int): real
    requires |v| == 3 && 0 <= i < 3
  {
    v[i] as real * Component(bc, i)
  }

  /** An int accumulator after n rounds of `acc += v[i]*bc[i]`: each round adds in
      floating point and truncates back to int. */
  function Accumulate(v: seq<int>, bc: Vec3r, n: int): int
    requires |v| == 3 && 0 <= n <= 3
  {
    if n == 0 then 0 else AddTrunc(Accumulate(v, bc, n - 1), v[n - 1], Component(bc, n - 1))
  }

  /** The value the fillers interpolate from the per-corner values v, pairing v[i]
      with bc[i]. */
  function Interp(v: seq<int>, bc: Vec3r): int
    requires |v| == 3
  {
    Accumulate(v, bc, 3)
  }

  /** The exact sum of the first n terms v[i]*bc[i]. */
  function ExactPrefix(v: seq<int>, bc: Vec3r, n: int): real
    requires |v| == 3 && 0 <= n <= 3
  {
    if n == 0 then 0.0 else ExactPrefix(v, bc, n - 1) + Term(v, bc, n - 1)
  }

  /** Per-corner depths, texture u and texture v coordinates. */
  function Depths(t: seq<Vec3i>): (r: seq<int>)
    requires |t| == 3
    ensures |r| == 3 && forall i :: 0 <= i < 3 ==> r[i] == t[i].z
  {
    [t[0].z, t[1].z, t[2].z]
  }

  function Us(uv: seq<Vec2i>): (r: seq<int>)
    requires |uv| == 3
    ensures |r| == 3 && forall i :: 0 <= i < 3 ==> r[i] == uv[i].x
  {
    [uv[0].x, uv[1].x, uv[2].x]
  }

  function Vs(uv: seq<Vec2i>): (r: seq<int>)
    requires |uv| == 3
    ensures |r| == 3 && forall i :: 0 <= i < 3 ==> r[i] == uv[i].y
  {
    [uv[0].y, uv[1].y, uv[2].y]
  }

  /** The depth loop of the gl.h filler: `zval += t[i].z*bc[i]` for i = 0, 1, 2. */
  method InterpolateDepth(t: seq<Vec3i>, bc: Vec3r) returns (zval: int)
    requires |t| == 3
    ensures zval == Interp(Depths(t), bc)
  {
    zval := 0;
    var i := 0;
    while i < 3
      invariant 0 <= i <= 3
      invariant zval == Accumulate(Depths(t), bc, i)
    {
      zval := AddTrunc(zval, t[i].z, Component(bc, i));
      i := i + 1;
    }
  }

  /** The interpolation loop of the textured fillers: depth and both texture
      coordinates accumulated side by side, each into an int. */
  method InterpolateAttributes(t: seq<Vec3i>, uv: seq<Vec2i>, bc: Vec3r) returns (zval: int, uval: int, vval: int)
    requires |t| == 3 && |uv| == 3
    ensures zval == Interp(Depths(t), bc)
    ensures uval == Interp(Us(uv), bc) && vval == Interp(Vs(uv), bc)
  {
    zval, uval, vval := 0, 0, 0;
    var i := 0;
    while i < 3
      invariant 0 <= i <= 3
      invariant zval == Accumulate(Depths(t), bc, i)
      invariant uval == Accumulate(Us(uv), bc, i) && vval == Accumulate(Vs(uv), bc, i)
    {
      zval := AddTrunc(zval, t[i].z, Component(bc, i));
      uval := AddTrunc(uval, uv[i].x, Component(bc, i));
      vval := AddTrunc(vval, uv[i].y, Component(bc, i));
      i := i + 1;
    }
  }

  lemma TruncInt(n: int)
    ensures Trunc(n as real) == n
  {
  }

  /** At a corner's unit weight the interpolated value is that corner's value. */
  lemma InterpAtCorners(v: seq<int>)
    requires |v| == 3
    ensures Interp(v, Vec3r(1.0, 0.0, 0.0)) == v[0]
    ensures Interp(v, Vec3r(0.0, 1.0, 0.0)) == v[1]
    ensures Interp(v, Vec3r(0.0, 0.0, 1.0)) == v[2]
  {
    TruncInt(0);
    TruncInt(v[0]);
    TruncInt(v[1]);
    TruncInt(v[2]);
    var e0, e1, e2 := Vec3r(1.0, 0.0, 0.0), Vec3r(0.0, 1.0, 0.0), Vec3r(0.0, 0.0, 1.0);
    assert Accumulate(v, e0, 1) == v[0] && Accumulate(v, e0, 2) == v[0];
    assert Accumulate(v, e1, 1) == 0 && Accumulate(v, e1, 2) == v[1];
    assert Accumulate(v, e2, 1) == 0 && Accumulate(v, e2, 2) == 0;
  }

  /** With non-negative terms each truncation loses less than one, so the
      accumulator undershoots the exact weighted sum by less than n. */
  lemma {:induction false} AccumulateBounds(v: seq<int>, bc: Vec3r, n: int)
    requires |v| == 3 && 0 <= n <= 3
    requires Term(v, bc, 0) >= 0.0 && Term(v, bc, 1) >= 0.0 && Term(v, bc, 2) >= 0.0
    ensures 0 <= Accumulate(v, bc, n)
    ensures ExactPrefix(v, bc, n) - n as real <= Accumulate(v, bc, n) as real <= ExactPrefix(v, bc, n)
    ensures 0 < n ==> ExactPrefix(v, bc, n) - n as real < Accumulate(v, bc, n) as real
  {
    if n > 0 {
      AccumulateBounds(v, bc, n - 1);
      AccumulateStep(v, bc, n);
    }
  }

  /** Round n of the accumulation keeps the bounds of round n - 1. */
  lemma AccumulateStep(v: seq<int>, bc: Vec3r, n: int)
    requires |v| == 3 && 0 < n <= 3 && Term(v, bc, n - 1) >= 0.0
    requires 0 <= Accumulate(v, bc, n - 1)
    requires ExactPrefix(v, bc, n - 1) - (n - 1) as real <= Accumulate(v, bc, n - 1) as real <= ExactPrefix(v, bc, n - 1)
    ensures 0 <= Accumulate(v, bc, n)
    ensures ExactPrefix(v, bc, n) - n as real < Accumulate(v, bc, n) as real <= ExactPrefix(v, bc, n)
  {
    var prev, exact := Accumulate(v, bc, n - 1), ExactPrefix(v, bc, n - 1);
    var x, w := v[n - 1], Component(bc, n - 1);
    assert Accumulate(v, bc, n) == AddTrunc(prev, x, w);
    assert ExactPrefix(v, bc, n) == exact + x as real * w;
    TruncStep(prev, exact, x, w, n);
  }

  /** One truncating step: a non-negative term x*w added to an accumulator that is
      within n - 1 below the exact sum leaves it within n below the new sum. */
  lemma TruncStep(prev: int, exact: real, x: int, w: real, n: int)
    requires 0 <= prev && x as real * w >= 0.0 && 0 < n
    requires exact - (n - 1) as real <= prev as real <= exact
    ensures var next := AddTrunc(prev, x, w);
      0 <= next && exact + x as real * w - n as real < next as real <= exact + x as real * w
  {
    TruncBounds(prev as real + x as real * w);
  }

  lemma NonNegProduct(a: real, b: real)
    requires a >= 0.0 && b >= 0.0
    ensures a * b >= 0.0
  {
  }

  /** The exact weighted sum v0*w0 + v1*w1 + v2*w2. */
  lemma ExactPrefixFull(v: seq<int>, bc: Vec3r)
    requires |v| == 3
    ensures ExactPrefix(v, bc, 3) == v[0] as real * bc.x + v[1] as real * bc.y + v[2] as real * bc.z
  {
    assert ExactPrefix(v, bc, 1) == v[0] as real * bc.x;
    assert ExactPrefix(v, bc, 2) == v[0] as real * bc.x + v[1] as real * bc.y;
  }

  /** For a covered pixel and non-negative corner values, the interpolated value is
      non-negative and less than 3 below the exact v0*w0 + v1*w1 + v2*w2. */
  lemma InterpBounds(v: seq<int>, bc: Vec3r)
    requires |v| == 3 && Covered(bc)
    requires v[0] >= 0 && v[1] >= 0 && v[2] >= 0
    ensures var exact := v[0] as real * bc.x + v[1] as real * bc.y + v[2] as real * bc.z;
      0 <= Interp(v, bc) && exact - 3.0 < Interp(v, bc) as real <= exact
  {
    NonNegProduct(v[0] as real, bc.x);
    NonNegProduct(v[1] as real, bc.y);
    NonNegProduct(v[2] as real, bc.z);
    AccumulateBounds(v, bc, 3);
    ExactPrefixFull(v, bc);
  }

  /** Row-major index of pixel (x, y) in a flat buffer of the given row width
      (`p.x + p.y*width`). */
  function ZIndex(x: int, y: int, width: int): int
  {
    x + y * width
  }

  /** Every pixel of a width x height image has an index in [0, width*height). */
  lemma ZIndexInRange(x: int, y: int, width: int, height: int)
    requires 0 <= x < width && 0 <= y < height
    ensures 0 <= ZIndex(x, y, width) < width * height
  {
    assert y * width <= (height - 1) * width;
  }

  /** The global image size both z-buffered drivers declare: their z-buffer has
      Width * Height entries, row stride Width, and serves any image no larger. */
  const Width := 800
  const Height := 800

  /** z-buffer entry k belongs to a pixel of a width x height image. */
  predicate ImageCell(k: int, width: int, height: int)
  {
    0 <= k % Width < width && 0 <= k / Width < height
  }

  /** The pixel (x, y) of the image owns entry ZIndex(x, y) of the z-buffer. */
  lemma ZIndexCell(x: int, y: int, width: int, height: int)
    requires 0 <= x < width <= Width && 0 <= y < height
    ensures ImageCell(ZIndex(x, y, Width), width, height)
    ensures ZIndex(x, y, Width) % Width == x && ZIndex(x, y, Width) / Width == y
  {
  }

  /** The interpolated depth and texture position at p, t[i] and uv[i] paired with
      bc[i] of the forward weights. */
  function DepthAt(t: seq<Vec3i>, p: Vec2i): int
    requires |t| == 3
  {
    Interp(Depths(t), Weights(Flat(t), p))
  }

  function TexAt(t: seq<Vec3i>, uv: seq<Vec2i>, p: Vec2i): Vec2i
    requires |t| == 3 && |uv| == 3
  {
    Vec2i(Interp(Us(uv), Weights(Flat(t), p)), Interp(Vs(uv), Weights(Flat(t), p)))
  }

  /** At each corner of a triangle with an area, the interpolated depth and texture
      position are that corner's own. */
  lemma DepthAtCorners(t: seq<Vec3i>, uv: seq<Vec2i>, k: int)
    requires |t| == 3 && |uv| == 3 && 0 <= k < 3 && !Degenerate(Flat(t))
    ensures DepthAt(t, XY(t[k])) == t[k].z
    ensures TexAt(t, uv, XY(t[k])) == uv[k]
  {
    var f := Flat(t);
    assert f[k] == XY(t[k]);
    WeightsAtCorners(f);
    InterpAtCorners(Depths(t));
    InterpAtCorners(Us(uv));
    InterpAtCorners(Vs(uv));
  }
}
