/** Bresenham line drawing with an integer error term, as in `bresenham_line`
    (1-initial) and `line` (2-triangles, zbuffer). A drawn line is the sequence of
    positions handed to `image.set`, in call order. */
module Bresenham {
  import opened Geometry

  /** The endpoints after the steep swap (x and y exchanged when the line is
      steeper than 45 degrees) and the order swap (x0 <= x1). */
  datatype Frame = Frame(steep: bool, x0: int, y0: int, x1: int, y1: int)

  /** A frame in which x is the major axis and runs forward. */
  predicate Normalised(f: Frame)
  {
    f.x0 <= f.x1 && Abs(f.y1 - f.y0) <= f.x1 - f.x0
  }

  /** The position plotted for frame coordinates (a, b): `set(b, a)` when steep,
      `set(a, b)` otherwise. */
  function Unframe(steep: bool, a: int, b: int): Vec2i
  {
    if steep then Vec2i(b, a) else Vec2i(a, b)
  }

  /** The coordinate along which a line of this steepness advances one pixel per step. */
  function Major(steep: bool, p: Vec2i): int
  {
    if steep then p.y else p.x
  }

  /** The other coordinate. */
  function Minor(steep: bool, p: Vec2i): int
  {
    if steep then p.x else p.y
  }

  /** The two swaps that start both line routines. */
  function Normalize(x0: int, y0: int, x1: int, y1: int): (f: Frame)
    ensures Normalised(f)
    ensures f.steep == (Abs(x0 - x1) < Abs(y0 - y1))
    ensures f.x1 - f.x0 == Max(Abs(x1 - x0), Abs(y1 - y0))
    ensures || (Unframe(f.steep, f.x0, f.y0) == Vec2i(x0, y0) && Unframe(f.steep, f.x1, f.y1) == Vec2i(x1, y1))
            || (Unframe(f.steep, f.x0, f.y0) == Vec2i(x1, y1) && Unframe(f.steep, f.x1, f.y1) == Vec2i(x0, y0))
  {
    var steep := Abs(x0 - x1) < Abs(y0 - y1);
    var a0 := if steep then y0 else x0;
    var b0 := if steep then x0 else y0;
    var a1 := if steep then y1 else x1;
    var b1 := if steep then x1 else y1;
    if a0 > a1 then Frame(steep, a1, b1, a0, b0) else Frame(steep, a0, b0, a1, b1)
  }

  /** How far the minor coordinate has moved after k steps of a line with major
      extent dx and minor extent dy: k*dy/dx rounded to the nearest integer, ties
      rounded down. */
  function MinorOffset(dx: int, dy: int, k: int): int
    requires 0 <= dy <= dx && 0 <= k
  {
    if dx == 0 then 0 else (2 * dy * k + dx - 1) / (2 * dx)
  }

  /** `b` moved by m towards the far end of the minor axis. */
  function Toward(b: int, up: bool, m: int): int
  {
    if up then b + m else b - m
  }

  /** The k-th position of the line in a normalised frame. */
  function FramePixel(f: Frame, k: int): Vec2i
    requires Normalised(f) && 0 <= k
  {
    Unframe(f.steep, f.x0 + k, Toward(f.y0, f.y0 <= f.y1, MinorOffset(f.x1 - f.x0, Abs(f.y1 - f.y0), k)))
  }

  function FramePixels(f: Frame): (r: seq<Vec2i>)
    requires Normalised(f)
    ensures |r| == f.x1 - f.x0 + 1
  {
    seq(f.x1 - f.x0 + 1, k requires 0 <= k <= f.x1 - f.x0 => FramePixel(f, k))
  }

  /** The positions a line from (x0, y0) to (x1, y1) plots, in order. */
  function LinePixels(x0: int, y0: int, x1: int, y1: int): (r: seq<Vec2i>)
    ensures |r| == Max(Abs(x1 - x0), Abs(y1 - y0)) + 1
  {
    FramePixels(Normalize(x0, y0, x1, y1))
  }

  lemma DivUnique(n: int, d: int, q: int)
    requires 0 < d && d * q <= n < d * (q + 1)
    ensures n / d == q
  {
    var r := n / d;
    assert n == d * r + n % d;
    assert d * (q - r) <= n % d < d * (q - r + 1);
    MulBelowOne(d, q - r);
  }

  lemma MulBelowOne(d: int, e: int)
    requires 0 < d && d * e <= d - 1 && 0 <= d * (e + 1) - 1
    ensures e == 0
  {
    MulSign(d, e);
    MulSign(d, e + 1);
  }

  /** The rounded offset is within half a pixel of the exact k*dy/dx. */
  lemma OffsetBounds(dx: int, dy: int, k: int)
    requires 0 <= dy <= dx && 0 < dx && 0 <= k
    ensures -dx <= 2 * dx * MinorOffset(dx, dy, k) - 2 * dy * k < dx
  {
    var n := 2 * dy * k + dx - 1;
    var m := n / (2 * dx);
    assert n == 2 * dx * m + n % (2 * dx);
  }

  lemma OffsetStart(dx: int, dy: int)
    requires 0 <= dy <= dx
    ensures MinorOffset(dx, dy, 0) == 0
  {
    if dx > 0 {
      DivUnique(dx - 1, 2 * dx, 0);
    }
  }

  lemma OffsetEnd(dx: int, dy: int)
    requires 0 <= dy <= dx
    ensures MinorOffset(dx, dy, dx) == dy
  {
    if dx > 0 {
      assert 2 * dy * dx + dx - 1 < 2 * dx * (dy + 1);
      DivUnique(2 * dy * dx + dx - 1, 2 * dx, dy);
    }
  }

  /** The error term D the loop holds before plotting step k. */
  function Err(dx: int, dy: int, k: int): int
    requires 0 <= dy <= dx && 0 <= k
  {
    2 * dy * (k + 1) - dx - 2 * dx * MinorOffset(dx, dy, k)
  }

  /** One step of the loop: the offset grows by one exactly when D > 0, and D
      then loses 2dx; either way it gains 2dy. */
  lemma OffsetStep(dx: int, dy: int, k: int)
    requires 0 <= dy <= dx && 0 <= k
    ensures var m, e := MinorOffset(dx, dy, k), Err(dx, dy, k);
      && MinorOffset(dx, dy, k + 1) == (if e > 0 then m + 1 else m)
      && Err(dx, dy, k + 1) == (if e > 0 then e - 2 * dx else e) + 2 * dy
  {
    var m := MinorOffset(dx, dy, k);
    if dx > 0 {
      OffsetBounds(dx, dy, k);
      var n := 2 * dy * (k + 1) + dx - 1;
      assert n == 2 * dy * k + dx - 1 + 2 * dy;
      if Err(dx, dy, k) > 0 {
        DivUnique(n, 2 * dx, m + 1);
        assert 2 * dx * (m + 1) == 2 * dx * m + 2 * dx;
      } else {
        DivUnique(n, 2 * dx, m);
      }
      assert 2 * dy * (k + 2) == 2 * dy * (k + 1) + 2 * dy;
    }
  }

  /** The loop of both line routines, after the two swaps. */
  method Plot(f: Frame) returns (pixels: seq<Vec2i>)
    requires Normalised(f)
    ensures pixels == FramePixels(f)
  {
    var dx := f.x1 - f.x0;
    var dy := f.y1 - f.y0;
    var yi := 1;
    if dy < 0 {
      yi := -1;
      dy := -dy;
    }
    var D := 2 * dy - dx;
    var y := f.y0;
    var x := f.x0;
    OffsetStart(dx, dy);
    pixels := [];
    while x <= f.x1
      invariant f.x0 <= x <= f.x1 + 1
      invariant |pixels| == x - f.x0
      invariant forall k :: 0 <= k < |pixels| ==> pixels[k] == FramePixel(f, k)
      invariant y == Toward(f.y0, yi == 1, MinorOffset(dx, dy, x - f.x0))
      invariant D == Err(dx, dy, x - f.x0)
    {
      pixels := pixels + [Unframe(f.steep, x, y)];
      OffsetStep(dx, dy, x - f.x0);
      if D > 0 {
        y := y + yi;
        D := D - 2 * dx;
      }
      D := D + 2 * dy;
      x := x + 1;
    }
    assert pixels == FramePixels(f);
  }

  /** `bresenham_line(x0, y0, x1, y1, image, color)`: the swaps on scalars, then the loop. */
  method BresenhamLine(x0: int, y0: int, x1: int, y1: int) returns (pixels: seq<Vec2i>)
    ensures pixels == LinePixels(x0, y0, x1, y1)
  {
    var a0, b0, a1, b1 := x0, y0, x1, y1;
    var steep := false;
    if Abs(a0 - a1) < Abs(b0 - b1) {
      a0, b0 := b0, a0;
      a1, b1 := b1, a1;
      steep := true;
    }
    if a0 > a1 {
      a0, a1 := a1, a0;
      b0, b1 := b1, b0;
    }
    pixels := Plot(Frame(steep, a0, b0, a1, b1));
  }

  /** `line(v0, v1, image, color)`: the same algorithm, swapping whole points. */
  method Line(v0: Vec2i, v1: Vec2i) returns (pixels: seq<Vec2i>)
    ensures pixels == LinePixels(v0.x, v0.y, v1.x, v1.y)
  {
    var p0, p1 := v0, v1;
    var steep := false;
    if Abs(p0.x - p1.x) < Abs(p0.y - p1.y) {
      p0 := Vec2i(p0.y, p0.x);
      p1 := Vec2i(p1.y, p1.x);
      steep := true;
    }
    if p0.x > p1.x {
      p0, p1 := p1, p0;
    }
    pixels := Plot(Frame(steep, p0.x, p0.y, p1.x, p1.y));
  }

  /** The first plotted position is one endpoint and the last is the other. */
  lemma LineEndpoints(x0: int, y0: int, x1: int, y1: int)
    ensures var r := LinePixels(x0, y0, x1, y1);
      || (r[0] == Vec2i(x0, y0) && r[|r| - 1] == Vec2i(x1, y1))
      || (r[0] == Vec2i(x1, y1) && r[|r| - 1] == Vec2i(x0, y0))
  {
    FrameEnds(Normalize(x0, y0, x1, y1));
  }

  /** The first and last positions of a normalised frame are its two endpoints. */
  lemma FrameEnds(f: Frame)
    requires Normalised(f)
    ensures FramePixel(f, 0) == Unframe(f.steep, f.x0, f.y0)
    ensures FramePixel(f, f.x1 - f.x0) == Unframe(f.steep, f.x1, f.y1)
  {
    OffsetStart(f.x1 - f.x0, Abs(f.y1 - f.y0));
    OffsetEnd(f.x1 - f.x0, Abs(f.y1 - f.y0));
  }

  /** Consecutive positions advance by exactly one along the major axis and move
      by zero or one along the minor axis, always towards the last position. */
  lemma LineSteps(x0: int, y0: int, x1: int, y1: int)
    ensures var r := LinePixels(x0, y0, x1, y1);
      var s := Abs(x0 - x1) < Abs(y0 - y1);
      forall k :: 0 <= k < |r| - 1 ==>
        && Major(s, r[k + 1]) == Major(s, r[k]) + 1
        && if Minor(s, r[0]) <= Minor(s, r[|r| - 1])
           then Minor(s, r[k]) <= Minor(s, r[k + 1]) <= Minor(s, r[k]) + 1
           else Minor(s, r[k]) - 1 <= Minor(s, r[k + 1]) <= Minor(s, r[k])
  {
    var f := Normalize(x0, y0, x1, y1);
    FrameSteps(f);
  }

  /** LineSteps for the positions of a normalised frame. */
  lemma FrameSteps(f: Frame)
    requires Normalised(f)
    ensures var r := FramePixels(f);
      forall k :: 0 <= k < |r| - 1 ==>
        && Major(f.steep, r[k + 1]) == Major(f.steep, r[k]) + 1
        && if Minor(f.steep, r[0]) <= Minor(f.steep, r[|r| - 1])
           then Minor(f.steep, r[k]) <= Minor(f.steep, r[k + 1]) <= Minor(f.steep, r[k]) + 1
           else Minor(f.steep, r[k]) - 1 <= Minor(f.steep, r[k + 1]) <= Minor(f.steep, r[k])
  {
    var r, s := FramePixels(f), f.steep;
    FrameEnds(f);
    assert Minor(s, r[0]) == f.y0 && Minor(s, r[|r| - 1]) == f.y1;
    forall k | 0 <= k < |r| - 1
      ensures Major(s, r[k + 1]) == Major(s, r[k]) + 1
      ensures if f.y0 <= f.y1
        then Minor(s, r[k]) <= Minor(s, r[k + 1]) <= Minor(s, r[k]) + 1
        else Minor(s, r[k]) - 1 <= Minor(s, r[k + 1]) <= Minor(s, r[k])
    {
      assert r[k] == FramePixel(f, k) && r[k + 1] == FramePixel(f, k + 1);
      FrameStep(f, k);
    }
  }

  /** One step of a normalised frame: one forward on the major axis, zero or one
      towards y1 on the minor axis. */
  lemma FrameStep(f: Frame, k: int)
    requires Normalised(f) && 0 <= k
    ensures Major(f.steep, FramePixel(f, k + 1)) == Major(f.steep, FramePixel(f, k)) + 1
    ensures var a, b := Minor(f.steep, FramePixel(f, k)), Minor(f.steep, FramePixel(f, k + 1));
      if f.y0 <= f.y1 then a <= b <= a + 1 else a - 1 <= b <= a
  {
    OffsetStep(f.x1 - f.x0, Abs(f.y1 - f.y0), k);
  }

  /** Every position lies within half a pixel of the ideal line through the first
      and last positions, measured along the minor axis:
      |2*dM*(minor - N0) - 2*dN*(major - M0)| <= dM. */
  lemma LineAccuracy(x0: int, y0: int, x1: int, y1: int)
    ensures var r := LinePixels(x0, y0, x1, y1);
      var s := Abs(x0 - x1) < Abs(y0 - y1);
      var m0, n0 := Major(s, r[0]), Minor(s, r[0]);
      var dM, dN := Major(s, r[|r| - 1]) - m0, Minor(s, r[|r| - 1]) - n0;
      forall k :: 0 <= k < |r| ==>
        Abs(2 * dM * (Minor(s, r[k]) - n0) - 2 * dN * (Major(s, r[k]) - m0)) <= dM
  {
    FrameAccuracy(Normalize(x0, y0, x1, y1));
  }

  /** LineAccuracy for the positions of a normalised frame. */
  lemma FrameAccuracy(f: Frame)
    requires Normalised(f)
    ensures var r := FramePixels(f);
      var s := f.steep;
      var m0, n0 := Major(s, r[0]), Minor(s, r[0]);
      var dM, dN := Major(s, r[|r| - 1]) - m0, Minor(s, r[|r| - 1]) - n0;
      forall k :: 0 <= k < |r| ==>
        Abs(2 * dM * (Minor(s, r[k]) - n0) - 2 * dN * (Major(s, r[k]) - m0)) <= dM
  {
    var r := FramePixels(f);
    var s := f.steep;
    var dx := f.x1 - f.x0;
    FrameEnds(f);
    assert Major(s, r[0]) == f.x0 && Minor(s, r[0]) == f.y0;
    assert Major(s, r[|r| - 1]) == f.x1 && Minor(s, r[|r| - 1]) == f.y1;
    forall k | 0 <= k < |r|
      ensures Abs(2 * dx * (Minor(s, r[k]) - f.y0) - 2 * (f.y1 - f.y0) * (Major(s, r[k]) - f.x0)) <= dx
    {
      assert Major(s, r[k]) - f.x0 == k;
      if dx > 0 {
        PixelAccuracy(f, k);
      }
    }
  }

  /** The half-pixel bound at one position of a normalised frame. */
  lemma PixelAccuracy(f: Frame, k: int)
    requires Normalised(f) && 0 <= k && f.x0 < f.x1
    ensures var dx := f.x1 - f.x0;
      Abs(2 * dx * (Minor(f.steep, FramePixel(f, k)) - f.y0) - 2 * (f.y1 - f.y0) * k) <= dx
  {
    var dx, dy := f.x1 - f.x0, Abs(f.y1 - f.y0);
    OffsetBounds(dx, dy, k);
    var m := MinorOffset(dx, dy, k);
    if f.y0 <= f.y1 {
      assert Minor(f.steep, FramePixel(f, k)) - f.y0 == m;
    } else {
      assert Minor(f.steep, FramePixel(f, k)) - f.y0 == -m;
      assert 2 * dx * (-m) - 2 * (f.y1 - f.y0) * k == -(2 * dx * m - 2 * dy * k);
    }
  }

  /** Drawing from a to b and from b to a plots the same positions in the same order. */
  lemma LineSymmetric(x0: int, y0: int, x1: int, y1: int)
    ensures LinePixels(x0, y0, x1, y1) == LinePixels(x1, y1, x0, y0)
  {
    assert Normalize(x0, y0, x1, y1) == Normalize(x1, y1, x0, y0);
  }
}
