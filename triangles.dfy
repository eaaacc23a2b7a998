/** `parallel_triangle` of 2-triangles/main.cpp: the bounding-box filler with no
    depth test. It scans the clamped box column by column and sets every pixel the
    reversed-order weights accept to one flat colour. */
module Triangles {
  import opened Geometry
  import opened Barycentric
  import opened Raster

  /** The pixels of the image the filler paints: exactly the in-image pixels the
      inside test accepts. */
  predicate Painted(t: seq<Vec2i>, width: int, height: int, p: Vec2i)
    requires |t| == 3
  {
    InImage(p, width, height) && Covered(WeightsReversed(t, p))
  }

  /** The set-call log when the scan has reached cur: the accepted pixels already
      finished, in scan order. */
  ghost predicate LogUpTo(calls: seq<Vec2i>, t: seq<Vec2i>, box: Box, cur: Vec2i)
    requires |t| == 3
  {
    && (forall q :: q in calls <==> Done(q, box, cur) && Covered(WeightsReversed(t, q)))
    && (forall q :: q in calls ==> Before(q, cur))
    && Ascending(calls)
  }

  /** The log after visiting pixel p = (x, y) of the box. */
  lemma LogStep(calls: seq<Vec2i>, t: seq<Vec2i>, box: Box, x: int, y: int)
    requires |t| == 3 && InBox(Vec2i(x, y), box) && LogUpTo(calls, t, box, Vec2i(x, y))
    ensures var p := Vec2i(x, y);
      LogUpTo(if Covered(WeightsReversed(t, p)) then calls + [p] else calls, t, box, Vec2i(x, y + 1))
  {
    var p := Vec2i(x, y);
    forall q {
      DoneStep(box, x, y, q);
    }
    if Covered(WeightsReversed(t, p)) {
      AscendingAppend(calls, p);
    }
  }

  /** The log on leaving column x is the log on entering column x + 1. */
  lemma LogColumn(calls: seq<Vec2i>, t: seq<Vec2i>, box: Box, x: int)
    requires |t| == 3 && LogUpTo(calls, t, box, Vec2i(x, box.rt.y + 1))
    ensures LogUpTo(calls, t, box, Vec2i(x + 1, box.lb.y))
  {
    forall q {
      DoneColumn(box, x, q);
    }
  }

  /** Fills triangle t on image with color. The ghost `calls` records the
      arguments of the `image.set` calls in the order they are made. */
  method ParallelTriangle(t: seq<Vec2i>, image: array2<Color>, color: Color) returns (ghost calls: seq<Vec2i>)
    requires |t| == 3
    modifies image
    ensures forall x, y :: 0 <= x < image.Length0 && 0 <= y < image.Length1 ==>
      image[x, y] == if Covered(WeightsReversed(t, Vec2i(x, y))) then color else old(image[x, y])
    ensures forall p :: p in calls <==> Painted(t, image.Length0, image.Length1, p)
    ensures Ascending(calls)
  {
    var width, height := image.Length0, image.Length1;
    var lb, rt := BoundingBox(t, width, height);
    var box := Box(lb, rt);
    BoxShape(t, width, height);
    calls := [];
    var x := lb.x;
    while x <= rt.x
      invariant lb.x <= x <= rt.x + 1
      invariant forall a, b :: 0 <= a < width && 0 <= b < height ==>
        image[a, b] == if Done(Vec2i(a, b), box, Vec2i(x, lb.y)) && Covered(WeightsReversed(t, Vec2i(a, b))) then color else old(image[a, b])
      invariant LogUpTo(calls, t, box, Vec2i(x, lb.y))
    {
      calls := FillColumn(t, image, color, box, x, calls);
      x := x + 1;
    }
    forall q | Painted(t, width, height, q)
      ensures InBox(q, box)
    {
      CoveredInBox(t, width, height, q);
    }
    assert x == rt.x + 1;
    forall a, b | 0 <= a < width && 0 <= b < height
      ensures image[a, b] == if Covered(WeightsReversed(t, Vec2i(a, b))) then color else old(image[a, b])
    {
      if Covered(WeightsReversed(t, Vec2i(a, b))) {
        CoveredInBox(t, width, height, Vec2i(a, b));
      }
    }
  }

  /** Column x of the scan: rows lb.y to rt.y, each pixel set when accepted. */
  method FillColumn(t: seq<Vec2i>, image: array2<Color>, color: Color, box: Box, x: int, ghost calls0: seq<Vec2i>)
    returns (ghost calls: seq<Vec2i>)
    requires |t| == 3 && Within(box, image.Length0, image.Length1)
    requires box.lb.x <= x <= box.rt.x && box.lb.y <= box.rt.y + 1
    requires LogUpTo(calls0, t, box, Vec2i(x, box.lb.y))
    modifies image
    ensures forall a, b :: 0 <= a < image.Length0 && 0 <= b < image.Length1 ==>
      image[a, b] == if a == x && box.lb.y <= b <= box.rt.y && Covered(WeightsReversed(t, Vec2i(a, b))) then color else old(image[a, b])
    ensures LogUpTo(calls, t, box, Vec2i(x + 1, box.lb.y))
  {
    calls := calls0;
    var y := box.lb.y;
    while y <= box.rt.y
      invariant box.lb.y <= y <= box.rt.y + 1
      invariant forall a, b :: 0 <= a < image.Length0 && 0 <= b < image.Length1 ==>
        image[a, b] == if a == x && box.lb.y <= b < y && Covered(WeightsReversed(t, Vec2i(a, b))) then color else old(image[a, b])
      invariant LogUpTo(calls, t, box, Vec2i(x, y))
    {
      var p := Vec2i(x, y);
      var bc := WeightsReversed(t, p);
      LogStep(calls, t, box, x, y);
      if !(bc.x < 0.0 || bc.y < 0.0 || bc.z < 0.0) {
        image[x, y] := color;
        calls := calls + [p];
      }
      y := y + 1;
    }
    LogColumn(calls, t, box, x);
  }

  /** A zero-area triangle paints nothing: every call leaves the image as it was
      and makes no `set` call. */
  lemma DegenerateDrawsNothing(t: seq<Vec2i>, width: int, height: int, p: Vec2i)
    requires |t| == 3 && Degenerate(t)
    ensures !Painted(t, width, height, p)
  {
    DegenerateNotCovered(t, p);
  }
}
