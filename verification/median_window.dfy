/** The raw-point window and the per-axis median that smooths it. */
module MedianWindow {
  import opened Geometry
  import opened OrderStats
  import opened Buffers

  /** `FILTER_WINDOW_SIZE`: the window holds at most the last five raw points. */
  const FilterWindowSize: nat := 5

  function Xs(w: seq<Point>): (xs: seq<real>)
    ensures |xs| == |w| && forall i :: 0 <= i < |w| ==> xs[i] == w[i].x
  {
    seq(|w|, i requires 0 <= i < |w| => w[i].x)
  }

  function Ys(w: seq<Point>): (ys: seq<real>)
    ensures |ys| == |w| && forall i :: 0 <= i < |w| ==> ys[i] == w[i].y
  {
    seq(|w|, i requires 0 <= i < |w| => w[i].y)
  }

  /** `raw_points_buffer.append(p)`. */
  function Push(w: seq<Point>, p: Point): (r: seq<Point>)
    requires |w| <= FilterWindowSize
    ensures |r| <= FilterWindowSize && r == Keep(w + [p], FilterWindowSize)
  {
    DequeAppend(w, p, FilterWindowSize)
  }

  /** The smoothed point: the x-median and the y-median of the window, taken
      independently. Each coordinate is some window point's coordinate, with at most
      `n / 2` of the window's values below it and at most `n - n / 2 - 1` above it. */
  function Smoothed(w: seq<Point>): (p: Point)
    requires |w| > 0
    ensures exists i :: 0 <= i < |w| && w[i].x == p.x
    ensures exists j :: 0 <= j < |w| && w[j].y == p.y
    ensures Count(Xs(w), p.x, Below) <= |w| / 2 && Count(Xs(w), p.x, Above) <= |w| - |w| / 2 - 1
    ensures Count(Ys(w), p.y, Below) <= |w| / 2 && Count(Ys(w), p.y, Above) <= |w| - |w| / 2 - 1
  {
    Point(Median(Xs(w)), Median(Ys(w)))
  }

  /** Because the axes are sorted separately, the smoothed point need not be any of the
      window's points. The window is a parameter fixed by the precondition rather than a
      literal in the ensures, so that the verifier does not unfold the sort of each axis
      on the literal. */
  lemma SmoothedIsPerAxis(w: seq<Point>)
    requires w == [Point(1.0, 3.0), Point(2.0, 1.0), Point(3.0, 2.0)]
    ensures Smoothed(w) == Point(2.0, 2.0) && Smoothed(w) !in w
  {
    ExampleXs(w);
    ExampleYs(w);
  }

  lemma ExampleXs(w: seq<Point>)
    requires w == [Point(1.0, 3.0), Point(2.0, 1.0), Point(3.0, 2.0)]
    ensures Median(Xs(w)) == 2.0
  {
    var xs := Xs(w);
    assert xs == [1.0, 2.0, 3.0];
    MedianOfThree(xs);
  }

  lemma ExampleYs(w: seq<Point>)
    requires w == [Point(1.0, 3.0), Point(2.0, 1.0), Point(3.0, 2.0)]
    ensures Median(Ys(w)) == 2.0
  {
    var ys := Ys(w);
    assert ys == [3.0, 1.0, 2.0];
    MedianOfThree(ys);
  }
}
