/** Rotated rectangles and the two ways the detection code turns the four
    integer corner points of a rectangle into an axis-aligned crop window:
    `box_to_slice` (by `min`/`max` with a key) and the crop inside
    `get_statistics` (by sorting). The corner points themselves come from
    `cv2.boxPoints` followed by `np.int0`; they are inputs here. */
module Geometry {
  import opened Builtins

  /** An integer corner point `(x, y)`, as `np.int0` leaves it. */
  type Point = (int, int)

  /** The four corner points `cv2.boxPoints` returns, in its order. */
  datatype Quad = Quad(p0: Point, p1: Point, p2: Point, p3: Point) {
    function Points(): seq<Point> { [p0, p1, p2, p3] }
    function Xs(): seq<int> { Coordinates(Points(), XOrder) }
    function Ys(): seq<int> { Coordinates(Points(), YOrder) }
  }

  function XOrder(p: Point): int { p.0 }
  function YOrder(p: Point): int { p.1 }
  function XKey(p: Point): real { p.0 as real }
  function YKey(p: Point): real { p.1 as real }

  /** One coordinate of every point, in order. */
  function Coordinates(pts: seq<Point>, coord: Point -> int): (vs: seq<int>)
    ensures |vs| == |pts|
    ensures forall i :: 0 <= i < |pts| ==> vs[i] == coord(pts[i])
  {
    seq(|pts|, i requires 0 <= i < |pts| => coord(pts[i]))
  }

  /** A rotated rectangle `(center, delta, angle)`: the `Box` named tuple of
      the calibration table, and the `((cx, cy), (w, h), angle)` triple
      `cv2.minAreaRect` returns. */
  datatype Box = Box(center: (real, real), delta: (real, real), angle: real)

  /** Python `slice(start, stop)`. */
  datatype Slice = Slice(start: int, stop: int)

  /** A crop `image[rows, cols]`. */
  datatype Window = Window(rows: Slice, cols: Slice)

  /** `lo` and `hi` are the least and the greatest of `vs`. */
  ghost predicate Extremes(lo: int, hi: int, vs: seq<int>) {
    && lo in vs && hi in vs
    && (forall v :: v in vs ==> lo <= v <= hi)
  }

  /** The extremes of a sequence are determined by it. */
  lemma ExtremesUnique(lo: int, hi: int, lo': int, hi': int, vs: seq<int>)
    requires Extremes(lo, hi, vs) && Extremes(lo', hi', vs)
    ensures lo == lo' && hi == hi'
  {
  }

  /** The elements `min` and `max` pick by one coordinate carry the least
      and the greatest value of that coordinate. */
  lemma PickedExtremes(pts: seq<Point>, lo: nat, hi: nat, coord: Point -> int, key: Point -> real)
    requires forall p :: key(p) == coord(p) as real
    requires IsFirstMin(pts, lo, key) && IsFirstMax(pts, hi, key)
    ensures Extremes(coord(pts[lo]), coord(pts[hi]), Coordinates(pts, coord))
  {
    var vs := Coordinates(pts, coord);
    assert vs[lo] == coord(pts[lo]) && vs[hi] == coord(pts[hi]);
    forall v | v in vs
      ensures coord(pts[lo]) <= v <= coord(pts[hi])
    {
      var i :| 0 <= i < |vs| && vs[i] == v;
      assert key(pts[lo]) <= key(pts[i]) <= key(pts[hi]);
    }
  }

  /** The ends of a sorted rearrangement of the points carry the least and
      the greatest value of the sort key. */
  lemma SortedExtremes(pts: seq<Point>, r: seq<Point>, coord: Point -> int)
    requires |pts| > 0 && multiset(r) == multiset(pts) && SortedBy(r, coord)
    ensures |r| == |pts|
    ensures Extremes(coord(r[0]), coord(r[|r| - 1]), Coordinates(pts, coord))
  {
    assert |r| == |multiset(r)| == |multiset(pts)| == |pts|;
    var vs := Coordinates(pts, coord);
    assert r[0] in multiset(pts) && r[|r| - 1] in multiset(pts);
    var a :| 0 <= a < |pts| && pts[a] == r[0];
    assert vs[a] == coord(r[0]);
    var b :| 0 <= b < |pts| && pts[b] == r[|r| - 1];
    assert vs[b] == coord(r[|r| - 1]);
    forall v | v in vs
      ensures coord(r[0]) <= v <= coord(r[|r| - 1])
    {
      var i :| 0 <= i < |vs| && vs[i] == v;
      assert pts[i] in multiset(r);
      var j :| 0 <= j < |r| && r[j] == pts[i];
      if 0 < j { assert coord(r[0]) <= coord(r[j]); }
      if j < |r| - 1 { assert coord(r[j]) <= coord(r[|r| - 1]); }
    }
  }

  /** `box_to_slice`: the `min` and `max` by x and by y of the four corners.
      The rows run from the least to the greatest y of the corners, the
      columns from the least to the greatest x. */
  function BoxToSlice(q: Quad): (w: Window)
    ensures Extremes(w.rows.start, w.rows.stop, q.Ys())
    ensures Extremes(w.cols.start, w.cols.stop, q.Xs())
    ensures w.rows.start <= w.rows.stop && w.cols.start <= w.cols.stop
  {
    var pts := q.Points();
    var xlo, xhi := FirstMin(pts, XKey), FirstMax(pts, XKey);
    var ylo, yhi := FirstMin(pts, YKey), FirstMax(pts, YKey);
    FirstMinIsFirst(pts, XKey);
    FirstMaxIsFirst(pts, XKey);
    FirstMinIsFirst(pts, YKey);
    FirstMaxIsFirst(pts, YKey);
    PickedExtremes(pts, xlo, xhi, XOrder, XKey);
    PickedExtremes(pts, ylo, yhi, YOrder, YKey);
    Window(Slice(pts[ylo].1, pts[yhi].1), Slice(pts[xlo].0, pts[xhi].0))
  }

  /** The crop `get_statistics` takes, `image[ymin:ymax, ::][:, xmin:xmax]`:
      xmin and xmax are the x of the first and last point after sorting by
      x, ymin and ymax the y of the first and last point after sorting that
      list again by y. These are the least and greatest x and y of the four
      corners. */
  function StatisticsWindow(q: Quad): (w: Window)
    ensures Extremes(w.rows.start, w.rows.stop, q.Ys())
    ensures Extremes(w.cols.start, w.cols.stop, q.Xs())
    ensures w.rows.start <= w.rows.stop && w.cols.start <= w.cols.stop
  {
    var pts := q.Points();
    var byX := SortBy(pts, XOrder);
    var byY := SortBy(byX, YOrder);
    SortBySorted(pts, XOrder);
    SortBySorted(byX, YOrder);
    SortedExtremes(pts, byX, XOrder);
    SortedExtremes(pts, byY, YOrder);
    Window(Slice(byY[0].1, byY[|byY| - 1].1), Slice(byX[0].0, byX[|byX| - 1].0))
  }

  /** `box_to_slice` and `get_statistics` crop the same window out of the
      same four corners, though one takes minima and maxima and the other
      sorts. */
  lemma StatisticsMatchesSlice(q: Quad)
    ensures StatisticsWindow(q) == BoxToSlice(q)
  {
    var s, b := StatisticsWindow(q), BoxToSlice(q);
    ExtremesUnique(s.rows.start, s.rows.stop, b.rows.start, b.rows.stop, q.Ys());
    ExtremesUnique(s.cols.start, s.cols.stop, b.cols.start, b.cols.stop, q.Xs());
  }
}
