/** The geometric part of `crop_image`: from the surviving marker rects, pick
    four anchors by extremes of `cx + cy` and `cx - cy`, pair their centers
    with the four corners of the destination, and fix the output size. The
    perspective transform, the warp and the resize are outside the model. */
module Rectifier {
  import opened Wrappers
  import opened Builtins
  import opened Geometry
  import opened Detection
  import Calibration

  /** `min()` of an empty `allowed_boxes` raises ValueError. */
  datatype Failure = NoMarkerFound

  /** `nec_boxes`, in its order. */
  datatype Anchors = Anchors(topLeft: Box, bottomRight: Box, bottomLeft: Box, topRight: Box)

  /** The key `lambda x: x[0][0] + x[0][1]` of the first two `min`/`max`
      calls: the sum of the two center coordinates. */
  function SumKey(b: Box): (k: real)
    ensures k == b.center.0 + b.center.1
  {
    b.center.0 + b.center.1
  }

  /** The key `lambda x: x[0][0] - x[0][1]` of the last two calls: the first
      center coordinate minus the second. */
  function DiffKey(b: Box): (k: real)
    ensures k == b.center.0 - b.center.1
  {
    b.center.0 - b.center.1
  }

  /** `x` is what `min(s, key=key)` returns. */
  ghost predicate IsMinPick(s: seq<Box>, x: Box, key: Box -> real) {
    exists k :: IsFirstMin(s, k, key) && s[k] == x
  }

  /** `x` is what `max(s, key=key)` returns. */
  ghost predicate IsMaxPick(s: seq<Box>, x: Box, key: Box -> real) {
    exists k :: IsFirstMax(s, k, key) && s[k] == x
  }

  /** The four `min`/`max` calls of `crop_image`. Each anchor is a member of
      `allowed` with the extreme key, the earliest on ties; fewer than four
      markers are not rejected, and an empty list is the only failure. */
  function SelectAnchors(allowed: seq<Box>): (r: Result<Anchors, Failure>)
    ensures r.Failure? <==> allowed == []
    ensures r.Success? ==>
      && IsMinPick(allowed, r.value.topLeft, SumKey)
      && IsMaxPick(allowed, r.value.bottomRight, SumKey)
      && IsMinPick(allowed, r.value.bottomLeft, DiffKey)
      && IsMaxPick(allowed, r.value.topRight, DiffKey)
  {
    if allowed == [] then Failure(NoMarkerFound)
    else
      FirstMinIsFirst(allowed, SumKey);
      FirstMaxIsFirst(allowed, SumKey);
      FirstMinIsFirst(allowed, DiffKey);
      FirstMaxIsFirst(allowed, DiffKey);
      Success(Anchors(allowed[FirstMin(allowed, SumKey)], allowed[FirstMax(allowed, SumKey)],
                      allowed[FirstMin(allowed, DiffKey)], allowed[FirstMax(allowed, DiffKey)]))
  }

  /** Every anchor is a candidate that passed the marker test, extremal on
      its key among all of them. */
  lemma AnchorsAreExtremalMarkers(allowed: seq<Box>)
    requires allowed != []
    ensures var a := SelectAnchors(allowed).value;
      && a.topLeft in allowed && a.bottomRight in allowed
      && a.bottomLeft in allowed && a.topRight in allowed
      && (forall b :: b in allowed ==> SumKey(a.topLeft) <= SumKey(b) <= SumKey(a.bottomRight))
      && (forall b :: b in allowed ==> DiffKey(a.bottomLeft) <= DiffKey(b) <= DiffKey(a.topRight))
  {
    var a := SelectAnchors(allowed).value;
    FirstMinIsFirst(allowed, SumKey);
    FirstMaxIsFirst(allowed, SumKey);
    FirstMinIsFirst(allowed, DiffKey);
    FirstMaxIsFirst(allowed, DiffKey);
    forall b | b in allowed
      ensures SumKey(a.topLeft) <= SumKey(b) <= SumKey(a.bottomRight)
      ensures DiffKey(a.bottomLeft) <= DiffKey(b) <= DiffKey(a.topRight)
    {
      var j :| 0 <= j < |allowed| && allowed[j] == b;
      assert SumKey(allowed[FirstMin(allowed, SumKey)]) <= SumKey(allowed[j]);
      assert SumKey(allowed[j]) <= SumKey(allowed[FirstMax(allowed, SumKey)]);
      assert DiffKey(allowed[FirstMin(allowed, DiffKey)]) <= DiffKey(allowed[j]);
      assert DiffKey(allowed[j]) <= DiffKey(allowed[FirstMax(allowed, DiffKey)]);
    }
  }

  /** With a single marker, all four anchors are that marker. */
  lemma SingleMarkerIsEveryAnchor(b: Box)
    ensures SelectAnchors([b]) == Success(Anchors(b, b, b, b))
  {
  }

  /** On a tie, `min` and `max` both return the earlier rect: two markers on
      the same anti-diagonal give the same top-left and bottom-right anchor. */
  lemma TieGoesToEarliest(first: Box, second: Box)
    requires SumKey(first) == SumKey(second)
    ensures SelectAnchors([first, second]).Success?
    ensures SelectAnchors([first, second]).value.topLeft == first
    ensures SelectAnchors([first, second]).value.bottomRight == first
  {
    var s := [first, second];
    FirstMinIsFirst(s, SumKey);
    FirstMaxIsFirst(s, SumKey);
  }

  /** `image.shape` of a color image. */
  datatype Shape = Shape(rows: nat, cols: nat, channels: nat)

  /** `large = sorted(image.shape)[-1]`, `small = sorted(image.shape)[-2]`:
      `large` is the largest entry of the shape and `small` the next one: the
      three entries in ascending order are some `lo`, `small`, `large`. */
  function Sides(shape: Shape): (r: (nat, nat))
    ensures var (large, small) := r;
      && small <= large
      && multiset{large, small} <= multiset{shape.rows, shape.cols, shape.channels}
      && large in [shape.rows, shape.cols, shape.channels]
      && small in [shape.rows, shape.cols, shape.channels]
      && shape.rows <= large && shape.cols <= large && shape.channels <= large
    ensures var (large, small) := r;
      exists lo :: lo <= small && IsOrdering(lo, small, large, shape.rows, shape.cols, shape.channels)
  {
    var sorted := SortBy([shape.rows, shape.cols, shape.channels], n => n);
    SortedSides(shape);
    assert IsOrdering(sorted[0], sorted[1], sorted[2], shape.rows, shape.cols, shape.channels);
    (sorted[2], sorted[1])
  }

  /** The contract of `Sides` leaves no choice: any pair meeting it is the
      pair `Sides` returns. */
  lemma SidesDetermined(shape: Shape, large: int, small: int, lo: int)
    requires lo <= small <= large
    requires IsOrdering(lo, small, large, shape.rows, shape.cols, shape.channels)
    ensures Sides(shape) == (large, small)
  {
    var (l, m) := Sides(shape);
    var lo' :| lo' <= m && IsOrdering(lo', m, l, shape.rows, shape.cols, shape.channels);
    assert l <= large && large <= l;
  }

  /** For an image with more rows and columns than channels, `large` and
      `small` are its longer and its shorter side. */
  lemma SidesOfImage(shape: Shape)
    requires shape.channels <= shape.rows && shape.channels <= shape.cols
    ensures Sides(shape).0 == (if shape.rows < shape.cols then shape.cols else shape.rows)
    ensures Sides(shape).1 == (if shape.rows < shape.cols then shape.rows else shape.cols)
  {
    SortedSides(shape);
  }

  /** The sorted shape is an ascending ordering of its three entries. */
  lemma SortedSides(shape: Shape)
    ensures var sorted := SortBy([shape.rows, shape.cols, shape.channels], n => n);
      && sorted[0] <= sorted[1] <= sorted[2]
      && IsOrdering(sorted[0], sorted[1], sorted[2], shape.rows, shape.cols, shape.channels)
  {
    var dims := [shape.rows, shape.cols, shape.channels];
    var sorted := SortBy(dims, n => n);
    SortBySorted(dims, n => n);
    assert sorted[0] <= sorted[1] by { assert SortedBy(sorted, n => n); }
    assert sorted[1] <= sorted[2] by { assert SortedBy(sorted, n => n); }
    assert sorted == [sorted[0], sorted[1], sorted[2]];
    assert multiset{sorted[0], sorted[1], sorted[2]} == multiset(dims) by {
      assert multiset(sorted) == multiset(dims);
    }
    SortedTriple(sorted[0], sorted[1], sorted[2], shape.rows, shape.cols, shape.channels);
  }

  /** `(x, y, z)` is `(a, b, c)` in some order. */
  predicate IsOrdering(x: int, y: int, z: int, a: int, b: int, c: int) {
    || (x == a && ((y == b && z == c) || (y == c && z == b)))
    || (x == b && ((y == a && z == c) || (y == c && z == a)))
    || (x == c && ((y == a && z == b) || (y == b && z == a)))
  }

  /** An ascending triple holding the same values as `(a, b, c)` is one of
      its orderings. */
  lemma SortedTriple(x: int, y: int, z: int, a: int, b: int, c: int)
    requires multiset{x, y, z} == multiset{a, b, c}
    ensures IsOrdering(x, y, z, a, b, c)
  {
    assert x in multiset{a, b, c};
    if x == a {
      RemoveFirst(x, y, z, a, b, c);
      SamePair(y, z, b, c);
    } else if x == b {
      RemoveFirst(x, y, z, b, a, c);
      SamePair(y, z, a, c);
    } else {
      RemoveFirst(x, y, z, c, a, b);
      SamePair(y, z, a, b);
    }
  }

  lemma RemoveFirst(x: int, y: int, z: int, a: int, b: int, c: int)
    requires x == a && multiset{x, y, z} == multiset{a, b, c}
    ensures multiset{y, z} == multiset{b, c}
  {
    assert multiset{x, y, z} == multiset{x} + multiset{y, z};
    assert multiset{a, b, c} == multiset{a} + multiset{b, c};
  }

  lemma SamePair(y: int, z: int, b: int, c: int)
    requires multiset{y, z} == multiset{b, c}
    ensures (y == b && z == c) || (y == c && z == b)
  {
    assert y in multiset{b, c};
    if y == b {
      assert multiset{y, z} == multiset{y} + multiset{z};
      assert multiset{b, c} == multiset{b} + multiset{c};
      assert multiset{z} == multiset{c};
      assert z in multiset{c};
    } else {
      assert multiset{y, z} == multiset{y} + multiset{z};
      assert multiset{b, c} == multiset{c} + multiset{b};
      assert multiset{z} == multiset{b};
      assert z in multiset{b};
    }
  }

  /** `pts2`: the destination corners `(0, 0), (large, small), (0, small),
      (large, 0)`. Each anchor is sent to the destination corner that is
      extremal on the same key: the least `x + y`, the greatest `x + y`, the
      least `x - y`, the greatest `x - y`. */
  function Destinations(large: nat, small: nat): (d: seq<(int, int)>)
    ensures |d| == 4
    ensures forall c :: c in d ==>
      && d[0].0 + d[0].1 <= c.0 + c.1 <= d[1].0 + d[1].1
      && d[2].0 - d[2].1 <= c.0 - c.1 <= d[3].0 - d[3].1
  {
    [(0, 0), (large, small), (0, small), (large, 0)]
  }

  /** What `crop_image` hands to the perspective transform and the resize:
      the anchor centers paired with the destination corners, the warp size
      `(large, small)` and the final size `(WIDTH, HEIGHT)`. */
  datatype Rectification = Rectification(
    pairs: seq<((real, real), (int, int))>,
    warpSize: (int, int),
    size: (int, int))

  /** `crop_image` from the candidates on: filter, pick anchors, pair. */
  method CropImage(cands: seq<Candidate>, meanOf: Brightness, shape: Shape)
    returns (r: Result<Rectification, Failure>)
    ensures r.Failure? <==> forall k :: 0 <= k < |cands| ==> !IsMarker(cands[k], meanOf)
    ensures r.Success? ==>
      var anchors := SelectAnchors(Markers(cands, meanOf));
      && anchors.Success?
      && r.value.pairs == [(anchors.value.topLeft.center, Destinations(Sides(shape).0, Sides(shape).1)[0]),
                           (anchors.value.bottomRight.center, Destinations(Sides(shape).0, Sides(shape).1)[1]),
                           (anchors.value.bottomLeft.center, Destinations(Sides(shape).0, Sides(shape).1)[2]),
                           (anchors.value.topRight.center, Destinations(Sides(shape).0, Sides(shape).1)[3])]
      && r.value.warpSize == Sides(shape)
      && r.value.size == (Calibration.Width, Calibration.Height)
  {
    var allowed := SelectMarkers(cands, meanOf);
    NoMarkers(cands, meanOf);
    var anchors := SelectAnchors(allowed);
    if anchors.Failure? {
      return Failure(anchors.error);
    }
    var (large, small) := Sides(shape);
    var a := anchors.value;
    var dst := Destinations(large, small);
    var pairs := [(a.topLeft.center, dst[0]), (a.bottomRight.center, dst[1]),
                  (a.bottomLeft.center, dst[2]), (a.topRight.center, dst[3])];
    r := Success(Rectification(pairs, (large, small), (Calibration.Width, Calibration.Height)));
  }
}
