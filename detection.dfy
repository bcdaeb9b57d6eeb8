/** The candidate filters of `crop_image` (corner markers) and
    `get_small_rectangles` (auxiliary rectangles). Contour extraction and
    `cv2.minAreaRect` are outside the model: each candidate arrives as its
    rectangle and the integer corners `np.int0(cv2.boxPoints(rect))`, and the
    brightness `np.mean(get_statistics(image, corners))` is the value of an
    uninterpreted function of the crop window. */
module Detection {
  import opened Geometry

  /** One contour's `rect = cv2.minAreaRect(c)` and its `box` corners. */
  datatype Candidate = Candidate(rect: Box, corners: Quad)

  /** A bound as Python compares it: `-np.inf`, a finite number, `np.inf`. */
  datatype Limit = NegInf | Finite(value: real) | PosInf

  /** A pair `(lo, hi)` such as `xlim` or `ylim`. */
  datatype Interval = Interval(lo: Limit, hi: Limit)

  /** The default `(-np.inf, np.inf)`. */
  const Unbounded: Interval := Interval(NegInf, PosInf)

  /** `lo < x < hi`, with the infinities compared as Python compares them. */
  predicate Inside(x: real, iv: Interval): (r: bool)
    ensures iv == Unbounded ==> r
    ensures iv.lo == PosInf || iv.hi == NegInf ==> !r
    ensures iv.lo.Finite? && iv.hi.Finite? ==> (r <==> iv.lo.value < x < iv.hi.value)
    ensures iv.lo.Finite? && iv.hi == PosInf ==> (r <==> x > iv.lo.value)
    ensures iv.lo == NegInf && iv.hi.Finite? ==> (r <==> x < iv.hi.value)
  {
    && (match iv.lo case NegInf => true case Finite(v) => x > v case PosInf => false)
    && (match iv.hi case NegInf => false case Finite(v) => x < v case PosInf => true)
  }

  const MarkerMinExtent: real := 40.0
  const MarkerMaxMean: real := 100.0
  const AuxMinExtent: real := 50.0
  const AuxMaxMean: real := 200.0
  /** The margin `get_small_rectangles` adds to both extents of a kept rect. */
  const Margin: real := 15.0

  /** Mean of the near-white mask of a crop, supplied by the caller. */
  type Brightness = Window -> real

  /** The corner-marker test of `crop_image`: both extents above 40 and a
      mean below 100. The brightness is that of the crop `box_to_slice`
      would cut from the same corners. */
  predicate IsMarker(c: Candidate, meanOf: Brightness): (r: bool)
    ensures r == (c.rect.delta.0 > 40.0 && c.rect.delta.1 > 40.0 && meanOf(BoxToSlice(c.corners)) < 100.0)
  {
    StatisticsMatchesSlice(c.corners);
    && c.rect.delta.0 > MarkerMinExtent && c.rect.delta.1 > MarkerMinExtent
    && meanOf(StatisticsWindow(c.corners)) < MarkerMaxMean
  }

  /** The test of `get_small_rectangles`: both extents above 50, a mean below
      200, and `rect[0][1]` strictly inside `ylim` and also inside `xlim`.
      Again the brightness is that of the `box_to_slice` crop. */
  predicate IsAuxiliary(c: Candidate, meanOf: Brightness, xlim: Interval, ylim: Interval): (r: bool)
    ensures r == (&& c.rect.delta.0 > 50.0 && c.rect.delta.1 > 50.0
                  && meanOf(BoxToSlice(c.corners)) < 200.0
                  && Inside(c.rect.center.1, ylim) && Inside(c.rect.center.1, xlim))
  {
    StatisticsMatchesSlice(c.corners);
    && c.rect.delta.0 > AuxMinExtent && c.rect.delta.1 > AuxMinExtent
    && meanOf(StatisticsWindow(c.corners)) < AuxMaxMean
    && Inside(c.rect.center.1, ylim)
    && Inside(c.rect.center.1, xlim)
  }

  /** `rect[1][0] += 15; rect[1][1] += 15` on a fresh copy of the rect: the
      center and angle stay, both extents grow by the same 15. */
  function Inflate(b: Box): (r: Box)
    ensures r.center == b.center && r.angle == b.angle
    ensures r.delta.0 - b.delta.0 == r.delta.1 - b.delta.1 == 15.0
  {
    Box(b.center, (b.delta.0 + Margin, b.delta.1 + Margin), b.angle)
  }

  function MarkerTest(meanOf: Brightness): Candidate -> bool {
    c => IsMarker(c, meanOf)
  }

  function AuxTest(meanOf: Brightness, xlim: Interval, ylim: Interval): Candidate -> bool {
    c => IsAuxiliary(c, meanOf, xlim, ylim)
  }

  function RectOf(c: Candidate): Box { c.rect }

  function InflatedRect(c: Candidate): Box { Inflate(c.rect) }

  /** The list a `for` loop builds by appending `f(x)` for each `x` of `s`
      that passes `p`. */
  function FilterMap<T, U>(s: seq<T>, p: T -> bool, f: T -> U): (r: seq<U>)
    ensures |r| <= |s|
    decreases |s|
  {
    if s == [] then []
    else
      var init := FilterMap(s[..|s| - 1], p, f);
      if p(s[|s| - 1]) then init + [f(s[|s| - 1])] else init
  }

  /** The indices of the elements of `s` that pass `p`, in increasing order. */
  function Kept<T>(s: seq<T>, p: T -> bool): seq<nat>
    decreases |s|
  {
    if s == [] then []
    else
      var init := Kept(s[..|s| - 1], p);
      if p(s[|s| - 1]) then init + [|s| - 1] else init
  }

  /** Kept lists, in increasing order, exactly the indices whose element
      passes the test. */
  lemma {:induction false} KeptExactly<T>(s: seq<T>, p: T -> bool)
    ensures forall t :: 0 <= t < |Kept(s, p)| ==> Kept(s, p)[t] < |s| && p(s[Kept(s, p)[t]])
    ensures forall t, u :: 0 <= t < u < |Kept(s, p)| ==> Kept(s, p)[t] < Kept(s, p)[u]
    ensures forall k :: 0 <= k < |s| && p(s[k]) ==> k in Kept(s, p)
    decreases |s|
  {
    if s != [] {
      var n := |s| - 1;
      KeptExactly(s[..n], p);
      forall t | 0 <= t < |Kept(s[..n], p)|
        ensures s[..n][Kept(s[..n], p)[t]] == s[Kept(s[..n], p)[t]]
      {
      }
    }
  }

  /** The filtered list is the image under `f` of the kept elements, one per
      kept index and in the same order. */
  lemma {:induction false} FilterMapIsKeptImage<T, U>(s: seq<T>, p: T -> bool, f: T -> U)
    ensures |FilterMap(s, p, f)| == |Kept(s, p)|
    ensures forall t :: 0 <= t < |Kept(s, p)| ==>
      Kept(s, p)[t] < |s| && FilterMap(s, p, f)[t] == f(s[Kept(s, p)[t]])
    decreases |s|
  {
    if s != [] {
      var n := |s| - 1;
      FilterMapIsKeptImage(s[..n], p, f);
      KeptExactly(s[..n], p);
      forall t | 0 <= t < |Kept(s[..n], p)|
        ensures s[..n][Kept(s[..n], p)[t]] == s[Kept(s[..n], p)[t]]
      {
      }
    }
  }

  /** One more element of the loop: appended if it passes. */
  lemma FilterMapStep<T, U>(s: seq<T>, i: nat, p: T -> bool, f: T -> U)
    requires i < |s|
    ensures FilterMap(s[..i + 1], p, f)
      == if p(s[i]) then FilterMap(s[..i], p, f) + [f(s[i])] else FilterMap(s[..i], p, f)
  {
    assert s[..i + 1][..i] == s[..i];
  }

  /** `allowed_boxes` of `crop_image`: no more rects than candidates, each
      the rect of a candidate, each with both extents above 40. */
  function Markers(cands: seq<Candidate>, meanOf: Brightness): (r: seq<Box>)
    ensures |r| <= |cands|
    ensures forall b :: b in r ==> b.delta.0 > 40.0 && b.delta.1 > 40.0
    ensures forall b :: b in r ==> exists k :: 0 <= k < |cands| && cands[k].rect == b
  {
    var p := MarkerTest(meanOf);
    KeptExactly(cands, p);
    KeptBound(cands, p);
    FilterMapIsKeptImage(cands, p, RectOf);
    KeptImage(cands, p, RectOf);
    FilterMap(cands, p, RectOf)
  }

  /** `allowed_boxes` of `get_small_rectangles`: no more rects than
      candidates, each with both extents above 50 + 15. */
  function Auxiliaries(cands: seq<Candidate>, meanOf: Brightness, xlim: Interval, ylim: Interval): (r: seq<Box>)
    ensures |r| <= |cands|
    ensures forall b :: b in r ==> b.delta.0 > 65.0 && b.delta.1 > 65.0
  {
    var p := AuxTest(meanOf, xlim, ylim);
    KeptExactly(cands, p);
    KeptBound(cands, p);
    FilterMapIsKeptImage(cands, p, InflatedRect);
    KeptImage(cands, p, InflatedRect);
    FilterMap(cands, p, InflatedRect)
  }

  /** Every element of the filtered list is the image of a passing element. */
  lemma KeptImage<T, U>(s: seq<T>, p: T -> bool, f: T -> U)
    requires |FilterMap(s, p, f)| == |Kept(s, p)|
    requires forall t :: 0 <= t < |Kept(s, p)| ==> Kept(s, p)[t] < |s| && p(s[Kept(s, p)[t]])
    requires forall t :: 0 <= t < |Kept(s, p)| ==>
      Kept(s, p)[t] < |s| && FilterMap(s, p, f)[t] == f(s[Kept(s, p)[t]])
    ensures forall y :: y in FilterMap(s, p, f) ==> exists k :: 0 <= k < |s| && p(s[k]) && y == f(s[k])
  {
    forall y | y in FilterMap(s, p, f)
      ensures exists k :: 0 <= k < |s| && p(s[k]) && y == f(s[k])
    {
      var t :| 0 <= t < |FilterMap(s, p, f)| && FilterMap(s, p, f)[t] == y;
      var k := Kept(s, p)[t];
      assert p(s[k]) && y == f(s[k]);
    }
  }

  /** The filter loop of `crop_image`: size test first, and only then the
      brightness of the crop. */
  method SelectMarkers(cands: seq<Candidate>, meanOf: Brightness) returns (allowed: seq<Box>)
    ensures allowed == Markers(cands, meanOf)
  {
    allowed := [];
    for i := 0 to |cands|
      invariant allowed == FilterMap(cands[..i], MarkerTest(meanOf), RectOf)
    {
      var c := cands[i];
      FilterMapStep(cands, i, MarkerTest(meanOf), RectOf);
      if c.rect.delta.0 > MarkerMinExtent && c.rect.delta.1 > MarkerMinExtent {
        var window := StatisticsWindow(c.corners);
        if meanOf(window) < MarkerMaxMean {
          allowed := allowed + [c.rect];
        }
      }
    }
    assert cands[..|cands|] == cands;
  }

  /** `get_small_rectangles`: the same loop with its own thresholds and
      window, keeping an inflated copy of each accepted rect. */
  method SmallRectangles(cands: seq<Candidate>, meanOf: Brightness, xlim: Interval, ylim: Interval)
    returns (allowed: seq<Box>)
    ensures allowed == Auxiliaries(cands, meanOf, xlim, ylim)
  {
    allowed := [];
    for i := 0 to |cands|
      invariant allowed == FilterMap(cands[..i], AuxTest(meanOf, xlim, ylim), InflatedRect)
    {
      var c := cands[i];
      FilterMapStep(cands, i, AuxTest(meanOf, xlim, ylim), InflatedRect);
      if c.rect.delta.0 > AuxMinExtent && c.rect.delta.1 > AuxMinExtent {
        var window := StatisticsWindow(c.corners);
        if meanOf(window) < AuxMaxMean
          && Inside(c.rect.center.1, ylim) && Inside(c.rect.center.1, xlim)
        {
          allowed := allowed + [Inflate(c.rect)];
        }
      }
    }
    assert cands[..|cands|] == cands;
  }

  /** `CroppedAnswers.get_small_rectangles_positions_bottom`: only `ylim` is
      given, as `(3000, np.inf)`. */
  method SmallRectanglesBottom(cands: seq<Candidate>, meanOf: Brightness) returns (allowed: seq<Box>)
    ensures allowed == Auxiliaries(cands, meanOf, Unbounded, Interval(Finite(3000.0), PosInf))
  {
    allowed := SmallRectangles(cands, meanOf, Unbounded, Interval(Finite(3000.0), PosInf));
  }

  /** `allowed_boxes` of `crop_image` is the order-preserving subsequence of
      the candidates that pass the marker test, their rects unchanged: the
      t-th kept rect is that of the t-th passing candidate, and every passing
      candidate is kept. */
  lemma MarkerSelection(cands: seq<Candidate>, meanOf: Brightness)
    ensures |Markers(cands, meanOf)| == |Kept(cands, MarkerTest(meanOf))| <= |cands|
    ensures forall t :: 0 <= t < |Markers(cands, meanOf)| ==>
      var k := Kept(cands, MarkerTest(meanOf))[t];
      k < |cands| && IsMarker(cands[k], meanOf) && Markers(cands, meanOf)[t] == cands[k].rect
    ensures forall t, u :: 0 <= t < u < |Markers(cands, meanOf)| ==>
      Kept(cands, MarkerTest(meanOf))[t] < Kept(cands, MarkerTest(meanOf))[u]
    ensures forall k :: 0 <= k < |cands| && IsMarker(cands[k], meanOf) ==>
      k in Kept(cands, MarkerTest(meanOf))
  {
    KeptExactly(cands, MarkerTest(meanOf));
    FilterMapIsKeptImage(cands, MarkerTest(meanOf), RectOf);
    KeptBound(cands, MarkerTest(meanOf));
  }

  /** Strictly increasing indices below |s| are at most |s| many. */
  lemma {:induction false} KeptBound<T>(s: seq<T>, p: T -> bool)
    ensures |Kept(s, p)| <= |s|
    decreases |s|
  {
    if s != [] {
      KeptBound(s[..|s| - 1], p);
    }
  }

  /** No marker survives exactly when no candidate passes the marker test. */
  lemma NoMarkers(cands: seq<Candidate>, meanOf: Brightness)
    ensures Markers(cands, meanOf) == [] <==> forall k :: 0 <= k < |cands| ==> !IsMarker(cands[k], meanOf)
  {
    MarkerSelection(cands, meanOf);
    var idx := Kept(cands, MarkerTest(meanOf));
    if Markers(cands, meanOf) != [] {
      assert IsMarker(cands[idx[0]], meanOf);
    }
  }

  /** `get_small_rectangles` keeps, in order, exactly the candidates that
      pass its test, each with center and angle unchanged and both extents
      increased by 15. */
  lemma AuxiliarySelection(cands: seq<Candidate>, meanOf: Brightness, xlim: Interval, ylim: Interval)
    ensures |Auxiliaries(cands, meanOf, xlim, ylim)| == |Kept(cands, AuxTest(meanOf, xlim, ylim))|
    ensures forall t :: 0 <= t < |Auxiliaries(cands, meanOf, xlim, ylim)| ==>
      var k := Kept(cands, AuxTest(meanOf, xlim, ylim))[t];
      var b := Auxiliaries(cands, meanOf, xlim, ylim)[t];
      && k < |cands| && IsAuxiliary(cands[k], meanOf, xlim, ylim)
      && b.center == cands[k].rect.center && b.angle == cands[k].rect.angle
      && b.delta.0 == cands[k].rect.delta.0 + 15.0 && b.delta.1 == cands[k].rect.delta.1 + 15.0
    ensures forall t, u :: 0 <= t < u < |Auxiliaries(cands, meanOf, xlim, ylim)| ==>
      Kept(cands, AuxTest(meanOf, xlim, ylim))[t] < Kept(cands, AuxTest(meanOf, xlim, ylim))[u]
    ensures forall k :: 0 <= k < |cands| && IsAuxiliary(cands[k], meanOf, xlim, ylim) ==>
      k in Kept(cands, AuxTest(meanOf, xlim, ylim))
  {
    KeptExactly(cands, AuxTest(meanOf, xlim, ylim));
    FilterMapIsKeptImage(cands, AuxTest(meanOf, xlim, ylim), InflatedRect);
  }

  /** With the default limits the window test always passes: only size and
      brightness decide. */
  lemma DefaultWindowAdmitsAll(c: Candidate, meanOf: Brightness)
    ensures IsAuxiliary(c, meanOf, Unbounded, Unbounded) <==>
      c.rect.delta.0 > 50.0 && c.rect.delta.1 > 50.0 && meanOf(StatisticsWindow(c.corners)) < 200.0
  {
    assert Inside(c.rect.center.1, Unbounded);
  }

  /** Both windows are tested against `rect[0][1]`: moving a candidate along
      its first center coordinate never changes whether it is kept, whatever
      `xlim` is. */
  lemma WindowIgnoresFirstCoordinate(c: Candidate, x: real, meanOf: Brightness, xlim: Interval, ylim: Interval)
    ensures var moved := Candidate(Box((x, c.rect.center.1), c.rect.delta, c.rect.angle), c.corners);
      IsAuxiliary(moved, meanOf, xlim, ylim) == IsAuxiliary(c, meanOf, xlim, ylim)
  {
  }

  /** Every rect `get_small_rectangles_positions_bottom` returns has its
      second center coordinate above 3000. */
  lemma BottomRectanglesBelowLine(cands: seq<Candidate>, meanOf: Brightness)
    ensures forall b :: b in Auxiliaries(cands, meanOf, Unbounded, Interval(Finite(3000.0), PosInf)) ==>
      b.center.1 > 3000.0
  {
    var ylim := Interval(Finite(3000.0), PosInf);
    AuxiliarySelection(cands, meanOf, Unbounded, ylim);
    forall b | b in Auxiliaries(cands, meanOf, Unbounded, ylim)
      ensures b.center.1 > 3000.0
    {
      var t :| 0 <= t < |Auxiliaries(cands, meanOf, Unbounded, ylim)| && Auxiliaries(cands, meanOf, Unbounded, ylim)[t] == b;
      var k := Kept(cands, AuxTest(meanOf, Unbounded, ylim))[t];
      assert IsAuxiliary(cands[k], meanOf, Unbounded, ylim);
    }
  }
}
