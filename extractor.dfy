/** `CroppedAnswers.get_rectangles_array`: one patch per answer cell, cut
    from the rectified sheet in the order of the calibration dict. Pixels
    are outside the model; a patch is the window it is cut through and the
    side it is resized to, if any. */
module Extractor {
  import opened Wrappers
  import opened Geometry
  import Dicts
  import Calibration

  /** `img[box_to_slice(box)]`, resized to `side` x `side` when `side` is
      given. */
  datatype Patch = Patch(window: Window, side: Option<nat>)

  /** `corners` stands for `np.int0(cv2.boxPoints(box))`. The loop runs over
      `RECTANGLES_POSITIONS_MIDDLE.values()`, so patch `k` belongs to the
      `k`-th key of the dict: 240 patches, row `k / 12` and column `k % 12`
      of the grid. */
  method GetRectanglesArray(corners: Box -> Quad, resize: Option<nat>)
    returns (patches: seq<Patch>)
    ensures |patches| == |Calibration.PositionsMiddle().m| == 240
    ensures forall k :: 0 <= k < |patches| ==>
      var key := Calibration.PositionsMiddle().order[k];
      && key in Calibration.PositionsMiddle().m
      && patches[k] == Patch(BoxToSlice(corners(Calibration.PositionsMiddle().m[key])), resize)
    ensures forall k :: 0 <= k < |patches| ==>
      patches[k] == Patch(BoxToSlice(corners(Calibration.Cell(k / 12, k % 12))), resize)
  {
    var boxes := Dicts.Values(Calibration.PositionsMiddle());
    patches := CutPatches(boxes, corners, resize);
    PatchesFollowKeys(boxes, corners, resize, patches);
    PatchesFollowCells(boxes, corners, resize, patches);
  }

  /** Patch `k` of the values is cut through the box of the `k`-th key. */
  lemma PatchesFollowKeys(boxes: seq<Box>, corners: Box -> Quad, resize: Option<nat>, patches: seq<Patch>)
    requires boxes == Dicts.Values(Calibration.PositionsMiddle())
    requires |patches| == |boxes|
    requires forall k :: 0 <= k < |boxes| ==> patches[k] == Patch(BoxToSlice(corners(boxes[k])), resize)
    ensures |patches| == |Calibration.PositionsMiddle().m| == 240
    ensures forall k :: 0 <= k < |patches| ==>
      var key := Calibration.PositionsMiddle().order[k];
      && key in Calibration.PositionsMiddle().m
      && patches[k] == Patch(BoxToSlice(corners(Calibration.PositionsMiddle().m[key])), resize)
  {
    Calibration.PositionsMiddleOrder();
    var d := Calibration.PositionsMiddle();
    forall k | 0 <= k < |patches|
      ensures d.order[k] in d.m && patches[k] == Patch(BoxToSlice(corners(d.m[d.order[k]])), resize)
    {
      assert boxes[k] == d.m[d.order[k]];
    }
  }

  /** Patch `k` of the values is cut through the box of grid cell
      `(k / 12, k % 12)`. */
  lemma PatchesFollowCells(boxes: seq<Box>, corners: Box -> Quad, resize: Option<nat>, patches: seq<Patch>)
    requires boxes == Dicts.Values(Calibration.PositionsMiddle())
    requires |patches| == |boxes|
    requires forall k :: 0 <= k < |boxes| ==> patches[k] == Patch(BoxToSlice(corners(boxes[k])), resize)
    ensures forall k :: 0 <= k < |patches| ==>
      patches[k] == Patch(BoxToSlice(corners(Calibration.Cell(k / 12, k % 12))), resize)
  {
    Calibration.PositionsMiddleValues();
    forall k | 0 <= k < |patches|
      ensures patches[k] == Patch(BoxToSlice(corners(Calibration.Cell(k / 12, k % 12))), resize)
    {
      assert boxes[k] == Calibration.Cell(k / 12, k % 12);
    }
  }

  /** The loop of `get_rectangles_array`: one patch per box, in order. */
  method CutPatches(boxes: seq<Box>, corners: Box -> Quad, resize: Option<nat>)
    returns (patches: seq<Patch>)
    ensures |patches| == |boxes|
    ensures forall k :: 0 <= k < |boxes| ==> patches[k] == Patch(BoxToSlice(corners(boxes[k])), resize)
  {
    patches := [];
    for n := 0 to |boxes|
      invariant |patches| == n
      invariant forall k :: 0 <= k < n ==> patches[k] == Patch(BoxToSlice(corners(boxes[k])), resize)
    {
      patches := patches + [Patch(BoxToSlice(corners(boxes[n])), resize)];
    }
  }

  /** Where the patch of answer `(q, l)` sits in the array. */
  function PatchIndex(q: int, l: char): (n: nat)
    requires 1 <= q <= 40 && l in Calibration.Labels
    ensures n < 240 == |Calibration.PositionsMiddle().order|
    ensures Calibration.PositionsMiddle().order[n] == (q, l)
  {
    var c := Calibration.Unfold((q, l));
    Calibration.FoldUnfold((q, l));
    Calibration.PositionsMiddleKeyAt(c.0, c.1);
    12 * c.0 + c.1
  }

  /** The patch at `PatchIndex(q, l)` is the only one that belongs to answer
      `(q, l)`. */
  lemma PatchIndexUnique(q: int, l: char)
    requires 1 <= q <= 40 && l in Calibration.Labels
    ensures forall k :: 0 <= k < |Calibration.PositionsMiddle().order| ==>
      (Calibration.PositionsMiddle().order[k] == (q, l) <==> k == PatchIndex(q, l))
  {
    var n := PatchIndex(q, l);
    Calibration.PositionsMiddleOrder();
    forall k | 0 <= k < |Calibration.PositionsMiddle().order| && Calibration.PositionsMiddle().order[k] == (q, l)
      ensures k == n
    {
      Calibration.FoldInjective(k / 12, k % 12, n / 12, n % 12);
    }
  }

  /** The patch of answer `(q, l)` is cut through that answer's box in the
      dict. */
  lemma PatchOfAnswer(corners: Box -> Quad, resize: Option<nat>, patches: seq<Patch>, q: int, l: char)
    requires 1 <= q <= 40 && l in Calibration.Labels
    requires |patches| == 240
    requires forall k :: 0 <= k < |patches| ==>
      patches[k] == Patch(BoxToSlice(corners(Calibration.Cell(k / 12, k % 12))), resize)
    ensures (q, l) in Calibration.PositionsMiddle().m
    ensures patches[PatchIndex(q, l)] ==
      Patch(BoxToSlice(corners(Calibration.PositionsMiddle().m[(q, l)])), resize)
  {
    var n := PatchIndex(q, l);
    Calibration.PositionsMiddleLookup(q, l);
    var (i, j) := Calibration.Unfold((q, l));
    assert n / 12 == i && n % 12 == j;
  }
}
