# Answer-sheet geometry of femida_detect

`femida_detect/imgparse.py` turns a photograph of a printed multiple-choice
answer sheet into 240 image patches, one per answer cell, for a classifier.
It does this in three steps:

1. Rectification (`crop_image`). Dark corner markers are found among the
   contour rectangles. Four of them are taken as anchors. The sheet is warped
   into a canonical 3000-pixel-wide frame.
2. Calibration. A fixed table places the 240 cells of the canonical sheet. It
   folds a 20 x 12 grid of cells onto 40 questions with labels A to F.
3. Extraction (`get_rectangles_array`). One patch is cut per table entry, in
   table order.

This project models the logic of those steps that is not OpenCV, and proves
what it promises. Modules:

- `Calibration`: the edge vectors and the grid table. It proves the fold is
  a bijection onto questions x labels, that the table has 240 entries in
  row-major order, and the geometry of each entry's box.
- `Geometry`: `box_to_slice` and the sorting crop of `get_statistics`. Both
  compute the extremes of the four corner points, and they yield the same
  window.
- `Detection`: the candidate loops of `crop_image` and `get_small_rectangles`.
  Each keeps, in order, exactly the candidates that pass its test.
- `Rectifier`: anchor selection by `min`/`max` of `cx + cy` and `cx - cy`,
  the sides `sorted(image.shape)[-1]` and `[-2]`, and the pairing with the
  destination corners.
- `Extractor`: the patch loop, with 240 patches in dict order. Each answer
  has exactly one patch.
- `Builtins` and `Dicts`: Python's `min`/`max` with `key=`, `sorted`, and an
  insertion-ordered `dict`, as far as the code above relies on them.
- `Wrappers`: `Option` and `Result`.

OpenCV results enter the model as inputs:

- each contour arrives as a `Detection.Candidate`, holding its
  `cv2.minAreaRect` rectangle and the integer corners
  `np.int0(cv2.boxPoints(rect))`;
- `np.mean(get_statistics(image, box))` is an uninterpreted function of the
  crop window (`Detection.Brightness`);
- `get_rectangles_array` receives the corner function `np.int0(cv2.boxPoints(.))`
  as a parameter.

Coordinates are exact reals, not IEEE doubles.

Two facts about the code that a reader might not expect:

- `HEIGHT = int(WIDTH * 578 / 403)` truncates to 4302; rounding would give
  4303 (`Calibration.HeightValue`).
- The second delta component of every calibration box is `left - right`,
  which is negative (`Calibration.Cell`).

## Model

| member | source | states |
|---|---|---|
| Calibration.Shift | femida_detect/imgparse.py:17-26 | definition of numpy's array-plus-scalar: `BORDER_RIGHT` is `BORDER_LEFT` with the cell width added to every edge, `BORDER_BOTTOM` is `BORDER_TOP` with the cell height added, the length kept |
| Calibration.Questions | femida_detect/imgparse.py:29 | definition of `QUESTIONS = tuple(range(1, 41))`: 40 entries, entry k being k + 1 |
| Calibration.HeightValue | femida_detect/imgparse.py:30-31 | `HEIGHT` is 4302, the quotient 3000 * 578 / 403 truncated: 403 * HEIGHT <= 1734000 < 403 * (HEIGHT + 1) |
| Calibration.GridShape | femida_detect/imgparse.py:12-31 | the grid is 20 rows by 12 columns, with 40 questions and 6 labels |
| Calibration.Fold | femida_detect/imgparse.py:54-56 | for every cell (i, j) of the grid, the `QUESTIONS` and `LABELS` lookups are in range, the question lies in 1..40 and the label is one of A..F |
| Calibration.Cell | femida_detect/imgparse.py:47-50 | every box has angle 0 and the same delta, (cell height, minus cell width), whose second component is negative |
| Calibration.Entry | femida_detect/imgparse.py:55-57 | the key of every entry is a (question, label) pair of the sheet: question in 1..40, label in A..F |
| Calibration.CellCentered | femida_detect/imgparse.py:47-49 | every box's center lies strictly inside its cell, halfway between opposite edges, at half the delta from each |
| Calibration.Positions | femida_detect/imgparse.py:45-59 | the table has 20 * 12 = 240 entries |
| Calibration.PositionsRowMajor | femida_detect/imgparse.py:54-58 | cell (i, j) sits at place 12 i + j of the table, the row-major order of `itertools.product` |
| Calibration.PositionsPrefixStep | femida_detect/imgparse.py:57-58 | appending cell (i, j) to the first 12 i + j entries of the table gives its first 12 i + j + 1 |
| Calibration.PositionsMiddle | femida_detect/imgparse.py:62 | `dict(...)` of the table holds 240 keys, one per table entry, since the table's keys are distinct |
| Calibration.BuildPositions | femida_detect/imgparse.py:53-59 | the two nested product loops that append one entry per cell build exactly the table |
| Calibration.IndexOf | femida_detect/imgparse.py:28 | the position of a label in `LABELS`: it is in range and holds that label |
| Calibration.QuestionsRange | femida_detect/imgparse.py:29 | a value is among `QUESTIONS` exactly when it lies in 1..40 |
| Calibration.Unfold | femida_detect/imgparse.py:54-56 | every key (question in 1..40, label in A..F) maps back to a cell inside the grid |
| Calibration.LabelsDistinct | femida_detect/imgparse.py:28 | the six labels are distinct |
| Calibration.FoldUnfold | femida_detect/imgparse.py:54-56 | every (question, label) pair is the fold of the cell it unfolds to, so the fold is onto questions x labels |
| Calibration.FoldInjective | femida_detect/imgparse.py:54-56 | different cells fold onto different keys |
| Calibration.UnfoldFold | femida_detect/imgparse.py:54-56 | unfolding a cell's key gives back that cell |
| Calibration.PositionsDistinct | femida_detect/imgparse.py:53-59 | the 240 entries have pairwise distinct keys |
| Calibration.PositionsAt | femida_detect/imgparse.py:54-58 | place k of the table holds cell (k / 12, k % 12) |
| Calibration.PositionsMiddleKeyOrder | femida_detect/imgparse.py:62 | the dict is well formed, holds one key per table entry, and lists the keys in the table's order |
| Calibration.PositionsMiddleValid | femida_detect/imgparse.py:62 | the dict lists every key once, and lists exactly its keys |
| Calibration.PositionsMiddleOrder | femida_detect/imgparse.py:62 | the dict has 240 keys, and its k-th key is the fold of cell (k / 12, k % 12) |
| Calibration.PositionsMiddleKeyAt | femida_detect/imgparse.py:62 | the key of cell (i, j) is at place 12 i + j of the dict order |
| Calibration.PositionsMiddleEntries | femida_detect/imgparse.py:62 | `values()` yields the table's boxes in the table's order |
| Calibration.PositionsMiddleValues | femida_detect/imgparse.py:62 | `values()` yields 240 boxes, the k-th being the box of cell (k / 12, k % 12) |
| Calibration.PositionsMiddleLookup | femida_detect/imgparse.py:62 | every (question, label) pair is a key, and it maps to the box of the cell it unfolds to |
| Calibration.FoldIsAnswer | femida_detect/imgparse.py:54-56 | every cell folds onto a (question, label) pair of the sheet |
| Calibration.KeysAreAnswers | femida_detect/imgparse.py:62 | every key of the dict is a (question, label) pair of the sheet |
| Calibration.KeyAtIsAnswer | femida_detect/imgparse.py:62 | the key at every place of the dict order is a (question, label) pair of the sheet |
| Calibration.AnswersAreKeys | femida_detect/imgparse.py:62 | every (question, label) pair of the sheet is a key of the dict |
| Calibration.PositionsMiddleKeys | femida_detect/imgparse.py:62 | the keys are exactly questions x labels, 240 of them |
| Builtins.FirstMinIsFirst | femida_detect/imgparse.py:38-42 | `min(s, key=...)` on a non-empty list returns an element with the least key, and no earlier element has a key as small |
| Builtins.FirstMin | femida_detect/imgparse.py:38-41 | on a non-empty list, `min(s, key=...)` picks an element of the list (an index in range); which one is `FirstMinIsFirst` |
| Builtins.FirstMax | femida_detect/imgparse.py:38-41 | on a non-empty list, `max(s, key=...)` picks an element of the list; which one is `FirstMaxIsFirst` |
| Builtins.FirstMaxIsFirst | femida_detect/imgparse.py:38-42 | `max(s, key=...)` on a non-empty list returns an element with the greatest key, and no earlier element has a key as large |
| Builtins.FirstMinDetermined | femida_detect/imgparse.py:38-42 | any index meeting the first-minimum contract is the one `min` returns, so ties are resolved one way only |
| Builtins.FirstMaxDetermined | femida_detect/imgparse.py:38-42 | any index meeting the first-maximum contract is the one `max` returns |
| Builtins.Insert | femida_detect/imgparse.py:68-74 | one insertion step of `sorted` adds exactly one element; order and contents are `InsertSorted` |
| Builtins.InsertSorted | femida_detect/imgparse.py:68 | one step of `sorted`: inserting into a sorted list gives a sorted list whose elements are the old ones plus the new one |
| Builtins.SortBy | femida_detect/imgparse.py:68-74 | `sorted(s, key=...)` has as many elements as `s` |
| Builtins.SortBySorted | femida_detect/imgparse.py:68-74 | `sorted(s, key=...)` is sorted by the key and is a permutation of `s` |
| Dicts.Put | femida_detect/imgparse.py:62 | `d[k] = v` keeps the dict well formed; afterwards `k` maps to `v`, every other key keeps its value, and the order gains `k` at the end exactly when `k` was new |
| Dicts.FromPairs | femida_detect/imgparse.py:62 | `dict(pairs)` is well formed |
| Dicts.Values | femida_detect/imgparse.py:201 | definition of `values()`: one value per key, the k-th value belonging to the k-th inserted key (the length follows from well-formedness) |
| Dicts.KeysOf | femida_detect/imgparse.py:62 | definition: the keys of the pairs, in order |
| Dicts.FromDistinctPairsOrder | femida_detect/imgparse.py:62 | built from pairs with distinct keys, the dict lists the keys in the order of the pairs and holds one entry per pair |
| Dicts.FromDistinctPairsLookup | femida_detect/imgparse.py:62 | built from pairs with distinct keys, the dict maps each key to the value it was paired with |
| Dicts.ValuesOfDistinctPairs | femida_detect/imgparse.py:198-206 | built from pairs with distinct keys, `values()` is the pairs' values in the order of the pairs |
| Geometry.Coordinates | femida_detect/imgparse.py:38-42 | definition: one coordinate of each point, in order |
| Geometry.PickedExtremes | femida_detect/imgparse.py:38-42 | the points picked by `min` and `max` on a coordinate carry the least and greatest value of that coordinate |
| Geometry.SortedExtremes | femida_detect/imgparse.py:68-74 | the ends of a sorted rearrangement of the points carry the least and greatest value of the sort coordinate |
| Geometry.BoxToSlice | femida_detect/imgparse.py:35-42 | `min`/`max` of the four corners under the keys `lambda x: x[0]` and `lambda x: x[1]` (`XKey`, `YKey`): the row slice runs from the least to the greatest y and the column slice from the least to the greatest x, each with start <= stop |
| Geometry.StatisticsWindow | femida_detect/imgparse.py:65-74 | the crop of `get_statistics`, found by sorting by `lambda x: x[0]` and then by `lambda x: x[1]` (`XOrder`, `YOrder`): the same extremes, each with start <= stop |
| Geometry.StatisticsMatchesSlice | femida_detect/imgparse.py:65-75 | `get_statistics` crops exactly the window `box_to_slice` returns for the same corners |
| Detection.KeptExactly | femida_detect/imgparse.py:95-104 | the indices a filter loop keeps are strictly increasing, each passes the test, and each passing index is kept |
| Detection.Inside | femida_detect/imgparse.py:143-145 | definition of `lo < rect[0][1] < hi` with `lo`, `hi` possibly infinite: the default `(-inf, inf)` admits every value, a lower bound of `inf` or an upper bound of `-inf` admits none, finite bounds admit exactly the open interval, and a finite bound with an infinite one, such as `(3000, inf)`, admits exactly the values beyond the finite bound |
| Detection.FilterMap | femida_detect/imgparse.py:94-104 | the list an append-if loop builds (the `allowed_boxes` of `crop_image` and of `get_small_rectangles`, :133-150): never longer than its input |
| Detection.FilterMapIsKeptImage | femida_detect/imgparse.py:133-150 | the list a filter loop appends to is the image of the kept elements, in order |
| Detection.FilterMapStep | femida_detect/imgparse.py:133-150 | one more loop step appends the element's image exactly when it passes |
| Detection.KeptBound | femida_detect/imgparse.py:95-104 | a filter loop keeps no more elements than it sees |
| Detection.KeptImage | femida_detect/imgparse.py:95-104 | every element of a filtered list is the image of some element that passes the test |
| Detection.IsMarker | femida_detect/imgparse.py:101-103 | a candidate is a marker exactly when both extents exceed 40 and the mean over the `box_to_slice` window of its corners is below 100 |
| Detection.IsAuxiliary | femida_detect/imgparse.py:139-146 | a candidate is kept exactly when both extents exceed 50, the mean over the `box_to_slice` window is below 200, and `rect[0][1]` lies strictly inside `ylim` and strictly inside `xlim` |
| Detection.Inflate | femida_detect/imgparse.py:147-149 | definition of the `listit` copy with `+= 15`: center and angle kept, both extents grown by 15 |
| Detection.Markers | femida_detect/imgparse.py:94-104 | `allowed_boxes` has at most one rect per candidate; each is the rect of some candidate and has both extents above 40 |
| Detection.Auxiliaries | femida_detect/imgparse.py:133-152 | at most one rect per candidate, each with both extents above 65 (50 plus the margin of 15) |
| Detection.SelectMarkers | femida_detect/imgparse.py:94-104 | the loop of `crop_image`, which tests the size before the crop's brightness, builds exactly the marker subsequence |
| Detection.SmallRectangles | femida_detect/imgparse.py:133-152 | the loop of `get_small_rectangles` builds exactly the subsequence of inflated, accepted rects |
| Detection.SmallRectanglesBottom | femida_detect/imgparse.py:183-188 | `get_small_rectangles_positions_bottom` is `get_small_rectangles` with `ylim = (3000, inf)` |
| Detection.MarkerSelection | femida_detect/imgparse.py:95-104 | `allowed_boxes` is the order-preserving subsequence of the candidates with both extents > 40 and mean < 100, their rects unchanged, and every such candidate is kept |
| Detection.NoMarkers | femida_detect/imgparse.py:95-106 | `allowed_boxes` is empty exactly when no candidate passes the marker test |
| Detection.AuxiliarySelection | femida_detect/imgparse.py:134-150 | the kept rects are, in order, those of exactly the candidates with both extents > 50, mean < 200 and `rect[0][1]` strictly inside `ylim` and `xlim`; each has both extents increased by 15, with center and angle unchanged |
| Detection.DefaultWindowAdmitsAll | femida_detect/imgparse.py:123-146 | with the default infinite limits, only size and brightness decide |
| Detection.WindowIgnoresFirstCoordinate | femida_detect/imgparse.py:143-145 | both window tests read `rect[0][1]`, so changing `rect[0][0]` never changes whether a candidate is kept, whatever `xlim` is |
| Detection.BottomRectanglesBelowLine | femida_detect/imgparse.py:183-188 | every rect of the bottom variant has `rect[0][1] > 3000` |
| Rectifier.SelectAnchors | femida_detect/imgparse.py:106-109 | an empty `allowed_boxes` is the only failure; otherwise each anchor is the earliest member with the least or greatest `cx + cy` or `cx - cy` |
| Rectifier.SumKey | femida_detect/imgparse.py:106-107 | definition of the key `x[0][0] + x[0][1]` that picks the first two anchors |
| Rectifier.DiffKey | femida_detect/imgparse.py:108-109 | definition of the key `x[0][0] - x[0][1]` that picks the last two anchors |
| Rectifier.AnchorsAreExtremalMarkers | femida_detect/imgparse.py:106-109 | the anchors are members of `allowed_boxes`, and every member's keys lie between those of the anchors |
| Rectifier.TieGoesToEarliest | femida_detect/imgparse.py:106-107 | on a tie of `cx + cy`, both `min` and `max` choose the earlier rect |
| Rectifier.SingleMarkerIsEveryAnchor | femida_detect/imgparse.py:106-109 | fewer than four markers are not rejected: a single marker is all four anchors |
| Rectifier.Sides | femida_detect/imgparse.py:111-112 | `small <= large`; `large` and `small` are two of the three entries of `image.shape`, and `large` is at least every entry; the three entries in ascending order are some `lo`, then `small`, then `large`, so `small` is `sorted(image.shape)[-2]` |
| Rectifier.SidesDetermined | femida_detect/imgparse.py:111-112 | any pair `(large, small)` that, with some `lo`, orders the shape's entries ascending as `lo, small, large` is the pair `Sides` returns, so its contract fixes `small` |
| Rectifier.SidesOfImage | femida_detect/imgparse.py:111-112 | when the channel count is at most both sides, `large` and `small` are the longer and the shorter side of the image |
| Rectifier.SortedSides | femida_detect/imgparse.py:111-112 | `sorted(image.shape)` is ascending and is an ordering of the shape's three entries |
| Rectifier.Destinations | femida_detect/imgparse.py:114 | four destination corners; for non-negative sides the first and second have the least and greatest `x + y`, the third and fourth the least and greatest `x - y`, the same keys and order as the anchors |
| Rectifier.CropImage | femida_detect/imgparse.py:94-119 | fails exactly when no candidate is a marker; otherwise it pairs the four anchors' centers with `(0,0), (large,small), (0,small), (large,0)` in order, warps to `(large, small)` and resizes to `(3000, 4302)` |
| Extractor.GetRectanglesArray | femida_detect/imgparse.py:198-206 | 240 patches, the k-th cut through `box_to_slice` of the box of the dict's k-th key, i.e. of grid cell (k / 12, k % 12), with the requested resize |
| Extractor.CutPatches | femida_detect/imgparse.py:201-206 | the loop appends one patch per box, in order |
| Extractor.PatchesFollowKeys | femida_detect/imgparse.py:201-206 | patch k of the dict's values is cut through the box of the k-th key |
| Extractor.PatchesFollowCells | femida_detect/imgparse.py:201-206 | patch k of the dict's values is cut through the box of grid cell (k / 12, k % 12) |
| Extractor.PatchIndex | femida_detect/imgparse.py:198-206 | each key (question, label) has a place below 240 in the dict order |
| Extractor.PatchIndexUnique | femida_detect/imgparse.py:198-206 | that place is the only one holding the key |
| Extractor.PatchOfAnswer | femida_detect/imgparse.py:198-206 | the patch at the key's place is cut through that key's own box |

## Left out

- OpenCV is not modelled:
  - the preprocessing `cvtColor`, `GaussianBlur`, `Canny`, `morphologyEx` and `findContours`;
  - `minAreaRect` and `boxPoints`;
  - the mask `inRange` and its mean;
  - `getPerspectiveTransform`, `warpPerspective` and `resize`;
  - `drawContours`.

  Their results are inputs to the model: the candidates' rectangles and corners, the brightness function and the corner function.
- The homography and the warp are floating-point numerics. `Rectifier.CropImage` stops at the point pairs, the warp size and the final size it hands to them.
- Coordinates are exact reals. The model does not capture rounding in IEEE arithmetic or `np.float32` in `pts1`. The corners are integer inputs, so the truncation that `np.int0` applies to the result of `boxPoints` (lines 37, 98 and 137) happens before the model.
- Pixels are not modelled. A patch is its window and its resize side. Slicing, how numpy treats negative slice bounds, the channel swap, the stack, the transpose and the scaling by 1/255 of `get_rectangles_array` are left out.
- The mean of an empty crop is NaN in numpy, which fails every `<` test. The brightness function of the model returns a real, so the caller has to choose a value for that crop.
- `validate_qr_code` and the `validate_qr` flag of `CroppedAnswers` wrap pyzbar and JSON decoding, outside the sheet geometry.
- `CroppedAnswers.from_file` and `__array__` are file input and a numpy cast. `from_raw` only wraps the modelled `crop_image` in a `CroppedAnswers`; the object itself is not modelled.
- `recognized_rectangles_image` only draws the table boxes onto a copy of the image.
- The `lru_cache` on the table builder only caches. The model builds the table as a value.
- A lookup outside the table would raise `KeyError`. `Extractor.PatchIndex` requires a key of the sheet, and `Calibration.PositionsMiddleKeys` shows that these are all the keys there are.
- Builtins.SortBySorted: states sortedness and permutation, but not that `sorted` is stable. The code reads only the extreme coordinates of the sorted lists, and the extremes do not depend on stability.
- Rectifier.CropImage: `pts1` always has four rows, but they can repeat or be collinear: with a single marker all four are the same point (`Rectifier.SingleMarkerIsEveryAnchor`). `getPerspectiveTransform` then has no proper solution. The code does not check for this, and the model records only the points.
- Extractor.GetRectanglesArray: a resize side of 0 would make `cv2.resize` fail. The model accepts any natural number as the side.
- Extractor.GetRectanglesArray: the side is an `Option<nat>`, so a negative `resize`, which `cv2.resize` would reject, cannot be expressed.
- Extractor.GetRectanglesArray: with `resize=None`, `np.stack` (line 207) can fail, because the windows need not share one shape. The table's `Box` stores its center as `(yc, xc)` and its delta as `(dy, dx)`, which `cv2.boxPoints` reads as `(x, y)` and `(width, height)`; so the windows span about 119.08 rows by 116.13 columns, and at different fractional offsets the truncated corners should give 119 or 120 rows and 116 or 117 columns. This is an inference; the model does not prove it.
- Builtins.FirstMin: the function's own contract only keeps the index in range. That it is the first index with the least key is the lemma `FirstMinIsFirst`, kept apart so that the many callers are not burdened with it.
- Builtins.FirstMax: likewise, the first-maximum property is the lemma `FirstMaxIsFirst`.
- Builtins.Insert: the function's contract states only the length; sortedness and contents are the lemma `InsertSorted`.
- Calibration.PositionsMiddle: the function's contract states the size only; that the dict is well formed and keeps the table's order is the lemma `PositionsMiddleKeyOrder`.
- Calibration.Entry: the contract states the key's range; the box is `Calibration.Cell`, whose contract gives its geometry.
