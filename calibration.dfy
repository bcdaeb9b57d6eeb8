/** The calibration table of the rectified answer sheet: a 20 x 12 grid of
    answer cells, measured in pixels of the canonical image, folded into 40
    questions with six labels each. */
module Calibration {
  import opened Geometry
  import Dicts

  /** Left edges of the 12 physical cell columns (`BORDER_LEFT`). */
  const BorderLeft: seq<real> := [
    1001.05364189, 1140.30542526, 1279.14998283, 1419.51725082,
    1559.92500267, 1703.37992821, 1962.73085518, 2108.28859329,
    2253.78823833, 2398.27252483, 2543.75992908, 2687.42875385
  ]

  /** Width of every cell: `BORDER_RIGHT = BORDER_LEFT + 119.08159110083334`. */
  const CellWidth: real := 119.08159110083334

  const BorderRight: seq<real> := Shift(BorderLeft, CellWidth)

  /** Top edges of the 20 physical cell rows (`BORDER_TOP`). */
  const BorderTop: seq<real> := [
    117.07986768,  262.0833257,   406.66667048,  551.08331553,
    696.61630789,  841.62500191,  988.26667436,  1134.61490504,
    1278.74997139, 1424.70830472, 1570.14406967, 1715.04166921,
    1860.08333524, 2003.87500127, 2147.95829391, 2294.20823479,
    2440.94248358, 2589.62494087, 2736.86812528, 2881.99990145
  ]

  /** Height of every cell: `BORDER_BOTTOM = BORDER_TOP + 116.13320818099999`. */
  const CellHeight: real := 116.13320818099999

  const BorderBottom: seq<real> := Shift(BorderTop, CellHeight)

  /** `edges + d` on a numpy array: `d` added to every element. */
  function Shift(edges: seq<real>, d: real): (r: seq<real>)
    ensures |r| == |edges|
    ensures forall i :: 0 <= i < |edges| ==> r[i] == edges[i] + d
  {
    seq(|edges|, i requires 0 <= i < |edges| => edges[i] + d)
  }

  const Labels: seq<char> := ['A', 'B', 'C', 'D', 'E', 'F']

  /** `QUESTIONS = tuple(range(1, 41))`. */
  function Questions(): (qs: seq<int>)
    ensures |qs| == 40
    ensures forall k :: 0 <= k < 40 ==> qs[k] == k + 1
  {
    seq(40, k requires 0 <= k < 40 => k + 1)
  }

  /** Canonical size of the rectified sheet. */
  const Width: int := 3000

  /** `int(WIDTH * 578 / 403)`: the ratio truncated toward zero. */
  const Height: int := Width * 578 / 403

  lemma HeightValue()
    ensures Height == 4302
    ensures 403 * Height <= Width * 578 < 403 * (Height + 1)
  {
  }

  /** A table key `(question, label)`. */
  type Key = (int, char)

  /** Number of grid rows and columns (`xc.shape`). */
  const Rows: nat := |BorderTop|
  const Columns: nat := |BorderLeft|

  lemma GridShape()
    ensures Rows == 20 && Columns == 12
    ensures |Questions()| == 40 && |Labels| == 6
  {
  }

  /** The fold of grid cell `(i, j)` onto a key: the right half of the
      columns continues the questions of the left half. */
  function Fold(i: nat, j: nat): (k: Key)
    requires i < Rows && j < Columns
    ensures 1 <= k.0 <= 40 && k.0 in Questions()
    ensures k.1 in Labels
  {
    (Questions()[i + (|Questions()| / 2) * (j / |Labels|)], Labels[j % |Labels|])
  }

  /** The cell's box: its center is the midpoint of its top and bottom edges,
      then of its left and right edges; its delta is bottom minus top, then
      left minus right; its angle is zero. So every box is axis-aligned and
      has the same delta as every other: the cell height, and the negated
      cell width. */
  function Cell(i: nat, j: nat): (b: Box)
    requires i < Rows && j < Columns
    ensures b.angle == 0.0
    ensures b.delta == (CellHeight, -CellWidth) && b.delta.1 < 0.0
  {
    Box(((BorderTop[i] + BorderBottom[i]) / 2.0, (BorderLeft[j] + BorderRight[j]) / 2.0),
        (BorderBottom[i] - BorderTop[i], BorderLeft[j] - BorderRight[j]),
        0.0)
  }

  /** The table entry of cell `(i, j)`: its key, a `(question, label)` pair
      of the sheet, and its box. */
  function Entry(i: nat, j: nat): (e: (Key, Box))
    requires i < Rows && j < Columns
    ensures 1 <= e.0.0 <= 40 && e.0.1 in Labels
  {
    (Fold(i, j), Cell(i, j))
  }

  /** The table `_get_small_rectangles_positions_middle` returns: the cells
      in row-major order of `itertools.product(range(20), range(12))`. */
  function Positions(): (t: seq<(Key, Box)>)
    ensures |t| == Rows * Columns == 240
  {
    seq(Rows * Columns, k requires 0 <= k < Rows * Columns => Entry(k / Columns, k % Columns))
  }

  /** Cell `(i, j)` sits at place `12 i + j` of the table. */
  lemma PositionsRowMajor(i: nat, j: nat)
    requires i < Rows && j < Columns
    ensures Positions()[12 * i + j] == Entry(i, j)
  {
    assert (12 * i + j) / 12 == i && (12 * i + j) % 12 == j;
  }

  /** Appending cell `(i, j)` to the table's first `12 i + j` entries gives
      its first `12 i + j + 1`. */
  lemma PositionsPrefixStep(i: nat, j: nat, prefix: seq<(Key, Box)>)
    requires i < Rows && j < Columns
    requires prefix == Positions()[..12 * i + j]
    ensures prefix + [Entry(i, j)] == Positions()[..12 * i + j + 1]
  {
    PositionsRowMajor(i, j);
    PrefixSnoc(Positions(), 12 * i + j, prefix, Entry(i, j));
  }

  lemma PrefixSnoc<T>(t: seq<T>, n: nat, prefix: seq<T>, x: T)
    requires n < |t| && prefix == t[..n] && t[n] == x
    ensures prefix + [x] == t[..n + 1]
  {
    assert t[..n + 1] == t[..n] + [t[n]];
  }

  /** `_get_small_rectangles_positions_middle`: the two nested loops of the
      product, appending one entry per cell. */
  method BuildPositions() returns (result: seq<(Key, Box)>)
    ensures result == Positions()
  {
    result := [];
    for i := 0 to Rows
      invariant |result| == 12 * i
      invariant result == Positions()[..|result|]
    {
      for j := 0 to Columns
        invariant |result| == 12 * i + j
        invariant result == Positions()[..|result|]
      {
        PositionsPrefixStep(i, j, result);
        result := result + [Entry(i, j)];
      }
    }
  }

  /** `RECTANGLES_POSITIONS_MIDDLE = dict(...)`. The table's keys are
      distinct, so the dict holds one key per table entry: 240 keys. */
  function PositionsMiddle(): (d: Dicts.Dict<Key, Box>)
    ensures |d.order| == |d.m| == 240
  {
    PositionsDistinct();
    Dicts.FromDistinctPairsOrder(Positions());
    Dicts.FromPairs(Positions())
  }

  /** Index of `x` in `s`. */
  function IndexOf<T(==)>(s: seq<T>, x: T): (n: nat)
    requires x in s
    ensures n < |s| && s[n] == x
  {
    if s[0] == x then 0 else 1 + IndexOf(s[1..], x)
  }

  /** The questions are exactly 1 to 40. */
  lemma QuestionsRange(q: int)
    ensures q in Questions() <==> 1 <= q <= 40
  {
    if 1 <= q <= 40 {
      assert Questions()[q - 1] == q;
    }
  }

  /** The grid cell a key comes from. */
  function Unfold(k: Key): (c: (nat, nat))
    requires 1 <= k.0 <= 40 && k.1 in Labels
    ensures c.0 < Rows && c.1 < Columns
  {
    var group := (k.0 - 1) / 20;
    assert group == 0 || group == 1;
    ((k.0 - 1) % 20, group * 6 + IndexOf(Labels, k.1))
  }

  lemma LabelsDistinct(a: nat, b: nat)
    requires a < |Labels| && b < |Labels| && Labels[a] == Labels[b]
    ensures a == b
  {
  }

  /** Every key of the fold's range comes from some grid cell. */
  lemma FoldUnfold(k: Key)
    requires 1 <= k.0 <= 40 && k.1 in Labels
    ensures Fold(Unfold(k).0, Unfold(k).1) == k
  {
    var c := Unfold(k);
    var group := (k.0 - 1) / 20;
    var l := IndexOf(Labels, k.1);
    assert c.1 == group * 6 + l;
    assert c.1 / 6 == group && c.1 % 6 == l;
    assert c.0 + 20 * group == k.0 - 1;
    assert Questions()[k.0 - 1] == k.0;
  }

  /** Different grid cells fold onto different keys. */
  lemma FoldInjective(i: nat, j: nat, i': nat, j': nat)
    requires i < Rows && j < Columns && i' < Rows && j' < Columns
    requires Fold(i, j) == Fold(i', j')
    ensures i == i' && j == j'
  {
    LabelsDistinct(j % 6, j' % 6);
    var x, x' := i + 20 * (j / 6), i' + 20 * (j' / 6);
    assert Questions()[x] == x + 1 && Questions()[x'] == x' + 1;
    assert x == x';
    assert j / 6 == 0 || j / 6 == 1;
    assert j' / 6 == 0 || j' / 6 == 1;
    assert j / 6 == j' / 6;
  }

  /** Unfold is the inverse of the fold on the grid. */
  lemma UnfoldFold(i: nat, j: nat)
    requires i < Rows && j < Columns
    ensures Unfold(Fold(i, j)) == (i, j)
  {
    var k := Fold(i, j);
    FoldUnfold(k);
    FoldInjective(Unfold(k).0, Unfold(k).1, i, j);
  }

  /** All `(question, label)` pairs. */
  ghost function AllKeys(): set<Key> {
    set q, l | q in Questions() && l in Labels :: (q, l)
  }

  /** The table has distinct keys. */
  lemma PositionsDistinct()
    ensures Dicts.DistinctKeys(Positions())
  {
    forall a, b | 0 <= a < b < 240
      ensures Positions()[a].0 != Positions()[b].0
    {
      if Positions()[a].0 == Positions()[b].0 {
        FoldInjective(a / 12, a % 12, b / 12, b % 12);
      }
    }
  }

  /** Each cell's box is centered in its cell, halfway between opposite
      edges. */
  lemma CellCentered(i: nat, j: nat)
    requires i < Rows && j < Columns
    ensures BorderTop[i] < Cell(i, j).center.0 < BorderBottom[i]
    ensures BorderLeft[j] < Cell(i, j).center.1 < BorderRight[j]
    ensures Cell(i, j).center.0 - BorderTop[i] == BorderBottom[i] - Cell(i, j).center.0 == Cell(i, j).delta.0 / 2.0
    ensures Cell(i, j).center.1 - BorderLeft[j] == BorderRight[j] - Cell(i, j).center.1 == -Cell(i, j).delta.1 / 2.0
  {
  }

  /** The dict keeps the table's order of keys and holds 240 of them. */
  lemma PositionsMiddleOrder()
    ensures Dicts.Valid(PositionsMiddle())
    ensures |PositionsMiddle().order| == |PositionsMiddle().m| == 240
    ensures forall k :: 0 <= k < 240 ==> PositionsMiddle().order[k] == Fold(k / 12, k % 12)
  {
    PositionsMiddleKeyOrder();
    forall k | 0 <= k < 240
      ensures PositionsMiddle().order[k] == Fold(k / 12, k % 12)
    {
      PositionsAt(k);
    }
  }

  /** The dict lists the table's keys in the table's order. */
  lemma PositionsMiddleKeyOrder()
    ensures Dicts.Valid(PositionsMiddle())
    ensures |PositionsMiddle().order| == |PositionsMiddle().m| == |Positions()|
    ensures forall k :: 0 <= k < |Positions()| ==> PositionsMiddle().order[k] == Positions()[k].0
  {
    PositionsDistinct();
    Dicts.FromDistinctPairsOrder(Positions());
  }

  /** Place `k` of the table holds cell `(k / 12, k % 12)`. */
  lemma PositionsAt(k: nat)
    requires k < 240
    ensures k / 12 < Rows && k % 12 < Columns
    ensures Positions()[k] == Entry(k / 12, k % 12)
  {
  }

  /** `values()` of the dict yields the boxes of the table, in its order. */
  lemma PositionsMiddleEntries()
    ensures Dicts.Valid(PositionsMiddle())
    ensures |Dicts.Values(PositionsMiddle())| == |Positions()|
    ensures forall k :: 0 <= k < |Positions()| ==> Dicts.Values(PositionsMiddle())[k] == Positions()[k].1
  {
    PositionsDistinct();
    Dicts.ValuesOfDistinctPairs(Positions());
  }

  /** `values()` of the dict yields the 240 cell boxes in row-major order. */
  lemma PositionsMiddleValues()
    ensures Dicts.Valid(PositionsMiddle())
    ensures |Dicts.Values(PositionsMiddle())| == 240
    ensures forall k :: 0 <= k < 240 ==> Dicts.Values(PositionsMiddle())[k] == Cell(k / 12, k % 12)
  {
    PositionsMiddleEntries();
    var vs := Dicts.Values(PositionsMiddle());
    forall k | 0 <= k < 240
      ensures vs[k] == Cell(k / 12, k % 12)
    {
      PositionsAt(k);
      assert vs[k] == Positions()[k].1;
    }
  }

  /** Every `(question, label)` pair of the sheet is a key of the dict, and
      its box is the box of the cell the pair unfolds to. */
  lemma PositionsMiddleLookup(q: int, l: char)
    requires 1 <= q <= 40 && l in Labels
    ensures (q, l) in PositionsMiddle().m
    ensures PositionsMiddle().m[(q, l)] == Cell(Unfold((q, l)).0, Unfold((q, l)).1)
  {
    var c := Unfold((q, l));
    FoldUnfold((q, l));
    PositionsRowMajor(c.0, c.1);
    PositionsDistinct();
    Dicts.FromDistinctPairsLookup(Positions());
    assert Positions()[12 * c.0 + c.1] == ((q, l), Cell(c.0, c.1));
  }

  /** The dict's keys are exactly the `(question, label)` pairs, so there
      are 240 of them. */
  lemma PositionsMiddleKeys()
    ensures PositionsMiddle().m.Keys == AllKeys()
    ensures |AllKeys()| == 240
  {
    KeysAreAnswers();
    AnswersAreKeys();
    PositionsMiddleOrder();
    assert PositionsMiddle().m.Keys == AllKeys();
  }

  lemma KeysAreAnswers()
    ensures forall k :: k in PositionsMiddle().m ==> k in AllKeys()
  {
    PositionsMiddleValid();
    var d := PositionsMiddle();
    forall k | k in d.m
      ensures k in AllKeys()
    {
      var n :| 0 <= n < |d.order| && d.order[n] == k;
      KeyAtIsAnswer(n);
    }
  }

  lemma PositionsMiddleValid()
    ensures Dicts.Valid(PositionsMiddle())
  {
    PositionsMiddleKeyOrder();
  }

  lemma KeyAtIsAnswer(n: nat)
    requires n < 240
    ensures PositionsMiddle().order[n] in AllKeys()
  {
    PositionsMiddleKeyOrder();
    PositionsAt(n);
    FoldIsAnswer(n / 12, n % 12);
  }

  lemma FoldIsAnswer(i: nat, j: nat)
    requires i < Rows && j < Columns
    ensures Fold(i, j) in AllKeys()
  {
    var k := Fold(i, j);
    assert k.0 in Questions() && k.1 in Labels;
  }

  lemma AnswersAreKeys()
    ensures forall k :: k in AllKeys() ==> k in PositionsMiddle().m
  {
    forall k | k in AllKeys()
      ensures k in PositionsMiddle().m
    {
      QuestionsRange(k.0);
      PositionsMiddleLookup(k.0, k.1);
    }
  }

  /** Cell `(i, j)`'s key sits at place `12 i + j` of the dict order. */
  lemma PositionsMiddleKeyAt(i: nat, j: nat)
    requires i < Rows && j < Columns
    ensures |PositionsMiddle().order| == 240
    ensures PositionsMiddle().order[12 * i + j] == Fold(i, j)
  {
    PositionsMiddleKeyOrder();
    PositionsRowMajor(i, j);
  }
}
