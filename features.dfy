/**
 * The board features both evaluators measure: column heights with their sum and maximum,
 * complete lines, holes, blockades, bumpiness and wells.  Each feature is defined here on the
 * snapshot `Grid`; the loops that compute them on the array board are proved equal to these
 * definitions.
 */
module Features {
  import opened Board
  import opened Lines

  /** The first non-empty row at or below row `y` of column `x`, or `height` when there is none. */
  function TopFrom(g: Grid, x: int, y: int): (top: int)
    requires g.Valid() && 0 <= x < g.width && 0 <= y <= g.height
    decreases g.height - y
    ensures y <= top <= g.height
    ensures forall row :: y <= row < top ==> g.At(x, row) == 0
    ensures top < g.height ==> g.At(x, top) != 0
  {
    if y == g.height || g.At(x, y) != 0 then y else TopFrom(g, x, y + 1)
  }

  /**
   * The height of column `x`: 0 when the column is empty, otherwise `height` minus the row of
   * its topmost filled cell.
   */
  function ColumnHeight(g: Grid, x: int): (h: int)
    requires g.Valid() && 0 <= x < g.width
    ensures 0 <= h <= g.height
    ensures h == 0 <==> forall row :: 0 <= row < g.height ==> g.At(x, row) == 0
    ensures h > 0 ==> g.At(x, g.height - h) != 0
    ensures forall row :: 0 <= row < g.height - h ==> g.At(x, row) == 0
  {
    g.height - TopFrom(g, x, 0)
  }

  /** The height of every column, left to right. */
  function Heights(g: Grid): (hs: seq<int>)
    requires g.Valid()
    ensures |hs| == g.width
    ensures forall x :: 0 <= x < |hs| ==> 0 <= hs[x] <= g.height
  {
    seq(g.width, x requires 0 <= x < g.width => ColumnHeight(g, x))
  }

  /** The sum of a sequence of integers. */
  function Sum(xs: seq<int>): int
  {
    if |xs| == 0 then 0 else Sum(xs[..|xs| - 1]) + xs[|xs| - 1]
  }

  /** The largest element of `xs`, or 0 when every element is below 0 or `xs` is empty. */
  function Max0(xs: seq<int>): (m: int)
    ensures m >= 0
    ensures forall i :: 0 <= i < |xs| ==> xs[i] <= m
  {
    if |xs| == 0 then 0
    else
      var m := Max0(xs[..|xs| - 1]);
      if xs[|xs| - 1] > m then xs[|xs| - 1] else m
  }

  /** The maximum is 0 or attained by some element. */
  lemma {:induction false} Max0Attained(xs: seq<int>)
    ensures Max0(xs) == 0 || exists i :: 0 <= i < |xs| && xs[i] == Max0(xs)
  {
    if |xs| > 0 {
      var init := xs[..|xs| - 1];
      Max0Attained(init);
      assert forall i :: 0 <= i < |init| ==> init[i] == xs[i];
    }
  }

  /** A sum of `n` integers in `[0, bound]` lies in `[0, n * bound]`. */
  lemma {:induction false} SumBounds(xs: seq<int>, bound: int)
    requires forall i :: 0 <= i < |xs| ==> 0 <= xs[i] <= bound
    ensures 0 <= Sum(xs) <= |xs| * bound
  {
    if |xs| > 0 {
      var init := xs[..|xs| - 1];
      assert forall i :: 0 <= i < |init| ==> init[i] == xs[i];
      SumBounds(init, bound);
    }
  }

  /**
   * The aggregate height lies between the maximum height and `width` times the maximum
   * height; the maximum is the height of some column, or 0.
   */
  lemma HeightTotals(g: Grid)
    requires g.Valid()
    ensures Max0(Heights(g)) <= g.height
    ensures Max0(Heights(g)) <= Sum(Heights(g)) <= g.width * Max0(Heights(g))
  {
    var hs := Heights(g);
    Max0Attained(hs);
    SumBounds(hs, Max0(hs));
    if Max0(hs) > 0 {
      var i :| 0 <= i < |hs| && hs[i] == Max0(hs);
      SumAtLeast(hs, i);
    }
  }

  /** A sum of non-negative integers is at least each of them. */
  lemma {:induction false} SumAtLeast(xs: seq<int>, i: int)
    requires forall k :: 0 <= k < |xs| ==> xs[k] >= 0
    requires 0 <= i < |xs|
    ensures xs[i] <= Sum(xs)
  {
    var init := xs[..|xs| - 1];
    assert forall k :: 0 <= k < |init| ==> init[k] == xs[k];
    SumBounds(init, Max0(init));
    if i < |init| {
      SumAtLeast(init, i);
    }
  }

  /** An empty cell with a filled cell above it in the same column. */
  predicate IsHole(g: Grid, x: int, y: int)
    requires g.Valid() && g.InRange(x, y)
  {
    g.At(x, y) == 0 && TopFrom(g, x, 0) < y
  }

  /** A cell is a hole exactly when it is empty and some cell above it is filled. */
  lemma HoleMeans(g: Grid, x: int, y: int)
    requires g.Valid() && g.InRange(x, y)
    ensures IsHole(g, x, y) <==> g.At(x, y) == 0 && exists above :: 0 <= above < y && g.At(x, above) != 0
  {
    if exists above :: 0 <= above < y && g.At(x, above) != 0 {
      var above :| 0 <= above < y && g.At(x, above) != 0;
      assert TopFrom(g, x, 0) <= above;
    }
  }

  /** The number of holes in rows `[0, n)` of column `x`. */
  function HolesInColumn(g: Grid, x: int, n: int): (c: nat)
    requires g.Valid() && 0 <= x < g.width && 0 <= n <= g.height
    ensures c <= n
  {
    if n == 0 then 0 else HolesInColumn(g, x, n - 1) + (if IsHole(g, x, n - 1) then 1 else 0)
  }

  /** The number of holes in columns `[0, m)`. */
  function HolesIn(g: Grid, m: int): (c: nat)
    requires g.Valid() && 0 <= m <= g.width
    ensures c <= m * g.height
  {
    if m == 0 then 0
    else
      MulSucc(g.height, m - 1);
      HolesIn(g, m - 1) + HolesInColumn(g, m - 1, g.height)
  }

  function Holes(g: Grid): nat
    requires g.Valid()
  {
    HolesIn(g, g.width)
  }

  /** The scan upwards from row `y - 1` to row 0 of column `x` meets a filled cell. */
  function Covered(g: Grid, x: int, y: int): bool
    requires g.Valid() && 0 <= x < g.width && 0 <= y <= g.height
  {
    y > 0 && (g.At(x, y - 1) != 0 || Covered(g, x, y - 1))
  }

  /** The upward scan finds any filled cell above row `y`. */
  lemma {:induction false} CoveredBy(g: Grid, x: int, y: int, above: int)
    requires g.Valid() && 0 <= x < g.width && 0 <= above < y <= g.height
    requires g.At(x, above) != 0
    ensures Covered(g, x, y)
  {
    if above < y - 1 {
      CoveredBy(g, x, y - 1, above);
    }
  }

  /** A hole the upward scan finds covered: what the evaluators count as a blockade. */
  predicate IsBlockade(g: Grid, x: int, y: int)
    requires g.Valid() && g.InRange(x, y)
  {
    IsHole(g, x, y) && Covered(g, x, y)
  }

  function BlockadesInColumn(g: Grid, x: int, n: int): (c: nat)
    requires g.Valid() && 0 <= x < g.width && 0 <= n <= g.height
    ensures c <= HolesInColumn(g, x, n)
  {
    if n == 0 then 0 else BlockadesInColumn(g, x, n - 1) + (if IsBlockade(g, x, n - 1) then 1 else 0)
  }

  function BlockadesIn(g: Grid, m: int): (c: nat)
    requires g.Valid() && 0 <= m <= g.width
    ensures c <= HolesIn(g, m)
  {
    if m == 0 then 0 else BlockadesIn(g, m - 1) + BlockadesInColumn(g, m - 1, g.height)
  }

  function Blockades(g: Grid): nat
    requires g.Valid()
  {
    BlockadesIn(g, g.width)
  }

  /** Every hole is a blockade: a hole has its column's top filled cell above it. */
  lemma HoleIsBlockade(g: Grid, x: int, y: int)
    requires g.Valid() && g.InRange(x, y)
    ensures IsBlockade(g, x, y) <==> IsHole(g, x, y)
  {
    if IsHole(g, x, y) {
      CoveredBy(g, x, y, TopFrom(g, x, 0));
    }
  }

  lemma {:induction false} BlockadesInColumnEqual(g: Grid, x: int, n: int)
    requires g.Valid() && 0 <= x < g.width && 0 <= n <= g.height
    ensures BlockadesInColumn(g, x, n) == HolesInColumn(g, x, n)
  {
    if n > 0 {
      BlockadesInColumnEqual(g, x, n - 1);
      HoleIsBlockade(g, x, n - 1);
    }
  }

  lemma {:induction false} BlockadesInEqual(g: Grid, m: int)
    requires g.Valid() && 0 <= m <= g.width
    ensures BlockadesIn(g, m) == HolesIn(g, m)
  {
    if m > 0 {
      BlockadesInEqual(g, m - 1);
      BlockadesInColumnEqual(g, m - 1, g.height);
    }
  }

  /** The blockade count always equals the hole count. */
  lemma BlockadesAreHoles(g: Grid)
    requires g.Valid()
    ensures Blockades(g) == Holes(g)
  {
    BlockadesInEqual(g, g.width);
  }

  function Abs(n: int): nat
  {
    if n < 0 then -n else n
  }

  /** The sum of `|hs[x] - hs[x + 1]|` over the first `n` neighbouring pairs. */
  function BumpinessOf(hs: seq<int>, n: int): (b: int)
    requires 0 <= n < |hs|
    ensures b >= 0
  {
    if n == 0 then 0 else BumpinessOf(hs, n - 1) + Abs(hs[n - 1] - hs[n])
  }

  /** The surface roughness: the height differences of all neighbouring columns, summed. */
  function Bumpiness(hs: seq<int>): (b: int)
    ensures b >= 0
  {
    if |hs| == 0 then 0 else BumpinessOf(hs, |hs| - 1)
  }

  /** The roughness of the first `n + 1` columns is 0 exactly when they have the same height. */
  lemma {:induction false} FlatBumpinessOf(hs: seq<int>, n: int)
    requires 0 <= n < |hs|
    ensures BumpinessOf(hs, n) == 0 <==> forall i :: 0 <= i <= n ==> hs[i] == hs[0]
  {
    if n > 0 {
      FlatBumpinessOf(hs, n - 1);
    }
  }

  /** The roughness is 0 exactly when every column has the same height. */
  lemma FlatBumpiness(hs: seq<int>)
    ensures Bumpiness(hs) == 0 <==> forall i :: 0 <= i < |hs| ==> hs[i] == hs[0]
  {
    if |hs| > 0 {
      FlatBumpinessOf(hs, |hs| - 1);
    }
  }

  /**
   * The depth of column `x` as a well: when it is strictly lower than both neighbours (a grid
   * edge counting as height `rows`), the lower neighbour's height minus its own; otherwise 0.
   */
  function WellDepth(hs: seq<int>, rows: int, x: int): (d: int)
    requires 0 <= x < |hs|
    ensures d >= 0
    ensures d > 0 <==> hs[x] < (if x == 0 then rows else hs[x - 1]) && hs[x] < (if x == |hs| - 1 then rows else hs[x + 1])
  {
    var left := if x == 0 then rows else hs[x - 1];
    var right := if x == |hs| - 1 then rows else hs[x + 1];
    if hs[x] < left && hs[x] < right then (if left < right then left else right) - hs[x] else 0
  }

  /** The well depths of columns `[0, n)`, summed. */
  function WellsOf(hs: seq<int>, rows: int, n: int): (w: int)
    requires 0 <= n <= |hs|
    ensures w >= 0
  {
    if n == 0 then 0 else WellsOf(hs, rows, n - 1) + WellDepth(hs, rows, n - 1)
  }

  function Wells(hs: seq<int>, rows: int): int
  {
    WellsOf(hs, rows, |hs|)
  }

  /** The features an evaluator combines. */
  datatype Measures = Measures(
    aggregateHeight: int,
    completeLines: int,
    holes: int,
    bumpiness: int,
    wells: int,
    maxHeight: int,
    blockades: int)

  /** The features of a board. */
  ghost function MeasuresOf(g: Grid): (f: Measures)
    requires g.Valid()
    ensures 0 <= f.maxHeight <= g.height
    ensures f.maxHeight <= f.aggregateHeight <= g.width * f.maxHeight
    ensures 0 <= f.completeLines <= g.height
    ensures 0 <= f.blockades == f.holes <= g.width * g.height
    ensures f.bumpiness >= 0 && f.wells >= 0
  {
    var hs := Heights(g);
    HeightTotals(g);
    BlockadesAreHoles(g);
    Measures(Sum(hs), LinesIn(g), Holes(g), Bumpiness(hs), Wells(hs, g.height), Max0(hs), Blockades(g))
  }

  /** The scan down column `x` from row 0 to its first filled cell; its height, or 0. */
  method MeasureColumn(board: array2<int>, x: int) returns (h: int)
    requires 0 <= x < board.Length0
    ensures h == ColumnHeight(Cells(board), x)
  {
    ghost var g := Cells(board);
    h := 0;
    for y := 0 to board.Length1
      invariant TopFrom(g, x, y) == TopFrom(g, x, 0)
    {
      if board[x, y] != 0 {
        h := board.Length1 - y;
        break;
      }
    }
  }

  /** The sum and the maximum of a sequence one element longer. */
  lemma SumMaxSnoc(xs: seq<int>, h: int)
    ensures Sum(xs + [h]) == Sum(xs) + h
    ensures Max0(xs + [h]) == if h > Max0(xs) then h else Max0(xs)
  {
    assert (xs + [h])[..|xs|] == xs;
  }

  /**
   * The column-height loop of both evaluators: each column's height is recorded and, when the
   * column is not empty, added to the aggregate and taken into the maximum.
   */
  method MeasureColumns(board: array2<int>) returns (heights: seq<int>, aggregateHeight: int, maxHeight: int)
    ensures heights == Heights(Cells(board))
    ensures aggregateHeight == Sum(heights) && maxHeight == Max0(heights)
  {
    ghost var g := Cells(board);
    heights, aggregateHeight, maxHeight := [], 0, 0;
    for x := 0 to board.Length0
      invariant |heights| == x
      invariant forall i :: 0 <= i < x ==> heights[i] == ColumnHeight(g, i)
      invariant aggregateHeight == Sum(heights) && maxHeight == Max0(heights)
    {
      var h := MeasureColumn(board, x);
      if h > 0 {
        aggregateHeight := aggregateHeight + h;
        maxHeight := if maxHeight < h then h else maxHeight;
      }
      SumMaxSnoc(heights, h);
      heights := heights + [h];
    }
  }

  /**
   * The complete-lines loop of `evaluateBoard`: every row whose cells are all filled adds one to
   * both counters.
   */
  method CountCompleteLines(board: array2<int>) returns (completeLines: nat, linesCleared: nat)
    ensures completeLines == linesCleared == LinesIn(Cells(board))
  {
    ghost var g := Cells(board);
    completeLines, linesCleared := 0, 0;
    for y := 0 to board.Length1
      invariant completeLines == linesCleared
      invariant completeLines + FullFrom(g.rows, y) == FullFrom(g.rows, 0)
    {
      var complete := RowIsComplete(board, y);
      if complete {
        completeLines := completeLines + 1;
        linesCleared := linesCleared + 1;
      }
    }
  }

  /**
   * The hole loop of `evaluateBoard`: scanning each column from the top, every empty cell met
   * after a filled one is a hole.
   */
  method CountHoles(board: array2<int>) returns (holes: nat)
    ensures holes == Holes(Cells(board))
  {
    ghost var g := Cells(board);
    holes := 0;
    for x := 0 to board.Length0
      invariant holes == HolesIn(g, x)
    {
      var blockFound := false;
      for y := 0 to board.Length1
        invariant blockFound <==> TopFrom(g, x, 0) < y
        invariant holes == HolesIn(g, x) + HolesInColumn(g, x, y)
      {
        if board[x, y] != 0 {
          blockFound := true;
        } else if blockFound && board[x, y] == 0 {
          holes := holes + 1;
        }
      }
    }
  }

  /** The scan from row `y - 1` up to row 0 of column `x` for a filled cell. */
  method IsCovered(board: array2<int>, x: int, y: int) returns (covered: bool)
    requires 0 <= x < board.Length0 && 0 <= y < board.Length1
    ensures covered == Covered(Cells(board), x, y)
  {
    ghost var g := Cells(board);
    covered := false;
    var y2 := y - 1;
    while y2 >= 0
      invariant -1 <= y2 < y
      invariant Covered(g, x, y) == Covered(g, x, y2 + 1)
    {
      if board[x, y2] != 0 {
        covered := true;
        break;
      }
      y2 := y2 - 1;
    }
  }

  /** The blockade loop of `evaluateBoard`: a hole counts when the upward scan finds it covered. */
  method CountBlockades(board: array2<int>) returns (blockades: nat)
    ensures blockades == Blockades(Cells(board))
  {
    ghost var g := Cells(board);
    blockades := 0;
    for x := 0 to board.Length0
      invariant blockades == BlockadesIn(g, x)
    {
      var inColumn := ColumnBlockades(board, x);
      blockades := blockades + inColumn;
    }
  }

  /** The inner loop of the blockade loop of `evaluateBoard`, over one column from the top. */
  method ColumnBlockades(board: array2<int>, x: int) returns (blockades: nat)
    requires 0 <= x < board.Length0
    ensures blockades == BlockadesInColumn(Cells(board), x, board.Length1)
  {
    ghost var g := Cells(board);
    blockades := 0;
    var blockFound := false;
    for y := 0 to board.Length1
      invariant blockFound <==> TopFrom(g, x, 0) < y
      invariant blockades == BlockadesInColumn(g, x, y)
    {
      if board[x, y] != 0 {
        blockFound := true;
      } else if blockFound && board[x, y] == 0 {
        var covered := IsCovered(board, x, y);
        if covered {
          blockades := blockades + 1;
        }
      }
    }
  }

  /** One column of the hole loop of `evaluateBeamBoard`: its holes and its blockades. */
  method ColumnHolesAndBlockades(board: array2<int>, x: int) returns (holes: nat, blockades: nat)
    requires 0 <= x < board.Length0
    ensures holes == HolesInColumn(Cells(board), x, board.Length1)
    ensures blockades == BlockadesInColumn(Cells(board), x, board.Length1)
  {
    ghost var g := Cells(board);
    holes, blockades := 0, 0;
    var blockFound := false;
    for y := 0 to board.Length1
      invariant blockFound <==> TopFrom(g, x, 0) < y
      invariant holes == HolesInColumn(g, x, y)
      invariant blockades == BlockadesInColumn(g, x, y)
    {
      if board[x, y] != 0 {
        blockFound := true;
      } else if blockFound && board[x, y] == 0 {
        holes := holes + 1;
        var covered := IsCovered(board, x, y);
        if covered {
          blockades := blockades + 1;
        }
      }
    }
  }

  /**
   * The hole loop of `evaluateBeamBoard`, which counts holes and, through the upward scan,
   * blockades in one pass.
   */
  method CountHolesAndBlockades(board: array2<int>) returns (holes: nat, blockades: nat)
    ensures holes == Holes(Cells(board)) && blockades == Blockades(Cells(board))
  {
    ghost var g := Cells(board);
    holes, blockades := 0, 0;
    for x := 0 to board.Length0
      invariant holes == HolesIn(g, x) && blockades == BlockadesIn(g, x)
    {
      var columnHoles, columnBlockades := ColumnHolesAndBlockades(board, x);
      holes, blockades := holes + columnHoles, blockades + columnBlockades;
    }
  }

  /** The bumpiness loop: `|heights[x] - heights[x + 1]|` for `x` from 0 to `nx - 2`. */
  method SumBumpiness(heights: seq<int>) returns (bumpiness: int)
    ensures bumpiness == Bumpiness(heights)
  {
    bumpiness := 0;
    var x := 0;
    while x < |heights| - 1
      invariant 0 <= x && (|heights| > 0 ==> x <= |heights| - 1)
      invariant bumpiness == if |heights| == 0 then 0 else BumpinessOf(heights, x)
    {
      bumpiness := bumpiness + Abs(heights[x] - heights[x + 1]);
      x := x + 1;
    }
  }

  /**
   * The wells loop: a column strictly lower than both neighbours, an edge counting as `rows`,
   * adds the lower neighbour's height minus its own.
   */
  method SumWells(heights: seq<int>, rows: int) returns (wells: int)
    ensures wells == Wells(heights, rows)
  {
    wells := 0;
    for x := 0 to |heights|
      invariant wells == WellsOf(heights, rows, x)
    {
      var leftHeight := if x == 0 then rows else heights[x - 1];
      var rightHeight := if x == |heights| - 1 then rows else heights[x + 1];
      var currentHeight := heights[x];
      if currentHeight < leftHeight && currentHeight < rightHeight {
        var wellDepth := (if leftHeight < rightHeight then leftHeight else rightHeight) - currentHeight;
        wells := wells + wellDepth;
      }
    }
  }
}
