/**
 * The board model shared by every agent: the grid, piece shapes, the collision test
 * (`occupiedOnBoard`), the deep copy (`copyBlocks`) and the clamped stamping of a piece
 * onto a board.
 *
 * A board is stored column-major, `board[x, y]`, with `x` the column in `[0, nx)` and `y`
 * the row in `[0, ny)`, row 0 at the top.  A cell holds 0 when it is empty and the piece
 * type that filled it otherwise.  The board's two dimensions are `nx` and `ny`.
 */
module Board {

  /**
   * A value snapshot of a board, one sequence per row from the top: `rows[y][x]` is the
   * cell in column `x`, row `y`.
   */
  datatype Grid = Grid(width: nat, height: nat, rows: seq<seq<int>>)
  {
    predicate Valid()
    {
      |rows| == height && forall y :: 0 <= y < height ==> |rows[y]| == width
    }

    predicate InRange(x: int, y: int)
    {
      0 <= x < width && 0 <= y < height
    }

    function At(x: int, y: int): int
      requires Valid() && InRange(x, y)
    {
      rows[y][x]
    }
  }

  /** The contents of an array board. */
  function Cells(a: array2<int>): (g: Grid)
    reads a
    ensures g.Valid() && g.width == a.Length0 && g.height == a.Length1
    ensures forall x, y :: 0 <= x < a.Length0 && 0 <= y < a.Length1 ==> g.At(x, y) == a[x, y]
  {
    Grid(a.Length0, a.Length1,
         seq(a.Length1, y requires 0 <= y < a.Length1 reads a =>
               seq(a.Length0, x requires 0 <= x < a.Length0 reads a => a[x, y])))
  }

  /** Two snapshots of the same size that agree on every cell are the same snapshot. */
  lemma GridsEqual(g: Grid, h: Grid)
    requires g.Valid() && h.Valid() && g.width == h.width && g.height == h.height
    requires forall x, y :: 0 <= x < g.width && 0 <= y < g.height ==> g.At(x, y) == h.At(x, y)
    ensures g == h
  {
    assert |g.rows| == |h.rows|;
    forall y | 0 <= y < g.height
      ensures g.rows[y] == h.rows[y]
    {
      assert forall x :: 0 <= x < g.width ==> g.rows[y][x] == g.At(x, y);
    }
  }

  /** One cell of a piece, relative to the piece's anchor. */
  datatype Offset = Offset(dx: int, dy: int)

  /**
   * A piece type: its non-zero identifier `kind` (what a placed piece writes into the board),
   * its bounding-box `size`, and for each rotation `dir` in 0..3 the offsets that `eachblock`
   * visits for that rotation.
   */
  datatype Shape = Shape(kind: int, size: int, rotations: seq<seq<Offset>>)
  {
    predicate Valid()
    {
      kind != 0 && size >= 1 && |rotations| == 4
    }
  }

  /** A placement of a piece: rotation `dir`, anchor column `x` and anchor row `y`. */
  datatype Placement = Placement(dir: int, x: int, y: int)

  /** A covered cell is blocked when it lies outside the grid or on a non-empty cell. */
  predicate Blocked(g: Grid, col: int, row: int)
    requires g.Valid()
  {
    !g.InRange(col, row) || g.At(col, row) != 0
  }

  /** The piece at anchor (x, y) and rotation dir covers cell (cx, cy). */
  ghost predicate Covers(s: Shape, dir: int, x: int, y: int, cx: int, cy: int)
    requires s.Valid() && 0 <= dir < 4
  {
    exists i :: 0 <= i < |s.rotations[dir]| && Hits(s.rotations[dir][i], x, y, cx, cy)
  }

  predicate Hits(o: Offset, x: int, y: int, cx: int, cy: int)
  {
    x + o.dx == cx && y + o.dy == cy
  }

  /** The collision test: some covered cell is outside the grid or already filled. */
  ghost predicate Collides(g: Grid, s: Shape, x: int, y: int, dir: int)
    requires g.Valid() && s.Valid() && 0 <= dir < 4
  {
    AnyBlocked(g, s.rotations[dir], x, y)
  }

  /** Some offset in `offsets`, applied at anchor (x, y), lands on a blocked cell. */
  ghost predicate AnyBlocked(g: Grid, offsets: seq<Offset>, x: int, y: int)
    requires g.Valid()
  {
    |offsets| > 0 && (AnyBlocked(g, offsets[..|offsets| - 1], x, y) || BlockedAt(g, offsets[|offsets| - 1], x, y))
  }

  predicate BlockedAt(g: Grid, o: Offset, x: int, y: int)
    requires g.Valid()
  {
    Blocked(g, x + o.dx, y + o.dy)
  }

  /** `AnyBlocked` holds exactly when one of the offsets is blocked. */
  lemma {:induction false} AnyBlockedExists(g: Grid, offsets: seq<Offset>, x: int, y: int)
    requires g.Valid()
    ensures AnyBlocked(g, offsets, x, y) <==> exists i :: 0 <= i < |offsets| && BlockedAt(g, offsets[i], x, y)
  {
    if |offsets| > 0 {
      var init := offsets[..|offsets| - 1];
      AnyBlockedExists(g, init, x, y);
      assert forall i :: 0 <= i < |init| ==> init[i] == offsets[i];
    }
  }

  /**
   * `occupiedOnBoard`: visits every covered cell and raises `result` when the cell is out of
   * range or non-empty.  True exactly when the piece collides.
   */
  method OccupiedOnBoard(s: Shape, x: int, y: int, dir: int, board: array2<int>) returns (result: bool)
    requires s.Valid() && 0 <= dir < 4
    ensures result <==> Collides(Cells(board), s, x, y, dir)
  {
    ghost var g := Cells(board);
    var offsets := s.rotations[dir];
    result := false;
    for i := 0 to |offsets|
      invariant result <==> AnyBlocked(g, offsets[..i], x, y)
    {
      var col, row := x + offsets[i].dx, y + offsets[i].dy;
      assert offsets[..i + 1][..i] == offsets[..i];
      if col < 0 || col >= board.Length0 || row < 0 || row >= board.Length1 || board[col, row] != 0 {
        result := true;
      }
    }
    assert offsets[..|offsets|] == offsets;
  }

  /**
   * The board after placing the piece: every in-range covered cell holds the piece type,
   * every other cell is unchanged, and covered cells outside the grid are ignored.
   */
  ghost function Stamp(g: Grid, s: Shape, p: Placement): (r: Grid)
    requires g.Valid() && s.Valid() && 0 <= p.dir < 4
    ensures r.Valid() && r.width == g.width && r.height == g.height
    ensures forall cx, cy :: 0 <= cx < g.width && 0 <= cy < g.height ==>
              r.At(cx, cy) == if Covers(s, p.dir, p.x, p.y, cx, cy) then s.kind else g.At(cx, cy)
  {
    Grid(g.width, g.height,
         seq(g.height, cy requires 0 <= cy < g.height =>
               seq(g.width, cx requires 0 <= cx < g.width =>
                     if Covers(s, p.dir, p.x, p.y, cx, cy) then s.kind else g.At(cx, cy))))
  }

  /**
   * The `eachblock` callback that places a piece on a copied board: in-range covered cells
   * get the piece type, out-of-range ones are skipped.
   */
  method PlacePiece(board: array2<int>, s: Shape, p: Placement)
    requires s.Valid() && 0 <= p.dir < 4
    modifies board
    ensures Cells(board) == Stamp(old(Cells(board)), s, p)
  {
    ghost var g := Cells(board);
    var offsets := s.rotations[p.dir];
    for i := 0 to |offsets|
      invariant forall cx, cy :: 0 <= cx < board.Length0 && 0 <= cy < board.Length1 ==>
                  board[cx, cy] == if exists k :: 0 <= k < i && Hits(offsets[k], p.x, p.y, cx, cy)
                                   then s.kind else g.At(cx, cy)
    {
      var col, row := p.x + offsets[i].dx, p.y + offsets[i].dy;
      if 0 <= col < board.Length0 && 0 <= row < board.Length1 {
        board[col, row] := s.kind;
      }
    }
    GridsEqual(Cells(board), Stamp(g, s, p));
  }

  /** `copyBlocks`: a fresh board equal to its input cell for cell. */
  method CopyBlocks(blocks: array2<int>) returns (copy: array2<int>)
    ensures fresh(copy)
    ensures Cells(copy) == Cells(blocks)
  {
    copy := new int[blocks.Length0, blocks.Length1];
    for x := 0 to blocks.Length0
      invariant forall x', y :: 0 <= x' < x && 0 <= y < blocks.Length1 ==> copy[x', y] == blocks[x', y]
    {
      for y := 0 to blocks.Length1
        invariant forall x', y' :: 0 <= x' < x && 0 <= y' < blocks.Length1 ==> copy[x', y'] == blocks[x', y']
        invariant forall y' :: 0 <= y' < y ==> copy[x, y'] == blocks[x, y']
      {
        copy[x, y] := blocks[x, y];
      }
    }
    GridsEqual(Cells(copy), Cells(blocks));
  }

  /** One more row of `w` cells: multiplication distributes over the successor. */
  lemma MulSucc(w: int, k: int)
    ensures w * (k + 1) == w * k + w
  {
  }
}
