/**
 * Line clearing (`clearLinesFromBoard`) and `applyMoveToBoard`.
 *
 * The specification of a clear works on the board's rows, top to bottom: the full rows
 * disappear, the other rows keep their order and sink to the bottom, and as many empty rows
 * as were removed appear at the top.
 */
module Lines {
  import opened Board

  /** A row is full when none of its cells is empty. */
  predicate Full(row: seq<int>)
  {
    forall x :: 0 <= x < |row| ==> row[x] != 0
  }

  /** The empty row of width `w`. */
  function EmptyRow(w: nat): (r: seq<int>)
    ensures |r| == w && forall x :: 0 <= x < w ==> r[x] == 0
  {
    seq(w, _ => 0)
  }

  /** `n` empty rows of width `w`. */
  function EmptyRows(n: nat, w: nat): (e: seq<seq<int>>)
    ensures |e| == n && forall i :: 0 <= i < n ==> e[i] == EmptyRow(w)
  {
    seq(n, _ => EmptyRow(w))
  }

  lemma EmptyRowsAdd(a: nat, b: nat, w: nat)
    ensures EmptyRows(a, w) + EmptyRows(b, w) == EmptyRows(a + b, w)
  {
    assert forall i :: 0 <= i < a + b ==> (EmptyRows(a, w) + EmptyRows(b, w))[i] == EmptyRow(w);
  }

  /** The number of full rows among `rows[j..]`. */
  ghost function FullFrom(rows: seq<seq<int>>, j: int): (c: nat)
    requires 0 <= j <= |rows|
    decreases |rows| - j
    ensures c <= |rows| - j
  {
    if j == |rows| then 0 else (if Full(rows[j]) then 1 else 0) + FullFrom(rows, j + 1)
  }

  /** The rows of `rows[j..]` that are not full, in their original order. */
  ghost function KeptFrom(rows: seq<seq<int>>, j: int): (k: seq<seq<int>>)
    requires 0 <= j <= |rows|
    decreases |rows| - j
    ensures |k| + FullFrom(rows, j) == |rows| - j
  {
    if j == |rows| then []
    else (if Full(rows[j]) then [] else [rows[j]]) + KeptFrom(rows, j + 1)
  }

  /** Every kept row has the common width of the rows it was taken from. */
  lemma KeptWidth(rows: seq<seq<int>>, j: int, w: nat)
    requires 0 <= j <= |rows| && forall i :: 0 <= i < |rows| ==> |rows[i]| == w
    decreases |rows| - j
    ensures forall i :: 0 <= i < |KeptFrom(rows, j)| ==> |KeptFrom(rows, j)[i]| == w
  {
    if j < |rows| {
      KeptWidth(rows, j + 1, w);
    }
  }

  /** The number of complete rows of a board. */
  ghost function LinesIn(g: Grid): nat
  {
    FullFrom(g.rows, 0)
  }

  /** The board after a clear: `LinesIn(g)` empty rows on top of the rows that were not full. */
  ghost function Cleared(g: Grid): (r: Grid)
    requires g.Valid()
    ensures r.Valid() && r.width == g.width && r.height == g.height
  {
    KeptWidth(g.rows, 0, g.width);
    Grid(g.width, g.height, EmptyRows(LinesIn(g), g.width) + KeptFrom(g.rows, 0))
  }

  /** The board with row `y` removed: rows above it move down by one and row 0 becomes empty. */
  ghost function ShiftedDown(b: Grid, y: int): (r: Grid)
    requires b.Valid() && 0 <= y < b.height
    ensures r.Valid() && r.width == b.width && r.height == b.height
  {
    Grid(b.width, b.height, [EmptyRow(b.width)] + b.rows[..y] + b.rows[y + 1..])
  }

  /** Cell by cell, `ShiftedDown` empties row 0 and moves rows `[0, y)` down by one. */
  lemma ShiftedDownCells(b: Grid, y: int)
    requires b.Valid() && 0 <= y < b.height
    ensures forall x :: 0 <= x < b.width ==> ShiftedDown(b, y).At(x, 0) == 0
    ensures forall x, row :: 0 <= x < b.width && 0 < row <= y ==> ShiftedDown(b, y).At(x, row) == b.At(x, row - 1)
    ensures forall x, row :: 0 <= x < b.width && y < row < b.height ==> ShiftedDown(b, y).At(x, row) == b.At(x, row)
  {
    var r := ShiftedDown(b, y);
    assert r.rows[0] == EmptyRow(b.width);
    assert forall row :: 0 < row <= y ==> r.rows[row] == b.rows[row - 1];
    assert forall row :: y < row < b.height ==> r.rows[row] == b.rows[row];
  }

  /**
   * The state of a clear in progress on the original rows `g`: the current rows `b` are `c`
   * empty rows, then the original rows `[0, j)`, then the rows of `[j, |g|)` that are not
   * full, of which there were `c` full ones.  While original rows remain (`j > 0`) the
   * examined row `y` is the last of them; afterwards the scan passes over empty rows.
   */
  ghost predicate Scan(g: seq<seq<int>>, b: seq<seq<int>>, w: nat, y: int, j: int, c: nat)
  {
    && 0 <= j <= |g| && -1 <= y <= c + j - 1 && (j > 0 ==> y == c + j - 1)
    && c == FullFrom(g, j)
    && b == EmptyRows(c, w) + g[..j] + KeptFrom(g, j)
  }

  lemma ScanInit(g: seq<seq<int>>, w: nat)
    ensures Scan(g, g, w, |g| - 1, |g|, 0)
  {
    assert g[..|g|] == g;
  }

  /** Removing the element at position `|a| + |p|` and pushing `m` on the front. */
  lemma RemoveAt<T>(m: T, a: seq<T>, p: seq<T>, x: T, k: seq<T>)
    ensures var s := a + p + [x] + k;
            [m] + s[..|a| + |p|] + s[|a| + |p| + 1..] == ([m] + a) + p + k
  {
    var s := a + p + [x] + k;
    assert s[..|a| + |p|] == a + p;
    assert s[|a| + |p| + 1..] == k;
  }

  /** Removing a full examined row keeps the state, one original row further up. */
  lemma ScanRemove(g: seq<seq<int>>, b: seq<seq<int>>, w: nat, y: int, j: int, c: nat)
    requires w > 0 && Scan(g, b, w, y, j, c) && 0 <= y
    requires Full(b[y])
    ensures j > 0 && Scan(g, [EmptyRow(w)] + b[..y] + b[y + 1..], w, y, j - 1, c + 1)
  {
    var e := EmptyRows(c, w);
    assert y < c ==> b[y] == e[y];
    EmptyRowNotFull(w);
    assert j > 0;
    var top := j - 1;
    var k := KeptFrom(g, j);
    assert g[..j] == g[..top] + [g[top]];
    assert b == e + g[..top] + [g[top]] + k;
    RemoveAt(EmptyRow(w), e, g[..top], g[top], k);
    EmptyRowsAdd(1, c, w);
    assert [EmptyRow(w)] == EmptyRows(1, w);
  }

  /** Passing a row that is not full keeps the state, one row further up. */
  lemma ScanPass(g: seq<seq<int>>, b: seq<seq<int>>, w: nat, y: int, j: int, c: nat)
    requires Scan(g, b, w, y, j, c) && 0 <= y
    requires !Full(b[y])
    ensures Scan(g, b, w, y - 1, if j > 0 then j - 1 else 0, c)
  {
    if j > 0 {
      var top := j - 1;
      assert g[..j] == g[..top] + [g[top]];
      assert b == EmptyRows(c, w) + g[..top] + [g[top]] + KeptFrom(g, j);
    }
  }

  lemma EmptyRowNotFull(w: nat)
    requires w > 0
    ensures !Full(EmptyRow(w))
  {
    assert EmptyRow(w)[0] == 0;
  }

  /** A finished scan leaves the cleared rows. */
  lemma ScanDone(g: seq<seq<int>>, b: seq<seq<int>>, w: nat, j: int, c: nat)
    requires Scan(g, b, w, -1, j, c)
    ensures c == FullFrom(g, 0) && b == EmptyRows(c, w) + KeptFrom(g, 0)
  {
    assert j == 0;
    assert g[..0] == [];
  }

  /** The scan of one row for an empty cell. */
  method RowIsComplete(board: array2<int>, y: int) returns (complete: bool)
    requires 0 <= y < board.Length1
    ensures complete <==> Full(Cells(board).rows[y])
  {
    complete := true;
    for x := 0 to board.Length0
      invariant complete <==> forall x' :: 0 <= x' < x ==> board[x', y] != 0
    {
      if board[x, y] == 0 {
        complete := false;
        break;
      }
    }
    assert forall x :: 0 <= x < board.Length0 ==> Cells(board).rows[y][x] == board[x, y];
  }

  /** Removes row `y`: every row above it moves down by one and row 0 becomes empty. */
  method ShiftRowsDown(board: array2<int>, y: int)
    requires 0 <= y < board.Length1
    modifies board
    ensures Cells(board) == ShiftedDown(old(Cells(board)), y)
  {
    ghost var b := Cells(board);
    var nx := board.Length0;
    var yy := y;
    while yy > 0
      invariant 0 <= yy <= y
      invariant forall x, r :: 0 <= x < nx && 0 <= r < board.Length1 ==>
                  board[x, r] == if yy < r <= y then old(board[x, r - 1]) else old(board[x, r])
    {
      for x := 0 to nx
        invariant forall x', r :: 0 <= x' < nx && 0 <= r < board.Length1 ==>
                    board[x', r] == if yy < r <= y || (r == yy && x' < x)
                                    then old(board[x', r - 1]) else old(board[x', r])
      {
        board[x, yy] := board[x, yy - 1];
      }
      yy := yy - 1;
    }
    for x := 0 to nx
      invariant forall x', r :: 0 <= x' < nx && 0 <= r < board.Length1 ==>
                  board[x', r] == if r == 0 && x' < x then 0
                                  else if 0 < r <= y then old(board[x', r - 1])
                                  else old(board[x', r])
    {
      board[x, 0] := 0;
    }
    ShiftedDownCells(b, y);
    GridsEqual(Cells(board), ShiftedDown(b, y));
  }

  /**
   * One pass of the clear's loop at row `y`: a full row is removed and the same row index is
   * examined again (the source's `y++` undoing the loop's `y--`); otherwise the scan moves up
   * one row.
   */
  method ClearStep(board: array2<int>, y: int, ghost g: Grid, ghost j: int, c: nat)
    returns (y': int, ghost j': int, c': nat)
    requires board.Length0 > 0 && g.Valid() && g.width == board.Length0 && g.height == board.Length1
    requires Scan(g.rows, Cells(board).rows, g.width, y, j, c) && y >= 0
    modifies board
    ensures Scan(g.rows, Cells(board).rows, g.width, y', j', c')
    ensures (y' == y && c' == c + 1) || (y' == y - 1 && c' == c)
  {
    var complete := RowIsComplete(board, y);
    ghost var b := Cells(board);
    if complete {
      ScanRemove(g.rows, b.rows, g.width, y, j, c);
      ShiftRowsDown(board, y);
      y', j', c' := y, j - 1, c + 1;
    } else {
      ScanPass(g.rows, b.rows, g.width, y, j, c);
      y', j', c' := y - 1, if j > 0 then j - 1 else 0, c;
    }
  }

  /**
   * `clearLinesFromBoard`: scans rows bottom-up; a full row is removed by shifting every row
   * above it down by one and emptying row 0, and the same row index is examined again.
   * Returns the number of rows removed.
   */
  method ClearLinesFromBoard(board: array2<int>) returns (linesCleared: nat)
    requires board.Length0 > 0
    modifies board
    ensures linesCleared == LinesIn(old(Cells(board)))
    ensures Cells(board) == Cleared(old(Cells(board)))
  {
    ghost var g := Cells(board);
    linesCleared := 0;
    var y := board.Length1 - 1;
    ghost var j := board.Length1;
    ScanInit(g.rows, g.width);
    while y >= 0
      invariant Scan(g.rows, Cells(board).rows, g.width, y, j, linesCleared)
      decreases y + 1, g.height - linesCleared
    {
      y, j, linesCleared := ClearStep(board, y, g, j, linesCleared);
    }
    ScanDone(g.rows, Cells(board).rows, g.width, j, linesCleared);
  }

  /**
   * `applyMoveToBoard`: a fresh copy of the board with the piece stamped on it (covered cells
   * outside the grid skipped) and then cleared; the input board is not modified.
   */
  method ApplyMoveToBoard(board: array2<int>, s: Shape, p: Placement) returns (newBoard: array2<int>)
    requires board.Length0 > 0 && s.Valid() && 0 <= p.dir < 4
    ensures fresh(newBoard)
    ensures Cells(newBoard) == Cleared(Stamp(Cells(board), s, p))
  {
    newBoard := CopyBlocks(board);
    PlacePiece(newBoard, s, p);
    var _ := ClearLinesFromBoard(newBoard);
  }

  // Properties of a clear

  /** The positions of the rows of `rows[j..]` that are not full, top to bottom. */
  ghost function KeptIndices(rows: seq<seq<int>>, j: int): (idx: seq<int>)
    requires 0 <= j <= |rows|
    decreases |rows| - j
    ensures |idx| == |KeptFrom(rows, j)|
    ensures forall i :: 0 <= i < |idx| ==> j <= idx[i] < |rows|
  {
    if j == |rows| then []
    else (if Full(rows[j]) then [] else [j]) + KeptIndices(rows, j + 1)
  }

  /** The kept rows are the rows at the kept positions, and those rows are not full. */
  lemma {:induction false} KeptAt(rows: seq<seq<int>>, j: int)
    requires 0 <= j <= |rows|
    decreases |rows| - j
    ensures forall i :: 0 <= i < |KeptFrom(rows, j)| ==>
              KeptFrom(rows, j)[i] == rows[KeptIndices(rows, j)[i]] && !Full(KeptFrom(rows, j)[i])
  {
    if j < |rows| {
      KeptAt(rows, j + 1);
    }
  }

  /** The kept positions are strictly increasing: a clear keeps the rows' order. */
  lemma {:induction false} KeptInOrder(rows: seq<seq<int>>, j: int)
    requires 0 <= j <= |rows|
    decreases |rows| - j
    ensures forall i, i' :: 0 <= i < i' < |KeptIndices(rows, j)| ==>
              KeptIndices(rows, j)[i] < KeptIndices(rows, j)[i']
  {
    if j < |rows| {
      KeptInOrder(rows, j + 1);
    }
  }

  /** A position is kept exactly when its row is not full. */
  lemma {:induction false} KeptExactly(rows: seq<seq<int>>, j: int)
    requires 0 <= j <= |rows|
    decreases |rows| - j
    ensures forall r :: j <= r < |rows| ==> (r in KeptIndices(rows, j) <==> !Full(rows[r]))
  {
    if j < |rows| {
      KeptExactly(rows, j + 1);
      var rest := KeptIndices(rows, j + 1);
      var idx := KeptIndices(rows, j);
      assert j !in rest;
      forall r | j <= r < |rows|
        ensures r in idx <==> !Full(rows[r])
      {
        if Full(rows[j]) {
          assert idx == rest;
        } else {
          assert idx == [j] + rest;
          assert r in idx <==> r == j || r in rest;
        }
      }
    }
  }

  /**
   * What a clear leaves, cell by cell: the top `LinesIn(g)` rows are empty, and below them
   * come the rows at the kept positions (`KeptInOrder`, `KeptExactly`: the rows that were not
   * full, in their original order).
   */
  lemma ClearedCells(g: Grid)
    requires g.Valid()
    ensures LinesIn(g) + |KeptIndices(g.rows, 0)| == g.height
    ensures forall x, y :: 0 <= x < g.width && 0 <= y < LinesIn(g) ==> Cleared(g).At(x, y) == 0
    ensures forall x, y :: 0 <= x < g.width && LinesIn(g) <= y < g.height ==>
              Cleared(g).At(x, y) == g.At(x, KeptIndices(g.rows, 0)[y - LinesIn(g)])
  {
    var r, c, idx := Cleared(g), LinesIn(g), KeptIndices(g.rows, 0);
    KeptAt(g.rows, 0);
    forall x, y | 0 <= x < g.width && 0 <= y < c
      ensures r.At(x, y) == 0
    {
      assert r.rows[y] == EmptyRow(g.width);
    }
    forall x, y | 0 <= x < g.width && c <= y < g.height
      ensures r.At(x, y) == g.At(x, idx[y - c])
    {
      assert r.rows[y] == KeptFrom(g.rows, 0)[y - c];
    }
  }

  /** No row kept by a clear is full. */
  lemma KeptNotFull(rows: seq<seq<int>>, j: int)
    requires 0 <= j <= |rows|
    ensures forall i :: 0 <= i < |KeptFrom(rows, j)| ==> !Full(KeptFrom(rows, j)[i])
  {
    KeptAt(rows, j);
  }

  /** Rows without a full one are kept as they are. */
  lemma NoneFull(rows: seq<seq<int>>, j: int)
    requires 0 <= j <= |rows|
    requires forall i :: j <= i < |rows| ==> !Full(rows[i])
    decreases |rows| - j
    ensures FullFrom(rows, j) == 0 && KeptFrom(rows, j) == rows[j..]
  {
    if j < |rows| {
      NoneFull(rows, j + 1);
      assert rows[j..] == [rows[j]] + rows[j + 1..];
    }
  }

  /**
   * A clear is idempotent on boards at least one column wide: the cleared board has no
   * complete row, so clearing it again removes nothing and changes nothing.
   */
  lemma {:induction false} ClearIdempotent(g: Grid)
    requires g.Valid() && g.width > 0
    ensures LinesIn(Cleared(g)) == 0 && Cleared(Cleared(g)) == Cleared(g)
  {
    var r := Cleared(g);
    var c := LinesIn(g);
    EmptyRowNotFull(g.width);
    KeptNotFull(g.rows, 0);
    forall i | 0 <= i < |r.rows|
      ensures !Full(r.rows[i])
    {
      if i < c {
        assert r.rows[i] == EmptyRow(g.width);
      } else {
        assert r.rows[i] == KeptFrom(g.rows, 0)[i - c];
      }
    }
    NoneFull(r.rows, 0);
    assert r.rows[0..] == r.rows;
  }

  /** The number of non-empty cells of a row. */
  ghost function FilledInRow(row: seq<int>): (n: nat)
    ensures n <= |row|
  {
    if row == [] then 0 else (if row[0] != 0 then 1 else 0) + FilledInRow(row[1..])
  }

  /** The number of non-empty cells of a sequence of rows. */
  ghost function Filled(rows: seq<seq<int>>): nat
  {
    if rows == [] then 0 else FilledInRow(rows[0]) + Filled(rows[1..])
  }

  lemma {:induction false} FilledInFullRow(row: seq<int>)
    requires Full(row)
    ensures FilledInRow(row) == |row|
  {
    if row != [] {
      FilledInFullRow(row[1..]);
    }
  }

  lemma {:induction false} FilledInEmptyRows(n: nat, w: nat)
    ensures Filled(EmptyRows(n, w)) == 0
  {
    if n > 0 {
      assert EmptyRows(n, w)[1..] == EmptyRows(n - 1, w);
      FilledInEmptyRow(w);
      FilledInEmptyRows(n - 1, w);
    }
  }

  lemma {:induction false} FilledInEmptyRow(w: nat)
    ensures FilledInRow(EmptyRow(w)) == 0
  {
    if w > 0 {
      assert EmptyRow(w)[1..] == EmptyRow(w - 1);
      FilledInEmptyRow(w - 1);
    }
  }

  lemma {:induction false} FilledAppend(a: seq<seq<int>>, b: seq<seq<int>>)
    ensures Filled(a + b) == Filled(a) + Filled(b)
  {
    if a == [] {
      assert a + b == b;
    } else {
      assert (a + b)[1..] == a[1..] + b;
      FilledAppend(a[1..], b);
    }
  }

  lemma {:induction false} FilledKept(rows: seq<seq<int>>, j: int, w: nat)
    requires 0 <= j <= |rows| && forall i :: 0 <= i < |rows| ==> |rows[i]| == w
    decreases |rows| - j
    ensures Filled(KeptFrom(rows, j)) + w * FullFrom(rows, j) == Filled(rows[j..])
  {
    if j == |rows| {
      assert rows[j..] == [];
    } else {
      var row := rows[j];
      var head := if Full(row) then [] else [row];
      var own := if Full(row) then w else 0;
      calc {
        Filled(KeptFrom(rows, j)) + w * FullFrom(rows, j);
        Filled(head + KeptFrom(rows, j + 1)) + w * FullFrom(rows, j);
        { FilledAppend(head, KeptFrom(rows, j + 1)); }
        Filled(head) + Filled(KeptFrom(rows, j + 1)) + w * FullFrom(rows, j);
        { FilledHead(row, w); }
        { MulSucc(w, FullFrom(rows, j + 1)); }
        FilledInRow(row) - own + Filled(KeptFrom(rows, j + 1)) + own + w * FullFrom(rows, j + 1);
        { FilledKept(rows, j + 1, w); }
        FilledInRow(row) + Filled(rows[j + 1..]);
        { assert rows[j..][1..] == rows[j + 1..]; }
        Filled(rows[j..]);
      }
    }
  }

  /** The filled cells a row contributes to the kept rows. */
  lemma FilledHead(row: seq<int>, w: nat)
    requires |row| == w
    ensures Filled(if Full(row) then [] else [row]) == FilledInRow(row) - (if Full(row) then w else 0)
  {
    if Full(row) {
      FilledInFullRow(row);
    } else {
      assert [row][1..] == [];
    }
  }

  /** A clear removes exactly `width` filled cells per complete row. */
  lemma ClearedFilled(g: Grid)
    requires g.Valid()
    ensures Filled(Cleared(g).rows) + g.width * LinesIn(g) == Filled(g.rows)
  {
    FilledAppend(EmptyRows(LinesIn(g), g.width), KeptFrom(g.rows, 0));
    FilledInEmptyRows(LinesIn(g), g.width);
    FilledKept(g.rows, 0, g.width);
    assert g.rows[0..] == g.rows;
  }
}
