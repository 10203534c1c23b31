/**
 * Where a piece comes to rest (`getDropPosition`, `getDropPositionForBeam`) and the
 * enumeration of the placements an agent considers.
 *
 * All three agents enumerate placements the same way: rotation `dir` from 0 to 3, and for
 * each the anchor column `x` from `1 - size` to `width - 1`; the piece is dropped from row 0
 * and kept when it does not collide at its resting row.  The greedy and beam agents also
 * skip a column where the piece already collides at row 0 (the spawn check); the MCTS agent
 * does not.
 */
module Moves {
  import opened Board

  /**
   * The resting row of a piece dropped from row `y`: the row moves down while it is above the
   * bottom and the piece is free one row further down.
   */
  ghost function DropFrom(g: Grid, s: Shape, x: int, dir: int, y: int): (r: int)
    requires g.Valid() && s.Valid() && 0 <= dir < 4 && 0 <= y <= g.height
    decreases g.height - y
    ensures y <= r <= g.height
    ensures forall row :: y < row <= r ==> !Collides(g, s, x, row, dir)
    ensures r == g.height || Collides(g, s, x, r + 1, dir)
  {
    if y < g.height && !Collides(g, s, x, y + 1, dir) then DropFrom(g, s, x, dir, y + 1) else y
  }

  /** The resting row of a piece dropped from the top. */
  ghost function DropRow(g: Grid, s: Shape, x: int, dir: int): int
    requires g.Valid() && s.Valid() && 0 <= dir < 4
  {
    DropFrom(g, s, x, dir, 0)
  }

  /**
   * A row `r` below the start with the piece free at every row down to `r` and either
   * `r == height` or the piece colliding at `r + 1` is where the drop ends.
   */
  lemma {:induction false} DropFromReaches(g: Grid, s: Shape, x: int, dir: int, y: int, r: int)
    requires g.Valid() && s.Valid() && 0 <= dir < 4 && 0 <= y <= r <= g.height
    requires forall row :: y < row <= r ==> !Collides(g, s, x, row, dir)
    requires r == g.height || Collides(g, s, x, r + 1, dir)
    decreases r - y
    ensures DropFrom(g, s, x, dir, y) == r
  {
    if y < r {
      assert !Collides(g, s, x, y + 1, dir);
      DropFromReaches(g, s, x, dir, y + 1, r);
    }
  }

  /**
   * The resting row is the only row `r` in `[0, height]` with the piece free at every row
   * `1..r` and either `r == height` or the piece colliding at `r + 1`.
   */
  lemma DropRowUnique(g: Grid, s: Shape, x: int, dir: int, r: int)
    requires g.Valid() && s.Valid() && 0 <= dir < 4 && 0 <= r <= g.height
    requires forall row :: 0 < row <= r ==> !Collides(g, s, x, row, dir)
    requires r == g.height || Collides(g, s, x, r + 1, dir)
    ensures r == DropRow(g, s, x, dir)
  {
    DropFromReaches(g, s, x, dir, 0, r);
  }

  /**
   * `getDropPosition` (on the live board) and `getDropPositionForBeam` (on a given board):
   * the row moves down while it is above the bottom and the piece is free one row lower.
   */
  method GetDropPosition(board: array2<int>, s: Shape, x: int, dir: int) returns (y: int)
    requires s.Valid() && 0 <= dir < 4
    ensures y == DropRow(Cells(board), s, x, dir)
  {
    ghost var g := Cells(board);
    y := 0;
    while y < board.Length1
      invariant 0 <= y <= board.Length1
      invariant DropFrom(g, s, x, dir, y) == DropRow(g, s, x, dir)
    {
      var occupied := OccupiedOnBoard(s, x, y + 1, dir, board);
      if occupied {
        break;
      }
      y := y + 1;
    }
  }

  /** The first anchor column tried for a piece. */
  function FirstColumn(s: Shape): int
  {
    1 - s.size
  }

  /**
   * The placement tried at rotation `dir` and column `x`, if it is kept: with the spawn check,
   * only when the piece is free at row 0; then only when it is free at its resting row.
   */
  ghost function Candidate(g: Grid, s: Shape, spawnCheck: bool, dir: int, x: int): seq<Placement>
    requires g.Valid() && s.Valid() && 0 <= dir < 4
  {
    if spawnCheck && Collides(g, s, x, 0, dir) then []
    else
      var y := DropRow(g, s, x, dir);
      if Collides(g, s, x, y, dir) then [] else [Placement(dir, x, y)]
  }

  /** A placement the enumeration keeps. */
  ghost predicate Legal(g: Grid, s: Shape, spawnCheck: bool, p: Placement)
    requires g.Valid() && s.Valid()
  {
    && 0 <= p.dir < 4 && FirstColumn(s) <= p.x < g.width
    && p.y == DropRow(g, s, p.x, p.dir)
    && !Collides(g, s, p.x, p.y, p.dir)
    && (spawnCheck ==> !Collides(g, s, p.x, 0, p.dir))
  }

  /** Placement `p` comes before rotation `dir`, column `x` in the enumeration order. */
  predicate Precedes(p: Placement, dir: int, x: int)
  {
    p.dir < dir || (p.dir == dir && p.x < x)
  }

  /** Placements strictly increasing in the enumeration order (so without repetitions). */
  predicate Increasing(m: seq<Placement>)
  {
    forall i, j :: 0 <= i < j < |m| ==> Precedes(m[i], m[j].dir, m[j].x)
  }

  /**
   * The placements enumerated before reaching rotation `dir`, column `x` (with `dir == 4`
   * and the first column meaning the whole enumeration).
   */
  ghost function Before(g: Grid, s: Shape, spawnCheck: bool, dir: int, x: int): seq<Placement>
    requires g.Valid() && s.Valid() && 0 <= dir <= 4 && FirstColumn(s) <= x <= g.width
    requires dir == 4 ==> x == FirstColumn(s)
    decreases dir, x - FirstColumn(s)
  {
    if x > FirstColumn(s) then Before(g, s, spawnCheck, dir, x - 1) + Candidate(g, s, spawnCheck, dir, x - 1)
    else if dir > 0 then Before(g, s, spawnCheck, dir - 1, g.width)
    else []
  }

  /** Every placement an agent considers, in enumeration order. */
  ghost function LegalMoves(g: Grid, s: Shape, spawnCheck: bool): seq<Placement>
    requires g.Valid() && s.Valid()
  {
    Before(g, s, spawnCheck, 4, FirstColumn(s))
  }

  /** A placement the enumeration loops visit and keep. */
  ghost predicate Enumerated(g: Grid, s: Shape, spawnCheck: bool, p: Placement)
    requires g.Valid() && s.Valid()
  {
    0 <= p.dir < 4 && FirstColumn(s) <= p.x < g.width && p in Candidate(g, s, spawnCheck, p.dir, p.x)
  }

  /** The candidate at `(dir, x)` is the legal placement with that rotation and column, if any. */
  lemma CandidateMembers(g: Grid, s: Shape, spawnCheck: bool)
    requires g.Valid() && s.Valid()
    ensures forall p :: Enumerated(g, s, spawnCheck, p) <==> Legal(g, s, spawnCheck, p)
  {
  }

  /** The placements enumerated before `(dir, x)` are exactly the kept ones preceding it. */
  lemma {:induction false} BeforeMembers(g: Grid, s: Shape, spawnCheck: bool, dir: int, x: int)
    requires g.Valid() && s.Valid() && 0 <= dir <= 4 && FirstColumn(s) <= x <= g.width
    requires dir == 4 ==> x == FirstColumn(s)
    decreases dir, x - FirstColumn(s)
    ensures forall p :: p in Before(g, s, spawnCheck, dir, x) <==>
              Enumerated(g, s, spawnCheck, p) && Precedes(p, dir, x)
  {
    if x > FirstColumn(s) {
      BeforeMembers(g, s, spawnCheck, dir, x - 1);
      var c := Candidate(g, s, spawnCheck, dir, x - 1);
      assert forall p :: p in c ==> p.dir == dir && p.x == x - 1;
    } else if dir > 0 {
      BeforeMembers(g, s, spawnCheck, dir - 1, g.width);
    }
  }

  /** The enumeration stays before `(dir, x)` and is strictly increasing in (rotation, column). */
  lemma {:induction false} BeforeOrdered(g: Grid, s: Shape, spawnCheck: bool, dir: int, x: int)
    requires g.Valid() && s.Valid() && 0 <= dir <= 4 && FirstColumn(s) <= x <= g.width
    requires dir == 4 ==> x == FirstColumn(s)
    decreases dir, x - FirstColumn(s)
    ensures forall i :: 0 <= i < |Before(g, s, spawnCheck, dir, x)| ==>
              Precedes(Before(g, s, spawnCheck, dir, x)[i], dir, x)
    ensures Increasing(Before(g, s, spawnCheck, dir, x))
  {
    if x > FirstColumn(s) {
      BeforeOrdered(g, s, spawnCheck, dir, x - 1);
      var m, c := Before(g, s, spawnCheck, dir, x - 1), Candidate(g, s, spawnCheck, dir, x - 1);
      assert forall i :: 0 <= i < |c| ==> c[i].dir == dir && c[i].x == x - 1;
      assert forall i :: 0 <= i < |m| ==> (m + c)[i] == m[i];
      assert forall i :: |m| <= i < |m + c| ==> (m + c)[i] == c[i - |m|];
    } else if dir > 0 {
      BeforeOrdered(g, s, spawnCheck, dir - 1, g.width);
    }
  }

  /**
   * A placement is enumerated exactly when it is legal: rotation in 0..3, column in
   * `[1 - size, width)`, row its resting row, free there, and (with the spawn check) free at
   * row 0.  The enumeration is rotation-major, columns ascending, without repetitions.
   */
  lemma LegalMovesSpec(g: Grid, s: Shape, spawnCheck: bool)
    requires g.Valid() && s.Valid()
    ensures forall p :: p in LegalMoves(g, s, spawnCheck) <==> Legal(g, s, spawnCheck, p)
    ensures Increasing(LegalMoves(g, s, spawnCheck))
  {
    BeforeMembers(g, s, spawnCheck, 4, FirstColumn(s));
    CandidateMembers(g, s, spawnCheck);
    BeforeOrdered(g, s, spawnCheck, 4, FirstColumn(s));
  }

  /** The enumerated placements all have a rotation in 0..3. */
  lemma LegalRotations(g: Grid, s: Shape, spawnCheck: bool)
    requires g.Valid() && s.Valid()
    ensures forall i :: 0 <= i < |LegalMoves(g, s, spawnCheck)| ==> 0 <= LegalMoves(g, s, spawnCheck)[i].dir < 4
  {
    LegalMovesSpec(g, s, spawnCheck);
    var ps := LegalMoves(g, s, spawnCheck);
    assert forall i :: 0 <= i < |ps| ==> ps[i] in ps;
  }

  /**
   * Every placement found with the spawn check (greedy, beam) is also found without it
   * (MCTS), with the same resting row; the converse holds for placements free at row 0.
   */
  lemma SpawnCheckedAreMctsMoves(g: Grid, s: Shape)
    requires g.Valid() && s.Valid()
    ensures forall p :: p in LegalMoves(g, s, true) ==> p in LegalMoves(g, s, false)
    ensures forall p :: p in LegalMoves(g, s, false) && 0 <= p.dir < 4 && !Collides(g, s, p.x, 0, p.dir) ==>
              p in LegalMoves(g, s, true)
  {
    LegalMovesSpec(g, s, true);
    LegalMovesSpec(g, s, false);
  }

  /**
   * One column of an enumeration loop: with the spawn check, give up when the piece collides
   * at row 0; drop it; keep the placement when the piece is free at its resting row.
   */
  method TryColumn(board: array2<int>, s: Shape, spawnCheck: bool, dir: int, x: int)
    returns (found: seq<Placement>)
    requires s.Valid() && 0 <= dir < 4
    ensures found == Candidate(Cells(board), s, spawnCheck, dir, x)
  {
    found := [];
    if spawnCheck {
      var atSpawn := OccupiedOnBoard(s, x, 0, dir, board);
      if atSpawn {
        return;
      }
    }
    var y := GetDropPosition(board, s, x, dir);
    var occupied := OccupiedOnBoard(s, x, y, dir, board);
    if !occupied {
      found := [Placement(dir, x, y)];
    }
  }

  /** Trying column `x` extends the enumeration from `(dir, x)` to `(dir, x + 1)`. */
  lemma BeforeStep(g: Grid, s: Shape, spawnCheck: bool, dir: int, x: int)
    requires g.Valid() && s.Valid() && 0 <= dir < 4 && FirstColumn(s) <= x < g.width
    ensures Before(g, s, spawnCheck, dir, x + 1) == Before(g, s, spawnCheck, dir, x) + Candidate(g, s, spawnCheck, dir, x)
  {
  }

  /** Finishing the columns of rotation `dir` is starting rotation `dir + 1`. */
  lemma BeforeNextRotation(g: Grid, s: Shape, spawnCheck: bool, dir: int)
    requires g.Valid() && s.Valid() && 0 <= dir < 4
    ensures Before(g, s, spawnCheck, dir + 1, FirstColumn(s)) == Before(g, s, spawnCheck, dir, g.width)
  {
  }

  /**
   * The inner loop of every enumeration: every column of rotation `dir`, from the first to the
   * last, appending the placements kept.
   */
  method TryRotation(board: array2<int>, s: Shape, spawnCheck: bool, dir: int, moves: seq<Placement>)
    returns (moves': seq<Placement>)
    requires s.Valid() && 0 <= dir < 4
    requires moves == Before(Cells(board), s, spawnCheck, dir, FirstColumn(s))
    ensures moves' == Before(Cells(board), s, spawnCheck, dir + 1, FirstColumn(s))
  {
    ghost var g := Cells(board);
    moves' := moves;
    for x := FirstColumn(s) to board.Length0
      invariant moves' == Before(g, s, spawnCheck, dir, x)
    {
      var found := TryColumn(board, s, spawnCheck, dir, x);
      BeforeStep(g, s, spawnCheck, dir, x);
      moves' := moves' + found;
    }
    BeforeNextRotation(g, s, spawnCheck, dir);
  }

  /**
   * `getAllMovesForMCTS`: every rotation and column, dropped from row 0 without the spawn
   * check, kept when free at its resting row.
   */
  method GetAllMovesForMCTS(board: array2<int>, s: Shape) returns (moves: seq<Placement>)
    requires s.Valid()
    ensures moves == LegalMoves(Cells(board), s, false)
  {
    moves := [];
    for dir := 0 to 4
      invariant moves == Before(Cells(board), s, false, dir, FirstColumn(s))
    {
      moves := TryRotation(board, s, false, dir, moves);
    }
  }
}
