/**
 * The greedy agent: `getPossibleMoves` enumerates the placements of the current piece on the
 * live board, each with a copy of the board that has the piece stamped on it (no lines
 * cleared), and `selectBestMove` keeps the first move whose board scores highest.
 */
module Greedy {
  import opened Wrappers
  import opened Board
  import opened Moves
  import opened Evaluate
  import opened Choice

  /** A move of `getPossibleMoves`: where the piece goes and the board it leaves. */
  datatype Move = Move(placement: Placement, board: array2<int>)

  ghost function BoardsOf(moves: seq<Move>): set<array2<int>>
  {
    set i | 0 <= i < |moves| :: moves[i].board
  }

  /** `moves` holds the placements `ps` in order, each with the board `g` becomes under it. */
  ghost predicate StampedMoves(g: Grid, s: Shape, moves: seq<Move>, ps: seq<Placement>)
    requires g.Valid() && s.Valid()
    reads BoardsOf(moves)
  {
    && |moves| == |ps|
    && forall i :: 0 <= i < |moves| ==>
         && moves[i].placement == ps[i]
         && 0 <= ps[i].dir < 4
         && Cells(moves[i].board) == Stamp(g, s, ps[i])
  }

  /** Moves matching two runs of placements, one after the other, match the joined run. */
  lemma StampedAppend(g: Grid, s: Shape, a: seq<Move>, pa: seq<Placement>, b: seq<Move>, pb: seq<Placement>)
    requires g.Valid() && s.Valid()
    requires StampedMoves(g, s, a, pa) && StampedMoves(g, s, b, pb)
    ensures StampedMoves(g, s, a + b, pa + pb)
  {
    forall i | 0 <= i < |a + b|
      ensures (a + b)[i].placement == (pa + pb)[i] && 0 <= (pa + pb)[i].dir < 4
      ensures Cells((a + b)[i].board) == Stamp(g, s, (pa + pb)[i])
    {
      if i >= |a| {
        assert (a + b)[i] == b[i - |a|] && (pa + pb)[i] == pb[i - |a|];
      }
    }
  }

  /**
   * One column of `getPossibleMoves`: skip it when the piece collides at row 0, drop the piece,
   * and when it is free at its resting row, copy the live board and stamp the piece on it.
   */
  method GreedyColumn(blocks: array2<int>, s: Shape, dir: int, x: int) returns (found: seq<Move>)
    requires s.Valid() && 0 <= dir < 4
    ensures StampedMoves(Cells(blocks), s, found, Candidate(Cells(blocks), s, true, dir, x))
    ensures forall i :: 0 <= i < |found| ==> fresh(found[i].board)
  {
    found := [];
    var atSpawn := OccupiedOnBoard(s, x, 0, dir, blocks);
    if !atSpawn {
      var y := GetDropPosition(blocks, s, x, dir);
      var occupied := OccupiedOnBoard(s, x, y, dir, blocks);
      if !occupied {
        var newBlocks := CopyBlocks(blocks);
        PlacePiece(newBlocks, s, Placement(dir, x, y));
        found := [Move(Placement(dir, x, y), newBlocks)];
      }
    }
  }

  /** The columns of one rotation of `getPossibleMoves`, appended to the moves found so far. */
  method GreedyRotation(blocks: array2<int>, s: Shape, dir: int, moves: seq<Move>) returns (moves': seq<Move>)
    requires s.Valid() && 0 <= dir < 4
    requires StampedMoves(Cells(blocks), s, moves, Before(Cells(blocks), s, true, dir, FirstColumn(s)))
    requires forall i :: 0 <= i < |moves| ==> moves[i].board != blocks
    ensures StampedMoves(Cells(blocks), s, moves', Before(Cells(blocks), s, true, dir + 1, FirstColumn(s)))
    ensures |moves| <= |moves'| && moves'[..|moves|] == moves
    ensures forall i :: |moves| <= i < |moves'| ==> fresh(moves'[i].board)
  {
    ghost var g := Cells(blocks);
    moves' := moves;
    for x := FirstColumn(s) to blocks.Length0
      invariant Cells(blocks) == g
      invariant StampedMoves(g, s, moves', Before(g, s, true, dir, x))
      invariant |moves| <= |moves'| && moves'[..|moves|] == moves
      invariant forall i :: |moves| <= i < |moves'| ==> fresh(moves'[i].board)
    {
      var found := GreedyColumn(blocks, s, dir, x);
      BeforeStep(g, s, true, dir, x);
      StampedAppend(g, s, moves', Before(g, s, true, dir, x), found, Candidate(g, s, true, dir, x));
      moves' := moves' + found;
    }
    BeforeNextRotation(g, s, true, dir);
  }

  /**
   * `getPossibleMoves`: every placement of the enumeration with the spawn check, in its order,
   * each with a fresh board equal to the live board with the piece stamped on; the live board
   * itself is left unchanged.
   */
  method GetPossibleMoves(blocks: array2<int>, s: Shape) returns (moves: seq<Move>)
    requires s.Valid()
    ensures StampedMoves(Cells(blocks), s, moves, LegalMoves(Cells(blocks), s, true))
    ensures forall i :: 0 <= i < |moves| ==> fresh(moves[i].board)
  {
    moves := [];
    for dir := 0 to 4
      invariant StampedMoves(Cells(blocks), s, moves, Before(Cells(blocks), s, true, dir, FirstColumn(s)))
      invariant forall i :: 0 <= i < |moves| ==> fresh(moves[i].board)
    {
      moves := GreedyRotation(blocks, s, dir, moves);
    }
  }

  /** The score of the board each placement leaves. */
  ghost function StampScores(g: Grid, s: Shape, ps: seq<Placement>): (scores: seq<real>)
    requires g.Valid() && s.Valid() && forall i :: 0 <= i < |ps| ==> 0 <= ps[i].dir < 4
    ensures |scores| == |ps|
  {
    seq(|ps|, i requires 0 <= i < |ps| => GreedyScore(Stamp(g, s, ps[i])))
  }

  /** The scores `selectBestMove` compares, one per enumerated placement. */
  ghost function GreedyScores(g: Grid, s: Shape): (scores: seq<real>)
    requires g.Valid() && s.Valid()
    ensures |scores| == |LegalMoves(g, s, true)|
  {
    LegalRotations(g, s, true);
    StampScores(g, s, LegalMoves(g, s, true))
  }

  /** The score of the board a placement leaves. */
  ghost function PlacementScore(g: Grid, s: Shape, p: Placement): real
    requires g.Valid() && s.Valid() && 0 <= p.dir < 4
  {
    GreedyScore(Stamp(g, s, p))
  }

  /** The placement `selectBestMove` settles on: the one at the first maximum of the scores. */
  ghost function GreedyPick(g: Grid, s: Shape): (r: Option<Placement>)
    requires g.Valid() && s.Valid()
    ensures r.Some? ==> 0 <= r.value.dir < 4
  {
    LegalRotations(g, s, true);
    match FirstMax(GreedyScores(g, s))
    case None => None
    case Some(k) => Some(LegalMoves(g, s, true)[k])
  }

  /**
   * `selectBestMove`: nothing when there is no legal placement; otherwise the move of the
   * picked placement, with its stamped board.
   */
  method SelectBestMove(blocks: array2<int>, s: Shape) returns (best: Option<Move>)
    requires s.Valid()
    ensures var pick := GreedyPick(Cells(blocks), s);
            && (best.None? <==> pick.None?)
            && (best.Some? ==> pick.Some? && best.value.placement == pick.value
                               && Cells(best.value.board) == Stamp(Cells(blocks), s, pick.value))
  {
    ghost var g := Cells(blocks);
    var moves := GetPossibleMoves(blocks, s);
    ghost var scores := GreedyScores(g, s);
    best := None;
    var bestScore: Option<real> := None;
    ghost var bestIndex: Option<nat> := None;
    for i := 0 to |moves|
      modifies {}
      invariant bestIndex == FirstMax(scores[..i])
      invariant bestIndex.None? ==> best.None? && bestScore.None?
      invariant bestIndex.Some? ==>
                  && bestIndex.value < i
                  && best == Some(moves[bestIndex.value])
                  && bestScore == Some(scores[bestIndex.value])
    {
      var score := EvaluateBoard(moves[i].board);
      FirstMaxStep(scores, i);
      if bestScore.None? || score > bestScore.value {
        bestScore := Some(score);
        best := Some(moves[i]);
        bestIndex := Some(i);
      }
    }
    assert scores[..|moves|] == scores;
  }

  /** In a strictly increasing enumeration, a placement preceding another comes earlier. */
  lemma EarlierInOrder(ps: seq<Placement>, i: int, k: int)
    requires Increasing(ps) && 0 <= i < |ps| && 0 <= k < |ps|
    requires Precedes(ps[i], ps[k].dir, ps[k].x)
    ensures i < k
  {
  }

  /**
   * The greedy choice: nothing exactly when no placement is legal; otherwise a legal
   * placement whose board scores at least as high as every legal placement's and strictly
   * higher than every legal placement enumerated before it.
   */
  lemma GreedyChoice(g: Grid, s: Shape)
    requires g.Valid() && s.Valid()
    ensures GreedyPick(g, s).None? <==> forall p :: !Legal(g, s, true, p)
    ensures GreedyPick(g, s).Some? ==>
              var p := GreedyPick(g, s).value;
              && Legal(g, s, true, p)
              && (forall q :: Legal(g, s, true, q) ==> PlacementScore(g, s, q) <= PlacementScore(g, s, p))
              && (forall q :: Legal(g, s, true, q) && Precedes(q, p.dir, p.x) ==>
                    PlacementScore(g, s, q) < PlacementScore(g, s, p))
  {
    LegalMovesSpec(g, s, true);
    LegalRotations(g, s, true);
    var ps := LegalMoves(g, s, true);
    var scores := GreedyScores(g, s);
    match FirstMax(scores)
    case None =>
    case Some(k) =>
      var p := ps[k];
      assert p in ps;
      forall q | Legal(g, s, true, q)
        ensures PlacementScore(g, s, q) <= PlacementScore(g, s, p)
        ensures Precedes(q, p.dir, p.x) ==> PlacementScore(g, s, q) < PlacementScore(g, s, p)
      {
        var i :| 0 <= i < |ps| && ps[i] == q;
        assert scores[i] == PlacementScore(g, s, q);
        if Precedes(q, p.dir, p.x) {
          EarlierInOrder(ps, i, k);
        }
      }
  }
}
