/**
 * The beam-search agent, `selectBestMoveBeamSearch`: every placement of the current piece on a
 * copy of the live board is played out (piece stamped, complete lines cleared, board scored);
 * the four best are kept; when the next piece is known, every placement of it after each kept
 * state is played out the same way, and the first move whose continuations score best on
 * average is chosen.  Without a next piece, or with no continuation at all, the best first
 * placement is chosen; with no placement at all, nothing is.
 */
module Beam {
  import opened Wrappers
  import opened Board
  import opened Lines
  import opened Moves
  import opened Evaluate
  import opened Sorting
  import opened Grouping
  import opened Choice

  /** A state of the beam: a board, its score, and the first move it descends from. */
  datatype BeamState = BeamState(board: array2<int>, score: real, firstMove: Placement)

  function Rank(st: BeamState): Ranked
  {
    Ranked(st.firstMove, st.score)
  }

  /** The states as the sort and the grouping see them. */
  function Ranks(sts: seq<BeamState>): (rs: seq<Ranked>)
    ensures |rs| == |sts| && forall i :: 0 <= i < |sts| ==> rs[i] == Rank(sts[i])
  {
    seq(|sts|, i requires 0 <= i < |sts| => Rank(sts[i]))
  }

  /** The board a placement leaves once its complete lines are cleared. */
  ghost function AfterMove(g: Grid, s: Shape, p: Placement): (r: Grid)
    requires g.Valid() && s.Valid() && 0 <= p.dir < 4
    ensures r.Valid() && r.width == g.width && r.height == g.height
  {
    Cleared(Stamp(g, s, p))
  }

  /** The beam evaluation of that board, crediting the lines the placement cleared. */
  ghost function MoveScore(g: Grid, s: Shape, p: Placement): real
    requires g.Valid() && s.Valid() && 0 <= p.dir < 4
  {
    BeamScore(AfterMove(g, s, p), LinesIn(Stamp(g, s, p)))
  }

  /** The first move a state reached by `p` remembers: its parent's, or `p` on the first ply. */
  function OriginOf(origin: Option<Placement>, p: Placement): Placement
  {
    if origin.Some? then origin.value else p
  }

  ghost function BoardsIn(states: seq<BeamState>): set<array2<int>>
  {
    set i | 0 <= i < |states| :: states[i].board
  }

  /** `st` is placement `p` played out on `g`: the board it leaves, its score and its first move. */
  ghost predicate PlayedFrom(g: Grid, s: Shape, origin: Option<Placement>, st: BeamState, p: Placement)
    requires g.Valid() && s.Valid()
    reads st.board
  {
    && 0 <= p.dir < 4
    && st.firstMove == OriginOf(origin, p)
    && st.score == MoveScore(g, s, p)
    && Cells(st.board) == AfterMove(g, s, p)
  }

  /**
   * `states` are the placements `ps` played out on `g`, in order: each with the board the
   * placement leaves, that board's score, and the first move it descends from.
   */
  ghost predicate PlayedOut(g: Grid, s: Shape, origin: Option<Placement>, states: seq<BeamState>, ps: seq<Placement>)
    requires g.Valid() && s.Valid()
    reads BoardsIn(states)
  {
    && |states| == |ps|
    && forall i :: 0 <= i < |states| ==> PlayedFrom(g, s, origin, states[i], ps[i])
  }


  /** Each state's board is the one its first move leaves on `g`. */
  ghost predicate FirstPlyBoards(g: Grid, s: Shape, states: seq<BeamState>)
    requires g.Valid() && s.Valid()
    reads BoardsIn(states)
  {
    forall i :: 0 <= i < |states| ==>
      0 <= states[i].firstMove.dir < 4 && Cells(states[i].board) == AfterMove(g, s, states[i].firstMove)
  }

  /** A resting placement played out: a copy of the board with the piece stamped and lines cleared, scored. */
  method PlayPlacement(board: array2<int>, s: Shape, origin: Option<Placement>, p: Placement) returns (st: BeamState)
    requires board.Length0 > 0 && s.Valid() && 0 <= p.dir < 4
    ensures PlayedFrom(Cells(board), s, origin, st, p)
  {
    var newBoard := CopyBlocks(board);
    PlacePiece(newBoard, s, p);
    var linesCleared := ClearLinesFromBoard(newBoard);
    var score := EvaluateBeamBoard(newBoard, linesCleared);
    st := BeamState(newBoard, score, OriginOf(origin, p));
  }

  /**
   * One column of a ply: skip it when the piece collides at row 0, drop the piece, and when it
   * is free at its resting row, play it out on a copy of the board.
   */
  method PlayColumn(board: array2<int>, s: Shape, origin: Option<Placement>, dir: int, x: int)
    returns (found: seq<BeamState>)
    requires board.Length0 > 0 && s.Valid() && 0 <= dir < 4
    ensures PlayedOut(Cells(board), s, origin, found, Candidate(Cells(board), s, true, dir, x))
  {
    found := [];
    var atSpawn := OccupiedOnBoard(s, x, 0, dir, board);
    if !atSpawn {
      var y := GetDropPosition(board, s, x, dir);
      var occupied := OccupiedOnBoard(s, x, y, dir, board);
      if !occupied {
        var st := PlayPlacement(board, s, origin, Placement(dir, x, y));
        found := [st];
      }
    }
  }

  /** Played-out runs concatenate. */
  lemma PlayedOutAppend(g: Grid, s: Shape, origin: Option<Placement>, a: seq<BeamState>, pa: seq<Placement>,
                        b: seq<BeamState>, pb: seq<Placement>)
    requires g.Valid() && s.Valid()
    requires PlayedOut(g, s, origin, a, pa) && PlayedOut(g, s, origin, b, pb)
    ensures PlayedOut(g, s, origin, a + b, pa + pb)
  {
    forall i | 0 <= i < |a + b|
      ensures PlayedFrom(g, s, origin, (a + b)[i], (pa + pb)[i])
    {
      if i < |a| {
        assert (a + b)[i] == a[i] && (pa + pb)[i] == pa[i];
        assert PlayedFrom(g, s, origin, a[i], pa[i]);
      } else {
        assert (a + b)[i] == b[i - |a|] && (pa + pb)[i] == pb[i - |a|];
        assert PlayedFrom(g, s, origin, b[i - |a|], pb[i - |a|]);
      }
    }
  }

  /** Appending one column's states extends a rotation's played-out prefix by that column. */
  lemma PlayedOutStep(g: Grid, s: Shape, origin: Option<Placement>, dir: int, x: int,
                      states: seq<BeamState>, found: seq<BeamState>)
    requires g.Valid() && s.Valid() && 0 <= dir < 4 && FirstColumn(s) <= x < g.width
    requires PlayedOut(g, s, origin, states, Before(g, s, true, dir, x))
    requires PlayedOut(g, s, origin, found, Candidate(g, s, true, dir, x))
    ensures PlayedOut(g, s, origin, states + found, Before(g, s, true, dir, x + 1))
  {
    BeforeStep(g, s, true, dir, x);
    PlayedOutAppend(g, s, origin, states, Before(g, s, true, dir, x), found, Candidate(g, s, true, dir, x));
  }

  /** The columns of one rotation of a ply, appended to the states found so far. */
  method PlayRotation(board: array2<int>, s: Shape, origin: Option<Placement>, dir: int, states: seq<BeamState>)
    returns (states': seq<BeamState>)
    requires board.Length0 > 0 && s.Valid() && 0 <= dir < 4
    requires PlayedOut(Cells(board), s, origin, states, Before(Cells(board), s, true, dir, FirstColumn(s)))
    ensures PlayedOut(Cells(board), s, origin, states', Before(Cells(board), s, true, dir + 1, FirstColumn(s)))
  {
    ghost var g := Cells(board);
    states' := states;
    for x := FirstColumn(s) to board.Length0
      invariant Cells(board) == g
      invariant PlayedOut(g, s, origin, states', Before(g, s, true, dir, x))
    {
      var found := PlayColumn(board, s, origin, dir, x);
      PlayedOutStep(g, s, origin, dir, x, states', found);
      states' := states' + found;
    }
    BeforeNextRotation(g, s, true, dir);
  }

  /** One ply: every placement of the spawn-checked enumeration, played out, in order. */
  method PlayAll(board: array2<int>, s: Shape, origin: Option<Placement>) returns (states: seq<BeamState>)
    requires board.Length0 > 0 && s.Valid()
    ensures PlayedOut(Cells(board), s, origin, states, LegalMoves(Cells(board), s, true))
  {
    states := [];
    for dir := 0 to 4
      invariant PlayedOut(Cells(board), s, origin, states, Before(Cells(board), s, true, dir, FirstColumn(s)))
    {
      states := PlayRotation(board, s, origin, dir, states);
    }
  }

  /** The entries a ply yields for the placements `ps`. */
  ghost function Ply(g: Grid, s: Shape, origin: Option<Placement>, ps: seq<Placement>): (rs: seq<Ranked>)
    requires g.Valid() && s.Valid() && forall i :: 0 <= i < |ps| ==> 0 <= ps[i].dir < 4
    ensures |rs| == |ps|
  {
    seq(|ps|, i requires 0 <= i < |ps| => Ranked(OriginOf(origin, ps[i]), MoveScore(g, s, ps[i])))
  }

  /** The entries of a whole ply of `s` on `g`. */
  ghost function PlyOf(g: Grid, s: Shape, origin: Option<Placement>): (rs: seq<Ranked>)
    requires g.Valid() && s.Valid()
    ensures |rs| == |LegalMoves(g, s, true)|
  {
    LegalRotations(g, s, true);
    Ply(g, s, origin, LegalMoves(g, s, true))
  }

  lemma PlayedOutRanks(g: Grid, s: Shape, origin: Option<Placement>, states: seq<BeamState>)
    requires g.Valid() && s.Valid()
    requires PlayedOut(g, s, origin, states, LegalMoves(g, s, true))
    ensures Ranks(states) == PlyOf(g, s, origin)
    ensures origin.None? ==> FirstPlyBoards(g, s, states)
  {
  }

  /** Every first-ply entry descends from a legal placement. */
  lemma PlyOrigins(g: Grid, s: Shape)
    requires g.Valid() && s.Valid()
    ensures forall r :: r in PlyOf(g, s, None) ==> r.origin in LegalMoves(g, s, true) && 0 <= r.origin.dir < 4
  {
    LegalRotations(g, s, true);
    var ps := LegalMoves(g, s, true);
    forall r | r in PlyOf(g, s, None)
      ensures r.origin in ps
    {
      var j :| 0 <= j < |ps| && PlyOf(g, s, None)[j] == r;
      assert r.origin == ps[j];
    }
  }

  /**
   * The beam after the first ply: its entries sorted by descending score, at most
   * `BeamWidth` of them kept; every kept entry descends from a legal placement.
   */
  ghost function FirstBeam(g: Grid, s: Shape): (beam: seq<Ranked>)
    requires g.Valid() && s.Valid()
    ensures |beam| == Kept(|LegalMoves(g, s, true)|, BeamWidth)
    ensures forall i :: 0 <= i < |beam| ==> beam[i].origin in LegalMoves(g, s, true) && 0 <= beam[i].origin.dir < 4
  {
    var rs := PlyOf(g, s, None);
    SortMembers(rs);
    PlyOrigins(g, s);
    Sort(rs)[..Kept(|rs|, BeamWidth)]
  }

  /**
   * The second ply: for each beam entry in turn, every placement of the next piece on the board
   * the entry's first move leaves, remembered by that first move.
   */
  ghost function SecondPly(g: Grid, s: Shape, n: Shape, beam: seq<Ranked>): seq<Ranked>
    requires g.Valid() && s.Valid() && n.Valid()
    requires forall i :: 0 <= i < |beam| ==> 0 <= beam[i].origin.dir < 4
  {
    if |beam| == 0 then []
    else
      var last := beam[|beam| - 1];
      SecondPly(g, s, n, beam[..|beam| - 1]) + PlyOf(AfterMove(g, s, last.origin), n, Some(last.origin))
  }

  /**
   * The move `selectBestMoveBeamSearch` returns, from the live board `g`, the current piece `s`
   * and the next piece, if known.
   */
  ghost function BeamChoice(g: Grid, s: Shape, next: Option<Shape>): Option<Placement>
    requires g.Valid() && s.Valid() && (next.Some? ==> next.value.Valid())
  {
    var beam := FirstBeam(g, s);
    // LOOKAHEAD_DEPTH is 2, so the source's test `LOOKAHEAD_DEPTH > 1` always holds
    if next.Some? && |Continuations(g, s, next.value)| > 0 then
      AverageChoice(Continuations(g, s, next.value))
    else if |beam| > 0 then Some(beam[0].origin)
    else None
  }

  /** Insertion keeps a leading entry scoring at least as much as the inserted one in front. */
  lemma InsertCons(r: Ranked, a: Ranked, t: seq<Ranked>)
    requires a.score >= r.score
    ensures Insert(r, [a] + t) == [a] + Insert(r, t)
  {
    assert ([a] + t)[1..] == t;
  }

  /** Insertion passes over an entry scoring at least as much as the inserted one. */
  lemma InsertSkip(r: Ranked, rs: seq<Ranked>, j: int)
    requires 0 <= j < |rs| && rs[j].score >= r.score
    ensures rs[..j] + Insert(r, rs[j..]) == rs[..j + 1] + Insert(r, rs[j + 1..])
  {
    assert rs[j..] == [rs[j]] + rs[j + 1..];
    InsertCons(r, rs[j], rs[j + 1..]);
    assert rs[..j + 1] == rs[..j] + [rs[j]];
  }

  /** Insertion stops before an entry scoring below the inserted one, or at the end. */
  lemma InsertHere(r: Ranked, rs: seq<Ranked>, j: int)
    requires 0 <= j <= |rs| && (j == |rs| || rs[j].score < r.score)
    ensures Insert(r, rs[j..]) == [r] + rs[j..]
  {
  }

  /** The projection of a state put between two parts of a sequence. */
  lemma RanksSplit(st: BeamState, sorted: seq<BeamState>, j: int)
    requires 0 <= j <= |sorted|
    ensures Ranks(sorted[..j] + [st] + sorted[j..]) == Ranks(sorted)[..j] + [Rank(st)] + Ranks(sorted)[j..]
  {
  }

  /** A state put between two parts of a sequence: every entry is the state or from the sequence. */
  lemma SplitMembers(st: BeamState, sorted: seq<BeamState>, j: int)
    requires 0 <= j <= |sorted|
    ensures var out := sorted[..j] + [st] + sorted[j..];
            forall i :: 0 <= i < |out| ==> out[i] in sorted || out[i] == st
  {
    var out := sorted[..j] + [st] + sorted[j..];
    forall i | 0 <= i < |out|
      ensures out[i] in sorted || out[i] == st
    {
      if i < j {
        assert out[i] == sorted[i];
      } else if i > j {
        assert out[i] == sorted[i - 1];
      }
    }
  }

  /** Insertion passes over every entry of a prefix scoring at least as much as the inserted one. */
  lemma {:induction false} InsertPrefix(r: Ranked, rs: seq<Ranked>, j: int)
    requires 0 <= j <= |rs| && forall k :: 0 <= k < j ==> rs[k].score >= r.score
    ensures Insert(r, rs) == rs[..j] + Insert(r, rs[j..])
  {
    if j == 0 {
      assert rs[0..] == rs;
    } else {
      InsertPrefix(r, rs, j - 1);
      InsertSkip(r, rs, j - 1);
    }
  }

  /** The scan for the first state scoring below `st`. */
  method FindSplit(st: BeamState, sorted: seq<BeamState>) returns (j: int)
    ensures 0 <= j <= |sorted|
    ensures forall k :: 0 <= k < j ==> sorted[k].score >= st.score
    ensures j == |sorted| || sorted[j].score < st.score
  {
    j := 0;
    while j < |sorted| && sorted[j].score >= st.score
      invariant 0 <= j <= |sorted|
      invariant forall k :: 0 <= k < j ==> sorted[k].score >= st.score
    {
      j := j + 1;
    }
  }

  /** One insertion of the sort: the state goes before the first state scoring below it. */
  method InsertState(st: BeamState, sorted: seq<BeamState>) returns (out: seq<BeamState>)
    ensures Ranks(out) == Insert(Rank(st), Ranks(sorted))
    ensures forall i :: 0 <= i < |out| ==> out[i] in sorted || out[i] == st
  {
    var j := FindSplit(st, sorted);
    out := sorted[..j] + [st] + sorted[j..];
    InsertPrefix(Rank(st), Ranks(sorted), j);
    InsertHere(Rank(st), Ranks(sorted), j);
    RanksSplit(st, sorted, j);
    SplitMembers(st, sorted, j);
  }

  /** The projection of a concatenation. */
  lemma RanksAppend(a: seq<BeamState>, b: seq<BeamState>)
    ensures Ranks(a + b) == Ranks(a) + Ranks(b)
  {
  }

  /** The projection of a prefix one state longer. */
  lemma RanksSnoc(sts: seq<BeamState>, i: int)
    requires 0 <= i < |sts|
    ensures Ranks(sts[..i + 1]) == Ranks(sts[..i]) + [Rank(sts[i])]
  {
  }

  /** `states.sort((a, b) => b.score - a.score)` with a stable sort. */
  method SortByScore(states: seq<BeamState>) returns (sorted: seq<BeamState>)
    ensures Ranks(sorted) == Sort(Ranks(states))
    ensures forall i :: 0 <= i < |sorted| ==> sorted[i] in states
  {
    sorted := [];
    for i := 0 to |states|
      invariant Ranks(sorted) == Sort(Ranks(states[..i]))
      invariant forall k :: 0 <= k < |sorted| ==> sorted[k] in states
    {
      RanksSnoc(states, i);
      SortSnoc(Ranks(states[..i]), Rank(states[i]));
      sorted := InsertState(states[i], sorted);
    }
    assert states[..|states|] == states;
  }

  /** The second ply of a beam one entry longer. */
  lemma SecondPlySnoc(g: Grid, s: Shape, n: Shape, beam: seq<Ranked>, r: Ranked)
    requires g.Valid() && s.Valid() && n.Valid()
    requires forall i :: 0 <= i < |beam| ==> 0 <= beam[i].origin.dir < 4
    requires 0 <= r.origin.dir < 4
    ensures SecondPly(g, s, n, beam + [r]) ==
              SecondPly(g, s, n, beam) + PlyOf(AfterMove(g, s, r.origin), n, Some(r.origin))
  {
    assert (beam + [r])[..|beam|] == beam;
  }

  /** The second ply of a beam prefix one state longer. */
  lemma SecondPlyPrefix(g: Grid, s: Shape, n: Shape, beam: seq<BeamState>, i: int)
    requires g.Valid() && s.Valid() && n.Valid() && 0 <= i < |beam|
    requires forall k :: 0 <= k < |beam| ==> 0 <= beam[k].firstMove.dir < 4
    ensures SecondPly(g, s, n, Ranks(beam[..i + 1])) ==
              SecondPly(g, s, n, Ranks(beam[..i])) + PlyOf(AfterMove(g, s, beam[i].firstMove), n, Some(beam[i].firstMove))
  {
    RanksSnoc(beam, i);
    SecondPlySnoc(g, s, n, Ranks(beam[..i]), Rank(beam[i]));
  }

  /** The next piece played out on one beam state's board, remembering the state's first move. */
  method PlayState(state: BeamState, n: Shape, ghost g: Grid, ghost s: Shape) returns (found: seq<BeamState>)
    requires g.Valid() && s.Valid() && n.Valid() && g.width > 0
    requires 0 <= state.firstMove.dir < 4 && Cells(state.board) == AfterMove(g, s, state.firstMove)
    ensures Ranks(found) == PlyOf(AfterMove(g, s, state.firstMove), n, Some(state.firstMove))
  {
    found := PlayAll(state.board, n, Some(state.firstMove));
    PlayedOutRanks(Cells(state.board), n, Some(state.firstMove), found);
  }

  /** The second ply: each beam state's board played out with the next piece, in beam order. */
  method PlayNext(beam: seq<BeamState>, n: Shape, ghost g: Grid, ghost s: Shape) returns (nextBeam: seq<BeamState>)
    requires g.Valid() && s.Valid() && n.Valid() && g.width > 0
    requires FirstPlyBoards(g, s, beam)
    ensures Ranks(nextBeam) == SecondPly(g, s, n, Ranks(beam))
  {
    nextBeam := [];
    assert forall k :: 0 <= k < |beam| ==> 0 <= beam[k].firstMove.dir < 4;
    for i := 0 to |beam|
      modifies {}
      invariant Ranks(nextBeam) == SecondPly(g, s, n, Ranks(beam[..i]))
    {
      var found := PlayState(beam[i], n, g, s);
      SecondPlyPrefix(g, s, n, beam, i);
      RanksAppend(nextBeam, found);
      nextBeam := nextBeam + found;
    }
    assert beam[..|beam|] == beam;
  }

  /** The grouping loop over the sorted second ply, building `moveScores`. */
  method GroupByFirstMove(nextBeam: seq<BeamState>) returns (groups: seq<Group>)
    ensures groups == GroupAll(Ranks(nextBeam))
  {
    groups := [];
    for i := 0 to |nextBeam|
      invariant groups == GroupAll(Ranks(nextBeam[..i]))
    {
      var state := nextBeam[i];
      var key := KeyOf(state.firstMove);
      assert Ranks(nextBeam[..i + 1])[..i] == Ranks(nextBeam[..i]);
      match FindGroup(groups, key)
      case None =>
        groups := groups + [Group(key, state.firstMove, [state.score])];
      case Some(k) =>
        groups := groups[k := groups[k].(scores := groups[k].scores + [state.score])];
    }
    assert nextBeam[..|nextBeam|] == nextBeam;
  }

  /** States taken from states whose boards match their first moves match as well. */
  lemma BoardsKept(g: Grid, s: Shape, states: seq<BeamState>, sub: seq<BeamState>)
    requires g.Valid() && s.Valid() && FirstPlyBoards(g, s, states)
    requires forall i :: 0 <= i < |sub| ==> sub[i] in states
    ensures FirstPlyBoards(g, s, sub)
  {
    forall i | 0 <= i < |sub|
      ensures 0 <= sub[i].firstMove.dir < 4 && Cells(sub[i].board) == AfterMove(g, s, sub[i].firstMove)
    {
      var j :| 0 <= j < |states| && states[j] == sub[i];
    }
  }

  /** The second ply sorted, grouped by first move, and the best group's move picked. */
  method BestByAverage(nextBeam: seq<BeamState>) returns (bestMove: Option<Placement>)
    ensures bestMove == AverageChoice(Sort(Ranks(nextBeam)))
  {
    var sorted := SortByScore(nextBeam);
    var groups := GroupByFirstMove(sorted);
    GroupChoice(Ranks(sorted));
    bestMove := PickBestGroup(groups);
  }

  /** `beam.sort(...)` followed by `beam.slice(0, BEAM_WIDTH)`. */
  method KeepBest(states: seq<BeamState>) returns (beam: seq<BeamState>)
    ensures Ranks(beam) == Sort(Ranks(states))[..Kept(|states|, BeamWidth)]
    ensures forall i :: 0 <= i < |beam| ==> beam[i] in states
  {
    var sorted := SortByScore(states);
    beam := sorted[..Kept(|sorted|, BeamWidth)];
    assert Ranks(beam) == Ranks(sorted)[..Kept(|sorted|, BeamWidth)];
  }

  /** The first ply on a copy of the live board, sorted, cut to `BeamWidth` states. */
  method FirstPly(blocks: array2<int>, s: Shape) returns (beam: seq<BeamState>)
    requires blocks.Length0 > 0 && s.Valid()
    ensures Ranks(beam) == FirstBeam(Cells(blocks), s)
    ensures FirstPlyBoards(Cells(blocks), s, beam)
  {
    ghost var g := Cells(blocks);
    var currentBoard := CopyBlocks(blocks);
    var states := PlayAll(currentBoard, s, None);
    PlayedOutRanks(g, s, None, states);
    beam := KeepBest(states);
    BoardsKept(g, s, states, beam);
  }

  /** `selectBestMoveBeamSearch`: the live board is only read. */
  method SelectBestMoveBeamSearch(blocks: array2<int>, s: Shape, next: Option<Shape>) returns (best: Option<Placement>)
    requires blocks.Length0 > 0 && s.Valid() && (next.Some? ==> next.value.Valid())
    ensures best == BeamChoice(Cells(blocks), s, next)
  {
    ghost var g := Cells(blocks);
    var beam := FirstPly(blocks, s);
    if next.Some? {
      var nextBeam := PlayNext(beam, next.value, g, s);
      if |nextBeam| > 0 {
        best := BestByAverage(nextBeam);
        return;
      }
    }
    best := if |beam| > 0 then Some(beam[0].firstMove) else None;
  }

  /** Every entry of the second ply descends from the first move of some beam entry. */
  lemma {:induction false} SecondPlyOrigins(g: Grid, s: Shape, n: Shape, beam: seq<Ranked>)
    requires g.Valid() && s.Valid() && n.Valid()
    requires forall i :: 0 <= i < |beam| ==> 0 <= beam[i].origin.dir < 4
    ensures forall r :: r in SecondPly(g, s, n, beam) ==> exists i :: 0 <= i < |beam| && beam[i].origin == r.origin
  {
    if |beam| > 0 {
      var init, last := beam[..|beam| - 1], beam[|beam| - 1];
      SecondPlyOrigins(g, s, n, init);
      var tail := PlyOf(AfterMove(g, s, last.origin), n, Some(last.origin));
      forall r | r in SecondPly(g, s, n, beam)
        ensures exists i :: 0 <= i < |beam| && beam[i].origin == r.origin
      {
        if r in SecondPly(g, s, n, init) {
          var i :| 0 <= i < |init| && init[i].origin == r.origin;
          assert beam[i] == init[i];
        } else {
          var j :| 0 <= j < |tail| && tail[j] == r;
          assert beam[|beam| - 1].origin == r.origin;
        }
      }
    }
  }

  /** Each legal placement appears in the first ply with its own score. */
  lemma PlyHasLegal(g: Grid, s: Shape, p: Placement)
    requires g.Valid() && s.Valid() && Legal(g, s, true, p)
    ensures Ranked(p, MoveScore(g, s, p)) in PlyOf(g, s, None)
  {
    LegalMovesSpec(g, s, true);
    var ps := LegalMoves(g, s, true);
    var j :| 0 <= j < |ps| && ps[j] == p;
    assert PlyOf(g, s, None)[j] == Ranked(p, MoveScore(g, s, p));
  }

  /** The first kept entry scores at least as high as every legal placement. */
  lemma FirstBeamBest(g: Grid, s: Shape)
    requires g.Valid() && s.Valid() && |FirstBeam(g, s)| > 0
    ensures forall p :: Legal(g, s, true, p) ==> MoveScore(g, s, p) <= FirstBeam(g, s)[0].score
    ensures FirstBeam(g, s)[0].score == MoveScore(g, s, FirstBeam(g, s)[0].origin)
  {
    var rs := PlyOf(g, s, None);
    SortHeadIsMax(rs);
    assert FirstBeam(g, s)[0] == Sort(rs)[0];
    forall p | Legal(g, s, true, p)
      ensures MoveScore(g, s, p) <= Sort(rs)[0].score
    {
      PlyHasLegal(g, s, p);
    }
    LegalRotations(g, s, true);
    var j :| 0 <= j < |rs| && rs[j] == Sort(rs)[0];
  }

  /** With a continuation, the averaging picks the first move of a kept beam entry. */
  lemma LookaheadFromBeam(g: Grid, s: Shape, n: Shape)
    requires g.Valid() && s.Valid() && n.Valid() && |Continuations(g, s, n)| > 0
    ensures AverageChoice(Continuations(g, s, n)).Some?
    ensures exists i :: 0 <= i < |FirstBeam(g, s)| && FirstBeam(g, s)[i].origin == AverageChoice(Continuations(g, s, n)).value
  {
    var beam := FirstBeam(g, s);
    var rs := Continuations(g, s, n);
    GroupChoice(rs);
    var m := AverageChoice(rs).value;
    var j :| 0 <= j < |rs| && rs[j].origin == m;
    SortMembers(SecondPly(g, s, n, beam));
    SecondPlyOrigins(g, s, n, beam);
  }

  /**
   * `selectBestMoveBeamSearch` returns nothing exactly when the current piece has no legal
   * placement; otherwise a legal placement that is the first move of a kept beam entry.
   */
  lemma BeamChoiceLegal(g: Grid, s: Shape, next: Option<Shape>)
    requires g.Valid() && s.Valid() && (next.Some? ==> next.value.Valid())
    ensures BeamChoice(g, s, next).None? <==> forall p :: !Legal(g, s, true, p)
    ensures BeamChoice(g, s, next).Some? ==>
              && Legal(g, s, true, BeamChoice(g, s, next).value)
              && exists i :: 0 <= i < |FirstBeam(g, s)| && FirstBeam(g, s)[i].origin == BeamChoice(g, s, next).value
  {
    LegalMovesSpec(g, s, true);
    if |LegalMoves(g, s, true)| > 0 {
      assert LegalMoves(g, s, true)[0] in LegalMoves(g, s, true);
    }
    if next.Some? && |Continuations(g, s, next.value)| > 0 {
      LookaheadFromBeam(g, s, next.value);
    }
  }

  /**
   * Without a next piece, or when no placement of it follows any kept entry, the choice is the
   * first kept entry: a placement whose score is at least every legal placement's.
   */
  lemma BeamFallback(g: Grid, s: Shape, next: Option<Shape>)
    requires g.Valid() && s.Valid() && (next.Some? ==> next.value.Valid())
    requires next.None? || |Continuations(g, s, next.value)| == 0
    ensures BeamChoice(g, s, next) == if |FirstBeam(g, s)| > 0 then Some(FirstBeam(g, s)[0].origin) else None
    ensures BeamChoice(g, s, next).Some? ==>
              forall p :: Legal(g, s, true, p) ==> MoveScore(g, s, p) <= MoveScore(g, s, BeamChoice(g, s, next).value)
  {
    if |FirstBeam(g, s)| > 0 {
      FirstBeamBest(g, s);
    }
  }

  /** The second ply from the kept beam, sorted: the entries the averaging groups. */
  ghost function Continuations(g: Grid, s: Shape, n: Shape): seq<Ranked>
    requires g.Valid() && s.Valid() && n.Valid()
  {
    Sort(SecondPly(g, s, n, FirstBeam(g, s)))
  }

  /**
   * With the next piece and at least one continuation, the choice is the move of the first
   * group of continuations (grouped by first move, in order of first appearance in the sorted
   * second ply) whose mean score is highest; each group holds exactly the scores under its key.
   */
  lemma BeamLookahead(g: Grid, s: Shape, n: Shape)
    requires g.Valid() && s.Valid() && n.Valid()
    requires |Continuations(g, s, n)| > 0
    ensures NonEmptyGroups(GroupAll(Continuations(g, s, n)))
    ensures forall i :: 0 <= i < |GroupAll(Continuations(g, s, n))| ==>
              GroupAll(Continuations(g, s, n))[i].scores == ScoresWith(Continuations(g, s, n), GroupAll(Continuations(g, s, n))[i].key)
    ensures BeamChoice(g, s, Some(n)).Some?
    ensures exists k :: 0 <= k < |GroupAll(Continuations(g, s, n))| && GroupAll(Continuations(g, s, n))[k].move == BeamChoice(g, s, Some(n)).value
                          && IsFirstMax(Means(GroupAll(Continuations(g, s, n))), k)
  {
    var rs := Continuations(g, s, n);
    assert BeamChoice(g, s, Some(n)) == AverageChoice(rs);
    GroupChoice(rs);
    GroupScores(rs);
  }
}
