# Tetris computer players, modelled in Dafny

This project models the computer players of a browser Tetris clone: the greedy heuristic
agent (`heuristic_agent.js`) and the two search agents of `advanced_agent.js`, beam search
and Monte Carlo tree search (MCTS). The board is `board[x][y]`: column `x` runs over `[0, nx)`,
row `y` over `[0, ny)` with row 0 at the top, and 0 marks an empty cell. Boards are
`array2<int>` values indexed `board[x, y]`, with `nx = board.Length0` and `ny = board.Length1`.
The model has one module per part of the program:

- `Board` (board.dfy):
  - the value snapshot `Grid` of a board;
  - piece shapes, given as their offsets per rotation;
  - `occupiedOnBoard`;
  - stamping a piece onto a board, clamped to the board;
  - `copyBlocks`.
- `Lines` (lines.dfy):
  - `clearLinesFromBoard`, a bottom-up in-place compaction that re-checks a row after a shift;
  - `applyMoveToBoard`.
- `Moves` (moves.dfy):
  - the drop position (`getDropPosition` and `getDropPositionForBeam`);
  - one enumeration function `LegalMoves(g, s, spawnCheck)`. It covers the greedy and beam loops (with the row-0 spawn check) and `getAllMovesForMCTS` (without it).
- `Features` and `Evaluate` (features.dfy, evaluate.dfy):
  - the board features: column heights, aggregate and maximum height, complete lines, holes, blockades, bumpiness and wells;
  - the two weighted evaluators, over exact reals.
- `Choice` (choice.dfy): the first-maximum selection that every strict `>` scan of the program performs.
- `Greedy` (greedy.dfy): `getPossibleMoves` and `selectBestMove`.
- `Sorting` and `Grouping` (sorting.dfy, grouping.dfy):
  - the stable descending sort by score;
  - the top-4 slice;
  - the grouping of continuations by first move `(x, dir)`, in order of first appearance;
  - the arithmetic mean of each group.
- `Beam` (beam.dfy): `selectBestMoveBeamSearch`.
- `Mcts` (mcts.dfy): `MCTSNode` and `selectBestMoveMCTS`. The tree is a sequence of nodes:
  - the root is at index 0;
  - each node names its parent and its children by index, and a parent comes before its children.

The imperative operations are Dafny methods with loops. Each is proved against a
specification function of the board snapshot, and the properties the program relies on are
proved about those functions.

`getAllMovesForMCTS` (advanced_agent.js:309-320) has no row-0 check, unlike the greedy and
beam loops; `Moves.SpawnCheckedAreMctsMoves` states how the two enumerations relate.

## Model

| member | source | states |
|---|---|---|
| Board.CopyBlocks | heuristic_agent.js:106-115 | the copy is a newly allocated array equal to the input cell for cell, so writes into it cannot reach the input |
| Board.OccupiedOnBoard | advanced_agent.js:333-341 | true exactly when the piece at that anchor and rotation collides: some covered cell is outside `[0,nx) x [0,ny)` or holds a non-zero value |
| Board.AnyBlockedExists | advanced_agent.js:335-339 | the scan over a rotation's cells reports a collision exactly when one of its cells is blocked |
| Board.Stamp | heuristic_agent.js:141-145 | the stamped grid has the same size; in-range cells covered by the piece hold the piece type, and every other cell keeps its value |
| Board.PlacePiece | advanced_agent.js:22-26 | after the in-place stamping, the board is the stamp of its old contents |
| Lines.RowIsComplete | advanced_agent.js:122-128 | true exactly when every cell of row `y` is non-zero |
| Lines.ShiftRowsDown | advanced_agent.js:131-139 | the board becomes the old board with row `y` dropped, rows above it moved down by one, and an empty row 0 |
| Lines.ShiftedDownCells | advanced_agent.js:131-139 | after the shift, row 0 is empty, each row from 1 to `y` holds the old row above it, and rows below `y` are unchanged |
| Lines.ClearStep | advanced_agent.js:121-141 | one pass of the scan keeps the compaction invariant; it either removes a complete row and re-checks the same `y` with one more line counted, or moves up one row |
| Lines.ClearLinesFromBoard | advanced_agent.js:119-144 | the count returned is the number of complete rows of the input, and the board becomes the cleared grid (termination despite the `y++` is part of the proof) |
| Lines.ClearedCells | advanced_agent.js:119-144 | the cleared grid has `linesCleared` all-zero rows on top, then the kept rows of the input in order; lines plus kept rows make up the height |
| Lines.KeptExactly | advanced_agent.js:129-141 | a row of the input survives the clearing exactly when it is not complete |
| Lines.KeptInOrder | advanced_agent.js:119-144 | the surviving rows keep their top-to-bottom order |
| Lines.KeptAt | advanced_agent.js:119-144 | each kept row is the input row at its recorded index, and it is not complete |
| Lines.ClearIdempotent | advanced_agent.js:119-144 | after clearing, no row is complete; clearing again counts 0 lines and changes nothing |
| Lines.ClearedFilled | advanced_agent.js:119-144 | the number of non-zero cells falls by exactly `nx * linesCleared` |
| Lines.ApplyMoveToBoard | advanced_agent.js:322-331 | a new board that is the input with the piece stamped and lines then cleared; the input is not modified |
| Moves.DropFrom | advanced_agent.js:111-117 | starting from row `y`, the resting row lies in `[y, ny]`; the piece is free at every row after `y` up to it; and either it is `ny` or the piece collides one row lower |
| Moves.DropRowUnique | heuristic_agent.js:178-184 | the drop row is the only row with that characterisation, so both drop functions agree |
| Moves.GetDropPosition | heuristic_agent.js:178-184 | the loop returns the drop row `DropRow` (used for `getDropPositionForBeam`, advanced_agent.js:111-117, too) |
| Moves.TryColumn | advanced_agent.js:312-316 | one column of one rotation yields exactly the candidate placement of the enumeration function (with or without the spawn check) |
| Moves.TryRotation | advanced_agent.js:311-318 | the column loop of one rotation extends the enumeration so far by that rotation's placements |
| Moves.GetAllMovesForMCTS | advanced_agent.js:309-320 | the moves are exactly the enumeration without the spawn check, in enumeration order |
| Moves.LegalMovesSpec | heuristic_agent.js:118-137 | a placement is enumerated exactly when it is legal: `dir` in 0..3, `x` in `[-size+1, nx)`, free at row 0 (when spawn-checked), `y` the drop row, and free there. The list is strictly increasing, rotation-major then `x` ascending |
| Moves.BeforeMembers | heuristic_agent.js:122-156 | the placements enumerated before rotation `dir` and column `x` are exactly the legal ones that come earlier in rotation-major order |
| Moves.BeforeOrdered | heuristic_agent.js:122-156 | those placements all precede `(dir, x)`, and they come out strictly increasing |
| Moves.LegalRotations | advanced_agent.js:311 | every enumerated placement has a rotation in 0..3 |
| Moves.SpawnCheckedAreMctsMoves | advanced_agent.js:14-19 | every spawn-checked placement (greedy and beam) is also an MCTS move with the same drop row. An MCTS move is spawn-checked exactly when it is free at row 0 |
| Features.TopFrom | heuristic_agent.js:16-23 | the scan down from row `y` stops at the first non-zero cell of the column, or at `ny` |
| Features.ColumnHeight | heuristic_agent.js:15-24 | the height is in `[0, ny]`. It is 0 exactly when the column is empty. Otherwise the cell at row `ny - h` is non-zero and every row above it is empty |
| Features.Heights | heuristic_agent.js:15-24 | one height per column, each in `[0, ny]` |
| Features.Max0 | heuristic_agent.js:20 | the running `Math.max` from 0 is non-negative and at least every height |
| Features.Max0Attained | heuristic_agent.js:20 | the maximum height is 0 or the height of some column |
| Features.HeightTotals | heuristic_agent.js:15-24 | maxHeight is at most `ny`, and aggregateHeight lies between maxHeight and `nx * maxHeight` |
| Features.HoleMeans | heuristic_agent.js:42-51 | a cell is a hole exactly when it is empty and some cell above it in the same column is non-zero |
| Features.CoveredBy | heuristic_agent.js:79-85 | a cell with a non-zero cell somewhere above it is covered |
| Features.HoleIsBlockade | heuristic_agent.js:72-89 | a cell counts as a blockade exactly when it counts as a hole, because the cell that set `blockFound` covers it |
| Features.BlockadesAreHoles | heuristic_agent.js:72-89 | the blockade count always equals the hole count |
| Features.FlatBumpiness | heuristic_agent.js:54-56 | bumpiness is 0 exactly when all columns have the same height |
| Features.WellDepth | heuristic_agent.js:59-69 | a column adds to wells exactly when it is strictly lower than both neighbours, with the board edge counting as height `ny`; the depth added is never negative |
| Features.MeasuresOf | heuristic_agent.js:2-89 | the features of a grid respect their bounds: maxHeight in `[0, ny]`, aggregateHeight between maxHeight and `nx * maxHeight`, completeLines in `[0, ny]`, blockades equal to holes and at most `nx * ny`, bumpiness and wells non-negative |
| Features.MeasureColumn | heuristic_agent.js:16-23 | the inner loop finds the column's height |
| Features.MeasureColumns | heuristic_agent.js:15-24 | the heights loop returns the column heights, their sum as aggregateHeight and their maximum as maxHeight |
| Features.CountCompleteLines | heuristic_agent.js:27-39 | completeLines and linesCleared are both the number of rows whose every cell is non-zero |
| Features.CountHoles | heuristic_agent.js:42-51 | the number of holes |
| Features.IsCovered | heuristic_agent.js:79-85 | the upward scan reports whether a non-zero cell lies above the hole |
| Features.ColumnBlockades | heuristic_agent.js:73-88 | the blockades of one column |
| Features.CountBlockades | heuristic_agent.js:72-89 | the number of blockades |
| Features.ColumnHolesAndBlockades | advanced_agent.js:170-187 | one column's holes and blockades, counted in the one pass of the lookahead evaluator |
| Features.CountHolesAndBlockades | advanced_agent.js:168-188 | the numbers of holes and blockades |
| Features.SumBumpiness | heuristic_agent.js:54-56 | the sum of absolute differences of neighbouring heights |
| Features.SumWells | heuristic_agent.js:59-69 | the sum of the well depths |
| Evaluate.EvaluateBoard | heuristic_agent.js:2-103 | the score is the greedy evaluation of the board: the eight features weighted as in the source |
| Evaluate.EvaluateBeamBoard | advanced_agent.js:146-216 | the score is the lookahead evaluation of the board with the given `linesCleared` |
| Evaluate.GreedyScoreCombined | heuristic_agent.js:93-102 | completeLines equals linesCleared and blockades equal holes. So the greedy score weighs complete lines by 2.260666 and holes by -0.60663, and never exceeds 2.260666 per complete line |
| Evaluate.BeamScoreLines | advanced_agent.js:207-215 | for a fixed board, each extra cleared line adds exactly 2.0, so the score strictly increases with `linesCleared` |
| Evaluate.BeamScoreFromGreedyFeatures | advanced_agent.js:146-215 | the lookahead evaluator uses the same features as the greedy one (holes weigh -0.66 once blockades equal holes) with its own weights and the given line count |
| Choice.FirstMax | heuristic_agent.js:163-172 | a scan from -Infinity with strict `>` finds nothing exactly on an empty list; otherwise it finds the first index holding the maximum |
| Choice.FirstMaxStep | heuristic_agent.js:166-172 | one step of the scan: a new element replaces the best so far only when strictly greater |
| Choice.FirstMaxUnique | heuristic_agent.js:166-172 | the first maximum is the only index the scan can return |
| Greedy.GreedyColumn | heuristic_agent.js:131-154 | one column yields the candidate placement of the enumeration, each with a new board that is the live board with the piece stamped |
| Greedy.GreedyRotation | heuristic_agent.js:122-156 | the column loop of one rotation appends that rotation's moves and keeps the earlier ones; new boards are newly allocated |
| Greedy.GetPossibleMoves | heuristic_agent.js:118-158 | the moves are the spawn-checked enumeration in order, each paired with a new board that is the live board with the piece stamped (no lines cleared). The live board is not changed |
| Greedy.SelectBestMove | heuristic_agent.js:161-175 | the result is null exactly when the greedy choice is; otherwise it is that placement, with its stamped board |
| Greedy.GreedyChoice | heuristic_agent.js:161-175 | null exactly when no placement is legal. Otherwise the choice is legal, scores at least as much as every legal placement, and strictly more than every legal placement enumerated before it |
| Greedy.EarlierInOrder | heuristic_agent.js:122-131 | in the increasing enumeration, a placement that precedes another comes at an earlier index |
| Sorting.InsertPerm | advanced_agent.js:43 | insertion adds exactly the inserted entry to the multiset of entries |
| Sorting.InsertDescending | advanced_agent.js:43 | insertion into a descending list keeps it descending |
| Sorting.Sort | advanced_agent.js:43 | the sort by `b.score - a.score` returns a list of the same length in non-increasing score order |
| Sorting.SortPerm | advanced_agent.js:43 | the sorted list is a permutation of the input |
| Sorting.SortStable | advanced_agent.js:43 | the sort is stable: the entries with any given score keep their relative order |
| Sorting.SortMembers | advanced_agent.js:43 | every sorted entry comes from the input |
| Sorting.SortHeadIsMax | advanced_agent.js:43 | on a non-empty list, the first sorted entry comes from the input and scores at least as much as every entry |
| Sorting.TopEntries | advanced_agent.js:43-44 | after sort and slice, the beam holds `min(4, n)` entries in non-increasing order. No discarded entry outscores a kept one, and kept and discarded entries together are the input |
| Grouping.FindGroup | advanced_agent.js:85-86 | the lookup finds no group exactly when no group has the key; otherwise it finds a group with that key |
| Grouping.AddEntry | advanced_agent.js:84-90 | adding one continuation appends its score to the group with its key. If no group has that key, it opens a new group at the end holding its move and score. Keys stay distinct |
| Grouping.GroupKeysDistinct | advanced_agent.js:83-90 | no two groups share a key |
| Grouping.GroupKeysPresent | advanced_agent.js:83-90 | every group's key is the key of some continuation |
| Grouping.EntryKeysGrouped | advanced_agent.js:83-90 | every continuation's key has a group |
| Grouping.GroupScores | advanced_agent.js:83-90 | each group holds exactly the scores of the continuations with its key, in order, and at least one. Its move has that key and is the first move of some continuation |
| Grouping.MeanBounds | advanced_agent.js:96 | the mean of scores lying between two bounds lies between the same bounds |
| Grouping.Average | advanced_agent.js:96 | the reduce-then-divide loop returns the arithmetic mean |
| Grouping.PickBestGroup | advanced_agent.js:92-101 | the loop over groups returns the move of the first group with the highest mean, or null when there are no groups |
| Grouping.GroupChoice | advanced_agent.js:82-103 | the averaging picks a move exactly when there are continuations. That move is some continuation's first move and belongs to the first group with the highest mean |
| Beam.PlayPlacement | advanced_agent.js:21-29 | the copied board with the piece stamped and lines cleared, its lookahead score, and the first move it descends from |
| Beam.PlayColumn | advanced_agent.js:15-37 | one column yields the played-out candidate placement of the spawn-checked enumeration |
| Beam.PlayRotation | advanced_agent.js:15-39 | one rotation extends the played-out enumeration by its placements |
| Beam.PlayAll | advanced_agent.js:14-40 | a whole ply yields one state per spawn-checked placement, in enumeration order, each with its board, score and first move |
| Beam.PlayedOutRanks | advanced_agent.js:14-40 | the scores and first moves of a played-out ply are those of the ply specification, and on the first ply each board is what its first move leaves |
| Beam.PlyOrigins | advanced_agent.js:31-35 | every first-ply entry remembers a legal placement with a rotation in 0..3 |
| Beam.FirstBeam | advanced_agent.js:43-44 | the kept beam has `min(4, n)` entries, each descending from a legal placement |
| Beam.FindSplit | advanced_agent.js:43 | the insertion point of a state into a sorted list follows every entry scoring at least as much, and comes before the first entry scoring less |
| Beam.InsertState | advanced_agent.js:43 | inserting one state at that point is the stable insertion of its score, and every resulting state is an input state or the new one |
| Beam.SortByScore | advanced_agent.js:43 | the states are sorted stably by descending score, and every sorted state comes from the input |
| Beam.KeepBest | advanced_agent.js:43-44 | the beam is the first `min(4, n)` entries of the stable sort, and each is an input state |
| Beam.FirstPly | advanced_agent.js:9-44 | the first ply, sorted and sliced, is the kept beam, and each kept state's board is what its first move leaves on the live board |
| Beam.PlayState | advanced_agent.js:50-76 | the next piece played out on one beam state's board yields that board's ply, remembering the state's first move |
| Beam.PlayNext | advanced_agent.js:47-77 | the second ply is each beam state's continuations, in beam order |
| Beam.SecondPlyOrigins | advanced_agent.js:71 | every continuation remembers the first move of some beam entry |
| Beam.GroupByFirstMove | advanced_agent.js:82-90 | the groups are those of the continuations in order of first appearance |
| Beam.BestByAverage | advanced_agent.js:80-103 | sorting the continuations, then grouping and averaging them, gives the averaging choice on the sorted continuations |
| Beam.SelectBestMoveBeamSearch | advanced_agent.js:9-109 | the result is the beam choice of the live board, the current piece and the next piece (if known) |
| Beam.FirstBeamBest | advanced_agent.js:43-44 | `beam[0]` scores at least as much as every legal first-ply placement, and its score is its move's score |
| Beam.BeamChoiceLegal | advanced_agent.js:9-109 | null exactly when no first-ply placement is legal. Otherwise the move is legal and is the first move of a kept beam entry |
| Beam.BeamFallback | advanced_agent.js:107-108 | with no next piece, or no continuation, the choice is `beam[0]`'s move (null on an empty beam); it scores at least as much as every legal placement |
| Beam.LookaheadFromBeam | advanced_agent.js:79-103 | with continuations, the choice is the first move of some kept beam entry |
| Beam.BeamLookahead | advanced_agent.js:79-103 | with continuations, every group is non-empty and holds exactly its key's scores. The choice is the move of the first group with the highest mean |
| Mcts.Ucb1 | advanced_agent.js:239-246 | unvisited nodes get priority: an unvisited node's value has nothing above it and is above every finite value, while a visited node's value is finite, below every unvisited node's and not above itself |
| Mcts.BestOf | advanced_agent.js:250-252 | the reduce returns an index in range. If some child has infinite priority, it is the first such child; if all priorities are finite, it is the first maximum |
| Mcts.BestChildChoice | advanced_agent.js:239-253 | `selectBestChild` returns the first unvisited child whenever one exists, and otherwise the first child with the highest UCB1 value |
| Mcts.SelectBestChild | advanced_agent.js:248-253 | the loop version of the reduce returns that child |
| Mcts.Leaf | advanced_agent.js:266-269 | the walk down from a node ends at a node without children, at or after it |
| Mcts.Descend | advanced_agent.js:262-269 | selection returns the leaf reached from the root, with a new copy of its board |
| Mcts.AddChild | advanced_agent.js:275-278 | appends one child with the move, no wins, no visits and the node as parent, adds its index to the node's children and changes no other node; the child's fresh board is the node's board with the move applied and full lines cleared |
| Mcts.AddChildren | advanced_agent.js:274-279 | one new child of the leaf per placement, in order: no visits, no wins, parent the leaf. Each child's board is the leaf's board with the move applied |
| Mcts.GrownValid | advanced_agent.js:274-279 | expanding a childless node keeps the tree well formed: parents before children, links in both directions, no child with more visits than its parent |
| Mcts.Expand | advanced_agent.js:272-279 | the leaf gets exactly the moves of `getAllMovesForMCTS` on its board as children, and the tree stays well formed |
| Mcts.ExpandLeaf | advanced_agent.js:271-285 | the leaf gets one new child per MCTS move of its board, in order, each with no visits or wins and holding the board that move leaves after line clears; nothing else in the tree changes and it stays well formed. The node to simulate is the first new child, or the leaf itself when the piece has no move there. Expanding the root gives it exactly the MCTS moves of the live board |
| Mcts.RootOnPath | advanced_agent.js:291-295 | the walk up from any node reaches the root |
| Mcts.BackpropagatedValid | advanced_agent.js:291-295 | adding one visit and the reward to exactly the nodes on the path keeps the tree well formed, including child visits ≤ parent visits, and adds one visit to the root |
| Mcts.Backpropagate | advanced_agent.js:291-295 | each node from the simulated node up to the root gains one visit and the reward, no other node changes, and the root gains exactly one visit |
| Mcts.Iterate | advanced_agent.js:262-295 | the selected node is the leaf the UCB walk reaches from the root. That leaf is expanded only when it was visited before or is the root: it then gets exactly the MCTS moves of its board as children, and the playout starts from the first of them (or from the leaf if there are none). Otherwise the tree is unchanged and the playout starts from the leaf. Then exactly the playout node and its ancestors gain one visit and the reward, and every other node stays as it was. The root gains one visit; the first iteration gives it the MCTS moves of the live board, and later ones keep its children |
| Mcts.RunSearch | advanced_agent.js:256-296 | after the iterations, the tree is well formed and the root's visits equal the number of iterations. After at least one iteration, the root's children are exactly the MCTS moves of the live board |
| Mcts.PickMostVisited | advanced_agent.js:299-306 | the result is the move of the first most-visited child of the root, or null without children |
| Mcts.MostVisitedLegal | advanced_agent.js:299-306 | when the root's children are the MCTS moves, the pick is null exactly when no move exists, and otherwise a legal move |
| Mcts.SelectBestMoveMCTS | advanced_agent.js:256-307 | the result is the move of the first most visited child of the searched tree's root. That root has one visit per iteration, and its children are exactly the MCTS moves of the live board. So the result is null exactly when the piece has no MCTS move, and otherwise a legal MCTS move |

## Left out

- `eachblock`, the piece constants and their rotation bitmasks are defined outside these files and are not part of this model. A shape is given as its bounding-box size plus, per rotation, the list of cell offsets `eachblock` visits. The value a placed piece writes into the board is the shape's `kind`, a non-zero integer standing for the piece-type object.
- `occupied`, `blocks`, `next`, `nx` and `ny` are globals defined elsewhere. They are parameters here, and `occupied` is `occupiedOnBoard` on the live board.
- A move is a `Placement(dir, x, y)` rather than the source's object `{piece, x, y}`. The beam's first-ply `move` field, equal to `firstMove`, is not kept separately.
- Weighted sums are exact reals, not IEEE doubles, and the `-Infinity` sentinels are `Option` values. Nothing is claimed about ties that rounding could create or break.
- UCB1 for visited children (`Math.log`, `Math.sqrt`, `MCTS_C`) is a function parameter `ucb(wins, visits, parentVisits)`. Only the `Infinity` branch for unvisited children and the reduce's tie-break are modelled.
- `simulateRandomPlayout` uses `Math.random` and floating-point normalisation. Each iteration's reward is a real supplied by the caller, and the playout's copy of the board is not made.
- `MCTS_DEPTH` only feeds the playout and is not modelled. `MCTS_ITERATIONS` is the required number of rewards.
- The order in which `Array.prototype.sort` compares elements is not modelled. The model states the result: a stable descending sort by score, implemented by insertion.
- The `moveScores` object is an ordered list of groups keyed by `(x, dir)`. Its keys contain `_`, so the source iterates them in insertion order, which the list keeps.
- The test `LOOKAHEAD_DEPTH > 1` always holds (the constant is 2) and is not modelled.
- `MCTSNode` objects and their parent links are a sequence of node records with parent and child indices. Object identity and garbage collection are not modelled.
- Board copies held by moves, beam states and nodes stay arrays. The tree nodes themselves are values that each operation returns anew, not objects updated in place.
- `clearLinesFromBoard` and the operations that call it require `nx > 0`. With no columns but at least one row, every row counts as complete, and the source's `y++` then loops forever. The empty board with no rows, on which the source returns 0, is excluded as well.
- The game loop, rendering, input and the piece randomiser are outside these files.
