/**
 * The two board evaluators: `evaluateBoard` scores the board a greedy move leaves (before any
 * line is cleared), `evaluateBeamBoard` scores a board after its lines are cleared, given the
 * number of lines the move cleared.  Both are weighted sums of the features in `Features`;
 * the weights are exact decimals here.
 */
module Evaluate {
  import opened Board
  import opened Lines
  import opened Features

  /** The weights of `evaluateBoard`; `linesCleared` is its separately counted line total. */
  function GreedyWeights(f: Measures, linesCleared: int): real
  {
    -0.510066 * f.aggregateHeight as real
    + 0.760666 * f.completeLines as real
    - 0.35663 * f.holes as real
    - 0.184483 * f.bumpiness as real
    - 0.75 * f.wells as real
    - 0.45 * f.maxHeight as real
    - 0.25 * f.blockades as real
    + 1.5 * linesCleared as real
  }

  /** The weights of `evaluateBeamBoard`; complete lines play no part. */
  function BeamWeights(f: Measures, linesCleared: int): real
  {
    -0.51 * f.aggregateHeight as real
    + 2.0 * linesCleared as real
    - 0.36 * f.holes as real
    - 0.18 * f.bumpiness as real
    - 0.75 * f.wells as real
    - 0.45 * f.maxHeight as real
    - 0.3 * f.blockades as real
  }

  /** The score `evaluateBoard` gives a board: its line total is its complete-line count. */
  ghost function GreedyScore(g: Grid): real
    requires g.Valid()
  {
    GreedyWeights(MeasuresOf(g), LinesIn(g))
  }

  /** The score `evaluateBeamBoard` gives a board after a move that cleared `linesCleared` lines. */
  ghost function BeamScore(g: Grid, linesCleared: int): real
    requires g.Valid()
  {
    BeamWeights(MeasuresOf(g), linesCleared)
  }

  /**
   * With blockades equal to holes and the line total equal to the complete lines, the greedy
   * score weighs complete lines by 2.260666 and holes by -0.60663, and never exceeds
   * 2.260666 per complete line.
   */
  lemma GreedyScoreCombined(g: Grid)
    requires g.Valid()
    ensures var f := MeasuresOf(g);
            GreedyScore(g) == -0.510066 * f.aggregateHeight as real + 2.260666 * f.completeLines as real
                              - 0.60663 * f.holes as real - 0.184483 * f.bumpiness as real
                              - 0.75 * f.wells as real - 0.45 * f.maxHeight as real
    ensures GreedyScore(g) <= 2.260666 * LinesIn(g) as real
  {
  }

  /** For a fixed board the beam score rises by exactly 2 for every extra cleared line. */
  lemma BeamScoreLines(g: Grid, a: int, b: int)
    requires g.Valid()
    ensures BeamScore(g, b) - BeamScore(g, a) == 2.0 * (b - a) as real
    ensures a < b ==> BeamScore(g, a) < BeamScore(g, b)
  {
  }

  /**
   * The beam evaluator uses the same height, hole, bumpiness and well features as the greedy
   * one, with blockades equal to holes: its score is determined by the greedy features.
   */
  lemma BeamScoreFromGreedyFeatures(g: Grid, linesCleared: int)
    requires g.Valid()
    ensures var f := MeasuresOf(g);
            BeamScore(g, linesCleared) == -0.51 * f.aggregateHeight as real + 2.0 * linesCleared as real
                                          - 0.66 * f.holes as real - 0.18 * f.bumpiness as real
                                          - 0.75 * f.wells as real - 0.45 * f.maxHeight as real
  {
  }

  /** `evaluateBoard`: the feature loops, then the weighted sum. */
  method EvaluateBoard(board: array2<int>) returns (score: real)
    ensures score == GreedyScore(Cells(board))
  {
    var columnHeights, aggregateHeight, maxHeight := MeasureColumns(board);
    var completeLines, linesCleared := CountCompleteLines(board);
    var holes := CountHoles(board);
    var bumpiness := SumBumpiness(columnHeights);
    var wells := SumWells(columnHeights, board.Length1);
    var blockades := CountBlockades(board);
    var f := Measures(aggregateHeight, completeLines, holes, bumpiness, wells, maxHeight, blockades);
    score := GreedyWeights(f, linesCleared);
  }

  /** `evaluateBeamBoard`: the feature loops, then the weighted sum with the given line count. */
  method EvaluateBeamBoard(board: array2<int>, linesCleared: int) returns (score: real)
    ensures score == BeamScore(Cells(board), linesCleared)
  {
    var columnHeights, aggregateHeight, maxHeight := MeasureColumns(board);
    var holes, blockades := CountHolesAndBlockades(board);
    var bumpiness := SumBumpiness(columnHeights);
    var wells := SumWells(columnHeights, board.Length1);
    // evaluateBeamBoard does not count complete lines; the weights ignore that field
    var f := Measures(aggregateHeight, 0, holes, bumpiness, wells, maxHeight, blockades);
    score := BeamWeights(f, linesCleared);
  }
}
