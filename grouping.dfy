/**
 * How the beam search judges a first move after the second ply: the second-ply entries are
 * grouped by the column and rotation of the first move they descend from (`moveScores`, keyed
 * by `x + '_' + dir`), groups in the order their keys first appear, and the first group with
 * the highest mean score wins.
 */
module Grouping {
  import opened Wrappers
  import opened Board
  import opened Sorting
  import opened Choice

  /** The key of `moveScores`: a first move's column and rotation. */
  datatype Key = Key(x: int, dir: int)

  function KeyOf(p: Placement): Key
  {
    Key(p.x, p.dir)
  }

  /** One key of `moveScores`: the first move stored under it and the scores collected. */
  datatype Group = Group(key: Key, move: Placement, scores: seq<real>)

  /** The position of key `k` among the groups, if present. */
  function FindGroup(gs: seq<Group>, k: Key): (r: Option<nat>)
    ensures r.None? <==> forall i :: 0 <= i < |gs| ==> gs[i].key != k
    ensures r.Some? ==> r.value < |gs| && gs[r.value].key == k
  {
    if |gs| == 0 then None
    else if gs[|gs| - 1].key == k then Some(|gs| - 1)
    else
      assert forall i :: 0 <= i < |gs| - 1 ==> gs[..|gs| - 1][i] == gs[i];
      FindGroup(gs[..|gs| - 1], k)
  }

  /** No two groups share a key. */
  predicate DistinctKeys(gs: seq<Group>)
  {
    forall i, j :: 0 <= i < j < |gs| ==> gs[i].key != gs[j].key
  }

  /**
   * One entry's step of the grouping loop: its score joins the group of its key, and a key
   * seen for the first time opens a new group at the end, remembering the entry's first move.
   */
  function AddEntry(gs: seq<Group>, r: Ranked): (out: seq<Group>)
    ensures |gs| <= |out| <= |gs| + 1
    ensures forall i :: 0 <= i < |gs| ==> out[i].key == gs[i].key && out[i].move == gs[i].move
    ensures DistinctKeys(gs) ==>
              forall i :: 0 <= i < |gs| ==>
                out[i].scores == gs[i].scores + (if gs[i].key == KeyOf(r.origin) then [r.score] else [])
    ensures |out| == |gs| + 1 <==> forall i :: 0 <= i < |gs| ==> gs[i].key != KeyOf(r.origin)
    ensures |out| == |gs| + 1 ==> out[|gs|] == Group(KeyOf(r.origin), r.origin, [r.score])
    ensures DistinctKeys(gs) ==> DistinctKeys(out)
  {
    match FindGroup(gs, KeyOf(r.origin))
    case None => gs + [Group(KeyOf(r.origin), r.origin, [r.score])]
    case Some(i) => gs[i := gs[i].(scores := gs[i].scores + [r.score])]
  }

  /** The groups of a whole sequence of entries, taken in order. */
  function GroupAll(rs: seq<Ranked>): seq<Group>
  {
    if |rs| == 0 then [] else AddEntry(GroupAll(rs[..|rs| - 1]), rs[|rs| - 1])
  }

  /** The scores of the entries of `rs` whose first move has key `k`, in order. */
  function ScoresWith(rs: seq<Ranked>, k: Key): seq<real>
  {
    if |rs| == 0 then []
    else ScoresWith(rs[..|rs| - 1], k) + (if KeyOf(rs[|rs| - 1].origin) == k then [rs[|rs| - 1].score] else [])
  }

  /** Some entry of `rs` descends from a first move with key `k`. */
  predicate HasKey(rs: seq<Ranked>, k: Key)
  {
    exists j :: 0 <= j < |rs| && KeyOf(rs[j].origin) == k
  }

  /** Some entry of `rs` descends from the first move `m`. */
  predicate HasOrigin(rs: seq<Ranked>, m: Placement)
  {
    exists j :: 0 <= j < |rs| && rs[j].origin == m
  }

  lemma {:induction false} GroupKeysDistinct(rs: seq<Ranked>)
    ensures DistinctKeys(GroupAll(rs))
  {
    if |rs| > 0 {
      GroupKeysDistinct(rs[..|rs| - 1]);
    }
  }

  /** Every group's key is the key of some entry. */
  lemma {:induction false} GroupKeysPresent(rs: seq<Ranked>)
    ensures forall i :: 0 <= i < |GroupAll(rs)| ==> HasKey(rs, GroupAll(rs)[i].key)
  {
    if |rs| > 0 {
      var init := rs[..|rs| - 1];
      GroupKeysPresent(init);
      var before, gs := GroupAll(init), GroupAll(rs);
      forall i | 0 <= i < |gs|
        ensures HasKey(rs, gs[i].key)
      {
        if i < |before| {
          var j :| 0 <= j < |init| && KeyOf(init[j].origin) == before[i].key;
          assert rs[j] == init[j];
        } else {
          assert KeyOf(rs[|rs| - 1].origin) == gs[i].key;
        }
      }
    }
  }

  /** Every entry's key has a group. */
  lemma {:induction false} EntryKeysGrouped(rs: seq<Ranked>, j: int)
    requires 0 <= j < |rs|
    ensures exists i :: 0 <= i < |GroupAll(rs)| && GroupAll(rs)[i].key == KeyOf(rs[j].origin)
  {
    var init, last := rs[..|rs| - 1], rs[|rs| - 1];
    var before, gs := GroupAll(init), GroupAll(rs);
    if j < |init| {
      assert init[j] == rs[j];
      EntryKeysGrouped(init, j);
      var i :| 0 <= i < |before| && before[i].key == KeyOf(rs[j].origin);
      assert gs[i].key == KeyOf(rs[j].origin);
    } else if |gs| == |before| + 1 {
      assert gs[|before|].key == KeyOf(rs[j].origin);
    } else {
      var i :| 0 <= i < |before| && before[i].key == KeyOf(last.origin);
      assert gs[i].key == KeyOf(rs[j].origin);
    }
  }

  /** A key no entry has collects no scores. */
  lemma {:induction false} ScoresWithout(rs: seq<Ranked>, k: Key)
    requires !HasKey(rs, k)
    ensures ScoresWith(rs, k) == []
  {
    if |rs| > 0 {
      var init := rs[..|rs| - 1];
      assert forall j :: 0 <= j < |init| ==> init[j] == rs[j];
      ScoresWithout(init, k);
    }
  }

  /**
   * Each group holds exactly the scores of the entries under its key, in their order, and
   * the first move it stores is one of those entries' with that key.
   */
  lemma {:induction false} GroupScores(rs: seq<Ranked>)
    ensures forall i :: 0 <= i < |GroupAll(rs)| ==>
              && GroupAll(rs)[i].scores == ScoresWith(rs, GroupAll(rs)[i].key)
              && |GroupAll(rs)[i].scores| > 0
              && KeyOf(GroupAll(rs)[i].move) == GroupAll(rs)[i].key
              && HasOrigin(rs, GroupAll(rs)[i].move)
  {
    if |rs| > 0 {
      var init, last := rs[..|rs| - 1], rs[|rs| - 1];
      GroupScores(init);
      GroupKeysDistinct(init);
      var before, gs := GroupAll(init), GroupAll(rs);
      forall i | 0 <= i < |gs|
        ensures gs[i].scores == ScoresWith(rs, gs[i].key) && |gs[i].scores| > 0
        ensures KeyOf(gs[i].move) == gs[i].key && HasOrigin(rs, gs[i].move)
      {
        if i < |before| {
          var j :| 0 <= j < |init| && init[j].origin == before[i].move;
          assert rs[j] == init[j];
        } else {
          assert gs[i] == Group(KeyOf(last.origin), last.origin, [last.score]);
          assert HasOrigin(rs, gs[i].move) by {
            assert rs[|rs| - 1].origin == gs[i].move;
          }
          forall j | 0 <= j < |init|
            ensures KeyOf(init[j].origin) != gs[i].key
          {
            EntryKeysGrouped(init, j);
          }
          ScoresWithout(init, gs[i].key);
        }
      }
    }
  }

  /** The sum `reduce((a, b) => a + b, 0)` computes, added from the left. */
  function SumReal(xs: seq<real>): real
  {
    if |xs| == 0 then 0.0 else SumReal(xs[..|xs| - 1]) + xs[|xs| - 1]
  }

  /** The mean of a non-empty group's scores. */
  function Mean(xs: seq<real>): real
    requires |xs| > 0
  {
    SumReal(xs) / |xs| as real
  }

  lemma {:induction false} SumRealBounds(xs: seq<real>, lo: real, hi: real)
    requires forall i :: 0 <= i < |xs| ==> lo <= xs[i] <= hi
    ensures |xs| as real * lo <= SumReal(xs) <= |xs| as real * hi
  {
    if |xs| > 0 {
      SumRealBounds(xs[..|xs| - 1], lo, hi);
    }
  }

  /** A mean lies between the smallest and the largest score. */
  lemma MeanBounds(xs: seq<real>, lo: real, hi: real)
    requires |xs| > 0 && forall i :: 0 <= i < |xs| ==> lo <= xs[i] <= hi
    ensures lo <= Mean(xs) <= hi
  {
    SumRealBounds(xs, lo, hi);
    var n := |xs| as real;
    assert SumReal(xs) / n >= lo by {
      assert SumReal(xs) >= n * lo;
    }
    assert SumReal(xs) / n <= hi by {
      assert SumReal(xs) <= n * hi;
    }
  }

  /** Every group has at least one score. */
  predicate NonEmptyGroups(gs: seq<Group>)
  {
    forall i :: 0 <= i < |gs| ==> |gs[i].scores| > 0
  }

  /** The mean of each group, in group order. */
  function Means(gs: seq<Group>): (ms: seq<real>)
    requires NonEmptyGroups(gs)
    ensures |ms| == |gs|
  {
    seq(|gs|, i requires 0 <= i < |gs| => Mean(gs[i].scores))
  }

  /** The move the averaging loop ends on: that of the first group with the highest mean. */
  function BestGroupMove(gs: seq<Group>): Option<Placement>
    requires NonEmptyGroups(gs)
  {
    match FirstMax(Means(gs))
    case None => None
    case Some(k) => Some(gs[k].move)
  }

  /**
   * The choice among the groups of a sequence of entries: present exactly when there is an
   * entry; then it is the first move of some entry, and of a group whose mean is at least
   * every group's mean and strictly above that of every group whose key appears earlier.
   */
  lemma GroupChoice(rs: seq<Ranked>)
    ensures NonEmptyGroups(GroupAll(rs))
    ensures BestGroupMove(GroupAll(rs)).Some? <==> |rs| > 0
    ensures BestGroupMove(GroupAll(rs)).Some? ==>
              var gs := GroupAll(rs);
              var m := BestGroupMove(gs).value;
              && HasOrigin(rs, m)
              && exists k :: 0 <= k < |gs| && gs[k].move == m && IsFirstMax(Means(gs), k)
  {
    GroupScores(rs);
    var gs := GroupAll(rs);
    if |rs| > 0 {
      EntryKeysGrouped(rs, 0);
    }
  }

  /** The move chosen from a sequence of entries: that of the first group with the best mean. */
  function AverageChoice(rs: seq<Ranked>): Option<Placement>
  {
    GroupChoice(rs);
    BestGroupMove(GroupAll(rs))
  }

  /** `reduce((a, b) => a + b, 0) / length`: the mean of a group's scores. */
  method Average(scores: seq<real>) returns (avg: real)
    requires |scores| > 0
    ensures avg == Mean(scores)
  {
    var sum := 0.0;
    for i := 0 to |scores|
      invariant sum == SumReal(scores[..i])
    {
      assert scores[..i + 1][..i] == scores[..i];
      sum := sum + scores[i];
    }
    assert scores[..|scores|] == scores;
    avg := sum / |scores| as real;
  }

  /** The averaging loop: the move of the first group with the strictly greatest mean. */
  method PickBestGroup(groups: seq<Group>) returns (bestMove: Option<Placement>)
    requires NonEmptyGroups(groups)
    ensures bestMove == BestGroupMove(groups)
  {
    ghost var means := Means(groups);
    bestMove := None;
    var bestAvg: Option<real> := None;
    ghost var bestIndex: Option<nat> := None;
    for i := 0 to |groups|
      invariant bestIndex == FirstMax(means[..i])
      invariant bestIndex.None? ==> bestMove.None? && bestAvg.None?
      invariant bestIndex.Some? ==>
                  && bestIndex.value < i
                  && bestMove == Some(groups[bestIndex.value].move)
                  && bestAvg == Some(means[bestIndex.value])
    {
      var avg := Average(groups[i].scores);
      FirstMaxStep(means, i);
      if bestAvg.None? || avg > bestAvg.value {
        bestAvg := Some(avg);
        bestMove := Some(groups[i].move);
        bestIndex := Some(i);
      }
    }
    assert means[..|groups|] == means;
  }
}
