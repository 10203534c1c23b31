/**
 * The beam's stable sort by descending score (`beam.sort((a, b) => b.score - a.score)` on an
 * engine whose sort is stable), on entries reduced to what the search needs of them: the
 * first-ply placement an entry descends from and its score.
 */
module Sorting {
  import opened Board

  /** A scored beam entry, remembered by the first-ply placement it descends from. */
  datatype Ranked = Ranked(origin: Placement, score: real)

  /** Scores never increase along the sequence. */
  predicate Descending(rs: seq<Ranked>)
  {
    forall i, j :: 0 <= i < j < |rs| ==> rs[i].score >= rs[j].score
  }

  /**
   * `r` placed after every entry of `rs` scoring at least as much: where a stable descending
   * sort puts the later of two equal entries.
   */
  function Insert(r: Ranked, rs: seq<Ranked>): (out: seq<Ranked>)
    ensures |out| == |rs| + 1
  {
    if |rs| == 0 then [r]
    else if rs[0].score >= r.score then
      assert rs == [rs[0]] + rs[1..];
      [rs[0]] + Insert(r, rs[1..])
    else [r] + rs
  }

  /** Insertion adds the entry and keeps every other one. */
  lemma {:induction false} InsertPerm(r: Ranked, rs: seq<Ranked>)
    ensures multiset(Insert(r, rs)) == multiset(rs) + multiset{r}
  {
    if |rs| > 0 && rs[0].score >= r.score {
      InsertPerm(r, rs[1..]);
      assert rs == [rs[0]] + rs[1..];
    }
  }

  /** Insertion into a descending sequence keeps it descending. */
  lemma {:induction false} InsertDescending(r: Ranked, rs: seq<Ranked>)
    requires Descending(rs)
    ensures Descending(Insert(r, rs))
  {
    if |rs| > 0 && rs[0].score >= r.score {
      var tail := Insert(r, rs[1..]);
      InsertDescending(r, rs[1..]);
      InsertPerm(r, rs[1..]);
      forall j | 0 <= j < |tail|
        ensures tail[j].score <= rs[0].score
      {
        assert tail[j] in multiset(rs[1..]) + multiset{r};
        if tail[j] != r {
          var k :| 0 <= k < |rs[1..]| && rs[1..][k] == tail[j];
          assert rs[k + 1] == tail[j];
        }
      }
    }
  }

  /** The stable descending sort: insert each entry, in order, into the sorted earlier ones. */
  function Sort(rs: seq<Ranked>): (out: seq<Ranked>)
    ensures |out| == |rs|
    ensures Descending(out)
  {
    if |rs| == 0 then []
    else
      var init := rs[..|rs| - 1];
      assert rs == init + [rs[|rs| - 1]];
      InsertDescending(rs[|rs| - 1], Sort(init));
      Insert(rs[|rs| - 1], Sort(init))
  }

  /** The sort is a permutation of its input. */
  lemma {:induction false} SortPerm(rs: seq<Ranked>)
    ensures multiset(Sort(rs)) == multiset(rs)
  {
    if |rs| > 0 {
      var init := rs[..|rs| - 1];
      SortPerm(init);
      InsertPerm(rs[|rs| - 1], Sort(init));
      assert rs == init + [rs[|rs| - 1]];
    }
  }

  /** Sorting one more entry inserts it into the sorted earlier ones. */
  lemma SortSnoc(rs: seq<Ranked>, r: Ranked)
    ensures Sort(rs + [r]) == Insert(r, Sort(rs))
  {
    assert (rs + [r])[..|rs|] == rs;
  }

  /** The sort only rearranges: every sorted entry is an entry of the input. */
  lemma SortMembers(rs: seq<Ranked>)
    ensures forall i :: 0 <= i < |Sort(rs)| ==> Sort(rs)[i] in rs
  {
    var sorted := Sort(rs);
    SortPerm(rs);
    forall i | 0 <= i < |sorted|
      ensures sorted[i] in rs
    {
      assert sorted[i] in multiset(sorted);
    }
  }

  /** The first entry of the sort scores at least as high as every entry. */
  lemma SortHeadIsMax(rs: seq<Ranked>)
    requires |rs| > 0
    ensures Sort(rs)[0] in rs
    ensures forall r :: r in rs ==> r.score <= Sort(rs)[0].score
  {
    var sorted := Sort(rs);
    SortMembers(rs);
    SortPerm(rs);
    forall r | r in rs
      ensures r.score <= sorted[0].score
    {
      assert r in multiset(sorted);
      var k :| 0 <= k < |sorted| && sorted[k] == r;
    }
  }

  /** The entries of `rs` with score `v`, in their order. */
  function WithScore(rs: seq<Ranked>, v: real): seq<Ranked>
  {
    if |rs| == 0 then [] else (if rs[0].score == v then [rs[0]] else []) + WithScore(rs[1..], v)
  }

  lemma {:induction false} WithScoreAppend(a: seq<Ranked>, b: seq<Ranked>, v: real)
    ensures WithScore(a + b, v) == WithScore(a, v) + WithScore(b, v)
  {
    if |a| == 0 {
      assert a + b == b;
    } else {
      var head := if a[0].score == v then [a[0]] else [];
      assert (a + b)[0] == a[0] && (a + b)[1..] == a[1..] + b;
      assert WithScore(a + b, v) == head + WithScore(a[1..] + b, v);
      WithScoreAppend(a[1..], b, v);
    }
  }

  lemma {:induction false} WithScoreNone(rs: seq<Ranked>, v: real)
    requires forall i :: 0 <= i < |rs| ==> rs[i].score < v
    ensures WithScore(rs, v) == []
  {
    if |rs| > 0 {
      WithScoreNone(rs[1..], v);
    }
  }

  lemma {:induction false} InsertWithScore(r: Ranked, rs: seq<Ranked>, v: real)
    requires Descending(rs)
    ensures WithScore(Insert(r, rs), v) == WithScore(rs, v) + (if r.score == v then [r] else [])
  {
    if |rs| == 0 {
    } else if rs[0].score >= r.score {
      InsertWithScore(r, rs[1..], v);
      assert ([rs[0]] + Insert(r, rs[1..]))[1..] == Insert(r, rs[1..]);
    } else {
      if r.score == v {
        WithScoreNone(rs, v);
      }
      assert ([r] + rs)[1..] == rs;
    }
  }

  /** The sort is stable: entries of equal score keep their relative order. */
  lemma {:induction false} SortStable(rs: seq<Ranked>, v: real)
    ensures WithScore(Sort(rs), v) == WithScore(rs, v)
  {
    if |rs| > 0 {
      var init, last := rs[..|rs| - 1], rs[|rs| - 1];
      var tail := if last.score == v then [last] else [];
      calc {
        WithScore(Sort(rs), v);
        WithScore(Insert(last, Sort(init)), v);
        { InsertWithScore(last, Sort(init), v); }
        WithScore(Sort(init), v) + tail;
        { SortStable(init, v); }
        WithScore(init, v) + tail;
        { assert [last][1..] == []; }
        WithScore(init, v) + WithScore([last], v);
        { WithScoreAppend(init, [last], v); }
        WithScore(init + [last], v);
        { assert rs == init + [last]; }
        WithScore(rs, v);
      }
    }
  }

  /** The number of entries a beam keeps. */
  const BeamWidth: nat := 4

  /** The length of `beam.slice(0, k)`. */
  function Kept(n: nat, k: nat): nat
  {
    if n < k then n else k
  }

  /**
   * Sorting and keeping the first `BeamWidth` entries keeps `min(4, n)` entries in descending
   * order, and no discarded entry scores above a kept one.
   */
  lemma TopEntries(rs: seq<Ranked>)
    ensures var sorted := Sort(rs);
            var kept := sorted[..Kept(|rs|, BeamWidth)];
            && |kept| == (if |rs| < 4 then |rs| else 4)
            && Descending(kept)
            && (forall i, j :: 0 <= i < |kept| <= j < |sorted| ==> sorted[j].score <= kept[i].score)
            && multiset(kept) + multiset(sorted[|kept|..]) == multiset(rs)
  {
    var sorted := Sort(rs);
    var k := Kept(|rs|, BeamWidth);
    SortPerm(rs);
    assert sorted == sorted[..k] + sorted[k..];
  }
}
