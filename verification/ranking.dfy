/**
 * `results.sort((a, b) => b.score - a.score)`: the stable sort by score,
 * highest first, that both the live path and the fallback apply
 * (`Array.prototype.sort` is stable since ECMAScript 2019).
 */
module Ranking {
  import opened Types

  /** Scores never increase from left to right. */
  predicate SortedDesc(rs: seq<AnalysisResult>) {
    forall i, j :: 0 <= i < j < |rs| ==> rs[i].score >= rs[j].score
  }

  /** The records of `rs` whose score is `v`, in their order in `rs`. */
  function WithScore(rs: seq<AnalysisResult>, v: Score): (r: seq<AnalysisResult>)
    ensures |r| <= |rs|
    ensures forall k :: 0 <= k < |r| ==> r[k].score == v
  {
    if |rs| == 0 then []
    else (if rs[0].score == v then [rs[0]] else []) + WithScore(rs[1..], v)
  }

  /**
   * Places `x` before the first record of `rs` whose score does not exceed
   * its own, so `x` stays ahead of the records it tied with.
   */
  function Insert(x: AnalysisResult, rs: seq<AnalysisResult>): (r: seq<AnalysisResult>)
    requires SortedDesc(rs)
    ensures SortedDesc(r)
    ensures multiset(r) == multiset(rs) + multiset{x}
    ensures |r| == |rs| + 1 && (r[0] == x || (|rs| > 0 && r[0] == rs[0]))
  {
    if |rs| == 0 || x.score >= rs[0].score then
      [x] + rs
    else
      var tail := Insert(x, rs[1..]);
      var r := [rs[0]] + tail;
      assert rs[0].score >= tail[0].score;
      assert forall j :: 0 < j < |r| ==> r[0].score >= r[j].score by {
        forall j | 0 < j < |r| ensures r[0].score >= r[j].score {
          assert r[j] == tail[j - 1];
        }
      }
      assert rs == [rs[0]] + rs[1..];
      r
  }

  /** The comparator sort of the source: a stable sort by score, highest first. */
  function SortByScoreDesc(rs: seq<AnalysisResult>): (r: seq<AnalysisResult>)
    ensures SortedDesc(r)
    ensures multiset(r) == multiset(rs)
    ensures |r| == |rs|
  {
    if |rs| == 0 then []
    else
      assert rs == [rs[0]] + rs[1..];
      Insert(rs[0], SortByScoreDesc(rs[1..]))
  }

  /** The tie list of a sequence with one more record in front. */
  lemma WithScoreCons(x: AnalysisResult, rs: seq<AnalysisResult>, v: Score)
    ensures WithScore([x] + rs, v) == (if x.score == v then [x] else []) + WithScore(rs, v)
  {
    assert ([x] + rs)[0] == x && ([x] + rs)[1..] == rs;
  }

  /** Putting a record scored above `x` in front of both sides keeps `x`'s tie relation. */
  lemma TiesStep(x: AnalysisResult, y: AnalysisResult, rest: seq<AnalysisResult>, tail: seq<AnalysisResult>, v: Score)
    requires x.score < y.score
    requires WithScore(tail, v) == (if x.score == v then [x] else []) + WithScore(rest, v)
    ensures WithScore([y] + tail, v) == (if x.score == v then [x] else []) + WithScore([y] + rest, v)
  {
    WithScoreCons(y, tail, v);
    WithScoreCons(y, rest, v);
  }

  /** Inserting `x` adds it in front of the records it ties with and moves no other tie. */
  lemma {:induction false} InsertKeepsTies(x: AnalysisResult, rs: seq<AnalysisResult>, v: Score)
    requires SortedDesc(rs)
    ensures WithScore(Insert(x, rs), v) == (if x.score == v then [x] else []) + WithScore(rs, v)
    decreases |rs|
  {
    if |rs| == 0 || x.score >= rs[0].score {
      WithScoreCons(x, rs, v);
    } else {
      InsertKeepsTies(x, rs[1..], v);
      TiesStep(x, rs[0], rs[1..], Insert(x, rs[1..]), v);
      assert [rs[0]] + rs[1..] == rs;
    }
  }

  /** Stability: among records with equal scores, the sort keeps the input order. */
  lemma {:induction false} SortIsStable(rs: seq<AnalysisResult>, v: Score)
    ensures WithScore(SortByScoreDesc(rs), v) == WithScore(rs, v)
    decreases |rs|
  {
    if |rs| > 0 {
      SortIsStable(rs[1..], v);
      InsertKeepsTies(rs[0], SortByScoreDesc(rs[1..]), v);
    }
  }

  /** Sorting an already sorted sequence changes nothing. */
  lemma {:induction false} SortOfSorted(rs: seq<AnalysisResult>)
    requires SortedDesc(rs)
    ensures SortByScoreDesc(rs) == rs
    decreases |rs|
  {
    if |rs| > 0 {
      SortOfSorted(rs[1..]);
      assert [rs[0]] + rs[1..] == rs;
    }
  }
}
