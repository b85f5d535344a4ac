/** The similar matcher of `getSimilarMatchesForRows`: every cached row gets
    an integer "distance" from the token, rows under a threshold are kept,
    and the best of them are returned, best first. */
module SimilarMatch {
  import opened JsString
  import opened JsArray
  import opened Candidates
  import opened Ranking

  /** What the letters `cs` of the lower-cased token add to the score of the
      lower-cased row `txt`, when the last accepted letter sat at `lastPos`
      and a letter out of place costs `penalty`. Each letter is looked up at
      its first occurrence in the whole row, not after `lastPos`: it is
      accepted only when that first occurrence lies after `lastPos`, and
      then adds the gap since `lastPos`, capped at `penalty - 5`. A letter
      not accepted adds `penalty` and makes the next one cost 5 more. */
  function FuzzyScore(cs: string, txt: string, lastPos: int, penalty: int): int
    decreases |cs|
  {
    if cs == [] then 0
    else
      var pos := IndexOf(txt, [cs[0]]);
      if pos > lastPos then
        (if pos - lastPos - 1 > penalty - 5 then penalty - 5 else pos - lastPos - 1)
        + FuzzyScore(cs[1..], txt, pos, penalty)
      else
        penalty + FuzzyScore(cs[1..], txt, lastPos, penalty + 5)
  }

  /** The score of a row string against a token: a quarter (rounded down) of
      the position of the token in the row when it occurs there, the fuzzy
      score otherwise; both compared lower-cased. */
  function Score(token: string, text: string): int {
    var str := ToLower(token);
    var txt := ToLower(text);
    var idx := IndexOf(txt, str);
    if idx != -1 then idx / 4 else FuzzyScore(str, txt, -1, 10)
  }

  /** The scoring step of `getSimilarMatchesForRows` for one row, with
      its letter-by-letter loop. */
  method RowScore(token: string, text: string) returns (score: int)
    ensures score == Score(token, text)
  {
    var str := ToLower(token);
    var txt := ToLower(text);
    score := 0;
    if IndexOf(txt, str) != -1 {
      score := IndexOf(txt, str) / 4;
    } else {
      var lastPos := -1;
      var penalty := 10;
      var i := 0;
      while i < |str|
        invariant 0 <= i <= |str|
        invariant score + FuzzyScore(str[i..], txt, lastPos, penalty) == FuzzyScore(str, txt, -1, 10)
      {
        assert str[i..][1..] == str[i + 1..];
        var pos := IndexOf(txt, [str[i]]);
        if pos > lastPos {
          var diff := pos - lastPos - 1;
          if diff > penalty - 5 {
            diff := penalty - 5;
          }
          score := score + diff;
          lastPos := pos;
        } else {
          score := score + penalty;
          penalty := penalty + 5;
        }
        i := i + 1;
      }
    }
  }

  /** A row is kept when its score is below six per token letter. */
  predicate Accepted(token: string, text: string) {
    Score(token, text) < |token| * 6
  }

  /** The score of every cache row, in cache order. */
  function RowScores(rows: seq<Candidate>, token: string): (scores: seq<int>)
    ensures |scores| == |rows|
    ensures forall i :: 0 <= i < |rows| ==> scores[i] == Score(token, DisplayString(rows[i]))
  {
    seq(|rows|, i requires 0 <= i < |rows| => Score(token, DisplayString(rows[i])))
  }

  /** The positions whose score is below `limit`, with their scores, in order. */
  function KeptOf(scores: seq<int>, limit: int): seq<Ranked>
    decreases |scores|
  {
    if scores == [] then []
    else
      var n := |scores| - 1;
      KeptOf(scores[..n], limit) + (if scores[n] < limit then [Ranked(scores[n], n)] else [])
  }

  /** The kept rows with their scores and positions, in cache order. */
  function Kept(rows: seq<Candidate>, token: string): seq<Ranked> {
    KeptOf(RowScores(rows, token), |token| * 6)
  }

  /** The best `maxMatches` kept rows, best first. */
  function SimilarRanking(rows: seq<Candidate>, token: string, maxMatches: int): seq<Ranked> {
    Take(SortByRank(Kept(rows, token)), maxMatches)
  }

  /** The rows of the ranking. */
  function SimilarMatches(rows: seq<Candidate>, token: string, maxMatches: int): (r: seq<Candidate>)
    ensures |r| == |SimilarRanking(rows, token, maxMatches)|
    ensures forall i :: 0 <= i < |r| ==>
      SimilarRanking(rows, token, maxMatches)[i].index < |rows|
      && r[i] == rows[SimilarRanking(rows, token, maxMatches)[i].index]
  {
    var ranking := SimilarRanking(rows, token, maxMatches);
    RankingInRange(rows, token, maxMatches);
    seq(|ranking|, i requires 0 <= i < |ranking| => rows[ranking[i].index])
  }

  lemma {:induction false} KeptOfMember(scores: seq<int>, limit: int, e: Ranked)
    ensures e in KeptOf(scores, limit) <==>
      e.index < |scores| && e.score == scores[e.index] && e.score < limit
    decreases |scores|
  {
    if scores != [] {
      var n := |scores| - 1;
      KeptOfMember(scores[..n], limit, e);
    }
  }

  lemma {:induction false} KeptOfIncreasing(scores: seq<int>, limit: int)
    ensures forall i, j :: 0 <= i < j < |KeptOf(scores, limit)| ==>
      KeptOf(scores, limit)[i].index < KeptOf(scores, limit)[j].index
    decreases |scores|
  {
    if scores != [] {
      var n := |scores| - 1;
      var k0 := KeptOf(scores[..n], limit);
      KeptOfIncreasing(scores[..n], limit);
      forall i | 0 <= i < |k0| ensures k0[i].index < n {
        KeptOfMember(scores[..n], limit, k0[i]);
      }
    }
  }

  /** The copy loop that ends `getSimilarMatchesForRows`: the rows named by
      the first `maxMatches` entries of `ranked`. */
  method TakeRows(rows: seq<Candidate>, ranked: seq<Ranked>, maxMatches: int) returns (matches: seq<Candidate>)
    requires forall e :: e in ranked ==> e.index < |rows|
    ensures |matches| == |Take(ranked, maxMatches)|
    ensures forall k :: 0 <= k < |matches| ==> ranked[k].index < |rows| && matches[k] == rows[ranked[k].index]
  {
    matches := [];
    var i := 0;
    while i < maxMatches && i < |ranked|
      invariant 0 <= i <= |ranked|
      invariant i == 0 || i <= maxMatches
      invariant |matches| == i
      invariant forall k :: 0 <= k < i ==> ranked[k].index < |rows| && matches[k] == rows[ranked[k].index]
    {
      assert ranked[i] in ranked;
      matches := matches + [rows[ranked[i].index]];
      i := i + 1;
    }
  }

  /** Copying the rows named by the first entries of the sorted kept list
      gives the similar matches. */
  lemma TakenRowsAreSimilarMatches(rows: seq<Candidate>, token: string, maxMatches: int, matches: seq<Candidate>)
    requires var sorted := SortByRank(Kept(rows, token));
      |matches| == |Take(sorted, maxMatches)|
      && forall k :: 0 <= k < |matches| ==> sorted[k].index < |rows| && matches[k] == rows[sorted[k].index]
    ensures matches == SimilarMatches(rows, token, maxMatches)
  {
  }

  /** An entry is kept exactly when it names a cache row, carries that row's
      score, and the score is under the threshold. */
  lemma KeptMember(rows: seq<Candidate>, token: string, e: Ranked)
    ensures e in Kept(rows, token) <==>
      e.index < |rows| && e.score == Score(token, DisplayString(rows[e.index]))
      && Accepted(token, DisplayString(rows[e.index]))
  {
    KeptOfMember(RowScores(rows, token), |token| * 6, e);
  }

  /** Kept entries appear in cache order, so no entry appears twice. */
  lemma KeptIncreasing(rows: seq<Candidate>, token: string)
    ensures forall i, j :: 0 <= i < j < |Kept(rows, token)| ==>
      Kept(rows, token)[i].index < Kept(rows, token)[j].index
    ensures Distinct(Kept(rows, token))
  {
    KeptOfIncreasing(RowScores(rows, token), |token| * 6);
  }

  /** Every entry of the ranking names a cache row. */
  lemma RankingInRange(rows: seq<Candidate>, token: string, maxMatches: int)
    ensures forall e :: e in SortByRank(Kept(rows, token)) ==> e.index < |rows|
    ensures forall e :: e in SimilarRanking(rows, token, maxMatches) ==> e.index < |rows|
  {
    var kept := Kept(rows, token);
    KeptIncreasing(rows, token);
    SortByRankSpec(kept);
    forall e | e in SortByRank(kept) ensures e.index < |rows| {
      assert e in multiset(SortByRank(kept));
      KeptMember(rows, token, e);
    }
  }

  /** The ranking is what the source promises: strictly ordered by score and
      then position; drawn from the kept rows; as long as the limit allows;
      and every kept row left out ranks after every row listed (the best
      `maxMatches` kept rows). */
  lemma RankingSpec(rows: seq<Candidate>, token: string, maxMatches: int)
    ensures var kept := Kept(rows, token);
      var ranking := SimilarRanking(rows, token, maxMatches);
      |ranking| == (if maxMatches <= 0 then 0 else if maxMatches < |kept| then maxMatches else |kept|)
      && StrictlySorted(ranking)
      && (forall e :: e in ranking ==> e in kept)
      && (forall e, i :: e in kept && e !in ranking && 0 <= i < |ranking| ==> RankLt(ranking[i], e))
  {
    var kept := Kept(rows, token);
    var sorted := SortByRank(kept);
    var ranking := SimilarRanking(rows, token, maxMatches);
    KeptIncreasing(rows, token);
    SortByRankSpec(kept);
    assert |sorted| == |multiset(sorted)| == |multiset(kept)| == |kept|;
    forall e | e in ranking ensures e in kept {
      assert e in sorted;
      assert e in multiset(sorted);
    }
    forall e, i | e in kept && e !in ranking && 0 <= i < |ranking| ensures RankLt(ranking[i], e) {
      assert e in multiset(kept);
      assert e in sorted;
      var k :| 0 <= k < |sorted| && sorted[k] == e;
      forall m | 0 <= m < |ranking| ensures sorted[m] != e {
        assert sorted[m] == ranking[m] && ranking[m] in ranking;
      }
      assert ranking[i] == sorted[i];
    }
  }

  /** The rows returned are the rows the ranking names, each one kept. */
  lemma SimilarMatchesSpec(rows: seq<Candidate>, token: string, maxMatches: int)
    ensures var ranking := SimilarRanking(rows, token, maxMatches);
      var r := SimilarMatches(rows, token, maxMatches);
      forall i :: 0 <= i < |r| ==>
        ranking[i].index < |rows| && r[i] == rows[ranking[i].index]
        && ranking[i].score == Score(token, DisplayString(r[i]))
        && Accepted(token, DisplayString(r[i]))
  {
    var ranking := SimilarRanking(rows, token, maxMatches);
    RankingSpec(rows, token, maxMatches);
    RankingInRange(rows, token, maxMatches);
    forall i | 0 <= i < |ranking|
      ensures ranking[i].score == Score(token, DisplayString(rows[ranking[i].index]))
        && Accepted(token, DisplayString(rows[ranking[i].index]))
    {
      assert ranking[i] in ranking;
      KeptMember(rows, token, ranking[i]);
    }
  }

  /** Accepted letters add between 0 and `penalty - 5`, rejected ones
      `penalty`: the fuzzy score is never negative. */
  lemma {:induction false} FuzzyScoreNonNegative(cs: string, txt: string, lastPos: int, penalty: int)
    requires lastPos >= -1 && penalty >= 5
    ensures FuzzyScore(cs, txt, lastPos, penalty) >= 0
    decreases |cs|
  {
    if cs != [] {
      var pos := IndexOf(txt, [cs[0]]);
      if pos > lastPos {
        FuzzyScoreNonNegative(cs[1..], txt, pos, penalty);
      } else {
        FuzzyScoreNonNegative(cs[1..], txt, lastPos, penalty + 5);
      }
    }
  }

  lemma ScoreNonNegative(token: string, text: string)
    ensures Score(token, text) >= 0
  {
    FuzzyScoreNonNegative(ToLower(token), ToLower(text), -1, 10);
  }

  /** An empty token keeps no row. */
  lemma KeptEmptyToken(rows: seq<Candidate>)
    ensures Kept(rows, "") == []
  {
    var kept := Kept(rows, "");
    forall i | 0 <= i < |rows| ensures RowScores(rows, "")[i] >= 0 {
      ScoreNonNegative("", DisplayString(rows[i]));
    }
    KeptOfNone(RowScores(rows, ""), 0);
  }

  /** No position is kept when no score is below the limit. */
  lemma {:induction false} KeptOfNone(scores: seq<int>, limit: int)
    requires forall i :: 0 <= i < |scores| ==> scores[i] >= limit
    ensures KeptOf(scores, limit) == []
    decreases |scores|
  {
    if scores != [] {
      KeptOfNone(scores[..|scores| - 1], limit);
    }
  }

  /** So the similar matcher returns nothing for an empty token. */
  lemma EmptyTokenMatchesNothing(rows: seq<Candidate>, maxMatches: int)
    ensures SimilarMatches(rows, "", maxMatches) == []
  {
    KeptEmptyToken(rows);
  }

  /** When the token occurs in the row, the score is a quarter of its first
      position, and the row is kept exactly when that position is below 24
      per token letter. */
  lemma SubstringScore(token: string, text: string)
    requires IndexOf(ToLower(text), ToLower(token)) != -1
    ensures Score(token, text) == IndexOf(ToLower(text), ToLower(token)) / 4
    ensures Accepted(token, text) <==> IndexOf(ToLower(text), ToLower(token)) < 24 * |token|
  {
  }

  /** Letters absent from the row each cost at least 10. */
  lemma {:induction false} FuzzyScoreAllMissing(cs: string, txt: string, lastPos: int, penalty: int)
    requires lastPos >= -1 && penalty >= 10
    requires forall i :: 0 <= i < |cs| ==> cs[i] !in txt
    ensures FuzzyScore(cs, txt, lastPos, penalty) >= 10 * |cs|
    decreases |cs|
  {
    if cs != [] {
      IndexOfChar(txt, cs[0]);
      FuzzyScoreAllMissing(cs[1..], txt, lastPos, penalty + 5);
    }
  }

  /** A row that shares no letter (up to case) with a non-empty token is
      never kept. */
  lemma NoCommonLetterRejected(token: string, text: string)
    requires token != []
    requires forall i :: 0 <= i < |token| ==> LowerChar(token[i]) !in ToLower(text)
    ensures !Accepted(token, text)
  {
    var str, txt := ToLower(token), ToLower(text);
    forall p ensures !OccursAt(txt, str, p) {
      if 0 <= p && p + |str| <= |txt| {
        assert txt[p] in txt;
        assert txt[p..p + |str|][0] == txt[p] != str[0];
      }
    }
    FuzzyScoreAllMissing(str, txt, -1, 10);
  }

  /** The scoring loop of `getSimilarMatchesForRows`: every row scored,
      those under the threshold kept with their position. */
  method KeptScan(rows: seq<Candidate>, token: string) returns (results: seq<Ranked>)
    ensures results == Kept(rows, token)
  {
    ghost var scores := RowScores(rows, token);
    results := [];
    var index := 0;
    while index < |rows|
      invariant 0 <= index <= |rows|
      invariant results == KeptOf(scores[..index], |token| * 6)
    {
      var score := RowScore(token, DisplayString(rows[index]));
      assert scores[..index + 1][..index] == scores[..index];
      if score < |token| * 6 {
        results := results + [Ranked(score, index)];
      }
      index := index + 1;
    }
    assert scores[..index] == scores;
  }

  /** The body of `getSimilarMatchesForRows` over the cached rows: scores
      every row, keeps those under the threshold, sorts them by score and
      position and copies the first `maxMatches`. */
  method SimilarScan(rows: seq<Candidate>, token: string, maxMatches: int) returns (matches: seq<Candidate>)
    ensures matches == SimilarMatches(rows, token, maxMatches)
  {
    var results := KeptScan(rows, token);
    // results.sort(...): by SortedUnique any sort honouring the comparator
    // gives this list.
    results := SortByRank(results);
    RankingInRange(rows, token, maxMatches);
    matches := TakeRows(rows, results, maxMatches);
    TakenRowsAreSimilarMatches(rows, token, maxMatches, matches);
  }
}
