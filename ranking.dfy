/** The order in which the similar matcher lists its accepted rows: by score,
    then by position in the cache (the comparator handed to `results.sort`).
    `SortByRank` is an insertion sort that stands for the library sort;
    `SortedUnique` shows that every sort obeying the comparator gives the
    same list. */
module Ranking {

  /** An accepted row: its score and its position in the cache. */
  datatype Ranked = Ranked(score: int, index: nat)

  /** `a` comes before `b`: lower score, or equal score and earlier position. */
  predicate RankLt(a: Ranked, b: Ranked) {
    a.score < b.score || (a.score == b.score && a.index < b.index)
  }

  predicate StrictlySorted(s: seq<Ranked>) {
    forall i, j :: 0 <= i < j < |s| ==> RankLt(s[i], s[j])
  }

  predicate Distinct(s: seq<Ranked>) {
    forall i, j :: 0 <= i < j < |s| ==> s[i] != s[j]
  }

  /** Inserts `x` before the first element that does not come before it. */
  function Insert(x: Ranked, s: seq<Ranked>): seq<Ranked>
    decreases |s|
  {
    if s == [] then [x]
    else if RankLt(s[0], x) then [s[0]] + Insert(x, s[1..])
    else [x] + s
  }

  function SortByRank(s: seq<Ranked>): seq<Ranked>
    decreases |s|
  {
    if s == [] then [] else Insert(s[0], SortByRank(s[1..]))
  }

  /** The comparator is a strict total order on distinct entries. */
  lemma RankTotal(a: Ranked, b: Ranked)
    ensures a != b ==> RankLt(a, b) || RankLt(b, a)
    ensures !(RankLt(a, b) && RankLt(b, a))
  {
  }

  lemma {:induction false} InsertPerm(x: Ranked, s: seq<Ranked>)
    ensures multiset(Insert(x, s)) == multiset(s) + multiset{x}
    decreases |s|
  {
    if s != [] && RankLt(s[0], x) {
      InsertPerm(x, s[1..]);
      assert s == [s[0]] + s[1..];
    }
  }

  lemma {:induction false} InsertSorted(x: Ranked, s: seq<Ranked>)
    requires StrictlySorted(s) && x !in s
    ensures StrictlySorted(Insert(x, s))
    decreases |s|
  {
    if s != [] {
      if RankLt(s[0], x) {
        var t := s[1..];
        assert x !in t;
        InsertSorted(x, t);
        InsertPerm(x, t);
        var r := Insert(x, t);
        forall j | 0 <= j < |r| ensures RankLt(s[0], r[j]) {
          assert r[j] in multiset(r);
          if r[j] != x {
            assert r[j] in multiset(t);
            var k :| 0 <= k < |t| && t[k] == r[j];
            assert s[k + 1] == r[j];
          }
        }
        assert Insert(x, s) == [s[0]] + r;
      } else {
        RankTotal(x, s[0]);
        assert s[0] in s;
      }
    }
  }

  /** Sorting returns a strictly ordered permutation of a list of distinct entries. */
  lemma {:induction false} SortByRankSpec(s: seq<Ranked>)
    requires Distinct(s)
    ensures multiset(SortByRank(s)) == multiset(s)
    ensures StrictlySorted(SortByRank(s))
    decreases |s|
  {
    if s != [] {
      var t := s[1..];
      assert Distinct(t);
      SortByRankSpec(t);
      InsertPerm(s[0], SortByRank(t));
      assert s == [s[0]] + t;
      assert s[0] !in multiset(t);
      assert s[0] !in SortByRank(t);
      InsertSorted(s[0], SortByRank(t));
    }
  }

  lemma MultisetTail(s: seq<Ranked>)
    requires s != []
    ensures multiset(s[1..]) == multiset(s) - multiset{s[0]}
  {
    assert s == [s[0]] + s[1..];
  }

  /** The head of a strictly ordered list comes before all its other elements. */
  lemma SortedHead(s: seq<Ranked>, x: Ranked)
    requires StrictlySorted(s) && x in s
    ensures s[0] == x || RankLt(s[0], x)
  {
    var k :| 0 <= k < |s| && s[k] == x;
  }

  /** Two strictly ordered lists with the same elements are equal: whatever
      algorithm the library sort uses, the comparator fixes its result. */
  lemma {:induction false} SortedUnique(a: seq<Ranked>, b: seq<Ranked>)
    requires StrictlySorted(a) && StrictlySorted(b) && multiset(a) == multiset(b)
    ensures a == b
    decreases |a|
  {
    assert |a| == |multiset(a)| == |multiset(b)| == |b|;
    if a != [] {
      assert a[0] in multiset(b) && b[0] in multiset(a);
      SortedHead(a, b[0]);
      SortedHead(b, a[0]);
      RankTotal(a[0], b[0]);
      MultisetTail(a);
      MultisetTail(b);
      SortedUnique(a[1..], b[1..]);
    }
  }
}
