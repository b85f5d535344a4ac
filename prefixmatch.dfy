/** The prefix matcher of `getPrefixMatchesForRows`: a row matches when the
    token, compared case-insensitively, starts the row's string or follows a
    non-word character in it (the regular expression `(^|\W+)token` with the
    `i` flag, the token taken literally). */
module PrefixMatch {
  import opened JsString
  import opened JsArray
  import opened Candidates

  /** The token matches `text` starting at position `p`. */
  predicate WordStartAt(text: string, token: string, p: int) {
    0 <= p && p + |token| <= |text|
    && (p == 0 || !IsWordChar(text[p - 1]))
    && ToLower(text[p..p + |token|]) == ToLower(token)
  }

  /** The regular expression finds a match somewhere in `text`. */
  predicate MatchesWordStart(text: string, token: string) {
    exists p | 0 <= p <= |text| - |token| :: WordStartAt(text, token, p)
  }

  /** The rows whose string form the regular expression matches, in cache order. */
  function WordStartRows(rows: seq<Candidate>, token: string): seq<Candidate>
    decreases |rows|
  {
    if rows == [] then []
    else
      var last := rows[|rows| - 1];
      WordStartRows(rows[..|rows| - 1], token)
      + (if MatchesWordStart(DisplayString(last), token) then [last] else [])
  }

  /** The prefix matches: none for a blank token, otherwise the first
      `maxMatches` matching rows in cache order. */
  function PrefixMatches(rows: seq<Candidate>, token: string, maxMatches: int): seq<Candidate> {
    if IsEmptySafe(token) then [] else Take(WordStartRows(rows, token), maxMatches)
  }

  /** Filtering a concatenation filters each part. */
  lemma {:induction false} WordStartRowsAppend(a: seq<Candidate>, b: seq<Candidate>, token: string)
    ensures WordStartRows(a + b, token) == WordStartRows(a, token) + WordStartRows(b, token)
    decreases |b|
  {
    if b == [] {
      assert a + b == a;
    } else {
      var bi := b[..|b| - 1];
      assert (a + b)[..|a + b| - 1] == a + bi;
      WordStartRowsAppend(a, bi, token);
    }
  }

  /** A row is kept by the filter exactly when it is a cache row whose string
      form matches. */
  lemma {:induction false} WordStartRowsMember(rows: seq<Candidate>, token: string, c: Candidate)
    ensures c in WordStartRows(rows, token) <==> c in rows && MatchesWordStart(DisplayString(c), token)
    decreases |rows|
  {
    if rows != [] {
      var init := rows[..|rows| - 1];
      WordStartRowsMember(init, token, c);
      assert rows == init + [rows[|rows| - 1]];
    }
  }

  /** What the prefix matcher returns: nothing for a blank token; otherwise
      rows of the cache, in cache order, each matching the token at the start
      of a word, as many as there are such rows but at most `maxMatches`,
      and every matching row when there are fewer than `maxMatches`. */
  lemma PrefixMatchesSpec(rows: seq<Candidate>, token: string, maxMatches: int)
    ensures IsEmptySafe(token) ==> PrefixMatches(rows, token, maxMatches) == []
    ensures !IsEmptySafe(token) ==>
      var all := WordStartRows(rows, token);
      var r := PrefixMatches(rows, token, maxMatches);
      |r| == (if maxMatches <= 0 then 0 else if maxMatches < |all| then maxMatches else |all|)
      && r == all[..|r|]
      && (forall c :: c in r ==> c in rows && MatchesWordStart(DisplayString(c), token))
      && (|r| < maxMatches ==>
            forall c :: c in rows && MatchesWordStart(DisplayString(c), token) ==> c in r)
  {
    if !IsEmptySafe(token) {
      var all := WordStartRows(rows, token);
      var r := PrefixMatches(rows, token, maxMatches);
      forall c | c in r ensures c in rows && MatchesWordStart(DisplayString(c), token) {
        WordStartRowsMember(rows, token, c);
      }
      if |r| < maxMatches {
        assert r == all;
        forall c | c in rows && MatchesWordStart(DisplayString(c), token) ensures c in r {
          WordStartRowsMember(rows, token, c);
        }
      }
    }
  }

  /** A whole row string that equals the token up to case is always matched. */
  lemma MatchesWholeString(text: string, token: string)
    requires ToLower(text) == ToLower(token)
    ensures MatchesWordStart(text, token)
  {
    assert text[0..|token|] == text;
    assert WordStartAt(text, token, 0);
  }

  /** The loop of `getPrefixMatchesForRows` over the cached rows: scans them
      in order and stops once `maxMatches` rows matched. */
  method PrefixScan(rows: seq<Candidate>, token: string, maxMatches: int) returns (matches: seq<Candidate>)
    ensures matches == PrefixMatches(rows, token, maxMatches)
  {
    matches := [];
    if !IsEmptySafe(token) {
      var matchCount := 0;
      var i := 0;
      while i < |rows| && matchCount < maxMatches
        invariant 0 <= i <= |rows|
        invariant matches == WordStartRows(rows[..i], token)
        invariant matchCount == |matches|
        invariant matchCount == 0 || matchCount <= maxMatches
      {
        var row := rows[i];
        assert rows[..i + 1][..i] == rows[..i];
        if MatchesWordStart(DisplayString(row), token) {
          matchCount := matchCount + 1;
          matches := matches + [row];
        }
        i := i + 1;
      }
      assert rows == rows[..i] + rows[i..];
      WordStartRowsAppend(rows[..i], rows[i..], token);
    }
  }
}
