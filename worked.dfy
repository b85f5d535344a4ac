/** Two worked cases of the local lookup: a prefix hit that hides the
    similar matcher, and a misspelt token that the similar matcher accepts. */
module WorkedCases {
  import opened JsString
  import opened JsArray
  import opened Candidates
  import opened PrefixMatch
  import opened Ranking
  import opened SimilarMatch
  import opened CachingMatcher

  /** A string without capital letters is its own lower-case form. */
  lemma LowerAlready(s: string)
    requires forall i :: 0 <= i < |s| ==> !('A' <= s[i] <= 'Z')
    ensures ToLower(s) == s
  {
  }

  /** No position after the first can start a match inside a single word. */
  lemma InsideWord(text: string, token: string, p: int)
    requires 0 < p <= |text| && IsWordChar(text[p - 1])
    ensures !WordStartAt(text, token, p)
  {
  }

  lemma GhoMatchesGhost()
    ensures MatchesWordStart("ghost", "gho")
  {
    LowerAlready("gho");
    LowerAlready("ghost"[0..3]);
    assert WordStartAt("ghost", "gho", 0);
  }

  lemma GhoMissesPost()
    ensures !MatchesWordStart("post", "gho")
  {
    forall p | 0 <= p <= 1 ensures !WordStartAt("post", "gho", p) {
      if p == 0 {
        assert ToLower("pos")[0] == 'p' && ToLower("gho")[0] == 'g';
        assert "post"[0..3] == "pos";
      } else {
        InsideWord("post", "gho", p);
      }
    }
  }

  lemma GhoMissesGhastly()
    ensures !MatchesWordStart("ghastly", "gho")
  {
    forall p | 0 <= p <= 4 ensures !WordStartAt("ghastly", "gho", p) {
      if p == 0 {
        assert ToLower("gha")[2] == 'a' && ToLower("gho")[2] == 'o';
        assert "ghastly"[0..3] == "gha";
      } else {
        InsideWord("ghastly", "gho", p);
      }
    }
  }

  /** "gho" starts the row "ghost" and no word of "post" or "ghastly", so
      the cache answers with "ghost" alone, from the prefix matcher. */
  lemma GhoFindsGhost()
    ensures CachedMatches([Text("ghost"), Text("post"), Text("ghastly")], "gho", 10) == [Text("ghost")]
  {
    var rows := [Text("ghost"), Text("post"), Text("ghastly")];
    GhoMatchesGhost();
    GhoMissesPost();
    GhoMissesGhastly();
    assert !IsWhitespace("gho"[0]);
    assert rows[..2][..1] == [Text("ghost")];
    assert rows[..2] == [Text("ghost"), Text("post")];
    assert WordStartRows([Text("ghost")], "gho") == [Text("ghost")];
    assert WordStartRows(rows[..2], "gho") == [Text("ghost")];
    assert WordStartRows(rows, "gho") == [Text("ghost")];
  }

  /** "gost" is not a substring of "ghost". */
  lemma GostNotInGhost()
    ensures IndexOf("ghost", "gost") == -1
  {
    forall p ensures !OccursAt("ghost", "gost", p) {
      if p == 0 {
        assert "ghost"[0..4][1] == 'h';
      } else if p == 1 {
        assert "ghost"[1..5][0] == 'h';
      }
    }
  }

  /** Where `indexOf` finds each letter of "gost" in "ghost". */
  lemma GostLetterPositions()
    ensures IndexOf("ghost", ['g']) == 0 && IndexOf("ghost", ['o']) == 2
    ensures IndexOf("ghost", ['s']) == 3 && IndexOf("ghost", ['t']) == 4
  {
    var txt := "ghost";
    assert txt[0] == 'g' && txt[2] == 'o' && txt[3] == 's' && txt[4] == 't';
    IndexOfChar(txt, 'g');
    IndexOfChar(txt, 'o');
    IndexOfChar(txt, 's');
    IndexOfChar(txt, 't');
  }

  /** The letters of "gost" are found at 0, 2, 3 and 4 in "ghost": only
      the gap before "o" costs anything. */
  lemma GostFuzzyScore()
    ensures FuzzyScore("gost", "ghost", -1, 10) == 1
  {
    var txt := "ghost";
    GostLetterPositions();
    assert "t"[1..] == [];
    assert FuzzyScore("t", txt, 3, 10) == 0;
    assert "st"[0] == 's' && "st"[1..] == "t";
    assert FuzzyScore("st", txt, 2, 10) == 0;
    assert "ost"[0] == 'o' && "ost"[1..] == "st";
    assert FuzzyScore("ost", txt, 0, 10) == 1;
    assert "gost"[0] == 'g' && "gost"[1..] == "ost";
  }

  /** The misspelling "gost" does not occur in "ghost", but its letters
      appear there in order with one gap: the score is 1, well under the
      threshold of 24 for a four-letter token. */
  lemma GostScoresOne()
    ensures Score("gost", "ghost") == 1
    ensures Accepted("gost", "ghost")
  {
    LowerAlready("gost");
    LowerAlready("ghost");
    GostNotInGhost();
    GostFuzzyScore();
  }

  lemma GostMissesGhost()
    ensures !MatchesWordStart("ghost", "gost")
  {
    forall p | 0 <= p <= 1 ensures !WordStartAt("ghost", "gost", p) {
      if p == 0 {
        assert ToLower("ghos")[1] == 'h' && ToLower("gost")[1] == 'o';
        assert "ghost"[0..4] == "ghos";
      } else {
        InsideWord("ghost", "gost", p);
      }
    }
  }

  /** So with "ghost" cached, the token "gost" gets "ghost" back: the prefix
      matcher finds nothing and the similar matcher keeps the row. */
  lemma GostFindsGhost()
    ensures CachedMatches([Text("ghost")], "gost", 10) == [Text("ghost")]
  {
    var rows := [Text("ghost")];
    GostMissesGhost();
    assert WordStartRows(rows, "gost") == [];
    GostScoresOne();
    assert RowScores(rows, "gost") == [1];
    assert [1][..0] == [];
    assert Kept(rows, "gost") == [Ranked(1, 0)];
    assert SimilarRanking(rows, "gost", 10) == [Ranked(1, 0)];
  }
}
