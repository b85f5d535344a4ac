/** How a remote answer is merged into the list on screen: remote rows not
    shown yet go after the shown ones, and the result is cut to the limit
    with `slice(0, limit)`. */
module Merge {
  import opened Candidates
  import opened JsArray

  /** The remote rows whose string form is not among `shownKeys`, in their order. */
  function FilterNew(matches: seq<Candidate>, shownKeys: set<string>): seq<Candidate>
    decreases |matches|
  {
    if matches == [] then []
    else (if Key(matches[0]) in shownKeys then [] else [matches[0]]) + FilterNew(matches[1..], shownKeys)
  }

  /** The list shown after a remote answer. */
  function Merged(shown: seq<Candidate>, matches: seq<Candidate>, limit: int): seq<Candidate> {
    Slice0(shown + FilterNew(matches, Keys(shown)), limit)
  }

  /** A remote row survives the filter exactly when its string form is not shown. */
  lemma {:induction false} FilterNewMember(matches: seq<Candidate>, shownKeys: set<string>, c: Candidate)
    ensures c in FilterNew(matches, shownKeys) <==> c in matches && Key(c) !in shownKeys
    decreases |matches|
  {
    if matches != [] {
      FilterNewMember(matches[1..], shownKeys, c);
      assert matches == [matches[0]] + matches[1..];
    }
  }

  /** Remote rows without repeated string forms stay so after filtering. */
  lemma {:induction false} FilterNewNoDup(matches: seq<Candidate>, shownKeys: set<string>)
    requires NoDupKeys(matches)
    ensures NoDupKeys(FilterNew(matches, shownKeys))
    decreases |matches|
  {
    if matches != [] {
      var rest := matches[1..];
      assert NoDupKeys(rest);
      FilterNewNoDup(rest, shownKeys);
      var f := FilterNew(rest, shownKeys);
      if Key(matches[0]) !in shownKeys {
        forall j | 0 <= j < |f| ensures Key(f[j]) != Key(matches[0]) {
          assert f[j] in f;
          FilterNewMember(rest, shownKeys, f[j]);
          var k :| 0 <= k < |rest| && rest[k] == f[j];
          assert matches[k + 1] == f[j];
        }
      }
    }
  }

  /** Merge policy: the result is the shown list followed by the new remote
      rows, cut to the limit; every shown row keeps its place; every added
      row is a remote row whose string form was not shown; when the limit
      leaves room for the whole shown list nothing shown disappears; and for
      a limit that is not negative the length is the smaller of the limit and
      the combined length. */
  lemma MergedSpec(shown: seq<Candidate>, matches: seq<Candidate>, limit: int)
    ensures var added := FilterNew(matches, Keys(shown));
      var r := Merged(shown, matches, limit);
      r == (shown + added)[..|r|]
      && (forall i :: 0 <= i < |r| && i < |shown| ==> r[i] == shown[i])
      && (forall i :: |shown| <= i < |r| ==> r[i] in matches && Key(r[i]) !in Keys(shown))
      && (limit >= |shown| ==> |shown| <= |r| && r[..|shown|] == shown)
      && (limit >= 0 ==> |r| == if limit < |shown| + |added| then limit else |shown| + |added|)
  {
    var added := FilterNew(matches, Keys(shown));
    var r := Merged(shown, matches, limit);
    forall i | |shown| <= i < |r| ensures r[i] in matches && Key(r[i]) !in Keys(shown) {
      assert r[i] == added[i - |shown|];
      FilterNewMember(matches, Keys(shown), r[i]);
    }
  }

  /** The merged list repeats no string form when neither the shown list nor
      the remote answer does: duplicates on screen can only come from the
      remote answer itself. */
  lemma MergedNoDup(shown: seq<Candidate>, matches: seq<Candidate>, limit: int)
    requires NoDupKeys(shown) && NoDupKeys(matches)
    ensures NoDupKeys(Merged(shown, matches, limit))
  {
    var added := FilterNew(matches, Keys(shown));
    FilterNewNoDup(matches, Keys(shown));
    var all := shown + added;
    forall i, j | 0 <= i < j < |all| ensures Key(all[i]) != Key(all[j]) {
      if i < |shown| && j >= |shown| {
        assert all[j] in added;
        FilterNewMember(matches, Keys(shown), all[j]);
        assert all[i] in shown;
      }
    }
    var r := Merged(shown, matches, limit);
    assert forall i :: 0 <= i < |r| ==> r[i] == all[i];
  }

  /** Merging the same remote answer a second time changes nothing. */
  lemma MergedIdempotent(shown: seq<Candidate>, matches: seq<Candidate>, limit: int)
    requires limit >= 0
    ensures Merged(Merged(shown, matches, limit), matches, limit) == Merged(shown, matches, limit)
  {
    var added := FilterNew(matches, Keys(shown));
    var r := Merged(shown, matches, limit);
    MergedSpec(shown, matches, limit);
    if |r| < limit {
      assert r == shown + added;
      KeysAppend(shown, added);
      forall c | c in matches ensures Key(c) in Keys(r) {
        FilterNewMember(matches, Keys(shown), c);
      }
      FilterNoneNew(matches, Keys(r));
      assert r + [] == r;
    }
  }

  /** Nothing survives the filter when every remote string form is shown. */
  lemma {:induction false} FilterNoneNew(matches: seq<Candidate>, shownKeys: set<string>)
    requires forall c :: c in matches ==> Key(c) in shownKeys
    ensures FilterNew(matches, shownKeys) == []
    decreases |matches|
  {
    if matches != [] {
      assert matches[0] in matches;
      FilterNoneNew(matches[1..], shownKeys);
    }
  }

  /** The merge step of `onRemoteMatcherEvent_`: collects the string forms
      of the shown rows, keeps the remote rows not among them and cuts the
      combined list with `slice(0, limit)`. */
  method MergeScan(shown: seq<Candidate>, matches: seq<Candidate>, limit: int) returns (merged: seq<Candidate>)
    ensures merged == Merged(shown, matches, limit)
  {
    var oldMatchesSet: set<string> := {};
    var i := 0;
    while i < |shown|
      invariant 0 <= i <= |shown|
      invariant oldMatchesSet == Keys(shown[..i])
    {
      assert shown[..i + 1][..i] == shown[..i];
      oldMatchesSet := oldMatchesSet + {Key(shown[i])};
      i := i + 1;
    }
    assert shown[..i] == shown;
    var newMatches := FilterNew(matches, oldMatchesSet);
    merged := Slice0(shown + newMatches, limit);
  }
}
