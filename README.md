# CachingObjectMatcher in Dafny

A model of `plana.ui.ac.CachingObjectMatcher`, the object that sits between
an autocomplete widget and a remote matcher. It keeps a deduplicated local
cache of rows. It answers every request at once from that cache: prefix
matches first, "similar" matches when there are none. It fires a throttled
remote request, merges the remote answer into the list on screen and keeps a
four-state status (`FETCHING`, `NO_MATCH`, `READY`, `ERROR`).

Layout:

- `jsstring.dfy` (`JsString`): the JavaScript string operations the matcher
  relies on. These are the `\s` test behind `goog.string.isEmptySafe`, the
  `\W` class, lower-casing and `indexOf`.
- `jsarray.dfy` (`JsArray`): the two ways a list is cut to a limit. One is a
  copy loop guarded by `i < n`; the other is `slice(0, end)`, including a
  negative `end`.
- `candidate.dfy` (`Optional`, `Candidates`): the cached row, its string form
  (`row.toString()`), its cache key `' ' + str`, and key sets.
- `rowcache.dfy` (`RowCache`): what `addRowsToCache_` does to the row list,
  as functions on values. It also holds the cache invariant and the
  deduplication lemmas.
- `prefixmatch.dfy` (`PrefixMatch`): the start-of-word matcher and its scan
  loop.
- `ranking.dfy` (`Ranking`): the `(score, index)` order of the similar
  matcher. An insertion sort stands for the library sort, and a lemma shows
  that any sort obeying the comparator gives the same list.
- `similarmatch.dfy` (`SimilarMatch`): the scoring heuristic, the threshold,
  the ranking and the loops of `getSimilarMatchesForRows`.
- `merge.dfy` (`Merge`): how a remote answer joins the displayed list.
- `matcher.dfy` (`CachingMatcher`): the `State` enum, remote events, and the
  class `CachingObjectMatcher`. Its fields are those of the source object,
  and its methods update them in place.
- `worked.dfy` (`WorkedCases`): two worked lookups, "gho" against
  "ghost", "post" and "ghastly", and the misspelling "gost" against "ghost".

Matching only reads the cache. It is specified by pure functions
(`PrefixMatches`, `SimilarMatches`, `CachedMatches`) and implemented by
loop-based methods proved equal to them (`PrefixScan`, `KeptScan`,
`SimilarScan`, `CachedScan`). The class methods call those methods on the
cached rows. The imperative parts (`addRowsToCache_`, `clearCache`,
`requestMatchingRows`, `onRemoteMatcherEvent_`) are class methods guarded by
`Valid()`. `Valid()` says three things:

- the key map lists exactly the keys of the cached rows;
- every value in the key map is `true`;
- no two cached rows share a string form.

The throttle is reduced to a counter of its firings. When it goes off it runs
`TriggerBaseMatch`, which builds the request from the fields as they are at
that moment and appends it to a `sentRequests` log. Calls of the match
handler are recorded in a `deliveries` log. Each entry holds:

- the handler;
- the token and the rows;
- whether the highlight is kept;
- what the handler can read back while it runs: the state through
  `getState`, and the cached rows through `getCachedMatches`.

The recorded cache fixes the order of a remote answer's last two steps. The
handler sees the cache with the remote rows added, and only then is an
oversized cache emptied.

The similar matcher follows the code rather than its usual description. Each
token letter is looked up with `txt.indexOf(c)` from the start of the row.
It is accepted only when that first occurrence lies after the last accepted
position. The letter is not searched for after that position. So a repeated
letter, as in "aa" against "a-a", is charged the penalty even though it
occurs later in the row.

## Model

| member | source | states |
|---|---|---|
| Candidates.KeyInjective | js/autocomplete/cachingobjectmatcher.js:433-437 | two rows share a key exactly when they share a string form, so deduplicating by key is deduplicating by string form |
| Candidates.KeysCardinality | js/autocomplete/cachingobjectmatcher.js:63-77 | a row list without repeated string forms has as many distinct keys as rows |
| CachingMatcher.CachingObjectMatcher.CacheSizeMatchesKeys | js/autocomplete/cachingobjectmatcher.js:63-77 | under the invariant, `rowStrings_` has exactly as many entries as `rows_` |
| CachingMatcher.CachingObjectMatcher.constructor | js/autocomplete/cachingobjectmatcher.js:68-172 | initial state: empty cache, cache limit 1000, remote limit 100, local limit 10, empty token and string, no handler, READY, local cache on, nothing delivered or sent; the invariant holds |
| RowCache.AddOneInv | js/autocomplete/cachingobjectmatcher.js:433-438 | the test `!rowStrings_[' ' + str]` is true exactly when no cached row has that string form, and pushing the row and setting its key keeps the invariant |
| RowCache.AddAllExtends | js/autocomplete/cachingobjectmatcher.js:430-441 | the old cache is a prefix of the new one: existing rows keep their order and places |
| RowCache.AddAllNoDup | js/autocomplete/cachingobjectmatcher.js:430-441 | after adding any rows, no two cached rows share a string form |
| RowCache.AddAllKeys | js/autocomplete/cachingobjectmatcher.js:430-441 | the new key set is the old key set together with the keys of the offered rows |
| RowCache.AddAllOrigin | js/autocomplete/cachingobjectmatcher.js:430-441 | every appended row is an offered row whose string form was not cached before |
| RowCache.AddAllSize | js/autocomplete/cachingobjectmatcher.js:430-441 | the cache grows by exactly the number of offered string forms that were not cached |
| RowCache.AddAllIdempotent | js/autocomplete/cachingobjectmatcher.js:430-441 | offering the same rows a second time changes nothing |
| CachingMatcher.CachingObjectMatcher.AddRowStep | js/autocomplete/cachingobjectmatcher.js:432-439 | one `forEach` callback: the row is appended with its key exactly when its string form is new, and the invariant is kept |
| CachingMatcher.CachingObjectMatcher.AddRowsToCache | js/autocomplete/cachingobjectmatcher.js:430-441 | the new row list is the fold of the callback over the offered rows, or the old cache unchanged (rows and key map) when the local cache is disabled; the invariant is kept |
| CachingMatcher.CachingObjectMatcher.ClearCacheIfTooLarge | js/autocomplete/cachingobjectmatcher.js:448-452 | both the rows and the key map are emptied exactly when there are more rows than `maxCacheSize_`; otherwise both are unchanged |
| CachingMatcher.CachingObjectMatcher.ClearCache | js/autocomplete/cachingobjectmatcher.js:556-562 | afterwards the rows and the key map are empty and the invariant holds |
| CachingMatcher.State.Code | js/autocomplete/cachingobjectmatcher.js:578-600 | every state is numbered within 0 to 3 (by definition FETCHING 0, NO_MATCH 1, READY 2, ERROR 3); `GetState` adds that distinct states get distinct numbers |
| CachingMatcher.CachingObjectMatcher.GetState | js/autocomplete/cachingobjectmatcher.js:540-542 | returns a number from 0 to 3 that is the code of the current state and of no other state |
| CachingMatcher.CachingObjectMatcher.ShouldRequestMatches | js/autocomplete/cachingobjectmatcher.js:224-227 | a remote lookup is wanted exactly when the token holds a character that is not whitespace; the full string plays no part |
| CachingMatcher.CachingObjectMatcher.TriggerBaseMatch | js/autocomplete/cachingobjectmatcher.js:462-467 | sends exactly one request to the remote matcher, made of the latest token, the latest full string and the remote limit as they are when it runs; nothing else changes |
| CachingMatcher.CachingObjectMatcher.SetMaxCacheSize | js/autocomplete/cachingobjectmatcher.js:267-270 | sets the cache limit and nothing else |
| CachingMatcher.CachingObjectMatcher.SetRemoteMatcherMaxMatches | js/autocomplete/cachingobjectmatcher.js:253-256 | sets the remote limit and nothing else |
| CachingMatcher.CachingObjectMatcher.DisableLocalCache | js/autocomplete/cachingobjectmatcher.js:569-572 | sets the flag and nothing else |
| JsString.IndexOf | js/autocomplete/cachingobjectmatcher.js:336-337 | `indexOf` is -1 exactly when the pattern occurs nowhere, otherwise the first position where it occurs |
| JsString.IndexOfChar | js/autocomplete/cachingobjectmatcher.js:346 | for one letter, `indexOf` is -1 exactly when the letter is absent, otherwise its first position |
| PrefixMatch.WordStartRowsMember | js/autocomplete/cachingobjectmatcher.js:303-315 | a row is among the regex matches exactly when it is a cache row whose string the regex `(^\|\W+)token` (case-insensitive) matches |
| PrefixMatch.PrefixMatchesSpec | js/autocomplete/cachingobjectmatcher.js:299-317 | a blank token gives nothing; otherwise the result is the first `min(maxMatches, #matching)` matching rows in cache order, every result matches, and when fewer than `maxMatches` are returned every matching row is returned |
| PrefixMatch.MatchesWholeString | js/autocomplete/cachingobjectmatcher.js:305-313 | a row whose string equals the token up to case is always matched |
| PrefixMatch.PrefixScan | js/autocomplete/cachingobjectmatcher.js:299-317 | the scan loop with its early stop at `maxMatches` returns exactly the prefix matches |
| CachingMatcher.CachingObjectMatcher.GetPrefixMatchesForRows | js/autocomplete/cachingobjectmatcher.js:299-317 | returns the prefix matches of the cached rows |
| SimilarMatch.RowScore | js/autocomplete/cachingobjectmatcher.js:332-363 | the scoring loop (substring score, or letter-by-letter gap and penalty accumulation) computes the row's score |
| SimilarMatch.ScoreNonNegative | js/autocomplete/cachingobjectmatcher.js:334-363 | no score is negative |
| SimilarMatch.NoCommonLetterRejected | js/autocomplete/cachingobjectmatcher.js:339-365 | a row sharing no letter with a non-empty token scores at least 10 per letter and is never kept |
| SimilarMatch.EmptyTokenMatchesNothing | js/autocomplete/cachingobjectmatcher.js:365 | an empty token keeps no row, so the similar matcher returns nothing |
| SimilarMatch.KeptMember | js/autocomplete/cachingobjectmatcher.js:331-372 | an entry is kept exactly when it names a cache row, carries that row's score, and the score is below six per token letter |
| SimilarMatch.KeptIncreasing | js/autocomplete/cachingobjectmatcher.js:331-372 | kept entries appear in cache order, so none appears twice |
| SimilarMatch.KeptScan | js/autocomplete/cachingobjectmatcher.js:329-372 | the scoring loop over the cache collects exactly the kept entries, in cache order |
| Ranking.SortByRankSpec | js/autocomplete/cachingobjectmatcher.js:374-380 | sorting distinct entries gives a permutation strictly ordered by score, then position |
| Ranking.SortedUnique | js/autocomplete/cachingobjectmatcher.js:374-380 | two strictly ordered lists with the same elements are equal, so every sort obeying the comparator gives the same result |
| SimilarMatch.RankingSpec | js/autocomplete/cachingobjectmatcher.js:374-385 | the ranking holds `min(maxMatches, #kept)` kept entries, strictly ordered, and every kept entry left out ranks after all listed ones |
| SimilarMatch.TakeRows | js/autocomplete/cachingobjectmatcher.js:382-387 | the copy loop returns the rows named by the first `maxMatches` ranked entries |
| SimilarMatch.SimilarMatchesSpec | js/autocomplete/cachingobjectmatcher.js:382-387 | each returned row is the cache row its ranking entry names, with that entry's score, and is below the threshold |
| SimilarMatch.SimilarScan | js/autocomplete/cachingobjectmatcher.js:327-388 | the whole method returns exactly the similar matches |
| CachingMatcher.CachingObjectMatcher.GetSimilarMatchesForRows | js/autocomplete/cachingobjectmatcher.js:327-388 | returns the similar matches of the cached rows |
| CachingMatcher.CachedMatchesSpec | js/autocomplete/cachingobjectmatcher.js:281-290 | local answers are cache rows, at most `maxMatches` of them; when some row matches a non-blank token at a word start and `maxMatches > 0`, the answer is non-empty and holds only such rows (prefix before fuzzy) |
| CachingMatcher.CachedScan | js/autocomplete/cachingobjectmatcher.js:281-290 | runs the similar matcher only when the prefix matcher returns nothing |
| CachingMatcher.CachingObjectMatcher.GetCachedMatches | js/autocomplete/cachingobjectmatcher.js:281-290 | returns the cached matches of the cached rows |
| WorkedCases.GhoFindsGhost | js/autocomplete/cachingobjectmatcher.js:281-317 | with "ghost", "post" and "ghastly" cached, the token "gho" gets exactly "ghost", from the prefix matcher |
| WorkedCases.GostScoresOne | js/autocomplete/cachingobjectmatcher.js:332-365 | "gost" is not a substring of "ghost", its letters score 1 by gaps and penalties, and the row is kept |
| WorkedCases.GostFindsGhost | js/autocomplete/cachingobjectmatcher.js:281-388 | with "ghost" cached, the misspelt token "gost" gets "ghost" back: no prefix match, so the similar matcher answers |
| CachingMatcher.CachingObjectMatcher.RecordRequest | js/autocomplete/cachingobjectmatcher.js:402-414 | records limit, token, handler and full string (`''` when absent), sets FETCHING exactly for a non-blank token and READY otherwise, and fires the throttle once |
| CachingMatcher.CachingObjectMatcher.RequestMatchingRows | js/autocomplete/cachingobjectmatcher.js:399-421 | as `RecordRequest`; the throttled request built from the latest fields is `(token, remoteMatcherMaxMatches_, fullString)`; the handler, if any, receives the cached matches while the state is already set, and sees the cache as it is; the same list is remembered; the cache is untouched |
| Merge.FilterNewMember | js/autocomplete/cachingobjectmatcher.js:494-496 | a remote row survives the filter exactly when its string form is not among the shown rows |
| Merge.MergedSpec | js/autocomplete/cachingobjectmatcher.js:487-502 | the new list is a prefix of shown rows followed by the new remote rows; shown rows keep their positions; added rows are remote rows not shown; a limit covering the shown list drops none of them; the length is `min(limit, total)` for a non-negative limit |
| Merge.MergedNoDup | js/autocomplete/cachingobjectmatcher.js:487-502 | when neither the shown list nor the remote answer repeats a string form, neither does the merged list |
| Merge.MergedIdempotent | js/autocomplete/cachingobjectmatcher.js:487-502 | merging the same remote answer a second time changes nothing |
| Merge.MergeScan | js/autocomplete/cachingobjectmatcher.js:487-502 | the key-collecting loop, the filter and the slice compute the merged list |
| CachingMatcher.CachingObjectMatcher.ShowMerged | js/autocomplete/cachingobjectmatcher.js:484-515 | the shown list becomes the merged list; the state becomes NO_MATCH exactly when the token is non-blank and the list is empty, READY otherwise; the handler receives the list with the highlight kept and sees the cache as it is |
| CachingMatcher.CachingObjectMatcher.OnMatches | js/autocomplete/cachingobjectmatcher.js:483-520 | caches the remote rows, shows the merged list and calls the handler, which sees the cache with the remote rows added; only after that call is the cache emptied, exactly when it has grown past its limit |
| CachingMatcher.CachingObjectMatcher.OnFailure | js/autocomplete/cachingobjectmatcher.js:521-529 | the state becomes ERROR and the handler receives the unchanged shown list, seeing the unchanged cache |
| CachingMatcher.CachingObjectMatcher.OnRemoteMatcherEvent | js/autocomplete/cachingobjectmatcher.js:477-533 | on MATCHES, as `OnMatches`, so the handler sees the cache before any clearing; on FAILED_REQUEST or INVALID_RESPONSE, ERROR with the cache and shown list untouched; any other event type is thrown and changes nothing; the invariant is kept |

## Left out

- The throttle's timing (`goog.async.Throttle`, `setThrottleTime`). Only its firings are counted. When it goes off it runs `TriggerBaseMatch`, and `PendingRequest()` is the request that would be sent at a given moment. Coalescing over time is not modelled.
- `RemoteObjectMatcher`, XhrIo, the URI and `getRemoteMatcher`. These are network I/O in a class that is not part of this model. Remote outcomes are an input datatype `RemoteEvent`.
- `RemoteObject` is not part of this model. A row is a `Candidate` whose `DisplayString` stands for `toString()`. `dispose()` of rows and `disposeInternal` are memory management and are left out.
- Match handlers are not run. Each call is recorded in `deliveries` with the state the handler could read, so a handler that calls back into the matcher is not modelled. `RenderOptions` is reduced to its preserve-highlight flag.
- JsString.ToLower: folds only the ASCII letters. JavaScript's full Unicode `toLowerCase`, which can change a string's length, is not modelled. The `i` flag of the prefix regex is read the same way.
- JsString.IndexOf: works on Unicode scalar values, where JavaScript works on UTF-16 code units. The same holds for `str.split('')` in the similar matcher.
- The prefix regex is modelled by what it matches: the token taken literally, at the start of the string or right after a non-word character. The `regExpEscape` step and the regex engine are not modelled.
- Numbers are integers. Non-integer or `NaN` limits and cache sizes are not modelled. Any integer `maxMatches`, including a negative one, is covered.
- CachingMatcher.CachingObjectMatcher.OnRemoteMatcherEvent: an unknown event type is signalled by the result `thrown` rather than by an exception.
- The order "throttle first, local lookup second" in `requestMatchingRows` is kept in `RequestMatchingRows`. The lookup does not read the throttle state, so the order is not observable in the model.
