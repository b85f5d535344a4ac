/** `plana.ui.ac.CachingObjectMatcher`: a local cache of rows between an
    autocomplete widget and a remote matcher. It answers each request at once
    from the cache, lets a throttle ask the remote matcher, merges the remote
    answer into the list on screen and keeps a four-state status. */
module CachingMatcher {
  import opened Optional
  import opened JsString
  import opened JsArray
  import opened Candidates
  import opened RowCache
  import opened PrefixMatch
  import opened Ranking
  import opened SimilarMatch
  import opened Merge

  /** The status the widget shows placeholders for (the `State` enum). */
  datatype State = Fetching | NoMatch | Ready | Error {
    /** The number the enum gives each state. */
    function Code(): (n: nat)
      ensures n <= 3
    {
      match this
      case Fetching => 0
      case NoMatch => 1
      case Ready => 2
      case Error => 3
    }
  }

  /** An event of the remote matcher: rows found, a failed request, an
      unreadable response, or an event type the matcher does not expect. */
  datatype RemoteEvent =
    | Matches(matches: seq<Candidate>)
    | FailedRequest
    | InvalidResponse
    | Unknown(eventType: string)

  /** The arguments of a call to the remote matcher's `requestMatches`. */
  datatype RemoteRequest = RemoteRequest(token: string, maxMatches: int, fullString: string)

  /** Identifies a match handler supplied by the widget. */
  type HandlerId = nat

  /** One call of a match handler: the token, the rows, whether the
      highlighted row is to be kept, and what the handler can read back
      while it runs: the state through `getState` and the cached rows
      through `getCachedMatches`. */
  datatype Delivery = Delivery(
    handler: HandlerId, token: string, matches: seq<Candidate>,
    preserveHighlight: bool, stateSeen: State, cacheSeen: seq<Candidate>)

  /** The handler calls made when `handler` is set (none when it is null). */
  function Notify(handler: Option<HandlerId>, token: string, matches: seq<Candidate>,
                  preserveHighlight: bool, state: State, cache: seq<Candidate>): seq<Delivery>
  {
    if handler.Some? then [Delivery(handler.value, token, matches, preserveHighlight, state, cache)] else []
  }

  /** `getCachedMatches`: the prefix matches, or the similar matches when
      there are no prefix matches. */
  function CachedMatches(rows: seq<Candidate>, token: string, maxMatches: int): seq<Candidate> {
    var prefix := PrefixMatches(rows, token, maxMatches);
    if |prefix| != 0 then prefix else SimilarMatches(rows, token, maxMatches)
  }

  /** Local answers are cache rows, at most `maxMatches` of them; and when
      some row matches a non-blank token at the start of a word and the
      limit allows any row at all, the answer holds only such rows (the
      similar matcher is not consulted). */
  lemma CachedMatchesSpec(rows: seq<Candidate>, token: string, maxMatches: int)
    ensures var r := CachedMatches(rows, token, maxMatches);
      |r| <= (if maxMatches <= 0 then 0 else maxMatches)
      && (forall c :: c in r ==> c in rows)
      && ((!IsEmptySafe(token) && maxMatches > 0
           && exists c :: c in rows && MatchesWordStart(DisplayString(c), token)) ==>
            r != [] && forall c :: c in r ==> MatchesWordStart(DisplayString(c), token))
  {
    var prefix := PrefixMatches(rows, token, maxMatches);
    var r := CachedMatches(rows, token, maxMatches);
    PrefixMatchesSpec(rows, token, maxMatches);
    if |prefix| == 0 {
      SimilarMatchesSpec(rows, token, maxMatches);
      RankingSpec(rows, token, maxMatches);
      forall c | c in r ensures c in rows {
        var i :| 0 <= i < |r| && r[i] == c;
      }
    }
    if !IsEmptySafe(token) && maxMatches > 0 && exists c :: c in rows && MatchesWordStart(DisplayString(c), token) {
      var c :| c in rows && MatchesWordStart(DisplayString(c), token);
      WordStartRowsMember(rows, token, c);
      assert |WordStartRows(rows, token)| > 0;
    }
  }

  /** `getCachedMatches` over the cached rows: the similar matcher runs
      only when the prefix matcher finds nothing. */
  method CachedScan(rows: seq<Candidate>, token: string, maxMatches: int) returns (matches: seq<Candidate>)
    ensures matches == CachedMatches(rows, token, maxMatches)
  {
    matches := PrefixScan(rows, token, maxMatches);
    if |matches| == 0 {
      matches := SimilarScan(rows, token, maxMatches);
    }
  }

  class CachingObjectMatcher {
    /** The cached rows, in the order they were added. */
    var rows: seq<Candidate>
    /** The keys of the cached rows, each mapped to true. */
    var rowStrings: map<string, bool>
    /** The cache is emptied once it holds more rows than this. */
    var maxCacheSize: int
    /** The number of rows asked of the remote matcher. */
    var remoteMatcherMaxMatches: int
    /** How often the throttle in front of `TriggerBaseMatch` was fired. */
    var throttleFires: nat
    var mostRecentToken: string
    var mostRecentString: string
    var mostRecentMatchHandler: Option<HandlerId>
    /** The limit of the latest request, applied to merged answers too. */
    var cacheMaxMatches: int
    /** The rows last delivered for the latest request. */
    var mostRecentMatches: seq<Candidate>
    var currentState: State
    /** When set, remote rows are not added to the cache. */
    var disableLocalCache: bool
    /** Every match handler call made so far, in order. */
    var deliveries: seq<Delivery>
    /** Every request sent to the remote matcher so far, in order. */
    var sentRequests: seq<RemoteRequest>

    /** The key map lists exactly the keys of the cached rows, and no two
        cached rows share a string form. */
    ghost predicate Valid()
      reads this`rows, this`rowStrings
    {
      CacheInv(rows, rowStrings)
    }

    constructor ()
      ensures Valid()
      ensures rows == [] && rowStrings == map[] && maxCacheSize == 1000
      ensures remoteMatcherMaxMatches == 100 && throttleFires == 0
      ensures mostRecentToken == "" && mostRecentString == "" && mostRecentMatchHandler == None
      ensures cacheMaxMatches == 10 && mostRecentMatches == [] && currentState == Ready
      ensures !disableLocalCache && deliveries == [] && sentRequests == []
    {
      rows := [];
      rowStrings := map[];
      maxCacheSize := 1000;
      remoteMatcherMaxMatches := 100;
      throttleFires := 0;
      mostRecentToken := "";
      mostRecentString := "";
      mostRecentMatchHandler := None;
      cacheMaxMatches := 10;
      mostRecentMatches := [];
      currentState := Ready;
      disableLocalCache := false;
      deliveries := [];
      sentRequests := [];
    }

    /** The cache and its key map always have the same size. */
    lemma CacheSizeMatchesKeys()
      requires Valid()
      ensures |rowStrings.Keys| == |rows|
    {
      KeysCardinality(rows);
    }

    /** `getState`: the number of the current state, which tells the four
        states apart. */
    function GetState(): (code: nat)
      reads this
      ensures code <= 3
      ensures forall s: State :: s.Code() == code <==> s == currentState
    {
      currentState.Code()
    }

    /** `shouldRequestMatches`: a remote lookup is wanted exactly when the
        token holds a character that is not whitespace; the full string
        plays no part. */
    function ShouldRequestMatches(token: string, fullString: string): (wanted: bool)
      ensures wanted <==> exists i :: 0 <= i < |token| && !IsWhitespace(token[i])
    {
      !IsEmptySafe(token)
    }

    /** The request the throttle would send if it went off now. */
    function PendingRequest(): RemoteRequest
      reads this
    {
      RemoteRequest(mostRecentToken, remoteMatcherMaxMatches, mostRecentString)
    }

    /** `triggerBaseMatch_`: sends one request to the remote matcher, built
        from the latest request's token and full string and the remote
        limit as they are when the throttle goes off. */
    method TriggerBaseMatch() returns (request: RemoteRequest)
      modifies this`sentRequests
      ensures request.token == mostRecentToken && request.fullString == mostRecentString
      ensures request.maxMatches == remoteMatcherMaxMatches
      ensures sentRequests == old(sentRequests) + [request]
    {
      request := PendingRequest();
      sentRequests := sentRequests + [request];
    }

    method SetRemoteMatcherMaxMatches(maxMatches: int)
      modifies this`remoteMatcherMaxMatches
      ensures remoteMatcherMaxMatches == maxMatches
    {
      remoteMatcherMaxMatches := maxMatches;
    }

    method SetMaxCacheSize(size: int)
      modifies this`maxCacheSize
      ensures maxCacheSize == size
    {
      maxCacheSize := size;
    }

    method DisableLocalCache(disable: bool)
      modifies this`disableLocalCache
      ensures disableLocalCache == disable
    {
      disableLocalCache := disable;
    }

    /** `getPrefixMatchesForRows`. */
    method GetPrefixMatchesForRows(token: string, maxMatches: int) returns (matches: seq<Candidate>)
      ensures matches == PrefixMatches(rows, token, maxMatches)
    {
      matches := PrefixScan(rows, token, maxMatches);
    }

    /** `getSimilarMatchesForRows`. */
    method GetSimilarMatchesForRows(token: string, maxMatches: int) returns (matches: seq<Candidate>)
      ensures matches == SimilarMatches(rows, token, maxMatches)
    {
      matches := SimilarScan(rows, token, maxMatches);
    }

    /** `getCachedMatches`. */
    method GetCachedMatches(token: string, maxMatches: int) returns (matches: seq<Candidate>)
      ensures matches == CachedMatches(rows, token, maxMatches)
    {
      matches := CachedScan(rows, token, maxMatches);
    }

    /** `requestMatchingRows`: records the request, sets the state, fires
        the throttle, and hands the local answer to the handler. */
    method RequestMatchingRows(token: string, maxMatches: int, matchHandler: Option<HandlerId>,
                               optFullString: Option<string>)
      requires Valid()
      modifies this`cacheMaxMatches, this`mostRecentToken, this`mostRecentMatchHandler,
               this`mostRecentString, this`currentState, this`throttleFires,
               this`deliveries, this`mostRecentMatches
      ensures Valid()
      ensures cacheMaxMatches == maxMatches && mostRecentToken == token
      ensures mostRecentMatchHandler == matchHandler
      ensures mostRecentString == (if optFullString.Some? then optFullString.value else "")
      ensures currentState == (if IsEmptySafe(token) then Ready else Fetching)
      ensures throttleFires == old(throttleFires) + 1
      ensures PendingRequest() == RemoteRequest(token, remoteMatcherMaxMatches, mostRecentString)
      ensures mostRecentMatches == CachedMatches(rows, token, maxMatches)
      ensures deliveries == old(deliveries) + Notify(matchHandler, token, mostRecentMatches, false, currentState, rows)
    {
      RecordRequest(token, maxMatches, matchHandler, optFullString);
      var matches := CachedScan(rows, token, maxMatches);
      if matchHandler.Some? {
        deliveries := deliveries + [Delivery(matchHandler.value, token, matches, false, currentState, rows)];
      }
      mostRecentMatches := matches;
      assert CacheInv(rows, rowStrings);
    }

    /** The first half of `requestMatchingRows`: the request is recorded, the
        state set, and the throttle fired. */
    method RecordRequest(token: string, maxMatches: int, matchHandler: Option<HandlerId>,
                         optFullString: Option<string>)
      modifies this`cacheMaxMatches, this`mostRecentToken, this`mostRecentMatchHandler,
               this`mostRecentString, this`currentState, this`throttleFires
      ensures cacheMaxMatches == maxMatches && mostRecentToken == token
      ensures mostRecentMatchHandler == matchHandler
      ensures mostRecentString == (if optFullString.Some? then optFullString.value else "")
      ensures currentState == (if IsEmptySafe(token) then Ready else Fetching)
      ensures throttleFires == old(throttleFires) + 1
    {
      cacheMaxMatches := maxMatches;
      mostRecentToken := token;
      mostRecentMatchHandler := matchHandler;
      mostRecentString := if optFullString.Some? then optFullString.value else "";

      var fetching := ShouldRequestMatches(token, mostRecentString);
      if fetching {
        currentState := Fetching;
      } else {
        currentState := Ready;
      }

      throttleFires := throttleFires + 1;
    }

    /** `addRowsToCache_`: appends each row whose string form is new, unless
        the local cache is disabled. */
    method AddRowsToCache(incoming: seq<Candidate>)
      requires Valid()
      modifies this`rows, this`rowStrings
      ensures Valid()
      ensures rows == AddRows(old(rows), incoming, disableLocalCache)
      ensures disableLocalCache ==> rows == old(rows) && rowStrings == old(rowStrings)
    {
      if !disableLocalCache {
        var i := 0;
        while i < |incoming|
          invariant 0 <= i <= |incoming|
          invariant Valid()
          invariant rows == AddAll(old(rows), incoming[..i])
        {
          assert incoming[..i + 1][..i] == incoming[..i];
          AddRowStep(incoming[i]);
          i := i + 1;
        }
        assert incoming[..i] == incoming;
      }
    }

    /** The body of the loop of `addRowsToCache_` for one row. */
    method AddRowStep(row: Candidate)
      requires Valid()
      modifies this`rows, this`rowStrings
      ensures Valid()
      ensures rows == AddOne(old(rows), row)
    {
      var key := Key(row);
      AddOneInv(rows, rowStrings, row);
      if !(key in rowStrings && rowStrings[key]) {
        rows := rows + [row];
        rowStrings := rowStrings[key := true];
      }
    }

    /** `clearCacheIfTooLarge_`: all or nothing. */
    method ClearCacheIfTooLarge()
      requires Valid()
      modifies this`rows, this`rowStrings
      ensures Valid()
      ensures |old(rows)| > maxCacheSize ==> rows == [] && rowStrings == map[]
      ensures |old(rows)| <= maxCacheSize ==> rows == old(rows) && rowStrings == old(rowStrings)
    {
      if |rows| > maxCacheSize {
        ClearCache();
      }
    }

    /** `clearCache`. */
    method ClearCache()
      modifies this`rows, this`rowStrings
      ensures Valid()
      ensures rows == [] && rowStrings == map[]
    {
      rows := [];
      rowStrings := map[];
    }

    /** `onRemoteMatcherEvent_`: caches the remote rows, appends the new
        ones to the shown list, sets the state, calls the handler and only
        then clears an oversized cache; on failure shows the old list with
        state ERROR; any other event type is thrown. */
    method OnRemoteMatcherEvent(e: RemoteEvent) returns (thrown: bool)
      requires Valid()
      modifies this`rows, this`rowStrings, this`mostRecentMatches, this`currentState, this`deliveries
      ensures Valid()
      ensures thrown <==> e.Unknown?
      ensures e.Unknown? ==>
        rows == old(rows) && rowStrings == old(rowStrings) && mostRecentMatches == old(mostRecentMatches)
        && currentState == old(currentState) && deliveries == old(deliveries)
      ensures e.Matches? ==>
        var cached := AddRows(old(rows), e.matches, disableLocalCache);
        mostRecentMatches == Merged(old(mostRecentMatches), e.matches, cacheMaxMatches)
        && currentState == (if !IsEmptySafe(mostRecentToken) && mostRecentMatches == [] then NoMatch else Ready)
        && deliveries == old(deliveries) + Notify(mostRecentMatchHandler, mostRecentToken, mostRecentMatches, true, currentState, cached)
        && rows == (if |cached| > maxCacheSize then [] else cached)
      ensures (e.FailedRequest? || e.InvalidResponse?) ==>
        currentState == Error && mostRecentMatches == old(mostRecentMatches)
        && rows == old(rows) && rowStrings == old(rowStrings)
        && deliveries == old(deliveries) + Notify(mostRecentMatchHandler, mostRecentToken, mostRecentMatches, true, Error, rows)
    {
      thrown := false;
      match e
      case Matches(matches) =>
        OnMatches(matches);
      case FailedRequest =>
        OnFailure();
      case InvalidResponse =>
        OnFailure();
      case Unknown(_) =>
        thrown := true;
    }

    /** The `MATCHES` branch of `onRemoteMatcherEvent_`. */
    method OnMatches(matches: seq<Candidate>)
      requires Valid()
      modifies this`rows, this`rowStrings, this`mostRecentMatches, this`currentState, this`deliveries
      ensures Valid()
      ensures var cached := AddRows(old(rows), matches, disableLocalCache);
        mostRecentMatches == Merged(old(mostRecentMatches), matches, cacheMaxMatches)
        && currentState == (if !IsEmptySafe(mostRecentToken) && mostRecentMatches == [] then NoMatch else Ready)
        && deliveries == old(deliveries) + Notify(mostRecentMatchHandler, mostRecentToken, mostRecentMatches, true, currentState, cached)
        && rows == (if |cached| > maxCacheSize then [] else cached)
    {
      AddRowsToCache(matches);
      ShowMerged(matches);
      ClearCacheIfTooLarge();
    }

    /** The middle of the `MATCHES` branch: the new remote rows join the
        shown list, the state is set and the handler called. */
    method ShowMerged(matches: seq<Candidate>)
      modifies this`mostRecentMatches, this`currentState, this`deliveries
      ensures mostRecentMatches == Merged(old(mostRecentMatches), matches, cacheMaxMatches)
      ensures currentState == (if !IsEmptySafe(mostRecentToken) && mostRecentMatches == [] then NoMatch else Ready)
      ensures deliveries == old(deliveries) + Notify(mostRecentMatchHandler, mostRecentToken, mostRecentMatches, true, currentState, rows)
    {
      mostRecentMatches := MergeScan(mostRecentMatches, matches, cacheMaxMatches);

      var fetched := ShouldRequestMatches(mostRecentToken, mostRecentString);
      if fetched && |mostRecentMatches| == 0 {
        currentState := NoMatch;
      } else {
        currentState := Ready;
      }

      if mostRecentMatchHandler.Some? {
        deliveries := deliveries + [Delivery(mostRecentMatchHandler.value, mostRecentToken, mostRecentMatches, true, currentState, rows)];
      }
    }

    /** The `FAILED_REQUEST` and `INVALID_RESPONSE` branches of
        `onRemoteMatcherEvent_`: the shown list is handed back with state ERROR. */
    method OnFailure()
      modifies this`currentState, this`deliveries
      ensures currentState == Error
      ensures deliveries == old(deliveries) + Notify(mostRecentMatchHandler, mostRecentToken, mostRecentMatches, true, Error, rows)
    {
      currentState := Error;
      if mostRecentMatchHandler.Some? {
        deliveries := deliveries + [Delivery(mostRecentMatchHandler.value, mostRecentToken, mostRecentMatches, true, currentState, rows)];
      }
    }
  }
}
