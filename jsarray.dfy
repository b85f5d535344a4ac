/** The two ways the matcher cuts a list down to a limit. */
module JsArray {

  /** The first `n` elements, or all of them when there are fewer; nothing
      for `n <= 0`. This is what a copy loop guarded by `i < n && i < length`
      produces. */
  function Take<T>(s: seq<T>, n: int): (r: seq<T>)
    ensures |r| == if n <= 0 then 0 else if n < |s| then n else |s|
    ensures r == s[..|r|]
  {
    if n <= 0 then [] else if n < |s| then s[..n] else s
  }

  /** `s.slice(0, end)`: a negative end counts back from the length,
      an end beyond the length stops at the length. */
  function Slice0<T>(s: seq<T>, end: int): (r: seq<T>)
    ensures end >= 0 ==> |r| == (if end < |s| then end else |s|)
    ensures end < 0 ==> |r| == (if |s| + end > 0 then |s| + end else 0)
    ensures r == s[..|r|]
  {
    var stop := if end < 0 then (if |s| + end > 0 then |s| + end else 0)
                else if end < |s| then end else |s|;
    s[..stop]
  }
}
