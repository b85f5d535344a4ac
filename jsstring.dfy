/** The few JavaScript string operations the matcher relies on: the
    whitespace test behind `goog.string.isEmptySafe`, the `\W` class of a
    regular expression, lower-casing and `String.prototype.indexOf`.
    Case folding is restricted to the ASCII letters. */
module JsString {

  /** `\s` of a JavaScript regular expression (which already contains U+00A0). */
  predicate IsWhitespace(c: char) {
    c == ' ' || c == '\t' || c == '\n' || c == '\U{B}' || c == '\U{C}' || c == '\r'
    || c == '\U{A0}' || c == '\U{1680}' || ('\U{2000}' <= c <= '\U{200A}')
    || c == '\U{2028}' || c == '\U{2029}' || c == '\U{202F}' || c == '\U{205F}'
    || c == '\U{3000}' || c == '\U{FEFF}'
  }

  /** `goog.string.isEmptySafe`: the string is empty or only whitespace. */
  predicate IsEmptySafe(s: string) {
    forall i :: 0 <= i < |s| ==> IsWhitespace(s[i])
  }

  /** Membership in `[A-Za-z0-9_]`; `\W` is its complement. */
  predicate IsWordChar(c: char) {
    ('a' <= c <= 'z') || ('A' <= c <= 'Z') || ('0' <= c <= '9') || c == '_'
  }

  function LowerChar(c: char): (r: char)
    ensures 'A' <= c <= 'Z' ==> 'a' <= r <= 'z' && r as int == c as int + 32
    ensures !('A' <= c <= 'Z') ==> r == c
  {
    if 'A' <= c <= 'Z' then (c as int + 32) as char else c
  }

  /** `toLowerCase`, letter by letter. */
  function ToLower(s: string): (r: string)
    ensures |r| == |s|
    ensures forall i :: 0 <= i < |s| ==> r[i] == LowerChar(s[i])
  {
    seq(|s|, i requires 0 <= i < |s| => LowerChar(s[i]))
  }

  /** `pat` occurs in `txt` starting at position `p`. */
  predicate OccursAt(txt: string, pat: string, p: int) {
    0 <= p && p + |pat| <= |txt| && txt[p..p + |pat|] == pat
  }

  /** `txt.indexOf(pat)` restricted to positions at or after `from`:
      the first such occurrence, or -1 when there is none. */
  function IndexOfFrom(txt: string, pat: string, from: nat): (r: int)
    ensures r == -1 || (from <= r && OccursAt(txt, pat, r))
    ensures r == -1 ==> forall p :: from <= p ==> !OccursAt(txt, pat, p)
    ensures r != -1 ==> forall p :: from <= p < r ==> !OccursAt(txt, pat, p)
    decreases |txt| - from
  {
    if from + |pat| > |txt| then -1
    else if txt[from..from + |pat|] == pat then from
    else IndexOfFrom(txt, pat, from + 1)
  }

  /** `txt.indexOf(pat)`: the first position at which `pat` occurs, -1 if none. */
  function IndexOf(txt: string, pat: string): (r: int)
    ensures r == -1 <==> forall p :: !OccursAt(txt, pat, p)
    ensures r != -1 ==> OccursAt(txt, pat, r) && forall p :: 0 <= p < r ==> !OccursAt(txt, pat, p)
  {
    IndexOfFrom(txt, pat, 0)
  }

  /** For a one-character pattern, `indexOf` finds the first position holding that character. */
  lemma IndexOfChar(txt: string, c: char)
    ensures IndexOf(txt, [c]) == -1 <==> c !in txt
    ensures IndexOf(txt, [c]) != -1 ==>
      0 <= IndexOf(txt, [c]) < |txt| && txt[IndexOf(txt, [c])] == c
      && forall p :: 0 <= p < IndexOf(txt, [c]) ==> txt[p] != c
  {
    var r := IndexOf(txt, [c]);
    if c in txt {
      var k :| 0 <= k < |txt| && txt[k] == c;
      assert txt[k..k + 1] == [c];
      assert OccursAt(txt, [c], k);
    }
    if r != -1 {
      assert txt[r..r + 1] == [c];
      assert txt[r] == c;
      forall p | 0 <= p < r ensures txt[p] != c {
        assert !OccursAt(txt, [c], p);
        assert txt[p..p + 1] == [txt[p]];
      }
    }
  }
}
