/** An optional value: a handler that may be absent, an optional argument. */
module Optional {
  datatype Option<T> = None | Some(value: T)
}

/** The values the matcher caches and returns, and the string form by which
    it compares them. */
module Candidates {

  /** A cached row: a remote object wrapping a string, or a remote object
      that shows a caption and carries data of its own. */
  datatype Candidate = Text(value: string) | Captioned(caption: string, data: string)

  /** The row's string form (`row.toString()`): the string itself, or the caption. */
  function DisplayString(c: Candidate): string {
    match c
    case Text(s) => s
    case Captioned(caption, _) => caption
  }

  /** The key under which a row is remembered: its string form behind a
      space, so that no key can be a builtin property name. */
  function Key(c: Candidate): (k: string)
    ensures |k| == |DisplayString(c)| + 1 && k[0] == ' ' && k[1..] == DisplayString(c)
  {
    " " + DisplayString(c)
  }

  /** Two rows share a key exactly when they share a string form. */
  lemma KeyInjective(a: Candidate, b: Candidate)
    ensures Key(a) == Key(b) <==> DisplayString(a) == DisplayString(b)
  {
    if Key(a) == Key(b) {
      assert DisplayString(a) == Key(a)[1..];
    }
  }

  /** The keys of a list of rows. */
  function Keys(rows: seq<Candidate>): (ks: set<string>)
    ensures forall r :: r in rows ==> Key(r) in ks
  {
    if rows == [] then {} else Keys(rows[..|rows| - 1]) + {Key(rows[|rows| - 1])}
  }

  /** A string that is the key of no row is not among the keys. */
  lemma {:induction false} KeysExclude(rows: seq<Candidate>, k: string)
    requires forall i :: 0 <= i < |rows| ==> Key(rows[i]) != k
    ensures k !in Keys(rows)
  {
    if rows != [] {
      var init := rows[..|rows| - 1];
      assert forall i :: 0 <= i < |init| ==> init[i] == rows[i];
      KeysExclude(init, k);
    }
  }

  /** No two rows of the list have the same string form. */
  predicate NoDupKeys(rows: seq<Candidate>) {
    forall i, j :: 0 <= i < j < |rows| ==> Key(rows[i]) != Key(rows[j])
  }

  lemma {:induction false} KeysAppend(a: seq<Candidate>, b: seq<Candidate>)
    ensures Keys(a + b) == Keys(a) + Keys(b)
  {
    if b != [] {
      var bi := b[..|b| - 1];
      assert (a + b)[..|a + b| - 1] == a + bi;
      KeysAppend(a, bi);
    } else {
      assert a + b == a;
    }
  }

  /** A list without repeated string forms has as many keys as rows: the
      cache and its key set always have the same size. */
  lemma {:induction false} KeysCardinality(rows: seq<Candidate>)
    requires NoDupKeys(rows)
    ensures |Keys(rows)| == |rows|
  {
    if rows != [] {
      var init, last := rows[..|rows| - 1], rows[|rows| - 1];
      assert NoDupKeys(init);
      KeysCardinality(init);
      forall i | 0 <= i < |init| ensures Key(init[i]) != Key(last) {
        assert init[i] == rows[i];
      }
      KeysExclude(init, Key(last));
      assert Key(last) !in Keys(init);
    }
  }
}
