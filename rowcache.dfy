/** What `addRowsToCache_` does to the list of cached rows, as functions on
    values, and the deduplication properties of that list. */
module RowCache {
  import opened Candidates

  /** One row offered to the cache: appended when no cached row has its
      string form yet, otherwise dropped. */
  function AddOne(rows: seq<Candidate>, c: Candidate): seq<Candidate> {
    if Key(c) in Keys(rows) then rows else rows + [c]
  }

  /** The rows offered to the cache, one after the other, in their order. */
  function AddAll(rows: seq<Candidate>, incoming: seq<Candidate>): seq<Candidate>
    decreases |incoming|
  {
    if incoming == [] then rows
    else AddOne(AddAll(rows, incoming[..|incoming| - 1]), incoming[|incoming| - 1])
  }

  /** The cache after offering `incoming` while the local cache is on or off. */
  function AddRows(rows: seq<Candidate>, incoming: seq<Candidate>, disabled: bool): (r: seq<Candidate>)
    ensures disabled ==> r == rows
  {
    if disabled then rows else AddAll(rows, incoming)
  }

  /** The cache invariant: the key map lists exactly the keys of the cached
      rows, each mapped to true, and no two cached rows share a string form. */
  predicate CacheInv(rows: seq<Candidate>, rowStrings: map<string, bool>) {
    NoDupKeys(rows)
    && rowStrings.Keys == Keys(rows)
    && (forall k :: k in rowStrings ==> rowStrings[k])
  }

  /** The key map answers "is this row cached?", and adding a row together
      with its key keeps the invariant. */
  lemma AddOneInv(rows: seq<Candidate>, rowStrings: map<string, bool>, c: Candidate)
    requires CacheInv(rows, rowStrings)
    ensures (Key(c) in rowStrings && rowStrings[Key(c)]) <==> Key(c) in Keys(rows)
    ensures Key(c) !in Keys(rows) ==> CacheInv(AddOne(rows, c), rowStrings[Key(c) := true])
  {
    AddOneKeys(rows, c);
    AddOneNoDup(rows, c);
  }

  lemma AddOneKeys(rows: seq<Candidate>, c: Candidate)
    ensures Keys(AddOne(rows, c)) == Keys(rows) + {Key(c)}
  {
    if Key(c) !in Keys(rows) {
      assert (rows + [c])[..|rows|] == rows;
    }
  }

  lemma AddOneNoDup(rows: seq<Candidate>, c: Candidate)
    requires NoDupKeys(rows)
    ensures NoDupKeys(AddOne(rows, c))
  {
    if Key(c) !in Keys(rows) {
      var r := rows + [c];
      forall i, j | 0 <= i < j < |r| ensures Key(r[i]) != Key(r[j]) {
        if j == |rows| {
          assert r[i] in rows;
        }
      }
    }
  }

  /** Existing rows keep their places: the old cache is a prefix of the new one. */
  lemma {:induction false} AddAllExtends(rows: seq<Candidate>, incoming: seq<Candidate>)
    ensures |rows| <= |AddAll(rows, incoming)|
    ensures AddAll(rows, incoming)[..|rows|] == rows
  {
    if incoming != [] {
      var pre := AddAll(rows, incoming[..|incoming| - 1]);
      AddAllExtends(rows, incoming[..|incoming| - 1]);
      assert (pre + [incoming[|incoming| - 1]])[..|pre|] == pre;
    }
  }

  /** Deduplication: a cache with no repeated string form keeps that property. */
  lemma {:induction false} AddAllNoDup(rows: seq<Candidate>, incoming: seq<Candidate>)
    requires NoDupKeys(rows)
    ensures NoDupKeys(AddAll(rows, incoming))
  {
    if incoming != [] {
      AddAllNoDup(rows, incoming[..|incoming| - 1]);
      AddOneNoDup(AddAll(rows, incoming[..|incoming| - 1]), incoming[|incoming| - 1]);
    }
  }

  /** Completeness: afterwards the cache holds the string form of every old
      row and of every offered row, and no other. */
  lemma {:induction false} AddAllKeys(rows: seq<Candidate>, incoming: seq<Candidate>)
    ensures Keys(AddAll(rows, incoming)) == Keys(rows) + Keys(incoming)
  {
    if incoming != [] {
      var init := incoming[..|incoming| - 1];
      AddAllKeys(rows, init);
      AddOneKeys(AddAll(rows, init), incoming[|incoming| - 1]);
    }
  }

  /** Every appended row is one of the offered rows, and its string form was
      not cached before. */
  lemma {:induction false} AddAllOrigin(rows: seq<Candidate>, incoming: seq<Candidate>)
    ensures |rows| <= |AddAll(rows, incoming)|
    ensures forall i :: |rows| <= i < |AddAll(rows, incoming)| ==>
      AddAll(rows, incoming)[i] in incoming && Key(AddAll(rows, incoming)[i]) !in Keys(rows)
  {
    AddAllExtends(rows, incoming);
    if incoming != [] {
      var init := incoming[..|incoming| - 1];
      var c := incoming[|incoming| - 1];
      var pre := AddAll(rows, init);
      AddAllOrigin(rows, init);
      AddAllKeys(rows, init);
      forall i | |rows| <= i < |AddAll(rows, incoming)|
        ensures AddAll(rows, incoming)[i] in incoming && Key(AddAll(rows, incoming)[i]) !in Keys(rows)
      {
        if i < |pre| {
          assert AddAll(rows, incoming)[i] == pre[i];
          assert pre[i] in init;
        } else {
          assert AddAll(rows, incoming)[i] == c;
          assert Key(c) !in Keys(pre);
        }
      }
    }
  }

  /** The cache grows by exactly the number of string forms it did not hold. */
  lemma AddAllSize(rows: seq<Candidate>, incoming: seq<Candidate>)
    requires NoDupKeys(rows)
    ensures |AddAll(rows, incoming)| == |rows| + |Keys(incoming) - Keys(rows)|
  {
    var r := AddAll(rows, incoming);
    AddAllNoDup(rows, incoming);
    AddAllKeys(rows, incoming);
    KeysCardinality(rows);
    KeysCardinality(r);
    assert Keys(rows) + Keys(incoming) == Keys(rows) + (Keys(incoming) - Keys(rows));
  }

  /** Offering rows whose string forms are all cached changes nothing. */
  lemma {:induction false} AddAllKnown(rows: seq<Candidate>, incoming: seq<Candidate>)
    requires Keys(incoming) <= Keys(rows)
    ensures AddAll(rows, incoming) == rows
  {
    if incoming != [] {
      var init := incoming[..|incoming| - 1];
      assert Keys(init) <= Keys(incoming);
      AddAllKnown(rows, init);
    }
  }

  /** Offering the same rows twice is the same as offering them once. */
  lemma AddAllIdempotent(rows: seq<Candidate>, incoming: seq<Candidate>)
    ensures AddAll(AddAll(rows, incoming), incoming) == AddAll(rows, incoming)
  {
    AddAllKeys(rows, incoming);
    AddAllKnown(AddAll(rows, incoming), incoming);
  }
}
