/**
  The `SliceFlag` type that cmd/go-starter-drone/main.go and cmd/go-starter-github/main.go
  each declare, with identical code: a repeatable command-line flag holding a list of
  comma-separated values.
 */
module Flags {
  import opened Wrappers
  import opened Text

  /** A string that `strings.TrimSpace` leaves as it is. */
  predicate Trimmed(s: string) {
    s == [] || (!IsSpace(s[0]) && !IsSpace(s[|s| - 1]))
  }

  lemma TrimSpaceOfTrimmed(s: string)
    requires Trimmed(s)
    ensures TrimSpace(s) == s
  {
    assert TrimLeftSpace(s) == s;
    assert TrimRightSpace(s) == s;
  }

  /** Each string trimmed of white space, in order. */
  function TrimEach(parts: seq<string>): (r: seq<string>)
    ensures |r| == |parts|
  {
    if parts == [] then [] else TrimEach(parts[..|parts| - 1]) + [TrimSpace(parts[|parts| - 1])]
  }

  /** The i-th result is the i-th string, trimmed. */
  lemma {:induction false} TrimEachAt(parts: seq<string>, i: nat)
    requires i < |parts|
    ensures TrimEach(parts)[i] == TrimSpace(parts[i])
  {
    var n := |parts| - 1;
    if i < n {
      var init := parts[..n];
      assert TrimEach(parts) == TrimEach(init) + [TrimSpace(parts[n])];
      TrimEachAt(init, i);
      assert init[i] == parts[i];
    }
  }

  /** The pieces of one flag value: split at every comma, each trimmed of white space. */
  function Pieces(v: string): seq<string> {
    TrimEach(Split(v, ','))
  }

  /** Every piece is trimmed and free of commas. */
  lemma PiecesShape(v: string, i: nat)
    requires i < |Pieces(v)|
    ensures Trimmed(Pieces(v)[i]) && ',' !in Pieces(v)[i]
  {
    var part := Split(v, ',')[i];
    var r := Pieces(v)[i];
    TrimEachAt(Split(v, ','), i);
    TrimSpaceShape(part);
    var k: nat :| OccursAt(part, k, r);
  }

  class SliceFlag {
    var values: seq<string>

    constructor ()
      ensures values == []
    {
      values := [];
    }

    /** `Set`: the pieces of `v` appended in order; it never fails. */
    method Set(v: string) returns (err: Option<string>)
      modifies this
      ensures values == old(values) + Pieces(v)
      ensures err.None?
    {
      var parts := Split(v, ',');
      for i := 0 to |parts|
        invariant values == old(values) + TrimEach(parts[..i])
      {
        assert parts[..i + 1][..i] == parts[..i];
        var piece := TrimSpace(parts[i]);
        assert TrimEach(parts[..i + 1]) == TrimEach(parts[..i]) + [piece];
        values := values + [piece];
      }
      assert parts[..|parts|] == parts;
      err := None;
    }

    /** `String`: the values joined with commas. */
    method String() returns (s: string)
      ensures s == Join(values, ",")
    {
      s := Join(values, ",");
    }
  }

  /**
    Setting a flag from the printed form of trimmed, comma-free values gives those values
    back, so `String` and `Set` are inverse on such lists.
   */
  lemma {:induction false} SetOfString(values: seq<string>)
    requires |values| >= 1
    requires forall i :: 0 <= i < |values| ==> ',' !in values[i] && Trimmed(values[i])
    ensures Pieces(Join(values, ",")) == values
  {
    SplitJoin(values, ',');
    assert Split(Join(values, ","), ',') == values;
    forall i | 0 <= i < |values|
      ensures Pieces(Join(values, ","))[i] == values[i]
    {
      TrimEachAt(values, i);
      TrimSpaceOfTrimmed(values[i]);
    }
  }
}
