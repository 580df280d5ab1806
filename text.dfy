/**
  The functions of Go's `strings` and `bytes` packages that the core uses,
  on strings modelled as sequences of characters.
 */
module Text {
  import opened Wrappers

  predicate HasPrefix(s: string, prefix: string) {
    |prefix| <= |s| && s[..|prefix|] == prefix
  }

  /** strings.TrimPrefix: drops `prefix` when `s` starts with it. */
  function TrimPrefix(s: string, prefix: string): (r: string)
    ensures HasPrefix(s, prefix) ==> prefix + r == s
    ensures !HasPrefix(s, prefix) ==> r == s
  {
    if HasPrefix(s, prefix) then s[|prefix|..] else s
  }

  /** `pat` occurs in `s` starting at index `i`. */
  predicate OccursAt(s: string, i: nat, pat: string) {
    i + |pat| <= |s| && s[i..i + |pat|] == pat
  }

  /** `pat` occurs somewhere in `s`. */
  predicate Occurs(s: string, pat: string) {
    exists i: nat | i <= |s| :: OccursAt(s, i, pat)
  }

  /**
    strings.SplitN(s, sep, 2) with a one-character separator: `Some((before, after))`
    when there are two parts, `None` when `sep` does not occur.
   */
  function Cut(s: string, sep: char): (r: Option<(string, string)>)
    ensures r.None? <==> sep !in s
    ensures r.Some? ==> sep !in r.value.0 && r.value.0 + [sep] + r.value.1 == s
  {
    if s == [] then None
    else if s[0] == sep then Some(([], s[1..]))
    else match Cut(s[1..], sep)
      case None => None
      case Some((before, after)) => Some(([s[0]] + before, after))
  }

  /** The split at the first separator is the only one whose first part is free of it. */
  lemma {:induction false} CutUnique(s: string, sep: char, before: string, after: string)
    requires sep !in before && s == before + [sep] + after
    ensures Cut(s, sep) == Some((before, after))
  {
    if before != [] {
      assert s[0] == before[0] != sep;
      assert s[1..] == before[1..] + [sep] + after;
      CutUnique(s[1..], sep, before[1..], after);
      assert [s[0]] + before[1..] == before;
    } else {
      assert s[1..] == after;
    }
  }

  /**
    `order` is an order in which Go's `range` may visit a map with key set `keys`:
    every key exactly once.
   */
  predicate IsIterationOrder(order: seq<string>, keys: set<string>) {
    && (forall i :: 0 <= i < |order| ==> order[i] in keys)
    && (forall k :: k in keys ==> k in order)
    && (forall i, j :: 0 <= i < j < |order| ==> order[i] != order[j])
  }

  /** A `range` over a map with key set `keys`: some order, every key once. */
  method Enumerate(keys: set<string>) returns (order: seq<string>)
    ensures IsIterationOrder(order, keys)
  {
    order := [];
    var rest := keys;
    while rest != {}
      invariant rest <= keys
      invariant forall i :: 0 <= i < |order| ==> order[i] in keys && order[i] !in rest
      invariant forall k :: k in keys ==> k in rest || k in order
      invariant forall i, j :: 0 <= i < j < |order| ==> order[i] != order[j]
      decreases rest
    {
      var k :| k in rest;
      order := order + [k];
      rest := rest - {k};
    }
  }

  /** An iteration order has one entry per key. */
  lemma {:induction false} IterationOrderLength(order: seq<string>, keys: set<string>)
    requires IsIterationOrder(order, keys)
    ensures |order| == |keys|
  {
    if order != [] {
      var rest := keys - {order[0]};
      assert IsIterationOrder(order[1..], rest) by {
        forall k | k in rest ensures k in order[1..] {
          var i :| 0 <= i < |order| && order[i] == k;
          assert i != 0;
          assert order[1..][i - 1] == k;
        }
      }
      IterationOrderLength(order[1..], rest);
    }
  }

  /** strings.Join */
  function Join(parts: seq<string>, sep: string): string {
    if |parts| == 0 then []
    else if |parts| == 1 then parts[0]
    else parts[0] + sep + Join(parts[1..], sep)
  }

  /** strings.Split with a one-character separator: every piece is free of it and joining gives `s` back. */
  function Split(s: string, sep: char): (r: seq<string>)
    ensures |r| >= 1
    ensures forall i :: 0 <= i < |r| ==> sep !in r[i]
    ensures Join(r, [sep]) == s
    decreases |s|
  {
    match Cut(s, sep)
    case None => [s]
    case Some((before, after)) =>
      var rest := Split(after, sep);
      assert Join([before] + rest, [sep]) == before + [sep] + Join(rest, [sep]) by {
        assert ([before] + rest)[1..] == rest;
      }
      [before] + rest
  }

  /** Splitting the join of separator-free pieces gives the pieces back. */
  lemma {:induction false} SplitJoin(parts: seq<string>, sep: char)
    requires |parts| >= 1
    requires forall i :: 0 <= i < |parts| ==> sep !in parts[i]
    ensures Split(Join(parts, [sep]), sep) == parts
  {
    if |parts| == 1 {
    } else {
      var rest := Join(parts[1..], [sep]);
      CutUnique(Join(parts, [sep]), sep, parts[0], rest);
      SplitJoin(parts[1..], sep);
      assert parts == [parts[0]] + parts[1..];
    }
  }

  /** The white-space characters of Go's unicode.IsSpace. */
  predicate IsSpace(c: char) {
    c == ' ' || c == '\t' || c == '\n' || c == '\r' || c == '\U{000B}' || c == '\U{000C}'
    || c == '\U{0085}' || c == '\U{00A0}' || c == '\U{1680}' || ('\U{2000}' <= c <= '\U{200A}')
    || c == '\U{2028}' || c == '\U{2029}' || c == '\U{202F}' || c == '\U{205F}' || c == '\U{3000}'
  }

  function TrimLeftSpace(s: string): string {
    if s != [] && IsSpace(s[0]) then TrimLeftSpace(s[1..]) else s
  }

  function TrimRightSpace(s: string): string {
    if s != [] && IsSpace(s[|s| - 1]) then TrimRightSpace(s[..|s| - 1]) else s
  }

  /** What `TrimLeftSpace` removes is a run of white space, and what it keeps does not start with any. */
  lemma {:induction false} TrimLeftSpaceShape(s: string)
    ensures var r := TrimLeftSpace(s);
      && |r| <= |s| && r == s[|s| - |r|..]
      && (forall i :: 0 <= i < |s| - |r| ==> IsSpace(s[i]))
      && (r == [] || !IsSpace(r[0]))
  {
    if s != [] && IsSpace(s[0]) {
      TrimLeftSpaceShape(s[1..]);
      var r := TrimLeftSpace(s);
      assert s[1..][|s| - 1 - |r|..] == s[|s| - |r|..];
      forall i | 1 <= i < |s| - |r| ensures IsSpace(s[i]) {
        assert s[1..][i - 1] == s[i];
      }
    }
  }

  /** What `TrimRightSpace` removes is a run of white space, and what it keeps does not end with any. */
  lemma {:induction false} TrimRightSpaceShape(s: string)
    ensures var r := TrimRightSpace(s);
      && |r| <= |s| && r == s[..|r|]
      && (forall i :: |r| <= i < |s| ==> IsSpace(s[i]))
      && (r == [] || !IsSpace(r[|r| - 1]))
  {
    if s != [] && IsSpace(s[|s| - 1]) {
      var init := s[..|s| - 1];
      TrimRightSpaceShape(init);
      var r := TrimRightSpace(s);
      assert init[..|r|] == s[..|r|];
      forall i | |r| <= i < |s| - 1 ensures IsSpace(s[i]) {
        assert init[i] == s[i];
      }
    }
  }

  /** strings.TrimSpace: white space removed from both ends. */
  function TrimSpace(s: string): string {
    TrimRightSpace(TrimLeftSpace(s))
  }

  /** `s` is the trimmed string wrapped in white space, and the trimmed string neither starts nor ends with any. */
  lemma TrimSpaceShape(s: string)
    ensures var r := TrimSpace(s);
      && (exists i: nat ::
            OccursAt(s, i, r)
            && (forall k :: 0 <= k < i ==> IsSpace(s[k]))
            && (forall k :: i + |r| <= k < |s| ==> IsSpace(s[k])))
      && (r == [] || (!IsSpace(r[0]) && !IsSpace(r[|r| - 1])))
  {
    var left := TrimLeftSpace(s);
    var r := TrimRightSpace(left);
    var i := |s| - |left|;
    TrimLeftSpaceShape(s);
    TrimRightSpaceShape(left);
    assert OccursAt(s, i, r) by {
      assert s[i..i + |r|] == left[..|r|];
    }
    forall k | i + |r| <= k < |s| ensures IsSpace(s[k]) {
      assert s[k] == left[k - i];
    }
    assert forall k :: 0 <= k < i ==> IsSpace(s[k]);
    if r != [] {
      assert r[0] == left[0];
    }
    assert r == TrimSpace(s);
  }

  /** strings.ToUpper for ASCII letters. */
  function ToUpperChar(c: char): char {
    if 'a' <= c <= 'z' then (c as int - 32) as char else c
  }

  function ToUpper(s: string): (r: string)
    ensures |r| == |s| && forall i :: 0 <= i < |s| ==> r[i] == ToUpperChar(s[i])
  {
    seq(|s|, i requires 0 <= i < |s| => ToUpperChar(s[i]))
  }

  /** Go's replacement for an empty `pat`: `rep` at the start and after every character. */
  function Interleave(s: string, rep: string): (r: string)
    ensures |r| == |s| + (|s| + 1) * |rep|
  {
    if s == [] then rep else rep + [s[0]] + Interleave(s[1..], rep)
  }

  /**
    strings.Replace(s, pat, rep, -1) and bytes.Replace(s, pat, rep, -1): scanning left
    to right, every occurrence of `pat` not overlapping an earlier one becomes `rep`.
   */
  function ReplaceAll(s: string, pat: string, rep: string): string
    decreases |s|
  {
    if pat == [] then Interleave(s, rep)
    else if s == [] then []
    else if HasPrefix(s, pat) then rep + ReplaceAll(s[|pat|..], pat, rep)
    else [s[0]] + ReplaceAll(s[1..], pat, rep)
  }

  /** An occurrence in the tail of `s` is an occurrence in `s`. */
  lemma OccursInTail(s: string, pat: string)
    requires s != [] && Occurs(s[1..], pat)
    ensures Occurs(s, pat)
  {
    var i: nat :| i <= |s| - 1 && OccursAt(s[1..], i, pat);
    assert s[i + 1..i + 1 + |pat|] == s[1..][i..i + |pat|];
    assert OccursAt(s, i + 1, pat);
  }

  /** Text in which `pat` does not occur comes back unchanged. */
  lemma {:induction false} ReplaceAllAbsent(s: string, pat: string, rep: string)
    requires pat != [] && !Occurs(s, pat)
    ensures ReplaceAll(s, pat, rep) == s
  {
    if s != [] {
      assert !HasPrefix(s, pat) by {
        if HasPrefix(s, pat) { assert OccursAt(s, 0, pat); }
      }
      if Occurs(s[1..], pat) { OccursInTail(s, pat); }
      ReplaceAllAbsent(s[1..], pat, rep);
    }
  }

  /** One step of the scan when `s` does not start with `pat`. */
  lemma ReplaceAllSkip(s: string, pat: string, rep: string)
    requires pat != [] && s != [] && !OccursAt(s, 0, pat)
    ensures ReplaceAll(s, pat, rep) == [s[0]] + ReplaceAll(s[1..], pat, rep)
  {
  }

  /** Moving one character to the right preserves which occurrences exist. */
  lemma OccursAtTail(s: string, i: nat, pat: string)
    requires s != []
    ensures OccursAt(s[1..], i, pat) <==> OccursAt(s, i + 1, pat)
  {
    if i + 1 + |pat| <= |s| {
      assert s[i + 1..i + 1 + |pat|] == s[1..][i..i + |pat|];
    }
  }

  /**
    The first occurrence of `pat` is replaced by `rep` and the scan resumes right after it:
    no occurrence of `pat` starts inside `p`.
   */
  lemma ReplaceAllFirst(p: string, pat: string, q: string, rep: string)
    requires pat != []
    requires forall i: nat :: i < |p| ==> !OccursAt(p + pat + q, i, pat)
    ensures ReplaceAll(p + pat + q, pat, rep) == p + rep + ReplaceAll(q, pat, rep)
  {
    var s := p + pat + q;
    assert OccursAt(s, |p|, pat) by { assert s[|p|..|p| + |pat|] == pat; }
    ReplaceAllAt(s, |p|, pat, rep);
    assert s[..|p|] == p && s[|p| + |pat|..] == q;
  }

  /** ReplaceAll replaces the occurrence of `pat` at `n` and resumes the scan right after it. */
  predicate ReplacedAt(s: string, n: nat, pat: string, rep: string) {
    n + |pat| <= |s| && ReplaceAll(s, pat, rep) == s[..n] + rep + ReplaceAll(s[n + |pat|..], pat, rep)
  }

  /** ReplaceAllFirst for the first occurrence of `pat` in `s`, found at `n`. */
  lemma {:induction false} ReplaceAllAt(s: string, n: nat, pat: string, rep: string)
    requires pat != [] && OccursAt(s, n, pat)
    requires forall i: nat :: i < n ==> !OccursAt(s, i, pat)
    ensures ReplacedAt(s, n, pat, rep)
    decreases n
  {
    if n == 0 {
      ReplaceAllAtStart(s, pat, rep);
    } else {
      assert !OccursAt(s, 0, pat);
      var t := s[1..];
      NoneBeforeTail(s, n, pat);
      ReplaceAllAt(t, n - 1, pat, rep);
      ReplaceAllAtStep(s, t, n, pat, rep);
    }
  }

  lemma ReplaceAllAtStart(s: string, pat: string, rep: string)
    requires pat != [] && OccursAt(s, 0, pat)
    ensures ReplacedAt(s, 0, pat, rep)
  {
    assert HasPrefix(s, pat);
    assert s[..0] + rep == rep;
  }

  /** Occurrences shift left by one in the tail of `s`. */
  lemma NoneBeforeTail(s: string, n: nat, pat: string)
    requires 0 < n && OccursAt(s, n, pat)
    requires forall i: nat :: i < n ==> !OccursAt(s, i, pat)
    ensures OccursAt(s[1..], n - 1, pat)
    ensures forall i: nat :: i < n - 1 ==> !OccursAt(s[1..], i, pat)
  {
    forall i: nat | i < n - 1 ensures !OccursAt(s[1..], i, pat) {
      OccursAtTail(s, i, pat);
    }
    OccursAtTail(s, n - 1, pat);
  }

  /** The first character of `s`, which starts no occurrence, is copied ahead of the tail's result. */
  lemma ReplaceAllAtStep(s: string, t: string, n: nat, pat: string, rep: string)
    requires pat != [] && 0 < n && n + |pat| <= |s| && !OccursAt(s, 0, pat) && t == s[1..]
    requires ReplacedAt(t, n - 1, pat, rep)
    ensures ReplacedAt(s, n, pat, rep)
  {
    var rest := ReplaceAll(s[n + |pat|..], pat, rep);
    ReplaceAllSkip(s, pat, rep);
    assert t[n - 1 + |pat|..] == s[n + |pat|..];
    assert s[..n] == [s[0]] + t[..n - 1];
    AppendAssoc([s[0]], t[..n - 1] + rep, rest);
    AppendAssoc([s[0]], t[..n - 1], rep);
  }

  /**
    Every occurrence of `c` in `s` lies inside an occurrence of `pat` that the left-to-right
    scan of ReplaceAll consumes.
   */
  predicate OnlyInside(s: string, pat: string, c: char)
    requires pat != []
    decreases |s|
  {
    if s == [] then true
    else if HasPrefix(s, pat) then OnlyInside(s[|pat|..], pat, c)
    else s[0] != c && OnlyInside(s[1..], pat, c)
  }

  /** Text free of `c` satisfies OnlyInside for every `pat`. */
  lemma {:induction false} OnlyInsideOfAbsent(s: string, pat: string, c: char)
    requires pat != [] && c !in s
    ensures OnlyInside(s, pat, c)
  {
    if s != [] {
      if HasPrefix(s, pat) {
        OnlyInsideOfAbsent(s[|pat|..], pat, c);
      } else {
        OnlyInsideOfAbsent(s[1..], pat, c);
      }
    }
  }

  /**
    Replacing `pat` by `rep` and then `rep` by `pat` restores the text, provided the first
    character of `rep` appears in `s` only inside the occurrences of `pat` that get replaced.
   */
  lemma {:induction false} ReplaceAllRoundTrip(s: string, pat: string, rep: string)
    requires pat != [] && rep != []
    requires OnlyInside(s, pat, rep[0])
    ensures ReplaceAll(ReplaceAll(s, pat, rep), rep, pat) == s
  {
    if s == [] {
    } else if HasPrefix(s, pat) {
      var rest := s[|pat|..];
      ReplaceAllRoundTrip(rest, pat, rep);
      var t := rep + ReplaceAll(rest, pat, rep);
      assert HasPrefix(t, rep);
      assert t[|rep|..] == ReplaceAll(rest, pat, rep);
      assert s == pat + rest;
    } else {
      ReplaceAllRoundTrip(s[1..], pat, rep);
      var t := [s[0]] + ReplaceAll(s[1..], pat, rep);
      assert !HasPrefix(t, rep) by { assert t[0] == s[0] != rep[0]; }
      assert t[1..] == ReplaceAll(s[1..], pat, rep);
    }
  }
}
