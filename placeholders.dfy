/**
  cmd/go-starter-replace/main.go, the pure half: the variables read from the
  environment and the placeholder substitution applied to names and contents.
 */
module Placeholders {
  import opened Text
  import Vars

  /** Environment entries carrying a variable start with this prefix. */
  const EnvPrefix := "STARTER_"

  /** The text that stands for variable `key` in a template. */
  function Marker(prefix: string, suffix: string, key: string): string {
    prefix + key + suffix
  }

  /**
    The text after every variable's marker has been replaced by its value, the variables
    taken in `order` (the order in which Go's `range` visited the map).
   */
  function Substitute(s: string, prefix: string, suffix: string, params: map<string, string>, order: seq<string>): string
    requires forall i :: 0 <= i < |order| ==> order[i] in params
    decreases |order|
  {
    if order == [] then s
    else Substitute(ReplaceAll(s, Marker(prefix, suffix, order[0]), params[order[0]]), prefix, suffix, params, order[1..])
  }

  /** `rename`: the loop over the variables that rewrites a name. */
  method Rename(filename: string, prefix: string, suffix: string, params: map<string, string>, order: seq<string>)
    returns (r: string)
    requires IsIterationOrder(order, params.Keys)
    ensures r == Substitute(filename, prefix, suffix, params, order)
  {
    r := filename;
    for i := 0 to |order|
      invariant Substitute(r, prefix, suffix, params, order[i..]) == Substitute(filename, prefix, suffix, params, order)
    {
      assert order[i..][1..] == order[i + 1..];
      r := ReplaceAll(r, Marker(prefix, suffix, order[i]), params[order[i]]);
    }
  }

  /** Text in which no variable's marker occurs is left unchanged, whatever the order. */
  lemma {:induction false} SubstituteWithoutMarkers(s: string, prefix: string, suffix: string, params: map<string, string>, order: seq<string>)
    requires forall i :: 0 <= i < |order| ==> order[i] in params
    requires forall k :: k in params ==> Marker(prefix, suffix, k) != [] && !Occurs(s, Marker(prefix, suffix, k))
    ensures Substitute(s, prefix, suffix, params, order) == s
  {
    if order != [] {
      ReplaceAllAbsent(s, Marker(prefix, suffix, order[0]), params[order[0]]);
      SubstituteWithoutMarkers(s, prefix, suffix, params, order[1..]);
    }
  }

  /**
    Substituting one variable and then substituting with the swapped dictionary (the value
    as the marker, empty prefix and suffix, the marker as the value) restores the text,
    when the value's first character appears in the text only inside the markers.
   */
  lemma SubstituteRoundTrip(s: string, prefix: string, suffix: string, key: string, value: string)
    requires Marker(prefix, suffix, key) != [] && value != []
    requires OnlyInside(s, Marker(prefix, suffix, key), value[0])
    ensures var forward := Substitute(s, prefix, suffix, map[key := value], [key]);
            Substitute(forward, "", "", map[value := Marker(prefix, suffix, key)], [value]) == s
  {
    var marker := Marker(prefix, suffix, key);
    var forward := ReplaceAll(s, marker, value);
    assert Substitute(s, prefix, suffix, map[key := value], [key]) == forward;
    assert Marker("", "", value) == value;
    assert Substitute(forward, "", "", map[value := marker], [value]) == ReplaceAll(forward, value, marker);
    ReplaceAllRoundTrip(s, marker, value);
  }

  /**
    A text holding one marker, as the tool's own test files do (`foo <PLACEHOLDER> bar`):
    the marker becomes the value and the text around it is kept.
   */
  lemma SubstituteSingleMarker(p: string, q: string, prefix: string, suffix: string, key: string, value: string)
    requires Marker(prefix, suffix, key) != [] && Marker(prefix, suffix, key)[0] !in p
    requires !Occurs(q, Marker(prefix, suffix, key))
    ensures Substitute(p + Marker(prefix, suffix, key) + q, prefix, suffix, map[key := value], [key]) == p + value + q
  {
    var marker := Marker(prefix, suffix, key);
    forall i: nat | i < |p| ensures !OccursAt(p + marker + q, i, marker) {
      assert (p + marker + q)[i] == p[i];
    }
    ReplaceAllFirst(p, marker, q, value);
    ReplaceAllAbsent(q, marker, value);
  }

  predicate IsStarterEntry(pair: string) {
    HasPrefix(pair, EnvPrefix)
  }

  /** The variable an environment entry defines: its name less the prefix, and its value. */
  function EntryVariable(pair: string): (string, string) {
    var (name, value) := Vars.ParseAssignment(pair);
    (TrimPrefix(name, EnvPrefix), value)
  }

  /** The map `variables` builds: later entries for the same variable win. */
  function EnvVariables(environ: seq<string>): map<string, string> {
    if environ == [] then map[]
    else
      var vars := EnvVariables(environ[..|environ| - 1]);
      var last := environ[|environ| - 1];
      if IsStarterEntry(last) then vars[EntryVariable(last).0 := EntryVariable(last).1] else vars
  }

  /** `variables`: the loop over the process environment. */
  method Variables(environ: seq<string>) returns (vars: map<string, string>)
    ensures vars == EnvVariables(environ)
  {
    vars := map[];
    for i := 0 to |environ|
      invariant vars == EnvVariables(environ[..i])
    {
      assert environ[..i + 1][..i] == environ[..i];
      var pair := environ[i];
      if !HasPrefix(pair, EnvPrefix) {
        continue;
      }
      var (key, value) := EntryVariable(pair);
      vars := vars[key := value];
    }
    assert environ[..|environ|] == environ;
  }

  /** Some prefixed entry among the first `n` of `environ` defines `key`. */
  predicate DefinedBefore(environ: seq<string>, n: nat, key: string)
    requires n <= |environ|
  {
    exists i :: 0 <= i < n && IsStarterEntry(environ[i]) && EntryVariable(environ[i]).0 == key
  }

  /** A variable is defined exactly when some prefixed entry names it. */
  lemma {:induction false} EnvVariablesKeys(environ: seq<string>, key: string)
    ensures key in EnvVariables(environ) <==> DefinedBefore(environ, |environ|, key)
  {
    if environ != [] {
      var n := |environ| - 1;
      var init := environ[..n];
      EnvVariablesKeys(init, key);
      assert DefinedBefore(init, n, key) <==> DefinedBefore(environ, n, key) by {
        assert forall i :: 0 <= i < n ==> environ[i] == init[i];
      }
    }
  }

  /** A variable's value is the one its last prefixed entry gives. */
  lemma {:induction false} EnvVariablesLastWins(environ: seq<string>, i: nat)
    requires i < |environ| && IsStarterEntry(environ[i])
    requires forall j :: i < j < |environ| && IsStarterEntry(environ[j]) ==> EntryVariable(environ[j]).0 != EntryVariable(environ[i]).0
    ensures EntryVariable(environ[i]).0 in EnvVariables(environ)
    ensures EnvVariables(environ)[EntryVariable(environ[i]).0] == EntryVariable(environ[i]).1
  {
    var n := |environ| - 1;
    if i < n {
      var init := environ[..n];
      assert init[i] == environ[i];
      EnvVariablesLastWins(init, i);
    }
  }

  /** `STARTER_NAME=value` defines NAME as `value`; a bare `STARTER_NAME` defines it as "1". */
  lemma EntryVariableOf(name: string, value: string)
    requires '=' !in name
    ensures EntryVariable(EnvPrefix + name + "=" + value) == (name, value)
    ensures EntryVariable(EnvPrefix + name) == (name, "1")
  {
    assert EnvPrefix + name + "=" + value == (EnvPrefix + name) + "=" + value;
    Vars.ParseAssignmentFirstEquals(EnvPrefix + name, value);
    assert (EnvPrefix + name)[..|EnvPrefix|] == EnvPrefix;
  }
}
