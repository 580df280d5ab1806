/**
  pkg/maker/vars.go: `Vars`, the map filled by repeated `-var key=value` flags.
 */
module Vars {
  import opened Wrappers
  import opened Text

  /**
    The split that `Vars.Set` (and the environment scan of go-starter-replace) applies:
    the key is the text before the first `=`, the value the text after it, and a bare
    key stands for the value "1".
   */
  function ParseAssignment(value: string): (r: (string, string))
    ensures '=' in value ==> '=' !in r.0 && r.0 + "=" + r.1 == value
    ensures '=' !in value ==> r == (value, "1")
  {
    match Cut(value, '=')
    case Some((key, val)) => (key, val)
    case None => (value, "1")
  }

  /** The key/value pairs of the Go map behind a `Vars` value. */
  class VarMap {
    var entries: map<string, string>

    constructor ()
      ensures entries == map[]
    {
      entries := map[];
    }

    /**
      `Set` stores the parsed pair, overwriting an earlier value of the same key, leaves
      every other key alone and never fails (its error result is always nil).
     */
    method Set(value: string)
      modifies this
      ensures entries == old(entries)[ParseAssignment(value).0 := ParseAssignment(value).1]
      ensures old(entries) == map[] ==> |entries| == 1
    {
      var (key, val) := ParseAssignment(value);
      entries := entries[key := val];
      assert old(entries) == map[] ==> entries.Keys == {key};
    }
  }

  /**
    The split happens at the first `=` only: whatever follows it, further `=` included,
    is the value (`key=value=value` stores `value=value`, `key=` stores "").
   */
  lemma ParseAssignmentFirstEquals(key: string, val: string)
    requires '=' !in key
    ensures ParseAssignment(key + "=" + val) == (key, val)
  {
    CutUnique(key + "=" + val, '=', key, val);
  }
}
