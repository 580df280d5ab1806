/**
  pkg/maker/runner.go: the environment a task runs with, the process environment followed
  by one `STARTER_` entry per variable. Starting the process is a parameter of the model.
 */
module Runner {
  import opened Wrappers
  import opened Text
  import Placeholders

  /** The entry that passes variable `key` to a task: upper-cased name, value as is. */
  function EnvEntry(key: string, value: string): string {
    Placeholders.EnvPrefix + ToUpper(key) + "=" + value
  }

  /** The entries for `vars`, in the order `range` visits them. */
  function Entries(vars: map<string, string>, order: seq<string>): (r: seq<string>)
    requires forall i :: 0 <= i < |order| ==> order[i] in vars
    ensures |r| == |order|
  {
    seq(|order|, i requires 0 <= i < |order| => EnvEntry(order[i], vars[order[i]]))
  }

  /** The loop that builds `cmd.Env`. */
  method ChildEnv(environ: seq<string>, vars: map<string, string>, order: seq<string>) returns (env: seq<string>)
    requires IsIterationOrder(order, vars.Keys)
    ensures env == environ + Entries(vars, order)
  {
    env := environ;
    for i := 0 to |order|
      invariant env == environ + Entries(vars, order[..i])
    {
      env := env + [EnvEntry(order[i], vars[order[i]])];
      assert Entries(vars, order[..i + 1]) == Entries(vars, order[..i]) + [EnvEntry(order[i], vars[order[i]])];
    }
    assert order[..|order|] == order;
  }

  /** `Run`: the command started with the child environment; `exec` stands for starting it and waiting. */
  method Run(vars: map<string, string>, name: string, args: seq<string>, environ: seq<string>, order: seq<string>,
             exec: (string, seq<string>, seq<string>) -> Option<string>)
    returns (err: Option<string>)
    requires IsIterationOrder(order, vars.Keys)
    ensures err == exec(name, args, environ + Entries(vars, order))
  {
    var env := ChildEnv(environ, vars, order);
    err := exec(name, args, env);
  }

  /**
    The child environment is the inherited one followed by exactly one entry per
    variable, and every variable has its entry.
   */
  lemma ChildEnvShape(environ: seq<string>, vars: map<string, string>, order: seq<string>)
    requires IsIterationOrder(order, vars.Keys)
    ensures var env := environ + Entries(vars, order);
      && |env| == |environ| + |vars|
      && env[..|environ|] == environ
      && (forall k :: k in vars ==> EnvEntry(k, vars[k]) in env[|environ|..])
  {
    IterationOrderLength(order, vars.Keys);
    var env := environ + Entries(vars, order);
    forall k | k in vars
      ensures EnvEntry(k, vars[k]) in env[|environ|..]
    {
      var i :| 0 <= i < |order| && order[i] == k;
      assert env[|environ|..][i] == EnvEntry(k, vars[k]);
    }
  }

  /** The replace tool reads an entry back as the upper-cased name and the value. */
  lemma EnvEntryReadBack(key: string, value: string)
    requires '=' !in key
    ensures Placeholders.IsStarterEntry(EnvEntry(key, value))
    ensures Placeholders.EntryVariable(EnvEntry(key, value)) == (ToUpper(key), value)
  {
    assert '=' !in ToUpper(key);
    Placeholders.EntryVariableOf(ToUpper(key), value);
    assert EnvEntry(key, value)[..|Placeholders.EnvPrefix|] == Placeholders.EnvPrefix;
  }

  /**
    A task that reads its variables back the way the replace tool does sees each variable
    under its upper-cased name with its value unchanged, provided no name has an `=` and
    no other variable upper-cases to the same name.
   */
  lemma ChildEnvRoundTrip(environ: seq<string>, vars: map<string, string>, order: seq<string>, key: string)
    requires IsIterationOrder(order, vars.Keys)
    requires key in vars
    requires forall k :: k in vars ==> '=' !in k
    requires forall k :: k in vars && k != key ==> ToUpper(k) != ToUpper(key)
    ensures var env := environ + Entries(vars, order);
      ToUpper(key) in Placeholders.EnvVariables(env) && Placeholders.EnvVariables(env)[ToUpper(key)] == vars[key]
  {
    var env := environ + Entries(vars, order);
    var n :| 0 <= n < |order| && order[n] == key;
    var i := |environ| + n;
    assert env[i] == EnvEntry(key, vars[key]);
    EnvEntryReadBack(key, vars[key]);
    forall j | i < j < |env| && Placeholders.IsStarterEntry(env[j])
      ensures Placeholders.EntryVariable(env[j]).0 != ToUpper(key)
    {
      var k := order[j - |environ|];
      assert env[j] == EnvEntry(k, vars[k]);
      EnvEntryReadBack(k, vars[k]);
    }
    Placeholders.EnvVariablesLastWins(env, i);
  }
}
