/**
  cmd/go-starter/main.go: the command that materialises a template. It checks its two
  arguments, resolves the clone URL, sets the service variables, clones, enters the
  destination, loads `.starter.yml`, asks the questions and runs the tasks in order,
  stopping at the first failure. Cloning, changing directory, loading the configuration
  and starting processes are oracles.
 */
module Starter {
  import opened Wrappers
  import opened Text
  import opened Terminal
  import opened StarterConfig
  import Placeholders
  import Vars
  import Asker
  import Runner
  import Resolver

  /** An argument with every `$name` replaced by the value of variable `name`, taken in `order`. */
  function SubstArg(arg: string, vars: map<string, string>, order: seq<string>): string
    requires IsIterationOrder(order, vars.Keys)
  {
    Placeholders.Substitute(arg, "$", "", vars, order)
  }

  /** What `subst` returns: one substituted argument per argument, in order. */
  function SubstArgs(args: seq<string>, vars: map<string, string>, order: seq<string>): (r: seq<string>)
    requires IsIterationOrder(order, vars.Keys)
    ensures |r| == |args|
  {
    if args == [] then []
    else SubstArgs(args[..|args| - 1], vars, order) + [SubstArg(args[|args| - 1], vars, order)]
  }

  /** The inner loop of `subst`: every variable's `$name` in one argument replaced in turn. */
  method SubstOne(arg: string, vars: map<string, string>, order: seq<string>) returns (value: string)
    requires IsIterationOrder(order, vars.Keys)
    ensures value == SubstArg(arg, vars, order)
  {
    value := arg;
    for j := 0 to |order|
      invariant Placeholders.Substitute(value, "$", "", vars, order[j..]) == SubstArg(arg, vars, order)
    {
      assert order[j..][1..] == order[j + 1..];
      assert Placeholders.Marker("$", "", order[j]) == "$" + order[j];
      value := ReplaceAll(value, "$" + order[j], vars[order[j]]);
    }
  }

  /** `subst`: the outer loop over the arguments. */
  method Subst(args: seq<string>, vars: map<string, string>, order: seq<string>) returns (out: seq<string>)
    requires IsIterationOrder(order, vars.Keys)
    ensures out == SubstArgs(args, vars, order)
  {
    out := [];
    for i := 0 to |args|
      invariant out == SubstArgs(args[..i], vars, order)
    {
      assert args[..i + 1][..i] == args[..i];
      var value := SubstOne(args[i], vars, order);
      out := out + [value];
    }
    assert args[..|args|] == args;
  }

  /** The i-th output is the i-th argument, substituted. */
  lemma {:induction false} SubstArgsAt(args: seq<string>, vars: map<string, string>, order: seq<string>, i: nat)
    requires IsIterationOrder(order, vars.Keys)
    requires i < |args|
    ensures SubstArgs(args, vars, order)[i] == SubstArg(args[i], vars, order)
  {
    var n := |args| - 1;
    if i < n {
      var init := args[..n];
      assert SubstArgs(args, vars, order) == SubstArgs(init, vars, order) + [SubstArg(args[n], vars, order)];
      SubstArgsAt(init, vars, order, i);
      assert init[i] == args[i];
    }
  }

  /** An argument without `$` is passed on unchanged, whatever the variables. */
  lemma SubstWithoutDollar(arg: string, vars: map<string, string>, order: seq<string>)
    requires IsIterationOrder(order, vars.Keys)
    requires '$' !in arg
    ensures SubstArg(arg, vars, order) == arg
  {
    forall k | k in vars
      ensures Placeholders.Marker("$", "", k) != [] && !Occurs(arg, Placeholders.Marker("$", "", k))
    {
      var marker := Placeholders.Marker("$", "", k);
      NoDollarNoMarker(arg, k);
    }
    Placeholders.SubstituteWithoutMarkers(arg, "$", "", vars, order);
  }

  /** Text without `$` holds no `$name` marker. */
  lemma NoDollarNoMarker(s: string, name: string)
    requires '$' !in s
    ensures !Occurs(s, Placeholders.Marker("$", "", name))
  {
    var marker := Placeholders.Marker("$", "", name);
    forall i: nat | i <= |s| ensures !OccursAt(s, i, marker) {
      if i + |marker| <= |s| {
        assert s[i..i + |marker|][0] == s[i];
        assert s[i] in s;
      }
    }
  }

  /** With one variable, `p$name q` becomes `p value q` when `p` and `q` hold no `$`. */
  lemma SubstOneVariable(p: string, q: string, name: string, value: string)
    requires '$' !in p && '$' !in q
    ensures SubstArg(p + "$" + name + q, map[name := value], [name]) == p + value + q
  {
    var marker := Placeholders.Marker("$", "", name);
    assert marker == "$" + name;
    assert p + "$" + name + q == p + marker + q;
    forall i: nat | i < |p| ensures !OccursAt(p + marker + q, i, marker) {
      assert (p + marker + q)[i] == p[i];
    }
    ReplaceAllFirst(p, marker, q, value);
    NoDollarNoMarker(q, name);
    ReplaceAllAbsent(q, marker, value);
    assert Placeholders.Substitute(p + marker + q, "$", "", map[name := value], [name])
      == ReplaceAll(p + marker + q, marker, value);
  }

  /** The process a task starts: the executable as written, the rest of the command substituted. */
  datatype Launch = Launch(name: string, args: seq<string>, env: seq<string>)

  function LaunchOf(command: seq<string>, vars: map<string, string>, environ: seq<string>, order: seq<string>): Launch
    requires command != [] && IsIterationOrder(order, vars.Keys)
  {
    Launch(command[0], SubstArgs(command[1..], vars, order), environ + Runner.Entries(vars, order))
  }

  function RunningText(name: string): string {
    "Running task " + name + "...\n"
  }

  const EmptyCommandText := "Task command can not be empty, check your .starter.yml\n"

  function TaskErrorText(err: string): string {
    "An error occurred when executing task: " + err + "\n"
  }

  /** The processes started, what was written, and whether every task succeeded. */
  datatype TaskRun = TaskRun(launched: seq<Launch>, output: seq<Line>, ok: bool)

  /** One task: an empty command is fatal; otherwise the process starts, and its failure is fatal. */
  function TaskStep(task: Task, vars: map<string, string>, environ: seq<string>, order: seq<string>,
                    exec: (string, seq<string>, seq<string>) -> Option<string>): TaskRun
    requires IsIterationOrder(order, vars.Keys)
  {
    if task.command == [] then TaskRun([], [Fatal(EmptyCommandText)], false)
    else
      var launch := LaunchOf(task.command, vars, environ, order);
      var running := [Title(RunningText(launch.name))];
      var err := exec(launch.name, launch.args, launch.env);
      if err.Some? then TaskRun([launch], running + [Fatal(TaskErrorText(err.value))], false)
      else TaskRun([launch], running, true)
  }

  /**
    The task loop of `main`: tasks in declared order; an empty command or a failing task
    is fatal and no later task starts.
   */
  function RunAll(tasks: seq<Task>, vars: map<string, string>, environ: seq<string>, order: seq<string>,
                  exec: (string, seq<string>, seq<string>) -> Option<string>): TaskRun
    requires IsIterationOrder(order, vars.Keys)
    decreases |tasks|
  {
    if tasks == [] then TaskRun([], [], true)
    else
      var one := TaskStep(tasks[0], vars, environ, order, exec);
      if !one.ok then one
      else
        var rest := RunAll(tasks[1..], vars, environ, order, exec);
        TaskRun(one.launched + rest.launched, one.output + rest.output, rest.ok)
  }

  /** One pass of the task loop. */
  method RunTask(ui: Console, task: Task, vars: map<string, string>, environ: seq<string>, order: seq<string>,
                 exec: (string, seq<string>, seq<string>) -> Option<string>)
    returns (launch: Option<Launch>, ok: bool)
    requires IsIterationOrder(order, vars.Keys)
    modifies ui
    ensures var r := TaskStep(task, vars, environ, order, exec);
      && r.launched == (if launch.Some? then [launch.value] else [])
      && ok == r.ok && ui.output == old(ui.output) + r.output && ui.input == old(ui.input)
  {
    if |task.command| == 0 {
      ui.Fatalf(EmptyCommandText);
      return None, false;
    }
    var name := task.command[0];
    var args := Subst(task.command[1..], vars, order);
    ui.Titlef(RunningText(name));
    var err := Runner.Run(vars, name, args, environ, order, exec);
    launch := Some(Launch(name, args, environ + Runner.Entries(vars, order)));
    if err.Some? {
      ui.Fatalf(TaskErrorText(err.value));
      return launch, false;
    }
    ok := true;
  }

  /** The task loop; returns the processes started, in order. */
  method RunTasks(ui: Console, tasks: seq<Task>, vars: map<string, string>, environ: seq<string>, order: seq<string>,
                  exec: (string, seq<string>, seq<string>) -> Option<string>)
    returns (launched: seq<Launch>, ok: bool)
    requires IsIterationOrder(order, vars.Keys)
    modifies ui
    ensures var r := RunAll(tasks, vars, environ, order, exec);
      launched == r.launched && ok == r.ok && ui.output == old(ui.output) + r.output && ui.input == old(ui.input)
  {
    ghost var r := RunAll(tasks, vars, environ, order, exec);
    launched, ok := [], true;
    var i := 0;
    while i < |tasks| && ok
      invariant i <= |tasks| && ui.input == old(ui.input)
      invariant ok ==> var rest := RunAll(tasks[i..], vars, environ, order, exec);
        launched + rest.launched == r.launched && rest.ok == r.ok && ui.output + rest.output == old(ui.output) + r.output
      invariant !ok ==> launched == r.launched && !r.ok && ui.output == old(ui.output) + r.output
    {
      ghost var output0 := ui.output;
      assert tasks[i..][0] == tasks[i] && tasks[i..][1..] == tasks[i + 1..];
      ghost var rest' := RunAll(tasks[i + 1..], vars, environ, order, exec);
      ghost var one := TaskStep(tasks[i], vars, environ, order, exec);
      var launch;
      launch, ok := RunTask(ui, tasks[i], vars, environ, order, exec);
      AppendAssoc(launched, one.launched, rest'.launched);
      AppendAssoc(output0, one.output, rest'.output);
      launched := launched + (if launch.Some? then [launch.value] else []);
      i := i + 1;
    }
    if ok {
      assert tasks[i..] == [];
    }
  }

  /**
    Tasks start in declared order, each with its executable unsubstituted and its
    arguments substituted; every task before the last one started succeeded.
   */
  lemma {:induction false} RunAllInOrder(tasks: seq<Task>, vars: map<string, string>, environ: seq<string>, order: seq<string>,
                                         exec: (string, seq<string>, seq<string>) -> Option<string>, j: nat)
    requires IsIterationOrder(order, vars.Keys)
    requires j < |RunAll(tasks, vars, environ, order, exec).launched|
    ensures j < |tasks| && tasks[j].command != []
    ensures RunAll(tasks, vars, environ, order, exec).launched[j] == LaunchOf(tasks[j].command, vars, environ, order)
    ensures j + 1 < |RunAll(tasks, vars, environ, order, exec).launched| ==>
      var l := RunAll(tasks, vars, environ, order, exec).launched[j];
      exec(l.name, l.args, l.env).None?
  {
    var r := RunAll(tasks, vars, environ, order, exec);
    var launch := LaunchOf(tasks[0].command, vars, environ, order);
    if exec(launch.name, launch.args, launch.env).None? {
      var rest := RunAll(tasks[1..], vars, environ, order, exec);
      assert r.launched == [launch] + rest.launched;
      if j > 0 {
        RunAllInOrder(tasks[1..], vars, environ, order, exec, j - 1);
      }
    }
  }

  /** The task has a command, and the process it starts succeeds. */
  predicate Succeeds(task: Task, vars: map<string, string>, environ: seq<string>, order: seq<string>,
                     exec: (string, seq<string>, seq<string>) -> Option<string>)
    requires IsIterationOrder(order, vars.Keys)
  {
    task.command != [] &&
    var launch := LaunchOf(task.command, vars, environ, order);
    exec(launch.name, launch.args, launch.env).None?
  }

  /**
    The run succeeds exactly when every task has a command and every process it starts
    succeeds, and then every task was started; never more processes than tasks start.
   */
  lemma {:induction false} RunAllSucceeds(tasks: seq<Task>, vars: map<string, string>, environ: seq<string>, order: seq<string>,
                                          exec: (string, seq<string>, seq<string>) -> Option<string>)
    requires IsIterationOrder(order, vars.Keys)
    ensures var r := RunAll(tasks, vars, environ, order, exec);
      && |r.launched| <= |tasks|
      && (r.ok <==> (forall k :: 0 <= k < |tasks| ==> Succeeds(tasks[k], vars, environ, order, exec)))
      && (r.ok ==> |r.launched| == |tasks|)
  {
    if tasks != [] {
      var r := RunAll(tasks, vars, environ, order, exec);
      var one := TaskStep(tasks[0], vars, environ, order, exec);
      assert one.ok == Succeeds(tasks[0], vars, environ, order, exec);
      if one.ok {
        var tail := tasks[1..];
        var rest := RunAll(tail, vars, environ, order, exec);
        assert r == TaskRun(one.launched + rest.launched, one.output + rest.output, rest.ok);
        RunAllSucceeds(tail, vars, environ, order, exec);
        assert (forall k :: 0 <= k < |tasks| ==> Succeeds(tasks[k], vars, environ, order, exec))
          <==> (forall k :: 0 <= k < |tail| ==> Succeeds(tail[k], vars, environ, order, exec))
        by {
          forall k | 0 <= k < |tail| ensures tail[k] == tasks[k + 1] {}
        }
      }
    }
  }

  /**
    A failed run ends with a fatal message, and a task with an empty command stops the
    run before any later task starts.
   */
  lemma {:induction false} RunAllStops(tasks: seq<Task>, vars: map<string, string>, environ: seq<string>, order: seq<string>,
                                       exec: (string, seq<string>, seq<string>) -> Option<string>, k: nat)
    requires IsIterationOrder(order, vars.Keys)
    ensures var r := RunAll(tasks, vars, environ, order, exec);
      && (!r.ok ==> r.output != [] && r.output[|r.output| - 1].Fatal?)
      && (k < |tasks| && tasks[k].command == [] ==> |r.launched| <= k)
  {
    if tasks != [] {
      var r := RunAll(tasks, vars, environ, order, exec);
      var one := TaskStep(tasks[0], vars, environ, order, exec);
      if !one.ok {
        assert r == one;
      } else {
        var tail := tasks[1..];
        var rest := RunAll(tail, vars, environ, order, exec);
        assert r == TaskRun(one.launched + rest.launched, one.output + rest.output, rest.ok);
        assert |one.launched| == 1 && tasks[0].command != [];
        RunAllStops(tail, vars, environ, order, exec, if k > 0 then k - 1 else 0);
        if k > 0 && k < |tasks| {
          assert tail[k - 1] == tasks[k];
        }
      }
    }
  }

  const TemplateEmptyText := "ERROR: template should not be empty, use Git repository URL\n"
  const DestinationEmptyText := "ERROR: destination should not be empty, enter folder where you want to deploy new application\n"
  const AskErrorText := "An error occurred when reading user input"
  const DoneText := "You're all set, happy coding!\n"

  function CloningText(template: string): string {
    "Cloning template " + template + "\n"
  }

  function CheckoutErrorText(err: string): string {
    "An error occurred: " + err + "\n"
  }

  function ChdirErrorText(err: string): string {
    "An error occurred when chdir to destination directory: " + err + "\n"
  }

  function LoadErrorText(err: string): string {
    "An error occurred when reading .starter.yml from repository: " + err + "\n"
  }

  /** The variables after the service variables are set: they override any `-var` of the same name. */
  function ServiceVars(vars: map<string, string>, template: string, branch: string, destination: string,
                       parse: string -> Option<Resolver.URL>): map<string, string>
  {
    vars["template_url" := Resolver.ResolveTemplateURL(template, parse)]["template_branch" := branch]["destination" := destination]
  }

  /** The service variables hold the clone URL, the branch and the destination, and every other variable is kept. */
  lemma ServiceVarsSet(vars: map<string, string>, template: string, branch: string, destination: string,
                       parse: string -> Option<Resolver.URL>, key: string)
    ensures var s := ServiceVars(vars, template, branch, destination, parse);
      && s["template_url"] == Resolver.ResolveTemplateURL(template, parse)
      && s["template_branch"] == branch && s["destination"] == destination
      && (key !in {"template_url", "template_branch", "destination"} ==>
            (key in s <==> key in vars) && (key in vars ==> s[key] == vars[key]))
  {
  }

  /** The environment of `main`: what it runs against and the oracles standing for the world. */
  datatype World = World(
    parse: string -> Option<Resolver.URL>,
    checkout: (string, string, string) -> Option<string>,
    chdir: string -> Option<string>,
    load: string -> Result<Config>,
    engine: Asker.Engine,
    environ: seq<string>,
    exec: (string, seq<string>, seq<string>) -> Option<string>)

  /** The steps before the tasks all succeed and the questions are answered. */
  predicate ReachesTasks(template: string, destination: string, branch: string, skipClone: bool,
                         vars: map<string, string>, input: seq<string>, world: World)
  {
    && template != "" && destination != ""
    && (skipClone || world.checkout(destination, Resolver.ResolveTemplateURL(template, world.parse), branch).None?)
    && world.chdir(destination).None?
    && world.load(destination).Ok?
    && Asker.AskAll(world.load(destination).value.questions,
                    ServiceVars(vars, template, branch, destination, world.parse), input, world.engine).outcome.Answered?
  }

  /** The steps up to and including the questions; `Some(config)` when the tasks are to run. */
  method Prepare(ui: Console, template: string, destination: string, branch: string, skipClone: bool,
                 vars: Vars.VarMap, world: World)
    returns (config: Option<Config>)
    modifies ui, vars
    ensures config.Some? <==> ReachesTasks(template, destination, branch, skipClone, old(vars.entries), old(ui.input), world)
    ensures template == "" ==> ui.output == old(ui.output) + [Fatal(TemplateEmptyText)]
    ensures template != "" && destination == "" ==> ui.output == old(ui.output) + [Fatal(DestinationEmptyText)]
    ensures config.Some? ==>
      var asked := Asker.AskAll(config.value.questions, ServiceVars(old(vars.entries), template, branch, destination, world.parse),
                                old(ui.input), world.engine);
      && config == Some(world.load(destination).value)
      && vars.entries == asked.answers && ui.input == asked.input
      && ui.output == old(ui.output) + (if skipClone then [] else [Title(CloningText(template))]) + asked.output
  {
    if template == "" {
      ui.Fatalf(TemplateEmptyText);
      return None;
    }
    if destination == "" {
      ui.Fatalf(DestinationEmptyText);
      return None;
    }
    var cloneURL := Resolver.ResolveTemplateURL(template, world.parse);
    vars.entries := vars.entries["template_url" := cloneURL];
    vars.entries := vars.entries["template_branch" := branch];
    vars.entries := vars.entries["destination" := destination];
    if !skipClone {
      ui.Titlef(CloningText(template));
      var err := world.checkout(destination, cloneURL, branch);
      if err.Some? {
        ui.Fatalf(CheckoutErrorText(err.value));
        return None;
      }
    }
    ghost var output0 := ui.output;
    var err := world.chdir(destination);
    if err.Some? {
      ui.Fatalf(ChdirErrorText(err.value));
      return None;
    }
    var loaded := world.load(destination);
    if loaded.Err? {
      ui.Fatalf(LoadErrorText(loaded.error));
      return None;
    }
    var answers, outcome := Asker.Ask(ui, loaded.value.questions, vars, world.engine);
    if outcome.Failed? {
      ui.Fatalf(AskErrorText);
      return None;
    }
    if outcome.Stalled? {
      return None;
    }
    config := Some(loaded.value);
  }

  /**
    `main` from the argument checks on; returns the processes started. A question that
    can never be answered stops the program before the tasks, without a message.
   */
  method Start(ui: Console, template: string, destination: string, branch: string, skipClone: bool,
               vars: Vars.VarMap, world: World)
    returns (launched: seq<Launch>)
    modifies ui, vars
    ensures !ReachesTasks(template, destination, branch, skipClone, old(vars.entries), old(ui.input), world) ==> launched == []
    ensures template == "" ==> ui.output == old(ui.output) + [Fatal(TemplateEmptyText)]
    ensures ReachesTasks(template, destination, branch, skipClone, old(vars.entries), old(ui.input), world) ==>
      exists order :: IsIterationOrder(order, vars.entries.Keys)
        && launched == RunAll(world.load(destination).value.tasks, vars.entries, world.environ, order, world.exec).launched
    ensures ReachesTasks(template, destination, branch, skipClone, old(vars.entries), old(ui.input), world) ==>
      vars.entries == Asker.AskAll(world.load(destination).value.questions,
                                   ServiceVars(old(vars.entries), template, branch, destination, world.parse),
                                   old(ui.input), world.engine).answers
  {
    var config := Prepare(ui, template, destination, branch, skipClone, vars, world);
    if config.None? {
      return [];
    }
    var order := Enumerate(vars.entries.Keys);
    var ok;
    launched, ok := RunTasks(ui, config.value.tasks, vars.entries, world.environ, order, world.exec);
    if ok {
      ui.Successf(DoneText);
    }
  }
}
