# go-starter, modelled in Dafny

go-starter turns a Git template repository into a new project.

- `go-starter` resolves the template location into a clone URL and clones it. It enters the destination and reads `.starter.yml`. It asks the questions listed there, validating each answer with a regular expression. Finally it runs the listed tasks in order, substituting `$name` in their arguments and passing every variable to them as a `STARTER_NAME=value` environment entry.
- `go-starter-replace`, run as one of those tasks, walks the working directory. It replaces every `<NAME>` placeholder by the value of the `STARTER_NAME` environment variable in file contents, and renames files and directories whose names carry placeholders.
- `go-starter-drone` and `go-starter-github` set up the CI repository and the GitHub repository. The part modelled here is their flag parsers, the import of Drone secrets, and the GitHub collaborator and deployment-key steps.

Each Go source file of this core is a module of the model:

| module | file | what it holds |
|---|---|---|
| `Text` | `text.dfy` | the `strings`/`bytes` functions the core relies on (`SplitN`, `Split`, `Join`, `TrimSpace`, `ToUpper`, `Replace`), the order of a `range` over a map, and their lemmas |
| `Terminal` | `console.dfy` | the console as a class: the lines still to be read and the trace of what was written |
| `Vars` | `vars.dfy` | `Vars` and `Vars.Set` (pkg/maker/vars.go) |
| `StarterConfig` | `config.dfy` | the `.starter.yml` shapes and `StringOrSlice.UnmarshalYAML` |
| `Asker` | `asker.dfy` | `Ask` and `Valid` (pkg/maker/asker.go) |
| `Runner` | `runner.dfy` | the child environment built by `Run` (pkg/maker/runner.go) |
| `Resolver` | `resolver.dfy` | `ResolveTemplateURL` (pkg/maker/resolver.go) |
| `Placeholders` | `placeholders.dfy` | `variables`, `rename` and the substitution of cmd/go-starter-replace/main.go |
| `TreeWalk` | `treewalk.dfy` | `replace`, the walk callback, the deferred renames and `main` of cmd/go-starter-replace/main.go |
| `Starter` | `starter.dfy` | `subst` and `main` of cmd/go-starter/main.go |
| `Flags` | `flags.dfy` | `SliceFlag`, declared with identical code in both service commands |
| `Drone` | `drone.dfy` | `SplitKeyValue` and `ImportSecrets` of cmd/go-starter-drone/main.go |
| `GitHub` | `github.dfy` | `SplitPermissions`, the collaborator loop and the deployment-key step of cmd/go-starter-github/main.go |
| `Wrappers` | `wrappers.dfy` | `Option`, `Result` and associativity of `+` on sequences |

## How the model is built

- **Imperative code becomes imperative Dafny.**
  - Go code that updates variables in loops is a Dafny `method` with a loop: `subst`, `rename`, `replace`, `variables`, the environment loop of `Run`, the prompt loop of `Ask`, `SliceFlag.Set`, the secret and collaborator loops, and the task loop.
  - Each such method is proved against a recursive specification function: `SubstArgs`, `Substitute`, `Rewrite`/`Visit`/`Walk`/`RenameAll`, `EnvVariables`, `Entries`, `Prompting`/`AskAll`, `Pieces`, `Imported`/`ImportLog` and `RunAll`.
  - Lemmas then state what the source promises about those functions.
- **State that Go updates in place is a class.**
  - The console is `Terminal.Console`.
  - The map that `Vars.Set` and `Ask` write into is `Vars.VarMap`. `Ask` returns the same object it was given, as Go returns the map it was given.
  - The working directory is `TreeWalk.Disk`: a map from relative path to node, plus the sets of paths whose read, write or rename the operating system refuses.
- **The world is passed in as parameters.** These are function-valued parameters:
  - regular-expression compilation and matching;
  - `net/url` parsing;
  - `git clone`, `os.Chdir` and loading `.starter.yml`;
  - starting a process;
  - reading a file;
  - the Drone and GitHub calls.

  The order in which `filepath.Walk` visits paths is a parameter too.
- **Map iteration order.** A Go `range` over a map visits its keys in an unspecified order. The model takes that order as a parameter `order` satisfying `Text.IsIterationOrder`, which says every key appears exactly once. `Starter.Start` chooses one with `Text.Enumerate`.
- **`Fatalf`.** It writes its message and exits. The model writes a `Fatal` line and returns at once.

Some behaviour of the code is easy to misread; the model follows the code as written:

- **Renames are deferred, and each target is computed from the whole path.** The walk only schedules renames. After the walk, each target is the substitution applied to the whole old path. So once a directory whose name has a placeholder has been renamed, renaming a path beneath it whose own name also has a placeholder fails, and the failure is reported (`TreeWalk.NestedRenameFails`). Descendants whose names have no placeholder simply move with their directory.
- **Skip-list paths are still descended into.** A path under `.git/` is neither renamed nor rewritten, but the walk still visits it. `.git` and `.starter` themselves are not skipped, since the prefixes end in `/`.
- **There is no default owner.** pkg/maker/resolver_test.go:10 expects a bare name to gain an owner segment, but `ResolveTemplateURL` adds none, so the model has none (see `## Left out`).
- **A second substitution pass is not always a no-op.** When a value contains a marker, running the tool again changes the text again. The model proves what does hold:
  - text without markers is unchanged (`Placeholders.SubstituteWithoutMarkers`);
  - the swapped dictionary restores the text (`Placeholders.SubstituteRoundTrip`).

## Model

| member | source | states |
|---|---|---|
| Text.Cut | pkg/maker/vars.go:29 | `SplitN(s, sep, 2)`: no split exactly when `sep` does not occur; otherwise the first part has no `sep` and `before + sep + after` is `s` |
| Text.CutUnique | pkg/maker/vars.go:29-31 | the split is at the first separator: any decomposition whose first part is separator-free is the one `SplitN` returns |
| Text.TrimPrefix | cmd/go-starter-replace/main.go:114 | with the prefix present, prefix + result is the input; without it, the input is returned unchanged |
| Text.Split | pkg/maker/config.go:43 | `strings.Split` with one separator: at least one piece, no piece contains the separator, and joining the pieces with it gives the input back |
| Text.SplitJoin | pkg/maker/config.go:43 | splitting the join of at least one separator-free piece gives exactly those pieces |
| Text.Enumerate | cmd/go-starter/main.go:124 | a `range` over a map: produces an order listing every key exactly once |
| Text.IterationOrderLength | pkg/maker/runner.go:29-31 | a `range` visits as many keys as the map has |
| Text.TrimLeftSpaceShape | cmd/go-starter-drone/main.go:263 | the leading white space removed is a run of white space, and the result does not start with white space |
| Text.TrimRightSpaceShape | cmd/go-starter-drone/main.go:263 | the trailing part removed is all white space, and the result does not end with white space |
| Text.TrimSpaceShape | cmd/go-starter-github/main.go:229 | `TrimSpace(s)` occurs in `s` with only white space before and after it, and neither starts nor ends with white space |
| Text.ToUpper | pkg/maker/runner.go:30 | same length; each character is upper-cased individually (ASCII letters) |
| Text.ReplaceAllAbsent | cmd/go-starter-replace/main.go:129 | replacing a pattern that does not occur leaves the text unchanged |
| Text.ReplaceAllFirst | cmd/go-starter/main.go:125 | the first occurrence of the pattern is replaced and the scan resumes right after it, so `p + pat + q` becomes `p + rep + ReplaceAll(q)` |
| Text.ReplaceAllRoundTrip | cmd/go-starter-replace/main_test.go:53-72 | replacing `pat` by `rep` and then `rep` by `pat` restores the text when `rep`'s first character occurs only inside the replaced occurrences |
| Terminal.Console.ReadString | pkg/console/console.go:32-37 | writes the prompt and consumes one line; at the end of input it reads the empty string and consumes nothing |
| Terminal.Console.Errorf | pkg/console/console.go:55-57 | appends exactly one error line and reads nothing |
| Terminal.Console.Fatalf | pkg/console/console.go:59-62 | appends exactly one fatal line (the exit is the caller's immediate return) |
| Vars.ParseAssignment | pkg/maker/vars.go:29-34 | with an `=`, the key has no `=` and `key + "=" + value` is the input; without one, the value is "1" |
| Vars.VarMap.Set | pkg/maker/vars.go:24-37 | only the parsed key is inserted or overwritten, every other key is unchanged, and on an empty map exactly one entry results |
| Vars.ParseAssignmentFirstEquals | pkg/maker/vars_test.go:22-25 | the split is at the first `=`: `key=value=value` stores `value=value`, `key=` stores "" |
| Placeholders.Rename | cmd/go-starter-replace/main.go:127-133 | the loop leaves the name with every marker replaced, variable by variable in iteration order |
| Placeholders.SubstituteWithoutMarkers | cmd/go-starter-replace/main.go:127-133 | text containing no marker of any variable comes back unchanged, whatever the iteration order |
| Placeholders.SubstituteRoundTrip | cmd/go-starter-replace/main_test.go:53-72 | substituting one variable, then substituting with the swapped dictionary, restores the original text |
| Placeholders.SubstituteSingleMarker | cmd/go-starter-replace/main_test.go:37-49 | `foo <PLACEHOLDER> bar`-shaped text, with no marker after the one, becomes `foo REPLACED bar` |
| Placeholders.Variables | cmd/go-starter-replace/main.go:104-124 | the loop over the environment builds exactly the map defined by the environment entries, later entries winning |
| Placeholders.EnvVariablesKeys | cmd/go-starter-replace/main.go:107-120 | a variable is defined if and only if some `STARTER_`-prefixed entry names it; other entries are ignored |
| Placeholders.EnvVariablesLastWins | cmd/go-starter-replace/main.go:107-120 | a variable's value is the one given by the last prefixed entry that names it |
| Placeholders.EntryVariableOf | cmd/go-starter-replace/main.go:112-118 | `STARTER_NAME=value` defines `NAME` as `value` (first `=` only); bare `STARTER_NAME` defines it as "1" |
| TreeWalk.BaseName | cmd/go-starter-replace/main.go:67 | the base name has no `/` |
| TreeWalk.BaseNameIsLast | cmd/go-starter-replace/main.go:67 | the base name is the last path element: a `/`-free suffix of the path that is either the whole path or preceded by a `/` |
| TreeWalk.Contents | cmd/go-starter-replace/main.go:137-140 | reading succeeds exactly for an existing, readable regular file, and yields its content |
| TreeWalk.Disk.WriteFile | cmd/go-starter-replace/main.go:152 | a permitted write stores the content at the path and nothing else; a refused one changes nothing and returns an error |
| TreeWalk.Disk.Rename | cmd/go-starter-replace/main.go:93 | a permitted rename moves the path and everything beneath it; a refused or missing source changes nothing and returns an error |
| TreeWalk.Replace | cmd/go-starter-replace/main.go:136-157 | read, substitute, write back only when the content changed: new tree, changed flag and error are those of `Rewrite` |
| TreeWalk.RewriteFacts | cmd/go-starter-replace/main.go:136-156 | `replace` returns true exactly when the tree changed, and then the path holds the substituted content, which differs from the old; conversely, a readable and writable regular file always ends holding its substituted content, with no error, and true is returned exactly when substitution changed it |
| TreeWalk.VisitPath | cmd/go-starter-replace/main.go:55-87 | the walk callback: an erroneous path is reported, skipped prefixes are ignored, a changing base name is scheduled, directories are not rewritten, files go through `replace` and an update is reported |
| TreeWalk.VisitFacts | cmd/go-starter-replace/main.go:55-87 | one visit changes only the visited path, and only to its substituted content; it schedules only that path, and only when its base name changes; it reports the update exactly when the entry changed; it fails exactly when the path is an existing, non-skipped regular file whose `replace` returns an error, and then with that error |
| TreeWalk.Run | cmd/go-starter-replace/main.go:50-100 | `main` after reading the variables: the walk, then every deferred rename, then the fatal report; tree and console are those of `Outcome` |
| TreeWalk.WalkFrame | cmd/go-starter-replace/main.go:55-87 | the walk keeps the set of paths, only appends renames and console lines, and writes nothing fatal |
| TreeWalk.WalkRewrites | cmd/go-starter-replace/main.go:61-80 | an entry changes only if it was visited, is not skipped and is a regular file, and it then holds the substituted content (directories and skipped paths are never rewritten); conversely, after a walk that ends without error every visited, non-skipped regular file holds its substituted content |
| TreeWalk.WalkReportsUpdates | cmd/go-starter-replace/main.go:82-84 | `Updating` is reported for a path exactly when its entry changed |
| TreeWalk.WalkSchedulesOnly | cmd/go-starter-replace/main.go:61-71 | only visited, existing, non-skipped paths whose base-name substitution changes are scheduled for renaming |
| TreeWalk.WalkSchedulesAll | cmd/go-starter-replace/main.go:67-71 | a walk that ends without error schedules every such path |
| TreeWalk.WalkReportsMissing | cmd/go-starter-replace/main.go:56-59 | a path handed to the callback with an error is reported and the walk goes on: the visit only adds the report; the report is in the console unless an earlier `replace` stopped the walk, and always when no visited file fails to read or write |
| TreeWalk.WalkStops | cmd/go-starter-replace/main.go:77-80 | only an error from `replace` stops the walk, and it does: a failed walk ends with the visit of an existing, non-skipped regular file whose `replace` returned that error |
| TreeWalk.WalkCompletes | cmd/go-starter-replace/main.go:55-87 | missing paths, directories and skipped paths never stop the walk: when every visited regular file can be read, and written back where its content changes, the walk ends without error |
| TreeWalk.RenameAllReports | cmd/go-starter-replace/main.go:89-96 | every scheduled rename is attempted and reported in order, whatever fails, and earlier console lines are kept |
| TreeWalk.NestedRenameFails | cmd/go-starter-replace/main.go:89-95 | after a directory is renamed, a deferred rename beneath it targets a path that no longer exists, and it fails and is reported |
| TreeWalk.RunReports | cmd/go-starter-replace/main.go:89-100 | every scheduled rename is reported even when the walk failed, and the run ends with a fatal report exactly when the walk failed |
| StarterConfig.Strings | pkg/maker/config.go:47-50 | a list of strings is kept item by item |
| StarterConfig.UnmarshalCommand | pkg/maker/config.go:39-53 | a null command is nil; a string becomes words whose join with spaces is the string; a list decodes exactly when all items are strings; a mapping is an error |
| StarterConfig.ScalarCommand | pkg/maker/config_test.go:26-31 | a string gives at least one space-free word; a string without a space gives itself (`"cmd"` and `""`) |
| StarterConfig.ScalarCommandWords | pkg/maker/config_test.go:27 | space-free words written as one string come back as those words (`"cmd arg1 arg2"`) |
| StarterConfig.ListCommand | pkg/maker/config_test.go:28-32 | a list of strings is taken verbatim, spaces inside items included; `[]` gives the empty command |
| Asker.Valid | pkg/maker/asker.go:78-89 | an empty pattern accepts everything with no error; a non-empty pattern that does not compile gives an error, and only then, together with `true`; otherwise the answer is valid exactly when `MatchString` of the compiled pattern succeeds on it |
| Asker.PromptingFacts | pkg/maker/asker.go:44-70 | every round writes the prompt first; an empty pattern takes the first line; a bad pattern fails the loop; an empty line with a valid default answers with the default |
| Asker.AskOneFacts | pkg/maker/asker.go:34-41 | a valid value given beforehand is taken with no read and no write, even when the pattern does not compile; an invalid one is reported before the prompt; a missing one goes straight to the prompt |
| Asker.PromptOnce | pkg/maker/asker.go:45-58 | writes title, help and default, reads one line, and replaces an empty line by the default |
| Asker.PromptUntilValid | pkg/maker/asker.go:44-70 | the prompt loop ends as `Prompting` says: answered, failed on a bad pattern, or stalled at the end of input |
| Asker.AskQuestion | pkg/maker/asker.go:33-72 | one question: the outcome, the input consumed, the output and the stored answer are those of `AskOne`, and the map changes only under the question's name |
| Asker.Ask | pkg/maker/asker.go:27-76 | questions strictly in order, stopping at a failure; the caller's map is updated in place and returned on success, nil otherwise |
| Asker.PromptingStallsOnlyWithoutValid | pkg/maker/asker.go:44-70 | with an empty or compiling pattern the loop never fails, and it fails to answer exactly when no line, nor the default read at the end of input, is valid |
| Asker.PromptingAnswersFirstValid | pkg/maker/asker.go:44-70 | the loop answers with the first line whose effective value is valid, every earlier line having been rejected |
| Asker.AskAllPrefilled | pkg/maker/asker.go:34-38 | when every question has a valid value beforehand, nothing is read or written and the map is unchanged |
| Asker.AskAllKeepsOthers | pkg/maker/asker.go:30-72 | keys that no question names keep their values, and no key is removed |
| Asker.AskAllAnswersValid | pkg/maker/asker.go:32-72 | on success, each question's stored value passes its validation |
| Runner.Entries | pkg/maker/runner.go:29-31 | one entry per visited variable |
| Runner.ChildEnv | pkg/maker/runner.go:27-31 | the loop builds the inherited environment followed by the variables' entries in iteration order |
| Runner.Run | pkg/maker/runner.go:22-34 | the command starts with exactly that environment; the variables are only read |
| Runner.ChildEnvShape | pkg/maker/runner.go:27-31 | the inherited environment comes first, unchanged; the length is that of the environment plus the number of variables; every variable has its entry |
| Runner.EnvEntryReadBack | pkg/maker/runner.go:30 | `STARTER_` + upper-cased name + `=` + value, read back the way the replace tool reads the environment, gives the upper-cased name and the unchanged value |
| Runner.ChildEnvRoundTrip | pkg/maker/runner.go:29-31 | a task reading the environment as the replace tool does sees each variable under its upper-cased name with its value unchanged |
| Resolver.Complete | pkg/maker/resolver.go:25-31 | an empty scheme becomes `https` and an empty host `github.com`; non-empty ones and every other field are kept |
| Resolver.ResolveTemplateURL | pkg/maker/resolver.go:20-23 | input that does not parse is returned unchanged |
| Resolver.CompleteKeepsComplete | pkg/maker/resolver.go:25-31 | completing is idempotent and leaves a URL with scheme and host as it is |
| Resolver.ResolveCompleteURL | pkg/maker/resolver_test.go:13 | a URL with scheme and host comes back as given |
| Resolver.ResolveBarePath | pkg/maker/resolver_test.go:11 | `mom/go-scaffolding` becomes `https://github.com/mom/go-scaffolding` |
| Resolver.ResolveSchemeRelative | pkg/maker/resolver_test.go:12 | `//host/path` becomes `https://host/path` |
| Flags.TrimEachAt | cmd/go-starter-drone/main.go:262-264 | the i-th appended value is the i-th comma-separated piece, trimmed |
| Flags.PiecesShape | cmd/go-starter-drone/main.go:261-264 | every appended value is trimmed of white space and free of commas |
| Flags.SliceFlag.Set | cmd/go-starter-drone/main.go:260-267 | the earlier values are kept and the trimmed pieces are appended in order; the result is always nil |
| Flags.SliceFlag.String | cmd/go-starter-github/main.go:235-237 | the values joined with commas |
| Flags.SetOfString | cmd/go-starter-github/main.go:226-237 | setting a flag from the printed form of trimmed, comma-free values gives those values back |
| Drone.SplitKeyValue | cmd/go-starter-drone/main.go:214-220 | with an `=`, the key has no `=` and `key + "=" + value` is the input; without one, `(c, "")` |
| Drone.SplitKeyValueFirstEquals | cmd/go-starter-drone/main.go:215-216 | a key without `=` and any value split back into themselves |
| Drone.ImportLiteral | cmd/go-starter-drone/main.go:141-148 | one literal flag: announced, sent with the split key and value, a failure reported |
| Drone.ImportFile | cmd/go-starter-drone/main.go:159-170 | one file flag: a failed read is reported and the secret is still sent with empty data |
| Drone.ImportLiterals | cmd/go-starter-drone/main.go:141-157 | a literal loop sends one secret per flag in order and writes each flag's lines |
| Drone.ImportFiles | cmd/go-starter-drone/main.go:159-183 | a file loop sends one secret per flag in order and writes each flag's lines |
| Drone.ImportSecrets | cmd/go-starter-drone/main.go:134-184 | the secrets sent, and the console, are those of the four loops in order after the title, and nothing at all when there are no flags |
| Drone.ImportNothing | cmd/go-starter-drone/main.go:135-137 | with all four lists empty nothing is sent and nothing is written |
| Drone.LiteralSecretsAt | cmd/go-starter-drone/main.go:141-157 | the i-th literal flag gives the i-th secret, key and value split at the first `=`, with the loop's pull-request setting |
| Drone.FileSecretsAt | cmd/go-starter-drone/main.go:159-183 | the i-th file flag gives the i-th secret: its key, and the file's contents, or empty data when the read failed |
| Drone.ImportedCount | cmd/go-starter-drone/main.go:134-184 | exactly one secret is sent per flag, whatever reads and creates return |
| Drone.LiteralLinesAnnounce | cmd/go-starter-drone/main.go:144-147 | one literal flag writes exactly one announcement, whether or not the create fails |
| Drone.LiteralLogAnnounces | cmd/go-starter-drone/main.go:141-157 | each literal flag is announced once, in order, by its key |
| GitHub.SplitPermissions | cmd/go-starter-github/main.go:216-222 | with a `:`, the name has no `:` and `name + ":" + permission` is the input; without one, `(c, d)` |
| GitHub.SplitPermissionsFirstColon | cmd/go-starter-github/main.go:217-218 | a name without `:` and any permission split back into themselves, whatever the default |
| GitHub.CollaboratorPermission | cmd/go-starter-github/main.go:143-144 | a collaborator without a permission is granted `push`; `user:perm` is granted `perm` |
| GitHub.AddCollaborators | cmd/go-starter-github/main.go:143-153 | every flag is granted in order and a failure is reported without stopping the loop |
| GitHub.GrantsAt | cmd/go-starter-github/main.go:143-148 | the i-th grant is that of the i-th flag |
| GitHub.AddDeployKey | cmd/go-starter-github/main.go:155-174 | the deployment-key block: nothing without the flag; otherwise it is announced, an unreadable file is fatal, and a failed upload is reported |
| GitHub.DeployKeyPermission | cmd/go-starter-github/main.go:156-168 | the permission defaults to `ro`, and the key is read-only unless the permission is exactly `rw` |
| GitHub.DeployKeyStepOutcome | cmd/go-starter-github/main.go:155-170 | with the flag set, the program ends exactly when the read fails, otherwise the key read is uploaded, and the announcement comes first |
| Starter.SubstArgs | cmd/go-starter/main.go:121-131 | one output per argument |
| Starter.SubstOne | cmd/go-starter/main.go:123-126 | the inner loop replaces `$name` by each variable's value in iteration order |
| Starter.Subst | cmd/go-starter/main.go:121-132 | the nested loops return the substituted arguments, in order |
| Starter.SubstArgsAt | cmd/go-starter/main.go:121-129 | the i-th output is the i-th argument, substituted |
| Starter.SubstWithoutDollar | cmd/go-starter/main.go:125 | an argument without `$` is returned unchanged |
| Starter.SubstOneVariable | cmd/go-starter/main.go:125 | `p$name q` becomes `p value q` when `p` and `q` hold no `$` |
| Starter.RunTask | cmd/go-starter/main.go:93-103 | one task: an empty command is fatal with no process; otherwise the executable starts unsubstituted with substituted arguments, and its failure is fatal |
| Starter.RunTasks | cmd/go-starter/main.go:92-104 | the loop starts the processes and writes the lines of `RunAll`, stopping at the first failure |
| Starter.RunAllInOrder | cmd/go-starter/main.go:92-104 | the j-th process started is the j-th task's command (executable as written, arguments substituted), and every process before the last succeeded |
| Starter.RunAllSucceeds | cmd/go-starter/main.go:92-106 | the run succeeds if and only if every task has a command and every process succeeds, and then every task was started |
| Starter.RunAllStops | cmd/go-starter/main.go:93-95 | a failed run ends with a fatal line, and no task after an empty command starts |
| Starter.ServiceVarsSet | cmd/go-starter/main.go:58-63 | `template_url`, `template_branch` and `destination` override any `-var` of the same name, and every other variable is kept |
| Starter.Prepare | cmd/go-starter/main.go:46-89 | empty template or destination is fatal; the tasks are reached exactly when clone, chdir, load and the questions succeed, with the questions asked over the variables plus the service variables |
| Starter.Start | cmd/go-starter/main.go:46-107 | no process starts unless every step before the tasks succeeds (so an error from `Ask` aborts before any task); then the variables are exactly those `AskAll` answers over the `-var` values plus the service variables, and the processes started are those of `RunAll` over them |

## Left out

- Colours and `%` formatting: each console line carries the already formatted text. `%#v` of a string is modelled as the string in double quotes; Go's escaping of quotes and control characters inside it is not modelled.
- Buffered reading: each `ReadString` consumes exactly one line of the modelled input. A real `bufio.Reader` created per call may read ahead; that is not modelled.
- Strings are sequences of characters, not UTF-8 bytes. `ToUpper` is modelled for ASCII letters only. `Replace` with an empty pattern interleaves per character, not per UTF-8 sequence.
- `TreeWalk.Run`, `TreeWalk.Replace` and `Placeholders.Rename`: every `range` over the placeholder map in one run (each `rename` and each `replace` call, cmd/go-starter-replace/main.go:128 and :144) uses the one order held by the dictionary, where Go may use a different order for each call. The results can differ only when a value contains another marker or markers overlap.
- `Starter.Start` and `Starter.RunAll`: every `range` over the variables in one run (each `subst` and each `Run`) is modelled with one iteration order, where Go may use a different order for each `range`.
- `Asker.Ask`: when the input is exhausted and the default is rejected, Go loops forever. The model ends that question with the outcome `Stalled`, and `Starter.Start` then ends without a message and without running tasks.
- `Resolver.Render`: only URLs whose scheme and host are both set are printed, which is all that `ResolveTemplateURL` prints. `net/url` parsing is a parameter.
- The default owner segment that pkg/maker/resolver_test.go:10 expects for a bare name is not modelled: `ResolveTemplateURL` never adds it.
- The `reverse` flag and the `.starter.yml` check exercised by cmd/go-starter-replace/main_test.go:62 and :92 do not exist in cmd/go-starter-replace/main.go, so they are not modelled.
- The nil-receiver branch of `Vars.Set` (pkg/maker/vars.go:25-27) dereferences nil and would panic. It is not modelled.
- nil and empty slices are one value (`[]`), except that a null YAML command decodes to `None`.
- The `Fatalf` at cmd/go-starter/main.go:88 has an argument but no verb, so Go appends an `%!(EXTRA …)` note to the message. The model writes the message without that note.
- `usage` output and flag parsing are not modelled; the parsed flag values are parameters.
- `maker.Checkout`, `os.Chdir`, reading and decoding `.starter.yml`, the regular-expression engine (which patterns compile and whether `MatchString` succeeds, anchors included, is a parameter, so no property of particular patterns is proved), `exec.Command`, `ioutil.ReadFile` in the service commands, and the Drone and GitHub clients are parameters of the model, standing for their results. pkg/maker/checkout.go and pkg/keychainx are not part of this model.
- In go-starter-drone and go-starter-github, the steps other than the secret import, the collaborator loop and the deployment key are not modelled:
  - credential prompts (`AskCredentials`) and the keychain;
  - repository creation, sync and activation;
  - the `git` commands;
  - `time.Sleep` and the build lookup.
- `filepath.Walk` is modelled by the sequence of paths it visits, which is a parameter. A visited path missing from the tree stands for an error handed to the callback. Rename conflicts (an existing target) are folded into the set of paths whose rename fails. So is a rename whose target directory does not exist: after a directory's own rename failed, `os.Rename` of a path beneath it fails for that reason, whereas the model moves it unless the path is listed among those whose rename fails.
- Idempotence of a second substitution pass is not stated, because it fails when a value contains a marker.
