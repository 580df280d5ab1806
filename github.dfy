/**
  cmd/go-starter-github/main.go: the `name:permission` parser, the collaborator loop and the
  deployment key step at the end of `main`. Repository creation, the git commands, the
  keychain and the credential prompt are not part of this model; the GitHub calls and the
  key file read are oracles.
 */
module GitHub {
  import opened Wrappers
  import opened Text
  import opened Terminal

  /** `SplitPermissions`: the text before the first `:` and the text after it; no `:` gives the default `d`. */
  function SplitPermissions(c: string, d: string): (r: (string, string))
    ensures ':' in c ==> ':' !in r.0 && r.0 + ":" + r.1 == c
    ensures ':' !in c ==> r == (c, d)
  {
    match Cut(c, ':')
    case Some((name, permission)) => (name, permission)
    case None => (c, d)
  }

  /** A `name:permission` flag splits back into its name and permission, whatever the default. */
  lemma SplitPermissionsFirstColon(name: string, permission: string, d: string)
    requires ':' !in name
    ensures SplitPermissions(name + ":" + permission, d) == (name, permission)
  {
    CutUnique(name + ":" + permission, ':', name, permission);
  }

  /** The request `AddCollaborator` receives. */
  datatype Grant = Grant(user: string, permission: string)

  /** The grant a `-collaborator` flag asks for; the permission defaults to `push`. */
  function CollaboratorGrant(c: string): Grant {
    Grant(SplitPermissions(c, "push").0, SplitPermissions(c, "push").1)
  }

  /** `octocat` is granted `push`; `octocat:pull` is granted `pull`. */
  lemma CollaboratorPermission(user: string, permission: string)
    requires ':' !in user
    ensures CollaboratorGrant(user) == Grant(user, "push")
    ensures CollaboratorGrant(user + ":" + permission) == Grant(user, permission)
  {
    SplitPermissionsFirstColon(user, permission, "push");
  }

  function CollaboratorErrorText(c: string, err: string): string {
    "An error occurred while adding " + Quote(c) + " collaborator: " + err + "\n"
  }

  /** What the console shows for one collaborator: only a failure is reported. */
  function CollaboratorLines(c: string, add: Grant -> Option<string>): seq<Line> {
    if add(CollaboratorGrant(c)).Some? then [Error(CollaboratorErrorText(c, add(CollaboratorGrant(c)).value))] else []
  }

  function CollaboratorLog(collaborators: seq<string>, add: Grant -> Option<string>): seq<Line> {
    if collaborators == [] then []
    else CollaboratorLog(collaborators[..|collaborators| - 1], add) + CollaboratorLines(collaborators[|collaborators| - 1], add)
  }

  function Grants(collaborators: seq<string>): (r: seq<Grant>)
    ensures |r| == |collaborators|
  {
    if collaborators == [] then []
    else Grants(collaborators[..|collaborators| - 1]) + [CollaboratorGrant(collaborators[|collaborators| - 1])]
  }

  /**
    The collaborator loop of `main`: every flag is granted in order, and a failure is
    reported without stopping the loop. Returns the grants handed to `add`.
   */
  method AddCollaborators(ui: Console, collaborators: seq<string>, add: Grant -> Option<string>)
    returns (sent: seq<Grant>)
    modifies ui
    ensures sent == Grants(collaborators)
    ensures ui.output == old(ui.output) + CollaboratorLog(collaborators, add) && ui.input == old(ui.input)
  {
    sent := [];
    for i := 0 to |collaborators|
      invariant sent == Grants(collaborators[..i])
      invariant ui.output == old(ui.output) + CollaboratorLog(collaborators[..i], add) && ui.input == old(ui.input)
    {
      assert collaborators[..i + 1][..i] == collaborators[..i];
      AppendAssoc(old(ui.output), CollaboratorLog(collaborators[..i], add), CollaboratorLines(collaborators[i], add));
      var (user, permission) := SplitPermissions(collaborators[i], "push");
      var err := add(Grant(user, permission));
      if err.Some? {
        ui.Errorf(CollaboratorErrorText(collaborators[i], err.value));
      }
      sent := sent + [Grant(user, permission)];
    }
    assert collaborators[..|collaborators|] == collaborators;
  }

  /** The i-th collaborator flag is the i-th grant. */
  lemma {:induction false} GrantsAt(collaborators: seq<string>, i: nat)
    requires i < |collaborators|
    ensures Grants(collaborators)[i] == CollaboratorGrant(collaborators[i])
  {
    var n := |collaborators| - 1;
    if i < n {
      var init := collaborators[..n];
      assert Grants(collaborators) == Grants(init) + [CollaboratorGrant(collaborators[n])];
      GrantsAt(init, i);
      assert init[i] == collaborators[i];
    }
  }

  /** The key `CreateKey` receives. */
  datatype Key = Key(title: string, key: string, readOnly: bool)

  /** The key a `-deploy-key path[:perm]` flag uploads, once the file at `path` has been read as `data`. */
  function DeployKeyOf(deployKey: string, data: string): Key {
    Key("Deploy Key", data, SplitPermissions(deployKey, "ro").1 != "rw")
  }

  function AddingKeyText(key: string, permission: string): string {
    "Adding deployment key " + Quote(key) + " with " + Quote(permission) + " permissions\n"
  }

  function ReadKeyErrorText(err: string): string {
    "Unable to read deployment key: " + err + "\n"
  }

  function CreateKeyErrorText(key: string, err: string): string {
    "An error occurred while adding " + Quote(key) + " deployment key: " + err + "\n"
  }

  /** How the deployment key step ends. */
  datatype KeyStep = KeyStep(sent: Option<Key>, fatal: bool, output: seq<Line>)

  /**
    The deployment key step: nothing without the flag; otherwise the key is announced, an
    unreadable key file ends the program, and a failed upload is reported.
   */
  function DeployKeyStep(deployKey: string, read: string -> Result<string>, create: Key -> Option<string>): KeyStep {
    if deployKey == "" then KeyStep(None, false, [])
    else
      var (path, permission) := SplitPermissions(deployKey, "ro");
      var announce := [Info(AddingKeyText(path, permission))];
      if read(path).Err? then KeyStep(None, true, announce + [Fatal(ReadKeyErrorText(read(path).error))])
      else
        var key := DeployKeyOf(deployKey, read(path).value);
        KeyStep(Some(key), false, announce + (if create(key).Some? then [Error(CreateKeyErrorText(path, create(key).value))] else []))
  }

  /** The `if deployKey != ""` block of `main`; `fatal` stands for the exit of `Fatalf`. */
  method AddDeployKey(ui: Console, deployKey: string, read: string -> Result<string>, create: Key -> Option<string>)
    returns (sent: Option<Key>, fatal: bool)
    modifies ui
    ensures var step := DeployKeyStep(deployKey, read, create);
      sent == step.sent && fatal == step.fatal && ui.output == old(ui.output) + step.output
    ensures ui.input == old(ui.input)
  {
    sent, fatal := None, false;
    if deployKey != "" {
      var (path, permission) := SplitPermissions(deployKey, "ro");
      ui.Printf(AddingKeyText(path, permission));
      var data := read(path);
      if data.Err? {
        ui.Fatalf(ReadKeyErrorText(data.error));
        return None, true;
      }
      var key := Key("Deploy Key", data.value, permission != "rw");
      var err := create(key);
      if err.Some? {
        ui.Errorf(CreateKeyErrorText(path, err.value));
      }
      sent := Some(key);
    }
  }

  /**
    A key flag without a permission uploads a read-only key; `path:rw` uploads a writable
    one; any other permission, `path:ro` or a misspelt one, uploads a read-only one.
   */
  lemma DeployKeyPermission(path: string, permission: string, data: string)
    requires ':' !in path
    ensures DeployKeyOf(path, data).readOnly
    ensures DeployKeyOf(path + ":" + permission, data).readOnly <==> permission != "rw"
  {
    SplitPermissionsFirstColon(path, permission, "ro");
  }

  /**
    With the flag set, the key read from the file is uploaded exactly when the read
    succeeds, and the program ends exactly when it fails.
   */
  lemma DeployKeyStepOutcome(deployKey: string, read: string -> Result<string>, create: Key -> Option<string>)
    requires deployKey != ""
    ensures var path := SplitPermissions(deployKey, "ro").0;
      var step := DeployKeyStep(deployKey, read, create);
      && (step.fatal <==> read(path).Err?)
      && (read(path).Ok? ==> step.sent == Some(DeployKeyOf(deployKey, read(path).value)))
      && step.output[0] == Info(AddingKeyText(path, SplitPermissions(deployKey, "ro").1))
  {
  }
}
