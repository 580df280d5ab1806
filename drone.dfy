/**
  cmd/go-starter-drone/main.go: the parser of `key=value` secret flags and the import of
  repository secrets. The Drone client, the file system and the remaining steps of the
  command (repository sync and activation, the trigger commit, the build lookup) are not
  part of this model; reading a file and creating a secret are oracles.
 */
module Drone {
  import opened Wrappers
  import opened Text
  import opened Terminal

  /** `SplitKeyValue`: the text before the first `=` and the text after it; no `=` gives an empty value. */
  function SplitKeyValue(c: string): (r: (string, string))
    ensures '=' in c ==> '=' !in r.0 && r.0 + "=" + r.1 == c
    ensures '=' !in c ==> r == (c, "")
  {
    match Cut(c, '=')
    case Some((key, value)) => (key, value)
    case None => (c, "")
  }

  /** Formatting a key and its value as a flag and splitting it again gives them back. */
  lemma SplitKeyValueFirstEquals(key: string, value: string)
    requires '=' !in key
    ensures SplitKeyValue(key + "=" + value) == (key, value)
  {
    CutUnique(key + "=" + value, '=', key, value);
  }

  /** What `CreateOrUpdateSecret` sends: the name, the data, and whether pull requests see it. */
  datatype Secret = Secret(name: string, data: string, pulls: bool)

  /** The secret a `key=value` literal flag defines. */
  function LiteralSecret(entry: string, pulls: bool): Secret {
    Secret(SplitKeyValue(entry).0, SplitKeyValue(entry).1, pulls)
  }

  /** The secret a `key=file` flag defines: the file's bytes, or nothing when the read failed. */
  function FileSecret(entry: string, pulls: bool, read: string -> Result<string>): Secret {
    var data := read(SplitKeyValue(entry).1);
    Secret(SplitKeyValue(entry).0, if data.Ok? then data.value else "", pulls)
  }

  /** The secrets of a list of literal flags, in order. */
  function LiteralSecrets(entries: seq<string>, pulls: bool): seq<Secret> {
    if entries == [] then []
    else LiteralSecrets(entries[..|entries| - 1], pulls) + [LiteralSecret(entries[|entries| - 1], pulls)]
  }

  /** The secrets of a list of file flags, in order. */
  function FileSecrets(entries: seq<string>, pulls: bool, read: string -> Result<string>): seq<Secret> {
    if entries == [] then []
    else FileSecrets(entries[..|entries| - 1], pulls, read) + [FileSecret(entries[|entries| - 1], pulls, read)]
  }

  /** The announcement of one secret. */
  function AddingText(key: string, from: string): string {
    "Adding secret " + Quote(key) + " from " + from + "...\n"
  }

  function Adding(key: string, from: string): Line {
    Info(AddingText(key, from))
  }

  function CreateErrorText(err: string): string {
    "An error occurred while adding secret: " + err + "\n"
  }

  function ReadErrorText(file: string, err: string): string {
    "An error occurred while reading secret file " + Quote(file) + ": " + err + "\n"
  }

  /** The error report of a failed create, if `create` failed. */
  function Created(secret: Secret, create: Secret -> Option<string>): seq<Line> {
    if create(secret).Some? then [Error(CreateErrorText(create(secret).value))] else []
  }

  /** What the console shows for one literal flag. */
  function LiteralLines(entry: string, pulls: bool, create: Secret -> Option<string>): seq<Line> {
    [Adding(SplitKeyValue(entry).0, "literal")] + Created(LiteralSecret(entry, pulls), create)
  }

  /** What the console shows for one file flag: a failed read is reported, and the secret is still sent. */
  function FileLines(entry: string, pulls: bool, read: string -> Result<string>, create: Secret -> Option<string>): seq<Line> {
    var file := SplitKeyValue(entry).1;
    (if read(file).Err? then [Error(ReadErrorText(file, read(file).error))] else [])
    + [Adding(SplitKeyValue(entry).0, "file")]
    + Created(FileSecret(entry, pulls, read), create)
  }

  function LiteralLog(entries: seq<string>, pulls: bool, create: Secret -> Option<string>): seq<Line> {
    if entries == [] then []
    else LiteralLog(entries[..|entries| - 1], pulls, create) + LiteralLines(entries[|entries| - 1], pulls, create)
  }

  function FileLog(entries: seq<string>, pulls: bool, read: string -> Result<string>, create: Secret -> Option<string>): seq<Line> {
    if entries == [] then []
    else FileLog(entries[..|entries| - 1], pulls, read, create) + FileLines(entries[|entries| - 1], pulls, read, create)
  }

  /** The secret flags of the command, by kind. */
  datatype SecretFlags = SecretFlags(literalPull: seq<string>, literal: seq<string>, filePull: seq<string>, file: seq<string>)
  {
    predicate IsEmpty() {
      |literalPull| + |literal| + |filePull| + |file| == 0
    }
  }

  /**
    The secrets `ImportSecrets` sends, in the order of its four loops: literal ones for pull
    requests, other literal ones, file ones for pull requests, other file ones.
   */
  function Imported(flags: SecretFlags, read: string -> Result<string>): seq<Secret> {
    LiteralSecrets(flags.literalPull, true) + LiteralSecrets(flags.literal, false)
    + FileSecrets(flags.filePull, true, read) + FileSecrets(flags.file, false, read)
  }

  /** What `ImportSecrets` writes to the console: nothing at all when there are no secret flags. */
  function ImportLog(flags: SecretFlags, read: string -> Result<string>, create: Secret -> Option<string>): seq<Line> {
    if flags.IsEmpty() then []
    else
      [Title("Importing repository secrets...\n")]
      + LiteralLog(flags.literalPull, true, create) + LiteralLog(flags.literal, false, create)
      + FileLog(flags.filePull, true, read, create) + FileLog(flags.file, false, read, create)
  }

  /** One pass of the literal loop: announce the secret, send it, report a failure. */
  method ImportLiteral(ui: Console, entry: string, pulls: bool, create: Secret -> Option<string>)
    returns (secret: Secret)
    modifies ui
    ensures secret == LiteralSecret(entry, pulls)
    ensures ui.output == old(ui.output) + LiteralLines(entry, pulls, create) && ui.input == old(ui.input)
  {
    var (key, value) := SplitKeyValue(entry);
    ui.Printf(AddingText(key, "literal"));
    secret := Secret(key, value, pulls);
    var err := create(secret);
    if err.Some? {
      ui.Errorf(CreateErrorText(err.value));
    }
  }

  /** One pass of the file loop: a failed read is reported and the secret is sent with empty data. */
  method ImportFile(ui: Console, entry: string, pulls: bool, read: string -> Result<string>,
                    create: Secret -> Option<string>)
    returns (secret: Secret)
    modifies ui
    ensures secret == FileSecret(entry, pulls, read)
    ensures ui.output == old(ui.output) + FileLines(entry, pulls, read, create) && ui.input == old(ui.input)
  {
    var (key, file) := SplitKeyValue(entry);
    var data := read(file);
    var value := "";
    ghost var reported := if data.Err? then [Error(ReadErrorText(file, data.error))] else [];
    if data.Err? {
      ui.Errorf(ReadErrorText(file, data.error));
    } else {
      value := data.value;
    }
    assert ui.output == old(ui.output) + reported;
    ui.Printf(AddingText(key, "file"));
    secret := Secret(key, value, pulls);
    var err := create(secret);
    if err.Some? {
      ui.Errorf(CreateErrorText(err.value));
    }
    AppendAssoc(old(ui.output), reported, [Adding(key, "file")]);
    AppendAssoc(old(ui.output), reported + [Adding(key, "file")], Created(secret, create));
  }

  /** One loop over literal flags; returns the secrets handed to `create`. */
  method ImportLiterals(ui: Console, entries: seq<string>, pulls: bool, create: Secret -> Option<string>)
    returns (sent: seq<Secret>)
    modifies ui
    ensures sent == LiteralSecrets(entries, pulls)
    ensures ui.output == old(ui.output) + LiteralLog(entries, pulls, create) && ui.input == old(ui.input)
  {
    sent := [];
    for i := 0 to |entries|
      invariant sent == LiteralSecrets(entries[..i], pulls)
      invariant ui.output == old(ui.output) + LiteralLog(entries[..i], pulls, create) && ui.input == old(ui.input)
    {
      assert entries[..i + 1][..i] == entries[..i];
      AppendAssoc(old(ui.output), LiteralLog(entries[..i], pulls, create), LiteralLines(entries[i], pulls, create));
      var secret := ImportLiteral(ui, entries[i], pulls, create);
      sent := sent + [secret];
    }
    assert entries[..|entries|] == entries;
  }

  /** One loop over file flags; returns the secrets handed to `create`. */
  method ImportFiles(ui: Console, entries: seq<string>, pulls: bool, read: string -> Result<string>,
                     create: Secret -> Option<string>)
    returns (sent: seq<Secret>)
    modifies ui
    ensures sent == FileSecrets(entries, pulls, read)
    ensures ui.output == old(ui.output) + FileLog(entries, pulls, read, create) && ui.input == old(ui.input)
  {
    sent := [];
    for i := 0 to |entries|
      invariant sent == FileSecrets(entries[..i], pulls, read)
      invariant ui.output == old(ui.output) + FileLog(entries[..i], pulls, read, create) && ui.input == old(ui.input)
    {
      assert entries[..i + 1][..i] == entries[..i];
      AppendAssoc(old(ui.output), FileLog(entries[..i], pulls, read, create), FileLines(entries[i], pulls, read, create));
      var secret := ImportFile(ui, entries[i], pulls, read, create);
      sent := sent + [secret];
    }
    assert entries[..|entries|] == entries;
  }

  /** `ImportSecrets`: returns the secrets handed to `create`, in order. */
  method ImportSecrets(ui: Console, flags: SecretFlags, read: string -> Result<string>, create: Secret -> Option<string>)
    returns (sent: seq<Secret>)
    modifies ui
    ensures sent == Imported(flags, read)
    ensures ui.output == old(ui.output) + ImportLog(flags, read, create) && ui.input == old(ui.input)
  {
    if |flags.file| + |flags.filePull| + |flags.literal| + |flags.literalPull| == 0 {
      return [];
    }
    ghost var start := ui.output;
    ui.Titlef("Importing repository secrets...\n");
    var a := ImportLiterals(ui, flags.literalPull, true, create);
    var b := ImportLiterals(ui, flags.literal, false, create);
    var c := ImportFiles(ui, flags.filePull, true, read, create);
    var d := ImportFiles(ui, flags.file, false, read, create);
    sent := a + b + c + d;
    ghost var title := [Title("Importing repository secrets...\n")];
    ghost var la := LiteralLog(flags.literalPull, true, create);
    ghost var lb := LiteralLog(flags.literal, false, create);
    ghost var lc := FileLog(flags.filePull, true, read, create);
    ghost var ld := FileLog(flags.file, false, read, create);
    assert ui.output == start + title + la + lb + lc + ld;
    assert ImportLog(flags, read, create) == title + la + lb + lc + ld;
    AppendAssoc(start, title + la + lb + lc, ld);
    AppendAssoc(start, title + la + lb, lc);
    AppendAssoc(start, title + la, lb);
    AppendAssoc(start, title, la);
  }

  /** Without secret flags nothing is sent and nothing is written. */
  lemma ImportNothing(flags: SecretFlags, read: string -> Result<string>, create: Secret -> Option<string>)
    requires flags.IsEmpty()
    ensures Imported(flags, read) == [] && ImportLog(flags, read, create) == []
  {
    assert flags.literalPull == [] && flags.literal == [] && flags.filePull == [] && flags.file == [];
  }

  /** The i-th literal flag gives the i-th secret, its key and value split at the first `=`. */
  lemma {:induction false} LiteralSecretsAt(entries: seq<string>, pulls: bool, i: nat)
    requires i < |entries|
    ensures |LiteralSecrets(entries, pulls)| == |entries|
    ensures LiteralSecrets(entries, pulls)[i] == Secret(SplitKeyValue(entries[i]).0, SplitKeyValue(entries[i]).1, pulls)
  {
    var n := |entries| - 1;
    var init := entries[..n];
    assert LiteralSecrets(entries, pulls) == LiteralSecrets(init, pulls) + [LiteralSecret(entries[n], pulls)];
    if n > 0 {
      LiteralSecretsAt(init, pulls, if i < n then i else 0);
      if i < n {
        assert init[i] == entries[i];
      }
    }
  }

  /**
    The i-th file flag gives the i-th secret: its key, and the contents of the named file,
    or empty data when the file could not be read.
   */
  lemma {:induction false} FileSecretsAt(entries: seq<string>, pulls: bool, read: string -> Result<string>, i: nat)
    requires i < |entries|
    ensures |FileSecrets(entries, pulls, read)| == |entries|
    ensures var s := FileSecrets(entries, pulls, read)[i];
      && s.name == SplitKeyValue(entries[i]).0 && s.pulls == pulls
      && (read(SplitKeyValue(entries[i]).1).Ok? ==> s.data == read(SplitKeyValue(entries[i]).1).value)
      && (read(SplitKeyValue(entries[i]).1).Err? ==> s.data == "")
  {
    FileSecretsIndex(entries, pulls, read, i);
  }

  lemma {:induction false} FileSecretsIndex(entries: seq<string>, pulls: bool, read: string -> Result<string>, i: nat)
    requires i < |entries|
    ensures |FileSecrets(entries, pulls, read)| == |entries|
    ensures FileSecrets(entries, pulls, read)[i] == FileSecret(entries[i], pulls, read)
  {
    var n := |entries| - 1;
    var init := entries[..n];
    assert FileSecrets(entries, pulls, read) == FileSecrets(init, pulls, read) + [FileSecret(entries[n], pulls, read)];
    if n > 0 {
      FileSecretsIndex(init, pulls, read, if i < n then i else 0);
      if i < n {
        assert init[i] == entries[i];
      }
    }
  }

  /** Every flag is sent exactly once: one secret per flag, whatever `read` and `create` do. */
  lemma ImportedCount(flags: SecretFlags, read: string -> Result<string>)
    ensures |Imported(flags, read)| == |flags.literalPull| + |flags.literal| + |flags.filePull| + |flags.file|
  {
    SecretsLength(flags.literalPull, flags.literal, flags.filePull, flags.file, read);
  }

  lemma {:induction false} SecretsLength(lp: seq<string>, l: seq<string>, fp: seq<string>, f: seq<string>, read: string -> Result<string>)
    ensures |LiteralSecrets(lp, true)| == |lp| && |LiteralSecrets(l, false)| == |l|
    ensures |FileSecrets(fp, true, read)| == |fp| && |FileSecrets(f, false, read)| == |f|
  {
    if lp != [] { LiteralSecretsAt(lp, true, 0); }
    if l != [] { LiteralSecretsAt(l, false, 0); }
    if fp != [] { FileSecretsIndex(fp, true, read, 0); }
    if f != [] { FileSecretsIndex(f, false, read, 0); }
  }

  /** The announcement lines of a log, in order. */
  function Announced(log: seq<Line>): seq<Line> {
    if log == [] then []
    else Announced(log[..|log| - 1]) + (if log[|log| - 1].Info? then [log[|log| - 1]] else [])
  }

  lemma {:induction false} AnnouncedAppend(a: seq<Line>, b: seq<Line>)
    ensures Announced(a + b) == Announced(a) + Announced(b)
  {
    if b != [] {
      var n := |b| - 1;
      assert (a + b)[..|a + b| - 1] == a + b[..n];
      AnnouncedAppend(a, b[..n]);
    } else {
      assert a + b == a;
    }
  }

  /** One literal flag shows exactly one announcement, whether or not `create` fails. */
  lemma LiteralLinesAnnounce(entry: string, pulls: bool, create: Secret -> Option<string>)
    ensures Announced(LiteralLines(entry, pulls, create)) == [Adding(SplitKeyValue(entry).0, "literal")]
  {
    var first := [Adding(SplitKeyValue(entry).0, "literal")];
    var rest := Created(LiteralSecret(entry, pulls), create);
    assert Announced(first) == first by {
      assert first[..0] == [];
    }
    if rest != [] {
      assert LiteralLines(entry, pulls, create)[..1] == first;
    } else {
      assert LiteralLines(entry, pulls, create) == first;
    }
  }

  /** Each literal flag is announced once, in order, by its key. */
  lemma {:induction false} LiteralLogAnnounces(entries: seq<string>, pulls: bool, create: Secret -> Option<string>)
    ensures |Announced(LiteralLog(entries, pulls, create))| == |entries|
    ensures forall i :: 0 <= i < |entries| ==>
      Announced(LiteralLog(entries, pulls, create))[i] == Adding(SplitKeyValue(entries[i]).0, "literal")
  {
    if entries != [] {
      var n := |entries| - 1;
      var init := entries[..n];
      LiteralLogAnnounces(init, pulls, create);
      AnnouncedAppend(LiteralLog(init, pulls, create), LiteralLines(entries[n], pulls, create));
      LiteralLinesAnnounce(entries[n], pulls, create);
      var before := Announced(LiteralLog(init, pulls, create));
      var all := Announced(LiteralLog(entries, pulls, create));
      assert all == before + [Adding(SplitKeyValue(entries[n]).0, "literal")];
      forall i | 0 <= i < |entries|
        ensures all[i] == Adding(SplitKeyValue(entries[i]).0, "literal")
      {
        if i < n {
          assert all[i] == before[i];
          assert init[i] == entries[i];
        } else {
          assert all[i] == Adding(SplitKeyValue(entries[n]).0, "literal");
        }
      }
    }
  }
}
