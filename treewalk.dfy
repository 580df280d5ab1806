/**
  cmd/go-starter-replace/main.go, the imperative half: the walk over the working
  directory that rewrites file contents and schedules renames, and the rename pass
  that follows it.
 */
module TreeWalk {
  import opened Wrappers
  import opened Text
  import opened Placeholders

  /** Paths that start with one of these are neither renamed nor rewritten. */
  const Skips: seq<string> := [".starter/", ".starter.yml", ".git/"]

  predicate IsSkipped(path: string) {
    exists i :: 0 <= i < |Skips| && HasPrefix(path, Skips[i])
  }

  /** A directory entry: a directory, or a regular file with its content. */
  datatype Node = Dir | File(content: string)

  /** The name of the last element of a slash-separated path (what `FileInfo.Name` gives). */
  function BaseName(path: string): (r: string)
    ensures '/' !in r
    decreases |path|
  {
    match Cut(path, '/')
    case None => path
    case Some((_, rest)) => BaseName(rest)
  }

  /** `r` is the last element of `path`: the whole path, or the suffix after its last `/`. */
  predicate LastElement(path: string, r: string) {
    && '/' !in r && |r| <= |path| && path[|path| - |r|..] == r
    && (r == path || path[|path| - |r| - 1] == '/')
  }

  /** The last element of the text after a `/` is the last element of the whole path. */
  lemma LastElementAfterSlash(before: string, rest: string, r: string)
    requires LastElement(rest, r)
    ensures LastElement(before + "/" + rest, r)
  {
    var path := before + "/" + rest;
    assert path[|path| - |rest|..] == rest;
    assert path[|path| - |r|..] == rest[|rest| - |r|..];
    if r != rest {
      assert path[|path| - |r| - 1] == rest[|rest| - |r| - 1];
    }
  }

  /** The base name is the last element of the path. */
  lemma {:induction false} BaseNameIsLast(path: string)
    ensures LastElement(path, BaseName(path))
    decreases |path|
  {
    match Cut(path, '/')
    case None =>
      assert path[0..] == path;
    case Some((before, rest)) =>
      BaseNameIsLast(rest);
      LastElementAfterSlash(before, rest, BaseName(rest));
  }

  /** The placeholder dictionary of one run: markers, values and the order Go visits them in. */
  datatype Dictionary = Dictionary(prefix: string, suffix: string, params: map<string, string>, order: seq<string>) {
    predicate Valid() {
      IsIterationOrder(order, params.Keys)
    }

    function Apply(s: string): string
      requires Valid()
    {
      Substitute(s, prefix, suffix, params, order)
    }
  }

  /** What the console receives during a run. */
  datatype Event =
    | Updating(path: string)
    | Renaming(from: string, to: string)
    | UnableToProcess(path: string)
    | UnableToRename(path: string)
    | Fatal(reason: string)

  /** The paths whose reads, writes or renames the operating system refuses. */
  datatype Faults = Faults(unreadable: set<string>, unwritable: set<string>, unrenamable: set<string>)

  /** `path` is `dir` or lies beneath it. */
  predicate Under(path: string, dir: string) {
    path == dir || HasPrefix(path, dir + "/")
  }

  /** The tree after `from` and everything beneath it moved to `to`. */
  function Moved(tree: map<string, Node>, from: string, to: string): (r: map<string, Node>)
  {
    var kept := set p | p in tree && !Under(p, from) && !Under(p, to);
    var moved := set p | p in tree && Under(p, from) :: to + p[|from|..];
    MovedSources(tree, from, to);
    map q | q in kept + moved ::
      if q in moved then tree[from + q[|to|..]] else tree[q]
  }

  lemma MovedSources(tree: map<string, Node>, from: string, to: string)
    ensures forall p | p in tree && Under(p, from) :: from + (to + p[|from|..])[|to|..] == p
  {
    forall p | p in tree && Under(p, from)
      ensures from + (to + p[|from|..])[|to|..] == p
    {
      assert (to + p[|from|..])[|to|..] == p[|from|..];
      assert p[..|from|] == from;
      assert p[..|from|] + p[|from|..] == p;
    }
  }

  /** What `ioutil.ReadFile` returns. */
  function Contents(tree: map<string, Node>, faults: Faults, path: string): (r: Result<string>)
    ensures r.Ok? <==> path in tree && tree[path].File? && path !in faults.unreadable
    ensures r.Ok? ==> r.value == tree[path].content
  {
    if path in tree && tree[path].File? && path !in faults.unreadable then Ok(tree[path].content)
    else Err("unable to read " + path)
  }

  /** Whether `ioutil.WriteFile` succeeds: it creates or truncates a regular file. */
  predicate Writable(tree: map<string, Node>, faults: Faults, path: string) {
    (path !in tree || tree[path].File?) && path !in faults.unwritable
  }

  /**
    `replace`: the new tree, whether the file changed, and the I/O error if any. The file
    is written, and true returned, exactly when substitution changes its content.
   */
  function Rewrite(tree: map<string, Node>, faults: Faults, path: string, dict: Dictionary)
    : (r: (map<string, Node>, bool, Option<string>))
    requires dict.Valid()
  {
    match Contents(tree, faults, path)
    case Err(e) => (tree, false, Some(e))
    case Ok(input) =>
      var output := dict.Apply(input);
      if input == output then (tree, false, None)
      else if !Writable(tree, faults, path) then (tree, false, Some("unable to write " + path))
      else (tree[path := File(output)], true, None)
  }

  /** The walk's running state: the tree, the renames scheduled, the console and the error that stopped it. */
  datatype WalkState = WalkState(tree: map<string, Node>, renames: seq<string>, log: seq<Event>, failure: Option<string>)

  /** The walk callback applied to one visited path. */
  function Visit(st: WalkState, path: string, dict: Dictionary, faults: Faults): WalkState
    requires dict.Valid()
  {
    if path !in st.tree then st.(log := st.log + [UnableToProcess(path)])
    else if IsSkipped(path) then st
    else
      var name := BaseName(path);
      var renames := if dict.Apply(name) != name then st.renames + [path] else st.renames;
      if st.tree[path].Dir? then st.(renames := renames)
      else
        var (tree, ok, err) := Rewrite(st.tree, faults, path, dict);
        if err.Some? then st.(renames := renames, failure := err)
        else st.(tree := tree, renames := renames, log := if ok then st.log + [Updating(path)] else st.log)
  }

  /** The walk over `visits`, in order, stopping at the first error the callback returns. */
  function Walk(st: WalkState, visits: seq<string>, dict: Dictionary, faults: Faults): WalkState
    requires dict.Valid()
    decreases |visits|
  {
    if visits == [] || st.failure.Some? then st
    else Walk(Visit(st, visits[0], dict, faults), visits[1..], dict, faults)
  }

  /** One deferred rename: the target is the substitution applied to the whole path. */
  function RenameOne(tree: map<string, Node>, log: seq<Event>, path: string, dict: Dictionary, faults: Faults)
    : (map<string, Node>, seq<Event>)
    requires dict.Valid()
  {
    var target := dict.Apply(path);
    var log := log + [Renaming(path, target)];
    if path !in tree || path in faults.unrenamable then (tree, log + [UnableToRename(path)])
    else (Moved(tree, path, target), log)
  }

  /** The rename pass: every scheduled rename is attempted, in order, whatever fails. */
  function RenameAll(tree: map<string, Node>, log: seq<Event>, renames: seq<string>, dict: Dictionary, faults: Faults)
    : (map<string, Node>, seq<Event>)
    requires dict.Valid()
    decreases |renames|
  {
    if renames == [] then (tree, log)
    else
      var (tree', log') := RenameOne(tree, log, renames[0], dict, faults);
      RenameAll(tree', log', renames[1..], dict, faults)
  }

  /** The tree and console after a whole run. */
  function Outcome(tree: map<string, Node>, faults: Faults, visits: seq<string>, dict: Dictionary)
    : (map<string, Node>, seq<Event>)
    requires dict.Valid()
  {
    var walked := Walk(WalkState(tree, [], [], None), visits, dict, faults);
    var (tree', log) := RenameAll(walked.tree, walked.log, walked.renames, dict, faults);
    if walked.failure.Some? then (tree', log + [Fatal(walked.failure.value)]) else (tree', log)
  }

  /** The working directory, and the operations of package `os` the tool calls on it. */
  class Disk {
    var tree: map<string, Node>
    const faults: Faults

    constructor (tree: map<string, Node>, faults: Faults)
      ensures this.tree == tree && this.faults == faults
    {
      this.tree := tree;
      this.faults := faults;
    }

    method ReadFile(path: string) returns (r: Result<string>)
      ensures r == Contents(tree, faults, path)
    {
      if path in tree && tree[path].File? && path !in faults.unreadable {
        r := Ok(tree[path].content);
      } else {
        r := Err("unable to read " + path);
      }
    }

    method WriteFile(path: string, data: string) returns (err: Option<string>)
      modifies this
      ensures Writable(old(tree), faults, path) ==> err.None? && tree == old(tree)[path := File(data)]
      ensures !Writable(old(tree), faults, path) ==> err == Some("unable to write " + path) && tree == old(tree)
    {
      if Writable(tree, faults, path) {
        tree := tree[path := File(data)];
        err := None;
      } else {
        err := Some("unable to write " + path);
      }
    }

    method Rename(from: string, to: string) returns (err: Option<string>)
      modifies this
      ensures from in old(tree) && from !in faults.unrenamable ==> err.None? && tree == Moved(old(tree), from, to)
      ensures !(from in old(tree) && from !in faults.unrenamable) ==> err.Some? && tree == old(tree)
    {
      if from in tree && from !in faults.unrenamable {
        tree := Moved(tree, from, to);
        err := None;
      } else {
        err := Some("unable to rename " + from);
      }
    }
  }

  /** `replace`: read the file, substitute every marker, write it back only when it changed. */
  method Replace(disk: Disk, path: string, dict: Dictionary) returns (ok: bool, err: Option<string>)
    requires dict.Valid()
    modifies disk
    ensures (disk.tree, ok, err) == Rewrite(old(disk.tree), disk.faults, path, dict)
  {
    var read := disk.ReadFile(path);
    if read.Err? {
      return false, Some(read.error);
    }
    var input := read.value;
    var output := input;
    for i := 0 to |dict.order|
      invariant Substitute(output, dict.prefix, dict.suffix, dict.params, dict.order[i..]) == dict.Apply(input)
    {
      assert dict.order[i..][1..] == dict.order[i + 1..];
      output := ReplaceAll(output, Marker(dict.prefix, dict.suffix, dict.order[i]), dict.params[dict.order[i]]);
    }
    if input == output {
      return false, None;
    }
    err := disk.WriteFile(path, output);
    ok := err.None?;
  }

  /** The callback `filepath.Walk` calls for one path; `path !in disk.tree` is the error it is handed. */
  method VisitPath(disk: Disk, path: string, dict: Dictionary, renames: seq<string>, log: seq<Event>)
    returns (renames': seq<string>, log': seq<Event>, err: Option<string>)
    requires dict.Valid()
    modifies disk
    ensures WalkState(disk.tree, renames', log', err) == Visit(WalkState(old(disk.tree), renames, log, None), path, dict, disk.faults)
  {
    renames', log', err := renames, log, None;
    if path !in disk.tree {
      log' := log + [UnableToProcess(path)];
      return;
    }
    for i := 0 to |Skips|
      invariant forall j :: 0 <= j < i ==> !HasPrefix(path, Skips[j])
    {
      if HasPrefix(path, Skips[i]) {
        assert IsSkipped(path);
        return;
      }
    }
    assert !IsSkipped(path);
    ghost var tree0 := disk.tree;
    var name := BaseName(path);
    var renamed := Placeholders.Rename(name, dict.prefix, dict.suffix, dict.params, dict.order);
    if renamed != name {
      renames' := renames + [path];
    }
    if disk.tree[path].Dir? {
      return;
    }
    var ok;
    ok, err := Replace(disk, path, dict);
    assert (disk.tree, ok, err) == Rewrite(tree0, disk.faults, path, dict);
    if err == None && ok {
      log' := log + [Updating(path)];
    }
  }

  /**
    `main` of the replace tool after the variables are read: the walk over `visits` (the
    paths in the order `filepath.Walk` produces them), then the deferred renames, then the
    fatal report of the walk's error if there was one.
   */
  method Run(disk: Disk, visits: seq<string>, dict: Dictionary) returns (log: seq<Event>)
    requires dict.Valid()
    modifies disk
    ensures (disk.tree, log) == Outcome(old(disk.tree), disk.faults, visits, dict)
  {
    ghost var start := WalkState(disk.tree, [], [], None);
    var renames: seq<string> := [];
    var failure: Option<string> := None;
    log := [];
    var i := 0;
    while i < |visits| && failure.None?
      invariant 0 <= i <= |visits|
      invariant Walk(WalkState(disk.tree, renames, log, failure), visits[i..], dict, disk.faults)
             == Walk(start, visits, dict, disk.faults)
    {
      renames, log, failure := VisitPath(disk, visits[i], dict, renames, log);
      i := i + 1;
    }
    ghost var walked := WalkState(disk.tree, renames, log, failure);
    assert walked == Walk(start, visits, dict, disk.faults);
    for j := 0 to |renames|
      invariant RenameAll(disk.tree, log, renames[j..], dict, disk.faults)
             == RenameAll(walked.tree, walked.log, renames, dict, disk.faults)
    {
      var path := renames[j];
      var renamed := Placeholders.Rename(path, dict.prefix, dict.suffix, dict.params, dict.order);
      log := log + [Renaming(path, renamed)];
      var err := disk.Rename(path, renamed);
      if err.Some? {
        log := log + [UnableToRename(path)];
      }
      assert renames[j..][1..] == renames[j + 1..];
    }
    if failure.Some? {
      log := log + [Fatal(failure.value)];
    }
  }

  /** The walk schedules `path` for renaming: it exists, is not skipped, and its name has a marker to substitute. */
  predicate Scheduled(tree: map<string, Node>, path: string, dict: Dictionary)
    requires dict.Valid()
  {
    path in tree && !IsSkipped(path) && dict.Apply(BaseName(path)) != BaseName(path)
  }

  predicate NoFatal(log: seq<Event>) {
    forall e | e in log :: !e.Fatal?
  }

  /** `replace` changes the tree only by writing the substituted content, and says so. */
  lemma RewriteFacts(tree: map<string, Node>, faults: Faults, path: string, dict: Dictionary)
    requires dict.Valid()
    ensures var (tree', ok, err) := Rewrite(tree, faults, path, dict);
      && (ok <==> tree' != tree)
      && (ok ==> err.None?)
      && (tree' != tree ==> path in tree && tree[path].File? && tree[path].content != dict.Apply(tree[path].content)
                            && tree' == tree[path := File(dict.Apply(tree[path].content))])
      && (path in tree && tree[path].File? && path !in faults.unreadable && path !in faults.unwritable ==>
            var c := tree[path].content;
            tree' == tree[path := File(dict.Apply(c))] && (ok <==> dict.Apply(c) != c) && err.None?)
  {
    var (tree', ok, err) := Rewrite(tree, faults, path, dict);
    if ok {
      assert tree'[path] != tree[path];
    }
    if path in tree && tree[path].File? && dict.Apply(tree[path].content) == tree[path].content {
      assert tree[path := File(tree[path].content)] == tree;
    }
  }

  /** One visit touches only the visited path, and only in the ways the callback allows. */
  lemma VisitFacts(st: WalkState, path: string, dict: Dictionary, faults: Faults)
    requires dict.Valid() && st.failure.None?
    ensures var v := Visit(st, path, dict, faults);
      && v.tree.Keys == st.tree.Keys
      && (forall q | q in st.tree && q != path :: v.tree[q] == st.tree[q])
      && (path in st.tree && v.tree[path] != st.tree[path] ==>
            !IsSkipped(path) && st.tree[path].File? && v.tree[path] == File(dict.Apply(st.tree[path].content)))
      && (path in st.tree && !IsSkipped(path) && st.tree[path].File? && v.failure.None? ==>
            v.tree[path] == File(dict.Apply(st.tree[path].content)))
      && v.failure == (if path in st.tree && !IsSkipped(path) && st.tree[path].File?
                       then Rewrite(st.tree, faults, path, dict).2 else None)
      && (v.renames == st.renames || (v.renames == st.renames + [path] && Scheduled(st.tree, path, dict)))
      && (Scheduled(st.tree, path, dict) && v.failure.None? ==> v.renames == st.renames + [path])
      && (path !in st.tree ==> v.log == st.log + [UnableToProcess(path)])
      && (path in st.tree ==> v.log == if v.tree[path] != st.tree[path] then st.log + [Updating(path)] else st.log)
  {
    if path in st.tree && !IsSkipped(path) && st.tree[path].File? {
      RewriteFacts(st.tree, faults, path, dict);
      var (tree', ok, err) := Rewrite(st.tree, faults, path, dict);
      var v := Visit(st, path, dict, faults);
      if err.Some? {
        assert v.tree == st.tree;
      } else {
        assert v.tree == tree';
        assert ok <==> v.tree[path] != st.tree[path];
        if !ok {
          assert dict.Apply(st.tree[path].content) == st.tree[path].content;
        }
      }
    }
  }

  /** The tail of `a` from `m` on, when `a` extends `b` and `m` falls inside `b`. */
  lemma SliceAfterPrefix<T>(a: seq<T>, b: seq<T>, m: nat)
    requires m <= |b| <= |a| && a[..|b|] == b
    ensures a[m..] == b[m..] + a[|b|..]
  {
    assert a[m..] == a[m..|b|] + a[|b|..];
  }

  /** The walk keeps the set of paths, and only ever extends the renames and the console. */
  lemma {:induction false} WalkFrame(st: WalkState, visits: seq<string>, dict: Dictionary, faults: Faults)
    requires dict.Valid()
    ensures var w := Walk(st, visits, dict, faults);
      && w.tree.Keys == st.tree.Keys
      && |st.renames| <= |w.renames| && w.renames[..|st.renames|] == st.renames
      && |st.log| <= |w.log| && w.log[..|st.log|] == st.log
      && (NoFatal(st.log) ==> NoFatal(w.log))
    decreases |visits|
  {
    if visits != [] && st.failure.None? {
      var v := Visit(st, visits[0], dict, faults);
      VisitFacts(st, visits[0], dict, faults);
      WalkFrame(v, visits[1..], dict, faults);
      var w := Walk(v, visits[1..], dict, faults);
      assert w.renames[..|st.renames|] == w.renames[..|v.renames|][..|st.renames|];
      assert w.log[..|st.log|] == w.log[..|v.log|][..|st.log|];
    }
  }

  /**
    Over paths visited once each, a path's entry changes only when it is a visited,
    non-skipped regular file whose content substitution changes, and it then holds the
    substituted content; and a walk that ends without error leaves every visited,
    non-skipped regular file holding its substituted content.
   */
  lemma {:induction false} WalkRewrites(st: WalkState, visits: seq<string>, dict: Dictionary, faults: Faults, p: string)
    requires dict.Valid() && st.failure.None?
    requires forall i, j :: 0 <= i < j < |visits| ==> visits[i] != visits[j]
    requires p in st.tree
    ensures var w := Walk(st, visits, dict, faults);
      && p in w.tree
      && (w.tree[p] != st.tree[p] ==>
            p in visits && !IsSkipped(p) && st.tree[p].File? && w.tree[p] == File(dict.Apply(st.tree[p].content)))
      && (w.failure.None? && p in visits && !IsSkipped(p) && st.tree[p].File? ==>
            w.tree[p] == File(dict.Apply(st.tree[p].content)))
    decreases |visits|
  {
    WalkFrame(st, visits, dict, faults);
    if visits != [] {
      var v := Visit(st, visits[0], dict, faults);
      VisitFacts(st, visits[0], dict, faults);
      if v.failure.None? {
        WalkRewrites(v, visits[1..], dict, faults, p);
        if p == visits[0] {
          assert p !in visits[1..];
        } else {
          assert p in visits ==> p in visits[1..];
        }
      }
    }
  }

  /** Over paths visited once each, the console shows `Updating` for exactly the paths whose entry changed. */
  lemma {:induction false} WalkReportsUpdates(st: WalkState, visits: seq<string>, dict: Dictionary, faults: Faults, p: string)
    requires dict.Valid() && st.failure.None?
    requires forall i, j :: 0 <= i < j < |visits| ==> visits[i] != visits[j]
    requires p in st.tree
    ensures var w := Walk(st, visits, dict, faults);
      && p in w.tree && |st.log| <= |w.log|
      && (Updating(p) in w.log[|st.log|..] <==> w.tree[p] != st.tree[p])
    decreases |visits|
  {
    WalkFrame(st, visits, dict, faults);
    if visits != [] {
      var v := Visit(st, visits[0], dict, faults);
      VisitFacts(st, visits[0], dict, faults);
      if v.failure.None? {
        WalkReportsUpdates(v, visits[1..], dict, faults, p);
        WalkFrame(v, visits[1..], dict, faults);
        var w := Walk(v, visits[1..], dict, faults);
        SliceAfterPrefix(w.log, v.log, |st.log|);
        if p == visits[0] {
          assert p !in visits[1..];
          WalkRewrites(v, visits[1..], dict, faults, p);
          assert w.tree[p] == v.tree[p];
          assert Updating(p) !in w.log[|v.log|..];
        } else {
          assert Updating(p) !in v.log[|st.log|..];
          assert v.tree[p] == st.tree[p];
        }
      }
    }
  }

  /** The walk schedules only existing, non-skipped paths whose base name substitution changes. */
  lemma {:induction false} WalkSchedulesOnly(st: WalkState, visits: seq<string>, dict: Dictionary, faults: Faults, p: string)
    requires dict.Valid() && st.failure.None?
    ensures var w := Walk(st, visits, dict, faults);
      && |st.renames| <= |w.renames|
      && (p in w.renames[|st.renames|..] ==> p in visits && Scheduled(st.tree, p, dict))
    decreases |visits|
  {
    WalkFrame(st, visits, dict, faults);
    if visits != [] {
      var v := Visit(st, visits[0], dict, faults);
      VisitFacts(st, visits[0], dict, faults);
      var w := Walk(v, visits[1..], dict, faults);
      if v.failure.None? {
        WalkSchedulesOnly(v, visits[1..], dict, faults, p);
        WalkFrame(v, visits[1..], dict, faults);
        SliceAfterPrefix(w.renames, v.renames, |st.renames|);
        assert Scheduled(st.tree, p, dict) == Scheduled(v.tree, p, dict);
      } else {
        assert w.renames[|st.renames|..] == v.renames[|st.renames|..];
      }
    }
  }

  /** A walk that ends without error has scheduled every existing, non-skipped visited path whose base name changes. */
  lemma {:induction false} WalkSchedulesAll(st: WalkState, visits: seq<string>, dict: Dictionary, faults: Faults, p: string)
    requires dict.Valid() && st.failure.None?
    ensures var w := Walk(st, visits, dict, faults);
      && |st.renames| <= |w.renames|
      && (w.failure.None? && p in visits && Scheduled(st.tree, p, dict) ==> p in w.renames[|st.renames|..])
    decreases |visits|
  {
    WalkFrame(st, visits, dict, faults);
    if visits != [] {
      var v := Visit(st, visits[0], dict, faults);
      VisitFacts(st, visits[0], dict, faults);
      var w := Walk(v, visits[1..], dict, faults);
      if v.failure.None? {
        WalkSchedulesAll(v, visits[1..], dict, faults, p);
        WalkFrame(v, visits[1..], dict, faults);
        SliceAfterPrefix(w.renames, v.renames, |st.renames|);
        assert Scheduled(st.tree, p, dict) == Scheduled(v.tree, p, dict);
      }
    }
  }

  /**
    A path the walk hands over with an error is reported on the console, and the walk goes
    on: the visit adds the report and changes nothing else. Unless an earlier `replace`
    stopped the walk, the report is in the console.
   */
  lemma {:induction false} WalkReportsMissing(st: WalkState, visits: seq<string>, dict: Dictionary, faults: Faults, p: string)
    requires dict.Valid() && st.failure.None?
    requires p in visits && p !in st.tree
    ensures Visit(st, p, dict, faults) == st.(log := st.log + [UnableToProcess(p)])
    ensures var w := Walk(st, visits, dict, faults);
      w.failure.None? ==> UnableToProcess(p) in w.log
    ensures (forall i | 0 <= i < |visits| :: Harmless(st.tree, faults, visits[i], dict)) ==>
      UnableToProcess(p) in Walk(st, visits, dict, faults).log
    decreases |visits|
  {
    if forall i | 0 <= i < |visits| :: Harmless(st.tree, faults, visits[i], dict) {
      WalkCompletes(st, visits, dict, faults);
    }
    var v := Visit(st, visits[0], dict, faults);
    VisitFacts(st, visits[0], dict, faults);
    WalkFrame(v, visits[1..], dict, faults);
    var w := Walk(v, visits[1..], dict, faults);
    if visits[0] == p {
      assert v.log[|v.log| - 1] == UnableToProcess(p);
      assert w.log[|v.log| - 1] == v.log[|v.log| - 1];
    } else if v.failure.None? {
      WalkReportsMissing(v, visits[1..], dict, faults, p);
    }
  }

  /** The visit of `path` fails: it is an existing, non-skipped regular file whose `replace` returned an error. */
  predicate ReplaceFails(st: WalkState, path: string, dict: Dictionary, faults: Faults)
    requires dict.Valid()
  {
    && path in st.tree && !IsSkipped(path) && st.tree[path].File?
    && Rewrite(st.tree, faults, path, dict).2.Some?
    && Visit(st, path, dict, faults).failure == Rewrite(st.tree, faults, path, dict).2
  }

  /**
    The walk over `visits` stops at its `i`-th visit: the visits before it succeeded, the
    `i`-th failed in `replace`, and the walk's final state is the one that visit left.
   */
  predicate StopsAt(st: WalkState, visits: seq<string>, i: nat, dict: Dictionary, faults: Faults)
    requires dict.Valid() && i < |visits|
  {
    var before := Walk(st, visits[..i], dict, faults);
    && before.failure.None?
    && ReplaceFails(before, visits[i], dict, faults)
    && Walk(st, visits, dict, faults) == Visit(before, visits[i], dict, faults)
  }

  /** A stop in the walk after the first visit is a stop of the whole walk, one visit later. */
  lemma StopsAtStep(st: WalkState, visits: seq<string>, i: nat, dict: Dictionary, faults: Faults)
    requires dict.Valid() && st.failure.None? && 0 < |visits| && i < |visits| - 1
    requires Visit(st, visits[0], dict, faults).failure.None?
    requires StopsAt(Visit(st, visits[0], dict, faults), visits[1..], i, dict, faults)
    ensures StopsAt(st, visits, i + 1, dict, faults)
  {
    var v := Visit(st, visits[0], dict, faults);
    assert visits[..i + 1][1..] == visits[1..][..i];
    assert visits[1..][i] == visits[i + 1];
    assert Walk(st, visits[..i + 1], dict, faults) == Walk(v, visits[1..][..i], dict, faults);
  }

  /**
    Only an error from `replace` stops the walk, and it stops it: the visit that failed is
    the last one, and it was the visit of a regular file whose read or write failed.
   */
  lemma {:induction false} WalkStops(st: WalkState, visits: seq<string>, dict: Dictionary, faults: Faults)
    requires dict.Valid() && st.failure.None?
    ensures Walk(st, visits, dict, faults).failure.Some? ==>
      exists i: nat :: i < |visits| && StopsAt(st, visits, i, dict, faults)
    decreases |visits|
  {
    if visits != [] {
      var v := Visit(st, visits[0], dict, faults);
      VisitFacts(st, visits[0], dict, faults);
      if v.failure.Some? {
        assert visits[..0] == [];
        assert StopsAt(st, visits, 0, dict, faults);
      } else {
        WalkStops(v, visits[1..], dict, faults);
        if Walk(v, visits[1..], dict, faults).failure.Some? {
          var i: nat :| i < |visits[1..]| && StopsAt(v, visits[1..], i, dict, faults);
          StopsAtStep(st, visits, i, dict, faults);
        }
      }
    }
  }

  /** Neither reading nor writing back the file at `path` can fail, should the walk rewrite it. */
  predicate Harmless(tree: map<string, Node>, faults: Faults, path: string, dict: Dictionary)
    requires dict.Valid()
  {
    path in tree && !IsSkipped(path) && tree[path].File? ==>
      path !in faults.unreadable && (dict.Apply(tree[path].content) != tree[path].content ==> path !in faults.unwritable)
  }

  /**
    Missing paths, directories and skipped paths never stop the walk: when every visited
    regular file can be read, and written back where its content changes, the walk ends
    without error.
   */
  lemma {:induction false} WalkCompletes(st: WalkState, visits: seq<string>, dict: Dictionary, faults: Faults)
    requires dict.Valid() && st.failure.None?
    requires forall i | 0 <= i < |visits| :: Harmless(st.tree, faults, visits[i], dict)
    ensures Walk(st, visits, dict, faults).failure.None?
    decreases |visits|
  {
    if visits != [] {
      var v := Visit(st, visits[0], dict, faults);
      VisitFacts(st, visits[0], dict, faults);
      RewriteFacts(st.tree, faults, visits[0], dict);
      forall i | 1 <= i < |visits|
        ensures Harmless(v.tree, faults, visits[i], dict)
      {
        assert Harmless(st.tree, faults, visits[i], dict);
        if visits[i] in st.tree && v.tree[visits[i]] != st.tree[visits[i]] {
          assert visits[i] == visits[0];
        }
      }
      WalkCompletes(v, visits[1..], dict, faults);
    }
  }

  /** The rename pass reports every scheduled rename, in order, and keeps what the console already showed. */
  lemma {:induction false} RenameAllReports(tree: map<string, Node>, log: seq<Event>, renames: seq<string>, dict: Dictionary, faults: Faults)
    requires dict.Valid()
    ensures var (_, log') := RenameAll(tree, log, renames, dict, faults);
      && |log| <= |log'| && log'[..|log|] == log
      && (forall k :: 0 <= k < |renames| ==> Renaming(renames[k], dict.Apply(renames[k])) in log'[|log|..])
      && (NoFatal(log) ==> NoFatal(log'))
    decreases |renames|
  {
    if renames != [] {
      var (tree1, log1) := RenameOne(tree, log, renames[0], dict, faults);
      RenameAllReports(tree1, log1, renames[1..], dict, faults);
      var (_, log') := RenameAll(tree1, log1, renames[1..], dict, faults);
      assert log1[|log|] == Renaming(renames[0], dict.Apply(renames[0]));
      assert log'[..|log|] == log'[..|log1|][..|log|];
      SliceAfterPrefix(log', log1, |log|);
      forall k | 1 <= k < |renames|
        ensures Renaming(renames[k], dict.Apply(renames[k])) in log'[|log|..]
      {
        assert renames[k] == renames[1..][k - 1];
      }
    }
  }

  /** Every path below the moved directory's old name, and not below its new one, is gone after the move. */
  lemma MovedAway(tree: map<string, Node>, from: string, to: string, q: string)
    requires Under(q, from) && !Under(q, to)
    ensures q !in Moved(tree, from, to)
  {
    forall p | p in tree && Under(p, from)
      ensures Under(to + p[|from|..], to)
    {
      if p != from {
        assert (to + p[|from|..])[..|to + "/"|] == to + p[|from|..|from| + 1];
        assert p[|from|..|from| + 1] == "/";
      } else {
        assert to + p[|from|..] == to;
      }
    }
  }

  /**
    The consequence of computing each deferred target from the whole old path: once a
    directory has been renamed, renaming a path beneath it that also carries a marker
    fails and is reported, because that path no longer exists.
   */
  lemma NestedRenameFails(tree: map<string, Node>, log: seq<Event>, dir: string, q: string, dict: Dictionary, faults: Faults)
    requires dict.Valid()
    requires dir in tree && dir !in faults.unrenamable
    requires Under(q, dir) && !Under(q, dict.Apply(dir))
    ensures RenameAll(tree, log, [dir, q], dict, faults).1
         == log + [Renaming(dir, dict.Apply(dir)), Renaming(q, dict.Apply(q)), UnableToRename(q)]
  {
    var target := dict.Apply(dir);
    MovedAway(tree, dir, target, q);
    var log1 := log + [Renaming(dir, target)];
    assert RenameOne(tree, log, dir, dict, faults) == (Moved(tree, dir, target), log1);
    assert [dir, q][1..] == [q];
    assert RenameOne(Moved(tree, dir, target), log1, q, dict, faults)
        == (Moved(tree, dir, target), log1 + [Renaming(q, dict.Apply(q))] + [UnableToRename(q)]);
    assert RenameAll(tree, log, [dir, q], dict, faults) == RenameAll(Moved(tree, dir, target), log1, [q], dict, faults);
    assert RenameAll(Moved(tree, dir, target), log1, [q], dict, faults)
        == (Moved(tree, dir, target), log1 + [Renaming(q, dict.Apply(q))] + [UnableToRename(q)]);
  }

  /**
    A whole run: every scheduled rename is attempted and reported even when the walk
    failed, and the console ends with a fatal report exactly when the walk failed.
   */
  lemma RunReports(tree: map<string, Node>, faults: Faults, visits: seq<string>, dict: Dictionary)
    requires dict.Valid()
    ensures var w := Walk(WalkState(tree, [], [], None), visits, dict, faults);
      var log := Outcome(tree, faults, visits, dict).1;
      && (forall k :: 0 <= k < |w.renames| ==> Renaming(w.renames[k], dict.Apply(w.renames[k])) in log)
      && (w.failure.Some? <==> exists e | e in log :: e.Fatal?)
      && (w.failure.Some? ==> log[|log| - 1] == Fatal(w.failure.value))
  {
    var st := WalkState(tree, [], [], None);
    var w := Walk(st, visits, dict, faults);
    WalkFrame(st, visits, dict, faults);
    RenameAllReports(w.tree, w.log, w.renames, dict, faults);
    var log := RenameAll(w.tree, w.log, w.renames, dict, faults).1;
    forall k | 0 <= k < |w.renames|
      ensures Renaming(w.renames[k], dict.Apply(w.renames[k])) in log
    {
      var e := Renaming(w.renames[k], dict.Apply(w.renames[k]));
      var i :| 0 <= i < |log[|w.log|..]| && log[|w.log|..][i] == e;
      assert log[|w.log| + i] == e;
    }
    if w.failure.Some? {
      assert (log + [Fatal(w.failure.value)])[|log|] == Fatal(w.failure.value);
    }
  }
}
