/**
 * run-cluster.py: after the local checks and the roster gate, build one compound shell command
 * per instance (create the base directory, copy the support files and the script, make the
 * script executable, start it with its output sent to a log) and launch it in the background.
 */
module RunCluster {
  import opened Basics
  import opened Text
  import opened Roster
  import opened Shell

  /** `files` is `None` when `--files` was not given. */
  datatype RunArgs = RunArgs(key: string, neighbors: string, files: Option<seq<string>>, script: string,
                             basePath: string)

  /** The support files, with a missing list read as the empty one. */
  function SupportFiles(args: RunArgs): seq<string> {
    if args.files.None? then [] else args.files.value
  }

  /** Index of the first path that is not a regular file, or `|paths|` when all are. */
  function FirstMissing(paths: seq<string>, files: map<string, string>): (i: nat)
    ensures i <= |paths|
    ensures forall j :: 0 <= j < i ==> paths[j] in files
    ensures i < |paths| ==> paths[i] !in files
  {
    if paths == [] then 0
    else if paths[0] !in files then 0
    else 1 + FirstMissing(paths[1..], files)
  }

  /** `parse_file_path`: the path itself and the name after its last slash; `None` where `rsplit` raises. */
  function ParseFilePath(path: string): (r: Option<(string, string)>)
    ensures r.None? <==> '/' !in path
    ensures r.Some? ==> r.value.0 == path && '/' !in r.value.1
    ensures r.Some? ==> |r.value.1| < |path| && path == path[..|path| - |r.value.1| - 1] + "/" + r.value.1
  {
    match AfterLastSlash(path)
    case None => None
    case Some(name) =>
      assert path == path[..|path| - |name| - 1] + "/" + name;
      Some((path, name))
  }

  function LogPath(basePath: string): string {
    PathJoin(basePath, "run.log")
  }

  /**
   * The steps of one node's command, in order: create the base directory, copy each support
   * file, copy the script, make it executable, run it with all output sent to the log.
   */
  function NodeSteps(key: string, url: string, basePath: string, files: seq<string>, fullPath: string,
                     remoteFile: string): (steps: seq<string>)
    ensures |steps| == |files| + 4
    ensures steps[0] == Ssh(key, url, "mkdir -p " + basePath)
    ensures forall j :: 0 <= j < |files| ==> steps[1 + j] == Scp(key, files[j], Remote(url, basePath))
    ensures steps[|files| + 1] == Scp(key, fullPath, Remote(url, basePath))
    ensures steps[|files| + 2] == Ssh(key, url, "sudo chmod u+x " + remoteFile)
    ensures steps[|files| + 3] == Ssh(key, url, remoteFile + " > " + LogPath(basePath) + " 2>&1 < /dev/null")
  {
    [Ssh(key, url, "mkdir -p " + basePath)]
    + seq(|files|, j requires 0 <= j < |files| => Scp(key, files[j], Remote(url, basePath)))
    + [Scp(key, fullPath, Remote(url, basePath)),
       Ssh(key, url, "sudo chmod u+x " + remoteFile),
       Ssh(key, url, remoteFile + " > " + LogPath(basePath) + " 2>&1 < /dev/null")]
  }

  /** The node's command: its steps separated by `"; "`. */
  function NodeCommandText(key: string, url: string, basePath: string, files: seq<string>, fullPath: string,
                           remoteFile: string): string {
    Join(NodeSteps(key, url, basePath, files, fullPath, remoteFile), "; ")
  }

  /** `"({}) &"`: the command run in a background subshell. */
  function InBackground(command: string): string {
    "(" + command + ") &"
  }

  /** Appending `" " + step + ";"` to a command that ends in `";"` adds one `"; "`-separated step. */
  lemma AppendStep(command: string, prefix: seq<string>, step: string)
    requires prefix != [] && command == Join(prefix, "; ") + ";"
    ensures command + " " + step + ";" == Join(prefix + [step], "; ") + ";"
  {
    JoinSnoc(prefix, step, "; ");
    assert ";" + " " == "; ";
  }

  /** The same for the last step, which gets no `";"` after it. */
  lemma AppendLastStep(command: string, prefix: seq<string>, step: string)
    requires prefix != [] && command == Join(prefix, "; ") + ";"
    ensures command + " " + step == Join(prefix + [step], "; ")
  {
    JoinSnoc(prefix, step, "; ");
    assert ";" + " " == "; ";
  }

  /** The per-instance `command += ...` sequence. */
  method NodeCommand(key: string, url: string, basePath: string, files: seq<string>, fullPath: string,
                     remoteFile: string)
    returns (command: string)
    ensures command == NodeCommandText(key, url, basePath, files, fullPath, remoteFile)
  {
    ghost var steps := NodeSteps(key, url, basePath, files, fullPath, remoteFile);
    command := Ssh(key, url, "mkdir -p " + basePath) + ";";
    assert steps[..1] == [steps[0]];
    command := AppendCopies(key, url, basePath, files, fullPath, remoteFile, command);
    PrefixSnoc(steps, |files| + 1);
    AppendStep(command, steps[..|files| + 1], Scp(key, fullPath, Remote(url, basePath)));
    command := command + " " + Scp(key, fullPath, Remote(url, basePath)) + ";";
    PrefixSnoc(steps, |files| + 2);
    AppendStep(command, steps[..|files| + 2], Ssh(key, url, "sudo chmod u+x " + remoteFile));
    command := command + " " + Ssh(key, url, "sudo chmod u+x " + remoteFile) + ";";
    PrefixSnoc(steps, |files| + 3);
    assert steps[..|files| + 4] == steps;
    AppendLastStep(command, steps[..|files| + 3], Ssh(key, url, remoteFile + " > " + LogPath(basePath) + " 2>&1 < /dev/null"));
    command := command + " " + Ssh(key, url, remoteFile + " > " + LogPath(basePath) + " 2>&1 < /dev/null");
  }

  /** The `for filepath in args["files"]` loop: one copy step per support file. */
  method AppendCopies(key: string, url: string, basePath: string, files: seq<string>, fullPath: string,
                      remoteFile: string, start: string)
    returns (command: string)
    requires start == Join(NodeSteps(key, url, basePath, files, fullPath, remoteFile)[..1], "; ") + ";"
    ensures command == Join(NodeSteps(key, url, basePath, files, fullPath, remoteFile)[..|files| + 1], "; ") + ";"
  {
    ghost var steps := NodeSteps(key, url, basePath, files, fullPath, remoteFile);
    command := start;
    var j := 0;
    while j < |files|
      invariant 0 <= j <= |files|
      invariant command == Join(steps[..1 + j], "; ") + ";"
    {
      PrefixSnoc(steps, 1 + j);
      AppendStep(command, steps[..1 + j], Scp(key, files[j], Remote(url, basePath)));
      command := command + " " + Scp(key, files[j], Remote(url, basePath)) + ";";
      j := j + 1;
    }
  }

  /** One background launch per instance, in roster order. */
  function LaunchPlan(key: string, basePath: string, files: seq<string>, fullPath: string, remoteFile: string,
                      instances: seq<string>): (plan: seq<string>)
    ensures |plan| == |instances|
    ensures forall i :: 0 <= i < |instances| ==>
      plan[i] == InBackground(NodeCommandText(key, instances[i], basePath, files, fullPath, remoteFile))
  {
    seq(|instances|, i requires 0 <= i < |instances| =>
      InBackground(NodeCommandText(key, instances[i], basePath, files, fullPath, remoteFile)))
  }

  /** Key file, roster file and every support file exist. */
  predicate LocalChecksPass(env: Env, args: RunArgs) {
    args.key in env.files && args.neighbors in env.files
    && FirstMissing(SupportFiles(args), env.files) == |SupportFiles(args)|
  }

  /** Local checks pass, the roster says ready and the script path has a slash. */
  predicate Cleared(env: Env, args: RunArgs) {
    LocalChecksPass(env, args) && RosterAt(env, args.neighbors).Some? && RosterAt(env, args.neighbors).value.ready
    && ParseFilePath(args.script).Some?
  }

  /** The launches `main` issues once cleared. */
  function RunPlan(env: Env, args: RunArgs): seq<string>
    requires Cleared(env, args)
  {
    var name := ParseFilePath(args.script).value.1;
    LaunchPlan(args.key, args.basePath, SupportFiles(args), args.script, PathJoin(args.basePath, name),
               RosterAt(env, args.neighbors).value.instances)
  }

  /** run-cluster.py `main`: the checks in their order, then one launch per instance. */
  method RunCluster(env: Env, args: RunArgs) returns (exit: Exit, issued: seq<string>)
    ensures args.key !in env.files ==> exit == MissingFile(args.key)
    ensures args.key in env.files && args.neighbors !in env.files ==> exit == MissingFile(args.neighbors)
    ensures args.key in env.files && args.neighbors in env.files ==>
      var i := FirstMissing(SupportFiles(args), env.files);
      i < |SupportFiles(args)| ==> exit == MissingFile(SupportFiles(args)[i])
    ensures LocalChecksPass(env, args) && RosterAt(env, args.neighbors).None? ==> exit == EmptyRoster
    ensures LocalChecksPass(env, args) && RosterAt(env, args.neighbors).Some? ==>
      (!RosterAt(env, args.neighbors).value.ready ==> exit == NotReady)
    ensures LocalChecksPass(env, args) && RosterAt(env, args.neighbors).Some? ==>
      (RosterAt(env, args.neighbors).value.ready && '/' !in args.script ==> exit == NoSlashInScript(args.script))
    ensures !Cleared(env, args) ==> issued == []
    ensures Cleared(env, args) ==>
      issued == Issued(RunPlan(env, args), env.failing) && exit == Outcome(RunPlan(env, args), env.failing)
  {
    issued := [];
    if args.key !in env.files {
      return MissingFile(args.key), issued;
    }
    if args.neighbors !in env.files {
      return MissingFile(args.neighbors), issued;
    }
    var files := if args.files.None? then [] else args.files.value;
    var k := 0;
    while k < |files|
      invariant 0 <= k <= |files|
      invariant forall j :: 0 <= j < k ==> files[j] in env.files
    {
      if files[k] !in env.files {
        assert FirstMissing(files, env.files) == k;
        return MissingFile(files[k]), issued;
      }
      k := k + 1;
    }
    assert FirstMissing(files, env.files) == |files|;
    var roster := ReadRoster(env.files[args.neighbors]);
    if roster.None? {
      return EmptyRoster, issued;
    }
    if !roster.value.ready {
      return NotReady, issued;
    }
    var parsed := ParseFilePath(args.script);
    if parsed.None? {
      return NoSlashInScript(args.script), issued;
    }
    var fullPath, name := parsed.value.0, parsed.value.1;
    var remoteFile := PathJoin(args.basePath, name);
    exit, issued := LaunchAll(args.key, args.basePath, files, fullPath, remoteFile, roster.value.instances,
                              env.failing);
  }

  /** The `for url in instances` loop: build each node's command and launch it with `check=True`. */
  method LaunchAll(key: string, basePath: string, files: seq<string>, fullPath: string, remoteFile: string,
                   instances: seq<string>, failing: set<string>)
    returns (exit: Exit, issued: seq<string>)
    ensures issued == Issued(LaunchPlan(key, basePath, files, fullPath, remoteFile, instances), failing)
    ensures exit == Outcome(LaunchPlan(key, basePath, files, fullPath, remoteFile, instances), failing)
  {
    ghost var plan := LaunchPlan(key, basePath, files, fullPath, remoteFile, instances);
    issued := [];
    var i := 0;
    while i < |instances|
      invariant 0 <= i <= |plan|
      invariant issued == plan[..i]
      invariant forall j :: 0 <= j < i ==> issued[j] !in failing
    {
      var command := NodeCommand(key, instances[i], basePath, files, fullPath, remoteFile);
      var launch := InBackground(command);
      assert plan[i] == launch;
      IssueNext(plan, failing, issued, launch);
      if launch in failing {
        return CommandFailed(launch), issued + [launch];
      }
      issued := issued + [launch];
      i := i + 1;
    }
    IssuedAll(plan, failing, issued);
    exit := Done;
  }

  /** The script lands in the base directory under its own name, and the log sits beside it. */
  lemma ScriptPaths(basePath: string, script: string)
    requires '/' in script
    ensures var name := ParseFilePath(script).value.1;
      var remote := PathJoin(basePath, name);
      && |basePath| <= |remote| && remote[..|basePath|] == basePath
      && remote[|remote| - |name|..] == name
      && script[|script| - |name|..] == name
  {
  }
}
