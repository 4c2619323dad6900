/**
 * send-configs.py: after the local checks and the roster gate, copy the i-th configuration
 * file to the i-th instance, all to the same remote path.
 */
module SendConfigs {
  import opened Basics
  import opened Text
  import opened Roster
  import opened Shell

  datatype SendArgs = SendArgs(key: string, neighbors: string, config: string, basePath: string)

  /** Key file, roster file and config directory all exist. */
  predicate LocalChecksPass(env: Env, args: SendArgs) {
    args.key in env.files && args.neighbors in env.files && args.config in env.dirs
  }

  /** The copy of one configuration file to one instance. */
  function CopyCommand(key: string, localPath: string, config: string, url: string, basePath: string): string {
    Scp(key, PathJoin(localPath, config), Remote(url, PathJoin(basePath, "configuration")))
  }

  /** The copies `zip(instances, configs)` asks for, in roster order. */
  function CopyPlan(key: string, localPath: string, basePath: string, instances: seq<string>, configs: seq<string>)
    : (plan: seq<string>)
    ensures |plan| == Min(|instances|, |configs|)
    ensures forall i :: 0 <= i < |plan| ==> plan[i] == CopyCommand(key, localPath, configs[i], instances[i], basePath)
  {
    seq(Min(|instances|, |configs|), i requires 0 <= i < Min(|instances|, |configs|) =>
      CopyCommand(key, localPath, configs[i], instances[i], basePath))
  }

  /** All local checks pass and the roster says ready. */
  predicate Cleared(env: Env, args: SendArgs) {
    LocalChecksPass(env, args) && RosterAt(env, args.neighbors).Some? && RosterAt(env, args.neighbors).value.ready
  }

  /**
   * send-configs.py `main`. `listing` stands for `os.listdir(args["config"])`, in whatever order
   * the operating system gives it. `mismatch` reports the count warning, after which the
   * copies go ahead anyway.
   */
  method SendConfigs(env: Env, args: SendArgs, listing: seq<string>)
    returns (exit: Exit, mismatch: bool, issued: seq<string>)
    ensures args.key !in env.files ==> exit == MissingFile(args.key)
    ensures args.key in env.files && args.neighbors !in env.files ==> exit == MissingFile(args.neighbors)
    ensures args.key in env.files && args.neighbors in env.files && args.config !in env.dirs ==>
      exit == MissingDirectory(args.config)
    ensures LocalChecksPass(env, args) && RosterAt(env, args.neighbors).None? ==> exit == EmptyRoster
    ensures LocalChecksPass(env, args) && RosterAt(env, args.neighbors).Some? ==>
      (!RosterAt(env, args.neighbors).value.ready ==> exit == NotReady)
    ensures !Cleared(env, args) ==> issued == [] && !mismatch
    ensures Cleared(env, args) ==>
      var instances := RosterAt(env, args.neighbors).value.instances;
      var plan := CopyPlan(args.key, args.config, args.basePath, instances, listing);
      && mismatch == (|listing| != |instances|)
      && issued == Issued(plan, env.failing)
      && exit == Outcome(plan, env.failing)
  {
    issued, mismatch := [], false;
    if args.key !in env.files {
      return MissingFile(args.key), mismatch, issued;
    }
    if args.neighbors !in env.files {
      return MissingFile(args.neighbors), mismatch, issued;
    }
    if args.config !in env.dirs {
      return MissingDirectory(args.config), mismatch, issued;
    }
    var roster := ReadRoster(env.files[args.neighbors]);
    if roster.None? {
      return EmptyRoster, mismatch, issued;
    }
    if !roster.value.ready {
      return NotReady, mismatch, issued;
    }
    var instances := roster.value.instances;
    mismatch := |listing| != |instances|;
    exit, issued := CopyAll(args.key, args.config, args.basePath, instances, listing, env.failing);
  }

  /** The `for instance, config in zip(...)` loop: one `scp` per pair, stopping at the first failure. */
  method CopyAll(key: string, localPath: string, basePath: string, instances: seq<string>, configs: seq<string>,
                 failing: set<string>)
    returns (exit: Exit, issued: seq<string>)
    ensures issued == Issued(CopyPlan(key, localPath, basePath, instances, configs), failing)
    ensures exit == Outcome(CopyPlan(key, localPath, basePath, instances, configs), failing)
  {
    ghost var plan := CopyPlan(key, localPath, basePath, instances, configs);
    issued := [];
    var i := 0;
    while i < |instances| && i < |configs|
      invariant 0 <= i <= |plan|
      invariant issued == plan[..i]
      invariant forall j :: 0 <= j < i ==> issued[j] !in failing
    {
      var command := CopyCommand(key, localPath, configs[i], instances[i], basePath);
      assert plan[i] == command;
      IssueNext(plan, failing, issued, command);
      if command in failing {
        return CommandFailed(command), issued + [command];
      }
      issued := issued + [command];
      i := i + 1;
    }
    IssuedAll(plan, failing, issued);
    exit := Done;
  }
}
