/**
 * retrieve-files.py: after the roster gate, create one local directory per worker and fetch
 * every requested remote file from every instance with one `" & "`-joined command.
 */
module RetrieveFiles {
  import opened Basics
  import opened Text
  import opened Roster
  import opened Shell

  datatype RetrieveArgs = RetrieveArgs(key: string, neighbors: string, local: string, remote: seq<string>)

  /** `os.path.join(local_dir, "worker-{idx}")`. */
  function WorkerDir(local: string, idx: nat): string {
    PathJoin(local, "worker-" + NatToString(idx))
  }

  function Mkdir(dir: string): string {
    "mkdir -p " + dir
  }

  /** `scp ... ubuntu@{url}:{filepath} {local_path}`. */
  function Fetch(key: string, url: string, filePath: string, dir: string): string {
    Scp(key, Remote(url, filePath), dir)
  }

  /** The fetches for one instance, in the order of the remote file list. */
  function Row(key: string, url: string, remote: seq<string>, dir: string): (row: seq<string>)
    ensures |row| == |remote|
    ensures forall j :: 0 <= j < |remote| ==> row[j] == Fetch(key, url, remote[j], dir)
  {
    seq(|remote|, j requires 0 <= j < |remote| => Fetch(key, url, remote[j], dir))
  }

  /** The rows of the first `n` instances, in roster order. */
  function Rows(key: string, instances: seq<string>, remote: seq<string>, local: string, n: nat): (rows: seq<seq<string>>)
    requires n <= |instances|
    ensures |rows| == n && Uniform(rows, |remote|)
  {
    if n == 0 then []
    else Rows(key, instances, remote, local, n - 1) + [Row(key, instances[n - 1], remote, WorkerDir(local, n - 1))]
  }

  /** Row `i` holds instance `i`'s fetches into worker directory `i`. */
  lemma {:induction false} RowsAt(key: string, instances: seq<string>, remote: seq<string>, local: string, n: nat, i: nat)
    requires n <= |instances| && i < n
    ensures Rows(key, instances, remote, local, n)[i] == Row(key, instances[i], remote, WorkerDir(local, i))
  {
    if i < n - 1 {
      RowsAt(key, instances, remote, local, n - 1, i);
    }
  }

  /** The command list after the first `n` instances: instance-major, then file order. */
  function Fetches(key: string, instances: seq<string>, remote: seq<string>, local: string, n: nat): seq<string>
    requires n <= |instances|
  {
    Concat(Rows(key, instances, remote, local, n))
  }

  lemma FetchesNext(key: string, instances: seq<string>, remote: seq<string>, local: string, n: nat)
    requires n < |instances|
    ensures Fetches(key, instances, remote, local, n + 1)
      == Fetches(key, instances, remote, local, n) + Row(key, instances[n], remote, WorkerDir(local, n))
  {
    var rows := Rows(key, instances, remote, local, n + 1);
    assert rows[..n] == Rows(key, instances, remote, local, n);
  }

  /**
   * Entry `Offset(i, |remote|) + j` (that is `i * |remote| + j`, by `OffsetIsProduct`) copies
   * file `j` of instance `i` into worker directory `i`.
   */
  lemma FetchAt(key: string, instances: seq<string>, remote: seq<string>, local: string, n: nat, i: nat, j: nat)
    requires n <= |instances| && i < n && j < |remote|
    ensures |Fetches(key, instances, remote, local, n)| == Offset(n, |remote|)
    ensures Offset(i, |remote|) + j < Offset(n, |remote|)
    ensures Fetches(key, instances, remote, local, n)[Offset(i, |remote|) + j]
      == Fetch(key, instances[i], remote[j], WorkerDir(local, i))
  {
    ConcatAt(Rows(key, instances, remote, local, n), |remote|, i, j);
    RowsAt(key, instances, remote, local, n, i);
  }

  /** Every `mkdir`, one per instance in roster order, then the single joined fetch command. */
  function RetrievePlan(key: string, instances: seq<string>, remote: seq<string>, local: string): (plan: seq<string>)
    ensures |plan| == |instances| + 1
    ensures forall i :: 0 <= i < |instances| ==> plan[i] == Mkdir(WorkerDir(local, i))
    ensures plan[|instances|] == Join(Fetches(key, instances, remote, local, |instances|), " & ")
  {
    seq(|instances|, i requires 0 <= i < |instances| => Mkdir(WorkerDir(local, i)))
    + [Join(Fetches(key, instances, remote, local, |instances|), " & ")]
  }

  /** Key file and roster file exist and the roster says ready. */
  predicate Cleared(env: Env, args: RetrieveArgs) {
    args.key in env.files && args.neighbors in env.files
    && RosterAt(env, args.neighbors).Some? && RosterAt(env, args.neighbors).value.ready
  }

  /** retrieve-files.py `main`. */
  method RetrieveFiles(env: Env, args: RetrieveArgs) returns (exit: Exit, issued: seq<string>)
    ensures args.key !in env.files ==> exit == MissingFile(args.key)
    ensures args.key in env.files && args.neighbors !in env.files ==> exit == MissingFile(args.neighbors)
    ensures args.key in env.files && args.neighbors in env.files && RosterAt(env, args.neighbors).None? ==>
      exit == EmptyRoster
    ensures args.key in env.files && args.neighbors in env.files && RosterAt(env, args.neighbors).Some? ==>
      (!RosterAt(env, args.neighbors).value.ready ==> exit == NotReady)
    ensures !Cleared(env, args) ==> issued == []
    ensures Cleared(env, args) ==>
      var plan := RetrievePlan(args.key, RosterAt(env, args.neighbors).value.instances, args.remote, args.local);
      issued == Issued(plan, env.failing) && exit == Outcome(plan, env.failing)
  {
    issued := [];
    if args.key !in env.files {
      return MissingFile(args.key), issued;
    }
    if args.neighbors !in env.files {
      return MissingFile(args.neighbors), issued;
    }
    var roster := ReadRoster(env.files[args.neighbors]);
    if roster.None? {
      return EmptyRoster, issued;
    }
    if !roster.value.ready {
      return NotReady, issued;
    }
    exit, issued := FetchAll(args.key, roster.value.instances, args.remote, args.local, env.failing);
  }

  /** The nested `enumerate`/file loops, then the joined command. */
  method FetchAll(key: string, instances: seq<string>, remote: seq<string>, local: string, failing: set<string>)
    returns (exit: Exit, issued: seq<string>)
    ensures issued == Issued(RetrievePlan(key, instances, remote, local), failing)
    ensures exit == Outcome(RetrievePlan(key, instances, remote, local), failing)
  {
    ghost var plan := RetrievePlan(key, instances, remote, local);
    issued := [];
    var commands: seq<string> := [];
    var idx := 0;
    while idx < |instances|
      invariant 0 <= idx <= |instances|
      invariant issued == plan[..idx]
      invariant forall j :: 0 <= j < idx ==> issued[j] !in failing
      invariant commands == Fetches(key, instances, remote, local, idx)
    {
      var localPath := WorkerDir(local, idx);
      var command := Mkdir(localPath);
      assert plan[idx] == command;
      IssueNext(plan, failing, issued, command);
      if command in failing {
        return CommandFailed(command), issued + [command];
      }
      issued := issued + [command];
      FetchesNext(key, instances, remote, local, idx);
      commands := AppendRow(commands, key, instances[idx], remote, localPath);
      idx := idx + 1;
    }
    var command := Join(commands, " & ");
    assert plan[|issued|] == command;
    IssuedToLast(plan, failing, issued, command);
    issued := issued + [command];
    exit := if command in failing then CommandFailed(command) else Done;
  }

  /** The inner `for filepath in remote_files` loop: one fetch per file, appended in order. */
  method AppendRow(commands: seq<string>, key: string, url: string, remote: seq<string>, dir: string)
    returns (r: seq<string>)
    ensures r == commands + Row(key, url, remote, dir)
  {
    ghost var row := Row(key, url, remote, dir);
    r := commands;
    var j := 0;
    while j < |remote|
      invariant 0 <= j <= |remote|
      invariant r == commands + row[..j]
    {
      assert row[..j + 1] == row[..j] + [row[j]];
      r := r + [Fetch(key, url, remote[j], dir)];
      j := j + 1;
    }
    assert row[..j] == row;
  }

  /** Different workers get different local directories, so no two instances' files collide. */
  lemma WorkerDirsDistinct(local: string, i: nat, j: nat)
    requires i != j
    ensures WorkerDir(local, i) != WorkerDir(local, j)
  {
    NatToStringInjective(i, j);
    var a, b := "worker-" + NatToString(i), "worker-" + NatToString(j);
    assert a[7..] == NatToString(i) && b[7..] == NatToString(j);
    PathJoinInjective(local, a, b);
  }
}
