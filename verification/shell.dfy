/**
 * What the dispatch scripts see of the machine they run on, the shape of the commands they
 * hand to the shell, and the effect of running a list of commands one by one with
 * `subprocess.run(..., check=True)`: the first command that exits non-zero raises
 * `CalledProcessError` and nothing after it runs.
 */
module Shell {
  import opened Basics
  import opened Text
  import opened Roster

  /**
   * `files`: the regular files (`os.path.isfile`) and their contents; `dirs`: the directories
   * (`os.path.isdir`); `failing`: the shell commands that would exit with a non-zero status.
   */
  datatype Env = Env(files: map<string, string>, dirs: set<string>, failing: set<string>)

  /** How a script run ends. */
  datatype Exit =
    | Done
    | MissingFile(path: string)
    | MissingDirectory(path: string)
      /** `status[0]` raised `IndexError`: the roster file is empty. */
    | EmptyRoster
      /** Line 1 of the roster does not start with `R`. */
    | NotReady
      /** `rsplit('/', 1)[1]` raised `IndexError`: the script path has no slash. */
    | NoSlashInScript(path: string)
      /** `check=True` raised on this command. */
    | CommandFailed(command: string)

  /** `ssh -o StrictHostKeyChecking=no -i {key} ubuntu@{url} "{remote}"`. */
  function Ssh(key: string, url: string, remote: string): string {
    "ssh -o StrictHostKeyChecking=no -i " + key + " ubuntu@" + url + " \"" + remote + "\""
  }

  /** `scp -o StrictHostKeyChecking=no -i {key} {src} {dst}`. */
  function Scp(key: string, src: string, dst: string): string {
    "scp -o StrictHostKeyChecking=no -i " + key + " " + src + " " + dst
  }

  /** The scp address `ubuntu@{url}:{path}`. */
  function Remote(url: string, path: string): string {
    "ubuntu@" + url + ":" + path
  }

  /** The roster as the dispatch scripts read it from `path`. */
  function RosterAt(env: Env, path: string): Option<RosterView>
    requires path in env.files
  {
    ReadRoster(env.files[path])
  }

  /** Index of the first command of `plan` that fails, or `|plan|` when none does. */
  function FirstFailing(plan: seq<string>, failing: set<string>): (i: nat)
    ensures i <= |plan|
    ensures forall j :: 0 <= j < i ==> plan[j] !in failing
    ensures i < |plan| ==> plan[i] in failing
  {
    if plan == [] then 0
    else if plan[0] in failing then 0
    else 1 + FirstFailing(plan[1..], failing)
  }

  /** The commands that actually run: the plan up to and including the first failing one. */
  function Issued(plan: seq<string>, failing: set<string>): (issued: seq<string>)
    ensures |issued| <= |plan| && issued == plan[..|issued|]
    ensures forall j :: 0 <= j < |issued| - 1 ==> issued[j] !in failing
    ensures |issued| < |plan| ==> issued != [] && issued[|issued| - 1] in failing
    ensures (forall j :: 0 <= j < |plan| ==> plan[j] !in failing) ==> issued == plan
  {
    var i := FirstFailing(plan, failing);
    if i == |plan| then plan else plan[..i + 1]
  }

  /** How running `plan` with `check=True` ends. */
  function Outcome(plan: seq<string>, failing: set<string>): (exit: Exit)
    ensures exit == Done || exit.CommandFailed?
    ensures exit == Done <==> forall j :: 0 <= j < |plan| ==> plan[j] !in failing
    ensures exit.CommandFailed? ==> exit.command in failing && exit.command in Issued(plan, failing)
  {
    var i := FirstFailing(plan, failing);
    if i == |plan| then Done else CommandFailed(plan[i])
  }

  /**
   * The run reaches the next command `c` of the plan: it is issued, and if it fails, it is
   * the last command issued and the run ends on it.
   */
  lemma IssueNext(plan: seq<string>, failing: set<string>, done: seq<string>, c: string)
    requires |done| < |plan| && done == plan[..|done|] && plan[|done|] == c
    requires forall j :: 0 <= j < |done| ==> done[j] !in failing
    ensures done + [c] == plan[..|done| + 1]
    ensures c !in failing ==> forall j :: 0 <= j < |done| + 1 ==> (done + [c])[j] !in failing
    ensures c in failing ==> Issued(plan, failing) == done + [c] && Outcome(plan, failing) == CommandFailed(c)
  {
    var i := |done|;
    assert forall j :: 0 <= j < i ==> plan[j] == done[j];
    if c in failing {
      assert FirstFailing(plan, failing) == i;
    }
  }

  /** A run in which no command fails issues the whole plan and ends normally. */
  lemma IssuedAll(plan: seq<string>, failing: set<string>, done: seq<string>)
    requires |done| == |plan| && done == plan[..|done|]
    requires forall j :: 0 <= j < |done| ==> done[j] !in failing
    ensures Issued(plan, failing) == plan
    ensures Outcome(plan, failing) == Done
  {
    assert done == plan;
  }

  /** When only the last command `c` may fail, the whole plan runs and `c` decides the outcome. */
  lemma IssuedToLast(plan: seq<string>, failing: set<string>, done: seq<string>, c: string)
    requires |done| + 1 == |plan| && done == plan[..|done|] && plan[|done|] == c
    requires forall j :: 0 <= j < |done| ==> done[j] !in failing
    ensures Issued(plan, failing) == plan
    ensures Outcome(plan, failing) == if c in failing then CommandFailed(c) else Done
  {
    IssueNext(plan, failing, done, c);
    assert plan[..|done| + 1] == plan;
  }
}
