# rust-tmsn: cluster scripts, packets and the prime-search worker

This project models, in Dafny, the sequential core of rust-tmsn, a small message-passing library for
clusters of cloud instances. It covers the Python scripts that drive such a cluster and the in-memory
parts of the Rust library and its prime-search example:

- **the fleet roster** `neighbors.txt`. `check-cluster.py` writes it from the provider's answer. The
  dispatch scripts read it back (the readiness flag and the instance list), and so does the prime-search
  worker (its neighbour list). Both round trips are proved.
- **the dispatch planners** `send-configs.py`, `run-cluster.py`, `retrieve-files.py` and
  `terminate-cluster.py`. Each script checks its preconditions in order and then issues shell commands
  with `check=True`.
  - The machine they run on is an `Env` value: regular files, directories, and the set of commands
    that would fail.
  - Each script returns the exit reason and the commands it actually issued. That is the plan up to
    and including the first failing command.
- **`load_config`** of `scripts/common.py` and `scripts/config.py`. The two copies are the same code
  and are modelled once.
  - The override loop, the credential check, the absolute path and the save happen before the
    credential is loaded.
- **the workload partitioner** `gen-configs.py`. Its cursor loop cuts `[2, n)` into `k` shards of
  width `ceil(n / k)`.
- **packets and counters** (`src/packet.rs`, `src/perfstats.rs`). These are the receipt rules, the
  heartbeat payload with its JSON round trip, and the packet counter as a class.
- **the mock network** (`src/mock_network.rs`). A class holds a FIFO outbox and the callback's log.
- **the prime-search worker** (`examples/find-prime-nums.rs`). This covers the neighbour reader, the
  trial-division search and the `discover` / `searching` / `finish` message loop.
  - The loop runs over an array `worker_discover`. It is proved equal to a pure step function, and
    the loop's invariant is proved about that function.

Modules: `Basics` (option type, sequence helpers), `Text` (strip, split, join, decimal digits, path
join), `Shell` (the environment and `check=True` runs), `Roster`, `Partition`, `SendConfigs`,
`RunCluster`, `RetrieveFiles`, `TerminateCluster`, `LoadConfig`, `Packets`, `PerfStatsCounter`,
`MockNetworks`, `PrimeWorker`.

Where the intended fleet design and the code differ, the model follows the code:

- only the first reservation `status[0]` is read, and instance states are not filtered;
- a count mismatch in `send-configs.py` only warns, and the copies still go ahead;
- the shard width is `ceil(n / k)`, not `ceil((n - 2) / k)`, so trailing shards may be empty;
- `run-cluster.py` does not check that the script file exists;
- `num_discovered` counts every `discover` that finds a stored 0, not distinct senders
  (`PrimeWorker.RepeatedDiscoverCountsTwice`).

## Model

| member | source | states |
|---|---|---|
| Roster.CountRunning | scripts/check-cluster.py:23-24 | `ready <= total`, with equality exactly when every record's state is `"running"` |
| Roster.Addresses | scripts/check-cluster.py:25 | once no address is null, the address list has one entry per record, in query order |
| Roster.CheckCluster | scripts/check-cluster.py:18-33 | an empty answer writes nothing; otherwise only `status[0]` is classified; the roster is the header (`Ready. ` iff all are running) and the `'\n'`-joined addresses; a null address fails the join after the header was written |
| Roster.HeaderReadiness | scripts/check-cluster.py:28-32 | line 1 begins with `R` exactly when every record of the first reservation is running |
| Roster.Header | scripts/check-cluster.py:28-32 | the header is non-empty and begins with `R` exactly when the cluster is ready |
| Roster.RosterText | scripts/check-cluster.py:27-33 | the roster text is non-empty and begins with `R` exactly when the cluster is ready |
| Roster.Instances | scripts/send-configs.py:33 | the instance list has only non-empty, stripped entries, and no more of them than there are lines |
| Roster.KeptLinesOrdered | scripts/send-configs.py:33 | the lines the comprehension keeps are non-blank, and their indices strictly increase (file order) |
| Roster.KeptLinesComplete | scripts/send-configs.py:33 | every line whose strip is non-empty is kept |
| Roster.InstancesAreKeptLines | scripts/send-configs.py:33 | instance `k` is the strip of the `k`-th kept line, and there are as many instances as kept lines |
| Roster.InstancesMembers | scripts/send-configs.py:33 | a text is an instance exactly when it is non-empty and is the strip of some line |
| Roster.InstancesOfStripped | scripts/run-cluster.py:35 | lines that are already stripped and non-empty are all kept, in order |
| Roster.ReadRoster | scripts/run-cluster.py:29-35 | an empty file has no line 1 (`IndexError`); otherwise ready iff the first character is `R`, and the instances are `Instances` of the lines after line 1, where the lines are read in text mode (`\r\n`, `\r` and `\n` all end a line) |
| Roster.CarriageReturnEndsLine | scripts/run-cluster.py:29-35 | in text mode a lone `\r` ends line 1: `"R\rA"` reads as ready with the single instance `A` |
| Roster.Neighbors | examples/find-prime-nums.rs:85-90 | one neighbour per line after the first; blank lines are kept |
| Roster.NeighborsAt | examples/find-prime-nums.rs:85-90 | neighbour `i` is line `i + 1`, trimmed |
| Roster.StripAll | examples/find-prime-nums.rs:89 | trimming keeps the number of lines |
| Roster.StripAllAt | examples/find-prime-nums.rs:89 | entry `i` is line `i` trimmed |
| Roster.StripAllOfStripped | examples/find-prime-nums.rs:89 | lines without surrounding whitespace come back unchanged |
| Roster.HeaderHasNoLineBreak | scripts/check-cluster.py:28-32 | the header holds neither `\n` nor `\r`: the only line break written before the addresses is the one that ends it |
| Roster.RosterHasNoCarriageReturn | scripts/check-cluster.py:27-33 | a roster of addresses without `\r` holds no `\r`, so text-mode reading sees the same lines |
| Roster.LinesOfRoster | scripts/check-cluster.py:27-33 | splitting the written roster at newlines gives the header, then exactly the addresses |
| Roster.ReadWrittenRoster | scripts/check-cluster.py:27-33 | round trip to the dispatch scripts: for non-empty addresses without whitespace, reading the roster gives back the readiness flag and the addresses |
| Roster.NeighborsOfWrittenRoster | examples/find-prime-nums.rs:80-90 | round trip to the worker: addresses without newlines or surrounding whitespace, the last one non-empty, come back as the neighbour list |
| Shell.FirstFailing | scripts/send-configs.py:50 | the index of the first command that would fail; every command before it succeeds |
| Shell.Issued | scripts/run-cluster.py:63 | under `check=True` the commands run are a prefix of the plan; only the last can have failed; if none fails, the whole plan runs |
| Shell.Outcome | scripts/retrieve-files.py:35 | the run ends normally iff no command of the plan fails; otherwise it ends on a command that failed and was issued |
| Shell.IssueNext | scripts/send-configs.py:45-50 | one more command of the plan is issued; if it fails, it is the last command issued and the run ends on it |
| Shell.IssuedAll | scripts/send-configs.py:45-51 | a run in which no command fails issues the whole plan and ends normally |
| Shell.IssuedToLast | scripts/retrieve-files.py:39-40 | when only the last command may fail, the whole plan runs and that command decides the outcome |
| SendConfigs.CopyPlan | scripts/send-configs.py:44-49 | `min(len(instances), len(configs))` copies; copy `i` sends `configs[i]` to `instances[i]` at `base_path/configuration` |
| SendConfigs.SendConfigs | scripts/send-configs.py:16-50 | missing key file, roster file or config directory, in that order, and then an empty or not-ready roster, each end the run with nothing issued; the count mismatch only warns; otherwise the copies run with `check=True` |
| SendConfigs.CopyAll | scripts/send-configs.py:45-50 | the `zip` loop issues exactly the copy plan up to its first failing copy, and ends with that copy's failure or normally |
| RunCluster.FirstMissing | scripts/run-cluster.py:24-27 | the first support file that is not a regular file; all before it exist |
| RunCluster.ParseFilePath | scripts/run-cluster.py:11-12 | fails exactly when the path has no `/`; otherwise it returns the path and the name after its last `/`, which holds no `/` |
| RunCluster.NodeSteps | scripts/run-cluster.py:45-60 | in order: `mkdir -p`, one copy per support file in argument order, the script copy, `chmod u+x`, then the run with all output sent to `run.log` |
| RunCluster.AppendStep | scripts/run-cluster.py:50-57 | appending `" " + step + ";"` adds one `"; "`-separated step |
| RunCluster.AppendLastStep | scripts/run-cluster.py:59-60 | the final step is appended without a trailing `;` |
| RunCluster.NodeCommand | scripts/run-cluster.py:46-60 | the `+=` sequence builds exactly the node's steps joined by `"; "` |
| RunCluster.AppendCopies | scripts/run-cluster.py:49-51 | the support-file loop appends one copy step per file, in order |
| RunCluster.LaunchPlan | scripts/run-cluster.py:42-63 | one `"(cmd) &"` launch per instance, in roster order |
| RunCluster.RunCluster | scripts/run-cluster.py:15-63 | key file, roster file and each support file are checked in order; a `None` file list counts as empty; an empty or not-ready roster or a script path without `/` ends the run with nothing issued; otherwise the launches run with `check=True` |
| RunCluster.LaunchAll | scripts/run-cluster.py:42-63 | the per-instance loop issues exactly the launch plan up to its first failing launch |
| RunCluster.ScriptPaths | scripts/run-cluster.py:39-41 | the remote script lies under the base path with the script's own file name |
| RetrieveFiles.Row | scripts/retrieve-files.py:36-38 | one fetch per remote file, in list order, all into the same local directory |
| RetrieveFiles.Rows | scripts/retrieve-files.py:32-38 | one row per instance, each with `len(remote)` entries |
| RetrieveFiles.RowsAt | scripts/retrieve-files.py:32-38 | row `i` fetches from instance `i` into `worker-{i}` |
| RetrieveFiles.FetchesNext | scripts/retrieve-files.py:36-38 | the next instance appends its row to the command list |
| RetrieveFiles.FetchAt | scripts/retrieve-files.py:32-38 | the list has `len(instances) * len(remote)` entries, instance-major; entry `i * len(remote) + j` copies file `j` of instance `i` into `worker-{i}` |
| RetrieveFiles.RetrievePlan | scripts/retrieve-files.py:32-40 | one `mkdir -p worker-{idx}` per instance, in roster order, then the single `" & "`-joined fetch command |
| RetrieveFiles.RetrieveFiles | scripts/retrieve-files.py:11-40 | a missing key or roster file, or an empty or not-ready roster, ends the run with nothing issued; otherwise the plan runs with `check=True` |
| RetrieveFiles.FetchAll | scripts/retrieve-files.py:31-40 | the nested loops issue exactly the plan up to its first failing command; the joined command runs only after every `mkdir` succeeded |
| RetrieveFiles.AppendRow | scripts/retrieve-files.py:36-38 | the inner loop appends this instance's row of fetches, in file order |
| RetrieveFiles.WorkerDirsDistinct | scripts/retrieve-files.py:33 | different instances get different local directories |
| TerminateCluster.Terminate | scripts/terminate-cluster.py:18-31 | an empty answer terminates nothing; `total = len(status[0])`; termination happens iff the answer is confirmed; the command is the fixed prefix and the ids of `status[0]` |
| TerminateCluster.ConfirmedIff | scripts/terminate-cluster.py:26 | `Confirmed` (`confirm.strip().lower() == 'y'`) holds for exactly `y` and `Y`, with any surrounding whitespace |
| TerminateCluster.EmptyAnswerCancels | scripts/terminate-cluster.py:26-28 | the empty answer (the prompt's default `N`) cancels |
| TerminateCluster.IdsOfCommand | scripts/terminate-cluster.py:30-31 | `TerminateCommand` begins with the fixed prefix, and splitting the command after that prefix at single spaces gives back the ids, in query order, when no id is empty or holds a space |
| LoadConfig.Merge | scripts/common.py:20-27 | the keys are the file's keys and the given arguments; a non-`None` argument wins; every other key keeps its file value |
| LoadConfig.AbsPath | scripts/common.py:32 | an absolute path is kept; a relative one is placed under the working directory (the result begins with `cwd` and ends with the path), and the result is absolute when `cwd` is |
| LoadConfig.WithCredential | scripts/common.py:9-16 | the four credential fields are copied in under their configuration names; nothing else changes |
| LoadConfig.Overlay | scripts/config.py:23-25 | the `for t in args` loop gives exactly the merge |
| LoadConfig.SavedConfig | scripts/common.py:28-35 | the saved configuration has the merge's keys; its credential is the merge's credential made absolute; every other key keeps its merged value |
| LoadConfig.Load | scripts/common.py:8-38 | a missing or falsy credential exits; otherwise the saved configuration is the merge with an absolute credential path; the credential fields are added only after saving, from the first entry of the credential file |
| LoadConfig.ReadCredential | scripts/common.py:9-16 | after the save: loaded exactly when the credential file has a first entry holding all four fields, and then the configuration is the saved one with those fields copied in; the saved configuration is reported either way |
| LoadConfig.SavedIsStable | scripts/config.py:17-33 | loading the saved file again with the same arguments saves the same configuration |
| Packets.New | src/packet.rs:38-45 | a `Message` packet carrying the text, with no receive time |
| Packets.GetHb | src/packet.rs:47-55 | a `Heartbeat` packet carrying the serialised counters, with no receive time |
| Packets.GetHbWorkload | src/packet.rs:57-61 | a non-heartbeat or a heartbeat without content panics |
| Packets.DecodeEncodeStats | src/packet.rs:47-61 | `DecodeStats` reads the JSON text `EncodeStats` writes back as the same counters |
| Packets.DecodeOnlyEncoded | src/packet.rs:57-61 | `DecodeStats` accepts only `EncodeStats`'s texts: whatever decodes is the encoding of the counters it decodes to |
| Packets.HeartbeatRoundTrip | src/packet.rs:47-65 | a heartbeat, marked on arrival, yields the counters it was built from |
| Packets.MarkReceived | src/packet.rs:63-65 | only the receive time changes |
| Packets.GetReceipt | src/packet.rs:67-87 | messages get an `Echo` and heartbeats a `HeartbeatEcho`; echoes get none; a receipt has no content and keeps both times |
| Packets.ReceiptOfReceipt | src/packet.rs:67-83 | a receipt is never echoed again |
| Packets.ReceiptKeepsDuration | src/packet.rs:77-94 | a receipt reports the same duration as the packet it answers |
| Packets.GetDuration | src/packet.rs:89-94 | defined exactly when a receive time no earlier than the send time is set; the result is the difference |
| Packets.DurationAfterMark | src/packet.rs:63-94 | a packet marked at `now` has duration `now - sent_time` |
| PerfStatsCounter.Record | src/perfstats.rs:22-27 | `total` goes up by one; `num_hb` goes up by one exactly for a heartbeat |
| PerfStatsCounter.RecordAll | src/perfstats.rs:22-27 | updating with a list of packets adds its length to `total`, and at most that to `num_hb` |
| PerfStatsCounter.Heartbeats | src/perfstats.rs:24-26 | at most as many heartbeats as packets |
| PerfStatsCounter.RecordAllCounts | src/perfstats.rs:15-27 | from fresh counters, `total` counts the packets and `num_hb` the heartbeats among them |
| PerfStatsCounter.RecordKeepsBound | src/perfstats.rs:22-27 | `num_hb <= total` is kept by every update |
| PerfStatsCounter.PerfStats.constructor | src/perfstats.rs:15-20 | both counters start at 0, so `num_hb <= total` holds from the start |
| PerfStatsCounter.PerfStats.Update | src/perfstats.rs:22-27 | the fields change as one `Record` step, and `num_hb <= total` is kept |
| MockNetworks.Forward | src/mock_network.rs:31-37 | only packets for which `IsWorkload` (`packet_type == Message`) holds reach the application, with the same sender name and payload |
| MockNetworks.InjectedIsDelivered | src/mock_network.rs:67-70 | what `mock_send` injects is delivered unchanged |
| MockNetworks.ControlPacketsIgnored | src/mock_network.rs:31-37 | heartbeats and echoes are never forwarded |
| MockNetworks.MockNetwork.constructor | src/mock_network.rs:25-44 | the port and addresses are ignored; the outbox starts empty |
| MockNetworks.MockNetwork.GetSubscribers | src/mock_network.rs:46-48 | always the single name `mock` |
| MockNetworks.MockNetwork.Send | src/mock_network.rs:51-59 | exactly one `(dest, message packet)` is queued and the send succeeds |
| MockNetworks.MockNetwork.MockGet | src/mock_network.rs:62-64 | the oldest queued item is removed and returned; an empty outbox gives `Empty` |
| MockNetworks.MockNetwork.MockSend | src/mock_network.rs:67-70 | the callback gets exactly one call with the source and payload; the outbox is untouched |
| MockNetworks.SendTwiceThenDrain | src/mock_network.rs:51-64 | FIFO: two sends come back in order, then nothing |
| PrimeWorker.PrimeBySmallDivisors | examples/find-prime-nums.rs:175-183 | a number above 1 with no divisor `k >= 2`, `k * k <= num`, is prime |
| PrimeWorker.TrialDivision | examples/find-prime-nums.rs:175-183 | `is_prime` ends true iff no `k >= 2` with `k * k <= num` divides `num`; with `num > 1` that is exactly primality |
| PrimeWorker.PrimesBetween | examples/find-prime-nums.rs:174-189 | only primes of `[left, right)`, strictly increasing |
| PrimeWorker.PrimesBetweenComplete | examples/find-prime-nums.rs:174-189 | every prime of `[left, right)` is listed |
| PrimeWorker.Searching | examples/find-prime-nums.rs:185-187 | one `searching` message per prime, in order |
| PrimeWorker.StartSearch | examples/find-prime-nums.rs:172-195 | the search thread sends the `searching` messages for the range, then `finish` with data 0 |
| PrimeWorker.SearchMessages | examples/find-prime-nums.rs:172-195 | one message per prime of the range plus a final `finish` with data 0 |
| PrimeWorker.SearchAnnouncesPrimes | examples/find-prime-nums.rs:172-195 | the last message is `finish`; a `searching` message is sent for `x` iff `x` is a prime in `[left, right)` |
| PrimeWorker.ReadNeighbors | examples/find-prime-nums.rs:80-90 | the worker's neighbour list is the roster's `Neighbors` |
| PrimeWorker.StripAfterFirst | examples/find-prime-nums.rs:85-90 | the `enumerate` loop skips line 0 and trims every later line |
| PrimeWorker.StripAllNext | examples/find-prime-nums.rs:89 | one more line appends its trimmed text |
| PrimeWorker.Init | examples/find-prime-nums.rs:108-114 | every `worker_discover` entry is 0; the counters are 0; nothing has been received or sent |
| PrimeWorker.Handle | examples/find-prime-nums.rs:120-149 | `discover` from an unknown worker panics; otherwise it sets `worker_discover[from]`, counts a first sight of 0 and a newly ready worker, and starts the search (its messages appended to the sent log) exactly when the ready count has just reached `n`; `searching` appends the prime; `finish` counts; every non-`discover` message changes nothing else |
| PrimeWorker.Step | examples/find-prime-nums.rs:118-159 | an iteration handles the polled message (panicking exactly when `Handle` does), keeps one `worker_discover` entry per neighbour, and then re-sends `discover(id, num_discovered)` exactly when fewer than `n` workers are ready; nothing else changes |
| PrimeWorker.Insert | examples/find-prime-nums.rs:160 | inserting into a sorted list keeps it sorted and adds exactly that element |
| PrimeWorker.SortAscending | examples/find-prime-nums.rs:160 | the sorted primes are ascending and a permutation of those received |
| PrimeWorker.RunOutcomes | examples/find-prime-nums.rs:118-160 | the loop exits only after `n` finishes and outputs every received prime in ascending order; while it waits, fewer than `n` finishes have been counted |
| PrimeWorker.Run | examples/find-prime-nums.rs:118-160 | unless the loop panics, the worker keeps one `worker_discover` entry per neighbour; with no message polled it never panics |
| PrimeWorker.InitInv | examples/find-prime-nums.rs:108-114 | the loop invariant holds before the first iteration |
| PrimeWorker.StepKeepsInv | examples/find-prime-nums.rs:126-158 | each iteration keeps the invariant: the search starts once, when the ready count reaches `n`, and no `discover` is sent after that |
| PrimeWorker.RunKeepsInv | examples/find-prime-nums.rs:118-159 | the invariant holds wherever the loop stops or waits |
| PrimeWorker.RepeatedDiscoverCountsTwice | examples/find-prime-nums.rs:127-130 | the same worker announcing 0 twice is counted twice in `num_discovered` |
| PrimeWorker.ReceiveDiscover | examples/find-prime-nums.rs:126-139 | the `discover` arm, on the array and the loop's variables, computes `Handle` |
| PrimeWorker.RunNext | examples/find-prime-nums.rs:118-159 | one turn of the loop is one `Step` |
| PrimeWorker.Poll | examples/find-prime-nums.rs:120-158 | one loop body on the array and counters computes `Step`, and panics exactly where `Step` does |
| PrimeWorker.RunWorker | examples/find-prime-nums.rs:80-160 | reading the roster and running the loop over the given polls gives exactly `Run` from the initial state |
| Partition.CeilDiv | examples/find-prime-nums/gen-configs.py:21 | `ceil(n / k)`, exactly: `(w - 1) * k < n <= w * k` |
| Partition.ConfigJson | examples/find-prime-nums/gen-configs.py:22-25 | the written object has exactly the keys `left` and `right`; no `id` |
| Partition.WriteNext | examples/find-prime-nums/gen-configs.py:21-28 | one more turn keeps the cursor rule and the file names, and moves the cursor to the new right edge |
| Partition.GenConfigs | examples/find-prime-nums/gen-configs.py:13-28 | `k` files named `config-0.json` …; the first shard starts at 2, each later one at the previous right edge, each right edge is `min(n, left + ceil(n / k))`; none for `k <= 0` |
| Partition.ConfigNamesDistinct | examples/find-prime-nums/gen-configs.py:26 | different workers get different file names |
| Partition.CutsLeftAt | examples/find-prime-nums/gen-configs.py:19-28 | shard `i` is `[min(n, 2 + i * w), min(n, 2 + (i + 1) * w))` |
| Partition.CutsBounds | examples/find-prime-nums/gen-configs.py:21 | `2 <= left <= right <= n`; the width is at most `ceil(n / k)`, and equal unless clipped at `n` |
| Partition.CutsEndAtN | examples/find-prime-nums/gen-configs.py:20-28 | for `n >= 2`, the last shard ends at `n` |
| Partition.CutsOrdered | examples/find-prime-nums/gen-configs.py:19-28 | shards do not overlap: a later shard starts at or after an earlier one ends |
| Partition.CutsCover | examples/find-prime-nums/gen-configs.py:19-28 | every number of `[2, n)` lies in some shard |
| Partition.TenIntoThree | examples/find-prime-nums/gen-configs.py:21 | `n = 10, k = 3` gives `[2,6), [6,10), [10,10)` |
| Text.Strip | scripts/send-configs.py:33 | no whitespace is left at either end, and the result is no longer than the input |
| Text.StripIsSlice | scripts/send-configs.py:33 | the strip is a slice `s[a..b]` of the input with only whitespace before `a` and after `b` |
| Text.StripSpec | scripts/terminate-cluster.py:26 | a string without surrounding whitespace is its own strip; the strip is empty iff the string is all whitespace |
| Text.SplitJoin | scripts/check-cluster.py:33 | splitting `Join(parts, [c])` (`c.join(parts)`) at `c` gives the parts back when no part holds `c` and the last part is non-empty |
| Text.NatToStringInjective | scripts/retrieve-files.py:33 | distinct indices have distinct decimal texts |
| Text.Split | examples/find-prime-nums.rs:85 | no part holds the separator; the empty text has no parts and any other text has some |
| Text.SplitCons | scripts/check-cluster.py:32-33 | a separator-free head followed by the separator splits off as the first part |
| Text.Lines | examples/find-prime-nums.rs:85 | `lines()`: no line holds `\n`; only the empty text has no lines |
| Text.UniversalNewlines | scripts/send-configs.py:27-33 | text mode: the result holds no `\r`, and its first character is a line end exactly when the input begins with `\r` or `\n` |
| Text.UniversalNewlinesPlain | scripts/send-configs.py:27-33 | a text without `\r` reads the same in text mode |
| Text.JoinAvoids | scripts/check-cluster.py:33 | a character absent from the parts and the separator is absent from the join |
| Text.PathJoin | scripts/send-configs.py:44 | `os.path.join`: the result ends with the second path; when that path is relative, it begins with the first |
| Text.PathJoinInjective | scripts/run-cluster.py:40 | different relative names under one directory give different paths |
| Text.AfterLastSlash | scripts/run-cluster.py:12 | `rsplit('/', 1)[1]`: absent exactly when there is no `/`; otherwise the text after the last `/`, which holds no `/` |
| Text.Lower | scripts/terminate-cluster.py:26 | same length; each character lowered in place |
| Text.NatToStringOfDigits | src/packet.rs:57-61 | a numeral without a leading zero is the decimal rendering of its own value |

## Left out

- Printing, the provider query (`aws ec2 describe-instances`) and YAML parsing are left out. The provider's answer, the configuration file's content and the credential file's entries are parameters. Of JSON, only the heartbeat payload `{"total":T,"num_hb":H}` is written and read.
- Nothing is executed. `subprocess.run` is modelled by a set of commands that would fail. `os.path.isfile`, `os.path.isdir` and file contents are an `Env` value.
- The background `&` of run-cluster is kept only as text. Whether remote commands succeed after launch is not modelled.
- `os.listdir` order is not modelled. The listing is a parameter in whatever order the system returns it, and is not assumed to match `config-{i}` order.
- The swapped arguments of the mismatch message in send-configs (lines 38-39) are left out: message wording is not modelled.
- LoadConfig.AbsPath: `os.path.normpath` is not applied: `.` and `..` components are kept, `//` is not collapsed and a trailing `/` is not removed; the path is joined under the working directory.
- LoadConfig.Load: `os.path.expanduser` and the file location are left out. An empty configuration file, which YAML reads as `None` and on which the override loop raises, is not modelled: the file content is either absent or a mapping. A credential file whose first value lacks a field, or is missing, ends as `CredentialUnreadable` without distinguishing the Python exception.
- Partition.CeilDiv: the float `ceil(1.0 * n / k)` is computed as the exact integer ceiling. Rounding for very large `n` is not modelled. Directory creation and file writing are collapsed into the returned list of files.
- Packets.DecodeStats: only the exact text `EncodeStats` writes is read. Whitespace, another key order, extra keys and other number forms, all of which serde_json accepts, are refused; like serde_json, a leading zero is refused.
- Packets.MarkReceived: modelled as a function returning the updated packet rather than an update in place. `SystemTime` is a natural-number timestamp.
- Packets.GetDuration: `duration_since` erroring on a receive time before the send time is modelled as `None`, like the missing receive time. The `u128` microsecond conversion is exact.
- PerfStatsCounter.PerfStats.Update: `usize` overflow of the counters is not modelled.
- MockNetworks.MockNetwork.MockSend: payloads are the JSON text already; serde of a generic `T` is not modelled. A workload packet always has content, so the wrapper's `unwrap` panic is shown only in `MockNetworks.Forward`.
- PrimeWorker.TrialDivision: `u32` overflow of `k * k` near the top of the range is not modelled; numbers are unbounded.
- PrimeWorker.RunWorker: threads and the network are not modelled. `try_recv` results are a given sequence (`None` for an empty channel), and the 500 ms sleep is dropped. The search thread's messages are appended to the worker's send log at the moment the search starts, rather than interleaved with later sends. Logging and the `primes.txt` output are left out.
- Roster.ReadRoster: the Python readers open the roster in text mode, so `\r\n` and a lone `\r` end lines as `\n` does; the worker's Rust `lines()` (`Roster.Neighbors`) ends lines at `\n` only, and its `trim` drops a `\r` before it.
- Text.Strip: Python's `strip()` and Rust's `trim()` remove Unicode whitespace; the model removes the ASCII whitespace characters (space, tab, newline, carriage return, vertical tab, form feed) only.
- The Rust networking modules, the Python binding and `query_status`, `create-cluster.py` and `diagnose.py` are not part of this model.
