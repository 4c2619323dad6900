/**
 * examples/find-prime-nums.rs: a worker of the prime-search example. It reads its neighbours
 * from the roster, runs the discover / searching / finish message loop, and, once every worker
 * is ready, scans its range `[left, right)` for primes by trial division.
 *
 * The network is the sequence of `try_recv` results the loop sees (`None` for an empty
 * channel); what the worker sends is recorded in its state. Counters are unbounded: the
 * `u32` overflow of `k * k` near the top of the range is not modelled.
 */
module PrimeWorker {
  import opened Basics
  import opened Text
  import opened Roster

  /** `Message::new(message_type, worker_id, data)`. */
  datatype Message = Message(messageType: string, from: nat, data: nat)

  predicate IsPrime(n: nat) {
    n > 1 && forall d :: 2 <= d < n ==> n % d != 0
  }

  /** No `k >= 2` with `k * k <= num` divides `num`: what the trial-division loop looks for. */
  predicate NoSmallDivisor(num: nat) {
    forall d :: 2 <= d <= num && d * d <= num ==> num % d != 0
  }

  lemma SquareMonotone(a: nat, b: nat)
    requires a <= b
    ensures a * a <= b * b
  {
    assert a * a <= a * b <= b * b;
  }

  lemma MulMonotone(a: nat, b: nat, c: nat)
    ensures b <= c ==> a * b <= a * c
  {
  }

  lemma DivExact(num: nat, d: nat)
    requires d > 0 && num % d == 0
    ensures num == d * (num / d)
  {
  }

  lemma MulSign(q: nat, x: int)
    requires q > 0
    ensures x >= 1 ==> q * x >= q
    ensures x <= -1 ==> q * x <= 0 - q
  {
  }

  /** A multiple of `q` leaves no remainder. */
  lemma ModOfMultiple(q: nat, m: nat)
    requires q > 0
    ensures (q * m) % q == 0
  {
    var t := (q * m) / q;
    assert q * (m - t) == (q * m) % q;
    MulSign(q, m - t);
  }

  /**
   * A divisor `d` of `num` with `d * d > num` has a cofactor `num / d` that is itself a divisor
   * whose square is at most `num`.
   */
  lemma Cofactor(num: nat, d: nat)
    requires 2 <= d < num && d * d > num
    ensures num % d == 0 ==> 2 <= num / d <= num && (num / d) * (num / d) <= num && num % (num / d) == 0
  {
    if num % d == 0 {
      var q := num / d;
      DivExact(num, d);
      MulMonotone(d, q, 1);
      MulMonotone(d, d, q);
      assert 2 <= q < d;
      MulMonotone(q, q, d);
      assert q * d == d * q;
      ModOfMultiple(q, d);
    }
  }

  /** With no divisor up to the square root, `num > 1` is prime. */
  lemma PrimeBySmallDivisors(num: nat)
    requires num > 1 && NoSmallDivisor(num)
    ensures IsPrime(num)
  {
    forall d | 2 <= d < num
      ensures num % d != 0
    {
      if d * d > num {
        Cofactor(num, d);
      }
    }
  }

  /** The inner `while is_prime && k * k <= num` loop. */
  method TrialDivision(num: nat) returns (isPrime: bool)
    ensures isPrime <==> NoSmallDivisor(num)
    ensures num > 1 && isPrime <==> IsPrime(num)
  {
    isPrime := true;
    var k := 2;
    while isPrime && k * k <= num
      invariant 2 <= k <= num + 2
      invariant isPrime <==> forall d :: 2 <= d < k ==> num % d != 0
      invariant !isPrime ==> 3 <= k && (k - 1) * (k - 1) <= num && num % (k - 1) == 0
      decreases num + 2 - k
    {
      MulMonotone(k, 1, k);
      if num % k == 0 {
        isPrime := false;
      }
      k := k + 1;
    }
    if !isPrime {
      var d := k - 1;
      MulMonotone(d, 2, d);
      assert 2 <= d < num && d * d <= num && num % d == 0;
    }
    if isPrime {
      forall d | 2 <= d <= num && d * d <= num
        ensures num % d != 0
      {
        if d >= k {
          SquareMonotone(k, d);
        }
      }
    }
    if num > 1 && isPrime {
      PrimeBySmallDivisors(num);
    }
  }

  /** The primes in `[left, right)`, in increasing order. */
  function PrimesBetween(left: nat, right: nat): (ps: seq<nat>)
    ensures forall i :: 0 <= i < |ps| ==> left <= ps[i] < right && IsPrime(ps[i])
    ensures forall i, j :: 0 <= i < j < |ps| ==> ps[i] < ps[j]
    decreases right
  {
    if right <= left then []
    else PrimesBetween(left, right - 1) + if IsPrime(right - 1) then [right - 1] else []
  }

  /** Every prime of the range is listed. */
  lemma {:induction false} PrimesBetweenComplete(left: nat, right: nat, x: nat)
    ensures left <= x < right && IsPrime(x) ==> x in PrimesBetween(left, right)
    decreases right
  {
    if left <= x < right && IsPrime(x) {
      if x == right - 1 {
        assert PrimesBetween(left, right)[|PrimesBetween(left, right)| - 1] == x;
      } else {
        PrimesBetweenComplete(left, right - 1, x);
      }
    }
  }

  /** The `"searching"` messages announcing the primes `ps`, in order. */
  function Searching(workerId: nat, ps: seq<nat>): (msgs: seq<Message>)
    ensures |msgs| == |ps|
    ensures forall i :: 0 <= i < |ps| ==> msgs[i] == Message("searching", workerId, ps[i])
  {
    seq(|ps|, i requires 0 <= i < |ps| => Message("searching", workerId, ps[i]))
  }

  /** Everything the search thread sends: the primes of `[left, right)`, then `finish` with data 0. */
  function SearchMessages(workerId: nat, left: nat, right: nat): (msgs: seq<Message>)
    ensures |msgs| == |PrimesBetween(left, right)| + 1
    ensures msgs[|msgs| - 1] == Message("finish", workerId, 0)
  {
    Searching(workerId, PrimesBetween(left, right)) + [Message("finish", workerId, 0)]
  }

  /** `start_search`, with the thread's sends collected in the order they are made. */
  method StartSearch(workerId: nat, left: nat, right: nat) returns (msgs: seq<Message>)
    ensures msgs == SearchMessages(workerId, left, right)
  {
    msgs := [];
    var num := left;
    while num < right
      invariant left <= num && (num <= right || num == left)
      invariant msgs == Searching(workerId, PrimesBetween(left, num))
    {
      var isPrime := TrialDivision(num);
      if num > 1 && isPrime {
        msgs := msgs + [Message("searching", workerId, num)];
      }
      assert PrimesBetween(left, num + 1) == PrimesBetween(left, num) + if IsPrime(num) then [num] else [];
      num := num + 1;
    }
    msgs := msgs + [Message("finish", workerId, 0)];
  }

  /** A worker announces exactly the primes of its range, each once, and then finishes. */
  lemma SearchAnnouncesPrimes(workerId: nat, left: nat, right: nat, x: nat)
    ensures var msgs := SearchMessages(workerId, left, right);
      && msgs[|msgs| - 1] == Message("finish", workerId, 0)
      && (Message("searching", workerId, x) in msgs <==> left <= x < right && IsPrime(x))
  {
    var ps := PrimesBetween(left, right);
    var msgs := SearchMessages(workerId, left, right);
    if Message("searching", workerId, x) in msgs {
      var i :| 0 <= i < |msgs| && msgs[i] == Message("searching", workerId, x);
      assert i < |ps| && ps[i] == x;
    }
    if left <= x < right && IsPrime(x) {
      PrimesBetweenComplete(left, right, x);
      var i :| 0 <= i < |ps| && ps[i] == x;
      assert msgs[i] == Message("searching", workerId, x);
    }
  }

  /** The neighbour list: every roster line after the first, trimmed; blank lines are kept. */
  method ReadNeighbors(text: string) returns (neighbors: seq<string>)
    ensures neighbors == Neighbors(text)
  {
    neighbors := StripAfterFirst(Lines(text));
  }

  /** The `for (idx, line) in lines().enumerate()` loop that skips line 0. */
  method StripAfterFirst(lines: seq<string>) returns (neighbors: seq<string>)
    ensures lines == [] ==> neighbors == []
    ensures lines != [] ==> neighbors == StripAll(lines[1..])
  {
    neighbors := [];
    var idx := 0;
    while idx < |lines|
      invariant idx <= |lines|
      invariant neighbors == if idx == 0 then [] else StripAll(lines[1..idx])
    {
      if idx != 0 {
        StripAllNext(lines, idx);
        neighbors := neighbors + [Strip(lines[idx])];
      }
      idx := idx + 1;
    }
    if lines != [] {
      assert lines[1..idx] == lines[1..];
    }
  }

  lemma StripAllNext(lines: seq<string>, idx: nat)
    requires 1 <= idx < |lines|
    ensures StripAll(lines[1..idx + 1]) == StripAll(lines[1..idx]) + [Strip(lines[idx])]
  {
    assert lines[1..idx + 1][..idx - 1] == lines[1..idx];
  }

  /** The `Config` a worker reads: its id and its range `[left, right)`. */
  datatype WorkerConfig = WorkerConfig(id: nat, left: nat, right: nat)

  /**
   * The state of the message loop: `worker_discover` (one entry per neighbour), the three
   * counters, the primes received so far, and everything the worker has put on its local send
   * queue, including the search thread's messages once it has been started.
   */
  datatype WorkerState = WorkerState(
    discover: seq<nat>, numDiscovered: nat, numReady: nat, numFinish: nat,
    allPrimes: seq<nat>, sent: seq<Message>, searchStarted: bool)

  /** The state before the first iteration, for `n` neighbours. */
  function Init(n: nat): (s: WorkerState)
    ensures |s.discover| == n && forall i :: 0 <= i < n ==> s.discover[i] == 0
    ensures s.numDiscovered == 0 && s.numReady == 0 && s.numFinish == 0
    ensures s.allPrimes == [] && s.sent == [] && !s.searchStarted
  {
    WorkerState(seq(n, _ => 0), 0, 0, 0, [], [], false)
  }

  /**
   * One received message; `None` where indexing `worker_discover` panics. `n` is the number of
   * neighbours.
   */
  function Handle(cfg: WorkerConfig, n: nat, s: WorkerState, m: Message): (r: Option<WorkerState>)
    requires |s.discover| == n
    ensures r.None? <==> m.messageType == "discover" && m.from >= n
    ensures m.messageType != "discover" && m.messageType != "searching" && m.messageType != "finish" ==> r == Some(s)
    ensures r.Some? ==> |r.value.discover| == n
    ensures r.Some? ==> r.value.numFinish == s.numFinish + if m.messageType == "finish" then 1 else 0
    ensures r.Some? ==> r.value.allPrimes == s.allPrimes + if m.messageType == "searching" then [m.data] else []
    ensures r.Some? && m.messageType == "discover" ==>
              && r.value.discover == s.discover[m.from := m.data]
              && r.value.numDiscovered == s.numDiscovered + (if s.discover[m.from] == 0 then 1 else 0)
              && r.value.numReady == s.numReady + (if s.discover[m.from] < m.data && m.data == n then 1 else 0)
    ensures r.Some? && m.messageType == "discover" ==>
              var start := s.numReady < r.value.numReady && r.value.numReady == n;
              && r.value.sent == s.sent + (if start then SearchMessages(cfg.id, cfg.left, cfg.right) else [])
              && r.value.searchStarted == (s.searchStarted || start)
    ensures m.messageType != "discover" ==> r.Some? && r.value.(allPrimes := s.allPrimes, numFinish := s.numFinish) == s
  {
    if m.messageType == "discover" then
      if m.from >= n then None
      else
        var stored := s.discover[m.from];
        var becomesReady := stored < m.data && m.data == n;
        var ready := if becomesReady then s.numReady + 1 else s.numReady;
        var start := becomesReady && ready == n;
        Some(s.(discover := s.discover[m.from := m.data],
                numDiscovered := if stored == 0 then s.numDiscovered + 1 else s.numDiscovered,
                numReady := ready,
                sent := if start then s.sent + SearchMessages(cfg.id, cfg.left, cfg.right) else s.sent,
                searchStarted := s.searchStarted || start))
    else if m.messageType == "searching" then Some(s.(allPrimes := s.allPrimes + [m.data]))
    else if m.messageType == "finish" then Some(s.(numFinish := s.numFinish + 1))
    else Some(s)
  }

  /** One iteration: handle what `try_recv` returned, then resend `discover` while not every worker is ready. */
  function Step(cfg: WorkerConfig, n: nat, s: WorkerState, poll: Option<Message>): (r: Option<WorkerState>)
    requires |s.discover| == n
    ensures r.Some? ==> |r.value.discover| == n
    ensures r.None? <==> poll.Some? && Handle(cfg, n, s, poll.value).None?
    ensures r.Some? ==>
      var h := if poll.None? then s else Handle(cfg, n, s, poll.value).value;
      && r.value.(sent := h.sent) == h
      && r.value.sent == h.sent + if h.numReady < n then [Message("discover", cfg.id, h.numDiscovered)] else []
  {
    var h := if poll.None? then Some(s) else Handle(cfg, n, s, poll.value);
    if h.None? then None
    else if h.value.numReady < n then
      Some(h.value.(sent := h.value.sent + [Message("discover", cfg.id, h.value.numDiscovered)]))
    else h
  }

  /** Sorted in ascending order. */
  predicate Ascending(s: seq<nat>) {
    forall i, j :: 0 <= i < j < |s| ==> s[i] <= s[j]
  }

  function Insert(x: nat, s: seq<nat>): (r: seq<nat>)
    requires Ascending(s)
    ensures Ascending(r) && multiset(r) == multiset(s) + multiset{x}
    ensures r != [] && (r[0] == x || (s != [] && r[0] == s[0]))
  {
    if s == [] || x <= s[0] then
      ConsAscending(x, s);
      [x] + s
    else
      var t := Insert(x, s[1..]);
      InsertLater(x, s, t);
      [s[0]] + t
  }

  /** Inserting after the head: the head stays in front of the rest with `x` inserted. */
  lemma InsertLater(x: nat, s: seq<nat>, t: seq<nat>)
    requires s != [] && s[0] < x && Ascending(s)
    requires Ascending(t) && multiset(t) == multiset(s[1..]) + multiset{x}
    requires t != [] && (t[0] == x || (|s| > 1 && t[0] == s[1]))
    ensures Ascending([s[0]] + t) && multiset([s[0]] + t) == multiset(s) + multiset{x}
  {
    assert s == [s[0]] + s[1..];
    ConsAscending(s[0], t);
  }

  lemma ConsAscending(a: nat, t: seq<nat>)
    requires Ascending(t) && (t == [] || a <= t[0])
    ensures Ascending([a] + t)
  {
    assert forall j :: 0 <= j < |t| ==> a <= t[0] <= t[j];
  }

  /** `all_primes.sort()`, as a function: an ascending permutation. */
  function SortAscending(s: seq<nat>): (r: seq<nat>)
    ensures Ascending(r) && multiset(r) == multiset(s)
  {
    if s == [] then []
    else
      assert s == s[..|s| - 1] + [s[|s| - 1]];
      Insert(s[|s| - 1], SortAscending(s[..|s| - 1]))
  }

  /** Where the message loop stands after the polls given. */
  datatype RunOutcome =
      /** A `discover` from an unknown worker: the index panics. */
    | Panic
      /** Fewer than `n` finishes seen: the loop goes on polling. */
    | Waiting(state: WorkerState)
      /** Every worker finished: the loop exits and the primes are sorted for output. */
    | Finished(state: WorkerState, primes: seq<nat>)

  /** The `while num_workers_finish < neighbors.len()` loop, over the sequence of `try_recv` results. */
  function Run(cfg: WorkerConfig, n: nat, s: WorkerState, polls: seq<Option<Message>>): (out: RunOutcome)
    requires |s.discover| == n
    ensures !out.Panic? ==> |out.state.discover| == n
    ensures polls == [] ==> !out.Panic?
    decreases |polls|
  {
    if s.numFinish >= n then Finished(s, SortAscending(s.allPrimes))
    else if polls == [] then Waiting(s)
    else
      var t := Step(cfg, n, s, polls[0]);
      if t.None? then Panic else Run(cfg, n, t.value, polls[1..])
  }

  /**
   * The loop exits only once `n` finishes are counted, and then outputs every received prime,
   * in ascending order; while it waits, fewer than `n` have been counted.
   */
  lemma {:induction false} RunOutcomes(cfg: WorkerConfig, n: nat, s: WorkerState, polls: seq<Option<Message>>)
    requires |s.discover| == n
    ensures var r := Run(cfg, n, s, polls);
      && (r.Finished? ==> r.state.numFinish >= n && Ascending(r.primes) && multiset(r.primes) == multiset(r.state.allPrimes))
      && (r.Waiting? ==> r.state.numFinish < n)
    decreases |polls|
  {
    if s.numFinish < n && polls != [] {
      var t := Step(cfg, n, s, polls[0]);
      if t.Some? {
        RunOutcomes(cfg, n, t.value, polls[1..]);
      }
    }
  }

  /**
   * What the worker has sent: `discover` messages of its own, and, once the search has started,
   * exactly the search thread's messages after them.
   */
  predicate SentShape(cfg: WorkerConfig, sent: seq<Message>, started: bool) {
    var k := if started then |SearchMessages(cfg.id, cfg.left, cfg.right)| else 0;
    && k <= |sent|
    && (forall i :: 0 <= i < |sent| - k ==> sent[i].messageType == "discover" && sent[i].from == cfg.id)
    && sent[|sent| - k..] == SearchMessages(cfg.id, cfg.left, cfg.right)[..k]
  }

  /** The invariant of the message loop. */
  predicate WorkerInv(cfg: WorkerConfig, n: nat, s: WorkerState) {
    && |s.discover| == n
    && (s.searchStarted <==> n > 0 && s.numReady >= n)
    && SentShape(cfg, s.sent, s.searchStarted)
  }

  lemma InitInv(cfg: WorkerConfig, n: nat)
    ensures WorkerInv(cfg, n, Init(n))
  {
  }

  /**
   * Every iteration keeps the invariant: the search starts once, when the ready count reaches
   * `n`, and no `discover` is sent after it.
   */
  lemma StepKeepsInv(cfg: WorkerConfig, n: nat, s: WorkerState, poll: Option<Message>)
    requires WorkerInv(cfg, n, s)
    ensures Step(cfg, n, s, poll).Some? ==> WorkerInv(cfg, n, Step(cfg, n, s, poll).value)
  {
    var sm := SearchMessages(cfg.id, cfg.left, cfg.right);
    var h := if poll.None? then Some(s) else Handle(cfg, n, s, poll.value);
    if h.Some? {
      var t := h.value;
      assert t.searchStarted <==> n > 0 && t.numReady >= n;
      if t.searchStarted && !s.searchStarted {
        assert t.sent == s.sent + sm;
        assert t.sent[|t.sent| - |sm|..] == sm;
      }
      assert SentShape(cfg, t.sent, t.searchStarted);
      if t.numReady < n {
        var u := t.sent + [Message("discover", cfg.id, t.numDiscovered)];
        assert !t.searchStarted;
        assert forall i :: 0 <= i < |u| ==> u[i].messageType == "discover" && u[i].from == cfg.id;
      }
    }
  }

  /** The invariant holds wherever the loop stops or waits. */
  lemma {:induction false} RunKeepsInv(cfg: WorkerConfig, n: nat, s: WorkerState, polls: seq<Option<Message>>)
    requires WorkerInv(cfg, n, s)
    ensures Run(cfg, n, s, polls).Waiting? || Run(cfg, n, s, polls).Finished? ==>
              WorkerInv(cfg, n, Run(cfg, n, s, polls).state)
    decreases |polls|
  {
    if s.numFinish < n && polls != [] {
      StepKeepsInv(cfg, n, s, polls[0]);
      var t := Step(cfg, n, s, polls[0]);
      if t.Some? {
        RunKeepsInv(cfg, n, t.value, polls[1..]);
      }
    }
  }

  /**
   * `num_discovered` counts the `discover` messages that find a stored 0, not distinct senders:
   * with two neighbours, the same worker announcing 0 twice is counted twice.
   */
  lemma RepeatedDiscoverCountsTwice(cfg: WorkerConfig)
    ensures var m := Message("discover", 1, 0);
      var once := Handle(cfg, 2, Init(2), m);
      once.Some? && Handle(cfg, 2, once.value, m).Some? && Handle(cfg, 2, once.value, m).value.numDiscovered == 2
  {
  }

  /**
   * The `"discover"` arm of the loop body on the loop's variables, for a sender that indexes
   * `worker_discover`; `s` is the state before the message.
   */
  method ReceiveDiscover(cfg: WorkerConfig, workerDiscover: array<nat>, from: nat, data: nat,
                         numDiscovered: nat, numReady: nat, sent: seq<Message>, started: bool, ghost s: WorkerState)
    returns (discovered: nat, ready: nat, sentAfter: seq<Message>, startedAfter: bool)
    requires from < workerDiscover.Length
    requires s.discover == workerDiscover[..] && s.numDiscovered == numDiscovered && s.numReady == numReady
    requires s.sent == sent && s.searchStarted == started
    modifies workerDiscover
    ensures Handle(cfg, workerDiscover.Length, s, Message("discover", from, data))
      == Some(s.(discover := workerDiscover[..], numDiscovered := discovered, numReady := ready,
                 sent := sentAfter, searchStarted := startedAfter))
  {
    discovered, ready, sentAfter, startedAfter := numDiscovered, numReady, sent, started;
    var stored := workerDiscover[from];
    if stored == 0 {
      discovered := discovered + 1;
    }
    if stored < data && data == workerDiscover.Length {
      ready := ready + 1;
      if ready == workerDiscover.Length {
        var msgs := StartSearch(cfg.id, cfg.left, cfg.right);
        sentAfter := sentAfter + msgs;
        startedAfter := true;
      }
    }
    workerDiscover[from] := data;
    assert workerDiscover[..] == s.discover[from := data];
  }

  /** One turn of the loop, unfolded. */
  lemma RunNext(cfg: WorkerConfig, n: nat, s: WorkerState, polls: seq<Option<Message>>, i: nat)
    requires |s.discover| == n && s.numFinish < n && i < |polls|
    ensures var t := Step(cfg, n, s, polls[i]);
      Run(cfg, n, s, polls[i..]) == if t.None? then Panic else Run(cfg, n, t.value, polls[i + 1..])
  {
    assert polls[i..][0] == polls[i] && polls[i..][1..] == polls[i + 1..];
  }

  /**
   * The body of the message loop: take what `try_recv` returned, dispatch on the message type,
   * then resend `discover` while fewer than all neighbours are ready. `panicked` is the
   * out-of-range index into `worker_discover`.
   */
  method Poll(cfg: WorkerConfig, workerDiscover: array<nat>, poll: Option<Message>,
              numDiscovered: nat, numReady: nat, numFinish: nat, allPrimes: seq<nat>, sent: seq<Message>,
              started: bool, ghost s: WorkerState)
    returns (panicked: bool, discovered: nat, ready: nat, finished: nat, primes: seq<nat>,
             sentAfter: seq<Message>, startedAfter: bool)
    requires s == WorkerState(workerDiscover[..], numDiscovered, numReady, numFinish, allPrimes, sent, started)
    modifies workerDiscover
    ensures panicked <==> Step(cfg, workerDiscover.Length, s, poll).None?
    ensures !panicked ==>
      Step(cfg, workerDiscover.Length, s, poll)
      == Some(WorkerState(workerDiscover[..], discovered, ready, finished, primes, sentAfter, startedAfter))
  {
    panicked := false;
    discovered, ready, finished, primes, sentAfter, startedAfter :=
      numDiscovered, numReady, numFinish, allPrimes, sent, started;
    if poll.Some? {
      var message := poll.value;
      if message.messageType == "discover" {
        if message.from >= workerDiscover.Length {
          return true, discovered, ready, finished, primes, sentAfter, startedAfter;
        }
        discovered, ready, sentAfter, startedAfter :=
          ReceiveDiscover(cfg, workerDiscover, message.from, message.data, numDiscovered, numReady, sent, started, s);
      } else if message.messageType == "searching" {
        primes := primes + [message.data];
      } else if message.messageType == "finish" {
        finished := finished + 1;
      }
    }
    if ready < workerDiscover.Length {
      sentAfter := sentAfter + [Message("discover", cfg.id, discovered)];
    }
  }

  /**
   * `main` from reading the roster to the sorted primes. `roster` is the text of `neighbors.txt`
   * and `polls` what `try_recv` returns at each iteration.
   */
  method RunWorker(cfg: WorkerConfig, roster: string, polls: seq<Option<Message>>) returns (out: RunOutcome)
    ensures out == Run(cfg, |Neighbors(roster)|, Init(|Neighbors(roster)|), polls)
  {
    var neighbors := ReadNeighbors(roster);
    var n := |neighbors|;
    var workerDiscover := new nat[n](_ => 0);
    var numDiscovered: nat, numReady: nat, numFinish: nat := 0, 0, 0;
    var allPrimes: seq<nat> := [];
    var sent: seq<Message> := [];
    var started := false;
    assert workerDiscover[..] == Init(n).discover;
    var i := 0;
    while numFinish < n && i < |polls|
      invariant i <= |polls| && workerDiscover.Length == n
      invariant Run(cfg, n, Init(n), polls)
        == Run(cfg, n, WorkerState(workerDiscover[..], numDiscovered, numReady, numFinish, allPrimes, sent, started), polls[i..])
      decreases |polls| - i
    {
      ghost var before := WorkerState(workerDiscover[..], numDiscovered, numReady, numFinish, allPrimes, sent, started);
      RunNext(cfg, n, before, polls, i);
      var panicked;
      panicked, numDiscovered, numReady, numFinish, allPrimes, sent, started :=
        Poll(cfg, workerDiscover, polls[i], numDiscovered, numReady, numFinish, allPrimes, sent, started, before);
      if panicked {
        return Panic;
      }
      i := i + 1;
    }
    var last := WorkerState(workerDiscover[..], numDiscovered, numReady, numFinish, allPrimes, sent, started);
    if numFinish < n {
      return Waiting(last);
    }
    var primes := SortAscending(allPrimes);
    out := Finished(last, primes);
  }
}
