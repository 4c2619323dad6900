/**
 * The workload partitioner of the prime-search example (gen-configs.py): cut `[2, n)` into
 * `k` contiguous shards with a moving cursor, one `config-{i}.json` per worker.
 */
module Partition {
  import opened Basics
  import opened Text

  /** The JSON object written for one worker. */
  datatype ShardConfig = ShardConfig(left: int, right: int)

  datatype ConfigFile = ConfigFile(name: string, config: ShardConfig)

  /** `ceil(1.0 * n / k)`, computed exactly. */
  function CeilDiv(n: int, k: int): (w: int)
    requires k > 0
    ensures (w - 1) * k < n <= w * k
  {
    var w := (n + k - 1) / k;
    assert w * k <= n + k - 1 < w * k + k;
    assert (w - 1) * k == w * k - k;
    w
  }

  function ConfigName(i: nat): string {
    "config-" + NatToString(i) + ".json"
  }

  /** The object `json.dump` writes: the keys `left` and `right`, and nothing else. */
  function ConfigJson(c: ShardConfig): (obj: map<string, int>)
    ensures obj.Keys == {"left", "right"}
    ensures "id" !in obj
    ensures obj["left"] == c.left && obj["right"] == c.right
  {
    map["left" := c.left, "right" := c.right]
  }

  function Configs(files: seq<ConfigFile>): (cs: seq<ShardConfig>)
    ensures |cs| == |files|
    ensures forall i :: 0 <= i < |files| ==> cs[i] == files[i].config
  {
    seq(|files|, i requires 0 <= i < |files| => files[i].config)
  }

  /**
   * The cursor rule for shards of width `w`: the first starts at 2, each later one at the
   * previous right edge, and each right edge is `min(n, left + w)`.
   */
  predicate Chained(n: int, w: int, shards: seq<ShardConfig>) {
    && (|shards| > 0 ==> shards[0].left == 2)
    && (forall i :: 0 < i < |shards| ==> shards[i].left == shards[i - 1].right)
    && (forall i :: 0 <= i < |shards| ==> shards[i].right == Min(n, shards[i].left + w))
  }

  /** `k` shards of width `ceil(n / k)` cut by the cursor rule; none when `k <= 0`. */
  predicate Cuts(n: int, k: int, shards: seq<ShardConfig>) {
    if k > 0 then |shards| == k && Chained(n, CeilDiv(n, k), shards) else shards == []
  }

  /** The cursor: where the next shard starts. */
  function Cursor(shards: seq<ShardConfig>): int {
    if shards == [] then 2 else shards[|shards| - 1].right
  }

  /** Worker `i`'s file is `config-{i}.json`. */
  predicate Named(files: seq<ConfigFile>) {
    forall i :: 0 <= i < |files| ==> files[i].name == ConfigName(i)
  }

  /**
   * One more turn of the loop keeps the cursor rule and the file names, and moves the cursor
   * to the new right edge.
   */
  lemma WriteNext(n: int, w: int, files: seq<ConfigFile>, right: int)
    requires Named(files) && Chained(n, w, Configs(files))
    requires right == Min(n, Cursor(Configs(files)) + w)
    ensures var next := files + [ConfigFile(ConfigName(|files|), ShardConfig(Cursor(Configs(files)), right))];
      Named(next) && Chained(n, w, Configs(next)) && Cursor(Configs(next)) == right
  {
    var c := ShardConfig(Cursor(Configs(files)), right);
    var next := files + [ConfigFile(ConfigName(|files|), c)];
    assert Configs(next) == Configs(files) + [c];
    ChainedSnoc(n, w, Configs(files));
    NamedSnoc(files, c);
  }

  lemma ChainedSnoc(n: int, w: int, shards: seq<ShardConfig>)
    requires Chained(n, w, shards)
    ensures Chained(n, w, shards + [ShardConfig(Cursor(shards), Min(n, Cursor(shards) + w))])
  {
  }

  lemma NamedSnoc(files: seq<ConfigFile>, c: ShardConfig)
    requires Named(files)
    ensures Named(files + [ConfigFile(ConfigName(|files|), c)])
  {
  }

  /** gen-configs.py `main`: the `for i in range(k)` loop with the `left = right` cursor. */
  method GenConfigs(n: int, k: int) returns (files: seq<ConfigFile>)
    ensures Cuts(n, k, Configs(files))
    ensures Named(files)
  {
    files := [];
    if k <= 0 {
      return;
    }
    var w := CeilDiv(n, k);
    var left := 2;
    var i := 0;
    while i < k
      invariant 0 <= i <= k && |files| == i
      invariant Named(files)
      invariant Chained(n, w, Configs(files)) && left == Cursor(Configs(files))
    {
      var right := Min(n, left + w);
      WriteNext(n, w, files, right);
      files := files + [ConfigFile(ConfigName(i), ShardConfig(left, right))];
      left := right;
      i := i + 1;
    }
  }

  /** Distinct workers get distinct file names. */
  lemma ConfigNamesDistinct(i: nat, j: nat)
    requires i != j
    ensures ConfigName(i) != ConfigName(j)
  {
    NatToStringInjective(i, j);
    var a, b := NatToString(i), NatToString(j);
    if |a| == |b| {
      assert ConfigName(i)[7..7 + |a|] == a;
      assert ConfigName(j)[7..7 + |b|] == b;
    }
  }

  /** For `n >= 2` the cursor after `i` shards sits at `min(n, 2 + i * ceil(n / k))`. */
  lemma {:induction false} CutsLeftAt(n: int, k: int, shards: seq<ShardConfig>, i: nat)
    requires n >= 2 && k > 0 && Cuts(n, k, shards) && i < k
    ensures shards[i].left == Min(n, 2 + i * CeilDiv(n, k))
    ensures shards[i].right == Min(n, 2 + (i + 1) * CeilDiv(n, k))
  {
    var w := CeilDiv(n, k);
    assert w >= 1;
    if i > 0 {
      CutsLeftAt(n, k, shards, i - 1);
    }
    assert (i + 1) * w == i * w + w;
  }

  /** Each shard is a non-empty-or-empty half-open range inside `[2, n]`, at most one width wide. */
  lemma CutsBounds(n: int, k: int, shards: seq<ShardConfig>, i: nat)
    requires n >= 2 && k > 0 && Cuts(n, k, shards) && i < k
    ensures 2 <= shards[i].left <= shards[i].right <= n
    ensures shards[i].right - shards[i].left <= CeilDiv(n, k)
    ensures shards[i].right < n ==> shards[i].right - shards[i].left == CeilDiv(n, k)
  {
    CutsLeftAt(n, k, shards, i);
    assert i * CeilDiv(n, k) >= 0;
  }

  /** The last shard always ends at `n`, because `2 + k * ceil(n / k) > n`. */
  lemma CutsEndAtN(n: int, k: int, shards: seq<ShardConfig>)
    requires n >= 2 && k > 0 && Cuts(n, k, shards)
    ensures shards[k - 1].right == n
  {
    var w := CeilDiv(n, k);
    CutsLeftAt(n, k, shards, k - 1);
    assert shards[k - 1].right == Min(n, 2 + (k - 1 + 1) * w);
    assert (k - 1 + 1) * w == w * k;
  }

  /** Shards never overlap: every later shard starts at or after an earlier one's end. */
  lemma {:induction false} CutsOrdered(n: int, k: int, shards: seq<ShardConfig>, i: nat, j: nat)
    requires n >= 2 && k > 0 && Cuts(n, k, shards) && i < j < k
    ensures shards[i].right <= shards[j].left
    decreases j - i
  {
    if j > i + 1 {
      CutsOrdered(n, k, shards, i, j - 1);
      CutsBounds(n, k, shards, j - 1);
    }
  }

  /** Every number of `[2, n)` lies in some shard. */
  lemma {:induction false} CutsCover(n: int, k: int, shards: seq<ShardConfig>, x: int)
    requires n >= 2 && k > 0 && Cuts(n, k, shards) && 2 <= x < n
    ensures exists i :: 0 <= i < k && shards[i].left <= x < shards[i].right
  {
    CutsEndAtN(n, k, shards);
    var j := k - 1;
    while x < shards[j].left
      invariant 0 <= j < k && x < shards[j].right
      decreases j
    {
      assert j > 0;
      j := j - 1;
    }
  }

  /** The code's answer for `n = 10, k = 3`: the third shard is empty. */
  lemma TenIntoThree(shards: seq<ShardConfig>)
    requires Cuts(10, 3, shards)
    ensures shards == [ShardConfig(2, 6), ShardConfig(6, 10), ShardConfig(10, 10)]
  {
    assert CeilDiv(10, 3) == 4;
    assert shards[0] == ShardConfig(2, 6);
    assert shards[1] == ShardConfig(6, 10);
    assert shards[2] == ShardConfig(10, 10);
  }
}
