/**
 * `load_config` of scripts/common.py (scripts/config.py holds the same code): start from the
 * saved configuration file, let every command-line argument that was given override it, insist
 * on a credential path, save the result, and only then read the credential file into the
 * configuration.
 *
 * The file system and YAML are parameters: `fileConfig` is the parsed configuration file if it
 * exists, `credFiles` maps each readable credential path to the values of its top-level
 * mapping, in file order.
 */
module LoadConfig {
  import opened Basics
  import opened Text

  /** The YAML / argparse values the configuration holds. */
  datatype Val = Null | Bool(b: bool) | Int(i: int) | Str(s: string)

  type Config = map<string, Val>

  /** Python truthiness of a value. */
  predicate Truthy(v: Val) {
    match v
    case Null => false
    case Bool(b) => b
    case Int(i) => i != 0
    case Str(s) => s != []
  }

  /** The arguments that override: those whose value is not `None`. */
  predicate Given(args: Config, k: string) {
    k in args && args[k] != Null
  }

  /** The configuration file overlaid with every given argument. */
  function Merge(base: Config, args: Config): (m: Config)
    ensures forall k :: k in m <==> k in base || Given(args, k)
    ensures forall k :: Given(args, k) ==> m[k] == args[k]
    ensures forall k :: k in base && !Given(args, k) ==> m[k] == base[k]
  {
    map k | k in base.Keys + args.Keys && (k in base || Given(args, k)) :: if Given(args, k) then args[k] else base[k]
  }

  /** `os.path.abspath` against the working directory `cwd`, without `..` normalisation. */
  function AbsPath(cwd: string, p: string): (r: string)
    ensures p != [] && p[0] == '/' ==> r == p
    ensures !(p != [] && p[0] == '/') ==> |cwd| <= |r| && r[..|cwd|] == cwd && |p| <= |r| && r[|r| - |p|..] == p
    ensures cwd != [] && cwd[0] == '/' ==> r != [] && r[0] == '/'
  {
    if p != [] && p[0] == '/' then p else PathJoin(cwd, p)
  }

  const CredentialFields: seq<(string, string)> := [
    ("key", "key_name"), ("key_path", "ssh_key"),
    ("aws_access_key_id", "access_key_id"), ("aws_secret_access_key", "secret_access_key")]

  /** The credential entry holds every field `load_credential` reads. */
  predicate HasCredentialFields(entry: Config) {
    "key_name" in entry && "ssh_key" in entry && "access_key_id" in entry && "secret_access_key" in entry
  }

  /** The configuration with the four credential fields copied in under their configuration names. */
  function WithCredential(config: Config, entry: Config): (c: Config)
    requires HasCredentialFields(entry)
    ensures c.Keys == config.Keys + {"key", "key_path", "aws_access_key_id", "aws_secret_access_key"}
    ensures forall i :: 0 <= i < |CredentialFields| ==> c[CredentialFields[i].0] == entry[CredentialFields[i].1]
    ensures forall k :: k in config && k !in {"key", "key_path", "aws_access_key_id", "aws_secret_access_key"} ==>
      c[k] == config[k]
  {
    config["key" := entry["key_name"]]["key_path" := entry["ssh_key"]]
      ["aws_access_key_id" := entry["access_key_id"]]["aws_secret_access_key" := entry["secret_access_key"]]
  }

  datatype LoadResult =
      /** No usable credential path: `sys.exit(1)`, nothing saved. */
    | MissingCredential
      /** The credential is set but is not text: `os.path.abspath` raises before anything is saved. */
    | CredentialNotPath
      /** The configuration was saved, then reading the credential file raised. */
    | CredentialUnreadable(saved: Config)
    | Loaded(saved: Config, config: Config)

  /** What is saved: the merged configuration with the credential path made absolute. */
  function SavedConfig(base: Config, args: Config, cwd: string): (c: Config)
    requires "credential" in Merge(base, args) && Merge(base, args)["credential"].Str?
    ensures c.Keys == Merge(base, args).Keys
    ensures c["credential"] == Str(AbsPath(cwd, Merge(base, args)["credential"].s))
    ensures forall k :: k in c && k != "credential" ==> c[k] == Merge(base, args)[k]
  {
    var m := Merge(base, args);
    m["credential" := Str(AbsPath(cwd, m["credential"].s))]
  }

  /** The `for t in args` loop: every given argument overwrites its key. */
  method Overlay(base: Config, args: Config) returns (config: Config)
    ensures config == Merge(base, args)
  {
    config := base;
    var todo := args.Keys;
    while todo != {}
      invariant todo <= args.Keys
      invariant forall k :: k in config <==> k in base || (Given(args, k) && k !in todo)
      invariant forall k :: Given(args, k) && k !in todo ==> config[k] == args[k]
      invariant forall k :: k in base && !(Given(args, k) && k !in todo) ==> config[k] == base[k]
      decreases todo
    {
      var t :| t in todo;
      if args[t] != Null {
        config := config[t := args[t]];
      }
      todo := todo - {t};
    }
    assert config == Merge(base, args);
  }

  /** `load_config`. `fileConfig` is the configuration file's content, `None` when there is no such file. */
  method Load(fileConfig: Option<Config>, args: Config, cwd: string, credFiles: map<string, seq<Config>>)
    returns (r: LoadResult)
    ensures var m := Merge(if fileConfig.Some? then fileConfig.value else map[], args);
      && (r == MissingCredential <==> "credential" !in m || !Truthy(m["credential"]))
      && (r == CredentialNotPath <==> "credential" in m && Truthy(m["credential"]) && !m["credential"].Str?)
      && ((r.CredentialUnreadable? || r.Loaded?) ==>
            "credential" in m && m["credential"].Str? && m["credential"].s != []
            && r.saved == SavedConfig(if fileConfig.Some? then fileConfig.value else map[], args, cwd))
    ensures r.Loaded? ==>
      var path := r.saved["credential"].s;
      path in credFiles && credFiles[path] != [] && HasCredentialFields(credFiles[path][0])
      && r.config == WithCredential(r.saved, credFiles[path][0])
    ensures r.CredentialUnreadable? ==>
      var path := r.saved["credential"].s;
      !(path in credFiles && credFiles[path] != [] && HasCredentialFields(credFiles[path][0]))
  {
    var config: Config := map[];
    if fileConfig.Some? {
      config := fileConfig.value;
    }
    config := Overlay(config, args);
    ghost var base := if fileConfig.Some? then fileConfig.value else map[];
    assert config == Merge(base, args);
    if "credential" !in config || !Truthy(config["credential"]) {
      return MissingCredential;
    }
    if !config["credential"].Str? {
      return CredentialNotPath;
    }
    config := config["credential" := Str(AbsPath(cwd, config["credential"].s))];
    assert config == SavedConfig(base, args, cwd);
    r := ReadCredential(config, credFiles);
  }

  /** The part of `load_config` after the save: `load_credential` on the saved path. */
  method ReadCredential(saved: Config, credFiles: map<string, seq<Config>>) returns (r: LoadResult)
    requires "credential" in saved && saved["credential"].Str?
    ensures (r.CredentialUnreadable? || r.Loaded?) && r.saved == saved
    ensures var path := saved["credential"].s;
      r.Loaded? <==> path in credFiles && credFiles[path] != [] && HasCredentialFields(credFiles[path][0])
    ensures r.Loaded? ==> r.config == WithCredential(saved, credFiles[saved["credential"].s][0])
  {
    var path := saved["credential"].s;
    if path !in credFiles || credFiles[path] == [] {
      return CredentialUnreadable(saved);
    }
    var entry := credFiles[path][0];
    if !HasCredentialFields(entry) {
      return CredentialUnreadable(saved);
    }
    var config := saved;
    config := config["key" := entry["key_name"]];
    config := config["key_path" := entry["ssh_key"]];
    config := config["aws_access_key_id" := entry["access_key_id"]];
    config := config["aws_secret_access_key" := entry["secret_access_key"]];
    assert config == WithCredential(saved, entry);
    r := Loaded(saved, config);
  }

  /**
   * What is saved is stable: loading the saved file again with the same arguments saves the
   * very same configuration.
   */
  lemma SavedIsStable(base: Config, args: Config, cwd: string)
    requires cwd != [] && cwd[0] == '/'
    requires "credential" in Merge(base, args) && Merge(base, args)["credential"].Str?
    ensures var s := SavedConfig(base, args, cwd);
      "credential" in Merge(s, args) && Merge(s, args)["credential"].Str?
      && SavedConfig(s, args, cwd) == s
  {
    var m := Merge(base, args);
    var p := m["credential"].s;
    var s := SavedConfig(base, args, cwd);
    assert s["credential"] == Str(AbsPath(cwd, p));
    var m2 := Merge(s, args);
    assert m2["credential"].Str? && AbsPath(cwd, m2["credential"].s) == AbsPath(cwd, p) by {
      if !Given(args, "credential") {
        assert m2["credential"] == Str(AbsPath(cwd, p));
      }
    }
    var r := SavedConfig(s, args, cwd);
    assert r.Keys == s.Keys;
    forall k | k in r
      ensures r[k] == s[k]
    {
      if k != "credential" && Given(args, k) {
        assert r[k] == args[k] == m[k];
      }
    }
  }
}
