/**
 * Android plugin configurations (platform/android/plugin/godot_plugin_config.h):
 * resolving dependency paths, validating a loaded `.gdap` configuration,
 * its modification time, and the `|`-joined lists handed to the Gradle build.
 *
 * The file system is a parameter: `existing` is the set of paths for which
 * `FileAccess::exists` holds and `mtime` gives `FileAccess::get_modified_time`.
 * The path helpers of `String` and `ProjectSettings` are parameters too.
 */
module PluginConfig {
  import opened Wrappers
  import Text

  const BINARY_TYPE_LOCAL := "local"
  const BINARY_TYPE_REMOTE := "remote"
  const PLUGIN_VALUE_SEPARATOR := "|"

  datatype PluginConfigAndroid = PluginConfigAndroid(
    validConfig: bool,
    lastUpdated: nat,
    name: string,
    binaryType: string,
    binary: string,
    localDependencies: seq<string>,
    remoteDependencies: seq<string>,
    customMavenRepos: seq<string>)

  /** The value-initialised configuration `PluginConfigAndroid plugin_config = {}`. */
  const DEFAULT_CONFIG := PluginConfigAndroid(false, 0, "", "", "", [], [], [])

  /** `String::is_abs_path`, `ProjectSettings::globalize_path`, `String::plus_file` and `String::get_base_dir`. */
  datatype PathOps = PathOps(
    isAbsPath: string -> bool,
    globalizePath: string -> string,
    plusFile: (string, string) -> string,
    baseDir: string -> string)

  /** `resolve_local_dependency_path`: empty stays empty, an absolute path is globalised, a relative one joined onto the directory. */
  function ResolveLocalDependencyPath(paths: PathOps, configDir: string, dependencyPath: string): (r: string)
    ensures dependencyPath == "" ==> r == ""
  {
    if dependencyPath == "" then ""
    else if paths.isAbsPath(dependencyPath) then paths.globalizePath(dependencyPath)
    else paths.plusFile(configDir, dependencyPath)
  }

  /** The configuration with its binary, when local, and every local dependency resolved against `configDir`. */
  function Resolved(paths: PathOps, p: PluginConfigAndroid, configDir: string): PluginConfigAndroid
  {
    p.(binary := if p.binaryType == BINARY_TYPE_LOCAL then ResolveLocalDependencyPath(paths, configDir, p.binary) else p.binary,
       localDependencies := seq(|p.localDependencies|, k requires 0 <= k < |p.localDependencies| =>
         ResolveLocalDependencyPath(paths, configDir, p.localDependencies[k])))
  }

  /** `resolve_prebuilt_plugin`, with its loop over the local dependencies. */
  method ResolvePrebuiltPlugin(paths: PathOps, prebuilt: PluginConfigAndroid, configDir: string) returns (resolved: PluginConfigAndroid)
    ensures resolved == Resolved(paths, prebuilt, configDir)
  {
    resolved := prebuilt;
    resolved := resolved.(binary := if resolved.binaryType == BINARY_TYPE_LOCAL then ResolveLocalDependencyPath(paths, configDir, prebuilt.binary) else prebuilt.binary);
    if prebuilt.localDependencies != [] {
      var deps: seq<string> := [];
      var i := 0;
      while i < |prebuilt.localDependencies|
        invariant 0 <= i <= |prebuilt.localDependencies| && |deps| == i
        invariant forall k :: 0 <= k < i ==> deps[k] == ResolveLocalDependencyPath(paths, configDir, prebuilt.localDependencies[k])
      {
        deps := deps + [ResolveLocalDependencyPath(paths, configDir, prebuilt.localDependencies[i])];
        i := i + 1;
      }
      resolved := resolved.(localDependencies := deps);
    }
  }

  /**
   * Resolving a prebuilt plugin against a configuration file's directory
   * gives the binary and local dependencies that loading that file with the
   * same values gives; nothing else of the plugin changes.
   */
  lemma ResolvedLikeLoaded(paths: PathOps, v: ConfigValues, path: string, existing: set<string>, mtime: string -> nat)
    requires v.hasDependencies
    ensures var p := PluginConfigAndroid(false, 0, v.name, v.binaryType, v.binary, v.local, v.remote, v.customMavenRepos);
      var r := Resolved(paths, p, paths.baseDir(path));
      var c := LoadPluginConfig(Some(v), path, paths, existing, mtime);
      && r.binary == c.binary && r.localDependencies == c.localDependencies
      && r.(binary := p.binary, localDependencies := p.localDependencies) == p
  {
    var p := PluginConfigAndroid(false, 0, v.name, v.binaryType, v.binary, v.local, v.remote, v.customMavenRepos);
    var c := LoadPluginConfig(Some(v), path, paths, existing, mtime);
    assert Resolved(paths, p, paths.baseDir(path)).localDependencies == c.localDependencies;
  }

  // ---- Validation ----

  /**
   * What makes a configuration usable: a name, a known binary type, a
   * binary that is remote or exists, and every local dependency existing.
   */
  predicate ValidConfig(c: PluginConfigAndroid, existing: set<string>)
  {
    && c.name != ""
    && (c.binaryType == BINARY_TYPE_LOCAL || c.binaryType == BINARY_TYPE_REMOTE)
    && c.binary != ""
    && (c.binaryType == BINARY_TYPE_REMOTE || c.binary in existing)
    && (forall d :: d in c.localDependencies ==> d in existing)
  }

  /** `is_plugin_config_valid`, with its dependency loop that stops at the first missing file. */
  method IsPluginConfigValid(c: PluginConfigAndroid, existing: set<string>) returns (valid: bool)
    ensures valid <==> ValidConfig(c, existing)
  {
    var validName := c.name != "";
    var validBinaryType := c.binaryType == BINARY_TYPE_LOCAL || c.binaryType == BINARY_TYPE_REMOTE;
    var validBinary := false;
    if validBinaryType {
      validBinary := c.binary != "" && (c.binaryType == BINARY_TYPE_REMOTE || c.binary in existing);
    }
    var validLocalDependencies := true;
    if c.localDependencies != [] {
      var i := 0;
      while i < |c.localDependencies|
        invariant 0 <= i <= |c.localDependencies|
        invariant validLocalDependencies
        invariant forall k :: 0 <= k < i ==> c.localDependencies[k] in existing
      {
        if c.localDependencies[i] !in existing {
          validLocalDependencies := false;
          break;
        }
        i := i + 1;
      }
    }
    valid := validName && validBinary && validBinaryType && validLocalDependencies;
  }

  // ---- Modification time ----

  /** The latest of `start` and the modification times of `files`, taken left to right. */
  function Latest(start: nat, files: seq<string>, mtime: string -> nat): nat
  {
    if files == [] then start
    else
      var before := Latest(start, files[..|files| - 1], mtime);
      var t := mtime(files[|files| - 1]);
      Max(before, t)
  }

  function Max(a: nat, b: nat): nat
  {
    if a < b then b else a
  }

  /** The modification time over the configuration file, the binary and every local dependency. */
  function ModificationTime(c: PluginConfigAndroid, configPath: string, mtime: string -> nat): nat
  {
    Latest(Max(mtime(configPath), mtime(c.binary)), c.localDependencies, mtime)
  }

  /** The latest time is at least every file's time and is the time of one of them. */
  lemma {:induction false} LatestIsMaximum(start: nat, files: seq<string>, mtime: string -> nat)
    ensures start <= Latest(start, files, mtime)
    ensures forall f :: f in files ==> mtime(f) <= Latest(start, files, mtime)
    ensures Latest(start, files, mtime) == start
      || exists k :: 0 <= k < |files| && Latest(start, files, mtime) == mtime(files[k])
  {
    if files != [] {
      var init := files[..|files| - 1];
      LatestIsMaximum(start, init, mtime);
      assert files == init + [files[|files| - 1]];
      var r := Latest(start, files, mtime);
      if r != start && r != mtime(files[|files| - 1]) {
        var k :| 0 <= k < |init| && Latest(start, init, mtime) == mtime(init[k]);
        assert r == mtime(files[k]);
      }
    }
  }

  /** The plugin's modification time is the maximum over its configuration file, binary and local dependencies. */
  lemma ModificationTimeIsMaximum(c: PluginConfigAndroid, configPath: string, mtime: string -> nat)
    ensures var t := ModificationTime(c, configPath, mtime);
      && mtime(configPath) <= t && mtime(c.binary) <= t
      && (forall d :: d in c.localDependencies ==> mtime(d) <= t)
      && (t == mtime(configPath) || t == mtime(c.binary) || exists d :: d in c.localDependencies && t == mtime(d))
  {
    LatestIsMaximum(Max(mtime(configPath), mtime(c.binary)), c.localDependencies, mtime);
    var t := ModificationTime(c, configPath, mtime);
    if t != Max(mtime(configPath), mtime(c.binary)) {
      var k :| 0 <= k < |c.localDependencies| && t == mtime(c.localDependencies[k]);
      assert c.localDependencies[k] in c.localDependencies;
    }
  }

  /** `get_plugin_modification_time`. */
  method GetPluginModificationTime(c: PluginConfigAndroid, configPath: string, mtime: string -> nat) returns (lastUpdated: nat)
    ensures lastUpdated == ModificationTime(c, configPath, mtime)
  {
    lastUpdated := mtime(configPath);
    lastUpdated := Max(lastUpdated, mtime(c.binary));
    var i := 0;
    while i < |c.localDependencies|
      invariant 0 <= i <= |c.localDependencies|
      invariant lastUpdated == Latest(Max(mtime(configPath), mtime(c.binary)), c.localDependencies[..i], mtime)
    {
      var binary := c.localDependencies[i];
      assert c.localDependencies[..i + 1][..i] == c.localDependencies[..i];
      lastUpdated := Max(lastUpdated, mtime(binary));
      i := i + 1;
    }
    assert c.localDependencies[..i] == c.localDependencies;
  }

  // ---- Loading ----

  /**
   * The values a loaded configuration file gives for the plugin's keys, each
   * already defaulted (an empty string or list) when the key is absent;
   * `hasDependencies` says whether the `dependencies` section exists.
   */
  datatype ConfigValues = ConfigValues(
    name: string,
    binaryType: string,
    binary: string,
    hasDependencies: bool,
    local: seq<string>,
    remote: seq<string>,
    customMavenRepos: seq<string>)

  /**
   * `load_plugin_config`: `loaded` is `None` when the configuration file
   * object is invalid or fails to load.
   */
  function LoadPluginConfig(loaded: Option<ConfigValues>, path: string, paths: PathOps,
                            existing: set<string>, mtime: string -> nat): (c: PluginConfigAndroid)
    ensures loaded.None? ==> c == DEFAULT_CONFIG
    ensures loaded.Some? ==>
      var v := loaded.value;
      var dir := paths.baseDir(path);
      && c.name == v.name && c.binaryType == v.binaryType
      && c.binary == (if v.binaryType == BINARY_TYPE_LOCAL then ResolveLocalDependencyPath(paths, dir, v.binary) else v.binary)
      && |c.localDependencies| == (if v.hasDependencies then |v.local| else 0)
      && (forall k :: 0 <= k < |c.localDependencies| ==>
            c.localDependencies[k] == ResolveLocalDependencyPath(paths, dir, v.local[k]))
      && c.remoteDependencies == (if v.hasDependencies then v.remote else [])
      && c.customMavenRepos == (if v.hasDependencies then v.customMavenRepos else [])
      && (c.validConfig <==> ValidConfig(c, existing))
      && c.lastUpdated == ModificationTime(c, path, mtime)
  {
    match loaded
    case None => DEFAULT_CONFIG
    case Some(v) =>
      var dir := paths.baseDir(path);
      var binary := if v.binaryType == BINARY_TYPE_LOCAL then ResolveLocalDependencyPath(paths, dir, v.binary) else v.binary;
      var local := if v.hasDependencies then seq(|v.local|, k requires 0 <= k < |v.local| => ResolveLocalDependencyPath(paths, dir, v.local[k])) else [];
      var remote := if v.hasDependencies then v.remote else [];
      var repos := if v.hasDependencies then v.customMavenRepos else [];
      var c := PluginConfigAndroid(false, 0, v.name, v.binaryType, binary, local, remote, repos);
      c.(validConfig := ValidConfig(c, existing), lastUpdated := ModificationTime(c, path, mtime))
  }

  // ---- Joined lists ----

  /** The items each configuration contributes, in configuration order. */
  function Collect(configs: seq<PluginConfigAndroid>, pick: PluginConfigAndroid -> seq<string>): seq<string>
  {
    if configs == [] then []
    else Collect(configs[..|configs| - 1], pick) + pick(configs[|configs| - 1])
  }

  /** An item is collected exactly when some configuration contributes it. */
  lemma {:induction false} CollectMembers(configs: seq<PluginConfigAndroid>, pick: PluginConfigAndroid -> seq<string>, x: string)
    ensures x in Collect(configs, pick) <==> exists k :: 0 <= k < |configs| && x in pick(configs[k])
  {
    if configs != [] {
      var init := configs[..|configs| - 1];
      CollectMembers(init, pick, x);
      if x in Collect(configs, pick) && x !in pick(configs[|configs| - 1]) {
        var k :| 0 <= k < |init| && x in pick(init[k]);
        assert configs[k] == init[k];
      }
      if exists k :: 0 <= k < |configs| && x in pick(configs[k]) {
        var k :| 0 <= k < |configs| && x in pick(configs[k]);
        if k < |init| {
          assert init[k] == configs[k];
        }
      }
    }
  }

  /** What one configuration adds to `get_plugins_binaries` for the requested type. */
  function BinariesOf(binaryType: string, c: PluginConfigAndroid): seq<string>
  {
    if !c.validConfig then []
    else
      (if c.binaryType == binaryType then [c.binary] else [])
      + (if binaryType == BINARY_TYPE_LOCAL then c.localDependencies else [])
      + (if binaryType == BINARY_TYPE_REMOTE then c.remoteDependencies else [])
  }

  function NameOf(c: PluginConfigAndroid): seq<string>
  {
    if c.validConfig then [c.name] else []
  }

  function ReposOf(c: PluginConfigAndroid): seq<string>
  {
    if c.validConfig then c.customMavenRepos else []
  }

  /** `get_plugins_binaries`: the binaries of the valid configurations of the requested type, `|`-joined. */
  method GetPluginsBinaries(binaryType: string, configs: seq<PluginConfigAndroid>) returns (pluginsBinaries: string)
    ensures pluginsBinaries == Text.Join(Collect(configs, c => BinariesOf(binaryType, c)), PLUGIN_VALUE_SEPARATOR)
  {
    pluginsBinaries := "";
    if configs != [] {
      var binaries: seq<string> := [];
      var i := 0;
      while i < |configs|
        invariant 0 <= i <= |configs|
        invariant binaries == Collect(configs[..i], c => BinariesOf(binaryType, c))
      {
        var config := configs[i];
        assert configs[..i + 1][..i] == configs[..i];
        if !config.validConfig {
          i := i + 1;
          continue;
        }
        var added := AddedBinaries(binaryType, config);
        binaries := binaries + added;
        i := i + 1;
      }
      assert configs[..i] == configs;
      pluginsBinaries := Text.Join(binaries, PLUGIN_VALUE_SEPARATOR);
    }
  }

  /** The binaries one valid configuration pushes for the requested type, in the order they are pushed. */
  method AddedBinaries(binaryType: string, config: PluginConfigAndroid) returns (added: seq<string>)
    requires config.validConfig
    ensures added == BinariesOf(binaryType, config)
  {
    added := [];
    if config.binaryType == binaryType {
      added := added + [config.binary];
    }
    if binaryType == BINARY_TYPE_LOCAL {
      added := added + config.localDependencies;
    }
    if binaryType == BINARY_TYPE_REMOTE {
      added := added + config.remoteDependencies;
    }
  }

  /**
   * A path is among the binaries of a type exactly when a valid configuration
   * has it as its binary of that type, or lists it among the local (for
   * "local") or remote (for "remote") dependencies.
   */
  lemma BinariesMembers(binaryType: string, configs: seq<PluginConfigAndroid>, x: string)
    ensures x in Collect(configs, c => BinariesOf(binaryType, c)) <==>
      exists k :: 0 <= k < |configs| && configs[k].validConfig &&
        ((configs[k].binaryType == binaryType && x == configs[k].binary)
         || (binaryType == BINARY_TYPE_LOCAL && x in configs[k].localDependencies)
         || (binaryType == BINARY_TYPE_REMOTE && x in configs[k].remoteDependencies))
  {
    CollectMembers(configs, c => BinariesOf(binaryType, c), x);
  }

  /** `get_plugins_custom_maven_repos`: the repositories of the valid configurations, `|`-joined. */
  method GetPluginsCustomMavenRepos(configs: seq<PluginConfigAndroid>) returns (customMavenRepos: string)
    ensures customMavenRepos == Text.Join(Collect(configs, ReposOf), PLUGIN_VALUE_SEPARATOR)
  {
    customMavenRepos := "";
    if configs != [] {
      var reposUrls: seq<string> := [];
      var i := 0;
      while i < |configs|
        invariant 0 <= i <= |configs|
        invariant reposUrls == Collect(configs[..i], ReposOf)
      {
        var config := configs[i];
        assert configs[..i + 1][..i] == configs[..i];
        if !config.validConfig {
          i := i + 1;
          continue;
        }
        reposUrls := reposUrls + config.customMavenRepos;
        i := i + 1;
      }
      assert configs[..i] == configs;
      customMavenRepos := Text.Join(reposUrls, PLUGIN_VALUE_SEPARATOR);
    }
  }

  /** A repository is listed exactly when a valid configuration lists it. */
  lemma ReposMembers(configs: seq<PluginConfigAndroid>, x: string)
    ensures x in Collect(configs, ReposOf) <==>
      exists k :: 0 <= k < |configs| && configs[k].validConfig && x in configs[k].customMavenRepos
  {
    CollectMembers(configs, ReposOf, x);
  }

  /** `get_plugins_names`: the names of the valid configurations in order, `|`-joined. */
  method GetPluginsNames(configs: seq<PluginConfigAndroid>) returns (pluginsNames: string)
    ensures pluginsNames == Text.Join(Collect(configs, NameOf), PLUGIN_VALUE_SEPARATOR)
  {
    pluginsNames := "";
    if configs != [] {
      var names: seq<string> := [];
      var i := 0;
      while i < |configs|
        invariant 0 <= i <= |configs|
        invariant names == Collect(configs[..i], NameOf)
      {
        var config := configs[i];
        assert configs[..i + 1][..i] == configs[..i];
        if !config.validConfig {
          i := i + 1;
          continue;
        }
        names := names + [config.name];
        i := i + 1;
      }
      assert configs[..i] == configs;
      pluginsNames := Text.Join(names, PLUGIN_VALUE_SEPARATOR);
    }
  }

  /** One name per valid configuration, in the configurations' order. */
  lemma {:induction false} NamesInOrder(configs: seq<PluginConfigAndroid>)
    ensures var names := Collect(configs, NameOf);
      && |names| <= |configs|
      && (forall k :: 0 <= k < |configs| && configs[k].validConfig ==> configs[k].name in names)
      && (forall x :: x in names ==> exists k :: 0 <= k < |configs| && configs[k].validConfig && configs[k].name == x)
  {
    if configs != [] {
      var init := configs[..|configs| - 1];
      NamesInOrder(init);
      forall k | 0 <= k < |configs| && configs[k].validConfig
        ensures configs[k].name in Collect(configs, NameOf)
      {
        CollectMembers(configs, NameOf, configs[k].name);
      }
      forall x | x in Collect(configs, NameOf)
        ensures exists k :: 0 <= k < |configs| && configs[k].validConfig && configs[k].name == x
      {
        CollectMembers(configs, NameOf, x);
      }
    }
  }

  /**
   * When no name holds the separator, splitting the joined names on `|`
   * gives back the names of the valid configurations.
   */
  lemma NamesSplitBack(configs: seq<PluginConfigAndroid>)
    requires Collect(configs, NameOf) != []
    requires forall k :: 0 <= k < |configs| ==> '|' !in configs[k].name
    ensures Text.Split(Text.Join(Collect(configs, NameOf), PLUGIN_VALUE_SEPARATOR), PLUGIN_VALUE_SEPARATOR) == Collect(configs, NameOf)
  {
    var names := Collect(configs, NameOf);
    forall k | 0 <= k < |names| ensures '|' !in names[k] {
      NamesInOrder(configs);
      assert names[k] in names;
    }
    Text.SplitJoin(names, '|');
  }
}
