/**
 * The `browser configure` command (cmd/browser/configure.go): the flag
 * check run before anything else, then the package selection, the option
 * decision, and either the purge of the generated files or the writing of
 * the engine file, the include and the wrapper script.
 */
module BrowserConfigure {
  import opened Wrappers
  import opened Tools
  import opened Paths
  import opened Builds
  import opened BrowserPackages
  import opened BrowserEngines
  import opened BrowserCatalogs
  import opened BrowserConfigurators

  /** The command's flags and positional arguments. */
  datatype Flags = Flags(
    systemDir: string, homeDir: string,
    defaults: bool, withoutOpts: bool, system: bool, user: bool,
    exec: bool, purge: bool, onlyUpdateIncludes: bool,
    args: seq<string>)

  /** Why the flag check stops the command (exit status 1). */
  datatype Rejection =
    | InvalidSystemDir
    | InvalidHomeDir
    | NoAction
    | DefaultsAndWithoutOpts
    | PurgeAndExec
    | SystemAndUser
    | NoPackage

  /** The checks in the order the command makes them. */
  const Checks: seq<Rejection> := [InvalidSystemDir, InvalidHomeDir, NoAction, DefaultsAndWithoutOpts, PurgeAndExec, SystemAndUser, NoPackage]

  /** Whether the flags break the rule a rejection names. */
  predicate Violates(f: Flags, r: Rejection) {
    match r
    case InvalidSystemDir => f.systemDir == ""
    case InvalidHomeDir => f.homeDir == ""
    case NoAction => !f.defaults && !f.withoutOpts && !f.purge && !f.onlyUpdateIncludes
    case DefaultsAndWithoutOpts => f.defaults && f.withoutOpts
    case PurgeAndExec => f.purge && f.exec
    case SystemAndUser => f.system && f.user
    case NoPackage => |f.args| == 0
  }

  function FirstViolated(f: Flags, checks: seq<Rejection>): (r: Option<Rejection>)
    ensures r.None? <==> forall i | 0 <= i < |checks| :: !Violates(f, checks[i])
    ensures r.Some? ==> exists i | 0 <= i < |checks| :: checks[i] == r.value && Violates(f, r.value) && forall j | 0 <= j < i :: !Violates(f, checks[j])
    decreases |checks|
  {
    if |checks| == 0 then None
    else if Violates(f, checks[0]) then Some(checks[0])
    else
      var r := FirstViolated(f, checks[1..]);
      if r.Some? then
        var i :| 0 <= i < |checks[1..]| && checks[1..][i] == r.value && Violates(f, r.value) && forall j | 0 <= j < i :: !Violates(f, checks[1..][j]);
        assert checks[i + 1] == r.value && forall j | 0 <= j < i + 1 :: !Violates(f, checks[j]);
        r
      else r
  }

  /**
   * The `PreRun` check: the first rule the flags break, in the command's
   * order, or nothing when the command may run.
   */
  function Validate(f: Flags): (r: Option<Rejection>)
    ensures r.None? <==>
      f.systemDir != "" && f.homeDir != "" &&
      (f.defaults || f.withoutOpts || f.purge || f.onlyUpdateIncludes) &&
      !(f.defaults && f.withoutOpts) && !(f.purge && f.exec) && !(f.system && f.user) && |f.args| > 0
    ensures r.Some? ==> Violates(f, r.value)
  {
    var r := FirstViolated(f, Checks);
    assert r.None? <== forall i | 0 <= i < |Checks| :: !Violates(f, Checks[i]);
    assert r.None? ==> (!Violates(f, Checks[0]) && !Violates(f, Checks[1]) && !Violates(f, Checks[2]) && !Violates(f, Checks[3]) &&
      !Violates(f, Checks[4]) && !Violates(f, Checks[5]) && !Violates(f, Checks[6]));
    r
  }

  /** An empty directory is reported before any other mistake. */
  lemma EmptyDirRejectedFirst(f: Flags)
    requires f.systemDir == "" || f.homeDir == ""
    ensures Validate(f) == Some(if f.systemDir == "" then InvalidSystemDir else InvalidHomeDir)
  {
  }

  /**
   * The filesystem as the command sees it: the paths that exist, the paths
   * whose removal, creation or writing fails, the user's home as
   * `os.UserHomeDir` reports it, and the YAML encoder.
   */
  datatype World = World(present: set<string>, failing: set<string>, home: Option<string>, marshal: Engine -> Result<string, string>)

  function Stat(w: World, path: string): StatOutcome {
    if path in w.present then Found else NotExist
  }

  /** The map orders of the three lookups the command makes. */
  datatype RunOrders = RunOrders(lookup: Orders, purge: seq<string>)

  datatype Failure =
    | NotFound(cause: WorkError)
    | EngineNotInCatalog(name: string)
    | RemoveFailed(path: string)
    | EngineWriteFailed(path: string)
    | IncludeFailed(e: ScriptError)
    | ScriptFailed(e: ScriptError)

  datatype Status =
    | Done
    /** `--defaults` with an engine offering no default option: exit status 0, nothing written. */
    | NothingToDo
    | Rejected(rejection: Rejection)
    | Failed(failure: Failure)

  datatype Action =
    | Removed(path: string)
    | WroteEngine(path: string, data: string)
    | WroteInclude(file: FileOut)
    | WroteScript(file: FileOut)

  datatype Outcome = Outcome(actions: seq<Action>, status: Status)

  /** The selection with its package replaced, in the engine too: the two share the package in Go. */
  function WithPackage(s: Selection, p: Package): (r: Selection)
    requires s.Valid()
    ensures r.Valid() && r.Package() == p && r.key == s.key
    ensures r.engine.name == s.engine.name && r.engine.options == s.engine.options
    ensures r.engine.packages.Keys == s.engine.packages.Keys
    ensures forall k | k in s.engine.packages && k != s.key :: r.engine.packages[k] == s.engine.packages[k]
  {
    Selection(s.engine.(packages := s.engine.packages[s.key := p]), s.key)
  }

  /**
   * The option decision. With `--defaults` and no purge the catalog must
   * hold the selected engine's name; unless only the includes are
   * updated, the package takes the catalog engine's default options, and
   * having none ends the run. Otherwise `--without-opts` clears the
   * options unless only the includes are updated.
   */
  function DecideOptions(f: Flags, catalog: Catalog, s: Selection, minimize: Opt -> Opt): (r: Result<Selection, Status>)
    requires s.Valid()
    ensures r.Ok? ==> r.value.Valid() && r.value.key == s.key && r.value.engine.name == s.engine.name
    ensures r.Ok? ==> r.value.Package().(enabledOptions := s.Package().enabledOptions) == s.Package()
    ensures r.Err? <==> (f.defaults && !f.purge &&
      (s.engine.name !in catalog.engines ||
       (!f.onlyUpdateIncludes && DefaultOptions(catalog.engines[s.engine.name].options) == [])))
    ensures r.Err? ==> r.error == (if s.engine.name !in catalog.engines then Failed(EngineNotInCatalog(s.engine.name)) else NothingToDo)
    ensures r.Ok? && f.defaults && !f.purge && !f.onlyUpdateIncludes ==>
      var defs := DefaultOptions(catalog.engines[s.engine.name].options);
      |r.value.Package().enabledOptions| == |defs| &&
      forall i | 0 <= i < |defs| :: r.value.Package().enabledOptions[i] == minimize(defs[i])
    ensures r.Ok? && !(f.defaults && !f.purge) && f.withoutOpts && !f.onlyUpdateIncludes ==> !HasOptions(r.value.Package())
    ensures r.Ok? && (f.onlyUpdateIncludes || (!f.defaults && !f.withoutOpts) || (f.purge && !f.withoutOpts)) ==> r.value == s
  {
    if f.defaults && !f.purge then
      match GetEngine(catalog, s.engine.name)
      case None => Err(Failed(EngineNotInCatalog(s.engine.name)))
      case Some(catEngine) =>
        if f.onlyUpdateIncludes then Ok(s)
        else
          var defOpts := DefaultOptions(catEngine.options);
          if |defOpts| == 0 then Err(NothingToDo)
          else Ok(WithPackage(s, SetEnabledOptions(s.Package(), defOpts, minimize)))
    else if f.withoutOpts && !f.onlyUpdateIncludes then Ok(WithPackage(s, ClearOptions(s.Package())))
    else Ok(s)
  }

  /**
   * `<dir>/<engine>.<binary's base name>.inc`, joined and cleaned as
   * `filepath.Join` does: where the include of a package lives.
   */
  function IncludePath(dir: string, s: Selection): string
    requires s.Valid()
  {
    CleanJoin(dir, s.engine.name + "." + Base(s.Package().binary) + ".inc")
  }

  /** `<dir>/<engine>.yml`, joined and cleaned: the engine file. */
  function EnginePath(dir: string, s: Selection): string {
    CleanJoin(dir, s.engine.name + ".yml")
  }

  /**
   * A directory flag given with a trailing slash names the same include
   * and engine file as without it.
   */
  lemma SlashedDirSamePaths(dir: string, s: Selection)
    requires s.Valid()
    ensures IncludePath(dir + "/", s) == IncludePath(dir, s)
    ensures EnginePath(dir + "/", s) == EnginePath(dir, s)
  {
    TrailingSlashIgnored(dir, s.engine.name + "." + Base(s.Package().binary) + ".inc");
    TrailingSlashIgnored(dir, s.engine.name + ".yml");
  }

  /** Removes `path` if it exists; a failed removal is fatal. */
  function RemoveIfPresent(w: World, path: string, acts: seq<Action>): (r: Outcome)
    ensures path !in w.present ==> r == Outcome(acts, Done)
    ensures path in w.present && path !in w.failing ==> r == Outcome(acts + [Removed(path)], Done)
    ensures path in w.present && path in w.failing ==> r == Outcome(acts, Failed(Failure.RemoveFailed(path)))
  {
    if !Exists(Stat(w, path)) then Outcome(acts, Done)
    else if path in w.failing then Outcome(acts, Failed(Failure.RemoveFailed(path)))
    else Outcome(acts + [Removed(path)], Done)
  }

  /**
   * The system half of `--purge`, on the three paths: the include, the
   * binary, then the engine file when `sole` says the engine holds only
   * this package. The first failed removal stops it.
   */
  function PurgeSystem(w: World, inc: string, bin: string, yml: string, sole: bool): (r: Outcome)
    ensures r.status == Done || r.status.Failed?
    ensures forall a | a in r.actions :: a.Removed?
    ensures Removed(yml) in r.actions ==> sole || yml == inc || yml == bin
    ensures inc in w.present && inc in w.failing ==> r == Outcome([], Failed(Failure.RemoveFailed(inc)))
  {
    var r1 := RemoveIfPresent(w, inc, []);
    if r1.status != Done then r1
    else
      var r2 := RemoveIfPresent(w, bin, r1.actions);
      if r2.status != Done then r2
      else if sole then RemoveIfPresent(w, yml, r2.actions)
      else r2
  }

  /**
   * `--purge`. For the system: the include, the binary, and the engine
   * file, the last only when the system engine holding the package has
   * exactly one package. For the user: the include.
   */
  function Purge(f: Flags, c: Configurator, s: Selection, pkgname: string, purgeOrder: seq<string>, w: World): (r: Outcome)
    requires s.Valid()
    ensures r.status == Done || r.status.Failed?
    ensures forall a | a in r.actions :: a.Removed?
    ensures !f.system ==> r == RemoveIfPresent(w, IncludePath(f.homeDir, s), [])
    ensures f.system && Removed(EnginePath(f.systemDir, s)) in r.actions ==>
      var held := GetEngineAndPackage(c.systemConfig, pkgname, purgeOrder);
      (held.Some? && NumPackages(held.value.0) == 1) ||
      EnginePath(f.systemDir, s) == IncludePath(f.systemDir, s) || EnginePath(f.systemDir, s) == s.Package().binary
  {
    if f.system then
      var held := GetEngineAndPackage(c.systemConfig, pkgname, purgeOrder);
      PurgeSystem(w, IncludePath(f.systemDir, s), s.Package().binary, EnginePath(f.systemDir, s),
                  held.Some? && NumPackages(held.value.0) == 1)
    else RemoveIfPresent(w, IncludePath(f.homeDir, s), [])
  }

  /** The directory the run targets. */
  function TargetDir(f: Flags): string {
    if f.system then f.systemDir else f.homeDir
  }

  /** `Engine.WriteConfig` on the engine file at `yml`. */
  function WriteEngineFileAt(s: Selection, w: World, yml: string): (r: Outcome)
    ensures r.status == Done || r.status == Failed(EngineWriteFailed(yml))
    ensures r.status == Done ==> w.marshal(s.engine.(options := [])).Ok? && r.actions == [WroteEngine(yml, w.marshal(s.engine.(options := [])).value)]
    ensures r.status != Done ==> r.actions == []
  {
    var mkdirErr := if Dir(yml) in w.failing then Some("mkdir") else None;
    var writeErr := if yml in w.failing then Some("write") else None;
    var out := WriteConfig(s.engine, Stat(w, Dir(yml)), mkdirErr, w.marshal, writeErr);
    if out.err.Some? then Outcome([], Failed(EngineWriteFailed(yml)))
    else Outcome([WroteEngine(yml, out.data.value)], Done)
  }

  /** `Engine.WriteConfig` on the target directory's engine file. */
  function WriteEngineFile(f: Flags, s: Selection, w: World): (r: Outcome)
    ensures r.status == Done || r.status == Failed(EngineWriteFailed(EnginePath(TargetDir(f), s)))
    ensures r.status == Done ==> w.marshal(s.engine.(options := [])).Ok? && r.actions == [WroteEngine(EnginePath(TargetDir(f), s), w.marshal(s.engine.(options := [])).value)]
    ensures r.status != Done ==> r.actions == []
  {
    WriteEngineFileAt(s, w, EnginePath(TargetDir(f), s))
  }

  /**
   * `--exec` with the include at `inc`: the include, then for the system
   * the wrapper script.
   */
  function WriteScriptsAt(build: Build, f: Flags, cs: Configurator, s: Selection, w: World, acts: seq<Action>, inc: string): (r: Outcome)
    requires s.Valid() && cs.selected == Some(s)
    ensures r.status == Done || r.status.Failed?
    ensures |r.actions| >= |acts| && r.actions[..|acts|] == acts
    ensures forall i | |acts| <= i < |r.actions| :: r.actions[i].WroteInclude? || r.actions[i].WroteScript?
    ensures forall i | |acts| <= i < |r.actions| && r.actions[i].WroteScript? :: f.system
    ensures forall i | |acts| <= i < |r.actions| && r.actions[i].WroteInclude? ::
      r.actions[i].file == FileOut(inc, IncludeContent(s.Package()))
  {
    match GenerateIncludeScript(cs, inc, Stat(w, inc), inc !in w.failing, inc !in w.failing)
    case Err(e) => Outcome(acts, Failed(IncludeFailed(e)))
    case Ok(file) =>
      var acts1 := acts + [WroteInclude(file)];
      if !f.system then Outcome(acts1, Done)
      else
        var bin := s.Package().binary;
        var env := ScriptEnv(Stat(w, bin), bin !in w.failing, w.home, bin !in w.failing);
        match GenerateScript(build, cs, ConfiguratorOpts(f.systemDir, f.homeDir), env)
        case Err(e) => Outcome(acts1, Failed(ScriptFailed(e)))
        case Ok(script) => Outcome(acts1 + [WroteScript(script)], Done)
  }

  /** `--exec`: the include in the target directory, then for the system the wrapper script. */
  function WriteScripts(build: Build, f: Flags, c: Configurator, s: Selection, w: World, acts: seq<Action>): (r: Outcome)
    requires s.Valid()
    ensures r.status == Done || r.status.Failed?
    ensures |r.actions| >= |acts| && r.actions[..|acts|] == acts
    ensures forall i | |acts| <= i < |r.actions| :: r.actions[i].WroteInclude? || r.actions[i].WroteScript?
    ensures forall i | |acts| <= i < |r.actions| && r.actions[i].WroteScript? :: f.system
    ensures forall i | |acts| <= i < |r.actions| && r.actions[i].WroteInclude? ::
      r.actions[i].file == FileOut(IncludePath(TargetDir(f), s), IncludeContent(s.Package()))
  {
    WriteScriptsAt(build, f, c.(selected := Some(s)), s, w, acts, IncludePath(TargetDir(f), s))
  }

  /**
   * Configuring with the engine file at `yml` and the include at `inc`:
   * the engine file is written unless only the includes are updated; with
   * `--exec` the include follows, and for the system also the wrapper
   * script.
   */
  function ConfigureAt(build: Build, f: Flags, c: Configurator, s: Selection, w: World, yml: string, inc: string): (r: Outcome)
    requires s.Valid()
    ensures r.status == Done || r.status.Failed?
    ensures !f.onlyUpdateIncludes && r.status == Done ==>
      w.marshal(s.engine.(options := [])).Ok? && |r.actions| > 0 && r.actions[0] == WroteEngine(yml, w.marshal(s.engine.(options := [])).value)
    ensures forall a | a in r.actions :: !a.Removed?
    ensures forall a | a in r.actions && a.WroteEngine? :: !f.onlyUpdateIncludes
    ensures forall a | a in r.actions && (a.WroteInclude? || a.WroteScript?) :: f.exec
    ensures forall a | a in r.actions && a.WroteScript? :: f.system
    ensures forall a | a in r.actions && a.WroteInclude? :: a.file == FileOut(inc, IncludeContent(s.Package()))
  {
    var wrote := if f.onlyUpdateIncludes then Outcome([], Done) else WriteEngineFileAt(s, w, yml);
    if wrote.status != Done || !f.exec then wrote
    else WriteScriptsAt(build, f, c.(selected := Some(s)), s, w, wrote.actions, inc)
  }

  /**
   * Configuring: the engine file is written unless only the includes are
   * updated; with `--exec` the include follows, and for the system also
   * the wrapper script.
   */
  function Configure(build: Build, f: Flags, c: Configurator, s: Selection, w: World): (r: Outcome)
    requires s.Valid()
    ensures r.status == Done || r.status.Failed?
    ensures !f.onlyUpdateIncludes && r.status == Done ==>
      w.marshal(s.engine.(options := [])).Ok? && |r.actions| > 0 && r.actions[0] == WroteEngine(EnginePath(TargetDir(f), s), w.marshal(s.engine.(options := [])).value)
    ensures forall a | a in r.actions :: !a.Removed?
    ensures forall a | a in r.actions && a.WroteEngine? :: !f.onlyUpdateIncludes
    ensures forall a | a in r.actions && (a.WroteInclude? || a.WroteScript?) :: f.exec
    ensures forall a | a in r.actions && a.WroteScript? :: f.system
    ensures forall a | a in r.actions && a.WroteInclude? :: a.file == FileOut(IncludePath(TargetDir(f), s), IncludeContent(s.Package()))
  {
    ConfigureAt(build, f, c, s, w, EnginePath(TargetDir(f), s), IncludePath(TargetDir(f), s))
  }

  /** The flag read as `--system`: the user is assumed when neither is given. */
  function Target(f: Flags): Flags {
    if !f.system && !f.user then f.(user := true) else f
  }

  /** After the selection: the option decision, then purging or configuring. */
  function Proceed(build: Build, t: Flags, c: Configurator, s: Selection, pkgname: string, purgeOrder: seq<string>, w: World, minimize: Opt -> Opt): (r: Outcome)
    requires s.Valid()
    ensures r.status == NothingToDo ==> r.actions == []
    ensures t.purge ==> forall a | a in r.actions :: a.Removed?
    ensures !t.purge ==> forall a | a in r.actions :: !a.Removed?
  {
    match DecideOptions(t, c.catalog, s, minimize)
    case Err(st) => Outcome([], st)
    case Ok(s1) =>
      if t.purge then Purge(t, c, s1, pkgname, purgeOrder, w)
      else Configure(build, t, c, s1, w)
  }

  /**
   * The whole command: the flag check, the selection, the option decision,
   * then purging or configuring.
   */
  function Run(build: Build, f: Flags, c: Configurator, orders: RunOrders, w: World, minimize: Opt -> Opt): (r: Outcome)
    ensures Validate(f).Some? ==> r == Outcome([], Rejected(Validate(f).value))
    ensures Validate(f).None? && WorkingOnPackage(c, f.args[0], f.system, orders.lookup).Err? ==>
      r == Outcome([], Failed(NotFound(NotInCatalog(f.args[0]))))
    ensures r.status == NothingToDo ==> r.actions == []
    ensures f.purge ==> forall a | a in r.actions :: a.Removed?
    ensures !f.purge ==> forall a | a in r.actions :: !a.Removed?
  {
    match Validate(f)
    case Some(why) => Outcome([], Rejected(why))
    case None => RunTargeted(build, Target(f), c, orders, w, minimize)
  }

  /** The run once the flags are accepted and read with `Target`: the selection, then `Proceed`. */
  function RunTargeted(build: Build, t: Flags, c: Configurator, orders: RunOrders, w: World, minimize: Opt -> Opt): (r: Outcome)
    requires |t.args| > 0
    ensures WorkingOnPackage(c, t.args[0], t.system, orders.lookup).Err? ==>
      r == Outcome([], Failed(NotFound(NotInCatalog(t.args[0]))))
    ensures r.status == NothingToDo ==> r.actions == []
    ensures t.purge ==> forall a | a in r.actions :: a.Removed?
    ensures !t.purge ==> forall a | a in r.actions :: !a.Removed?
  {
    var pkgname := t.args[0];
    match WorkingOnPackage(c, pkgname, t.system, orders.lookup)
    case Err(e) => Outcome([], Failed(NotFound(e)))
    case Ok(c1) => Proceed(build, t, c1, c1.selected.value, pkgname, orders.purge, w, minimize)
  }

  /** Whether `--user` is given or not, a run without `--system` is the same user run. */
  lemma UserAssumed(build: Build, f: Flags, c: Configurator, orders: RunOrders, w: World, minimize: Opt -> Opt)
    requires !f.system
    ensures Run(build, f.(user := false), c, orders, w, minimize) == Run(build, f.(user := true), c, orders, w, minimize)
  {
  }

  /**
   * The include written for the system is the file the wrapper script
   * sources from its system directory: `${systemdir}/${engine}.${binname}.inc`
   * with the values the script was filled with, once that text is resolved
   * as a path.
   */
  lemma IncludeMatchesScript(build: Build, c: Configurator, systemDir: string, homeDir: string, env: ScriptEnv)
    requires GenerateScript(build, c, ConfiguratorOpts(systemDir, homeDir), env).Ok?
    ensures var s := c.selected.value;
      var p := s.Package();
      var v := ScriptVars(p.source, Base(p.binary), s.engine.name, SanitizeHomedir(build, homeDir, env.home.value).value, systemDir);
      GenerateScript(build, c, ConfiguratorOpts(systemDir, homeDir), env).value.content == ScriptContent(p.name, v) &&
      IncludePath(systemDir, s) == CleanJoin("/", v.systemdir + "/" + v.engine + "." + v.binname + ".inc")
  {
    var s := c.selected.value;
    IncludeThroughSlash(systemDir, s.engine.name, Base(s.Package().binary));
  }

  lemma IncludeThroughSlash(dir: string, engine: string, binname: string)
    ensures CleanJoin(dir, engine + "." + binname + ".inc") == CleanJoin("/", dir + "/" + engine + "." + binname + ".inc")
  {
    IncludeTextAssoc(dir, engine, binname);
    JoinThroughSlash(dir, engine + "." + binname + ".inc");
  }

  lemma IncludeTextAssoc(dir: string, engine: string, binname: string)
    ensures dir + "/" + (engine + "." + binname + ".inc") == dir + "/" + engine + "." + binname + ".inc"
  {
  }

  /**
   * A system purge removes the engine file when the system engine holding
   * the package has it alone and the earlier removals succeed.
   */
  lemma PurgeRemovesSoleEngineFile(f: Flags, c: Configurator, s: Selection, pkgname: string, purgeOrder: seq<string>, w: World)
    requires s.Valid() && f.system
    requires IncludePath(f.systemDir, s) !in w.failing && s.Package().binary !in w.failing
    requires EnginePath(f.systemDir, s) in w.present && EnginePath(f.systemDir, s) !in w.failing
    requires var held := GetEngineAndPackage(c.systemConfig, pkgname, purgeOrder); held.Some? && NumPackages(held.value.0) == 1
    ensures Removed(EnginePath(f.systemDir, s)) in Purge(f, c, s, pkgname, purgeOrder, w).actions
    ensures Purge(f, c, s, pkgname, purgeOrder, w).status == Done
  {
  }

  /**
   * With `--defaults`, the engine file written holds the package with the
   * catalog engine's defaults: the package and the engine share it.
   */
  lemma DefaultsReachEngineFile(build: Build, t: Flags, c: Configurator, s: Selection, pkgname: string, purgeOrder: seq<string>, w: World, minimize: Opt -> Opt)
    requires s.Valid() && t.defaults && !t.purge && !t.onlyUpdateIncludes
    requires Proceed(build, t, c, s, pkgname, purgeOrder, w, minimize).status == Done
    ensures var s1 := DecideOptions(t, c.catalog, s, minimize).value;
      var defs := DefaultOptions(c.catalog.engines[s.engine.name].options);
      var written := s1.engine.(options := []);
      s.key in written.packages &&
      |written.packages[s.key].enabledOptions| == |defs| &&
      (forall i | 0 <= i < |defs| :: written.packages[s.key].enabledOptions[i] == minimize(defs[i])) &&
      w.marshal(written).Ok? &&
      Proceed(build, t, c, s, pkgname, purgeOrder, w, minimize).actions[0] == WroteEngine(EnginePath(TargetDir(t), s1), w.marshal(written).value)
  {
  }
}
