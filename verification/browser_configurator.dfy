/**
 * `BrowserConfigurator` (pkg/browser/configurator.go): picks the package
 * to configure and its engine, and renders the include file holding the
 * start options and the wrapper script that sources it.
 */
module BrowserConfigurators {
  import opened Wrappers
  import opened Text
  import opened Tools
  import opened Paths
  import opened Builds
  import opened BrowserPackages
  import opened BrowserEngines
  import opened BrowserCatalogs

  /**
   * The package being configured. In Go `Package` points at the package
   * stored in `Engine`, so changing one changes the other; here the
   * package is the engine's entry under `key`.
   */
  datatype Selection = Selection(engine: Engine, key: string) {
    predicate Valid() {
      key in engine.packages
    }

    function Package(): Package
      requires Valid()
    {
      engine.packages[key]
    }
  }

  /** `BrowserConfigurator`: the three loaded catalogs and the selection, if one was made. */
  datatype Configurator = Configurator(catalog: Catalog, systemConfig: Catalog, homeConfig: Catalog, selected: Option<Selection>)

  /** `BrowserConfiguratorOpts`, without the catalog file, which only the loader reads. */
  datatype ConfiguratorOpts = ConfiguratorOpts(systemdir: string, homedir: string)

  /** The map orders of the two lookups `WorkingOnPackage` makes. */
  datatype Orders = Orders(catalog: seq<string>, config: seq<string>)

  datatype WorkError = NotInCatalog(pkgname: string)

  /** The configuration `WorkingOnPackage` consults: the system one or the user one. */
  function Config(c: Configurator, system: bool): Catalog {
    if system then c.systemConfig else c.homeConfig
  }

  /**
   * `WorkingOnPackage`. A package no catalog engine holds is an error and
   * nothing is selected. When the chosen configuration holds the package,
   * its engine and package are selected; otherwise a fresh engine named
   * after the catalog's engine, holding only the catalog's package.
   */
  function WorkingOnPackage(c: Configurator, pkgname: string, system: bool, orders: Orders): (r: Result<Configurator, WorkError>)
    ensures r.Err? <==> GetEngineAndPackage(c.catalog, pkgname, orders.catalog).None?
    ensures r.Err? ==> r.error == NotInCatalog(pkgname)
    ensures r.Ok? ==> r.value.(selected := c.selected) == c
    ensures r.Ok? ==> r.value.selected.Some? && r.value.selected.value.Valid()
    ensures r.Ok? && GetEngineAndPackage(Config(c, system), pkgname, orders.config).Some? ==>
      var s := r.value.selected.value;
      s.engine in Config(c, system).engines.Values && s.key == pkgname
    ensures r.Ok? && GetEngineAndPackage(Config(c, system), pkgname, orders.config).None? ==>
      var s := r.value.selected.value;
      var (ce, cp) := GetEngineAndPackage(c.catalog, pkgname, orders.catalog).value;
      s.engine.name == ce.name && s.engine.packages == map[cp.name := cp] && s.engine.options == [] &&
      s.Package() == cp && cp == ce.packages[pkgname]
  {
    var cat := GetEngineAndPackage(c.catalog, pkgname, orders.catalog);
    if cat.None? then Err(NotInCatalog(pkgname))
    else
      var cfg := GetEngineAndPackage(Config(c, system), pkgname, orders.config);
      if cfg.Some? then Ok(c.(selected := Some(Selection(cfg.value.0, pkgname))))
      else
        var pkgCat := cat.value.1;
        var created := SetPackage(NewEngine(cat.value.0.name), pkgCat);
        Ok(c.(selected := Some(Selection(created, pkgCat.name))))
  }

  /**
   * The configuration's own package wins over the catalog's: when some
   * engine of the chosen configuration holds the package, in any
   * iteration order the selected package is that configuration's.
   */
  lemma ConfigPackagePreferred(c: Configurator, pkgname: string, system: bool, orders: Orders, k: string)
    requires Lists(orders.config, Config(c, system))
    requires k in Config(c, system).engines && pkgname in Config(c, system).engines[k].packages
    requires WorkingOnPackage(c, pkgname, system, orders).Ok?
    ensures var s := WorkingOnPackage(c, pkgname, system, orders).value.selected.value;
      exists e | e in Config(c, system).engines.Values :: pkgname in e.packages && s.Package() == e.packages[pkgname]
  {
    var s := WorkingOnPackage(c, pkgname, system, orders).value.selected.value;
    assert s.engine in Config(c, system).engines.Values;
  }

  datatype ScriptError =
    | NotConfigured
    | RemoveFailed(path: string)
    | WriteFailed(path: string)
    | NoUserHome
    /** A slice bound out of range: Go panics. */
    | Crash

  /** A file written and its content. */
  datatype FileOut = FileOut(path: string, content: string)

  /*
   * Literal lines longer than about thirty characters are written as
   * concatenations: the verifier only sees that a short literal has no
   * newline.
   */
  const Copyright := "Copyright \U{00A9} 2021-2023" + " Macaroni OS Linux"

  /** The start options of a package as the include file lists them: every string with `--`, space-separated. */
  function OptsValue(p: Package): string {
    Join(AllOptions(p, "--"), " ")
  }

  /** The lines of `shInclude`, the last one empty so the file ends in a newline. */
  function IncludeLines(p: Package): seq<string> {
    ["# " + Copyright,
     "# Description: Startup options" + " of the package " + p.name + " generated with macaronictl.",
     "",
     "opts=\"" + OptsValue(p) + "\"",
     ""]
  }

  function IncludeContent(p: Package): string {
    Join(IncludeLines(p), "\n")
  }

  /**
   * `GenerateIncludeScript(fpath)`: with nothing selected it fails; an
   * existing file is removed first; then the include is written.
   */
  function GenerateIncludeScript(c: Configurator, fpath: string, stat: StatOutcome, removeOk: bool, writeOk: bool): (r: Result<FileOut, ScriptError>)
    ensures c.selected.None? ==> r == Err(NotConfigured)
    ensures r.Ok? ==> c.selected.Some? && c.selected.value.Valid() && r.value.path == fpath
    ensures r.Ok? <==> c.selected.Some? && c.selected.value.Valid() && (!Exists(stat) || removeOk) && writeOk
    ensures r.Ok? ==> r.value.content == IncludeContent(c.selected.value.Package())
  {
    if c.selected.None? || !c.selected.value.Valid() then Err(NotConfigured)
    else if Exists(stat) && !removeOk then Err(RemoveFailed(fpath))
    else if !writeOk then Err(WriteFailed(fpath))
    else Ok(FileOut(fpath, IncludeContent(c.selected.value.Package())))
  }

  /** `s` between `prefix` and a closing double quote. */
  function Quoted(s: string, prefix: string): Option<string> {
    if |s| >= |prefix| + 1 && s[..|prefix|] == prefix && s[|s| - 1] == '"' then Some(s[|prefix|..|s| - 1])
    else None
  }

  lemma QuotedOf(prefix: string, v: string)
    ensures Quoted(prefix + v + "\"", prefix) == Some(v)
  {
    var s := prefix + v + "\"";
    assert s[..|prefix|] == prefix;
    assert s[|prefix|..|s| - 1] == v;
  }

  /** What a shell reading the include would take as the options: the words of `opts`. */
  function ReadIncludeOpts(content: string): Option<seq<string>> {
    var lines := Split(content, '\n');
    if |lines| != 5 then None
    else
      match Quoted(lines[3], "opts=\"")
      case None => None
      case Some(v) => Some(if v == "" then [] else Split(v, ' '))
  }

  lemma {:induction false} JoinNoChar(parts: seq<string>, sep: char, c: char)
    requires c != sep
    requires forall i | 0 <= i < |parts| :: c !in parts[i]
    ensures c !in Join(parts, [sep])
    decreases |parts|
  {
    if |parts| > 1 {
      JoinNoChar(parts[1..], sep, c);
    }
  }

  lemma IncludeLinesOneLine(p: Package)
    requires '\n' !in p.name && '\n' !in OptsValue(p)
    ensures forall i | 0 <= i < |IncludeLines(p)| :: '\n' !in IncludeLines(p)[i]
  {
    CopyrightOneLine();
    assert '\n' !in "# Description: Startup options" + " of the package " + p.name + " generated with macaronictl.";
  }

  /**
   * The include carries the options back: reading the `opts` line of the
   * file gives exactly the `--`-prefixed options, provided the package
   * name has no newline and no option string has a space, newline or
   * double quote.
   */
  lemma IncludeRoundTrip(p: Package)
    requires '\n' !in p.name
    requires forall i | 0 <= i < |AllOptions(p, "--")| :: ' ' !in AllOptions(p, "--")[i] && '\n' !in AllOptions(p, "--")[i] && AllOptions(p, "--")[i] != ""
    ensures ReadIncludeOpts(IncludeContent(p)) == Some(AllOptions(p, "--"))
  {
    var opts := AllOptions(p, "--");
    JoinNoChar(opts, ' ', '\n');
    var lines := IncludeLines(p);
    IncludeLinesOneLine(p);
    SplitJoin(lines, '\n');
    QuotedOf("opts=\"", OptsValue(p));
    if |opts| == 0 {
      assert OptsValue(p) == "";
    } else {
      if |opts| == 1 {
        assert OptsValue(p) == opts[0];
      } else {
        assert OptsValue(p) == opts[0] + " " + Join(opts[1..], " ");
      }
      SplitJoin(opts, ' ');
    }
  }

  /**
   * The user directory as the wrapper script writes it, relative to
   * `$HOME`: when it starts with the user's home, that prefix and one more
   * character are cut off. The prefix is not matched at a path boundary.
   * As written, a directory equal to the home makes the slice start past
   * its end and Go panics; the corrected reading gives the empty path.
   */
  function SanitizeHomedir(build: Build, homedir: string, home: string): (r: Result<string, ScriptError>)
    ensures !(home != "" && HasPrefix(homedir, home)) ==> r == Ok(homedir)
    ensures r.Err? <==> build == AsWritten && home != "" && homedir == home
    ensures r.Ok? && home != "" && HasPrefix(homedir, home) && homedir != home ==>
      homedir == home + [homedir[|home|]] + r.value
  {
    if home != "" && HasPrefix(homedir, home) then
      if |home| + 1 > |homedir| then
        (if build == AsWritten then Err(Crash) else Ok(""))
      else Ok(homedir[|home| + 1..])
    else Ok(homedir)
  }

  /** As written, a user directory equal to the home crashes `GenerateScript`. */
  lemma SanitizeHomedirCrashes(home: string)
    requires home != ""
    ensures SanitizeHomedir(AsWritten, home, home) == Err(Crash)
  {
  }

  /**
   * Corrected, it never crashes and gives the path below the home: empty
   * for the home itself, `rel` for `home/rel`.
   */
  lemma SanitizeHomedirCorrected(home: string, rel: string)
    requires home != ""
    ensures SanitizeHomedir(Corrected, home, home) == Ok("")
    ensures SanitizeHomedir(Corrected, home + "/" + rel, home) == Ok(rel)
    ensures forall d :: SanitizeHomedir(Corrected, d, home).Ok?
  {
    var d := home + "/" + rel;
    assert d[..|home|] == home;
    assert d[|home| + 1..] == rel;
  }

  /** The prefix test is textual: a sibling directory sharing the home's first letters loses them too. */
  lemma SanitizeHomedirNotAtBoundary(build: Build)
    ensures SanitizeHomedir(build, "/home/alice", "/home/al") == Ok("ce")
  {
    assert "/home/alice"[..8] == "/home/al";
    assert "/home/alice"[9..] == "ce";
  }

  /** The values `shWrapper` is filled with, in order after the package name. */
  datatype ScriptVars = ScriptVars(source: string, binname: string, engine: string, homedir: string, systemdir: string)

  /** The lines of `shWrapper`, the last one empty so the file ends in a newline. */
  function ScriptLines(pkg: string, v: ScriptVars): seq<string> {
    ScriptHead(pkg) + AssignLines(v) + ScriptTail
  }

  function ScriptHead(pkg: string): seq<string> {
    ["#!/bin/bash",
     "# " + Copyright,
     "# Description: Wrapper" + " for package " + pkg + " generated with macaronictl.",
     "",
     "if [ -n \"$DEBUG\" ] ; then",
     "  set -x",
     "fi",
     ""]
  }

  /** The five variables the script assigns from its inputs. */
  function AssignLines(v: ScriptVars): seq<string> {
    ["source=\"" + v.source + "\"",
     "binname=\"" + v.binname + "\"",
     "engine=\"" + v.engine + "\"",
     "homedir=\"${HOME}/" + v.homedir + "\"",
     "systemdir=\"" + v.systemdir + "\""]
  }

  const ScriptTail: seq<string> := TailOpts + TailUser + TailSystem

  const TailOpts: seq<string> :=
    ["opts=\"\"",
     ""]

  const TailUser: seq<string> :=
    ["# Check if exists" + " an user configuration",
     "if [ -f \"${homedir}/" + "${engine}.${binname}.inc\"" + " ] ; then",
     "  source ${homedir}/" + "${engine}.${binname}.inc",
     "else"]

  const TailSystem: seq<string> :=
    ["# Check if exists" + " a system configuration",
     "\tif [ -f \"${systemdir}/" + "${engine}.${binname}.inc\"" + " ] ; then",
     "\t\tsource ${systemdir}/" + "${engine}.${binname}.inc",
     "\tfi",
     "fi",
     "",
     "${source} ${opts}",
     "exit $?",
     ""]

  /** No string of `lines` holds a newline. */
  predicate NoBreaks(lines: seq<string>) {
    forall i | 0 <= i < |lines| :: '\n' !in lines[i]
  }

  lemma NoBreaksAppend(a: seq<string>, b: seq<string>)
    requires NoBreaks(a) && NoBreaks(b)
    ensures NoBreaks(a + b)
  {
    forall i | 0 <= i < |a + b|
      ensures '\n' !in (a + b)[i]
    {
      if i >= |a| {
        assert (a + b)[i] == b[i - |a|];
      }
    }
  }

  lemma CopyrightOneLine()
    ensures '\n' !in "# " + Copyright
  {
  }

  lemma ScriptHeadOneLine(pkg: string)
    requires '\n' !in pkg
    ensures NoBreaks(ScriptHead(pkg))
  {
    CopyrightOneLine();
    assert '\n' !in "# Description: Wrapper" + " for package " + pkg + " generated with macaronictl.";
  }

  lemma AssignLinesOneLine(v: ScriptVars)
    requires OneLine(v)
    ensures NoBreaks(AssignLines(v))
  {
  }

  lemma TailUserOneLine()
    ensures NoBreaks(TailUser)
  {
    var t := TailUser;
    assert '\n' !in t[0];
    assert '\n' !in t[1];
    assert '\n' !in t[2];
    assert '\n' !in t[3];
  }

  lemma TailSystemOneLine()
    ensures NoBreaks(TailSystem)
  {
    var t := TailSystem;
    assert '\n' !in t[0];
    assert '\n' !in t[1];
    assert '\n' !in t[2];
    assert '\n' !in t[3] && '\n' !in t[4] && '\n' !in t[5];
    assert '\n' !in t[6] && '\n' !in t[7] && '\n' !in t[8];
  }

  lemma ScriptTailOneLine()
    ensures NoBreaks(ScriptTail)
  {
    assert NoBreaks(TailOpts);
    TailUserOneLine();
    TailSystemOneLine();
    NoBreaksAppend(TailOpts, TailUser);
    NoBreaksAppend(TailOpts + TailUser, TailSystem);
  }

  /** No line of the script spans two when no input does. */
  lemma ScriptLinesOneLine(pkg: string, v: ScriptVars)
    requires '\n' !in pkg && OneLine(v)
    ensures NoBreaks(ScriptLines(pkg, v))
  {
    ScriptHeadOneLine(pkg);
    AssignLinesOneLine(v);
    ScriptTailOneLine();
    NoBreaksAppend(ScriptHead(pkg), AssignLines(v));
    NoBreaksAppend(ScriptHead(pkg) + AssignLines(v), ScriptTail);
  }

  function ScriptContent(pkg: string, v: ScriptVars): string {
    Join(ScriptLines(pkg, v), "\n")
  }

  /** The variables a reader of the script finds assigned on its lines 9 to 13. */
  function ReadScriptVars(content: string): Option<ScriptVars> {
    var lines := Split(content, '\n');
    if |lines| != 28 then None
    else
      var source := Quoted(lines[8], "source=\"");
      var binname := Quoted(lines[9], "binname=\"");
      var engine := Quoted(lines[10], "engine=\"");
      var homedir := Quoted(lines[11], "homedir=\"${HOME}/");
      var systemdir := Quoted(lines[12], "systemdir=\"");
      if source.None? || binname.None? || engine.None? || homedir.None? || systemdir.None? then None
      else Some(ScriptVars(source.value, binname.value, engine.value, homedir.value, systemdir.value))
  }

  predicate OneLine(v: ScriptVars) {
    '\n' !in v.source && '\n' !in v.binname && '\n' !in v.engine && '\n' !in v.homedir && '\n' !in v.systemdir
  }

  /** The script gives back the values it was filled with, when none spans lines. */
  lemma ScriptRoundTrip(pkg: string, v: ScriptVars)
    requires '\n' !in pkg && OneLine(v)
    ensures ReadScriptVars(ScriptContent(pkg, v)) == Some(v)
  {
    var lines := ScriptLines(pkg, v);
    ScriptLinesOneLine(pkg, v);
    SplitJoin(lines, '\n');
    assert |lines| == 28;
    assert lines[8..13] == AssignLines(v);
    QuotedOf("source=\"", v.source);
    QuotedOf("binname=\"", v.binname);
    QuotedOf("engine=\"", v.engine);
    QuotedOf("homedir=\"${HOME}/", v.homedir);
    QuotedOf("systemdir=\"", v.systemdir);
  }

  /** The inputs of `GenerateScript` that come from the system: the binary's stat, the removal, `os.UserHomeDir` and the write. */
  datatype ScriptEnv = ScriptEnv(binStat: StatOutcome, removeOk: bool, home: Option<string>, writeOk: bool)

  /**
   * `GenerateScript`: with nothing selected it fails; an existing binary
   * is removed; the user's home must be known; the wrapper is written over
   * the binary's path, filled with the package's name, source, binary
   * name, the engine's name, the user directory relative to the home, and
   * the system directory.
   */
  function GenerateScript(build: Build, c: Configurator, opts: ConfiguratorOpts, env: ScriptEnv): (r: Result<FileOut, ScriptError>)
    ensures c.selected.None? ==> r == Err(NotConfigured)
    ensures r.Ok? ==> c.selected.Some? && c.selected.value.Valid() && env.home.Some?
    ensures r.Ok? ==>
      var p := c.selected.value.Package();
      var rel := SanitizeHomedir(build, opts.homedir, env.home.value);
      rel.Ok? && r.value == FileOut(p.binary, ScriptContent(p.name, ScriptVars(p.source, Base(p.binary), c.selected.value.engine.name, rel.value, opts.systemdir)))
    ensures c.selected.Some? && c.selected.value.Valid() && Exists(env.binStat) && !env.removeOk ==>
      r == Err(RemoveFailed(c.selected.value.Package().binary))
    ensures build == Corrected && c.selected.Some? && c.selected.value.Valid() ==>
      (r.Ok? <==> (!Exists(env.binStat) || env.removeOk) && env.home.Some? && env.writeOk)
  {
    if c.selected.None? || !c.selected.value.Valid() then Err(NotConfigured)
    else
      var p := c.selected.value.Package();
      if Exists(env.binStat) && !env.removeOk then Err(RemoveFailed(p.binary))
      else if env.home.None? then Err(NoUserHome)
      else
        match SanitizeHomedir(build, opts.homedir, env.home.value)
        case Err(e) => Err(e)
        case Ok(rel) =>
          var content := ScriptContent(p.name, ScriptVars(p.source, Base(p.binary), c.selected.value.engine.name, rel, opts.systemdir));
          if !env.writeOk then Err(WriteFailed(p.binary))
          else Ok(FileOut(p.binary, content))
  }
}
