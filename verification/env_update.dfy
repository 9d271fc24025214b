/**
 * The writing half of env-update (pkg/portage/env-update.go, systemd.go,
 * csh.go): the four generated files as sequences of written strings, the
 * output stream that may fail part-way, and `EnvUpdate`, which chains
 * them after `ParseEnvd`. The root directory is always "/", as the
 * command passes it.
 */
module EnvUpdate {
  import opened Wrappers
  import opened Text
  import opened Tools
  import opened Ordering
  import opened Files
  import opened Envs
  import opened EtcCommands

  const EnvDir := "/etc/env.d"
  const ProfileEnvFile := "/etc/profile.env"
  const SystemdEnvDir := "/etc/environment.d"
  const SystemdEnvFile := "/etc/environment.d/10-macaroni-env.conf"
  const LdsoConfFile := "/etc/ld.so.conf"
  const CshEnvFile := "/etc/csh.env"

  const ProfileEnvHeader :=
    "# THIS FILE IS AUTOMATICALLY GENERATED BY macaronictl env-update.\n"
    + "# DO NOT EDIT THIS FILE. CHANGES TO STARTUP PROFILES\n"
    + "# GO INTO /etc/profile NOT /etc/profile.env\n"
  const LdsoConfHeader :=
    "# ld.so.conf autogenerated by macaronictl env-update; make all changes to\n"
    + "# contents of /etc/env.d directory\n"
  /** The systemd header is the profile header followed by an empty line. */
  const SystemdEnvHeader := ProfileEnvHeader + "\n"
  const CshEnvHeader :=
    "# THIS FILE IS AUTOMATICALLY GENERATED BY macaronictl env-update.\n"
    + "# DO NOT EDIT THIS FILE. CHANGES TO STARTUP PROFILES\n"
    + "# GO INTO /etc/csh.cshrc NOT /etc/csh.env\n\n"

  /** Written to ld.so.conf when no file of /etc/env.d sets LDPATH, or sets it empty. */
  const DefaultLdPath := "include ld.so.conf.d/*.conf:/lib:/usr/lib:/usr/local/lib"

  /** `envSkipped`: the keys of the filtered map that nothing reads. */
  const EnvSkipped := ["COLON_SEPARATED", "LDPATH"]

  /** `EnvUpdateOpts`; `spaceSeparated` is never consulted, every non-colon key merges on a space. */
  datatype Opts = Opts(
    spaceSeparated: seq<string>,
    colonSeparated: seq<string>,
    singleValue: seq<string>,
    withLdConfig: bool,
    prelinkCapable: bool,
    dryRun: bool,
    debug: bool,
    systemd: bool,
    csh: bool)

  /** `NewEnvUpdateOpts`. */
  const DefaultOpts := Opts(
    ["CONFIG_PROTECT", "CONFIG_PROTECT_MASK"],
    ["ADA_INCLUDE_PATH", "ADA_OBJECTS_PATH", "CLASSPATH", "INFODIR", "INFOPATH", "KDEDIRS", "LDPATH",
     "MANPATH", "PATH", "PKG_CONFIG_PATH", "PRELINK_PATH", "PRELINK_PATH_MASK", "PYTHONPATH", "ROOTPATH",
     "XDG_DATA_DIRS", "XDG_CONFIG_DIRS"],
    ["LANG", "GSETTINGS_BACKEND"],
    true, true, false, false, false, false)

  // ----- The three environment files -----

  datatype Format = Profile | Systemd | Csh

  function Header(f: Format): string {
    match f
    case Profile => ProfileEnvHeader
    case Systemd => SystemdEnvHeader
    case Csh => CshEnvHeader
  }

  /** Which variables a file lists: profile.env all, the systemd file neither LDPATH nor empty values, csh.env all but LDPATH. */
  predicate Emits(f: Format, k: string, v: string) {
    match f
    case Profile => true
    case Systemd => k != "LDPATH" && v != ""
    case Csh => k != "LDPATH"
  }

  /** profile.env quotes a value as `$'…'` when it starts with `$` but not with `${`. */
  predicate AnsiQuoted(v: string) {
    HasPrefix(v, "$") && !HasPrefix(v, "${")
  }

  /** The line written for one variable; values are never escaped. */
  function Line(f: Format, k: string, v: string): string {
    match f
    case Profile => "export " + k + "=" + (if AnsiQuoted(v) then "$'" else "'") + v + "'\n"
    case Systemd => k + "=" + v + "\n"
    case Csh => "setenv " + k + " '" + v + "'\n"
  }

  /** A line read back: the variable, its value, and whether the `$'…'` form was used. */
  datatype Decoded = Decoded(key: string, value: string, ansi: bool)

  function StripQuotes(rest: string): Option<(string, bool)> {
    if |rest| >= 4 && rest[..2] == "$'" && rest[|rest| - 2..] == "'\n" then Some((rest[2..|rest| - 2], true))
    else if |rest| >= 3 && rest[0] == '\'' && rest[|rest| - 2..] == "'\n" then Some((rest[1..|rest| - 2], false))
    else None
  }

  /** `export K='V'` or `export K=$'V'`, cut at the first `=`. */
  function DecodeProfile(line: string): Option<Decoded> {
    if !HasPrefix(line, "export ") then None
    else
      match Cut(line[7..], '=')
      case None => None
      case Some((k, rest)) =>
        match StripQuotes(rest)
        case None => None
        case Some((v, ansi)) => Some(Decoded(k, v, ansi))
  }

  /** `K=V`, cut at the first `=`. */
  function DecodeSystemd(line: string): Option<Decoded> {
    match Cut(line, '=')
    case None => None
    case Some((k, rest)) =>
      if |rest| >= 1 && rest[|rest| - 1] == '\n' then Some(Decoded(k, rest[..|rest| - 1], false)) else None
  }

  /** `setenv K 'V'`, cut at the first space after `setenv`. */
  function DecodeCsh(line: string): Option<Decoded> {
    if !HasPrefix(line, "setenv ") then None
    else
      match Cut(line[7..], ' ')
      case None => None
      case Some((k, rest)) =>
        match StripQuotes(rest)
        case Some((v, false)) => Some(Decoded(k, v, false))
        case _ => None
  }

  /** A reader for the lines of each format, independent of how they are written. */
  function DecodeLine(f: Format, line: string): Option<Decoded> {
    match f
    case Profile => DecodeProfile(line)
    case Systemd => DecodeSystemd(line)
    case Csh => DecodeCsh(line)
  }

  /** Keys a line can carry unambiguously: no `=` (the shell's and systemd's separator), and no space for csh. */
  predicate KeyOk(f: Format, k: string) {
    '=' !in k && (f == Csh ==> ' ' !in k)
  }

  lemma StripPlainQuotes(v: string)
    ensures StripQuotes("'" + v + "'\n") == Some((v, false))
  {
    var rest := "'" + v + "'\n";
    assert rest[0] == '\'' && rest[1] == (v + "'\n")[0];
    assert rest[|rest| - 2..] == "'\n";
    assert rest[1..|rest| - 2] == v;
  }

  lemma StripAnsiQuotes(v: string)
    ensures StripQuotes("$'" + v + "'\n") == Some((v, true))
  {
    var rest := "$'" + v + "'\n";
    assert rest[..2] == "$'";
    assert rest[|rest| - 2..] == "'\n";
    assert rest[2..|rest| - 2] == v;
  }

  lemma ProfileRoundTrip(k: string, v: string)
    requires '=' !in k
    ensures DecodeProfile(Line(Profile, k, v)) == Some(Decoded(k, v, AnsiQuoted(v)))
  {
    var line := Line(Profile, k, v);
    var rest := (if AnsiQuoted(v) then "$'" else "'") + v + "'\n";
    assert line == "export " + (k + ['='] + rest);
    assert line[7..] == k + ['='] + rest;
    CutAt(k, '=', rest);
    if AnsiQuoted(v) {
      StripAnsiQuotes(v);
    } else {
      StripPlainQuotes(v);
    }
  }

  lemma SystemdRoundTrip(k: string, v: string)
    requires '=' !in k
    ensures DecodeSystemd(Line(Systemd, k, v)) == Some(Decoded(k, v, false))
  {
    var rest := v + "\n";
    assert Line(Systemd, k, v) == k + ['='] + rest;
    CutAt(k, '=', rest);
    assert rest[..|rest| - 1] == v;
  }

  lemma CshRoundTrip(k: string, v: string)
    requires ' ' !in k
    ensures DecodeCsh(Line(Csh, k, v)) == Some(Decoded(k, v, false))
  {
    var line := Line(Csh, k, v);
    var rest := "'" + v + "'\n";
    assert line == "setenv " + (k + [' '] + rest);
    assert line[7..] == k + [' '] + rest;
    CutAt(k, ' ', rest);
    StripPlainQuotes(v);
  }

  /** Every line reads back as the variable and value it was written for, with the quoting rule applied. */
  lemma LineRoundTrip(f: Format, k: string, v: string)
    requires KeyOk(f, k)
    ensures DecodeLine(f, Line(f, k, v)) == Some(Decoded(k, v, f == Profile && AnsiQuoted(v)))
  {
    match f
    case Profile => ProfileRoundTrip(k, v);
    case Systemd => SystemdRoundTrip(k, v);
    case Csh => CshRoundTrip(k, v);
  }

  /** The keys a file lists, in the given order. */
  function Kept(f: Format, envs: Env, keys: seq<string>): (r: seq<string>)
    requires forall k | k in keys :: k in envs
    ensures forall k :: k in r <==> k in keys && Emits(f, k, envs[k])
    ensures StrictlySorted(keys) ==> StrictlySorted(r)
    decreases |keys|
  {
    if |keys| == 0 then []
    else
      var rest := Kept(f, envs, keys[1..]);
      assert forall k | k in keys :: k == keys[0] || k in keys[1..];
      if Emits(f, keys[0], envs[keys[0]]) then
        assert StrictlySorted(keys) ==> forall k | k in rest :: Less(keys[0], k);
        [keys[0]] + rest
      else rest
  }

  /** The lines the Go loop writes for `keys`, skipping the keys the format drops. */
  function Body(f: Format, envs: Env, keys: seq<string>): (lines: seq<string>)
    requires forall k | k in keys :: k in envs
    ensures |lines| <= |keys|
    decreases |keys|
  {
    if |keys| == 0 then []
    else
      var k := keys[0];
      (if Emits(f, k, envs[k]) then [Line(f, k, envs[k])] else []) + Body(f, envs, keys[1..])
  }

  /** What a line written for `k` must read back as. */
  function Expected(f: Format, envs: Env, k: string): Option<Decoded>
    requires k in envs
  {
    Some(Decoded(k, envs[k], f == Profile && AnsiQuoted(envs[k])))
  }

  /** Line `i` of `lines` reads back as key `i` of `keys`. */
  predicate DecodesAll(f: Format, envs: Env, lines: seq<string>, keys: seq<string>)
    requires forall k | k in keys :: k in envs
  {
    |lines| == |keys| && forall i | 0 <= i < |keys| :: DecodeLine(f, lines[i]) == Expected(f, envs, keys[i])
  }

  /** Pairing a decoder's answers with expected answers extends by one at the front. */
  lemma PairsCons(dec: string -> Option<Decoded>, want: string -> Option<Decoded>, line: string, k: string, lines: seq<string>, keys: seq<string>)
    requires dec(line) == want(k)
    requires |lines| == |keys| && forall i | 0 <= i < |keys| :: dec(lines[i]) == want(keys[i])
    ensures |[line] + lines| == |[k] + keys|
    ensures forall i | 0 <= i < |keys| + 1 :: dec(([line] + lines)[i]) == want(([k] + keys)[i])
  {
    forall i | 0 < i < |keys| + 1
      ensures dec(([line] + lines)[i]) == want(([k] + keys)[i])
    {
      assert ([line] + lines)[i] == lines[i - 1] && ([k] + keys)[i] == keys[i - 1];
    }
  }

  lemma DecodesCons(f: Format, envs: Env, line: string, k: string, lines: seq<string>, keys: seq<string>)
    requires k in envs && forall x | x in keys :: x in envs
    requires DecodeLine(f, line) == Expected(f, envs, k) && DecodesAll(f, envs, lines, keys)
    ensures DecodesAll(f, envs, [line] + lines, [k] + keys)
  {
    var dec := (l: string) => DecodeLine(f, l);
    var want := (x: string) => if x in envs then Expected(f, envs, x) else None;
    PairsCons(dec, want, line, k, lines, keys);
  }

  lemma {:induction false} BodyDecodesAll(f: Format, envs: Env, keys: seq<string>)
    requires forall k | k in keys :: k in envs && KeyOk(f, k)
    ensures DecodesAll(f, envs, Body(f, envs, keys), Kept(f, envs, keys))
    decreases |keys|
  {
    if |keys| > 0 {
      var k := keys[0];
      BodyDecodesAll(f, envs, keys[1..]);
      if Emits(f, k, envs[k]) {
        LineRoundTrip(f, k, envs[k]);
        DecodesCons(f, envs, Line(f, k, envs[k]), k, Body(f, envs, keys[1..]), Kept(f, envs, keys[1..]));
      }
    }
  }

  /** Line `i` of the body reads back as the `i`-th listed variable with its value. */
  lemma BodyDecodes(f: Format, envs: Env, keys: seq<string>)
    requires forall k | k in keys :: k in envs && KeyOk(f, k)
    ensures |Body(f, envs, keys)| == |Kept(f, envs, keys)|
    ensures forall i | 0 <= i < |Kept(f, envs, keys)| ::
      DecodeLine(f, Body(f, envs, keys)[i]) == Some(Decoded(Kept(f, envs, keys)[i], envs[Kept(f, envs, keys)[i]], f == Profile && AnsiQuoted(envs[Kept(f, envs, keys)[i]])))
  {
    BodyDecodesAll(f, envs, keys);
  }

  /** The strings `writeProfileEnv`, `writeSystemdEnvFile` or `writeCshEnvFile` writes: the header and a blank line, then the lines in sorted key order. */
  function Render(f: Format, envs: Env): (chunks: seq<string>)
    ensures |chunks| >= 1 && chunks[0] == Header(f) + "\n"
  {
    [Header(f) + "\n"] + Body(f, envs, SortedKeys(envs))
  }

  /**
   * Reading the file back yields, after the header, exactly the listed
   * variables with their values, one per line in ascending key order.
   */
  lemma RenderRoundTrip(f: Format, envs: Env)
    requires forall k | k in envs :: KeyOk(f, k)
    ensures var keys := Kept(f, envs, SortedKeys(envs));
      StrictlySorted(keys)
      && (forall k :: k in keys <==> k in envs && Emits(f, k, envs[k]))
      && |Render(f, envs)| == 1 + |keys|
      && forall i | 0 <= i < |keys| ::
        DecodeLine(f, Render(f, envs)[i + 1]) == Some(Decoded(keys[i], envs[keys[i]], f == Profile && AnsiQuoted(envs[keys[i]])))
  {
    BodyDecodes(f, envs, SortedKeys(envs));
  }

  /** LDPATH is listed in profile.env: the file is rendered from the map before any filtering. */
  lemma ProfileListsLdpath(envs: Env)
    requires "LDPATH" in envs
    ensures "LDPATH" in Kept(Profile, envs, SortedKeys(envs))
    ensures "LDPATH" !in Kept(Systemd, envs, SortedKeys(envs)) && "LDPATH" !in Kept(Csh, envs, SortedKeys(envs))
  {
  }

  /** A variable set to the empty string is still listed in csh.env but not in the systemd file. */
  lemma EmptyValueOnlyInCsh(envs: Env, k: string)
    requires k in envs && envs[k] == "" && k != "LDPATH"
    ensures k in Kept(Csh, envs, SortedKeys(envs)) && k !in Kept(Systemd, envs, SortedKeys(envs))
  {
  }

  lemma {:induction false} BodySnoc(f: Format, envs: Env, keys: seq<string>, k: string)
    requires forall x | x in keys :: x in envs
    requires k in envs
    ensures Body(f, envs, keys + [k]) == Body(f, envs, keys) + (if Emits(f, k, envs[k]) then [Line(f, k, envs[k])] else [])
    decreases |keys|
  {
    if |keys| == 0 {
      assert keys + [k] == [k];
      assert [k][1..] == [];
    } else {
      assert (keys + [k])[1..] == keys[1..] + [k];
      BodySnoc(f, envs, keys[1..], k);
    }
  }

  /** The writers' loop over the sorted keys, with the `continue` rules; it produces `Body`. */
  method WriteLines(f: Format, envs: Env, keys: seq<string>) returns (lines: seq<string>)
    requires forall k | k in keys :: k in envs
    ensures lines == Body(f, envs, keys)
  {
    lines := [];
    for i := 0 to |keys|
      invariant lines == Body(f, envs, keys[..i])
    {
      var k := keys[i];
      assert keys[..i + 1] == keys[..i] + [k];
      BodySnoc(f, envs, keys[..i], k);
      if f != Profile && k == "LDPATH" {
        continue;
      }
      if f == Systemd && envs[k] == "" {
        continue;
      }
      lines := lines + [Line(f, k, envs[k])];
    }
    assert keys[..|keys|] == keys;
  }

  // ----- ld.so.conf -----

  function AtomLines(atoms: seq<string>): (lines: seq<string>)
    ensures |lines| == |atoms|
  {
    seq(|atoms|, i requires 0 <= i < |atoms| => atoms[i] + "\n")
  }

  /** `writeLdsoConf`: the header and a blank line, then each `:`-separated atom of the path on its own line. */
  function RenderLdso(ldpath: string): (chunks: seq<string>)
    ensures |chunks| >= 2 && chunks[0] == LdsoConfHeader + "\n"
  {
    [LdsoConfHeader + "\n"] + AtomLines(Split(ldpath, ':'))
  }

  /** The lines after the header, without their newlines, are colon-free and join back into the path. */
  lemma LdsoRoundTrip(ldpath: string)
    ensures var c := RenderLdso(ldpath);
      var atoms := seq(|c| - 1, i requires 0 <= i < |c| - 1 => c[i + 1][..|c[i + 1]| - 1]);
      (forall i | 1 <= i < |c| :: |c[i]| >= 1 && c[i][|c[i]| - 1] == '\n')
      && (forall i | 0 <= i < |atoms| :: ':' !in atoms[i])
      && Join(atoms, ":") == ldpath
  {
    var c := RenderLdso(ldpath);
    var parts := Split(ldpath, ':');
    assert |c| == |parts| + 1;
    var atoms := seq(|c| - 1, i requires 0 <= i < |c| - 1 => c[i + 1][..|c[i + 1]| - 1]);
    forall i | 0 <= i < |parts|
      ensures c[i + 1] == parts[i] + "\n" && atoms[i] == parts[i]
    {
      assert c[i + 1] == AtomLines(parts)[i];
    }
    assert atoms == parts;
    JoinSplit(ldpath, ':');
  }

  // ----- Output streams -----

  /** The strings that reached a stream, the operations still allowed, and whether all of them got through. */
  datatype Written = Written(out: seq<string>, budget: nat, ok: bool)

  /**
   * Writing strings one by one to a stream on which only `budget` more
   * operations succeed: the first failure stops the writer, and what
   * reached the stream is a prefix of what was meant for it.
   */
  function WriteAll(chunks: seq<string>, budget: nat): (w: Written)
    ensures w.ok <==> |chunks| <= budget
    ensures w.ok ==> w.out == chunks && w.budget == budget - |chunks|
    ensures !w.ok ==> w.out == chunks[..budget] && w.budget == 0
    decreases |chunks|
  {
    if |chunks| == 0 then Written([], budget, true)
    else if budget == 0 then Written([], 0, false)
    else
      var rest := WriteAll(chunks[1..], budget - 1);
      assert !rest.ok ==> [chunks[0]] + chunks[1..][..budget - 1] == chunks[..budget];
      Written([chunks[0]] + rest.out, rest.budget, rest.ok)
  }

  /** Where a writer's strings go: standard output on a dry run, the file otherwise. */
  datatype Dest = Stdout | ToFile(path: string)

  /** What env-update does to the world, in order. */
  datatype Effect =
    | Wrote(dest: Dest, chunks: seq<string>)
    | MadeDir(path: string)
    | RanLdconfig(args: seq<string>, ldpath: string)

  datatype UpdateError =
    | EnvdFailed(envd: EnvdError)
    | WriteFailed(dest: Dest)
    | MkdirFailed(path: string)
    | LdconfigFailed(outcome: RunOutcome)

  /** The effects so far, the operations the streams still allow, and the error that ended the run. */
  datatype Run = Run(effects: seq<Effect>, budget: nat, err: Option<UpdateError>)

  function DestFor(dryRun: bool, path: string): Dest {
    if dryRun then Stdout else ToFile(path)
  }

  /** Operations one writer needs: opening the file (not on a dry run), then one per string. */
  function Cost(dryRun: bool, chunks: seq<string>): nat {
    |chunks| + (if dryRun then 0 else 1)
  }

  /** A run that has not failed, and whose effects a dry run may have: no file written, ldconfig not run. */
  predicate DryEffects(effects: seq<Effect>) {
    forall i | 0 <= i < |effects| :: !effects[i].RanLdconfig? && (effects[i].Wrote? ==> effects[i].dest == Stdout)
  }

  /** The effects of a later stage extend those of an earlier one. */
  predicate Extends(r: Run, r': Run) {
    |r.effects| <= |r'.effects| && r'.effects[..|r.effects|] == r.effects
  }

  lemma ExtendsTransitive(a: Run, b: Run, c: Run)
    requires Extends(a, b) && Extends(b, c)
    ensures Extends(a, c)
  {
    assert c.effects[..|a.effects|] == c.effects[..|b.effects|][..|a.effects|];
  }

  /** One writer: open the file (or take stdout), then write every string. */
  function Emit(r: Run, dryRun: bool, path: string, chunks: seq<string>): (r': Run)
    ensures r.err.Some? ==> r' == r
    ensures r.err.None? ==> (r'.err.None? <==> Cost(dryRun, chunks) <= r.budget)
    ensures r.err.None? && r'.err.None? ==>
      r'.effects == r.effects + [Wrote(DestFor(dryRun, path), chunks)] && r'.budget == r.budget - Cost(dryRun, chunks)
    ensures r.err.None? && r'.err.Some? ==> (
      r'.err == Some(WriteFailed(DestFor(dryRun, path)))
      && (r'.effects == r.effects
          || exists n | 0 <= n < |chunks| :: r'.effects == r.effects + [Wrote(DestFor(dryRun, path), chunks[..n])]))
    ensures dryRun && DryEffects(r.effects) ==> DryEffects(r'.effects)
    ensures Extends(r, r')
  {
    if r.err.Some? then r
    else if !dryRun && r.budget == 0 then Run(r.effects, 0, Some(WriteFailed(ToFile(path))))
    else
      var w := WriteAll(chunks, if dryRun then r.budget else r.budget - 1);
      Run(r.effects + [Wrote(DestFor(dryRun, path), w.out)], w.budget,
          if w.ok then None else Some(WriteFailed(DestFor(dryRun, path))))
  }

  /**
   * `writeSystemdEnvFile`: create /etc/environment.d when it does not
   * exist (also on a dry run), then write the file.
   */
  function SystemdStep(r: Run, opts: Opts, envs: Env, dirStat: StatOutcome): (r': Run)
    ensures r.err.Some? || !opts.systemd ==> r' == r
    ensures r.err.None? && opts.systemd && Exists(dirStat) ==> r' == Emit(r, opts.dryRun, SystemdEnvFile, Render(Systemd, envs))
    ensures r.err.None? && opts.systemd && !Exists(dirStat) && r.budget == 0 ==> r'.err == Some(MkdirFailed(SystemdEnvDir)) && r'.effects == r.effects
    ensures opts.dryRun && DryEffects(r.effects) ==> DryEffects(r'.effects)
    ensures Extends(r, r')
  {
    if r.err.Some? || !opts.systemd then r
    else
      var r1 :=
        if Exists(dirStat) then r
        else if r.budget == 0 then Run(r.effects, 0, Some(MkdirFailed(SystemdEnvDir)))
        else Run(r.effects + [MadeDir(SystemdEnvDir)], r.budget - 1, None);
      Emit(r1, opts.dryRun, SystemdEnvFile, Render(Systemd, envs))
  }

  /** The `ldconfig` arguments: `-X -r /`, and `-v` in debug mode. */
  function LdconfigArgs(debug: bool): (args: seq<string>)
    ensures |args| >= 3 && args[..3] == ["-X", "-r", "/"]
    ensures "-v" in args <==> debug
  {
    ["-X", "-r", "/"] + (if debug then ["-v"] else [])
  }

  /**
   * The ld.so.conf step: an empty LDPATH becomes the default, the file is
   * written, and `ldconfig` runs unless this is a dry run; a failed start
   * or a non-zero exit is an error.
   */
  function LdsoStep(r: Run, opts: Opts, ldpath: string, ldconfig: RunOutcome): (r': Run)
    ensures r.err.Some? || !opts.withLdConfig ==> r' == r
    ensures opts.dryRun && DryEffects(r.effects) ==> DryEffects(r'.effects)
    ensures Extends(r, r')
    ensures r.err.None? && opts.withLdConfig && !opts.dryRun && Cost(false, RenderLdso(LdPathOrDefault(ldpath))) <= r.budget ==> (
      (r'.err.None? <==> ldconfig.Exited? && ldconfig.code == 0)
      && |r'.effects| > 0 && r'.effects[|r'.effects| - 1] == RanLdconfig(LdconfigArgs(opts.debug), LdPathOrDefault(ldpath)))
  {
    if r.err.Some? || !opts.withLdConfig then r
    else
      var r1 := Emit(r, opts.dryRun, LdsoConfFile, RenderLdso(LdPathOrDefault(ldpath)));
      if r1.err.Some? || opts.dryRun then r1
      else RunLdconfig(r1, opts.debug, LdPathOrDefault(ldpath), ldconfig)
  }

  /** The path ld.so.conf is written from: LDPATH, or the default when it is empty. */
  function LdPathOrDefault(ldpath: string): (ld: string)
    ensures ld != ""
    ensures ldpath != "" ==> ld == ldpath
  {
    if ldpath == "" then DefaultLdPath else ldpath
  }

  /** `execLdconfig`: the run is recorded; a failed start or a non-zero exit is an error. */
  function RunLdconfig(r: Run, debug: bool, ld: string, ldconfig: RunOutcome): (r': Run)
    ensures r'.effects == r.effects + [RanLdconfig(LdconfigArgs(debug), ld)] && r'.budget == r.budget
    ensures r'.err.None? <==> ldconfig.Exited? && ldconfig.code == 0
    ensures !r'.err.None? ==> r'.err == Some(LdconfigFailed(ldconfig))
  {
    var ok := ldconfig.Exited? && ldconfig.code == 0;
    Run(r.effects + [RanLdconfig(LdconfigArgs(debug), ld)], r.budget, if ok then None else Some(LdconfigFailed(ldconfig)))
  }

  /** Without LDPATH in the environment, ld.so.conf lists the default library directories. */
  lemma EmptyLdpathUsesDefault(r: Run, opts: Opts, ldconfig: RunOutcome)
    requires r.err.None? && opts.withLdConfig && Cost(opts.dryRun, RenderLdso(DefaultLdPath)) <= r.budget
    ensures var r' := LdsoStep(r, opts, "", ldconfig);
      |r'.effects| > |r.effects| && r'.effects[|r.effects|] == Wrote(DestFor(opts.dryRun, LdsoConfFile), RenderLdso(DefaultLdPath))
  {
  }

  /** `writeCshEnvFile` when csh support is on. */
  function CshStep(r: Run, opts: Opts, envs: Env): (r': Run)
    ensures r.err.Some? || !opts.csh ==> r' == r
    ensures r.err.None? && opts.csh ==> r' == Emit(r, opts.dryRun, CshEnvFile, Render(Csh, envs))
    ensures opts.dryRun && DryEffects(r.effects) ==> DryEffects(r'.effects)
    ensures Extends(r, r')
  {
    if opts.csh then Emit(r, opts.dryRun, CshEnvFile, Render(Csh, envs)) else r
  }

  /** The value of LDPATH the ld.so.conf step starts from (`envs["LDPATH"]`, empty when unset). */
  function LdPathOf(envs: Env): (ldpath: string)
    ensures "LDPATH" in envs ==> ldpath == envs["LDPATH"]
    ensures "LDPATH" !in envs ==> ldpath == ""
  {
    if "LDPATH" in envs then envs["LDPATH"] else ""
  }

  /**
   * Everything `EnvUpdate` does once the environment is collected: write
   * profile.env, the systemd file, ld.so.conf (and run ldconfig) and
   * csh.env in that order, each only when enabled; the first failure ends
   * the run. `budget` is how many output operations succeed, `dirStat`
   * what stat reported for /etc/environment.d and `ldconfig` how the
   * ldconfig process ended.
   */
  function WriteOutputs(envs: Env, opts: Opts, budget: nat, dirStat: StatOutcome, ldconfig: RunOutcome): (r: Run)
    ensures opts.dryRun ==> DryEffects(r.effects)
  {
    var r1 := Emit(Run([], budget, None), opts.dryRun, ProfileEnvFile, Render(Profile, envs));
    var r2 := SystemdStep(r1, opts, envs, dirStat);
    var r3 := LdsoStep(r2, opts, LdPathOf(envs), ldconfig);
    var r4 := CshStep(r3, opts, envs);
    r4
  }

  /** profile.env is always the first output; when it cannot be written completely, the run stops there. */
  lemma ProfileWrittenFirst(envs: Env, opts: Opts, budget: nat, dirStat: StatOutcome, ldconfig: RunOutcome)
    ensures var r := WriteOutputs(envs, opts, budget, dirStat, ldconfig);
      Cost(opts.dryRun, Render(Profile, envs)) <= budget ==>
        |r.effects| >= 1 && r.effects[0] == Wrote(DestFor(opts.dryRun, ProfileEnvFile), Render(Profile, envs))
    ensures var r := WriteOutputs(envs, opts, budget, dirStat, ldconfig);
      Cost(opts.dryRun, Render(Profile, envs)) > budget ==> r.err == Some(WriteFailed(DestFor(opts.dryRun, ProfileEnvFile)))
  {
    var r1 := Emit(Run([], budget, None), opts.dryRun, ProfileEnvFile, Render(Profile, envs));
    var r2 := SystemdStep(r1, opts, envs, dirStat);
    var r3 := LdsoStep(r2, opts, LdPathOf(envs), ldconfig);
    var r4 := CshStep(r3, opts, envs);
    assert r4 == WriteOutputs(envs, opts, budget, dirStat, ldconfig);
    ExtendsTransitive(r1, r2, r3);
    ExtendsTransitive(r1, r3, r4);
  }

  /**
   * `EnvUpdate` with root "/": collect /etc/env.d, then write the outputs;
   * a failure to collect writes nothing. The prelink step is not modelled.
   */
  function Update(fs: Fs, opts: Opts, parse: Parser, budget: nat, dirStat: StatOutcome, ldconfig: RunOutcome): (r: Run)
    ensures ParseEnvd(fs, EnvDir, opts.singleValue, opts.colonSeparated, parse).Err? ==>
      r.effects == [] && r.err == Some(EnvdFailed(ParseEnvd(fs, EnvDir, opts.singleValue, opts.colonSeparated, parse).error))
    ensures ParseEnvd(fs, EnvDir, opts.singleValue, opts.colonSeparated, parse).Ok? ==>
      r == WriteOutputs(ParseEnvd(fs, EnvDir, opts.singleValue, opts.colonSeparated, parse).value, opts, budget, dirStat, ldconfig)
    ensures opts.dryRun ==> DryEffects(r.effects)
  {
    match ParseEnvd(fs, EnvDir, opts.singleValue, opts.colonSeparated, parse)
    case Err(e) => Run([], budget, Some(EnvdFailed(e)))
    case Ok(envs) => WriteOutputs(envs, opts, budget, dirStat, ldconfig)
  }

  /** A dry run writes nothing but standard output and never runs ldconfig. */
  lemma DryRunTouchesNoFile(fs: Fs, opts: Opts, parse: Parser, budget: nat, dirStat: StatOutcome, ldconfig: RunOutcome)
    requires opts.dryRun
    ensures forall e | e in Update(fs, opts, parse, budget, dirStat, ldconfig).effects :: !e.RanLdconfig? && !(e.Wrote? && e.dest.ToFile?)
  {
    var effects := Update(fs, opts, parse, budget, dirStat, ldconfig).effects;
    assert DryEffects(effects);
    forall e | e in effects
      ensures !e.RanLdconfig? && !(e.Wrote? && e.dest.ToFile?)
    {
      var i :| 0 <= i < |effects| && effects[i] == e;
    }
  }
}
