/**
 * The etc-update configuration (pkg/portage/etc-update.go): the built-in
 * defaults, the loader over the key/value map the shell-file parser
 * produces, the start-up adjustments, and the derivation of the protected
 * and masked path lists from profile.env.
 */
module EtcConf {
  import opened Wrappers
  import opened Text
  import opened Tools

  datatype Conf = Conf(
    modeText: bool,
    clearTerm: bool,
    euAutomerge: bool,
    rmOpts: string,
    mvOpts: string,
    cpOpts: string,
    pager: string,
    usingEditor: bool,
    diffCommand: string,
    mergeCommand: string)

  const DefaultDiffCommand := "diff -uN " + ("%file1" + " %file2")
  const DefaultMergeCommand := "sdiff -s -o " + "%merged" + " %orig %new"

  /** `NewEtcUpdateConf`. */
  const DefaultConf := Conf(true, false, true, "-i", "-1", "-i", "", false, DefaultDiffCommand, DefaultMergeCommand)

  /** The outcome of running the shell-file parser on the configuration file. */
  type Parsed = Result<map<string, string>, string>

  function Flag(m: map<string, string>, key: string, on: string, default: bool): bool {
    if key in m then m[key] == on else default
  }

  function Str(m: map<string, string>, key: string, default: string): string {
    if key in m then m[key] else default
  }

  /**
   * A boolean setting: `default` when `key` is absent; when present, on
   * exactly for the one spelling `on`, and off for any other text.
   */
  predicate SwitchedBy(m: map<string, string>, key: string, on: string, default: bool, v: bool) {
    if key in m then (v <==> m[key] == on) else v == default
  }

  /** A text setting: the file's value verbatim when `key` is present, `default` otherwise. */
  predicate SetBy(m: map<string, string>, key: string, default: string, v: string) {
    if key in m then v == m[key] else v == default
  }

  /**
   * `NewEtcUpdateConfFromFile`: a parse failure keeps every default; otherwise
   * each recognised key present overrides its field.
   */
  function LoadConf(parsed: Parsed): (c: Conf)
    ensures parsed.Err? ==> c == DefaultConf
    ensures parsed.Ok? ==>
      var m := parsed.value;
      SwitchedBy(m, "mode", "0", true, c.modeText) &&
      SwitchedBy(m, "clear_term", "yes", false, c.clearTerm) &&
      SwitchedBy(m, "eu_automerge", "yes", true, c.euAutomerge) &&
      SwitchedBy(m, "using_editor", "1", false, c.usingEditor)
    ensures parsed.Ok? ==>
      var m := parsed.value;
      SetBy(m, "rm_opts", "-i", c.rmOpts) && SetBy(m, "mv_opts", "-1", c.mvOpts) &&
      SetBy(m, "cp_opts", "-i", c.cpOpts) && SetBy(m, "pager", "", c.pager) &&
      SetBy(m, "diff_command", DefaultDiffCommand, c.diffCommand) &&
      SetBy(m, "merge_command", DefaultMergeCommand, c.mergeCommand)
  {
    match parsed
    case Err(_) => DefaultConf
    case Ok(m) =>
      Conf(
        Flag(m, "mode", "0", DefaultConf.modeText),
        Flag(m, "clear_term", "yes", DefaultConf.clearTerm),
        Flag(m, "eu_automerge", "yes", DefaultConf.euAutomerge),
        Str(m, "rm_opts", DefaultConf.rmOpts),
        Str(m, "mv_opts", DefaultConf.mvOpts),
        Str(m, "cp_opts", DefaultConf.cpOpts),
        Str(m, "pager", DefaultConf.pager),
        Flag(m, "using_editor", "1", DefaultConf.usingEditor),
        Str(m, "diff_command", DefaultConf.diffCommand),
        Str(m, "merge_command", DefaultConf.mergeCommand))
  }

  /** The configuration file that would describe `c`, in the loader's own spelling of each field. */
  function Encode(c: Conf): map<string, string> {
    map[
      "mode" := if c.modeText then "0" else "1",
      "clear_term" := if c.clearTerm then "yes" else "no",
      "eu_automerge" := if c.euAutomerge then "yes" else "no",
      "rm_opts" := c.rmOpts,
      "mv_opts" := c.mvOpts,
      "cp_opts" := c.cpOpts,
      "pager" := c.pager,
      "using_editor" := if c.usingEditor then "1" else "0",
      "diff_command" := c.diffCommand,
      "merge_command" := c.mergeCommand]
  }

  /** Every configuration is loaded back from its own file: the loader reads every field. */
  lemma LoadEncodedConf(c: Conf)
    ensures LoadConf(Ok(Encode(c))) == c
  {
  }

  /** An empty file leaves every default in place, as does an unparsable one. */
  lemma LoadEmptyConf()
    ensures LoadConf(Ok(map[])) == DefaultConf
  {
  }

  /** Only the exact spellings switch a setting on: `clear_term=true` and `using_editor=yes` leave both off. */
  lemma NonCanonicalFlagValues()
    ensures !LoadConf(Ok(map["clear_term" := "true", "using_editor" := "yes"])).clearTerm
    ensures !LoadConf(Ok(map["clear_term" := "true", "using_editor" := "yes"])).usingEditor
    ensures !LoadConf(Ok(map["mode" := "text"])).modeText
  {
  }

  datatype ConfError = MenuModeUnsupported

  /**
   * The start-up part of `EtcUpdate`: menu mode is refused; an empty pager
   * becomes `$PAGER` or `cat`; a non-empty `NONINTERACTIVE_MV` removes
   * every " -i " from the move options.
   */
  function PrepareConf(c: Conf, envPager: string, nonInteractiveMv: string): (r: Result<Conf, ConfError>)
    ensures r.Err? <==> !c.modeText
    ensures r.Ok? ==> r.value.pager != ""
    ensures r.Ok? && c.pager != "" ==> r.value.pager == c.pager
    ensures r.Ok? && c.pager == "" && envPager != "" ==> r.value.pager == envPager
    ensures r.Ok? && c.pager == "" && envPager == "" ==> r.value.pager == "cat"
    ensures r.Ok? && nonInteractiveMv == "" ==> r.value.mvOpts == c.mvOpts
    ensures r.Ok? && nonInteractiveMv != "" ==> r.value.mvOpts == ReplaceAll(c.mvOpts, " -i ", "")
    ensures r.Ok? && nonInteractiveMv != "" && ' ' !in c.mvOpts ==> r.value.mvOpts == c.mvOpts
    ensures r.Ok? ==> r.value.(pager := c.pager, mvOpts := c.mvOpts) == c
  {
    if !c.modeText then Err(MenuModeUnsupported)
    else
      var pager := if c.pager != "" then c.pager else if envPager != "" then envPager else "cat";
      var mv := if nonInteractiveMv != "" then ReplaceAll(c.mvOpts, " -i ", "") else c.mvOpts;
      assert ' ' !in c.mvOpts ==> ReplaceAll(c.mvOpts, " -i ", "") == c.mvOpts by {
        if ' ' !in c.mvOpts {
          ReplaceAllAbsent(c.mvOpts, " -i ", "");
        }
      }
      Ok(c.(pager := pager, mvOpts := mv))
  }

  /**
   * Only " -i " with a space on both sides is removed, and the two spaces
   * go with it: "-f -i -v" becomes "-f-v", and a leading "-i" stays.
   */
  lemma NonInteractiveMvJoinsNeighbours(c: Conf)
    requires c.modeText
    ensures PrepareConf(c.(mvOpts := "-f -i -v"), "", "1").value.mvOpts == "-f-v"
    ensures PrepareConf(c.(mvOpts := "-i -v"), "", "1").value.mvOpts == "-i -v"
  {
    MiddleOptionRemoved();
    LeadingOptionKept();
  }

  lemma MiddleOptionRemoved()
    ensures ReplaceAll("-f -i -v", " -i ", "") == "-f-v"
  {
    assert "-f -i -v" == "-f" + (" -i " + "-v");
    ReplaceAllSkip("-f", " -i " + "-v", " -i ", "");
    ReplaceAllHit(" -i ", "-v", "");
    ReplaceAllAbsent("-v", " -i ", "");
    assert "-f" + ("" + "-v") == "-f-v";
  }

  lemma LeadingOptionKept()
    ensures ReplaceAll("-i -v", " -i ", "") == "-i -v"
  {
    assert "-i -v" == "-i" + " -v";
    ReplaceAllSkip("-i", " -v", " -i ", "");
    assert !HasPrefix(" -v", " -i ");
    assert " -v"[1..] == "-v";
    ReplaceAllAbsent("-v", " -i ", "");
    assert [' '] + "-v" == " -v";
  }

  /** What became of /etc/profile.env when looking for the protect lists. */
  datatype ProfileEnv = NoProfileEnv | ProfileEnv(parsed: Parsed)

  const MandatoryProtect := "/etc"
  const BuiltinMasks := ["/etc/macaroni/release", "/etc/os-release"]

  /** Appends each built-in mask the list does not already hold. */
  function AddBuiltinMasks(masks: seq<string>, builtins: seq<string>): (r: seq<string>)
    ensures |masks| <= |r| && r[..|masks|] == masks
    ensures forall b | b in builtins :: b in r
    ensures forall x | x in r :: x in masks || x in builtins
    decreases |builtins|
  {
    if |builtins| == 0 then masks
    else
      var next := if KeyInList(builtins[0], masks) then masks else masks + [builtins[0]];
      var r := AddBuiltinMasks(next, builtins[1..]);
      assert r[..|masks|] == next[..|masks|];
      assert builtins[0] in next by {
        if KeyInList(builtins[0], masks) {
          var i :| 0 <= i < |masks| && masks[i] == builtins[0];
          assert next[i] == builtins[0];
        } else {
          assert next[|masks|] == builtins[0];
        }
      }
      assert builtins[0] in r by {
        var i :| 0 <= i < |next| && next[i] == builtins[0];
        assert r[..|next|][i] == builtins[0];
      }
      assert forall b | b in builtins :: b == builtins[0] || b in builtins[1..];
      r
  }

  /**
   * The space-separated fields of `key` in a parsed profile.env, empty
   * fields included; no list when the file or the key is missing.
   */
  function ProfileList(profile: ProfileEnv, key: string): (r: seq<string>)
    ensures (profile.ProfileEnv? && profile.parsed.Ok? && key in profile.parsed.value) <==> |r| > 0
    ensures forall i | 0 <= i < |r| :: ' ' !in r[i]
  {
    if profile.ProfileEnv? && profile.parsed.Ok? && key in profile.parsed.value then Split(profile.parsed.value[key], ' ') else []
  }

  /**
   * The path lists `EtcUpdate` scans: the caller's own list when it is
   * non-empty; otherwise CONFIG_PROTECT from profile.env with "/etc" put
   * first when missing, and the masks extended with CONFIG_PROTECT_MASK and
   * the two built-in masks. A profile.env that fails to parse is an error.
   */
  function ProtectPaths(paths: seq<string>, masks: seq<string>, profile: ProfileEnv): (r: Result<(seq<string>, seq<string>), string>)
    ensures |paths| > 0 ==> r == Ok((paths, masks))
    ensures r.Err? <==> |paths| == 0 && profile.ProfileEnv? && profile.parsed.Err?
    ensures r.Ok? && |paths| == 0 ==> MandatoryProtect in r.value.0
    ensures r.Ok? && |paths| == 0 ==> forall b | b in BuiltinMasks :: b in r.value.1
    ensures r.Ok? ==> |masks| <= |r.value.1| && r.value.1[..|masks|] == masks
    ensures r.Ok? && |paths| == 0 ==>
      var fields := ProfileList(profile, "CONFIG_PROTECT");
      r.value.0 == if MandatoryProtect in fields then fields else [MandatoryProtect] + fields
    ensures r.Ok? && |paths| == 0 ==>
      r.value.1 == masks + AddBuiltinMasks(ProfileList(profile, "CONFIG_PROTECT_MASK"), BuiltinMasks)
  {
    if |paths| > 0 then Ok((paths, masks))
    else if profile.ProfileEnv? && profile.parsed.Err? then Err(profile.parsed.error)
    else
      var protect := ProfileList(profile, "CONFIG_PROTECT");
      var protectMask := ProfileList(profile, "CONFIG_PROTECT_MASK");
      var protect' := if KeyInList(MandatoryProtect, protect) then protect else [MandatoryProtect] + protect;
      var protectMask' := AddBuiltinMasks(protectMask, BuiltinMasks);
      assert MandatoryProtect in protect' by {
        if KeyInList(MandatoryProtect, protect) {
          var i :| 0 <= i < |protect| && protect[i] == MandatoryProtect;
        } else {
          assert protect'[0] == MandatoryProtect;
        }
      }
      assert (masks + protectMask')[..|masks|] == masks;
      Ok((protect', masks + protectMask'))
  }

  /** When CONFIG_PROTECT already names "/etc", the scanned list is exactly its space-separated fields. */
  lemma ProtectPathsKeepsListedEtc(masks: seq<string>, env: map<string, string>)
    requires "CONFIG_PROTECT" in env
    requires MandatoryProtect in Split(env["CONFIG_PROTECT"], ' ')
    ensures ProtectPaths([], masks, ProfileEnv(Ok(env))).Ok?
    ensures ProtectPaths([], masks, ProfileEnv(Ok(env))).value.0 == Split(env["CONFIG_PROTECT"], ' ')
  {
    var fields := Split(env["CONFIG_PROTECT"], ' ');
    var i :| 0 <= i < |fields| && fields[i] == MandatoryProtect;
    assert KeyInList(MandatoryProtect, fields);
  }

  /**
   * A trailing space in CONFIG_PROTECT adds an empty path to the list;
   * joined to the root, that path is the whole root.
   */
  lemma TrailingSpaceAddsEmptyPath(masks: seq<string>)
    ensures ProtectPaths([], masks, ProfileEnv(Ok(map["CONFIG_PROTECT" := "/etc "]))) == Ok((["/etc", ""], masks + BuiltinMasks))
  {
    var profile := ProfileEnv(Ok(map["CONFIG_PROTECT" := "/etc "]));
    assert ProfileList(profile, "CONFIG_PROTECT") == ["/etc", ""] by {
      assert "/etc " == "/etc" + [' '] + "";
      SplitAppend("/etc", "", ' ');
    }
    assert ProfileList(profile, "CONFIG_PROTECT_MASK") == [];
    assert KeyInList(MandatoryProtect, ["/etc", ""]) by {
      assert ["/etc", ""][0] == MandatoryProtect;
    }
    BuiltinMasksOnEmpty();
  }

  lemma BuiltinMasksOnEmpty()
    ensures AddBuiltinMasks([], BuiltinMasks) == BuiltinMasks
  {
    var a := BuiltinMasks[0];
    var b := BuiltinMasks[1];
    assert !KeyInList(a, []);
    assert AddBuiltinMasks([], BuiltinMasks) == AddBuiltinMasks([a], [b]);
    assert !KeyInList(b, [a]) by {
      assert a != b by { assert a[5] != b[5]; }
    }
    assert AddBuiltinMasks([a], [b]) == AddBuiltinMasks([a, b], []);
  }
}
