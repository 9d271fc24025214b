/**
 * `EtcUpdate` (pkg/portage/etc-update.go): load and check the
 * configuration, work out which paths are protected and which masked,
 * collect the pending updates, fold in the masked ones, then hand the rest
 * to the operator.
 */
module EtcUpdateMain {
  import opened Wrappers
  import opened Paths
  import opened Files
  import opened FilesMaps
  import opened EtcConf
  import opened EtcCommands
  import opened EtcScan
  import opened EtcMask
  import opened EtcMenus
  import opened Builds

  const ConfFile := "/etc/etc-update.conf"
  const ProfileEnvFile := "/etc/profile.env"

  /** `EtcUpdateOpts`: the paths to scan and the paths to fold in without asking. */
  datatype Opts = Opts(paths: seq<string>, masks: seq<string>)

  /**
   * What the run reads besides the tree: the parses of the two
   * configuration files (used only when the files exist), `$PAGER`,
   * `$NONINTERACTIVE_MV`, the temporary directory `os.MkdirTemp` made (a
   * clean absolute path) or the error it returned, and the paths whose
   * `os.WriteFile` fails. The temporary directory lies outside the tree.
   */
  datatype Inputs = Inputs(confParsed: Parsed, profileParsed: Parsed, pager: string, nonInteractiveMv: string,
                           workDir: string, workDirErr: Option<string>, failingWrites: set<string>)

  const TestFile1 := ".diff-test-1"
  const TestFile2 := ".diff-test-2"

  /**
   * The sanity check of the diff template outside editor mode: both test
   * files are written, then the quiet diff runs on them. A failed write
   * stops before the diff is launched; a diff that does not exit 0 means
   * the template is broken.
   */
  function DiffSanity(conf: Conf, inputs: Inputs, io: Io): (r: (Option<EtcError>, Io))
    ensures Consumed(io, r.1) && r.1.answers == io.answers
    ensures PathJoin(inputs.workDir, TestFile1) in inputs.failingWrites ==> r == (Some(WriteFailed(PathJoin(inputs.workDir, TestFile1))), io)
    ensures PathJoin(inputs.workDir, TestFile1) !in inputs.failingWrites && PathJoin(inputs.workDir, TestFile2) in inputs.failingWrites ==>
      r == (Some(WriteFailed(PathJoin(inputs.workDir, TestFile2))), io)
    ensures PathJoin(inputs.workDir, TestFile1) !in inputs.failingWrites && PathJoin(inputs.workDir, TestFile2) !in inputs.failingWrites ==>
      r.1 == NextRun(io).1 &&
      (r.0.None? <==> DiffOutcome(DiffArgs(conf, PathJoin(inputs.workDir, TestFile1), PathJoin(inputs.workDir, TestFile2), true), NextRun(io).0).Ok?) &&
      (r.0.Some? ==> r.0 == Some(DiffCommandBroken(conf.diffCommand)))
  {
    var test1 := PathJoin(inputs.workDir, TestFile1);
    var test2 := PathJoin(inputs.workDir, TestFile2);
    if test1 in inputs.failingWrites then (Some(WriteFailed(test1)), io)
    else if test2 in inputs.failingWrites then (Some(WriteFailed(test2)), io)
    else
      var (run, io1) := NextRun(io);
      if DiffOutcome(DiffArgs(conf, test1, test2, true), run).Err? then (Some(DiffCommandBroken(conf.diffCommand)), io1)
      else (None, io1)
  }

  /** The configuration in force: the file's when it exists, the defaults otherwise. */
  function EffectiveConf(fs: Fs, inputs: Inputs): (c: Conf)
    ensures ConfFile !in fs ==> c == DefaultConf
    ensures ConfFile in fs ==> c == LoadConf(inputs.confParsed)
  {
    if ConfFile in fs then LoadConf(inputs.confParsed) else DefaultConf
  }

  /** Whether the run goes on to the menus, or stopped (cleanly or with an error) before them. */
  datatype Stage = Stopped(err: Option<EtcError>) | Ready

  /**
   * The run up to the operator: the `Task` the menus start from, the map the
   * scan produced and the mask list in force.
   */
  datatype Prepared = Prepared(task: Task, io: Io, stage: Stage, scanned: FilesMap, masks: seq<string>)

  /**
   * Everything `EtcUpdate` does before `processFiles`: configuration, the
   * diff sanity run (outside editor mode), the protect lists, the scan, the
   * "nothing to do" exit and the mask pass; the mask pass is the map's
   * first ranging (`listing` at 0), and the menus range it from 1 on.
   */
  function Prepare(build: Build, fs: Fs, opts: Opts, inputs: Inputs, io: Io, listing: Listing): (r: Prepared)
    ensures Consumed(io, r.io) && r.io.answers == io.answers
    ensures inputs.workDirErr.Some? ==> r.stage == Stopped(Some(WorkDirFailed(inputs.workDirErr.value))) && r.task.fs == fs && r.io == io
    ensures inputs.workDirErr.None? && !EffectiveConf(fs, inputs).modeText ==> r.stage == Stopped(Some(EtcError.MenuModeUnsupported)) && r.task.fs == fs && r.io == io
    ensures r.stage == Stopped(None) ==> r.scanned == map[]
    ensures r.stage.Ready? ==> |r.scanned| > 0 && ValidMap(r.task.files)
    ensures r.stage.Ready? ==> !r.task.automergeAll && !r.task.discardAll && r.task.workDir == inputs.workDir
    ensures r.stage.Ready? ==> r.task.conf.modeText && r.task.conf.pager != ""
    ensures r.stage.Ready? ==> forall k | k in r.task.files :: k in r.scanned && r.task.files[k] == r.scanned[k]
    ensures r.stage.Ready? && Enumerates(listing(0, r.scanned), r.scanned) ==> forall k | k in r.task.files :: k !in r.masks
    ensures forall p | p in r.task.fs :: p in fs
  {
    var start := Task(fs, map[], EffectiveConf(fs, inputs), inputs.workDir, false, false);
    if inputs.workDirErr.Some? then Prepared(start, io, Stopped(Some(WorkDirFailed(inputs.workDirErr.value))), map[], opts.masks)
    else
      match PrepareConf(EffectiveConf(fs, inputs), inputs.pager, inputs.nonInteractiveMv)
      case Err(_) => Prepared(start, io, Stopped(Some(EtcError.MenuModeUnsupported)), map[], opts.masks)
      case Ok(conf) =>
        var (sanity, io1) := if conf.usingEditor then (None, io) else DiffSanity(conf, inputs, io);
        var t0 := start.(conf := conf);
        if sanity.Some? then Prepared(t0, io1, Stopped(sanity), map[], opts.masks)
        else
          var profile := if ProfileEnvFile in fs then ProfileEnv(inputs.profileParsed) else NoProfileEnv;
          match ProtectPaths(opts.paths, opts.masks, profile)
          case Err(msg) => Prepared(t0, io1, Stopped(Some(ProfileEnvUnreadable(msg))), map[], opts.masks)
          case Ok((paths, masks)) =>
            var sc := Scan(build, fs, map[], paths);
            ScanKeepsValidMap(build, fs, map[], paths);
            var t := t0.(fs := sc.fs, files := sc.files);
            if sc.err.Some? then Prepared(t, io1, Stopped(Some(FsFailed(sc.err.value))), map[], masks)
            else if |sc.files| == 0 then Prepared(t, io1, Stopped(None), map[], masks)
            else
              var m := CheckMasked(sc.fs, sc.files, masks, listing(0, sc.files));
              var t' := t.(fs := m.fs, files := m.files);
              if m.err.Some? then Prepared(t', io1, Stopped(Some(FsFailed(m.err.value))), sc.files, masks)
              else Prepared(t', io1, Ready, sc.files, masks)
  }

  /**
   * `EtcUpdate`: the prepared task, then the menus unless the run stopped
   * before them.
   */
  function EtcUpdate(build: Build, fs: Fs, opts: Opts, inputs: Inputs, io: Io, listing: Listing): (r: Outcome)
    ensures Consumed(io, r.io)
    ensures inputs.workDirErr.Some? ==> r.err == Some(WorkDirFailed(inputs.workDirErr.value)) && r.task.fs == fs && r.io == io
    ensures inputs.workDirErr.None? && !EffectiveConf(fs, inputs).modeText ==> r.err == Some(EtcError.MenuModeUnsupported) && r.task.fs == fs && r.io == io
    ensures Prepare(build, fs, opts, inputs, io, listing).stage.Stopped? ==>
      r.io.answers == io.answers && r.err == Prepare(build, fs, opts, inputs, io, listing).stage.err
    ensures forall p | p in r.task.fs :: p in fs
  {
    var p := Prepare(build, fs, opts, inputs, io, listing);
    match p.stage
    case Stopped(err) => Outcome(p.task, p.io, err)
    case Ready =>
      var r := ProcessFiles(build, p.task, p.io, listing, 1);
      ConsumedTransitive(io, p.io, r.io);
      r
  }

  /** Without a configuration file, a diff template that exits non-zero on the test files aborts the run untouched. */
  lemma BrokenDiffAborts(build: Build, fs: Fs, opts: Opts, inputs: Inputs, code: int, merged: string, answers: seq<Answer>, runs: seq<RunOutcome>, listing: Listing)
    requires ConfFile !in fs && code != 0
    requires inputs.workDirErr.None? && inputs.failingWrites == {}
    ensures var r := EtcUpdate(build, fs, opts, inputs, Io(answers, [Exited(code, merged)] + runs), listing);
      r.err == Some(DiffCommandBroken(DefaultDiffCommand)) && r.task.fs == fs && r.io == Io(answers, runs)
  {
    assert ([Exited(code, merged)] + runs)[1..] == runs;
  }

  /** An original under a masked path is never offered: when every scanned original is masked, the menus start on an empty map. */
  lemma MaskedUpdateNotOffered(build: Build, fs: Fs, opts: Opts, inputs: Inputs, io: Io, listing: Listing)
    requires Prepare(build, fs, opts, inputs, io, listing).stage.Ready?
    requires var p := Prepare(build, fs, opts, inputs, io, listing);
      Enumerates(listing(0, p.scanned), p.scanned) && forall k | k in p.scanned :: k in p.masks
    ensures Prepare(build, fs, opts, inputs, io, listing).task.files == map[]
  {
    var p := Prepare(build, fs, opts, inputs, io, listing);
    assert forall k | k in p.task.files :: k in p.scanned && k in p.masks;
    assert p.task.files.Keys == {};
  }

  /**
   * Without a configuration file, a diff-test file that cannot be written
   * aborts the run before the diff is launched: no program run is used
   * and the tree is untouched.
   */
  lemma TestWriteFailureAborts(build: Build, fs: Fs, opts: Opts, inputs: Inputs, io: Io, listing: Listing)
    requires ConfFile !in fs && inputs.workDirErr.None?
    requires PathJoin(inputs.workDir, TestFile1) in inputs.failingWrites || PathJoin(inputs.workDir, TestFile2) in inputs.failingWrites
    ensures var r := EtcUpdate(build, fs, opts, inputs, io, listing);
      r.err.Some? && r.err.value.WriteFailed? && r.task.fs == fs && r.io == io
  {
  }
}
