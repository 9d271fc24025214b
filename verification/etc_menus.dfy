/**
 * The interactive half of etc-update (`processFiles`, `processFile`,
 * `doCfg` in pkg/portage/etc-update.go): three nested menus stepped over
 * the operator's answers, replacing, deleting or merging staged files and
 * taking decided candidates out of the files map.
 *
 * The terminal is a sequence of answers and the external diff and merge
 * programs a sequence of launch outcomes; both are consumed front to back.
 */
module EtcMenus {
  import opened Wrappers
  import opened Paths
  import opened Files
  import opened FilesMaps
  import opened EtcConf
  import opened EtcCommands
  import opened EtcMask
  import opened Builds

  /**
   * One line typed at a prompt: a number `strconv.Atoi` accepts, text it
   * rejects, or a read that fails (end of input, an empty line).
   */
  datatype Answer = Num(n: int) | Word(w: string) | NoInput

  datatype Io = Io(answers: seq<Answer>, runs: seq<RunOutcome>)

  datatype EtcError =
    | FsFailed(fsError: FsError)
    | CommandFailed(command: CommandError)
    | InputFailed
    | NotANumber
    | IndexOutOfRange
    | UnexpectedState(path: string)
    | MenuModeUnsupported
    | DiffCommandBroken(template: string)
    | ProfileEnvUnreadable(message: string)
    | WorkDirFailed(message: string)
    | WriteFailed(path: string)

  /** `EtcUpdateTask`, with the root fixed at "/" and the temporary directory's name given. */
  datatype Task = Task(fs: Fs, files: FilesMap, conf: Conf, workDir: string, automergeAll: bool, discardAll: bool)

  datatype Outcome = Outcome(task: Task, io: Io, err: Option<EtcError>)

  /** `r` is what is left of `io` after reading a prefix of each of its streams. */
  predicate Consumed(io: Io, r: Io) {
    |r.answers| <= |io.answers| && r.answers == io.answers[|io.answers| - |r.answers|..]
    && |r.runs| <= |io.runs| && r.runs == io.runs[|io.runs| - |r.runs|..]
  }

  lemma ConsumedTransitive(a: Io, b: Io, c: Io)
    requires Consumed(a, b) && Consumed(b, c)
    ensures Consumed(a, c)
  {
    var i := |a.answers| - |b.answers|;
    var j := |b.answers| - |c.answers|;
    assert a.answers[i..][j..] == a.answers[i + j..];
    var k := |a.runs| - |b.runs|;
    var l := |b.runs| - |c.runs|;
    assert a.runs[k..][l..] == a.runs[k + l..];
  }

  datatype Read<T> = Read(value: Result<T, EtcError>, io: Io)

  /** `fmt.Scanln` followed by `strconv.Atoi`: every read takes one answer. */
  function ReadInt(io: Io): (r: Read<int>)
    ensures Consumed(io, r.io) && r.io.runs == io.runs
    ensures r.value.Ok? <==> |io.answers| > 0 && io.answers[0].Num?
    ensures r.value.Ok? ==> r.value.value == io.answers[0].n && r.io.answers == io.answers[1..]
    ensures r.value.Err? ==> r.value.error == InputFailed || r.value.error == NotANumber
  {
    if |io.answers| == 0 then Read(Err(InputFailed), io)
    else
      var rest := io.(answers := io.answers[1..]);
      match io.answers[0]
      case Num(n) => Read(Ok(n), rest)
      case Word(_) => Read(Err(NotANumber), rest)
      case NoInput => Read(Err(InputFailed), rest)
  }

  /** The merge confirmation: only "yes" and "y" accept; a failed read is an error. */
  function ReadYes(io: Io): (r: Read<bool>)
    ensures Consumed(io, r.io) && r.io.runs == io.runs
    ensures r.value.Err? <==> |io.answers| == 0 || io.answers[0].NoInput?
    ensures r.value.Ok? ==> r.io.answers == io.answers[1..]
    ensures r.value.Ok? ==> (r.value.value <==> io.answers[0] == Word("yes") || io.answers[0] == Word("y"))
  {
    if |io.answers| == 0 then Read(Err(InputFailed), io)
    else
      var rest := io.(answers := io.answers[1..]);
      match io.answers[0]
      case Word(w) => Read(Ok(w == "yes" || w == "y"), rest)
      case Num(_) => Read(Ok(false), rest)
      case NoInput => Read(Err(InputFailed), rest)
  }

  /** The next external program launch; when none is left the program is taken not to start. */
  function NextRun(io: Io): (r: (RunOutcome, Io))
    ensures Consumed(io, r.1) && r.1.answers == io.answers
    ensures |io.runs| > 0 ==> r.0 == io.runs[0] && r.1.runs == io.runs[1..]
  {
    if |io.runs| == 0 then (StartFailed, io) else (io.runs[0], io.(runs := io.runs[1..]))
  }

  function Lift(err: Option<FsError>): (r: Option<EtcError>)
    ensures r.None? <==> err.None?
  {
    match err
    case None => None
    case Some(e) => Some(FsFailed(e))
  }

  /**
   * "Replace original with update" (menu 1 and the automerge path): remove
   * the original, rename the update onto it, then give it back the owner,
   * group and mode captured from the original beforehand.
   */
  function Replace(fs: Fs, ofile: string, cfg: string, meta: Meta): (r: FsStep)
    ensures forall q | q != ofile && q != cfg :: Untouched(fs, r.fs, q)
    ensures forall q | q in r.fs :: q in fs
    ensures r.err.None? <==> (ofile in fs && (fs[ofile].Directory? ==> ChildNames(fs, ofile) == {})
      && cfg != ofile && cfg in fs && fs[cfg].File?)
    ensures r.err.None? ==> (cfg !in r.fs && ofile in r.fs
      && r.fs[ofile] == File(fs[cfg].data, meta.uid, meta.gid, meta.mode))
  {
    match Remove(fs, ofile)
    case Err(e) => FsStep(fs, Some(e))
    case Ok(fs1) =>
      match Rename(fs1, cfg, ofile)
      case Err(e) => FsStep(fs1, Some(e))
      case Ok(fs2) =>
        match SetMeta(fs2, ofile, meta)
        case Err(e) => FsStep(fs2, Some(e))
        case Ok(fs3) => FsStep(fs3, None)
  }

  /**
   * The accepted end of an interactive merge: the original is removed,
   * recreated with the merged content, given back its captured owner,
   * group and mode, and the update is removed.
   */
  function InstallMerged(fs: Fs, ofile: string, cfg: string, merged: string, meta: Meta): (r: FsStep)
    ensures forall q | q != ofile && q != cfg :: Untouched(fs, r.fs, q)
    ensures forall q | q in r.fs :: q in fs
    ensures r.err.None? && cfg != ofile ==> (cfg !in r.fs && ofile in r.fs
      && r.fs[ofile] == File(merged, meta.uid, meta.gid, meta.mode))
  {
    match Remove(fs, ofile)
    case Err(e) => FsStep(fs, Some(e))
    case Ok(fs1) =>
      var fs2 := fs1[ofile := File(merged, meta.uid, meta.gid, meta.mode)];
      match Remove(fs2, cfg)
      case Err(e) => FsStep(fs2, Some(e))
      case Ok(fs3) => FsStep(fs3, None)
  }

  /** What stops `utils.CopyFile` from reading `p`. */
  function CopySource(fs: Fs, p: string): Option<FsError> {
    if p !in fs then Some(NotFound(p))
    else if fs[p].Directory? then Some(NotRegular(p))
    else None
  }

  /** Where `doCfg` keeps the merge result and, in editor mode, the copy of the original. */
  function MergeFile(workDir: string, ofile: string, cfg: string): string {
    PathJoin(workDir, "." + Base(ofile) + "-" + Base(cfg) + "-merged")
  }

  function CopyFile(workDir: string, ofile: string): string {
    PathJoin(workDir, "." + Base(ofile) + "-copy")
  }

  /** How the merge program's launch went, and what it left in the merge file. */
  datatype Launch = Launch(err: Option<EtcError>, merged: string, io: Io)

  /**
   * The launch half of `mergeFunc`: the merge template on the merge file,
   * the original and the update; in editor mode the original and the
   * update are first copied to the temporary directory and the diff
   * template runs on the copies.
   */
  function LaunchMerge(t: Task, ofile: string, cfg: string, io: Io): (r: Launch)
    ensures Consumed(io, r.io) && r.io.answers == io.answers
    ensures r.err.None? ==> |io.runs| > 0 && io.runs[0].Exited? && r.merged == io.runs[0].merged
  {
    var mergeFile := MergeFile(t.workDir, ofile, cfg);
    var copyError :=
      if !t.conf.usingEditor then None
      else if CopySource(t.fs, cfg).Some? then CopySource(t.fs, cfg)
      else CopySource(t.fs, ofile);
    if copyError.Some? then Launch(Lift(copyError), "", io)
    else
      var (run, io1) := NextRun(io);
      var status :=
        if t.conf.usingEditor then DiffOutcome(DiffArgs(t.conf, CopyFile(t.workDir, ofile), mergeFile, false), run)
        else MergeOutcome(MergeArgs(t.conf, mergeFile, ofile, cfg), run);
      if status.Err? then Launch(Some(CommandFailed(status.error)), "", io1)
      else Launch(None, run.merged, io1)
  }

  /** Outside editor mode, a merge program exiting under its policy launches cleanly. */
  lemma LaunchMergeOk(t: Task, ofile: string, cfg: string, code: int, merged: string, answers: seq<Answer>, runs: seq<RunOutcome>)
    requires !t.conf.usingEditor && MergeExitOk(MergeArgs(t.conf, MergeFile(t.workDir, ofile, cfg), ofile, cfg)[0], code)
    ensures LaunchMerge(t, ofile, cfg, Io(answers, [Exited(code, merged)] + runs)) == Launch(None, merged, Io(answers, runs))
  {
    assert ([Exited(code, merged)] + runs)[1..] == runs;
  }

  /**
   * Menu 3, `mergeFunc`: launch the merge, then ask; only an accepted
   * merge touches the tree.
   */
  function Merge(t: Task, ofile: string, cfg: string, meta: Meta, io: Io): (r: Outcome)
    ensures Consumed(io, r.io)
    ensures r.task == t.(fs := r.task.fs)
    ensures forall q | q != ofile && q != cfg :: Untouched(t.fs, r.task.fs, q)
    ensures forall q | q in r.task.fs :: q in t.fs
  {
    var l := LaunchMerge(t, ofile, cfg, io);
    if l.err.Some? then Outcome(t, l.io, l.err)
    else
      var answer := ReadYes(l.io);
      ConsumedTransitive(io, l.io, answer.io);
      if answer.value.Err? then Outcome(t, answer.io, Some(answer.value.error))
      else if !answer.value.value then Outcome(t, answer.io, None)
      else
        var step := InstallMerged(t.fs, ofile, cfg, l.merged, meta);
        Outcome(t.(fs := step.fs), answer.io, Lift(step.err))
  }

  /** One pass through a menu: the outcome so far, and whether the menu is shown again. */
  datatype Step = Step(out: Outcome, again: bool)

  /**
   * One answer at the update menu of `doCfg`: 1 replaces, 2 deletes the
   * update, 3 merges, 4 shows the differences through the pager, -1
   * leaves the update as it is; any other number redisplays the menu.
   */
  function UpdateChoice(t: Task, ofile: string, cfg: string, meta: Meta, res: int, io: Io): (s: Step)
    ensures Consumed(io, s.out.io)
    ensures s.out.task == t.(fs := s.out.task.fs)
    ensures forall q | q != ofile && q != cfg :: Untouched(t.fs, s.out.task.fs, q)
    ensures forall q | q in s.out.task.fs :: q in t.fs
    ensures s.again ==> s.out.err.None? && s.out.task == t
    ensures res !in {1, 2, 3, 4} ==> s == Step(Outcome(t, io, None), res != -1)
  {
    if res == 1 then
      var step := Replace(t.fs, ofile, cfg, meta);
      Step(Outcome(t.(fs := step.fs), io, Lift(step.err)), false)
    else if res == 2 then
      match Remove(t.fs, cfg)
      case Err(e) => Step(Outcome(t, io, Some(FsFailed(e))), false)
      case Ok(fs') => Step(Outcome(t.(fs := fs'), io, None), false)
    else if res == 3 then Step(Merge(t, ofile, cfg, meta, io), false)
    else if res == 4 then
      var (run, io1) := NextRun(io);
      var status := DiffOutcome(DiffArgs(DefaultConf.(pager := t.conf.pager), ofile, cfg, false), run);
      if status.Err? then Step(Outcome(t, io1, Some(CommandFailed(status.error))), false)
      else Step(Outcome(t, io1, None), true)
    else Step(Outcome(t, io, None), res != -1)
  }

  /** The update menu of `doCfg`, redisplayed until an action completes. */
  function DoCfgMenu(t: Task, ofile: string, cfg: string, meta: Meta, io: Io): (r: Outcome)
    ensures Consumed(io, r.io)
    ensures r.task == t.(fs := r.task.fs)
    ensures forall q | q != ofile && q != cfg :: Untouched(t.fs, r.task.fs, q)
    ensures forall q | q in r.task.fs :: q in t.fs
    decreases |io.answers|
  {
    var rd := ReadInt(io);
    if rd.value.Err? then Outcome(t, rd.io, Some(rd.value.error))
    else
      var s := UpdateChoice(t, ofile, cfg, meta, rd.value.value, rd.io);
      ConsumedTransitive(io, rd.io, s.out.io);
      if !s.again then s.out
      else
        var r := DoCfgMenu(t, ofile, cfg, meta, s.out.io);
        ConsumedTransitive(io, s.out.io, r.io);
        r
  }

  /**
   * `doCfg`: with discard-all the update is deleted; otherwise the
   * original's ownership is captured first, then the update is merged
   * automatically or the menu is shown.
   */
  function DoCfg(t: Task, ofile: string, cfg: string, io: Io): (r: Outcome)
    ensures Consumed(io, r.io)
    ensures r.task == t.(fs := r.task.fs)
    ensures forall q | q != ofile && q != cfg :: Untouched(t.fs, r.task.fs, q)
    ensures forall q | q in r.task.fs :: q in t.fs
    ensures t.discardAll || t.automergeAll ==> r.io == io
  {
    if t.discardAll then
      match Remove(t.fs, cfg)
      case Err(e) => Outcome(t, io, Some(FsFailed(e)))
      case Ok(fs') => Outcome(t.(fs := fs'), io, None)
    else
      match Stat(t.fs, ofile)
      case Err(e) => Outcome(t, io, Some(FsFailed(e)))
      case Ok(meta) =>
        if t.automergeAll then
          var step := Replace(t.fs, ofile, cfg, meta);
          Outcome(t.(fs := step.fs), io, Lift(step.err))
        else DoCfgMenu(t, ofile, cfg, meta, io)
  }

  /** `q` is an original of the map or one of its updates. */
  predicate Touchable(files: FilesMap, q: string) {
    q in files || exists k | k in files :: q in files[k]
  }

  lemma TouchableShrinks(m: FilesMap, r: FilesMap, q: string)
    requires Shrinks(m, r)
    ensures Touchable(r, q) ==> Touchable(m, q)
  {
    if q !in r && Touchable(r, q) {
      var k :| k in r && q in r[k];
      assert k in m && q in m[k];
    }
  }

  /** The menus change the tree only at originals and updates listed in the map. */
  ghost predicate FsFrame(fs: Fs, fs': Fs, files: FilesMap) {
    forall q | !Touchable(files, q) :: Untouched(fs, fs', q)
  }

  /** The invariant every menu level keeps. */
  ghost predicate Progress(t: Task, io: Io, r: Outcome) {
    Consumed(io, r.io)
    && r.task.conf == t.conf && r.task.workDir == t.workDir
    && Shrinks(t.files, r.task.files)
    && (ValidMap(t.files) ==> ValidMap(r.task.files))
    && FsFrame(t.fs, r.task.fs, t.files)
    && (forall q | q in r.task.fs :: q in t.fs)
  }

  lemma ProgressTransitive(t: Task, io: Io, r1: Outcome, r2: Outcome)
    requires Progress(t, io, r1) && Progress(r1.task, r1.io, r2)
    ensures Progress(t, io, r2)
  {
    ConsumedTransitive(io, r1.io, r2.io);
    forall q | !Touchable(t.files, q)
      ensures Untouched(t.fs, r2.task.fs, q)
    {
      TouchableShrinks(t.files, r1.task.files, q);
    }
  }

  /**
   * The bulk branch of `processFile` (automerge-all or discard-all): each
   * update of the snapshot `cfgs`, in order, goes through `doCfg` and is
   * then dropped from the map.
   */
  function ProcessAll(t: Task, f: string, cfgs: seq<string>, io: Io): (r: Outcome)
    requires t.automergeAll || t.discardAll
    ensures r.io == io
    ensures r.task.conf == t.conf && r.task.workDir == t.workDir
    ensures r.task.automergeAll == t.automergeAll && r.task.discardAll == t.discardAll
    ensures Shrinks(t.files, r.task.files)
    ensures ValidMap(t.files) ==> ValidMap(r.task.files)
    ensures forall k | k != f :: (k in r.task.files <==> k in t.files) && (k in t.files ==> r.task.files[k] == t.files[k])
    ensures forall q | q != f && q !in cfgs :: Untouched(t.fs, r.task.fs, q)
    ensures forall q | q in r.task.fs :: q in t.fs
    decreases |cfgs|
  {
    if |cfgs| == 0 then Outcome(t, io, None)
    else
      var d := DoCfg(t, f, cfgs[0], io);
      if d.err.Some? then d
      else
        var t' := d.task.(files := DelFileConfig(d.task.files, f, cfgs[0]));
        var r := ProcessAll(t', f, cfgs[1..], io);
        ProcessAllStep(t, f, cfgs, d, r);
        r
  }

  lemma ProcessAllStep(t: Task, f: string, cfgs: seq<string>, d: Outcome, r: Outcome)
    requires |cfgs| > 0
    requires d.task == t.(fs := d.task.fs)
    requires forall q | q != f && q != cfgs[0] :: Untouched(t.fs, d.task.fs, q)
    requires var m := DelFileConfig(t.files, f, cfgs[0]);
      && r.task.conf == t.conf && r.task.workDir == t.workDir
      && r.task.automergeAll == t.automergeAll && r.task.discardAll == t.discardAll
      && Shrinks(m, r.task.files)
      && (ValidMap(m) ==> ValidMap(r.task.files))
      && (forall k | k != f :: (k in r.task.files <==> k in m) && (k in m ==> r.task.files[k] == m[k]))
      && (forall q | q != f && q !in cfgs[1..] :: Untouched(d.task.fs, r.task.fs, q))
      && (forall q | q in r.task.fs :: q in d.task.fs)
    requires forall q | q in d.task.fs :: q in t.fs
    ensures Shrinks(t.files, r.task.files)
    ensures ValidMap(t.files) ==> ValidMap(r.task.files)
    ensures forall k | k != f :: (k in r.task.files <==> k in t.files) && (k in t.files ==> r.task.files[k] == t.files[k])
    ensures forall q | q != f && q !in cfgs :: Untouched(t.fs, r.task.fs, q)
    ensures forall q | q in r.task.fs :: q in t.fs
  {
    var m := DelFileConfig(t.files, f, cfgs[0]);
    DelFileConfigShrinks(t.files, f, cfgs[0]);
    ShrinksTransitive(t.files, m, r.task.files);
    forall q | q != f && q !in cfgs
      ensures Untouched(t.fs, r.task.fs, q)
    {
      assert q != cfgs[0] && q !in cfgs[1..];
      assert Untouched(t.fs, d.task.fs, q);
      assert Untouched(d.task.fs, r.task.fs, q);
    }
  }

  lemma ValidKeyHasMember(m: FilesMap, f: string)
    requires ValidMap(m)
    ensures f in m ==> m[f][0] in m[f]
  {
  }

  /**
   * When the snapshot covers every update of `f` and nothing fails, the
   * bulk branch leaves no entry for `f`.
   */
  lemma {:induction false} ProcessAllClears(t: Task, f: string, cfgs: seq<string>, io: Io)
    requires t.automergeAll || t.discardAll
    requires ValidMap(t.files)
    requires f in t.files ==> forall c | c in t.files[f] :: c in cfgs
    requires ProcessAll(t, f, cfgs, io).err.None?
    ensures f !in ProcessAll(t, f, cfgs, io).task.files
    decreases |cfgs|
  {
    if |cfgs| == 0 {
      ValidKeyHasMember(t.files, f);
    } else {
      var d := DoCfg(t, f, cfgs[0], io);
      var t' := d.task.(files := DelFileConfig(d.task.files, f, cfgs[0]));
      assert forall c | c in cfgs && c != cfgs[0] :: c in cfgs[1..];
      ProcessAllClears(t', f, cfgs[1..], io);
    }
  }

  /** The selection rule of a numbered menu. */
  datatype Selection = Retry | Pick(index: nat) | OutOfRange

  /**
   * A numbered menu as written: only `res > limit` is refused, so any
   * other number outside `1..n` indexes out of range.
   */
  function SelectAsWritten(res: int, limit: int, n: nat): (s: Selection)
    ensures s.Pick? ==> s.index < n && s.index == res - 1
    ensures s.Retry? <==> res > limit
    ensures s.OutOfRange? <==> res <= limit && !(1 <= res <= n)
  {
    if res > limit then Retry
    else if 1 <= res <= n then Pick(res - 1)
    else OutOfRange
  }

  /** The corrected rule: exactly `1..n` selects, everything else asks again. */
  function SelectCorrected(res: int, n: nat): (s: Selection)
    ensures !s.OutOfRange?
    ensures s.Pick? <==> 1 <= res <= n
    ensures s.Pick? ==> s.index == res - 1
  {
    if 1 <= res <= n then Pick(res - 1) else Retry
  }

  function Select(build: Build, res: int, limit: int, n: nat): (s: Selection)
    ensures s.Pick? ==> s.index < n && s.index == res - 1
    ensures build == Corrected ==> s == SelectCorrected(res, n)
    ensures build == AsWritten ==> s == SelectAsWritten(res, limit, n)
  {
    match build
    case AsWritten => SelectAsWritten(res, limit, n)
    case Corrected => SelectCorrected(res, n)
  }

  /** Where the two rules agree: inside the list both pick the same entry, and past the limit both ask again. */
  lemma SelectRulesAgree(res: int, limit: int, n: nat)
    requires n <= limit
    ensures 1 <= res <= n ==> SelectAsWritten(res, limit, n) == SelectCorrected(res, n) == Pick(res - 1)
    ensures res > limit ==> SelectAsWritten(res, limit, n) == SelectCorrected(res, n) == Retry
  {
  }

  /**
   * One answer at the menu of `processFile` for `f`: -1 leaves it, a valid
   * position runs `doCfg` on that update and then drops it from the map.
   */
  function FileChoice(build: Build, t: Task, f: string, res: int, io: Io): (s: Step)
    requires f in t.files && !t.automergeAll && !t.discardAll
    ensures Progress(t, io, s.out)
    ensures s.out.task.automergeAll == t.automergeAll && s.out.task.discardAll == t.discardAll
    ensures forall k | k != f :: (k in s.out.task.files <==> k in t.files) && (k in t.files ==> s.out.task.files[k] == t.files[k])
    ensures s.again ==> s.out.err.None? && f in s.out.task.files
    ensures res == -1 ==> s == Step(Outcome(t, io, None), false)
    ensures res != -1 && Select(build, res, |t.files[f]|, |t.files[f]|).Retry? ==> s == Step(Outcome(t, io, None), true)
    ensures res != -1 && Select(build, res, |t.files[f]|, |t.files[f]|).OutOfRange? ==> s == Step(Outcome(t, io, Some(IndexOutOfRange)), false)
    ensures res != -1 && Select(build, res, |t.files[f]|, |t.files[f]|).Pick? ==>
      var d := DoCfg(t, f, t.files[f][res - 1], io);
      s.out.err == d.err && s.out.io == d.io && s.out.task.fs == d.task.fs
      && (d.err.None? ==> s.out.task.files == DelFileConfig(t.files, f, t.files[f][res - 1]) && (s.again <==> f in s.out.task.files))
      && (d.err.Some? ==> s.out.task.files == t.files && !s.again)
  {
    var cfgs := t.files[f];
    if res == -1 then Step(Outcome(t, io, None), false)
    else
      match Select(build, res, |cfgs|, |cfgs|)
      case Retry => Step(Outcome(t, io, None), true)
      case OutOfRange => Step(Outcome(t, io, Some(IndexOutOfRange)), false)
      case Pick(i) =>
        var d := DoCfg(t, f, cfgs[i], io);
        assert forall q | !Touchable(t.files, q) :: q != f && q != cfgs[i];
        if d.err.Some? then Step(d, false)
        else
          var t' := d.task.(files := DelFileConfig(d.task.files, f, cfgs[i]));
          Step(Outcome(t', d.io, None), f in t'.files)
  }

  /**
   * The interactive branch of `processFile`: the menu over the current
   * updates of `f` until the operator leaves it or the key disappears.
   */
  function ProcessFileMenu(build: Build, t: Task, f: string, io: Io): (r: Outcome)
    requires f in t.files && !t.automergeAll && !t.discardAll
    ensures Progress(t, io, r)
    ensures r.task.automergeAll == t.automergeAll && r.task.discardAll == t.discardAll
    ensures forall k | k != f :: (k in r.task.files <==> k in t.files) && (k in t.files ==> r.task.files[k] == t.files[k])
    decreases |io.answers|
  {
    var rd := ReadInt(io);
    if rd.value.Err? then Outcome(t, rd.io, Some(rd.value.error))
    else
      var s := FileChoice(build, t, f, rd.value.value, rd.io);
      ConsumedTransitive(io, rd.io, s.out.io);
      if !s.again then s.out
      else
        var r := ProcessFileMenu(build, s.out.task, f, s.out.io);
        ProgressTransitive(t, io, s.out, r);
        r
  }

  /** `processFile`: the bulk branch when a bulk flag is set, the menu otherwise. */
  function ProcessFile(build: Build, t: Task, f: string, io: Io): (r: Outcome)
    ensures Progress(t, io, r)
    ensures r.task.automergeAll == t.automergeAll && r.task.discardAll == t.discardAll
    ensures forall k | k != f :: (k in r.task.files <==> k in t.files) && (k in t.files ==> r.task.files[k] == t.files[k])
    ensures f !in t.files ==> r == Outcome(t, io, Some(UnexpectedState(f)))
    ensures t.automergeAll || t.discardAll ==> r.io == io
    ensures (t.automergeAll || t.discardAll) && r.err.None? && ValidMap(t.files) ==> f !in r.task.files
  {
    if f !in t.files then Outcome(t, io, Some(UnexpectedState(f)))
    else if t.automergeAll || t.discardAll then
      var r := ProcessAll(t, f, t.files[f], io);
      assert forall q | !Touchable(t.files, q) :: q != f && q !in t.files[f];
      if r.err.None? && ValidMap(t.files) then ProcessAllClears(t, f, t.files[f], io); r
      else r
    else ProcessFileMenu(build, t, f, io)
  }

  /** The bulk loop of `processFiles` over the listing taken before the choice. */
  function ProcessList(build: Build, t: Task, list: seq<string>, io: Io): (r: Outcome)
    requires t.automergeAll || t.discardAll
    ensures Progress(t, io, r) && r.io == io
    ensures r.task.automergeAll == t.automergeAll && r.task.discardAll == t.discardAll
    ensures forall k | k !in list :: (k in r.task.files <==> k in t.files) && (k in t.files ==> r.task.files[k] == t.files[k])
    ensures r.err.None? && ValidMap(t.files) ==> forall k | k in list :: k !in r.task.files
    decreases |list|
  {
    if |list| == 0 then Outcome(t, io, None)
    else
      var p := ProcessFile(build, t, list[0], io);
      if p.err.Some? then p
      else
        var r := ProcessList(build, p.task, list[1..], p.io);
        ProgressTransitive(t, io, p, r);
        assert forall k | k in list :: k == list[0] || k in list[1..];
        r
  }

  /**
   * One answer at the file menu of `processFiles`, given the listing
   * drawn: -1 ends the run, -3 merges and -7 discards everything, -5 and
   * -9 only warn, and a position runs `processFile` on that original. The
   * menu comes back while the map is non-empty.
   */
  function TopChoice(build: Build, t: Task, res: int, list: seq<string>, io: Io): (s: Step)
    ensures Progress(t, io, s.out)
    ensures s.again <==> res != -1 && s.out.err.None? && |s.out.task.files| > 0
  {
    if res == -1 then Step(Outcome(t, io, None), false)
    else
      var out :=
        if res == -3 then ProcessList(build, t.(automergeAll := true), list, io)
        else if res == -7 then ProcessList(build, t.(discardAll := true), list, io)
        else if res == -5 || res == -9 then Outcome(t, io, None)
        else
          match Select(build, res, |list| + 1, |list|)
          case Retry => Outcome(t, io, None)
          case OutOfRange => Outcome(t, io, Some(IndexOutOfRange))
          case Pick(i) => ProcessFile(build, t, list[i], io);
      Step(out, out.err.None? && |out.task.files| > 0)
  }

  /**
   * The order in which a map's keys come out the `drawn`-th time it is
   * ranged over; Go gives no order, and two rangings of one map may differ.
   */
  type Listing = (nat, FilesMap) -> seq<string>

  /**
   * `processFiles`: the file menu, shown until the operator exits with -1,
   * an error stops the run, or the map is empty. The menu is drawn for
   * the `drawn`-th time, and each redraw ranges over the map anew.
   */
  function ProcessFiles(build: Build, t: Task, io: Io, listing: Listing, drawn: nat): (r: Outcome)
    ensures Progress(t, io, r)
    decreases |io.answers|
  {
    var rd := ReadInt(io);
    if rd.value.Err? then Outcome(t, rd.io, Some(rd.value.error))
    else
      var s := TopChoice(build, t, rd.value.value, listing(drawn, t.files), rd.io);
      ConsumedTransitive(io, rd.io, s.out.io);
      if !s.again then s.out
      else
        var r := ProcessFiles(build, s.out.task, s.out.io, listing, drawn + 1);
        ProgressTransitive(t, io, s.out, r);
        r
  }

  /** `listing` names every key of the map it is given, and nothing else. */
  ghost predicate Enumerates(list: seq<string>, files: FilesMap) {
    forall k :: k in list <==> k in files
  }

  /** One numeric answer at the file menu, unfolded once. */
  lemma ProcessFilesOn(build: Build, t: Task, res: int, rest: seq<Answer>, runs: seq<RunOutcome>, listing: Listing, drawn: nat)
    ensures var s := TopChoice(build, t, res, listing(drawn, t.files), Io(rest, runs));
      ProcessFiles(build, t, Io([Num(res)] + rest, runs), listing, drawn)
        == if s.again then ProcessFiles(build, s.out.task, s.out.io, listing, drawn + 1) else s.out
  {
    var io := Io([Num(res)] + rest, runs);
    assert io.answers[1..] == rest;
    assert ReadInt(io) == Read(Ok(res), Io(rest, runs));
  }

  /** 0 at the file menu: out of range as written, asked again when corrected. */
  lemma TopChoiceZero(t: Task, list: seq<string>, io: Io)
    requires |t.files| > 0
    ensures TopChoice(AsWritten, t, 0, list, io) == Step(Outcome(t, io, Some(IndexOutOfRange)), false)
    ensures TopChoice(Corrected, t, 0, list, io) == Step(Outcome(t, io, None), true)
  {
    assert Select(AsWritten, 0, |list| + 1, |list|) == OutOfRange;
    assert Select(Corrected, 0, |list| + 1, |list|) == Retry;
  }

  /** Answering -1 at the file menu ends the run with the tree and the map as they were. */
  lemma QuitLeavesEverything(build: Build, t: Task, rest: seq<Answer>, runs: seq<RunOutcome>, listing: Listing, drawn: nat)
    ensures ProcessFiles(build, t, Io([Num(-1)] + rest, runs), listing, drawn) == Outcome(t, Io(rest, runs), None)
  {
    assert ([Num(-1)] + rest)[1..] == rest;
  }

  /** -5 and -9 only warn: the menu is shown again on the same state. */
  lemma UnsupportedCodesOnlyWarn(build: Build, t: Task, code: int, rest: seq<Answer>, runs: seq<RunOutcome>, listing: Listing, drawn: nat)
    requires code == -5 || code == -9
    requires |t.files| > 0
    ensures ProcessFiles(build, t, Io([Num(code)] + rest, runs), listing, drawn) == ProcessFiles(build, t, Io(rest, runs), listing, drawn + 1)
  {
    assert ([Num(code)] + rest)[1..] == rest;
    assert TopChoice(build, t, code, listing(drawn, t.files), Io(rest, runs)) == Step(Outcome(t, Io(rest, runs), None), true);
  }

  /** -3 and -7 run the bulk pass over the listing with their flag set. */
  lemma TopChoiceBulk(build: Build, t: Task, code: int, list: seq<string>, io: Io)
    requires code == -3 || code == -7
    ensures var out := ProcessList(build, if code == -3 then t.(automergeAll := true) else t.(discardAll := true), list, io);
      TopChoice(build, t, code, list, io) == Step(out, out.err.None? && |out.task.files| > 0)
  {
  }

  /**
   * -3 merges every listed update and -7 discards every one; when the
   * listing names exactly the map's keys and nothing fails, the map is
   * empty afterwards and the run ends after this single answer.
   */
  lemma BulkEmptiesMap(build: Build, t: Task, code: int, rest: seq<Answer>, runs: seq<RunOutcome>, listing: Listing, drawn: nat)
    requires code == -3 || code == -7
    requires ValidMap(t.files) && Enumerates(listing(drawn, t.files), t.files)
    requires ProcessFiles(build, t, Io([Num(code)] + rest, runs), listing, drawn).err.None?
    ensures ProcessFiles(build, t, Io([Num(code)] + rest, runs), listing, drawn).task.files == map[]
    ensures ProcessFiles(build, t, Io([Num(code)] + rest, runs), listing, drawn).io == Io(rest, runs)
    ensures code == -3 ==> ProcessFiles(build, t, Io([Num(code)] + rest, runs), listing, drawn).task.automergeAll
    ensures code == -7 ==> ProcessFiles(build, t, Io([Num(code)] + rest, runs), listing, drawn).task.discardAll
  {
    var list := listing(drawn, t.files);
    var t' := if code == -3 then t.(automergeAll := true) else t.(discardAll := true);
    var out := ProcessList(build, t', list, Io(rest, runs));
    TopChoiceBulk(build, t, code, list, Io(rest, runs));
    ProcessFilesOn(build, t, code, rest, runs, listing, drawn);
    assert out.err.None?;
    forall k
      ensures k !in out.task.files
    {
      if k in t.files {
        assert k in list;
      }
    }
    assert out.task.files.Keys == {};
  }

  /** As written, choosing `len + 1` at the file menu crashes the run; corrected, it asks again. */
  lemma FileMenuOffByOne(t: Task, rest: seq<Answer>, runs: seq<RunOutcome>, listing: Listing, drawn: nat)
    requires |t.files| > 0
    ensures ProcessFiles(AsWritten, t, Io([Num(|listing(drawn, t.files)| + 1)] + rest, runs), listing, drawn).err == Some(IndexOutOfRange)
    ensures ProcessFiles(Corrected, t, Io([Num(|listing(drawn, t.files)| + 1)] + rest, runs), listing, drawn)
      == ProcessFiles(Corrected, t, Io(rest, runs), listing, drawn + 1)
  {
    var n := |listing(drawn, t.files)|;
    ProcessFilesOn(AsWritten, t, n + 1, rest, runs, listing, drawn);
    ProcessFilesOn(Corrected, t, n + 1, rest, runs, listing, drawn);
    TopChoicePastEnd(t, listing(drawn, t.files), Io(rest, runs));
  }

  /** `len + 1` at the file menu: out of range as written, asked again when corrected. */
  lemma TopChoicePastEnd(t: Task, list: seq<string>, io: Io)
    requires |t.files| > 0
    ensures TopChoice(AsWritten, t, |list| + 1, list, io) == Step(Outcome(t, io, Some(IndexOutOfRange)), false)
    ensures TopChoice(Corrected, t, |list| + 1, list, io) == Step(Outcome(t, io, None), true)
  {
    assert Select(AsWritten, |list| + 1, |list| + 1, |list|) == OutOfRange;
    assert Select(Corrected, |list| + 1, |list| + 1, |list|) == Retry;
  }

  /** The same holds for 0. */
  lemma FileMenuZero(t: Task, rest: seq<Answer>, runs: seq<RunOutcome>, listing: Listing, drawn: nat)
    requires |t.files| > 0
    ensures ProcessFiles(AsWritten, t, Io([Num(0)] + rest, runs), listing, drawn).err == Some(IndexOutOfRange)
    ensures ProcessFiles(Corrected, t, Io([Num(0)] + rest, runs), listing, drawn)
      == ProcessFiles(Corrected, t, Io(rest, runs), listing, drawn + 1)
  {
    ProcessFilesOn(AsWritten, t, 0, rest, runs, listing, drawn);
    ProcessFilesOn(Corrected, t, 0, rest, runs, listing, drawn);
    TopChoiceZero(t, listing(drawn, t.files), Io(rest, runs));
  }

  /** As written, 0 at the menu of one original crashes too; corrected, it asks again. */
  lemma UpdateListZero(t: Task, f: string, io: Io)
    requires f in t.files && !t.automergeAll && !t.discardAll
    ensures FileChoice(AsWritten, t, f, 0, io) == Step(Outcome(t, io, Some(IndexOutOfRange)), false)
    ensures FileChoice(Corrected, t, f, 0, io) == Step(Outcome(t, io, None), true)
  {
  }

  /**
   * When the mask pass has taken every key, the file menu is still drawn,
   * empty, and read once: as written, 1 then indexes the empty listing;
   * corrected, the run simply ends.
   */
  lemma EmptyMenuSelection(t: Task, rest: seq<Answer>, runs: seq<RunOutcome>, listing: Listing, drawn: nat)
    requires |t.files| == 0 && |listing(drawn, t.files)| == 0
    ensures ProcessFiles(AsWritten, t, Io([Num(1)] + rest, runs), listing, drawn) == Outcome(t, Io(rest, runs), Some(IndexOutOfRange))
    ensures ProcessFiles(Corrected, t, Io([Num(1)] + rest, runs), listing, drawn) == Outcome(t, Io(rest, runs), None)
  {
    ProcessFilesOn(AsWritten, t, 1, rest, runs, listing, drawn);
    ProcessFilesOn(Corrected, t, 1, rest, runs, listing, drawn);
    TopChoiceOnEmpty(t, listing(drawn, t.files), Io(rest, runs));
  }

  /** 1 at the file menu of an empty map: out of range as written, and the run ends when corrected. */
  lemma TopChoiceOnEmpty(t: Task, list: seq<string>, io: Io)
    requires |t.files| == 0 && |list| == 0
    ensures TopChoice(AsWritten, t, 1, list, io) == Step(Outcome(t, io, Some(IndexOutOfRange)), false)
    ensures TopChoice(Corrected, t, 1, list, io) == Step(Outcome(t, io, None), false)
  {
    assert Select(AsWritten, 1, 1, 0) == OutOfRange;
    assert Select(Corrected, 1, 1, 0) == Retry;
  }

  /** With discard-all, `doCfg` deletes the update and nothing else. */
  lemma DiscardDeletesOnlyUpdate(t: Task, ofile: string, cfg: string, io: Io)
    requires t.discardAll && cfg in t.fs && t.fs[cfg].File?
    ensures DoCfg(t, ofile, cfg, io) == Outcome(t.(fs := t.fs - {cfg}), io, None)
  {
  }

  /**
   * With automerge-all, the original gets the update's content with its
   * own former owner, group and mode, and the update is gone.
   */
  lemma AutomergeReplaces(t: Task, ofile: string, cfg: string, io: Io)
    requires t.automergeAll && !t.discardAll
    requires ofile in t.fs && t.fs[ofile].File? && cfg in t.fs && t.fs[cfg].File? && cfg != ofile
    ensures DoCfg(t, ofile, cfg, io).err.None?
    ensures DoCfg(t, ofile, cfg, io).task.fs
      == (t.fs - {cfg})[ofile := File(t.fs[cfg].data, t.fs[ofile].uid, t.fs[ofile].gid, t.fs[ofile].mode)]
  {
    ReplaceMoves(t.fs, ofile, cfg, Meta(t.fs[ofile].uid, t.fs[ofile].gid, t.fs[ofile].mode));
  }

  /** On two distinct regular files, "replace" is the update's content moved onto the original, with `meta`. */
  lemma ReplaceMoves(fs: Fs, ofile: string, cfg: string, meta: Meta)
    requires ofile in fs && fs[ofile].File? && cfg in fs && fs[cfg].File? && cfg != ofile
    ensures Replace(fs, ofile, cfg, meta) == FsStep((fs - {cfg})[ofile := File(fs[cfg].data, meta.uid, meta.gid, meta.mode)], None)
  {
    var r := Replace(fs, ofile, cfg, meta);
    var expected := (fs - {cfg})[ofile := File(fs[cfg].data, meta.uid, meta.gid, meta.mode)];
    assert r.fs.Keys == expected.Keys;
    assert r.fs == expected;
  }

  /**
   * Menu 1 at the update menu: the original is replaced by the update,
   * which keeps the original's former owner, group and mode, and the
   * update is gone; nothing else in the tree changes.
   */
  lemma MenuReplaceKeepsMeta(t: Task, ofile: string, cfg: string, rest: seq<Answer>, runs: seq<RunOutcome>)
    requires !t.automergeAll && !t.discardAll
    requires ofile in t.fs && t.fs[ofile].File? && cfg in t.fs && t.fs[cfg].File? && cfg != ofile
    ensures DoCfg(t, ofile, cfg, Io([Num(1)] + rest, runs))
      == Outcome(t.(fs := (t.fs - {cfg})[ofile := File(t.fs[cfg].data, t.fs[ofile].uid, t.fs[ofile].gid, t.fs[ofile].mode)]), Io(rest, runs), None)
  {
    var meta := Meta(t.fs[ofile].uid, t.fs[ofile].gid, t.fs[ofile].mode);
    var io := Io([Num(1)] + rest, runs);
    assert io.answers[1..] == rest;
    assert ReadInt(io) == Read(Ok(1), Io(rest, runs));
    ReplaceMoves(t.fs, ofile, cfg, meta);
  }

  /** Menu 4 shows the differences and changes nothing: a successful diff redisplays the same menu. */
  lemma ShowDiffRedisplays(t: Task, ofile: string, cfg: string, meta: Meta, merged: string, rest: seq<Answer>, runs: seq<RunOutcome>)
    ensures DoCfgMenu(t, ofile, cfg, meta, Io([Num(4)] + rest, [Exited(0, merged)] + runs))
      == DoCfgMenu(t, ofile, cfg, meta, Io(rest, runs))
  {
    assert ([Num(4)] + rest)[1..] == rest;
    assert ([Exited(0, merged)] + runs)[1..] == runs;
    assert UpdateChoice(t, ofile, cfg, meta, 4, Io(rest, [Exited(0, merged)] + runs)) == Step(Outcome(t, Io(rest, runs), None), true);
  }

  /** A number the update menu does not offer redisplays it. */
  lemma UnknownChoiceRedisplays(t: Task, ofile: string, cfg: string, meta: Meta, n: int, rest: seq<Answer>, runs: seq<RunOutcome>)
    requires n !in {1, 2, 3, 4, -1}
    ensures DoCfgMenu(t, ofile, cfg, meta, Io([Num(n)] + rest, runs)) == DoCfgMenu(t, ofile, cfg, meta, Io(rest, runs))
  {
    assert ([Num(n)] + rest)[1..] == rest;
  }

  /** Menu 2 deletes the update and keeps the original as it is. */
  lemma DeleteKeepsOriginal(t: Task, ofile: string, cfg: string, meta: Meta, rest: seq<Answer>, runs: seq<RunOutcome>)
    requires cfg in t.fs && t.fs[cfg].File?
    ensures DoCfgMenu(t, ofile, cfg, meta, Io([Num(2)] + rest, runs)) == Outcome(t.(fs := t.fs - {cfg}), Io(rest, runs), None)
  {
    var io := Io([Num(2)] + rest, runs);
    assert io.answers[1..] == rest;
    var rd := ReadInt(io);
    assert rd.value == Ok(2) && rd.io == Io(rest, runs);
    assert Remove(t.fs, cfg) == Ok(t.fs - {cfg});
    var s := UpdateChoice(t, ofile, cfg, meta, 2, Io(rest, runs));
    assert s == Step(Outcome(t.(fs := t.fs - {cfg}), Io(rest, runs), None), false);
  }

  /** -1 at the update menu leaves the tree as it is. */
  lemma IgnoreAtUpdateMenu(t: Task, f: string, cfg: string, rest: seq<Answer>, runs: seq<RunOutcome>)
    requires !t.automergeAll && !t.discardAll && f in t.fs
    ensures DoCfg(t, f, cfg, Io([Num(-1)] + rest, runs)) == Outcome(t, Io(rest, runs), None)
  {
    assert ([Num(-1)] + rest)[1..] == rest;
    var meta := Meta(t.fs[f].uid, t.fs[f].gid, t.fs[f].mode);
    assert DoCfgMenu(t, f, cfg, meta, Io([Num(-1)] + rest, runs)) == Outcome(t, Io(rest, runs), None);
  }

  /**
   * A pick at the menu of an original that brings the menu back, followed
   * by -1: the run leaves the menu with what the pick did.
   */
  lemma PickThenLeave(build: Build, t: Task, f: string, i: int, a: seq<Answer>, rest: seq<Answer>, runs: seq<RunOutcome>, o: Outcome)
    requires f in t.files && !t.automergeAll && !t.discardAll
    requires FileChoice(build, t, f, i, Io(a, runs)) == Step(o, true)
    requires o.io == Io([Num(-1)] + rest, runs)
    ensures ProcessFileMenu(build, t, f, Io([Num(i)] + a, runs)) == Outcome(o.task, Io(rest, runs), None)
  {
    var io := Io([Num(i)] + a, runs);
    assert io.answers[1..] == a;
    assert ReadInt(io) == Read(Ok(i), Io(a, runs));
    LeaveFileMenu(build, o.task, f, rest, runs);
  }

  /** -1 at the menu of an original leaves it with the map and the tree as they are. */
  lemma LeaveFileMenu(build: Build, t: Task, f: string, rest: seq<Answer>, runs: seq<RunOutcome>)
    requires f in t.files && !t.automergeAll && !t.discardAll
    ensures ProcessFileMenu(build, t, f, Io([Num(-1)] + rest, runs)) == Outcome(t, Io(rest, runs), None)
  {
    assert ([Num(-1)] + rest)[1..] == rest;
  }

  /**
   * Ignoring an update at its menu (-1) still drops it from the map: the
   * menu of the original then offers only the other updates, and the tree
   * is as it was.
   */
  lemma IgnoredUpdateLeavesMap(build: Build, t: Task, f: string, i: nat, rest: seq<Answer>, runs: seq<RunOutcome>)
    requires f in t.files && !t.automergeAll && !t.discardAll
    requires 1 <= i <= |t.files[f]| && f in t.fs
    requires exists c | c in t.files[f] :: c != t.files[f][i - 1]
    ensures var r := ProcessFileMenu(build, t, f, Io([Num(i), Num(-1), Num(-1)] + rest, runs));
      r.err.None? && r.task.fs == t.fs && r.io == Io(rest, runs)
      && r.task.files == DelFileConfig(t.files, f, t.files[f][i - 1])
  {
    var a := [Num(-1), Num(-1)] + rest;
    assert [Num(i), Num(-1), Num(-1)] + rest == [Num(i)] + a;
    var o := IgnoredPick(build, t, f, i, rest, runs);
    PickThenLeave(build, t, f, i, a, rest, runs, o);
  }

  /** The pick of the ignored update: the map loses it, the tree is kept, and the menu comes back. */
  lemma IgnoredPick(build: Build, t: Task, f: string, i: nat, rest: seq<Answer>, runs: seq<RunOutcome>) returns (o: Outcome)
    requires f in t.files && !t.automergeAll && !t.discardAll
    requires 1 <= i <= |t.files[f]| && f in t.fs
    requires exists c | c in t.files[f] :: c != t.files[f][i - 1]
    ensures o == Outcome(t.(files := DelFileConfig(t.files, f, t.files[f][i - 1])), Io([Num(-1)] + rest, runs), None)
    ensures FileChoice(build, t, f, i, Io([Num(-1), Num(-1)] + rest, runs)) == Step(o, true)
  {
    var io2 := Io([Num(-1)] + rest, runs);
    assert [Num(-1), Num(-1)] + rest == [Num(-1)] + io2.answers;
    var cfg := t.files[f][i - 1];
    IgnoreAtUpdateMenu(t, f, cfg, io2.answers, runs);
    o := Outcome(t.(files := DelFileConfig(t.files, f, cfg)), io2, None);
    assert f in o.task.files;
    assert Select(build, i, |t.files[f]|, |t.files[f]|) == Pick(i - 1);
    var s := FileChoice(build, t, f, i, Io([Num(-1), Num(-1)] + rest, runs));
    assert s.out.task == o.task;
  }

  /**
   * Picking an update at the menu of its original and replacing with it
   * (menu 1) drops that update from the map and moves it onto the
   * original; the menu of the original then comes back with the others.
   */
  lemma ReplacedUpdateLeavesMap(build: Build, t: Task, f: string, i: nat, rest: seq<Answer>, runs: seq<RunOutcome>)
    requires f in t.files && !t.automergeAll && !t.discardAll
    requires 1 <= i <= |t.files[f]|
    requires var cfg := t.files[f][i - 1];
      f in t.fs && t.fs[f].File? && cfg in t.fs && t.fs[cfg].File? && cfg != f
    requires exists c | c in t.files[f] :: c != t.files[f][i - 1]
    ensures var cfg := t.files[f][i - 1];
      var r := ProcessFileMenu(build, t, f, Io([Num(i), Num(1), Num(-1)] + rest, runs));
      r.err.None? && r.io == Io(rest, runs)
      && r.task.fs == (t.fs - {cfg})[f := File(t.fs[cfg].data, t.fs[f].uid, t.fs[f].gid, t.fs[f].mode)]
      && r.task.files == DelFileConfig(t.files, f, cfg)
  {
    var a := [Num(1), Num(-1)] + rest;
    assert [Num(i), Num(1), Num(-1)] + rest == [Num(i)] + a;
    var o := ReplacedPick(build, t, f, i, rest, runs);
    PickThenLeave(build, t, f, i, a, rest, runs, o);
  }

  /** The pick of the replaced update: the map loses it, the tree has it moved onto the original, and the menu comes back. */
  lemma ReplacedPick(build: Build, t: Task, f: string, i: nat, rest: seq<Answer>, runs: seq<RunOutcome>) returns (o: Outcome)
    requires f in t.files && !t.automergeAll && !t.discardAll
    requires 1 <= i <= |t.files[f]|
    requires var cfg := t.files[f][i - 1];
      f in t.fs && t.fs[f].File? && cfg in t.fs && t.fs[cfg].File? && cfg != f
    requires exists c | c in t.files[f] :: c != t.files[f][i - 1]
    ensures var cfg := t.files[f][i - 1];
      o == Outcome(t.(fs := (t.fs - {cfg})[f := File(t.fs[cfg].data, t.fs[f].uid, t.fs[f].gid, t.fs[f].mode)],
                      files := DelFileConfig(t.files, f, cfg)), Io([Num(-1)] + rest, runs), None)
    ensures FileChoice(build, t, f, i, Io([Num(1), Num(-1)] + rest, runs)) == Step(o, true)
  {
    var io2 := Io([Num(-1)] + rest, runs);
    assert [Num(1), Num(-1)] + rest == [Num(1)] + io2.answers;
    var cfg := t.files[f][i - 1];
    MenuReplaceKeepsMeta(t, f, cfg, io2.answers, runs);
    var fs' := (t.fs - {cfg})[f := File(t.fs[cfg].data, t.fs[f].uid, t.fs[f].gid, t.fs[f].mode)];
    o := Outcome(t.(fs := fs', files := DelFileConfig(t.files, f, cfg)), io2, None);
    assert f in o.task.files;
    assert Select(build, i, |t.files[f]|, |t.files[f]|) == Pick(i - 1);
    var s := FileChoice(build, t, f, i, Io([Num(1), Num(-1)] + rest, runs));
    assert s.out.task == o.task;
  }

  /** A declined merge leaves the tree as it was. */
  lemma MergeDeclined(t: Task, ofile: string, cfg: string, meta: Meta, code: int, merged: string, rest: seq<Answer>, runs: seq<RunOutcome>)
    requires !t.conf.usingEditor && MergeExitOk(MergeArgs(t.conf, MergeFile(t.workDir, ofile, cfg), ofile, cfg)[0], code)
    ensures Merge(t, ofile, cfg, meta, Io([Word("no")] + rest, [Exited(code, merged)] + runs)) == Outcome(t, Io(rest, runs), None)
  {
    LaunchMergeOk(t, ofile, cfg, code, merged, [Word("no")] + rest, runs);
    assert ([Word("no")] + rest)[1..] == rest;
    assert ReadYes(Io([Word("no")] + rest, runs)) == Read(Ok(false), Io(rest, runs));
  }

  /**
   * An accepted merge writes what the merge program produced onto the
   * original, with the original's captured owner, group and mode, and
   * removes the update.
   */
  lemma MergeAccepted(t: Task, ofile: string, cfg: string, meta: Meta, code: int, merged: string, rest: seq<Answer>, runs: seq<RunOutcome>)
    requires !t.conf.usingEditor && MergeExitOk(MergeArgs(t.conf, MergeFile(t.workDir, ofile, cfg), ofile, cfg)[0], code)
    requires ofile in t.fs && t.fs[ofile].File? && cfg in t.fs && t.fs[cfg].File? && cfg != ofile
    ensures var r := Merge(t, ofile, cfg, meta, Io([Word("yes")] + rest, [Exited(code, merged)] + runs));
      r.err.None? && r.io == Io(rest, runs) && cfg !in r.task.fs
      && ofile in r.task.fs && r.task.fs[ofile] == File(merged, meta.uid, meta.gid, meta.mode)
  {
    LaunchMergeOk(t, ofile, cfg, code, merged, [Word("yes")] + rest, runs);
    assert ([Word("yes")] + rest)[1..] == rest;
    assert ReadYes(Io([Word("yes")] + rest, runs)) == Read(Ok(true), Io(rest, runs));
    assert InstallMerged(t.fs, ofile, cfg, merged, meta).err.None?;
  }

  /** Choosing 3 and declining the result leaves the tree as it was. */
  lemma DeclinedMergeLeavesTree(t: Task, ofile: string, cfg: string, meta: Meta, code: int, merged: string, rest: seq<Answer>, runs: seq<RunOutcome>)
    requires !t.conf.usingEditor && MergeExitOk(MergeArgs(t.conf, MergeFile(t.workDir, ofile, cfg), ofile, cfg)[0], code)
    ensures DoCfgMenu(t, ofile, cfg, meta, Io([Num(3), Word("no")] + rest, [Exited(code, merged)] + runs))
      == Outcome(t, Io(rest, runs), None)
  {
    assert ([Num(3), Word("no")] + rest)[1..] == [Word("no")] + rest;
    MergeDeclined(t, ofile, cfg, meta, code, merged, rest, runs);
  }
}
