/**
 * The `kernel switch <kernel>@<branch>` command (cmd/kernel/switch.go):
 * the argument check, the refusal to reinstall an installed kernel, the
 * choice of the candidate kernel and of the extra modules to carry over.
 * The package queries are inputs; installing is left to the caller.
 */
module KernelSwitch {
  import opened Wrappers
  import opened Text
  import opened KernelAnnotations

  datatype SwitchError =
    | TooManyArgs
    | MissingArg
    | Malformed
    | QueryFailed(msg: string)
    | AnnotationError(err: ParseError)
    | AlreadyInstalled(kernel: string, branch: string)
    | NoCandidate

  /** The `PreRun` check: exactly one argument, holding an `@`. */
  function PreRun(args: seq<string>): (r: Option<SwitchError>)
    ensures r.None? <==> |args| == 1 && '@' in args[0]
    ensures |args| > 1 ==> r == Some(TooManyArgs)
    ensures |args| == 0 ==> r == Some(MissingArg)
  {
    if |args| > 1 then Some(TooManyArgs)
    else if |args| == 0 then Some(MissingArg)
    else if '@' !in args[0] then Some(Malformed)
    else None
  }

  /** The kernel before the first `@` and the branch after it. */
  function SplitParam(param: string): (r: (string, string))
    requires '@' in param
    ensures param == r.0 + "@" + r.1 && '@' !in r.0
  {
    Cut(param, '@').value
  }

  /** A kernel name without `@` and any branch come back from the argument built of them. */
  lemma SplitParamRoundTrip(kernel: string, branch: string)
    requires '@' !in kernel
    ensures SplitParam(kernel + "@" + branch) == (kernel, branch)
  {
    CutAt(kernel, '@', branch);
  }

  /** The category of a branch's packages. */
  function BranchCategory(branch: string): string {
    "kernel-" + branch
  }

  /** An installed stone that is the requested kernel, of the requested type, on the requested branch. */
  predicate Conflicts(s: Stone, kernel: string, branch: string, kType: string) {
    var a := ParseKernelAnnotations(s);
    a.Ok? && a.value.suffix == kernel && a.value.kind == kType && s.category == BranchCategory(branch)
  }

  /**
   * The loop over the installed kernels: in order, an annotation error or
   * a conflict stops the command, whichever comes first.
   */
  function CheckInstalled(stones: seq<Stone>, kernel: string, branch: string, kType: string): (r: Option<SwitchError>)
    ensures r.None? <==> forall i | 0 <= i < |stones| :: ParseKernelAnnotations(stones[i]).Ok? && !Conflicts(stones[i], kernel, branch, kType)
    ensures r.Some? ==> r.value == AlreadyInstalled(kernel, branch) || r.value.AnnotationError?
    ensures r == Some(AlreadyInstalled(kernel, branch)) ==> exists i | 0 <= i < |stones| :: Conflicts(stones[i], kernel, branch, kType)
    ensures r.Some? && r.value.AnnotationError? ==> exists i | 0 <= i < |stones| :: ParseKernelAnnotations(stones[i]) == Err(r.value.err)
    decreases |stones|
  {
    if |stones| == 0 then None
    else
      var a := ParseKernelAnnotations(stones[0]);
      if a.Err? then Some(AnnotationError(a.error))
      else if Conflicts(stones[0], kernel, branch, kType) then Some(AlreadyInstalled(kernel, branch))
      else
        var r := CheckInstalled(stones[1..], kernel, branch, kType);
        assert forall i | 1 <= i < |stones| :: stones[i] == stones[1..][i - 1];
        r
  }

  /** A stone the requested kernel on the requested branch, whatever its type. */
  predicate Matches(s: Stone, kernel: string, branch: string) {
    var a := ParseKernelAnnotations(s);
    a.Ok? && a.value.suffix == kernel && s.category == BranchCategory(branch)
  }

  /**
   * The loop over the available kernels: the first stone that matches is
   * the candidate; an annotation error before it stops the command, and
   * no match at all is an error.
   */
  function FindCandidate(stones: seq<Stone>, kernel: string, branch: string): (r: Result<Stone, SwitchError>)
    ensures r.Ok? ==> exists i | 0 <= i < |stones| :: (stones[i] == r.value && Matches(stones[i], kernel, branch) &&
      forall j | 0 <= j < i :: ParseKernelAnnotations(stones[j]).Ok? && !Matches(stones[j], kernel, branch))
    ensures r == Err(NoCandidate) <==> forall i | 0 <= i < |stones| :: ParseKernelAnnotations(stones[i]).Ok? && !Matches(stones[i], kernel, branch)
    ensures r.Err? ==> r.error == NoCandidate || r.error.AnnotationError?
    decreases |stones|
  {
    if |stones| == 0 then Err(NoCandidate)
    else
      var a := ParseKernelAnnotations(stones[0]);
      if a.Err? then Err(AnnotationError(a.error))
      else if Matches(stones[0], kernel, branch) then Ok(stones[0])
      else
        var r := FindCandidate(stones[1..], kernel, branch);
        assert forall i | 1 <= i < |stones| :: stones[i] == stones[1..][i - 1];
        if r.Ok? then
          var i :| 0 <= i < |stones[1..]| && stones[1..][i] == r.value && Matches(stones[1..][i], kernel, branch) &&
            forall j | 0 <= j < i :: ParseKernelAnnotations(stones[1..][j]).Ok? && !Matches(stones[1..][j], kernel, branch);
          assert stones[i + 1] == r.value && forall j | 0 <= j < i + 1 :: ParseKernelAnnotations(stones[j]).Ok? && !Matches(stones[j], kernel, branch);
          r
        else r
  }

  /** The type is not part of the match: a kernel of another type on the branch is still picked. */
  lemma CandidateTypeNotChecked(s: Stone, kernel: string, branch: string, kType: string)
    requires Matches(s, kernel, branch) && ParseKernelAnnotations(s).value.kind != kType
    ensures FindCandidate([s], kernel, branch) == Ok(s)
  {
  }

  /** An installed module is carried over when `from` is empty or it sits on the `from` branch. */
  predicate Kept(s: Stone, from: string) {
    from == "" || s.category == BranchCategory(from)
  }

  /** `m` holds, under each name kept among `stones`, the last stone kept with that name. */
  ghost predicate LastKept(stones: seq<Stone>, from: string, m: map<string, Stone>) {
    (forall k :: k in m <==> exists i | 0 <= i < |stones| :: stones[i].name == k && Kept(stones[i], from)) &&
    (forall k | k in m :: exists i | 0 <= i < |stones| :: (stones[i] == m[k] && m[k].name == k && Kept(stones[i], from) &&
      forall j | i < j < |stones| :: !(stones[j].name == k && Kept(stones[j], from))))
  }

  /** The installed modules by name; of several with one name, the last one kept wins. */
  function ModulesMap(stones: seq<Stone>, from: string): (m: map<string, Stone>)
    ensures LastKept(stones, from, m)
    decreases |stones|
  {
    if |stones| == 0 then map[]
    else
      var n := |stones| - 1;
      var init := ModulesMap(stones[..n], from);
      var m := if Kept(stones[n], from) then init[stones[n].name := stones[n]] else init;
      ModulesMapStep(stones, from, init, m);
      m
  }

  lemma ModulesMapStepKeys(stones: seq<Stone>, from: string, init: map<string, Stone>, m: map<string, Stone>)
    requires |stones| > 0
    requires LastKept(stones[..|stones| - 1], from, init)
    requires var s := stones[|stones| - 1]; m == if Kept(s, from) then init[s.name := s] else init
    ensures forall k :: k in m <==> exists i | 0 <= i < |stones| :: stones[i].name == k && Kept(stones[i], from)
  {
    var n := |stones| - 1;
    var s := stones[n];
    assert forall i | 0 <= i < n :: stones[..n][i] == stones[i];
    forall k
      ensures k in m <==> exists i | 0 <= i < |stones| :: stones[i].name == k && Kept(stones[i], from)
    {
      if k in m && !(Kept(s, from) && k == s.name) {
        var i :| 0 <= i < n && stones[..n][i].name == k && Kept(stones[..n][i], from);
        assert stones[i].name == k;
      }
    }
  }

  lemma ModulesMapStepLast(stones: seq<Stone>, from: string, init: map<string, Stone>, m: map<string, Stone>)
    requires |stones| > 0
    requires LastKept(stones[..|stones| - 1], from, init)
    requires var s := stones[|stones| - 1]; m == if Kept(s, from) then init[s.name := s] else init
    ensures forall k | k in m :: exists i | 0 <= i < |stones| :: (stones[i] == m[k] && m[k].name == k && Kept(stones[i], from) &&
      forall j | i < j < |stones| :: !(stones[j].name == k && Kept(stones[j], from)))
  {
    var n := |stones| - 1;
    var s := stones[n];
    forall k | k in m
      ensures exists i | 0 <= i < |stones| :: (stones[i] == m[k] && m[k].name == k && Kept(stones[i], from) &&
        forall j | i < j < |stones| :: !(stones[j].name == k && Kept(stones[j], from)))
    {
      if Kept(s, from) && k == s.name {
        assert stones[n] == m[k];
      } else {
        var i :| 0 <= i < n && (stones[..n][i] == init[k] && init[k].name == k && Kept(stones[..n][i], from) &&
          forall j | i < j < n :: !(stones[..n][j].name == k && Kept(stones[..n][j], from)));
        assert stones[i] == m[k];
        assert forall j | i < j < n :: stones[..n][j] == stones[j];
      }
    }
  }

  lemma ModulesMapStep(stones: seq<Stone>, from: string, init: map<string, Stone>, m: map<string, Stone>)
    requires |stones| > 0
    requires LastKept(stones[..|stones| - 1], from, init)
    requires var s := stones[|stones| - 1]; m == if Kept(s, from) then init[s.name := s] else init
    ensures LastKept(stones, from, m)
  {
    ModulesMapStepKeys(stones, from, init, m);
    ModulesMapStepLast(stones, from, init, m);
  }

  /**
   * The Go loop building the map: skip the modules off the `from` branch,
   * store the others under their name.
   */
  method ModulesMapLoop(stones: seq<Stone>, from: string) returns (m: map<string, Stone>)
    ensures m == ModulesMap(stones, from)
  {
    m := map[];
    for i := 0 to |stones|
      invariant m == ModulesMap(stones[..i], from)
    {
      assert stones[..i + 1][..i] == stones[..i];
      if from != "" && stones[i].category != BranchCategory(from) {
        continue;
      }
      m := m[stones[i].name := stones[i]];
    }
    assert stones[..|stones|] == stones;
  }

  /** The branch's available modules whose name is among the installed ones, in the available order. */
  function CandidateModules(avail: seq<Stone>, installed: map<string, Stone>): (r: seq<Stone>)
    ensures forall s :: s in r <==> s in avail && s.name in installed
    ensures |r| <= |avail|
    decreases |avail|
  {
    if |avail| == 0 then []
    else
      var rest := CandidateModules(avail[1..], installed);
      assert forall s | s in avail :: s == avail[0] || s in avail[1..];
      if avail[0].name in installed then [avail[0]] + rest else rest
  }

  lemma {:induction false} CandidateModulesAppend(a: seq<Stone>, b: seq<Stone>, installed: map<string, Stone>)
    ensures CandidateModules(a + b, installed) == CandidateModules(a, installed) + CandidateModules(b, installed)
    decreases |a|
  {
    if |a| == 0 {
      assert a + b == b;
    } else {
      assert (a + b)[1..] == a[1..] + b;
      CandidateModulesAppend(a[1..], b, installed);
    }
  }

  /** The Go loop appending each available module found in the map. */
  method CandidateModulesLoop(avail: seq<Stone>, installed: map<string, Stone>) returns (r: seq<Stone>)
    ensures r == CandidateModules(avail, installed)
  {
    r := [];
    for i := 0 to |avail|
      invariant r == CandidateModules(avail[..i], installed)
    {
      assert avail[..i + 1] == avail[..i] + [avail[i]];
      CandidateModulesAppend(avail[..i], [avail[i]], installed);
      assert [avail[i]][1..] == [];
      if avail[i].name in installed {
        r := r + [avail[i]];
      }
    }
    assert avail[..|avail|] == avail;
  }

  /** The answers of the four package queries the command makes, or their errors. */
  datatype Queries = Queries(
    installedKernels: Result<seq<Stone>, string>,
    availableKernels: Result<seq<Stone>, string>,
    installedModules: Result<seq<Stone>, string>,
    availableModules: Result<seq<Stone>, string>)

  /** What the command hands to the installer: the kernel and the extra modules. */
  datatype Plan = Plan(kernel: Stone, modules: seq<Stone>)

  /**
   * The command up to installing: the argument check, the installed
   * check, the candidate, and the modules installed from `from` (or from
   * any branch) that the new branch also offers.
   */
  function Switch(args: seq<string>, kType: string, from: string, q: Queries): (r: Result<Plan, SwitchError>)
    ensures PreRun(args).Some? ==> r == Err(PreRun(args).value)
    ensures PreRun(args).None? && q.installedKernels.Err? ==> r == Err(QueryFailed(q.installedKernels.error))
    ensures r.Ok? <==> (PreRun(args).None? &&
      var (kernel, branch) := SplitParam(args[0]);
      q.installedKernels.Ok? && CheckInstalled(q.installedKernels.value, kernel, branch, kType).None? &&
      q.availableKernels.Ok? && FindCandidate(q.availableKernels.value, kernel, branch).Ok? &&
      q.installedModules.Ok? && q.availableModules.Ok?)
    ensures r.Ok? ==> r.value.kernel == FindCandidate(q.availableKernels.value, SplitParam(args[0]).0, SplitParam(args[0]).1).value
    ensures r.Ok? ==>
      var (kernel, branch) := SplitParam(args[0]);
      Matches(r.value.kernel, kernel, branch) && r.value.kernel in q.availableKernels.value &&
      forall i | 0 <= i < |q.installedKernels.value| :: !Conflicts(q.installedKernels.value[i], kernel, branch, kType)
    ensures r.Ok? ==> (q.installedModules.Ok? && q.availableModules.Ok? &&
      forall s :: s in r.value.modules <==> (s in q.availableModules.value &&
        exists i | 0 <= i < |q.installedModules.value| :: q.installedModules.value[i].name == s.name && Kept(q.installedModules.value[i], from)))
  {
    match PreRun(args)
    case Some(e) => Err(e)
    case None =>
      var (kernel, branch) := SplitParam(args[0]);
      match q.installedKernels
      case Err(msg) => Err(QueryFailed(msg))
      case Ok(installed) =>
        match CheckInstalled(installed, kernel, branch, kType)
        case Some(e) => Err(e)
        case None =>
          match q.availableKernels
          case Err(msg) => Err(QueryFailed(msg))
          case Ok(available) =>
            match FindCandidate(available, kernel, branch)
            case Err(e) => Err(e)
            case Ok(candidate) =>
              match q.installedModules
              case Err(msg) => Err(QueryFailed(msg))
              case Ok(instMods) =>
                var mods := ModulesMap(instMods, from);
                match q.availableModules
                case Err(msg) => Err(QueryFailed(msg))
                case Ok(availMods) => Ok(Plan(candidate, CandidateModules(availMods, mods)))
  }

  /** A kernel already installed on the requested branch, with the requested type, is never planned again. */
  lemma InstalledKernelRefused(args: seq<string>, kType: string, from: string, q: Queries, s: Stone)
    requires PreRun(args).None? && q.installedKernels.Ok? && s in q.installedKernels.value
    requires Conflicts(s, SplitParam(args[0]).0, SplitParam(args[0]).1, kType)
    ensures Switch(args, kType, from, q).Err?
  {
    var i :| 0 <= i < |q.installedKernels.value| && q.installedKernels.value[i] == s;
  }
}
