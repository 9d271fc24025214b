/**
 * How etc-update drives the external diff and merge programs
 * (`diffCommand`, `mergeCommand` in pkg/portage/etc-update.go): placeholder
 * substitution, the split into an argument vector, and the exit-code
 * policy. The programs themselves are not modelled: each launch is an
 * input saying whether the program started, how it exited and what it
 * left in the merge file.
 */
module EtcCommands {
  import opened Wrappers
  import opened Text
  import opened EtcConf

  /** One launch of an external program, as observed by the tool. */
  datatype RunOutcome =
    | StartFailed
    | Exited(code: int, merged: string)

  datatype CommandError =
    | CannotStart(program: string)
    | ExitFailure(program: string, code: int)

  /** The diff template with `%file1` replaced first and `%file2` second. */
  function DiffLine(template: string, file1: string, file2: string): string {
    ReplaceAll(ReplaceAll(template, "%file1", file1), "%file2", file2)
  }

  /** The merge template with `%merged`, then `%orig`, then `%new` replaced. */
  function MergeLine(template: string, merged: string, orig: string, staged: string): string {
    ReplaceAll(ReplaceAll(ReplaceAll(template, "%merged", merged), "%orig", orig), "%new", staged)
  }

  /**
   * The argument vector `diffCommand` launches: the substituted template
   * split on single spaces, or, for an interactive diff outside editor
   * mode, a bash pipeline into the pager.
   */
  function DiffArgs(c: Conf, file1: string, file2: string, quiet: bool): (args: seq<string>)
    ensures |args| >= 1
    ensures !quiet && !c.usingEditor ==> args == ["/bin/bash", "-c", DiffLine(c.diffCommand, file1, file2) + " | " + c.pager]
    ensures quiet || c.usingEditor ==> Join(args, " ") == DiffLine(c.diffCommand, file1, file2)
  {
    var args := Split(DiffLine(c.diffCommand, file1, file2), ' ');
    JoinSplit(DiffLine(c.diffCommand, file1, file2), ' ');
    if !quiet && !c.usingEditor then ["/bin/bash", "-c", Join(args, " ") + " | " + c.pager]
    else args
  }

  /** The argument vector `mergeCommand` launches: the substituted template split on single spaces. */
  function MergeArgs(c: Conf, merged: string, orig: string, staged: string): (args: seq<string>)
    ensures |args| >= 1
    ensures Join(args, " ") == MergeLine(c.mergeCommand, merged, orig, staged)
    ensures forall i | 0 <= i < |args| :: ' ' !in args[i]
  {
    JoinSplit(MergeLine(c.mergeCommand, merged, orig, staged), ' ');
    Split(MergeLine(c.mergeCommand, merged, orig, staged), ' ')
  }

  /** The merge tool's exit-code policy: `sdiff` fails only with 2 (0 and 1 mean equal and different); any other tool fails on any non-zero code. */
  predicate MergeExitOk(program: string, code: int) {
    if program == "sdiff" then code != 2 else code == 0
  }

  /** The outcome of the merge program as `mergeCommand` reports it. */
  function MergeOutcome(args: seq<string>, run: RunOutcome): (r: Result<(), CommandError>)
    requires |args| >= 1
    ensures r.Ok? <==> run.Exited? && (if args[0] == "sdiff" then run.code != 2 else run.code == 0)
  {
    match run
    case StartFailed => Err(CannotStart(args[0]))
    case Exited(code, _) => if MergeExitOk(args[0], code) then Ok(()) else Err(ExitFailure(args[0], code))
  }

  /** The outcome of the diff program as `diffCommand` reports it: any non-zero exit is a failure. */
  function DiffOutcome(args: seq<string>, run: RunOutcome): (r: Result<(), CommandError>)
    requires |args| >= 1
    ensures r.Ok? <==> run.Exited? && run.code == 0
  {
    match run
    case StartFailed => Err(CannotStart(args[0]))
    case Exited(code, _) => if code == 0 then Ok(()) else Err(ExitFailure(args[0], code))
  }

  /** A path that survives substitution and splitting as a single argument. */
  predicate PlainArg(s: string) {
    ' ' !in s && '%' !in s
  }

  lemma ReplaceInTail(prefix: string, s: string, pat: string, rep: string)
    requires |pat| > 0 && pat[0] !in prefix
    ensures ReplaceAll(prefix + s, pat, rep) == prefix + ReplaceAll(s, pat, rep)
  {
    ReplaceAllSkip(prefix, s, pat, rep);
  }

  /** A placeholder that differs from the pattern at position `k` is copied through. */
  lemma ReplaceMiss(x: string, b: string, pat: string, rep: string, k: nat)
    requires 0 < k < |x| && k < |pat| && x[k] != pat[k]
    requires pat[0] !in x[1..]
    ensures ReplaceAll(x + b, pat, rep) == x + ReplaceAll(b, pat, rep)
  {
    var y := x + b;
    assert y[k] == x[k];
    assert !HasPrefix(y, pat) by {
      assert |pat| > |y| || y[..|pat|][k] != pat[k];
    }
    assert ReplaceAll(y, pat, rep) == [y[0]] + ReplaceAll(y[1..], pat, rep);
    assert y[1..] == x[1..] + b;
    ReplaceAllSkip(x[1..], b, pat, rep);
    assert [y[0]] + (x[1..] + ReplaceAll(b, pat, rep)) == ([x[0]] + x[1..]) + ReplaceAll(b, pat, rep);
    assert [x[0]] + x[1..] == x;
  }

  lemma MissFile2(file1: string)
    ensures ReplaceAll(" %file2", "%file1", file1) == " %file2"
  {
    assert " %file2" == " " + ("%file2" + "");
    ReplaceInTail(" ", "%file2" + "", "%file1", file1);
    ReplaceMiss("%file2", "", "%file1", file1, 5);
  }

  lemma DiffStep1(file1: string)
    ensures ReplaceAll(DefaultDiffCommand, "%file1", file1) == "diff -uN " + file1 + " %file2"
  {
    assert DefaultDiffCommand == "diff -uN " + ("%file1" + " %file2");
    ReplaceInTail("diff -uN ", "%file1" + " %file2", "%file1", file1);
    ReplaceAllHit("%file1", " %file2", file1);
    MissFile2(file1);
  }

  lemma DiffStep2(file1: string, file2: string)
    requires '%' !in file1
    ensures ReplaceAll("diff -uN " + file1 + " %file2", "%file2", file2) == "diff -uN " + file1 + " " + file2
  {
    assert "diff -uN " + file1 + " %file2" == ("diff -uN " + file1 + " ") + ("%file2" + "");
    ReplaceInTail("diff -uN " + file1 + " ", "%file2" + "", "%file2", file2);
    ReplaceAllHit("%file2", "", file2);
  }

  lemma DiffLineDefault(file1: string, file2: string)
    requires '%' !in file1
    ensures DiffLine(DefaultDiffCommand, file1, file2) == "diff -uN " + file1 + " " + file2
  {
    DiffStep1(file1);
    DiffStep2(file1, file2);
  }

  /** With the built-in template and plain paths, the quiet diff runs `diff -uN file1 file2`. */
  lemma DefaultDiffArgs(c: Conf, file1: string, file2: string)
    requires c.diffCommand == DefaultDiffCommand
    requires PlainArg(file1) && PlainArg(file2)
    ensures DiffArgs(c, file1, file2, true) == ["diff", "-uN", file1, file2]
  {
    DiffLineDefault(file1, file2);
    var parts := ["diff", "-uN", file1, file2];
    JoinCons(file1, [file2], " ");
    JoinCons("-uN", [file1, file2], " ");
    JoinCons("diff", ["-uN", file1, file2], " ");
    assert Join(parts, " ") == "diff -uN " + file1 + " " + file2;
    SplitJoin(parts, ' ');
  }

  lemma MissOrigNew(merged: string)
    ensures ReplaceAll(" %orig %new", "%merged", merged) == " %orig %new"
  {
    assert " %orig %new" == " " + ("%orig " + ("%new" + ""));
    ReplaceInTail(" ", "%orig " + ("%new" + ""), "%merged", merged);
    ReplaceMiss("%orig ", "%new" + "", "%merged", merged, 1);
    ReplaceMiss("%new", "", "%merged", merged, 1);
  }

  /** The pattern after text free of its first character is the first one replaced. */
  lemma PrefixHit(prefix: string, pat: string, tail: string, rep: string)
    requires |pat| > 0 && pat[0] !in prefix
    ensures ReplaceAll(prefix + pat + tail, pat, rep) == prefix + rep + ReplaceAll(tail, pat, rep)
  {
    assert prefix + pat + tail == prefix + (pat + tail);
    ReplaceAllSkip(prefix, pat + tail, pat, rep);
    ReplaceAllHit(pat, tail, rep);
  }

  lemma MergeStep1(merged: string)
    ensures ReplaceAll(DefaultMergeCommand, "%merged", merged) == "sdiff -s -o " + merged + " %orig %new"
  {
    assert ReplaceAll(DefaultMergeCommand, "%merged", merged)
      == "sdiff -s -o " + merged + ReplaceAll(" %orig %new", "%merged", merged) by {
      assert DefaultMergeCommand == "sdiff -s -o " + "%merged" + " %orig %new";
      PrefixHit("sdiff -s -o ", "%merged", " %orig %new", merged);
    }
    assert ReplaceAll(" %orig %new", "%merged", merged) == " %orig %new" by {
      MissOrigNew(merged);
    }
  }

  lemma MissNew(orig: string)
    ensures ReplaceAll(" %new", "%orig", orig) == " %new"
  {
    assert " %new" == " " + ("%new" + "");
    ReplaceInTail(" ", "%new" + "", "%orig", orig);
    ReplaceMiss("%new", "", "%orig", orig, 1);
  }

  lemma MergeStep2(merged: string, orig: string)
    requires '%' !in merged
    ensures ReplaceAll("sdiff -s -o " + merged + " %orig %new", "%orig", orig) == "sdiff -s -o " + merged + " " + orig + " %new"
  {
    var head := "sdiff -s -o " + merged + " ";
    assert "sdiff -s -o " + merged + " %orig %new" == head + "%orig" + " %new";
    PrefixHit(head, "%orig", " %new", orig);
    MissNew(orig);
  }

  lemma MergeStep3(merged: string, orig: string, staged: string)
    requires '%' !in merged && '%' !in orig
    ensures ReplaceAll("sdiff -s -o " + merged + " " + orig + " %new", "%new", staged) == "sdiff -s -o " + merged + " " + orig + " " + staged
  {
    var head := "sdiff -s -o " + merged + " " + orig + " ";
    assert "sdiff -s -o " + merged + " " + orig + " %new" == head + "%new" + "";
    PrefixHit(head, "%new", "", staged);
  }

  lemma MergeLineDefault(merged: string, orig: string, staged: string)
    requires '%' !in merged && '%' !in orig
    ensures MergeLine(DefaultMergeCommand, merged, orig, staged) == "sdiff -s -o " + merged + " " + orig + " " + staged
  {
    MergeStep1(merged);
    MergeStep2(merged, orig);
    MergeStep3(merged, orig, staged);
  }

  /** With the built-in template and plain paths, merging runs `sdiff -s -o merged orig new`, so the sdiff policy applies. */
  lemma DefaultMergeArgs(c: Conf, merged: string, orig: string, staged: string)
    requires c.mergeCommand == DefaultMergeCommand
    requires PlainArg(merged) && PlainArg(orig) && PlainArg(staged)
    ensures MergeArgs(c, merged, orig, staged) == ["sdiff", "-s", "-o", merged, orig, staged]
  {
    MergeLineDefault(merged, orig, staged);
    var parts := ["sdiff", "-s", "-o", merged, orig, staged];
    JoinCons(orig, [staged], " ");
    JoinCons(merged, [orig, staged], " ");
    JoinCons("-o", [merged, orig, staged], " ");
    JoinCons("-s", ["-o", merged, orig, staged], " ");
    JoinCons("sdiff", ["-s", "-o", merged, orig, staged], " ");
    assert Join(parts, " ") == "sdiff -s -o " + merged + " " + orig + " " + staged;
    SplitJoin(parts, ' ');
  }

  /** `%file1` is replaced before `%file2`: a first path that itself reads "%file2" is replaced again by the second. */
  lemma SubstitutionOrder(file2: string)
    requires '%' !in file2
    ensures DiffLine("%file1", "%file2", file2) == file2
  {
    ReplaceAllHit("%file1", "", "%file2");
    assert "%file2" + "" == "%file2";
    ReplaceAllHit("%file2", "", file2);
  }
}
