# macaronictl core, modelled in Dafny

This project models four parts of `macaronictl`, the Macaroni OS administration tool, and proves properties about them.

- **etc-update** reconciles staged configuration updates. It covers the following steps:
  - loading `/etc/etc-update.conf` and refusing menu mode;
  - deriving the protect and mask lists;
  - collecting `._cfgNNNN_name` updates under their originals;
  - folding masked originals in without asking;
  - the three nested operator menus (`processFiles`, `processFile`, `doCfg`);
  - the command templates and each tool's exit-code policy.
- **env-update** aggregates `/etc/env.d` and renders the outputs. It covers:
  - the de-duplicating merge of repeated variables (`mergeEnvValues`);
  - the per-file fold in `ParseEnvd`;
  - the writers for `profile.env`, `ld.so.conf`, the systemd environment file and `csh.env`;
  - the order in which `EnvUpdate` runs them.
- **browser** manages the options catalog and the `browser configure` command. It covers:
  - package, engine and catalog merges and lookups;
  - the package/engine selection of `WorkingOnPackage`;
  - the include file and wrapper script contents;
  - the flag validator, option decision, purge rule and outputs of the command.
- **kernel switch** covers:
  - the annotation parser;
  - the `<kernel>@<branch>` argument;
  - the installed-conflict check;
  - the candidate and module selection.

The exact-membership helper `KeyInList` is modelled too.

## How the model is built

**Inputs instead of the outside world.**
- The filesystem is a map from clean absolute path to node: a file with contents, owner, group and mode, or a directory. There are no symbolic links. `os.ReadDir` lists a directory's children sorted by name, as Go does.
- The terminal is a sequence of answers: a number, a word `strconv.Atoi` rejects, or a failed read.
- Each external program launch (diff, merge, ldconfig) is an outcome taken from a sequence: failed to start, or exited with a code.
- Environment variables, the user's home directory, `yaml.Marshal`, `BrowserOpt.Minimize` and the shell-file parser `ParseEnvFile` are parameters.
- Stream writes draw on a budget: once it is spent, the next write fails.

**Go map order.** Where Go iterates over a map, the order is an explicit sequence parameter.
- Loop methods (`MergeEngineLoop`, `MergeLoop`, `MergeEnvMapLoop`) run over any order and are proved equal to the order-free definition.
- Lookups that stop at the first hit (`GetEngineAndPackage`) depend on the order. Their contracts hold for every order that lists the map.

**Panics and exits.** A Go panic is an error value (`IndexOutOfRange`, `Crash`, `EmptyOptionPanic`). So is `os.Exit` or `log.Fatal` in a command (a `Status` or `SwitchError`).

**Two readings of the findings.** Where the source is wrong (see Findings), the member takes a `Build` argument:
- `AsWritten` follows the code;
- `Corrected` follows the evident intent.

Both halves are proved.

**Shared structs.** Go mutates shared structs in place through references. The model returns new values instead.
- The one aliasing that matters is the configurator's `Package`, which points into `Engine.Packages`. It is modelled as a `Selection` of an engine and a key, so changing the package changes the engine written to disk.
- The etc-update root directory is fixed at `/`. Paths are joined as `filepath.Join` does (`CleanJoin`): `.` and empty parts are dropped, `..` climbs, and the result is clean. The candidate map's keys are these clean paths, so a configured `/etc/`, `//etc` or `/etc/./` names the same tree as `/etc`.

## Model

| member | source | states |
|---|---|---|
| Tools.KeyInList | pkg/utils/tools.go:11-19 | true exactly when some element equals the key |
| Tools.KeyInListOnlyElementsMatter | pkg/utils/tools.go:12-16 | lists holding the same strings give the same answer, whatever the order or repetitions |
| Tools.KeyInListNoPrefixMatch | pkg/utils/tools.go:13 | matching is exact: a list of strictly longer strings never matches, so no prefix match |
| Tools.Exists | pkg/utils/tools.go:22-29 | false only for a not-exist stat error; true on success and on any other error |
| Paths.CleanJoin | pkg/portage/etc-update.go:886 | the joined path is absolute and clean: it reads back unchanged from its own components |
| Paths.JoinClean | pkg/portage/etc-update.go:794 | joining a plain name onto a clean directory is plain concatenation with "/", clean, with one more component |
| Paths.JoinThroughSlash | cmd/browser/configure.go:273-276 | joining a name onto a directory resolves to the same path as the text `dir + "/" + name` read from the root |
| Paths.TrailingSlashIgnored | cmd/browser/configure.go:234 | a trailing `/` on the directory does not change the joined path |
| Paths.RootJoins | pkg/portage/etc-update.go:886 | joined onto `/`, "" gives "/", and both "etc" and "/etc/" give "/etc" |
| Paths.DotDotClimbs | pkg/portage/etc-update.go:812 | ".." climbs: "/etc" joined with ".." is "/", and ".." above the root stays at the root |
| Paths.SiblingsApart | pkg/portage/etc-update.go:794 | a path within one child of a directory is neither another child nor below it |
| EtcConf.LoadConf | pkg/portage/etc-update.go:93-172 | a parse failure gives the defaults. Each flag is switched only by its one canonical value (`mode` "0", `clear_term` "yes", `eu_automerge` "yes", `using_editor` "1") and keeps its default when absent; each string option (rm, mv, cp, pager, diff and merge commands) takes the file's value when present, its default otherwise |
| EtcConf.LoadEncodedConf | pkg/portage/etc-update.go:104-168 | every field is read back: loading the file that describes a configuration gives that configuration |
| EtcConf.LoadEmptyConf | pkg/portage/etc-update.go:73-86 | an empty file leaves exactly the built-in defaults |
| EtcConf.NonCanonicalFlagValues | pkg/portage/etc-update.go:104-157 | `clear_term="true"`, `using_editor="yes"` and `mode="text"` are not the canonical values, so each flag stays off |
| EtcConf.PrepareConf | pkg/portage/etc-update.go:192-207 | menu mode is refused. An empty pager becomes `$PAGER`, or `cat`. With `NONINTERACTIVE_MV` set, every " -i " is cut from the move options; unset, they are kept. Nothing else changes |
| EtcConf.NonInteractiveMvJoinsNeighbours | pkg/portage/etc-update.go:205-207 | cutting " -i " glues its neighbours: "-f -i -v" becomes "-f-v", while a leading "-i -v" has no space before it and is kept |
| EtcConf.AddBuiltinMasks | pkg/portage/etc-update.go:269-281 | keeps the list as a prefix, adds every built-in mask, adds nothing else |
| EtcConf.ProfileList | pkg/portage/etc-update.go:243-257 | a variable profile.env sets splits on single spaces into at least one field, none holding a space; an unset one or an unreadable file gives none |
| EtcConf.ProtectPaths | pkg/portage/etc-update.go:236-285 | explicit paths and masks are kept as given. Otherwise the paths are CONFIG_PROTECT's space-separated fields, with "/etc" put first when missing, and the masks are the given ones followed by CONFIG_PROTECT_MASK's fields and the missing built-in masks. An unparsable profile.env is the only error |
| EtcConf.ProtectPathsKeepsListedEtc | pkg/portage/etc-update.go:250-267 | when CONFIG_PROTECT already names /etc, the scanned paths are exactly its space-separated fields |
| EtcConf.TrailingSpaceAddsEmptyPath | pkg/portage/etc-update.go:248-283 | a CONFIG_PROTECT of "/etc " yields the paths "/etc" and "", and the built-in masks are added |
| EtcCommands.DiffArgs | pkg/portage/etc-update.go:924-945 | the argument vector of `diffCommand`: the split template, or a `bash -c` pipe into the pager outside quiet or editor mode |
| EtcCommands.MergeArgs | pkg/portage/etc-update.go:977-989 | the substituted merge template split on single spaces: the words join back into the line and none holds a space |
| EtcCommands.MergeOutcome | pkg/portage/etc-update.go:995-1026 | a failed start always fails; a started `sdiff` fails only on exit code 2, any other tool on any non-zero exit |
| EtcCommands.DiffOutcome | pkg/portage/etc-update.go:951-968 | the diff succeeds exactly when it starts and exits 0 |
| EtcCommands.DefaultDiffArgs | pkg/portage/etc-update.go:927-935 | with the built-in template and plain paths, the quiet diff runs `diff -uN file1 file2` |
| EtcCommands.DefaultMergeArgs | pkg/portage/etc-update.go:977-1001 | with the built-in template and plain paths, the merge runs `sdiff -s -o merged orig new`, so the sdiff policy applies |
| EtcCommands.SubstitutionOrder | pkg/portage/etc-update.go:927-931 | `%file1` is replaced before `%file2`: a first path reading "%file2" is replaced again |
| EtcScan.StagedOriginalAsWritten | pkg/portage/etc-update.go:800-812 | names without `._cfg`, or with fewer than three `_` fields, are skipped; otherwise fields from the third on are joined with no separator |
| EtcScan.StagedOriginal | pkg/portage/etc-update.go:800-812 | the same test, with the fields from the third on joined back with `_` |
| EtcScan.StagedOriginalRoundTrip | pkg/portage/etc-update.go:806-812 | the corrected derivation recovers the original base from every staged name |
| EtcScan.StagedOriginalAsWrittenPlainNames | pkg/portage/etc-update.go:806-812 | as written, the derivation is right for originals without underscores |
| EtcScan.StagedOriginalAsWrittenDropsUnderscore | pkg/portage/etc-update.go:812 | as written, the update of `a_b` is taken to belong to `ab` |
| EtcScan.ConfWithUnderscoreMisderived | pkg/portage/etc-update.go:812 | the concrete case: `._cfg0000_a_b.conf` derives `ab.conf` |
| EtcScan.UnderscoreUpdateDeletedAsWritten | pkg/portage/etc-update.go:806-822 | as written, the update `._cfgNNNN_a_b` next to `a_b` with no `ab` is deleted as an orphan, and the map is unchanged |
| EtcScan.UnderscoreUpdateCollectedCorrected | pkg/portage/etc-update.go:806-824 | corrected, the same update is collected under `a_b` and the tree is left unchanged |
| EtcScan.CandidateNameMatches | pkg/portage/etc-update.go:837-838 | every staged name of a base matches the `^._cfg[0-9]+_<base>$` pattern |
| EtcScan.MatchedNameDerivesBase | pkg/portage/etc-update.go:806-838 | a dotted name the pattern accepts derives back to that base |
| EtcScan.CandidateNames | pkg/portage/etc-update.go:851-864 | the staged updates of an original, in ascending listing order, exactly the regular files matching the pattern |
| EtcScan.ScanFile | pkg/portage/etc-update.go:833-875 | a known key leaves the map unchanged; a missing directory is an error. Otherwise only the original's key is added, iff it has candidates, and other keys are kept |
| EtcScan.ScanFileCandidatesExist | pkg/portage/etc-update.go:856-871 | every collected candidate is a regular file of the tree |
| EtcScan.ScanEntry | pkg/portage/etc-update.go:800-827 | one listing entry. A name that is not a staged update changes nothing. An update whose original (joined and cleaned) is missing is removed and adds no key; the removal fails for a missing path or a non-empty directory. An update whose original exists gives exactly the original's `scanFile` result. Only that update may leave the tree |
| EtcScan.ScanDir | pkg/portage/etc-update.go:784-831 | the recursive walk: a non-directory is a not-found error; only `._cfg` paths under the directory leave the tree, other nodes are unchanged; known keys keep their lists; each new key is a path of the tree whose non-empty list names regular files |
| EtcScan.Scan | pkg/portage/etc-update.go:877-922 | the walk over every protected path: only `._cfg` paths leave the tree, other nodes are unchanged; known keys keep their lists; each new key is a path of the tree whose non-empty list names regular files |
| EtcScan.ScanPath | pkg/portage/etc-update.go:886-918 | one protected path, joined onto `/` and cleaned: a missing path changes nothing; a regular file gives exactly its `scanFile` result; a directory is walked, and only paths under it can leave the tree |
| EtcScan.ScanKeepsValidMap | pkg/portage/etc-update.go:866-871 | a scan keeps "a key is present only with candidates" |
| EtcScan.DirCollects | pkg/portage/etc-update.go:784-827 | an original anywhere below the walked directory, next to a staged update of it and reached through real directories, is a key of the map a successful walk returns |
| EtcScan.ScanCollects | pkg/portage/etc-update.go:884-902 | such an original below the first protected path is a key after a successful scan |
| EtcScan.EtcUpdateFoundFromAnySpelling | pkg/portage/etc-update.go:884-902 | an update staged in /etc is collected whether the path is configured as "", "etc" or "/etc/", since each is joined onto `/` and cleaned |
| FilesMaps.Without | pkg/portage/etc-update.go:539-545 | exactly the elements other than the dropped one survive |
| FilesMaps.WithoutAppend | pkg/portage/etc-update.go:540-544 | dropping distributes over concatenation, so the survivors keep their order |
| FilesMaps.WithoutCounts | pkg/portage/etc-update.go:540-544 | every other element keeps its multiplicity; the dropped one is gone |
| FilesMaps.WithoutIdempotent | pkg/portage/etc-update.go:540-544 | dropping the same candidate twice changes nothing more |
| FilesMaps.DelFileConfig | pkg/portage/etc-update.go:536-553 | an absent key is a no-op. Other keys are untouched. The key survives iff another candidate is left, and then holds its list without that candidate. The key-iff-non-empty invariant is kept |
| FilesMaps.DelFileConfigShrinks | pkg/portage/etc-update.go:536-553 | deleting never adds keys and every list only shrinks |
| EtcMask.MoveCandidates | pkg/portage/etc-update.go:345-355 | each candidate in turn replaces the original. On success the original holds the last candidate's node and the candidates are gone. Nothing else changes |
| EtcMask.ApplyMasks | pkg/portage/etc-update.go:328-360 | only masked originals and their candidates are touched |
| EtcMask.ApplyMasksMoves | pkg/portage/etc-update.go:340-357 | on success each visited masked original with updates ends holding its last update's node, and none of its updates is left |
| EtcMask.CheckMasked | pkg/portage/etc-update.go:323-369 | on error the map is unchanged. Otherwise exactly the visited masked keys are deleted, and the remaining keys keep their lists. Only masked originals and their candidates change in the tree, and on success each visited masked original with updates holds its last update's node with none of its updates left |
| EtcMask.CheckMaskedKeepsUnmasked | pkg/portage/etc-update.go:340-366 | with every key visited, the map keeps exactly its unmasked part |
| EtcMask.MaskedSingleUpdate | pkg/portage/etc-update.go:345-357 | a masked original with one update becomes that update, with its own owner and mode, and its key goes |
| EtcMenus.ReadInt | pkg/portage/etc-update.go:404-412 | one answer is consumed; a failed read or a non-number is an error |
| EtcMenus.ReadYes | pkg/portage/etc-update.go:625-633 | a failed read is an error; otherwise one answer is consumed, and the operator accepts exactly with "yes" or "y" |
| EtcMenus.Replace | pkg/portage/etc-update.go:728-745 | the original is removed, the update renamed onto it, the captured owner and mode restored |
| EtcMenus.ReplaceMoves | pkg/portage/etc-update.go:728-745 | for two regular files: the update is gone and the original holds its data with the captured owner, group and mode |
| EtcMenus.InstallMerged | pkg/portage/etc-update.go:633-662 | an accepted merge installs the merged text with the captured owner and mode and removes the update |
| EtcMenus.LaunchMerge | pkg/portage/etc-update.go:594-623 | answers are not read; a clean launch consumed a program run that exited, and the merged text is that run's output |
| EtcMenus.LaunchMergeOk | pkg/portage/etc-update.go:1001-1024 | outside editor mode, a merge program exiting under its policy launches cleanly |
| EtcMenus.Merge | pkg/portage/etc-update.go:594-674 | menu 3 consumes input and changes only the tree, and in it only the original and the update, never adding a path |
| EtcMenus.UpdateChoice | pkg/portage/etc-update.go:726-778 | one answer at the update menu changes only the original and the update. Asking again leaves the `Task` state as it was. A number outside 1-4 changes nothing and asks again unless it is -1 |
| EtcMenus.DoCfgMenu | pkg/portage/etc-update.go:705-779 | the whole update menu changes only the tree, and in it only the original and that update, never adding a path |
| EtcMenus.DoCfg | pkg/portage/etc-update.go:555-782 | handling one update changes only the tree, and in it only the original and that update; in the bulk modes no input is read |
| EtcMenus.ProcessAll | pkg/portage/etc-update.go:470-480 | bulk mode reads no input, keeps configuration and flags, changes only this key's list (which only shrinks), and changes the tree only at the original and its updates |
| EtcMenus.ProcessAllClears | pkg/portage/etc-update.go:470-480 | a bulk pass that succeeds removes the key |
| EtcMenus.SelectAsWritten | pkg/portage/etc-update.go:441-445 | as written, only numbers above the limit are refused; any other number outside 1..n is out of range |
| EtcMenus.SelectCorrected | pkg/portage/etc-update.go:441-445 | exactly 1..n selects, and everything else asks again |
| EtcMenus.SelectRulesAgree | pkg/portage/etc-update.go:441-445 | inside the list both rules pick the same entry; above the limit both ask again |
| EtcMenus.FileChoice | pkg/portage/etc-update.go:507-529 | one answer at an original's menu. -1 leaves with no change. A number the rule refuses asks again; one out of range panics. A picked update is handled by `doCfg`; on success it is dropped from the map, even when declined or ignored, and the menu repeats while the key remains; on error the map is unchanged. The tree never gains a path and other keys are untouched |
| EtcMenus.ProcessFileMenu | pkg/portage/etc-update.go:484-531 | the menu of one original: input is only consumed; configuration kept; the map only loses keys and candidates and stays valid; the tree changes only at listed originals and updates and never gains a path; other keys are untouched |
| EtcMenus.ProcessFile | pkg/portage/etc-update.go:460-534 | a missing key is an unexpected-state error with no effect. Otherwise: input is only consumed; configuration kept; the map only loses keys and candidates and stays valid; the tree changes only at listed originals and updates and never gains a path, other keys untouched. Bulk modes read no input, and a successful bulk pass removes the key |
| EtcMenus.TopChoice | pkg/portage/etc-update.go:414-450 | one answer at the top menu: input is only consumed; configuration kept; the map only loses keys and candidates and stays valid; the tree changes only at listed originals and updates and never gains a path; the menu is shown again exactly when the answer is not -1, there is no error and the map is non-empty |
| EtcMenus.ProcessFiles | pkg/portage/etc-update.go:371-458 | the whole menu session, with the map listed afresh at each display: input is only consumed; configuration kept; the map only loses keys and candidates and stays valid; the tree changes only at listed originals and updates and never gains a path |
| EtcMenus.QuitLeavesEverything | pkg/portage/etc-update.go:415-417 | -1 ends the run with the tree and the map as they were |
| EtcMenus.UnsupportedCodesOnlyWarn | pkg/portage/etc-update.go:428-439 | -5 and -9 show the menu again on the same state |
| EtcMenus.BulkEmptiesMap | pkg/portage/etc-update.go:418-454 | a successful -3 or -7 empties the map and ends the run |
| EtcMenus.FileMenuOffByOne | pkg/portage/etc-update.go:379-445 | as written, len+1 at the file menu crashes; corrected, it asks again |
| EtcMenus.FileMenuZero | pkg/portage/etc-update.go:441-445 | as written, 0 at the file menu crashes; corrected, it asks again |
| EtcMenus.UpdateListZero | pkg/portage/etc-update.go:512-518 | as written, 0 at the menu of one original crashes; corrected, it asks again |
| EtcMenus.EmptyMenuSelection | pkg/portage/etc-update.go:376-445 | with the map emptied by the mask pass, the menu is still read once: as written 1 crashes, corrected the run ends |
| EtcMenus.TopChoicePastEnd | pkg/portage/etc-update.go:441-445 | at the top menu, len+1 panics as written and asks again corrected |
| EtcMenus.TopChoiceOnEmpty | pkg/portage/etc-update.go:376-445 | on an empty map, 1 panics as written and ends the run corrected |
| EtcMenus.DiscardDeletesOnlyUpdate | pkg/portage/etc-update.go:563-574 | discard-all deletes the update and nothing else |
| EtcMenus.AutomergeReplaces | pkg/portage/etc-update.go:676-703 | automerge-all puts the update in place of the original with the original's owner and mode |
| EtcMenus.ShowDiffRedisplays | pkg/portage/etc-update.go:767-774 | menu 4 changes nothing and shows the menu again |
| EtcMenus.UnknownChoiceRedisplays | pkg/portage/etc-update.go:726-778 | a number the menu does not offer shows it again on the same state |
| EtcMenus.DeleteKeepsOriginal | pkg/portage/etc-update.go:750-758 | menu 2 deletes the update and keeps the original |
| EtcMenus.MenuReplaceKeepsMeta | pkg/portage/etc-update.go:728-745 | menu 1 removes the update and puts its data in the original with the original's owner, group and mode, consuming one answer without error |
| EtcMenus.IgnoreAtUpdateMenu | pkg/portage/etc-update.go:776-777 | -1 at the update menu leaves the tree as it is |
| EtcMenus.LeaveFileMenu | pkg/portage/etc-update.go:507-510 | -1 at the menu of an original leaves map and tree as they are |
| EtcMenus.IgnoredUpdateLeavesMap | pkg/portage/etc-update.go:518-522 | an ignored update is still dropped from the map while the tree stays as it was |
| EtcMenus.ReplacedUpdateLeavesMap | pkg/portage/etc-update.go:507-529 | picking an update, replacing with it and leaving drops it from the map and moves it onto the original with the original's metadata |
| EtcMenus.MergeDeclined | pkg/portage/etc-update.go:667-671 | a declined merge leaves the tree as it was and is not an error |
| EtcMenus.MergeAccepted | pkg/portage/etc-update.go:633-666 | an accepted merge installs the merged text with the original's owner and mode and removes the update |
| EtcMenus.DeclinedMergeLeavesTree | pkg/portage/etc-update.go:760-765 | choosing 3 and declining completes the update without changing the tree |
| EtcUpdateMain.EffectiveConf | pkg/portage/etc-update.go:186-190 | the file's configuration when it exists, the defaults otherwise |
| EtcUpdateMain.Prepare | pkg/portage/etc-update.go:174-311 | no answer is read. A failure to make the temporary directory stops first, with no effect. Menu mode stops with no effect. A failed write of a diff test file stops with no effect. "Nothing to do" stops with an empty scan. The menus start only after a non-empty scan, in text mode with a pager and no bulk flag. The remaining keys keep their scanned lists and, when the first listing covers the map, none is masked. The tree never gains a path |
| EtcUpdateMain.EtcUpdate | pkg/portage/etc-update.go:174-321 | a failure to make the temporary directory stops first, with no effect; otherwise menu mode stops with no effect; a run stopped before the menus reads no answer and reports the stopping error. The tree never gains paths |
| EtcUpdateMain.DiffSanity | pkg/portage/etc-update.go:211-233 | the first test file that cannot be written stops the check with that path; once both are written, it passes exactly when the diff command works on them, and a failure means the template is broken |
| EtcUpdateMain.BrokenDiffAborts | pkg/portage/etc-update.go:211-233 | a diff template failing on the test files aborts with the tree untouched |
| EtcUpdateMain.TestWriteFailureAborts | pkg/portage/etc-update.go:211-224 | a test file that cannot be written aborts with a write failure and the tree untouched |
| EtcUpdateMain.MaskedUpdateNotOffered | pkg/portage/etc-update.go:307-316 | when every scanned original is masked, the menus start on an empty map |
| Envs.MergeEnvValues | pkg/portage/envs.go:71-98 | an empty previous value gives the new one. Otherwise the result's fields are the previous fields, duplicates kept, then each unseen new field once, in order |
| Envs.MergeEnvValuesLoop | pkg/portage/envs.go:71-98 | the two Go loops compute `MergeEnvValues` |
| Envs.Dedupe | pkg/portage/envs.go:89-94 | exactly the fields not already seen, with no repeats, never longer than the input |
| Envs.DedupeAppend | pkg/portage/envs.go:89-94 | de-duplicating a concatenation is de-duplicating each part, the second against the first |
| Envs.MergeKeepsEveryField | pkg/portage/envs.go:84-94 | every field of both inputs is in the result |
| Envs.MergeNotEmpty | pkg/portage/envs.go:84-96 | a non-empty previous value never yields an empty result |
| Envs.MergeIdempotent | pkg/portage/envs.go:71-98 | merging the same new value again changes nothing |
| Envs.MergeEmptyNew | pkg/portage/envs.go:73-96 | merging "" into a non-empty value appends one separator, unless the value already had an empty field |
| Envs.SplitOnlyEmpty | pkg/portage/envs.go:72-73 | only "" splits into the single empty field |
| Envs.EnvdNames | pkg/portage/envs.go:104-126 | exactly the non-directory entries whose names start with two digits |
| Envs.ParseAll | pkg/portage/envs.go:128-134 | an error exactly when some selected file fails to parse, and then one of those errors; otherwise one parsed map per file, in order |
| Envs.ParseAllFailsIff | pkg/portage/envs.go:128-134 | parsing fails exactly when some selected file fails |
| Envs.MergeEnvMap | pkg/portage/envs.go:137-157 | the keys become the union. Keys the file does not set keep their values. A single-value key, or a new one, takes the file's value. Any other repeated key merges the file's value into the old one, with ":" for colon-separated keys and " " otherwise |
| Envs.MergeEnvMapLoop | pkg/portage/envs.go:137-157 | the Go loop, in any map order, computes `MergeEnvMap` |
| Envs.FoldEnvKeys | pkg/portage/envs.go:118-158 | the environment holds exactly the variables some file sets |
| Envs.FoldEnvUntouched | pkg/portage/envs.go:137-157 | a variable no later file sets keeps its value |
| Envs.SingleValueLastWins | pkg/portage/envs.go:139-143 | a single-value variable ends with the value of the last file that sets it |
| Envs.FirstOccurrenceVerbatim | pkg/portage/envs.go:145-156 | a variable set by one file only is stored verbatim |
| Envs.FoldEnvMergedOnce | pkg/portage/envs.go:145-156 | a multi-value variable set before and then by exactly one file ends as the two merged with its separator |
| Envs.TwoFilesMerge | pkg/portage/envs.go:145-156 | a multi-value variable set by exactly two files ends as the second merged into the first with its separator |
| Envs.MergeTwoPlainValues | pkg/portage/envs.go:71-98 | two different single-field values merge into the first, the separator, then the second |
| Envs.ParseEnvd | pkg/portage/envs.go:103-161 | a directory read error is reported as such; otherwise it fails exactly when some selected `NN*` file fails to parse |
| Envs.ParseEnvdReadsOnlySelected | pkg/portage/envs.go:118-131 | parsers that agree on the selected files give the same environment |
| EnvUpdate.LineRoundTrip | pkg/portage/env-update.go:123-127 | every profile, systemd or csh line reads back as its variable and value, unescaped, with `$'…'` exactly for values starting with `$` but not `${` |
| EnvUpdate.ProfileRoundTrip | pkg/portage/env-update.go:123-127 | `export K='V'` or `export K=$'V'` reads back as K and V |
| EnvUpdate.SystemdRoundTrip | pkg/portage/systemd.go:71 | `K=V` reads back as K and V |
| EnvUpdate.CshRoundTrip | pkg/portage/csh.go:56 | `setenv K 'V'` reads back as K and V |
| EnvUpdate.Kept | pkg/portage/systemd.go:61-69 | the listed keys are those the format emits: all for profile.env; systemd drops LDPATH and empty values; csh drops LDPATH. Sorted order is kept |
| EnvUpdate.WriteLines | pkg/portage/env-update.go:121-131 | the writers' loop, with its skip rules, produces the rendered body: one line per kept key |
| EnvUpdate.BodyDecodes | pkg/portage/csh.go:51-60 | line i of the body decodes to the i-th kept key and its value |
| EnvUpdate.Render | pkg/portage/env-update.go:116 | the header comes first |
| EnvUpdate.RenderRoundTrip | pkg/portage/systemd.go:47-75 | after the header, the lines decode to the kept keys in ascending order with their values |
| EnvUpdate.ProfileListsLdpath | pkg/portage/env-update.go:236-250 | LDPATH is in profile.env, because the unfiltered map is rendered, and in neither the systemd nor the csh file |
| EnvUpdate.EmptyValueOnlyInCsh | pkg/portage/systemd.go:66-69 | an empty variable is listed in csh.env but not in the systemd file |
| EnvUpdate.RenderLdso | pkg/portage/env-update.go:154-165 | the header comes first, followed by at least one line |
| EnvUpdate.LdsoRoundTrip | pkg/portage/env-update.go:159-165 | the lines after the header are colon-free and join back with ":" into the path |
| EnvUpdate.WriteAll | pkg/portage/env-update.go:116-131 | all strings get through iff the budget allows; otherwise exactly the prefix that fits |
| EnvUpdate.Emit | pkg/portage/env-update.go:106-131 | after an earlier error nothing happens. Otherwise the write succeeds exactly when the budget covers the open and every string, and then records them all to the file, or to standard output on a dry run. A failure records nothing or a strict prefix |
| EnvUpdate.SystemdStep | pkg/portage/systemd.go:24-45 | off, or after an error, nothing happens. With the directory present the file is written directly. A failed creation of a missing directory is an error and writes nothing |
| EnvUpdate.LdconfigArgs | pkg/portage/env-update.go:182-187 | `-X -r /`, plus `-v` exactly in debug mode |
| EnvUpdate.LdPathOrDefault | pkg/portage/env-update.go:281-285 | an empty LDPATH becomes the default library path; a set one is kept |
| EnvUpdate.RunLdconfig | pkg/portage/env-update.go:197-213 | the run is recorded; it succeeds iff ldconfig starts and exits 0 |
| EnvUpdate.LdsoStep | pkg/portage/env-update.go:280-305 | off, or after an error, nothing happens. Outside a dry run, with ld.so.conf written, ldconfig runs last on the path or its default, and its exit decides the result |
| EnvUpdate.EmptyLdpathUsesDefault | pkg/portage/env-update.go:281-292 | without LDPATH, ld.so.conf lists the default directories |
| EnvUpdate.CshStep | pkg/portage/env-update.go:307-316 | csh.env is rendered when enabled and no earlier step failed |
| EnvUpdate.LdPathOf | pkg/portage/env-update.go:233 | the LDPATH value, empty when unset |
| EnvUpdate.WriteOutputs | pkg/portage/env-update.go:245-318 | a dry run writes only to standard output and never runs ldconfig |
| EnvUpdate.ProfileWrittenFirst | pkg/portage/env-update.go:245-251 | profile.env is the first output, and a failure there stops the run |
| EnvUpdate.Update | pkg/portage/env-update.go:217-319 | a ParseEnvd error aborts with no effect; otherwise the outputs are written |
| EnvUpdate.DryRunTouchesNoFile | pkg/portage/env-update.go:294-303 | a dry run never writes a file and never runs ldconfig |
| BrowserPackages.ClearOptions | pkg/browser/package.go:15-17 | no option is left and nothing else changes |
| BrowserPackages.SetEnabledOptions | pkg/browser/package.go:31-38 | the list becomes the minimised options in the same order; nothing else changes |
| BrowserPackages.OptionsLifecycle | pkg/browser/package.go:11-38 | `HasOptions` holds after setting iff the new list is non-empty; clearing undoes any setting |
| BrowserPackages.GetAllOptions | pkg/browser/package.go:19-29 | the in-order flattening of every option's strings, each prefixed; the length is the sum of the option lengths |
| BrowserPackages.AllOptions | pkg/browser/package.go:19-29 | every string starts with the prefix; the count is the sum of the option lengths |
| BrowserPackages.NewOptions | pkg/browser/package.go:53-61 | the options of `m` whose head is not a known head, each kept, never more than `m` holds |
| BrowserPackages.NewOptionsAppend | pkg/browser/package.go:53-61 | selecting new options distributes over concatenation, so they stay in `m`'s order |
| BrowserPackages.Merge | pkg/browser/package.go:40-64 | different names are an error. An option without strings panics. Otherwise `p`'s options stay as a prefix, followed by exactly the new options of `m` in order, and nothing else changes |
| BrowserPackages.MergeAppendsNewHeads | pkg/browser/package.go:49-61 | the merge holds exactly `p`'s options and the options of `m` with a head new to `p` |
| BrowserPackages.MergeKeepsRepeatedHeads | pkg/browser/package.go:54-61 | two new options with the same head are both appended: the head set is not updated |
| BrowserPackages.MergeIdempotent | pkg/browser/package.go:40-64 | merging the same package again changes nothing |
| BrowserPackages.MergedCoversHeads | pkg/browser/package.go:40-64 | after a merge, every head of `m` is a known head of the result |
| BrowserPackages.MergeSelf | pkg/browser/package.go:40-64 | a package merged with itself is unchanged |
| BrowserEngines.NewEngine | pkg/browser/engine.go:16-22 | the given name, no packages, no options |
| BrowserEngines.SetPackage | pkg/browser/engine.go:35-37 | the package is stored under its name and other entries are unchanged |
| BrowserEngines.GetPackage | pkg/browser/engine.go:43-46 | a result exactly when the key is present, and then its package |
| BrowserEngines.SetThenGet | pkg/browser/engine.go:35-46 | a set package is found, other lookups are unchanged, and the count grows iff the name was new |
| BrowserEngines.DefaultOptions | pkg/browser/engine.go:48-56 | exactly the options marked default |
| BrowserEngines.DefaultOptionsSubsequence | pkg/browser/engine.go:50-54 | the defaults are a subsequence of the options, so order is kept |
| BrowserEngines.DefaultOptionsAppend | pkg/browser/engine.go:50-54 | selecting defaults distributes over concatenation |
| BrowserEngines.GetDefaultOptions | pkg/browser/engine.go:48-56 | the loop computes the order-preserving subsequence of default options |
| BrowserEngines.MergeShared | pkg/browser/engine.go:28 | a shared key's package merge; a name mismatch leaves `e`'s package (the error is dropped); an empty option panics |
| BrowserEngines.MergeEngine | pkg/browser/engine.go:24-33 | keys become the union; keys only in `e` are unchanged; keys only in `m` are taken from `m`; shared keys are package-merged; name and options untouched |
| BrowserEngines.MergeEngineLoop | pkg/browser/engine.go:24-33 | the Go loop, in any map order, computes `MergeEngine` |
| BrowserEngines.WriteConfig | pkg/browser/engine.go:58-80 | the options are dropped from the marshalled data. They are restored after a marshal or write, but not when the directory cannot be created |
| BrowserCatalogs.NewCatalog | pkg/browser/catalog.go:16-20 | a new catalog is empty and has no engine |
| BrowserCatalogs.IsEmptyIffNoEngine | pkg/browser/catalog.go:45-47 | empty exactly when no engine is stored |
| BrowserCatalogs.GetEngine | pkg/browser/catalog.go:49-56 | the engine stored under the name, or none when the key is absent |
| BrowserCatalogs.GetEngineLoop | pkg/browser/catalog.go:49-56 | the Go loop, in any map order, computes `GetEngine` |
| BrowserCatalogs.GetEngineAndPackage | pkg/browser/catalog.go:58-69 | an engine of the catalog that holds the package, with its package; none exactly when no engine holds it |
| BrowserCatalogs.GetEngineAndPackageUnique | pkg/browser/catalog.go:58-69 | when one engine holds the package, that engine is the answer for every map order |
| BrowserCatalogs.GetPackage | pkg/browser/catalog.go:36-43 | some engine's package of that name; none exactly when no engine holds it |
| BrowserCatalogs.GetPackageAgrees | pkg/browser/catalog.go:36-69 | with the same order, `GetPackage` finds the package `GetEngineAndPackage` returns |
| BrowserCatalogs.Merge | pkg/browser/catalog.go:71-80 | every engine key of both is present; engines only in `c` are untouched; engines only in `o` are taken; shared ones are engine-merged |
| BrowserCatalogs.MergeLoop | pkg/browser/catalog.go:71-80 | the Go loop, in any map order, computes `Merge` |
| BrowserCatalogs.MergeOne | pkg/browser/catalog.go:82-89 | an absent engine is inserted under its name; a present one is merged; other engines are untouched |
| BrowserCatalogs.MergeOneIsMerge | pkg/browser/catalog.go:71-89 | merging one engine is merging the catalog holding just that engine |
| BrowserCatalogs.MergeIntoEmpty | pkg/browser/catalog.go:71-80 | merging into a new catalog gives the other catalog |
| BrowserConfigurators.WorkingOnPackage | pkg/browser/configurator.go:168-217 | an error exactly when no catalog engine holds the package. A config holding it supplies package and engine. Otherwise a fresh engine named after the catalog engine holds the catalog package |
| BrowserConfigurators.ConfigPackagePreferred | pkg/browser/configurator.go:176-213 | when the selected config holds the package, it is that config's package, whatever the catalog says |
| BrowserConfigurators.GenerateIncludeScript | pkg/browser/configurator.go:98-124 | fails without a selection, or on a failed removal or write; otherwise writes the include for the package |
| BrowserConfigurators.IncludeRoundTrip | pkg/browser/configurator.go:47-51 | the `opts` line of the include reads back as the `--`-prefixed options |
| BrowserConfigurators.SanitizeHomedir | pkg/browser/configurator.go:144-148 | a homedir not under the home is kept. Otherwise the home and one more character are cut. As written, a homedir equal to the home panics |
| BrowserConfigurators.SanitizeHomedirCrashes | pkg/browser/configurator.go:146-147 | as written, homedir equal to the home panics |
| BrowserConfigurators.SanitizeHomedirCorrected | pkg/browser/configurator.go:146-147 | corrected, it never fails, gives "" for the home itself and the relative path below it |
| BrowserConfigurators.SanitizeHomedirNotAtBoundary | pkg/browser/configurator.go:146-147 | the prefix test is textual: "/home/alice" under home "/home/al" gives "ce" |
| BrowserConfigurators.ScriptRoundTrip | pkg/browser/configurator.go:18-45 | the five assignments of the wrapper read back as the values written |
| BrowserConfigurators.ScriptLinesOneLine | pkg/browser/configurator.go:18-45 | with one-line values, every line of the wrapper is free of line breaks |
| BrowserConfigurators.GenerateScript | pkg/browser/configurator.go:126-166 | fails without a selection or on a failed removal. A written wrapper goes to the binary path, with the package's variables and the home-relative dir. Corrected, it succeeds exactly when removal, home lookup and write all succeed |
| BrowserConfigure.FirstViolated | cmd/browser/configure.go:76-109 | the first failing check in order, or none exactly when every check passes |
| BrowserConfigure.Validate | cmd/browser/configure.go:65-111 | accepts exactly when both dirs are set and some action flag is set. Defaults and without-opts, purge and exec, or system and user together are rejected, as is a missing package |
| BrowserConfigure.EmptyDirRejectedFirst | cmd/browser/configure.go:76-84 | an empty system-dir, then an empty home-dir, is reported before anything else |
| BrowserConfigure.WithPackage | cmd/browser/configure.go:166-171 | changing the selected package changes it in its engine and nothing else |
| BrowserConfigure.DecideOptions | cmd/browser/configure.go:149-172 | defaults without purge take the catalog engine's defaults, or stop when there are none or the engine is missing; without-opts clears; only-update-includes keeps them |
| BrowserConfigure.RemoveIfPresent | cmd/browser/configure.go:182-189 | a missing file is left alone, a present one removed, a failing removal fatal |
| BrowserConfigure.PurgeSystem | cmd/browser/configure.go:176-213 | only removals, ending done or failed, and a failing removal of a present include stops before anything is removed. The engine file is removed only when the engine holds the package alone (or it is the include or the binary) |
| BrowserConfigure.Purge | cmd/browser/configure.go:174-228 | only removals, ending done or failed. A user purge removes the user include, joined and cleaned as `filepath.Join` does. The system engine file, joined and cleaned likewise, goes only when the system engine holds exactly one package |
| BrowserConfigure.PurgeRemovesSoleEngineFile | cmd/browser/configure.go:200-213 | a system engine holding only the purged package loses its `<engine>.yml` |
| BrowserConfigure.WriteEngineFileAt | cmd/browser/configure.go:259-266 | the engine is written without its options to the given path, or the run fails naming that path with nothing written |
| BrowserConfigure.WriteEngineFile | cmd/browser/configure.go:232-266 | the engine is written without its options to `<dir>/<engine>.yml`, joined and cleaned as `filepath.Join` does, or the run fails |
| BrowserConfigure.WriteScriptsAt | cmd/browser/configure.go:268-311 | ends done or failed; the actions given are kept; only the include at the given path and, for system, the wrapper follow |
| BrowserConfigure.WriteScripts | cmd/browser/configure.go:268-311 | includes go to `<dir>/<engine>.<basename(binary)>.inc`, joined and cleaned as `filepath.Join` does; the wrapper only for system |
| BrowserConfigure.ConfigureAt | cmd/browser/configure.go:230-313 | with the engine file and include at the given paths: the engine file is written first unless only updating includes; includes and scripts only with exec, scripts only for system; nothing is removed; it ends done or failed |
| BrowserConfigure.Configure | cmd/browser/configure.go:230-313 | it ends done or failed; the engine file is written unless only updating includes; includes and scripts only with exec; nothing is removed. Paths are joined and cleaned as `filepath.Join` does |
| BrowserConfigure.SlashedDirSamePaths | cmd/browser/configure.go:234-244 | a directory flag with a trailing `/` names the same include and engine file as without it |
| BrowserConfigure.Proceed | cmd/browser/configure.go:149-313 | "nothing to do" has no effect; purge only removes; otherwise nothing is removed |
| BrowserConfigure.Run | cmd/browser/configure.go:65-316 | a rejected flag set has no effect; a package missing from the catalog is fatal; purge only removes |
| BrowserConfigure.RunTargeted | cmd/browser/configure.go:112-316 | a package missing from the catalog is fatal with no effect; purge only removes, otherwise nothing is removed |
| BrowserConfigure.UserAssumed | cmd/browser/configure.go:128-130 | without --system, the run is the same with or without --user |
| BrowserConfigure.IncludeMatchesScript | cmd/browser/configure.go:273-286 | the system include path is where the generated wrapper looks for the system include, once the wrapper's text is resolved as a path |
| BrowserConfigure.DefaultsReachEngineFile | cmd/browser/configure.go:149-266 | with --defaults, the engine file written holds the catalog defaults as the package's options |
| KernelAnnotations.StrField | pkg/kernel/list.go:80-102 | copied when present and a string, "" otherwise |
| KernelAnnotations.BoolField | pkg/kernel/list.go:85-87 | true exactly when present and the boolean true |
| KernelAnnotations.ParseKernelAnnotations | pkg/kernel/list.go:58-105 | a missing `kernel` key is an error, and so is a value that is not a map. Otherwise it succeeds; each string field is copied when present as a string and empty otherwise, and `lts` is true exactly when present as true |
| KernelAnnotations.ParseEncode | pkg/kernel/list.go:79-104 | the annotation describing a kernel parses back to it |
| KernelAnnotations.OtherKeysIgnored | pkg/kernel/list.go:67-102 | other annotation keys and other fields of the map do not change the result |
| KernelAnnotations.MistypedFieldsParse | pkg/kernel/list.go:59-102 | wrongly typed fields are not an error and leave the defaults |
| KernelSwitch.PreRun | cmd/kernel/switch.go:36-49 | accepts exactly one argument containing `@`; too many and none are told apart |
| KernelSwitch.SplitParam | cmd/kernel/switch.go:57-59 | the kernel is the text before the first `@` and the branch everything after it |
| KernelSwitch.SplitParamRoundTrip | cmd/kernel/switch.go:58-59 | a kernel without `@` and any branch come back from `kernel@branch` |
| KernelSwitch.CheckInstalled | cmd/kernel/switch.go:68-92 | passes exactly when every installed stone parses and none has the kernel's suffix, the type and the branch category |
| KernelSwitch.FindCandidate | cmd/kernel/switch.go:102-124 | the first available stone with the suffix and the branch category, after stones that all parse and do not match; none is an error |
| KernelSwitch.CandidateTypeNotChecked | cmd/kernel/switch.go:111-118 | a kernel of another type is still picked |
| KernelSwitch.ModulesMap | cmd/kernel/switch.go:135-142 | keyed by name over the kept stones (those of the `from` branch when it is set), the last kept stone winning |
| KernelSwitch.ModulesMapLoop | cmd/kernel/switch.go:135-142 | the Go loop computes `ModulesMap` |
| KernelSwitch.CandidateModules | cmd/kernel/switch.go:152-157 | exactly the available modules whose name is installed, never more than are available |
| KernelSwitch.CandidateModulesLoop | cmd/kernel/switch.go:152-157 | the Go loop computes `CandidateModules` |
| KernelSwitch.Switch | cmd/kernel/switch.go:36-175 | argument errors come first. A plan exists exactly when the argument is accepted, the queries succeed, no installed kernel conflicts and a candidate is found. Its kernel is the first matching available kernel, and its modules are exactly the available modules named by a kept installed module |
| KernelSwitch.InstalledKernelRefused | cmd/kernel/switch.go:76-91 | a kernel already installed on the branch with the requested type is never planned again |

## Left out

- `ParseEnvFile` runs an embedded shell interpreter. Its result is a parameter of the model, a map or an error.
- Prelink (`preparePrelinkPaths`, `writePrelinkFile`) is called by `EnvUpdate` but its code is not part of this model. That step is skipped.
- `CheckLocale` does nothing and is left out.
- EtcScan.Scan: the filesystem has no symbolic links, so scan's skip of a linked path (pkg/portage/etc-update.go:905-916) is not modelled.
- The filesystem's keys are assumed clean absolute paths; a tree holding an unclean key is not modelled.
- BrowserConfigurators.SanitizeHomedirCorrected: the corrected reading repairs only the panic. The prefix is still matched textually, not at a `/` boundary, in both readings (SanitizeHomedirNotAtBoundary).
- The etc-update root directory is fixed at `/`. For another root, keys are stripped but candidate paths are not; that path is not modelled.
- `execLdconfig` looks up the ldconfig binary and passes the environment. Only the arguments and the exit policy are modelled.
- Pager, editor and terminal output are not modelled; nor is `CopyFile`'s data path beyond the merged text.
- `BrowserOpt.Minimize`, yaml marshal and unmarshal, `os.UserHomeDir` and the stat of each path are parameters.
- `NewBrowserConfigurator`, `LoadBrowsersCatalog`, `ReadBrowsersOptions` and `WriteEngineConfigs` only read or write files. The catalog and configs are inputs.
- `InstalledKernels`, `AvailableKernels`, `AvailableExtraModules` and `InstallPackages` call the package manager. Their answers are inputs, and the plan is the output.
- The `--purge` flag of `kernel switch` is declared but never read.
- Log messages and the text of Go error messages are not modelled; error values name the case.
- Nil entries in the `Packages` or `Engines` maps are not modelled: a decoded catalog has none.
- WorkingOnPackage: the `engine != nil` branch for a config that has the engine but not the package cannot be reached, because `GetEngineAndPackage` returns both or neither. It is not modelled as a separate case.
- BrowserEngines.MergeShared: the error of a package merge with a name mismatch is ignored by the engine merge, and the model keeps `e`'s package.
- Go's process-wide map iteration order is not modelled. Each loop over a map takes its own order parameter. The etc-update candidate map is listed by a `Listing` given the number of the ranging and the map, so each redraw of the menu may order it anew.
- In `GetAllOptions` and the configurator, the package's options are shared with the engine by reference. Only the selected package's aliasing is modelled.
- `writeProfileEnv` closes the file only on success. Open handles are not modelled.
- EnvUpdate.SystemdStep: creating the missing directory is modelled as one operation that fails when the budget is spent; `MkdirAll`'s own failure modes are not modelled.
- BrowserConfigure.Purge, BrowserConfigure.WriteEngineFile, BrowserConfigure.WriteScripts, BrowserConfigure.Configure: a relative `--system-dir` or `--home-dir` is joined as if it started at `/`, because the working directory is not modelled. The default directories are absolute (cmd/browser/configure.go:327-333).
- EtcUpdateMain.Prepare: the temporary directory of the diff test files is a given clean path outside the tree, with its creation failure as an input; `PORTAGE_TMPDIR` and the deferred `os.RemoveAll` are not modelled.
- EtcMenus.DoCfg: the temporary directory made per update is a given name; its creation and removal are not modelled.

## Findings

| source | as written | input that shows it | evidently intended | confidence | as-written member | corrected member |
|---|---|---|---|---|---|---|
| pkg/portage/etc-update.go:812 | the original's name is the third and later `_` fields joined with "" | `._cfg0000_a_b.conf` next to `a_b.conf`, with no `ab.conf`: the update is deleted as an orphan | join the fields with `_`, giving `a_b.conf` | not executed | EtcScan.UnderscoreUpdateDeletedAsWritten | EtcScan.UnderscoreUpdateCollectedCorrected |
| pkg/portage/etc-update.go:441 | the file menu refuses only `res > idx`, and `idx` is one past the last entry | answering `len+1` (or 0) indexes `filesList` out of range and panics | ask again for any number outside 1..len | not executed | EtcMenus.FileMenuOffByOne | EtcMenus.SelectCorrected |
| pkg/portage/etc-update.go:512 | the update menu refuses only `res > len(cfgs)` | answering 0 indexes `cfgs[-1]` and panics | ask again for any number outside 1..len | not executed | EtcMenus.UpdateListZero | EtcMenus.SelectCorrected |
| pkg/browser/configurator.go:147 | `opts.Homedir[len(homeDir)+1:]` once `Homedir` starts with the home | home-dir equal to `$HOME` slices past the end and panics | a home directory equal to `$HOME` gives the empty relative path instead of panicking | not executed | BrowserConfigurators.SanitizeHomedirCrashes | BrowserConfigurators.SanitizeHomedirCorrected |
