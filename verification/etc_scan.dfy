/**
 * The scanning half of etc-update (`scan`, `scanDir`, `scanFile` in
 * pkg/portage/etc-update.go): walking the protected paths, deriving the
 * original a staged `._cfgNNNN_name` file belongs to, deleting staged
 * files whose original is gone, and collecting every original's staged
 * replacements into the files map in directory-listing order.
 */
module EtcScan {
  import opened Wrappers
  import opened Text
  import opened Ordering
  import opened Paths
  import opened Files
  import opened FilesMaps
  import opened Builds

  const CfgPrefix := "._cfg"

  /** The staged name portage gives the `serial`-th update of `base`. */
  function CandidateName(serial: string, base: string): string {
    CfgPrefix + serial + "_" + base
  }

  predicate IsDigits(s: string) {
    |s| > 0 && forall i | 0 <= i < |s| :: '0' <= s[i] <= '9'
  }

  /**
   * The anchored pattern `^._cfg[0-9]+_<base>$` of `scanFile`, with the
   * base taken literally: any first character but a newline, then
   * `_cfg`, at least one digit, an underscore and the base itself.
   */
  predicate Matches(name: string, base: string) {
    var k := |name| - |base| - 1;
    |name| >= |base| + 7
    && name[0] != '\n'
    && name[1..5] == "_cfg"
    && IsDigits(name[5..k])
    && name[k] == '_'
    && name[k + 1..] == base
  }

  /**
   * The original `scanDir` derives for a directory entry, as written:
   * names without the `._cfg` prefix or with fewer than three
   * `_`-separated fields are skipped; otherwise the fields from the third
   * on are concatenated with nothing between them.
   */
  function StagedOriginalAsWritten(name: string): (r: Option<string>)
    ensures r.Some? <==> HasPrefix(name, CfgPrefix) && |Split(name, '_')| >= 3
    ensures r.Some? ==> r.value == Join(Split(name, '_')[2..], "")
  {
    if !HasPrefix(name, CfgPrefix) then None
    else
      var words := Split(name, '_');
      if |words| < 3 then None else Some(Join(words[2..], ""))
  }

  /** The derivation with the fields from the third on joined back with `_`, as the staged name was built. */
  function StagedOriginal(name: string): (r: Option<string>)
    ensures r.Some? <==> HasPrefix(name, CfgPrefix) && |Split(name, '_')| >= 3
  {
    if !HasPrefix(name, CfgPrefix) then None
    else
      var words := Split(name, '_');
      if |words| < 3 then None else Some(Join(words[2..], "_"))
  }

  /** The derivation a scan uses under each reading. */
  function Derive(build: Build, name: string): (r: Option<string>)
    ensures r.Some? <==> HasPrefix(name, CfgPrefix) && |Split(name, '_')| >= 3
  {
    match build
    case AsWritten => StagedOriginalAsWritten(name)
    case Corrected => StagedOriginal(name)
  }

  lemma SplitCandidateName(serial: string, base: string)
    requires IsDigits(serial)
    ensures Split(CandidateName(serial, base), '_') == ["."] + ["cfg" + serial] + Split(base, '_')
  {
    assert '_' !in "cfg" + serial by {
      forall i | 0 <= i < |"cfg" + serial| ensures ("cfg" + serial)[i] != '_' {
        if i >= 3 {
          assert ("cfg" + serial)[i] == serial[i - 3];
        }
      }
    }
    SplitAppend("cfg" + serial, base, '_');
    assert CandidateName(serial, base) == "." + "_" + (("cfg" + serial) + "_" + base);
    SplitAppend(".", ("cfg" + serial) + "_" + base, '_');
  }

  /** The corrected derivation recovers the original from every staged name. */
  lemma StagedOriginalRoundTrip(serial: string, base: string)
    requires IsDigits(serial)
    ensures StagedOriginal(CandidateName(serial, base)) == Some(base)
  {
    var name := CandidateName(serial, base);
    assert HasPrefix(name, CfgPrefix) by {
      assert name[..5] == CfgPrefix;
    }
    SplitCandidateName(serial, base);
    var words := Split(name, '_');
    assert words[2..] == Split(base, '_');
    JoinSplit(base, '_');
  }

  /** As written the derivation is right for every original whose name has no underscore. */
  lemma StagedOriginalAsWrittenPlainNames(serial: string, base: string)
    requires IsDigits(serial) && '_' !in base
    ensures StagedOriginalAsWritten(CandidateName(serial, base)) == Some(base)
  {
    var name := CandidateName(serial, base);
    assert name[..5] == CfgPrefix;
    SplitCandidateName(serial, base);
    SplitAppend(base, "", '_');
    assert Split(name, '_')[2..] == [base];
  }

  /** As written the underscore of an original named `a_b` is lost: its update is taken to belong to `ab`. */
  lemma StagedOriginalAsWrittenDropsUnderscore(serial: string, a: string, b: string)
    requires IsDigits(serial) && '_' !in a && '_' !in b
    ensures StagedOriginalAsWritten(CandidateName(serial, a + "_" + b)) == Some(a + b)
    ensures StagedOriginal(CandidateName(serial, a + "_" + b)) == Some(a + "_" + b)
  {
    StagedOriginalRoundTrip(serial, a + "_" + b);
    StagedWordsOfPair(serial, a, b);
    JoinPair(a, b);
  }

  lemma StagedWordsOfPair(serial: string, a: string, b: string)
    requires IsDigits(serial) && '_' !in a && '_' !in b
    ensures HasPrefix(CandidateName(serial, a + "_" + b), CfgPrefix)
    ensures var words := Split(CandidateName(serial, a + "_" + b), '_'); |words| == 4 && words[2..] == [a, b]
  {
    var name := CandidateName(serial, a + "_" + b);
    assert name[..5] == CfgPrefix;
    SplitCandidateName(serial, a + "_" + b);
    SplitAtUnderscore(a, b);
  }

  lemma JoinPair(a: string, b: string)
    ensures Join([a, b], "") == a + b
  {
    JoinCons(a, [b], "");
    assert [a, b] == [a] + [b];
  }

  lemma SplitAtUnderscore(a: string, b: string)
    requires '_' !in a && '_' !in b
    ensures Split(a + "_" + b, '_') == [a, b]
  {
    assert a + "_" + b == a + ['_'] + b;
    SplitAppend(a, b, '_');
    SplitAppend(b, "", '_');
  }

  /** The concrete case: the update `._cfg0000_a_b.conf` of `a_b.conf` is derived as `ab.conf`. */
  lemma ConfWithUnderscoreMisderived()
    ensures StagedOriginalAsWritten(CandidateName("0000", "a" + "_" + "b.conf")) == Some("a" + "b.conf")
  {
    StagedOriginalAsWrittenDropsUnderscore("0000", "a", "b.conf");
  }

  /** Every staged name of `base` matches the pattern `scanFile` builds for `base`. */
  lemma CandidateNameMatches(serial: string, base: string)
    requires IsDigits(serial)
    ensures Matches(CandidateName(serial, base), base)
  {
    var name := CandidateName(serial, base);
    var k := |name| - |base| - 1;
    assert k == 5 + |serial|;
    assert name[5..k] == serial;
    assert name[k + 1..] == base;
  }

  /** A name the pattern accepts, starting with a dot, is a staged name the corrected derivation maps back to `base`. */
  lemma MatchedNameDerivesBase(name: string, base: string)
    requires Matches(name, base) && name[0] == '.'
    ensures StagedOriginal(name) == Some(base)
  {
    var k := |name| - |base| - 1;
    var serial := name[5..k];
    assert name[..5] == CfgPrefix;
    assert name == CandidateName(serial, base);
    StagedOriginalRoundTrip(serial, base);
  }

  /** A regular file next to the original whose name matches the pattern for `base`. */
  predicate IsCandidate(fs: Fs, dir: string, name: string, base: string) {
    PathJoin(dir, name) in fs && fs[PathJoin(dir, name)].File? && Matches(name, base)
  }

  function FilterCandidates(fs: Fs, dir: string, base: string, names: seq<string>): (r: seq<string>)
    ensures forall x :: x in r <==> x in names && IsCandidate(fs, dir, x, base)
    ensures StrictlySorted(names) ==> StrictlySorted(r)
    decreases |names|
  {
    if |names| == 0 then []
    else
      var rest := FilterCandidates(fs, dir, base, names[1..]);
      if IsCandidate(fs, dir, names[0], base) then
        assert StrictlySorted(names) ==> forall x | x in rest :: Less(names[0], x);
        [names[0]] + rest
      else rest
  }

  /** The staged replacements of `dir/base`, by name, in listing order. */
  function CandidateNames(fs: Fs, dir: string, base: string): (names: seq<string>)
    ensures StrictlySorted(names)
    ensures forall n :: n in names <==> IsName(n) && IsCandidate(fs, dir, n, base)
  {
    FilterCandidates(fs, dir, base, ListNames(fs, dir))
  }

  function Prefixed(dir: string, names: seq<string>): (paths: seq<string>)
    ensures |paths| == |names|
    ensures forall i | 0 <= i < |names| :: paths[i] == PathJoin(dir, names[i])
    decreases |names|
  {
    if |names| == 0 then [] else [PathJoin(dir, names[0])] + Prefixed(dir, names[1..])
  }

  /**
   * `scanFile`: collects the staged replacements of `file` under its own
   * key, unless the key is already present. The directory listing is
   * needed even when nothing matches, and failing to read it is an error.
   */
  function ScanFile(fs: Fs, files: FilesMap, file: string): (r: Result<FilesMap, FsError>)
    ensures file in files ==> r == Ok(files)
    ensures r.Err? <==> file !in files && !(Dir(file) in fs && fs[Dir(file)].Directory?)
    ensures r.Ok? ==> forall k | k in files :: k in r.value && r.value[k] == files[k]
    ensures r.Ok? ==> forall k | k in r.value && k !in files :: k == file
    ensures r.Ok? && file !in files ==> (file in r.value <==> exists n :: IsName(n) && IsCandidate(fs, Dir(file), n, Base(file)))
    ensures r.Ok? && file in r.value && file !in files ==>
      r.value[file] == Prefixed(Dir(file), CandidateNames(fs, Dir(file), Base(file)))
  {
    if file in files then Ok(files)
    else
      var dir := Dir(file);
      var listing := ReadDir(fs, dir);
      if listing.Err? then Err(listing.error)
      else
        var names := CandidateNames(fs, dir, Base(file));
        if |names| == 0 then Ok(files)
        else
          assert names[0] in names;
          Ok(files[file := Prefixed(dir, names)])
  }

  /** Every candidate `ScanFile` collects is a regular file of the scanned tree. */
  lemma ScanFileCandidatesExist(fs: Fs, files: FilesMap, file: string)
    requires ScanFile(fs, files, file).Ok?
    ensures forall k | k in ScanFile(fs, files, file).value && k !in files ::
      |ScanFile(fs, files, file).value[k]| > 0
      && forall c | c in ScanFile(fs, files, file).value[k] :: c in fs && fs[c].File?
  {
    var r := ScanFile(fs, files, file).value;
    if file in r && file !in files {
      var names := CandidateNames(fs, Dir(file), Base(file));
      forall c | c in r[file] ensures c in fs && fs[c].File? {
        var i :| 0 <= i < |r[file]| && r[file][i] == c;
        assert names[i] in names;
      }
      assert names[0] in names;
    }
  }

  /** Nothing in `fs` is longer than `bound`. */
  predicate Bounded(fs: Fs, bound: nat) {
    forall p | p in fs :: |p| <= bound
  }

  ghost function KeyBound(keys: set<string>): (b: nat)
    ensures forall p | p in keys :: |p| <= b
    decreases |keys|
  {
    if keys == {} then 0
    else
      var p :| p in keys;
      var rest := KeyBound(keys - {p});
      if |p| > rest then |p| else rest
  }

  /** The outcome of a scan: the tree after orphan removals, the map, and the error that stopped it, if any. */
  datatype Scanned = Scanned(fs: Fs, files: FilesMap, err: Option<FsError>)

  /**
   * What scanning may do: delete nodes whose name carries the staged
   * prefix and nothing else; keep every existing map entry; add entries
   * only for originals of the scanned tree, each holding regular files of
   * that tree.
   */
  predicate ScanEffects(fs: Fs, files: FilesMap, r: Scanned) {
    (forall p | p in r.fs :: p in fs && r.fs[p] == fs[p])
    && (forall p | p in fs && p !in r.fs :: HasPrefix(LastName(p), CfgPrefix))
    && (forall k | k in files :: k in r.files && r.files[k] == files[k])
    && (forall k | k in r.files && k !in files ::
          k in fs && |r.files[k]| > 0 && forall c | c in r.files[k] :: c in fs && fs[c].File?)
  }

  lemma ScanEffectsCompose(fs: Fs, files: FilesMap, r1: Scanned, r2: Scanned)
    requires ScanEffects(fs, files, r1) && ScanEffects(r1.fs, r1.files, r2)
    ensures ScanEffects(fs, files, r2)
  {
  }

  lemma ScanEffectsRefl(fs: Fs, files: FilesMap, err: Option<FsError>)
    ensures ScanEffects(fs, files, Scanned(fs, files, err))
  {
  }

  lemma ScanFileEffects(fs: Fs, files: FilesMap, file: string)
    requires file in fs
    requires ScanFile(fs, files, file).Ok?
    ensures ScanEffects(fs, files, Scanned(fs, ScanFile(fs, files, file).value, None))
  {
    ScanFileCandidatesExist(fs, files, file);
  }

  /** Scans a subtree that exists: its listing, then each entry in order. */
  function ScanDir(build: Build, ghost bound: nat, fs: Fs, files: FilesMap, dir: string): (r: Scanned)
    requires Bounded(fs, bound) && dir in fs
    ensures ScanEffects(fs, files, r)
    ensures !fs[dir].Directory? ==> r == Scanned(fs, files, Some(NotFound(dir)))
    ensures forall p | p in fs && p !in r.fs :: Under(p, dir)
    decreases bound - |dir|, 1
  {
    var listing := ReadDir(fs, dir);
    if listing.Err? then Scanned(fs, files, Some(listing.error))
    else
      assert forall i | 0 <= i < |listing.value| :: IsName(listing.value[i].name);
      ScanEntries(build, bound, fs, files, dir, listing.value)
  }

  /**
   * The loop of `scanDir` over the remaining entries: a directory is
   * scanned first, and then, like every entry, its name is examined; a
   * staged name whose original is missing is removed, one whose original
   * exists has that original scanned.
   */
  function ScanEntries(build: Build, ghost bound: nat, fs: Fs, files: FilesMap, dir: string, entries: seq<Entry>): (r: Scanned)
    requires Bounded(fs, bound) && |dir| <= bound
    requires forall i | 0 <= i < |entries| :: IsName(entries[i].name)
    ensures ScanEffects(fs, files, r)
    ensures forall p | p in fs && p !in r.fs :: Under(p, dir)
    decreases bound - |dir|, 0, |entries|
  {
    if |entries| == 0 then Scanned(fs, files, None)
    else
      var e := entries[0];
      var sub := ScanChild(build, bound, fs, files, dir, e);
      assert forall p | p in fs && p !in sub.fs :: Under(p, dir) by {
        forall p | p in fs && p !in sub.fs ensures Under(p, dir) {
          UnderChild(p, dir, e.name);
        }
      }
      if sub.err.Some? then sub
      else
        var after := ScanEntry(build, sub.fs, sub.files, dir, e.name);
        ScanEffectsCompose(fs, files, sub, after);
        JoinUnder(dir, e.name);
        if after.err.Some? then after
        else
          var rest := ScanEntries(build, bound, after.fs, after.files, dir, entries[1..]);
          ScanEffectsCompose(fs, files, after, rest);
          rest
  }

  /** The recursive descent `scanDir` makes into an entry that is a directory. */
  function ScanChild(build: Build, ghost bound: nat, fs: Fs, files: FilesMap, dir: string, e: Entry): (r: Scanned)
    requires Bounded(fs, bound) && |dir| <= bound && IsName(e.name)
    ensures ScanEffects(fs, files, r)
    ensures !e.isDir ==> r == Scanned(fs, files, None)
    ensures forall p | p in fs && p !in r.fs :: Under(p, PathJoin(dir, e.name))
    decreases bound - |dir|, 0, 0
  {
    var child := PathJoin(dir, e.name);
    if !e.isDir then Scanned(fs, files, None)
    else if child !in fs then Scanned(fs, files, Some(NotFound(child)))
    else
      JoinLonger(dir, e.name);
      ScanDir(build, bound, fs, files, child)
  }

  /**
   * The name test of one `scanDir` entry. The original is found with
   * `filepath.Join`, so an empty, `.` or `..` derivation names the
   * directory itself or its parent.
   */
  function ScanEntry(build: Build, fs: Fs, files: FilesMap, dir: string, name: string): (r: Scanned)
    requires IsName(name)
    ensures ScanEffects(fs, files, r)
    ensures Derive(build, name).None? ==> r == Scanned(fs, files, None)
    ensures Derive(build, name).Some? && CleanJoin(dir, Derive(build, name).value) !in fs ==>
      var staged := PathJoin(dir, name);
      r.files == files
      && (r.err.None? <==> staged in fs && (fs[staged].Directory? ==> ChildNames(fs, staged) == {}))
      && (r.err.None? ==> r.fs == fs - {staged})
      && (r.err.Some? ==> r.fs == fs)
    ensures Derive(build, name).Some? && CleanJoin(dir, Derive(build, name).value) in fs ==>
      var scanned := ScanFile(fs, files, CleanJoin(dir, Derive(build, name).value));
      r.fs == fs && (r.err.None? <==> scanned.Ok?) && (r.err.None? ==> r.files == scanned.value)
    ensures forall p | p in fs && p !in r.fs :: p == PathJoin(dir, name) && HasPrefix(name, CfgPrefix)
  {
    match Derive(build, name)
    case None => Scanned(fs, files, None)
    case Some(orig) =>
      var forig := CleanJoin(dir, orig);
      if forig !in fs then
        var staged := PathJoin(dir, name);
        match Remove(fs, staged)
        case Err(e) => Scanned(fs, files, Some(e))
        case Ok(fs') =>
          LastNameOfJoin(dir, name);
          assert fs' == fs - {staged};
          Scanned(fs', files, None)
      else
        match ScanFile(fs, files, forig)
        case Err(e) => Scanned(fs, files, Some(e))
        case Ok(files') =>
          ScanFileEffects(fs, files, forig);
          Scanned(fs, files', None)
  }

  /**
   * `scan`: each protected path in order; a missing path is ignored, a
   * directory is walked and anything else is scanned as an original.
   */
  function Scan(build: Build, fs: Fs, files: FilesMap, paths: seq<string>): (r: Scanned)
    ensures ScanEffects(fs, files, r)
  {
    ScanPaths(build, KeyBound(fs.Keys), fs, files, paths)
  }

  function ScanPaths(build: Build, ghost bound: nat, fs: Fs, files: FilesMap, paths: seq<string>): (r: Scanned)
    requires Bounded(fs, bound)
    ensures ScanEffects(fs, files, r)
    decreases |paths|
  {
    if |paths| == 0 then Scanned(fs, files, None)
    else
      var step := ScanPath(build, bound, fs, files, paths[0]);
      if step.err.Some? then step
      else
        var rest := ScanPaths(build, bound, step.fs, step.files, paths[1..]);
        ScanEffectsCompose(fs, files, step, rest);
        rest
  }

  /**
   * One protected path, joined to the root with `filepath.Join` (so "",
   * "etc" and "/etc/" all clean to a root-relative absolute path): ignored
   * when missing, walked when a directory, scanned as an original otherwise.
   */
  function ScanPath(build: Build, ghost bound: nat, fs: Fs, files: FilesMap, p: string): (r: Scanned)
    requires Bounded(fs, bound)
    ensures ScanEffects(fs, files, r)
    ensures CleanJoin("/", p) !in fs ==> r == Scanned(fs, files, None)
    ensures CleanJoin("/", p) in fs && fs[CleanJoin("/", p)].File? ==>
      var scanned := ScanFile(fs, files, CleanJoin("/", p));
      r.fs == fs && (r.err.None? <==> scanned.Ok?) && (r.err.None? ==> r.files == scanned.value)
    ensures forall q | q in fs && q !in r.fs :: Under(q, CleanJoin("/", p))
  {
    var abspath := CleanJoin("/", p);
    if abspath !in fs then Scanned(fs, files, None)
    else if fs[abspath].Directory? then ScanDir(build, bound, fs, files, abspath)
    else
      match ScanFile(fs, files, abspath)
      case Err(e) => Scanned(fs, files, Some(e))
      case Ok(files') =>
        ScanFileEffects(fs, files, abspath);
        Scanned(fs, files', None)
  }

  /** A scan that starts from a map where keys have candidates leaves one where keys have candidates. */
  lemma ScanKeepsValidMap(build: Build, fs: Fs, files: FilesMap, paths: seq<string>)
    requires ValidMap(files)
    ensures ValidMap(Scan(build, fs, files, paths).files)
  {
  }

  lemma CandidateNameIsName(serial: string, base: string)
    requires IsDigits(serial) && IsName(base)
    ensures IsName(CandidateName(serial, base))
  {
    var name := CandidateName(serial, base);
    forall i | 0 <= i < |name| ensures name[i] != '/' {
      if 5 <= i < 5 + |serial| {
        assert name[i] == serial[i - 5];
      } else if i > 5 + |serial| {
        assert name[i] == base[i - 6 - |serial|];
      }
    }
  }

  /**
   * As written, scanning the update of an original named `a_b` in a
   * directory without an `ab` deletes the update and collects nothing.
   */
  lemma UnderscoreUpdateDeletedAsWritten(fs: Fs, files: FilesMap, dir: string, serial: string, a: string, b: string)
    requires IsDigits(serial) && '_' !in a && '_' !in b && IsName(a + "_" + b)
    requires CleanJoin(dir, a + b) !in fs
    requires PathJoin(dir, CandidateName(serial, a + "_" + b)) in fs
    requires fs[PathJoin(dir, CandidateName(serial, a + "_" + b))].File?
    ensures ScanEntry(AsWritten, fs, files, dir, CandidateName(serial, a + "_" + b))
      == Scanned(fs - {PathJoin(dir, CandidateName(serial, a + "_" + b))}, files, None)
  {
    CandidateNameIsName(serial, a + "_" + b);
    StagedOriginalAsWrittenDropsUnderscore(serial, a, b);
  }

  /** Scanning an existing original whose directory holds a staged update collects that update. */
  lemma ScanFileCollects(fs: Fs, files: FilesMap, dir: string, serial: string, base: string)
    requires IsDigits(serial) && IsName(base) && IsName(CandidateName(serial, base))
    requires IsAbsClean(dir) && dir in fs && fs[dir].Directory?
    requires PathJoin(dir, base) !in files
    requires PathJoin(dir, CandidateName(serial, base)) in fs
    requires fs[PathJoin(dir, CandidateName(serial, base))].File?
    ensures var r := ScanFile(fs, files, PathJoin(dir, base));
      r.Ok? && PathJoin(dir, base) in r.value
      && PathJoin(dir, CandidateName(serial, base)) in r.value[PathJoin(dir, base)]
  {
    var name := CandidateName(serial, base);
    var orig := PathJoin(dir, base);
    DirBaseOfJoin(dir, base);
    CandidateNameMatches(serial, base);
    assert IsCandidate(fs, dir, name, base);
    var names := CandidateNames(fs, dir, base);
    assert name in names;
    var i :| 0 <= i < |names| && names[i] == name;
    var r := ScanFile(fs, files, orig);
    assert r.Ok?;
    assert r.value[orig] == Prefixed(dir, names);
    assert r.value[orig][i] == PathJoin(dir, name);
  }

  /**
   * With the corrected derivation the same update is collected under its
   * original, which exists, and nothing is deleted.
   */
  lemma UnderscoreUpdateCollectedCorrected(fs: Fs, files: FilesMap, dir: string, serial: string, a: string, b: string)
    requires IsDigits(serial) && '_' !in a && '_' !in b && IsName(a + "_" + b)
    requires IsAbsClean(dir) && dir in fs && fs[dir].Directory?
    requires PathJoin(dir, a + "_" + b) in fs && PathJoin(dir, a + "_" + b) !in files
    requires PathJoin(dir, CandidateName(serial, a + "_" + b)) in fs
    requires fs[PathJoin(dir, CandidateName(serial, a + "_" + b))].File?
    ensures var r := ScanEntry(Corrected, fs, files, dir, CandidateName(serial, a + "_" + b));
      r.err == None && r.fs == fs && PathJoin(dir, a + "_" + b) in r.files
      && PathJoin(dir, CandidateName(serial, a + "_" + b)) in r.files[PathJoin(dir, a + "_" + b)]
  {
    var base := a + "_" + b;
    var name := CandidateName(serial, base);
    var orig := PathJoin(dir, base);
    CandidateNameIsName(serial, base);
    StagedOriginalRoundTrip(serial, base);
    assert base[|a|] == '_';
    JoinClean(dir, base);
    assert Derive(Corrected, name) == Some(base);
    ScanFileCollects(fs, files, dir, serial, base);
    var sf := ScanFile(fs, files, orig);
    assert ScanEntry(Corrected, fs, files, dir, name) == Scanned(fs, sf.value, None);
  }

  /** The directory reached from `dir` by entering each name of `path` in turn. */
  function Descend(dir: string, path: seq<string>): string
    decreases |path|
  {
    if |path| == 0 then dir else Descend(PathJoin(dir, path[0]), path[1..])
  }

  /** The entry of `dir` a walk towards the staged file `name` at the end of `path` goes through next. */
  function Target(path: seq<string>, name: string): string {
    if |path| > 0 then path[0] else name
  }

  /**
   * The static shape of a staged update below a clean directory: the path
   * down to it is plain names, its original is a plain name without the
   * staged prefix.
   */
  predicate Placed(dir: string, path: seq<string>, orig: string, name: string) {
    IsAbsClean(dir) && AllPlain(path) && IsPlainName(orig) && !HasPrefix(orig, CfgPrefix) && IsName(name)
  }

  /**
   * In `fs`, every directory from `dir` down `path` exists, and the last
   * one holds the original `orig` and the regular file `name`.
   */
  predicate Intact(fs: Fs, dir: string, path: seq<string>, orig: string, name: string)
    decreases |path|
  {
    dir in fs && fs[dir].Directory? &&
    if |path| == 0 then
      PathJoin(dir, orig) in fs && PathJoin(dir, name) in fs && fs[PathJoin(dir, name)].File?
    else
      Intact(fs, PathJoin(dir, path[0]), path[1..], orig, name)
  }

  /** `fs'` only lacks nodes of `fs`, and changes none it keeps. */
  predicate Kept(fs: Fs, fs': Fs) {
    forall p | p in fs' :: p in fs && fs'[p] == fs[p]
  }

  lemma {:induction false} IntactWithin(fs: Fs, fs': Fs, top: string, path: seq<string>, orig: string, name: string, base: string)
    requires AllPlain(path) && IsName(orig) && IsName(name)
    requires Intact(fs, top, path, orig, name) && Within(top, base) && Kept(fs, fs')
    requires forall p | p in fs && Within(p, base) :: p in fs'
    ensures Intact(fs', top, path, orig, name)
    decreases |path|
  {
    if |path| == 0 {
      WithinJoin(top, base, orig);
      WithinJoin(top, base, name);
    } else {
      WithinJoin(top, base, path[0]);
      IntactWithin(fs, fs', PathJoin(top, path[0]), path[1..], orig, name, base);
    }
  }

  /**
   * Removing nodes at or inside a sibling entry `sib` of the walk's next
   * target (only at `sib` itself when `sib` is staged) keeps everything
   * the walk still needs.
   */
  lemma IntactKept(fs: Fs, fs': Fs, dir: string, path: seq<string>, orig: string, name: string, sib: string)
    requires AllPlain(path) && IsPlainName(orig) && !HasPrefix(orig, CfgPrefix) && IsName(name) && IsName(sib)
    requires Intact(fs, dir, path, orig, name) && Kept(fs, fs')
    requires sib != Target(path, name)
    requires forall p | p in fs && p !in fs' :: Under(p, PathJoin(dir, sib)) || (p == PathJoin(dir, sib) && HasPrefix(sib, CfgPrefix))
    ensures Intact(fs', dir, path, orig, name)
  {
    ParentNotWithinChild(dir, sib);
    if |path| == 0 {
      var po := PathJoin(dir, orig);
      if orig == sib {
        assert !Under(po, po) by {
          ChildPrefixOfJoin(dir, orig);
        }
      } else {
        SiblingsApart(po, dir, orig, sib);
      }
      SiblingsApart(PathJoin(dir, name), dir, name, sib);
    } else {
      var child := PathJoin(dir, path[0]);
      forall p | p in fs && Within(p, child)
        ensures p in fs'
      {
        SiblingsApart(p, dir, path[0], sib);
      }
      IntactWithin(fs, fs', child, path[1..], orig, name, child);
    }
  }

  /**
   * A walk of `dir` that finishes without error has collected the
   * original of every staged update below it: whatever the walk deleted
   * or collected on the way, the update's directory is reached, and the
   * original is scanned when its staged entry comes up, if not before.
   */
  lemma {:induction false} DirCollects(build: Build, bound: nat, fs: Fs, files: FilesMap, dir: string, path: seq<string>, orig: string, name: string)
    requires Bounded(fs, bound)
    requires Placed(dir, path, orig, name) && Derive(build, name) == Some(orig) && Matches(name, orig)
    requires Intact(fs, dir, path, orig, name)
    ensures var r := ScanDir(build, bound, fs, files, dir);
      r.err.None? ==> PathJoin(Descend(dir, path), orig) in r.files
    decreases bound - |dir|, 1
  {
    var listing := ReadDir(fs, dir).value;
    TargetListed(fs, dir, path, orig, name);
    ListingDistinct(fs, dir);
    EntriesCollect(build, bound, fs, files, dir, listing, path, orig, name);
    assert ScanDir(build, bound, fs, files, dir) == ScanEntries(build, bound, fs, files, dir, listing);
  }

  /** The walk's next target is among the directory's entries, flagged as a directory when the walk descends into it. */
  lemma TargetListed(fs: Fs, dir: string, path: seq<string>, orig: string, name: string)
    requires AllPlain(path) && IsName(name) && Intact(fs, dir, path, orig, name)
    ensures ReadDir(fs, dir).Ok?
    ensures exists i | 0 <= i < |ReadDir(fs, dir).value| :: ReadDir(fs, dir).value[i].name == Target(path, name)
    ensures |path| > 0 ==> forall i | 0 <= i < |ReadDir(fs, dir).value| && ReadDir(fs, dir).value[i].name == Target(path, name) ::
      ReadDir(fs, dir).value[i].isDir
  {
    var listing := ReadDir(fs, dir).value;
    var names := ListNames(fs, dir);
    var target := Target(path, name);
    assert IsName(target) && PathJoin(dir, target) in fs;
    assert |path| > 0 ==> fs[PathJoin(dir, target)].Directory?;
    var i :| 0 <= i < |names| && names[i] == target;
    assert listing[i].name == target;
  }

  lemma ListingDistinct(fs: Fs, dir: string)
    requires ReadDir(fs, dir).Ok?
    ensures forall j, k | 0 <= j < k < |ReadDir(fs, dir).value| :: ReadDir(fs, dir).value[j].name != ReadDir(fs, dir).value[k].name
    ensures forall j | 0 <= j < |ReadDir(fs, dir).value| :: IsName(ReadDir(fs, dir).value[j].name)
  {
    var listing := ReadDir(fs, dir).value;
    var names := ListNames(fs, dir);
    forall j, k | 0 <= j < k < |listing| ensures listing[j].name != listing[k].name {
      assert Less(names[j], names[k]);
      LessIrreflexive(names[j]);
    }
  }

  lemma {:induction false} EntriesCollect(build: Build, bound: nat, fs: Fs, files: FilesMap, dir: string, entries: seq<Entry>, path: seq<string>, orig: string, name: string)
    requires Bounded(fs, bound) && |dir| <= bound
    requires forall i | 0 <= i < |entries| :: IsName(entries[i].name)
    requires Placed(dir, path, orig, name) && Derive(build, name) == Some(orig) && Matches(name, orig)
    requires Intact(fs, dir, path, orig, name)
    requires exists i | 0 <= i < |entries| :: entries[i].name == Target(path, name)
    requires forall i, j | 0 <= i < j < |entries| :: entries[i].name != entries[j].name
    requires |path| > 0 ==> forall i | 0 <= i < |entries| && entries[i].name == Target(path, name) :: entries[i].isDir
    ensures var r := ScanEntries(build, bound, fs, files, dir, entries);
      r.err.None? ==> PathJoin(Descend(dir, path), orig) in r.files
    decreases bound - |dir|, 0, |entries|
  {
    var e := entries[0];
    if e.name == Target(path, name) {
      FirstEntryCollects(build, bound, fs, files, dir, entries, path, orig, name);
    } else {
      ScanEntriesUnfold(build, bound, fs, files, dir, entries);
      var sub := ScanChild(build, bound, fs, files, dir, e);
      var after := ScanEntry(build, sub.fs, sub.files, dir, e.name);
      SiblingKeeps(build, bound, fs, files, dir, e, path, orig, name);
      TailListing(entries, Target(path, name), |path| > 0);
      EntriesCollect(build, bound, after.fs, after.files, dir, entries[1..], path, orig, name);
    }
  }

  /** A listing whose head is not the target keeps the target, unique and of the same kind, in its tail. */
  lemma TailListing(entries: seq<Entry>, target: string, isDir: bool)
    requires |entries| > 0 && entries[0].name != target
    requires forall i | 0 <= i < |entries| :: IsName(entries[i].name)
    requires exists i | 0 <= i < |entries| :: entries[i].name == target
    requires forall i, j | 0 <= i < j < |entries| :: entries[i].name != entries[j].name
    requires isDir ==> forall i | 0 <= i < |entries| && entries[i].name == target :: entries[i].isDir
    ensures forall i | 0 <= i < |entries[1..]| :: IsName(entries[1..][i].name)
    ensures exists i | 0 <= i < |entries[1..]| :: entries[1..][i].name == target
    ensures forall i, j | 0 <= i < j < |entries[1..]| :: entries[1..][i].name != entries[1..][j].name
    ensures isDir ==> forall i | 0 <= i < |entries[1..]| && entries[1..][i].name == target :: entries[1..][i].isDir
  {
    var i :| 0 <= i < |entries| && entries[i].name == target;
    assert entries[1..][i - 1] == entries[i];
  }

  /** One step of the entry loop: the first entry's descent and name test, then the rest, stopping at the first error. */
  lemma ScanEntriesUnfold(build: Build, bound: nat, fs: Fs, files: FilesMap, dir: string, entries: seq<Entry>)
    requires Bounded(fs, bound) && |dir| <= bound && |entries| > 0
    requires forall i | 0 <= i < |entries| :: IsName(entries[i].name)
    ensures var sub := ScanChild(build, bound, fs, files, dir, entries[0]);
      var after := ScanEntry(build, sub.fs, sub.files, dir, entries[0].name);
      Bounded(after.fs, bound) &&
      var r := ScanEntries(build, bound, fs, files, dir, entries);
      (sub.err.Some? ==> r == sub) &&
      (sub.err.None? && after.err.Some? ==> r == after) &&
      (sub.err.None? && after.err.None? ==> r == ScanEntries(build, bound, after.fs, after.files, dir, entries[1..]))
  {
  }

  /** When the first entry is the walk's target, the finished loop holds the original. */
  lemma FirstEntryCollects(build: Build, bound: nat, fs: Fs, files: FilesMap, dir: string, entries: seq<Entry>, path: seq<string>, orig: string, name: string)
    requires Bounded(fs, bound) && |dir| <= bound && |entries| > 0
    requires forall i | 0 <= i < |entries| :: IsName(entries[i].name)
    requires Placed(dir, path, orig, name) && Derive(build, name) == Some(orig) && Matches(name, orig)
    requires Intact(fs, dir, path, orig, name)
    requires entries[0].name == Target(path, name) && (|path| > 0 ==> entries[0].isDir)
    ensures var r := ScanEntries(build, bound, fs, files, dir, entries);
      r.err.None? ==> PathJoin(Descend(dir, path), orig) in r.files
    decreases bound - |dir|, 0, |entries|, 0
  {
    var e := entries[0];
    ScanEntriesUnfold(build, bound, fs, files, dir, entries);
    var sub := ScanChild(build, bound, fs, files, dir, e);
    var after := ScanEntry(build, sub.fs, sub.files, dir, e.name);
    if |path| > 0 {
      DescentCollects(build, bound, fs, files, dir, e, path, orig, name);
    } else {
      StagedEntryCollects(build, bound, fs, files, dir, e, orig, name);
    }
  }

  /** Reaching the walk's target entry that is a directory collects the original below it. */
  lemma {:induction false} DescentCollects(build: Build, bound: nat, fs: Fs, files: FilesMap, dir: string, e: Entry, path: seq<string>, orig: string, name: string)
    requires Bounded(fs, bound) && |dir| <= bound
    requires Placed(dir, path, orig, name) && Derive(build, name) == Some(orig) && Matches(name, orig)
    requires Intact(fs, dir, path, orig, name)
    requires |path| > 0 && e == Entry(path[0], true)
    ensures var sub := ScanChild(build, bound, fs, files, dir, e);
      sub.err.None? ==> PathJoin(Descend(dir, path), orig) in sub.files
    decreases bound - |dir|, 0, 0
  {
    var child := PathJoin(dir, path[0]);
    JoinClean(dir, path[0]);
    JoinLonger(dir, path[0]);
    assert Descend(child, path[1..]) == Descend(dir, path);
    assert ScanChild(build, bound, fs, files, dir, e) == ScanDir(build, bound, fs, files, child);
    DirCollects(build, bound, fs, files, child, path[1..], orig, name);
  }

  /** Reaching the staged entry itself scans its original, which collects it. */
  lemma StagedEntryCollects(build: Build, bound: nat, fs: Fs, files: FilesMap, dir: string, e: Entry, orig: string, name: string)
    requires Bounded(fs, bound) && |dir| <= bound
    requires Placed(dir, [], orig, name) && Derive(build, name) == Some(orig) && Matches(name, orig)
    requires Intact(fs, dir, [], orig, name)
    requires e.name == name
    ensures var sub := ScanChild(build, bound, fs, files, dir, e);
      sub.err.None? ==>
        var after := ScanEntry(build, sub.fs, sub.files, dir, e.name);
        after.err.None? ==> PathJoin(dir, orig) in after.files
  {
    var key := PathJoin(dir, orig);
    var sub := ScanChild(build, bound, fs, files, dir, e);
    if sub.err.None? {
      assert fs[PathJoin(dir, name)].File?;
      assert sub == Scanned(fs, files, None);
      JoinClean(dir, orig);
      DirBaseOfJoin(dir, orig);
      assert IsName(name) && IsCandidate(fs, Dir(key), name, Base(key));
      ScanFileFinds(fs, files, key, name);
    }
  }

  /** An original with a candidate beside it is in the map after `ScanFile`, whether new or already there. */
  lemma ScanFileFinds(fs: Fs, files: FilesMap, file: string, name: string)
    requires IsName(name) && IsCandidate(fs, Dir(file), name, Base(file))
    ensures ScanFile(fs, files, file).Ok? ==> file in ScanFile(fs, files, file).value
  {
  }

  /** Scanning an entry other than the walk's target keeps everything the walk still needs. */
  lemma SiblingKeeps(build: Build, bound: nat, fs: Fs, files: FilesMap, dir: string, e: Entry, path: seq<string>, orig: string, name: string)
    requires Bounded(fs, bound) && |dir| <= bound && IsName(e.name)
    requires Placed(dir, path, orig, name) && Intact(fs, dir, path, orig, name)
    requires e.name != Target(path, name)
    ensures var sub := ScanChild(build, bound, fs, files, dir, e);
      var after := ScanEntry(build, sub.fs, sub.files, dir, e.name);
      Intact(after.fs, dir, path, orig, name) && Bounded(after.fs, bound)
  {
    var sub := ScanChild(build, bound, fs, files, dir, e);
    var after := ScanEntry(build, sub.fs, sub.files, dir, e.name);
    IntactKept(fs, sub.fs, dir, path, orig, name, e.name);
    IntactKept(sub.fs, after.fs, dir, path, orig, name, e.name);
  }

  /**
   * A scan whose first protected path cleans to a directory above a staged
   * update, and that finishes without error, has collected the update's
   * original.
   */
  lemma ScanCollects(build: Build, fs: Fs, files: FilesMap, paths: seq<string>, path: seq<string>, orig: string, name: string)
    requires |paths| > 0
    requires Placed(CleanJoin("/", paths[0]), path, orig, name) && Intact(fs, CleanJoin("/", paths[0]), path, orig, name)
    requires Derive(build, name) == Some(orig) && Matches(name, orig)
    ensures var r := Scan(build, fs, files, paths);
      r.err.None? ==> PathJoin(Descend(CleanJoin("/", paths[0]), path), orig) in r.files
  {
    var bound := KeyBound(fs.Keys);
    var top := CleanJoin("/", paths[0]);
    DirCollects(build, bound, fs, files, top, path, orig, name);
  }

  /**
   * The protected path "/etc" may be spelled "etc" or "/etc/", and an empty
   * path walks the whole root: all of them collect an update staged
   * directly in /etc.
   */
  lemma EtcUpdateFoundFromAnySpelling(build: Build, fs: Fs, files: FilesMap, serial: string, orig: string)
    requires IsDigits(serial) && IsPlainName(orig) && !HasPrefix(orig, CfgPrefix) && (build == Corrected || '_' !in orig)
    requires "/" in fs && fs["/"].Directory? && Intact(fs, "/etc", [], orig, CandidateName(serial, orig))
    ensures var r := Scan(build, fs, files, [""]); r.err.None? ==> PathJoin("/etc", orig) in r.files
    ensures var r := Scan(build, fs, files, ["etc"]); r.err.None? ==> PathJoin("/etc", orig) in r.files
    ensures var r := Scan(build, fs, files, ["/etc/"]); r.err.None? ==> PathJoin("/etc", orig) in r.files
  {
    var name := CandidateName(serial, orig);
    StagedInEtc(build, serial, orig);
    RootJoins();
    RootCollects(build, fs, files, orig, name);
    ScanCollects(build, fs, files, ["etc"], [], orig, name);
    ScanCollects(build, fs, files, ["/etc/"], [], orig, name);
  }

  /** Walking the whole root reaches an update staged directly in /etc. */
  lemma RootCollects(build: Build, fs: Fs, files: FilesMap, orig: string, name: string)
    requires "/" in fs && fs["/"].Directory? && Intact(fs, "/etc", [], orig, name)
    requires Placed("/", ["etc"], orig, name) && Derive(build, name) == Some(orig) && Matches(name, orig)
    ensures var r := Scan(build, fs, files, [""]); r.err.None? ==> PathJoin("/etc", orig) in r.files
  {
    RootJoins();
    RenderEtc();
    IntactOneUp(fs, "/", "etc", orig, name);
    assert [""][0] == "";
    ScanCollects(build, fs, files, [""], ["etc"], orig, name);
  }

  /** A directory holding the directory of a staged update is intact one level up. */
  lemma IntactOneUp(fs: Fs, dir: string, n: string, orig: string, name: string)
    requires dir in fs && fs[dir].Directory? && Intact(fs, PathJoin(dir, n), [], orig, name)
    ensures Intact(fs, dir, [n], orig, name) && Descend(dir, [n]) == PathJoin(dir, n)
  {
    assert [n][1..] == [];
  }

  /** A staged update of a plain original, directly in /etc, has the static shape a walk from / or from /etc needs. */
  lemma StagedInEtc(build: Build, serial: string, orig: string)
    requires IsDigits(serial) && IsPlainName(orig) && !HasPrefix(orig, CfgPrefix) && (build == Corrected || '_' !in orig)
    ensures var name := CandidateName(serial, orig);
      Placed("/etc", [], orig, name) && Placed("/", ["etc"], orig, name) &&
      Derive(build, name) == Some(orig) && Matches(name, orig)
  {
    RootJoins();
    EtcIsPlain();
    CandidateNameIsName(serial, orig);
    CandidateNameMatches(serial, orig);
    if build == Corrected {
      StagedOriginalRoundTrip(serial, orig);
    } else {
      StagedOriginalAsWrittenPlainNames(serial, orig);
    }
  }
}
