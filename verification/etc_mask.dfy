/**
 * `checkMasked` (pkg/portage/etc-update.go): originals listed in the mask
 * paths are not offered to the operator; every staged replacement is
 * moved onto them in turn and their keys leave the files map.
 */
module EtcMask {
  import opened Wrappers
  import opened Tools
  import opened Files
  import opened FilesMaps

  /** The tree after a sequence of filesystem calls, and the error that stopped them, if any. */
  datatype FsStep = FsStep(fs: Fs, err: Option<FsError>)

  /** `p` has the same node, or the same absence, in both trees. */
  predicate Untouched(fs: Fs, fs': Fs, p: string) {
    (p in fs' <==> p in fs) && (p in fs ==> fs'[p] == fs[p])
  }

  /**
   * The inner loop of `checkMasked` for one original `f`: for each
   * candidate in order, remove `f` and rename the candidate onto it. On
   * success `f` holds the last candidate, with that candidate's own owner
   * and mode, and every candidate is gone.
   */
  function MoveCandidates(fs: Fs, f: string, cfgs: seq<string>): (r: FsStep)
    ensures forall q | q != f && q !in cfgs :: Untouched(fs, r.fs, q)
    ensures forall q | q in r.fs :: q in fs
    ensures r.err.None? ==> forall c | c in cfgs :: c != f && c !in r.fs
    ensures r.err.None? && |cfgs| > 0 ==>
      cfgs[|cfgs| - 1] in fs && f in r.fs && r.fs[f] == fs[cfgs[|cfgs| - 1]]
    ensures r.err.None? && |cfgs| == 0 ==> r.fs == fs
    decreases |cfgs|
  {
    if |cfgs| == 0 then FsStep(fs, None)
    else
      match Remove(fs, f)
      case Err(e) => FsStep(fs, Some(e))
      case Ok(fs1) =>
        match Rename(fs1, cfgs[0], f)
        case Err(e) => FsStep(fs1, Some(e))
        case Ok(fs2) =>
          var rest := MoveCandidates(fs2, f, cfgs[1..]);
          MoveCandidatesStep(fs, f, cfgs, fs1, fs2, rest);
          rest
  }

  lemma MoveCandidatesStep(fs: Fs, f: string, cfgs: seq<string>, fs1: Fs, fs2: Fs, rest: FsStep)
    requires |cfgs| > 0
    requires Remove(fs, f) == Ok(fs1) && Rename(fs1, cfgs[0], f) == Ok(fs2)
    requires forall q | q != f && q !in cfgs[1..] :: Untouched(fs2, rest.fs, q)
    requires forall q | q in rest.fs :: q in fs2
    requires rest.err.None? ==> forall c | c in cfgs[1..] :: c != f && c !in rest.fs
    requires rest.err.None? && |cfgs| > 1 ==>
      cfgs[|cfgs| - 1] in fs2 && f in rest.fs && rest.fs[f] == fs2[cfgs[|cfgs| - 1]]
    requires rest.err.None? && |cfgs| == 1 ==> rest.fs == fs2
    ensures forall q | q != f && q !in cfgs :: Untouched(fs, rest.fs, q)
    ensures forall q | q in rest.fs :: q in fs
    ensures rest.err.None? ==> forall c | c in cfgs :: c != f && c !in rest.fs
    ensures rest.err.None? ==>
      cfgs[|cfgs| - 1] in fs && f in rest.fs && rest.fs[f] == fs[cfgs[|cfgs| - 1]]
  {
    var c0 := cfgs[0];
    assert c0 != f && c0 in fs && fs2[f] == fs[c0] && c0 !in fs2;
    assert forall c | c in cfgs :: c == c0 || c in cfgs[1..];
    forall q | q != f && q !in cfgs
      ensures Untouched(fs, rest.fs, q)
    {
      assert q !in cfgs[1..];
      assert Untouched(fs, fs2, q);
    }
    if rest.err.None? && |cfgs| > 1 {
      var last := cfgs[|cfgs| - 1];
      assert last in cfgs[1..];
      assert last != f && last != c0;
    }
  }

  /** The keys of `files` that `checkMasked` handles: those listed exactly in the masks. */
  predicate IsMasked(masks: seq<string>, k: string) {
    KeyInList(k, masks)
  }

  /** The outcome of the mask pass. */
  datatype Masked = Masked(fs: Fs, files: FilesMap, err: Option<FsError>)

  /** `q` is a masked original among `keys`, or one of its candidates. */
  predicate MaskTouches(files: FilesMap, masks: seq<string>, keys: seq<string>, q: string) {
    exists k | k in keys && k in files && IsMasked(masks, k) :: q == k || q in files[k]
  }

  lemma MaskTouchesTail(files: FilesMap, masks: seq<string>, keys: seq<string>, q: string)
    requires |keys| > 0
    ensures MaskTouches(files, masks, keys[1..], q) ==> MaskTouches(files, masks, keys, q)
    ensures keys[0] in files && IsMasked(masks, keys[0]) && (q == keys[0] || q in files[keys[0]]) ==> MaskTouches(files, masks, keys, q)
  {
    if MaskTouches(files, masks, keys[1..], q) {
      var k' :| k' in keys[1..] && k' in files && IsMasked(masks, k') && (q == k' || q in files[k']);
      assert k' in keys;
    }
  }

  function ApplyMasks(fs: Fs, files: FilesMap, masks: seq<string>, keys: seq<string>): (r: FsStep)
    ensures forall q | !MaskTouches(files, masks, keys, q) :: Untouched(fs, r.fs, q)
    ensures forall q | q in r.fs :: q in fs
    decreases |keys|
  {
    if |keys| == 0 then FsStep(fs, None)
    else
      var k := keys[0];
      var step := if k in files && IsMasked(masks, k) then MoveCandidates(fs, k, files[k]) else FsStep(fs, None);
      if step.err.Some? then step
      else
        var rest := ApplyMasks(step.fs, files, masks, keys[1..]);
        forall q | !MaskTouches(files, masks, keys, q)
          ensures Untouched(fs, step.fs, q) && !MaskTouches(files, masks, keys[1..], q)
        {
          MaskTouchesTail(files, masks, keys, q);
          if k in files && IsMasked(masks, k) {
            assert q != k && q !in files[k];
          }
        }
        rest
  }

  /**
   * No path of the map plays two parts: an original is no candidate, and
   * two originals share no candidate. A scan builds such maps, since a
   * candidate's name carries the staged prefix and its original's name.
   */
  predicate Separate(files: FilesMap) {
    (forall k | k in files :: k !in files[k])
    && (forall k1, k2 | k1 in files && k2 in files && k1 != k2 :: k1 !in files[k2])
    && (forall k1, k2, c | k1 in files && k2 in files && k1 != k2 && c in files[k1] :: c !in files[k2])
  }

  predicate Distinct(keys: seq<string>) {
    forall i, j | 0 <= i < j < |keys| :: keys[i] != keys[j]
  }

  /** Each visited masked original ends holding the node of its last candidate, and none of its candidates is left. */
  predicate MovedOnto(fs: Fs, fs': Fs, files: FilesMap, k: string) {
    k in files && |files[k]| > 0 ==>
      k in fs' && files[k][|files[k]| - 1] in fs && fs'[k] == fs[files[k][|files[k]| - 1]]
      && forall c | c in files[k] :: c !in fs'
  }

  /**
   * A mask pass that finishes leaves every visited masked original with
   * its last candidate's node, and every candidate of it gone, whatever
   * the order of the visits.
   */
  lemma {:induction false} ApplyMasksMoves(fs: Fs, files: FilesMap, masks: seq<string>, keys: seq<string>)
    requires Separate(files) && Distinct(keys)
    requires ApplyMasks(fs, files, masks, keys).err.None?
    ensures forall k | k in keys && IsMasked(masks, k) :: MovedOnto(fs, ApplyMasks(fs, files, masks, keys).fs, files, k)
    decreases |keys|
  {
    if |keys| > 0 {
      var k0 := keys[0];
      var step := if k0 in files && IsMasked(masks, k0) then MoveCandidates(fs, k0, files[k0]) else FsStep(fs, None);
      var rest := ApplyMasks(step.fs, files, masks, keys[1..]);
      assert ApplyMasks(fs, files, masks, keys) == rest;
      ApplyMasksMoves(step.fs, files, masks, keys[1..]);
      forall k | k in keys && IsMasked(masks, k)
        ensures MovedOnto(fs, rest.fs, files, k)
      {
        if k == k0 {
          VisitedKept(fs, files, masks, keys, step.fs, rest.fs);
        } else {
          assert k in keys[1..];
          CandidatesUntouched(fs, files, masks, k0, k, step.fs);
        }
      }
    }
  }

  /** The first visit's result survives the later visits. */
  lemma VisitedKept(fs: Fs, files: FilesMap, masks: seq<string>, keys: seq<string>, fs1: Fs, fs2: Fs)
    requires Separate(files) && Distinct(keys) && |keys| > 0
    requires IsMasked(masks, keys[0])
    requires fs1 == (if keys[0] in files then MoveCandidates(fs, keys[0], files[keys[0]]).fs else fs)
    requires keys[0] in files ==> MoveCandidates(fs, keys[0], files[keys[0]]).err.None?
    requires forall q | !MaskTouches(files, masks, keys[1..], q) :: Untouched(fs1, fs2, q)
    ensures MovedOnto(fs, fs2, files, keys[0])
  {
    var k0 := keys[0];
    if k0 in files && |files[k0]| > 0 {
      forall k' | k' in keys[1..]
        ensures k' != k0
      {
        var j :| 0 <= j < |keys[1..]| && keys[1..][j] == k';
        assert keys[j + 1] == k';
      }
      assert Untouched(fs1, fs2, k0);
      forall c | c in files[k0]
        ensures Untouched(fs1, fs2, c)
      {
        assert !MaskTouches(files, masks, keys[1..], c);
      }
    }
  }

  /** A visit of `k0` leaves the candidates of another original, and that original, as they were. */
  lemma CandidatesUntouched(fs: Fs, files: FilesMap, masks: seq<string>, k0: string, k: string, fs1: Fs)
    requires Separate(files) && k != k0
    requires fs1 == (if k0 in files && IsMasked(masks, k0) then MoveCandidates(fs, k0, files[k0]).fs else fs)
    ensures k in files ==> Untouched(fs, fs1, k) && forall c | c in files[k] :: Untouched(fs, fs1, c)
  {
  }

  /**
   * `checkMasked`: the masked originals are visited in `order`, the order
   * the map is iterated in. A failure stops the pass with the map as it
   * was; otherwise every visited masked key is deleted and the others keep
   * their lists.
   */
  function CheckMasked(fs: Fs, files: FilesMap, masks: seq<string>, order: seq<string>): (r: Masked)
    ensures r.err.Some? ==> r.files == files
    ensures r.err.None? ==> forall k :: k in r.files <==> k in files && !(k in order && k in masks)
    ensures forall k | k in r.files :: r.files[k] == files[k]
    ensures forall q | !MaskTouches(files, masks, order, q) :: Untouched(fs, r.fs, q)
    ensures forall q | q in r.fs :: q in fs
    ensures r.err.None? && Separate(files) && Distinct(order) ==>
      forall k | k in order && k in masks :: MovedOnto(fs, r.fs, files, k)
  {
    var step := ApplyMasks(fs, files, masks, order);
    if step.err.None? && Separate(files) && Distinct(order) then
      ApplyMasksMoves(fs, files, masks, order);
      Masked(step.fs, map k | k in files && !(k in order && IsMasked(masks, k)) :: files[k], None)
    else if step.err.Some? then Masked(step.fs, files, step.err)
    else Masked(step.fs, map k | k in files && !(k in order && IsMasked(masks, k)) :: files[k], None)
  }

  /** With every key visited, the pass leaves exactly the unmasked part of the map. */
  lemma CheckMaskedKeepsUnmasked(fs: Fs, files: FilesMap, masks: seq<string>, order: seq<string>)
    requires forall k | k in files :: k in order
    requires CheckMasked(fs, files, masks, order).err.None?
    ensures CheckMasked(fs, files, masks, order).files == map k | k in files && k !in masks :: files[k]
  {
  }

  /** A masked original with a single update ends up as that update, whose own owner and mode it keeps. */
  lemma MaskedSingleUpdate(fs: Fs, files: FilesMap, masks: seq<string>, f: string, c: string)
    requires files == map[f := [c]] && f in masks
    requires f in fs && c in fs && c != f && fs[c].File? && fs[f].File?
    ensures CheckMasked(fs, files, masks, [f]) == Masked((fs - {c})[f := fs[c]], map[], None)
  {
    assert Remove(fs, f) == Ok(fs - {f});
    assert Rename(fs - {f}, c, f) == Ok((fs - {f} - {c})[f := fs[c]]);
    assert (fs - {f} - {c})[f := fs[c]] == (fs - {c})[f := fs[c]];
    assert KeyInList(f, masks);
    assert MoveCandidates(fs, f, [c]) == FsStep((fs - {c})[f := fs[c]], None);
    assert [f][1..] == [];
    assert ApplyMasks(fs, files, masks, [f]) == FsStep((fs - {c})[f := fs[c]], None);
  }
}
