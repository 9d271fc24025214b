/**
 * The abstract filesystem the reconciliation engine works on: a map from
 * clean absolute paths to nodes carrying the owner, group and permission
 * bits that `os.Stat` reports. Directory listings are derived from the
 * map and, like Go's `os.ReadDir`, come back sorted by name.
 */
module Files {
  import opened Wrappers
  import opened Text
  import opened Ordering
  import opened Paths

  datatype Node =
    | File(data: string, uid: int, gid: int, mode: int)
    | Directory(uid: int, gid: int, mode: int)

  type Fs = map<string, Node>

  /** One `os.DirEntry`: the name and whether it is a directory. */
  datatype Entry = Entry(name: string, isDir: bool)

  datatype FsError =
    | NotFound(path: string)
    | NotEmpty(path: string)
    | NotRegular(path: string)

  /** The ownership and mode captured by `os.Stat`. */
  datatype Meta = Meta(uid: int, gid: int, mode: int)

  predicate IsChild(dir: string, p: string) {
    HasPrefix(p, ChildPrefix(dir)) && IsName(p[|ChildPrefix(dir)|..])
  }

  function ChildNames(fs: Fs, dir: string): set<string> {
    set p | p in fs && IsChild(dir, p) :: p[|ChildPrefix(dir)|..]
  }

  lemma ChildNameJoins(fs: Fs, dir: string, name: string)
    requires name in ChildNames(fs, dir)
    ensures PathJoin(dir, name) in fs
    ensures IsName(name)
  {
    var p :| p in fs && IsChild(dir, p) && p[|ChildPrefix(dir)|..] == name;
    assert p == p[..|ChildPrefix(dir)|] + p[|ChildPrefix(dir)|..];
  }

  lemma JoinIsChild(fs: Fs, dir: string, name: string)
    requires IsName(name) && PathJoin(dir, name) in fs
    ensures name in ChildNames(fs, dir)
  {
    var p := PathJoin(dir, name);
    assert p[..|ChildPrefix(dir)|] == ChildPrefix(dir);
    assert p[|ChildPrefix(dir)|..] == name;
  }

  function EntriesOf(fs: Fs, dir: string, names: seq<string>): (es: seq<Entry>)
    requires forall i | 0 <= i < |names| :: PathJoin(dir, names[i]) in fs
    ensures |es| == |names|
    ensures forall i | 0 <= i < |es| :: es[i].name == names[i] && (es[i].isDir <==> fs[PathJoin(dir, names[i])].Directory?)
  {
    if |names| == 0 then []
    else [Entry(names[0], fs[PathJoin(dir, names[0])].Directory?)] + EntriesOf(fs, dir, names[1..])
  }

  /** The names of a directory's children in ascending order. */
  function ListNames(fs: Fs, dir: string): (names: seq<string>)
    ensures StrictlySorted(names)
    ensures forall i | 0 <= i < |names| :: IsName(names[i]) && PathJoin(dir, names[i]) in fs
    ensures forall n | IsName(n) && PathJoin(dir, n) in fs :: n in names
  {
    var names := SortedSet(ChildNames(fs, dir));
    ListNamesFacts(fs, dir, names);
    names
  }

  lemma ListNamesFacts(fs: Fs, dir: string, names: seq<string>)
    requires forall x :: x in names <==> x in ChildNames(fs, dir)
    ensures forall i | 0 <= i < |names| :: IsName(names[i]) && PathJoin(dir, names[i]) in fs
    ensures forall n | IsName(n) && PathJoin(dir, n) in fs :: n in names
  {
    forall i | 0 <= i < |names|
      ensures IsName(names[i]) && PathJoin(dir, names[i]) in fs
    {
      ChildNameJoins(fs, dir, names[i]);
    }
    forall n | IsName(n) && PathJoin(dir, n) in fs
      ensures n in names
    {
      JoinIsChild(fs, dir, n);
    }
  }

  /** `os.ReadDir(dir)`: the children of a directory, sorted by name. */
  function ReadDir(fs: Fs, dir: string): (r: Result<seq<Entry>, FsError>)
    ensures r.Ok? <==> dir in fs && fs[dir].Directory?
    ensures r.Ok? ==> |r.value| == |ListNames(fs, dir)|
    ensures r.Ok? ==> forall i | 0 <= i < |r.value| ::
      r.value[i].name == ListNames(fs, dir)[i]
      && (r.value[i].isDir <==> fs[PathJoin(dir, r.value[i].name)].Directory?)
  {
    if dir !in fs || !fs[dir].Directory? then Err(NotFound(dir))
    else Ok(EntriesOf(fs, dir, ListNames(fs, dir)))
  }

  /** `os.Stat`: the node's ownership and mode. */
  function Stat(fs: Fs, p: string): (r: Result<Meta, FsError>)
    ensures r.Ok? <==> p in fs
    ensures r.Ok? ==> r.value == Meta(fs[p].uid, fs[p].gid, fs[p].mode)
  {
    if p !in fs then Err(NotFound(p)) else Ok(Meta(fs[p].uid, fs[p].gid, fs[p].mode))
  }

  /** `os.Remove`: deletes a file or an empty directory. */
  function Remove(fs: Fs, p: string): (r: Result<Fs, FsError>)
    ensures r.Ok? <==> p in fs && (fs[p].Directory? ==> ChildNames(fs, p) == {})
    ensures r.Ok? ==> r.value.Keys == fs.Keys - {p}
    ensures r.Ok? ==> forall q | q in r.value :: r.value[q] == fs[q]
  {
    if p !in fs then Err(NotFound(p))
    else if fs[p].Directory? && ChildNames(fs, p) != {} then Err(NotEmpty(p))
    else Ok(fs - {p})
  }

  /**
   * `os.Rename(src, dst)` for a regular file: the node moves, keeping its
   * own owner and mode, and replaces any file at `dst`. Moving whole
   * directories is outside the model.
   */
  function Rename(fs: Fs, src: string, dst: string): (r: Result<Fs, FsError>)
    ensures r.Ok? <==> src in fs && fs[src].File? && (dst in fs ==> fs[dst].File?)
    ensures r.Ok? ==> dst in r.value && r.value[dst] == fs[src]
    ensures r.Ok? ==> r.value.Keys == (fs.Keys - {src}) + {dst}
    ensures r.Ok? ==> forall q | q in r.value && q != dst :: r.value[q] == fs[q]
  {
    if src !in fs then Err(NotFound(src))
    else if !fs[src].File? then Err(NotRegular(src))
    else if dst in fs && !fs[dst].File? then Err(NotRegular(dst))
    else Ok((fs - {src})[dst := fs[src]])
  }

  /** `os.Chown` followed by `os.Chmod`: sets the owner, group and mode of an existing node. */
  function SetMeta(fs: Fs, p: string, meta: Meta): (r: Result<Fs, FsError>)
    ensures r.Ok? <==> p in fs
    ensures r.Ok? ==> r.value.Keys == fs.Keys
    ensures r.Ok? ==> Meta(r.value[p].uid, r.value[p].gid, r.value[p].mode) == meta
    ensures r.Ok? ==> (r.value[p].File? <==> fs[p].File?)
    ensures r.Ok? ==> (fs[p].File? ==> r.value[p].data == fs[p].data)
    ensures r.Ok? ==> forall q | q in fs && q != p :: r.value[q] == fs[q]
  {
    if p !in fs then Err(NotFound(p))
    else
      match fs[p]
      case File(data, _, _, _) => Ok(fs[p := File(data, meta.uid, meta.gid, meta.mode)])
      case Directory(_, _, _) => Ok(fs[p := Directory(meta.uid, meta.gid, meta.mode)])
  }
}
