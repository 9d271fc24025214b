/**
 * `BrowsersCatalog` (pkg/browser/catalog.go): browser engines keyed by
 * name. Go iterates the map in an unspecified order; the lookups that
 * stop at the first hit take that order as an explicit `order` argument.
 */
module BrowserCatalogs {
  import opened Wrappers
  import opened BrowserPackages
  import opened BrowserEngines

  datatype Catalog = Catalog(engines: map<string, Engine>)

  /** `order` is an iteration order of the catalog's map: every key exactly once. */
  ghost predicate Lists(order: seq<string>, c: Catalog) {
    (forall k :: k in order <==> k in c.engines) &&
    (forall i, j | 0 <= i < j < |order| :: order[i] != order[j])
  }

  /** `IsEmpty`. */
  predicate IsEmpty(c: Catalog) {
    |c.engines| == 0
  }

  /** `NewBrowsersCatalog`. */
  function NewCatalog(): (c: Catalog)
    ensures IsEmpty(c)
    ensures forall k :: k !in c.engines
  {
    Catalog(map[])
  }

  /** An empty catalog has no key at all, and a catalog with none is empty. */
  lemma IsEmptyIffNoEngine(c: Catalog)
    ensures IsEmpty(c) <==> forall k :: k !in c.engines
  {
    if !IsEmpty(c) {
      var k :| k in c.engines.Keys;
    }
  }

  /** `GetEngine`: the engine stored under the key. */
  function GetEngine(c: Catalog, name: string): (r: Option<Engine>)
    ensures r.Some? <==> name in c.engines
    ensures r.Some? ==> r.value == c.engines[name]
  {
    if name in c.engines then Some(c.engines[name]) else None
  }

  /**
   * `GetEngine` as written: a scan of the map comparing every key with
   * the name. In any order it finds the same engine as the lookup.
   */
  method GetEngineLoop(c: Catalog, name: string, order: seq<string>) returns (r: Option<Engine>)
    requires Lists(order, c)
    ensures r == GetEngine(c, name)
  {
    for i := 0 to |order|
      invariant forall j | 0 <= j < i :: order[j] != name
    {
      if order[i] == name {
        return Some(c.engines[name]);
      }
    }
    return None;
  }

  /** The first key in `order` whose engine holds the package. */
  function Holder(c: Catalog, pname: string, order: seq<string>): (r: Option<string>)
    ensures r.Some? ==> r.value in order && r.value in c.engines && pname in c.engines[r.value].packages
    ensures r.None? <==> forall k | k in order && k in c.engines :: pname !in c.engines[k].packages
    decreases |order|
  {
    if |order| == 0 then None
    else if order[0] in c.engines && pname in c.engines[order[0]].packages then Some(order[0])
    else
      var r := Holder(c, pname, order[1..]);
      assert forall k | k in order :: k == order[0] || k in order[1..];
      r
  }

  /**
   * `GetEngineAndPackage`: the first engine in iteration order holding
   * the package, with that engine's package; nothing when no engine holds
   * it. An engine is never returned without its package.
   */
  function GetEngineAndPackage(c: Catalog, pname: string, order: seq<string>): (r: Option<(Engine, Package)>)
    ensures r.Some? ==> r.value.0 in c.engines.Values
    ensures r.Some? ==> pname in r.value.0.packages && r.value.1 == r.value.0.packages[pname]
    ensures Lists(order, c) ==> (r.None? <==> forall k | k in c.engines :: pname !in c.engines[k].packages)
  {
    match Holder(c, pname, order)
    case None => None
    case Some(k) => Some((c.engines[k], c.engines[k].packages[pname]))
  }

  /** `GetPackage`: the package from the first engine in iteration order that holds it. */
  function GetPackage(c: Catalog, pname: string, order: seq<string>): (r: Option<Package>)
    ensures r.Some? ==> exists e | e in c.engines.Values :: pname in e.packages && r.value == e.packages[pname]
    ensures Lists(order, c) ==> (r.None? <==> forall k | k in c.engines :: pname !in c.engines[k].packages)
  {
    match Holder(c, pname, order)
    case None => None
    case Some(k) => Some(c.engines[k].packages[pname])
  }

  /** Both lookups, run in the same order, agree on the package. */
  lemma GetPackageAgrees(c: Catalog, pname: string, order: seq<string>)
    ensures GetPackage(c, pname, order).Some? <==> GetEngineAndPackage(c, pname, order).Some?
    ensures GetPackage(c, pname, order).Some? ==> GetPackage(c, pname, order).value == GetEngineAndPackage(c, pname, order).value.1
  {
  }

  lemma {:induction false} HolderUnique(c: Catalog, pname: string, order: seq<string>, k: string)
    requires k in order && k in c.engines && pname in c.engines[k].packages
    requires forall k' | k' in c.engines && pname in c.engines[k'].packages :: k' == k
    ensures Holder(c, pname, order) == Some(k)
    decreases |order|
  {
    if order[0] != k {
      assert k in order[1..];
      HolderUnique(c, pname, order[1..], k);
    }
  }

  /** When a single engine holds the package, every iteration order finds that engine. */
  lemma GetEngineAndPackageUnique(c: Catalog, pname: string, order: seq<string>, k: string)
    requires Lists(order, c)
    requires k in c.engines && pname in c.engines[k].packages
    requires forall k' | k' in c.engines && pname in c.engines[k'].packages :: k' == k
    ensures GetEngineAndPackage(c, pname, order) == Some((c.engines[k], c.engines[k].packages[pname]))
  {
    HolderUnique(c, pname, order, k);
  }

  /** Whether merging `o` into `c` reaches a panicking package merge. */
  predicate MergePanics(c: Catalog, o: Catalog) {
    exists k | k in o.engines && k in c.engines :: MergeEngine(c.engines[k], o.engines[k]).Err?
  }

  /** The engine under `k` after the merge, when no shared key panics. */
  function MergedAt(c: Catalog, o: Catalog, k: string): Engine
    requires k in c.engines || k in o.engines
    requires k in c.engines && k in o.engines ==> MergeEngine(c.engines[k], o.engines[k]).Ok?
  {
    if k in c.engines && k in o.engines then MergeEngine(c.engines[k], o.engines[k]).value
    else if k in c.engines then c.engines[k]
    else o.engines[k]
  }

  /**
   * `BrowsersCatalog.Merge`: every engine key of `o` ends up present; an
   * engine under a key both share is engine-merged, one only in `o` is
   * taken from `o`, and one only in `c` is untouched. A panic in any
   * package merge aborts.
   */
  function Merge(c: Catalog, o: Catalog): (r: Result<Catalog, Panic>)
    ensures r.Err? <==> MergePanics(c, o)
    ensures r.Ok? ==> r.value.engines.Keys == c.engines.Keys + o.engines.Keys
    ensures r.Ok? ==> forall k | k in c.engines && k !in o.engines :: r.value.engines[k] == c.engines[k]
    ensures r.Ok? ==> forall k | k in o.engines && k !in c.engines :: r.value.engines[k] == o.engines[k]
    ensures r.Ok? ==> forall k | k in o.engines && k in c.engines :: Ok(r.value.engines[k]) == MergeEngine(c.engines[k], o.engines[k])
  {
    if MergePanics(c, o) then Err(EmptyOptionPanic)
    else Ok(Catalog(map k | k in c.engines.Keys + o.engines.Keys :: MergedAt(c, o, k)))
  }

  /**
   * The Go loop over `o.Engines` in map order: whatever the order, it
   * gives `Merge`'s catalog, or panics exactly when `Merge` does.
   */
  method MergeLoop(c: Catalog, o: Catalog, order: seq<string>) returns (r: Result<Catalog, Panic>)
    requires Lists(order, o)
    ensures r == Merge(c, o)
  {
    var engines := c.engines;
    ghost var done: set<string> := {};
    for i := 0 to |order|
      invariant done == set j | 0 <= j < i :: order[j]
      invariant forall k :: k in engines <==> k in c.engines || k in done
      invariant forall k | k in engines && k !in done :: engines[k] == c.engines[k]
      invariant forall k | k in done && k in c.engines :: MergeEngine(c.engines[k], o.engines[k]).Ok?
      invariant forall k | k in done :: k in o.engines && engines[k] == MergedAt(c, o, k)
    {
      var k := order[i];
      assert k !in done;
      var current := if k in engines then Some(engines[k]) else None;
      if current.Some? {
        var merged := MergeEngine(current.value, o.engines[k]);
        if merged.Err? {
          assert k in c.engines && engines[k] == c.engines[k];
          assert MergePanics(c, o);
          return Err(EmptyOptionPanic);
        }
        engines := engines[k := merged.value];
      } else {
        engines := engines[k := o.engines[k]];
      }
      done := done + {k};
    }
    assert forall k | k in o.engines :: k in done;
    MergePointwise(c, o, engines);
    r := Ok(Catalog(engines));
  }

  /** Engines holding every key of both catalogs, each merged as `MergedAt` says, are `Merge`'s. */
  lemma MergePointwise(c: Catalog, o: Catalog, engines: map<string, Engine>)
    requires forall k | k in o.engines && k in c.engines :: MergeEngine(c.engines[k], o.engines[k]).Ok?
    requires forall k :: k in engines <==> k in c.engines || k in o.engines
    requires forall k | k in engines :: engines[k] == MergedAt(c, o, k)
    ensures Merge(c, o) == Ok(Catalog(engines))
  {
    assert !MergePanics(c, o);
    var want := map k | k in c.engines.Keys + o.engines.Keys :: MergedAt(c, o, k);
    assert Merge(c, o) == Ok(Catalog(want));
    assert engines.Keys == want.Keys;
    assert engines == want;
  }

  /**
   * `MergeEngine`: the engine is stored under its name when that key is
   * free, and engine-merged into the one there otherwise.
   */
  function MergeOne(c: Catalog, e: Engine): (r: Result<Catalog, Panic>)
    ensures e.name !in c.engines ==> r == Ok(Catalog(c.engines[e.name := e]))
    ensures e.name in c.engines ==> (r.Err? <==> MergeEngine(c.engines[e.name], e).Err?)
    ensures r.Ok? ==> r.value.engines.Keys == c.engines.Keys + {e.name}
    ensures r.Ok? ==> forall k | k in c.engines && k != e.name :: r.value.engines[k] == c.engines[k]
  {
    match GetEngine(c, e.name)
    case None => Ok(Catalog(c.engines[e.name := e]))
    case Some(cur) =>
      match MergeEngine(cur, e)
      case Err(p) => Err(p)
      case Ok(m) => Ok(Catalog(c.engines[e.name := m]))
  }

  /** Merging one engine is merging the catalog holding just that engine under its name. */
  lemma MergeOneIsMerge(c: Catalog, e: Engine)
    ensures MergeOne(c, e) == Merge(c, Catalog(map[e.name := e]))
  {
    var o := Catalog(map[e.name := e]);
    if e.name in c.engines && MergeEngine(c.engines[e.name], e).Err? {
      assert MergePanics(c, o);
    } else {
      assert !MergePanics(c, o);
      var a := MergeOne(c, e).value.engines;
      var b := Merge(c, o).value.engines;
      assert a.Keys == b.Keys;
      assert forall k | k in a :: a[k] == b[k];
      assert a == b;
    }
  }

  /** Merging into an empty catalog yields the other catalog. */
  lemma MergeIntoEmpty(o: Catalog)
    ensures Merge(NewCatalog(), o) == Ok(o)
  {
    var c := NewCatalog();
    assert !MergePanics(c, o);
    var r := Merge(c, o).value.engines;
    assert r.Keys == o.engines.Keys;
    assert forall k | k in r :: r[k] == o.engines[k];
    assert r == o.engines;
  }
}
