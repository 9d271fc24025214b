/**
 * `BrowserEngine` (pkg/browser/engine.go): a browser engine's packages,
 * keyed by package name, and the options the engine offers.
 */
module BrowserEngines {
  import opened Wrappers
  import opened Tools
  import opened BrowserPackages

  datatype Engine = Engine(name: string, packages: map<string, Package>, options: seq<Opt>)

  /** `NewBrowserEngine`. */
  function NewEngine(name: string): (e: Engine)
    ensures e.name == name && |e.packages| == 0 && |e.options| == 0
  {
    Engine(name, map[], [])
  }

  /** `SetPackage`: stored under its own name, replacing any package there. */
  function SetPackage(e: Engine, p: Package): (r: Engine)
    ensures r.packages.Keys == e.packages.Keys + {p.name}
    ensures r.packages[p.name] == p
    ensures forall k | k in e.packages && k != p.name :: r.packages[k] == e.packages[k]
    ensures r.name == e.name && r.options == e.options
  {
    e.(packages := e.packages[p.name := p])
  }

  /** `NumPackages`. */
  function NumPackages(e: Engine): nat {
    |e.packages|
  }

  /** `GetPackage`: the package stored under the key, if any. */
  function GetPackage(e: Engine, pname: string): (r: Option<Package>)
    ensures r.Some? <==> pname in e.packages
    ensures r.Some? ==> r.value == e.packages[pname]
  {
    if pname in e.packages then Some(e.packages[pname]) else None
  }

  /** Storing a package makes it retrievable, and counts it once. */
  lemma SetThenGet(e: Engine, p: Package, q: string)
    ensures GetPackage(SetPackage(e, p), p.name) == Some(p)
    ensures q != p.name ==> GetPackage(SetPackage(e, p), q) == GetPackage(e, q)
    ensures NumPackages(SetPackage(e, p)) == NumPackages(e) + (if p.name in e.packages then 0 else 1)
  {
  }

  /** The options marked as defaults, in order. */
  function DefaultOptions(opts: seq<Opt>): (r: seq<Opt>)
    ensures |r| <= |opts|
    ensures forall o :: o in r <==> o in opts && o.isDefault
    decreases |opts|
  {
    if |opts| == 0 then []
    else
      var rest := DefaultOptions(opts[1..]);
      assert forall o | o in opts :: o == opts[0] || o in opts[1..];
      if opts[0].isDefault then [opts[0]] + rest else rest
  }

  /** `s` occurs in `t` in order, possibly with gaps. */
  predicate Subsequence(s: seq<Opt>, t: seq<Opt>)
    decreases |t|
  {
    |s| == 0 || (|t| > 0 && (if s[0] == t[0] then Subsequence(s[1..], t[1..]) else Subsequence(s, t[1..])))
  }

  lemma {:induction false} DefaultOptionsSubsequence(opts: seq<Opt>)
    ensures Subsequence(DefaultOptions(opts), opts)
    decreases |opts|
  {
    if |opts| > 0 {
      DefaultOptionsSubsequence(opts[1..]);
      var rest := DefaultOptions(opts[1..]);
      if opts[0].isDefault {
        assert DefaultOptions(opts) == [opts[0]] + rest;
        assert ([opts[0]] + rest)[1..] == rest;
      } else if |rest| > 0 {
        assert rest[0] in rest && rest[0].isDefault;
      }
    }
  }

  lemma {:induction false} DefaultOptionsAppend(a: seq<Opt>, b: seq<Opt>)
    ensures DefaultOptions(a + b) == DefaultOptions(a) + DefaultOptions(b)
    decreases |a|
  {
    if |a| == 0 {
      assert a + b == b;
    } else {
      assert (a + b)[1..] == a[1..] + b;
      DefaultOptionsAppend(a[1..], b);
    }
  }

  /**
   * `GetDefaultOptions` as written: the loop keeps, in order, exactly the
   * options whose `Default` flag is set.
   */
  method GetDefaultOptions(e: Engine) returns (ans: seq<Opt>)
    ensures ans == DefaultOptions(e.options)
    ensures Subsequence(ans, e.options)
    ensures forall o :: o in ans <==> o in e.options && o.isDefault
  {
    ans := [];
    for i := 0 to |e.options|
      invariant ans == DefaultOptions(e.options[..i])
    {
      assert e.options[..i + 1] == e.options[..i] + [e.options[i]];
      DefaultOptionsAppend(e.options[..i], [e.options[i]]);
      assert DefaultOptions([e.options[i]]) == (if e.options[i].isDefault then [e.options[i]] else []) by {
        assert [e.options[i]][1..] == [];
      }
      if e.options[i].isDefault {
        ans := ans + [e.options[i]];
      }
    }
    assert e.options[..|e.options|] == e.options;
    DefaultOptionsSubsequence(e.options);
  }

  /** A panic while merging two packages: an option with no string. */
  datatype Panic = EmptyOptionPanic

  /**
   * The package `Engine.Merge` keeps under a shared key: the merge of the
   * two, or `e`'s own package when the names differ (the error is
   * dropped); a panic is passed on.
   */
  function MergeShared(p: Package, m: Package): (r: Result<Package, Panic>)
    ensures r.Err? <==> Merge(p, m) == Err(EmptyOption)
    ensures r.Ok? && p.name != m.name ==> r.value == p
    ensures r.Ok? && p.name == m.name ==> Merge(p, m) == Ok(r.value)
  {
    match Merge(p, m)
    case Ok(q) => Ok(q)
    case Err(NameMismatch(_, _)) => Ok(p)
    case Err(EmptyOption) => Err(EmptyOptionPanic)
  }

  /** Whether merging `m`'s packages into `e` reaches a panicking package merge. */
  predicate MergePanics(e: map<string, Package>, m: map<string, Package>) {
    exists k | k in m && k in e :: MergeShared(e[k], m[k]).Err?
  }

  /** The package under `k` after the merge, when no shared key panics. */
  function MergedAt(e: map<string, Package>, m: map<string, Package>, k: string): Package
    requires k in e || k in m
    requires k in e && k in m ==> MergeShared(e[k], m[k]).Ok?
  {
    if k in e && k in m then MergeShared(e[k], m[k]).value
    else if k in e then e[k]
    else m[k]
  }

  /**
   * `BrowserEngine.Merge`: the keys become the union; a key only in `e`
   * keeps its package, a key only in `m` takes `m`'s, and a shared key
   * holds the package merge. Name and options are untouched. A panic in
   * any package merge aborts.
   */
  function MergeEngine(e: Engine, m: Engine): (r: Result<Engine, Panic>)
    ensures r.Err? <==> MergePanics(e.packages, m.packages)
    ensures r.Ok? ==> r.value.name == e.name && r.value.options == e.options
    ensures r.Ok? ==> r.value.packages.Keys == e.packages.Keys + m.packages.Keys
    ensures r.Ok? ==> forall k | k in e.packages && k !in m.packages :: r.value.packages[k] == e.packages[k]
    ensures r.Ok? ==> forall k | k in m.packages && k !in e.packages :: r.value.packages[k] == m.packages[k]
    ensures r.Ok? ==> forall k | k in m.packages && k in e.packages :: Ok(r.value.packages[k]) == MergeShared(e.packages[k], m.packages[k])
  {
    if MergePanics(e.packages, m.packages) then Err(EmptyOptionPanic)
    else
      Ok(e.(packages := map k | k in e.packages.Keys + m.packages.Keys :: MergedAt(e.packages, m.packages, k)))
  }

  /**
   * The Go loop over `m.Packages` in map order: whatever the order, it
   * yields the same engine as `MergeEngine`, or panics exactly when
   * `MergeEngine` does.
   */
  method MergeEngineLoop(e: Engine, m: Engine, order: seq<string>) returns (r: Result<Engine, Panic>)
    requires forall k :: k in order <==> k in m.packages
    requires forall i, j | 0 <= i < j < |order| :: order[i] != order[j]
    ensures r == MergeEngine(e, m)
  {
    var pkgs := e.packages;
    ghost var done: set<string> := {};
    for i := 0 to |order|
      invariant done == set j | 0 <= j < i :: order[j]
      invariant forall k :: k in pkgs <==> k in e.packages || k in done
      invariant forall k | k in pkgs && k !in done :: pkgs[k] == e.packages[k]
      invariant forall k | k in done && k in e.packages :: MergeShared(e.packages[k], m.packages[k]).Ok?
      invariant forall k | k in done :: k in m.packages && pkgs[k] == MergedAt(e.packages, m.packages, k)
    {
      var k := order[i];
      assert k !in done;
      if k in pkgs {
        var merged := MergeShared(pkgs[k], m.packages[k]);
        if merged.Err? {
          assert k in e.packages && k in m.packages && pkgs[k] == e.packages[k];
          assert MergePanics(e.packages, m.packages);
          return Err(EmptyOptionPanic);
        }
        pkgs := pkgs[k := merged.value];
      } else {
        pkgs := pkgs[k := m.packages[k]];
      }
      done := done + {k};
    }
    assert forall k | k in m.packages :: k in done;
    MergeEnginePointwise(e, m, pkgs);
    r := Ok(e.(packages := pkgs));
  }

  /** Packages holding every key of both engines, each merged as `MergedAt` says, are `MergeEngine`'s. */
  lemma MergeEnginePointwise(e: Engine, m: Engine, pkgs: map<string, Package>)
    requires forall k | k in e.packages && k in m.packages :: MergeShared(e.packages[k], m.packages[k]).Ok?
    requires forall k :: k in pkgs <==> k in e.packages || k in m.packages
    requires forall k | k in pkgs :: pkgs[k] == MergedAt(e.packages, m.packages, k)
    ensures MergeEngine(e, m) == Ok(e.(packages := pkgs))
  {
    assert !MergePanics(e.packages, m.packages);
    var want := map k | k in e.packages.Keys + m.packages.Keys :: MergedAt(e.packages, m.packages, k);
    assert MergeEngine(e, m) == Ok(e.(packages := want));
    assert pkgs.Keys == want.Keys;
    assert pkgs == want;
  }

  /** What `WriteConfig` produced: the engine afterwards, the marshalled text written, and the error. */
  datatype Written = Written(engine: Engine, data: Option<string>, err: Option<string>)

  /**
   * `WriteConfig`: the options are emptied while the engine is
   * marshalled, so the file never lists them. They are restored after a
   * marshal error and after writing, but not when creating the directory
   * fails. `dirStat` is the stat of the file's directory, `mkdirErr`,
   * `writeErr` the outcome of creating it and of writing; `marshal` is the
   * YAML encoder, which is not part of this model.
   */
  function WriteConfig(e: Engine, dirStat: StatOutcome, mkdirErr: Option<string>, marshal: Engine -> Result<string, string>, writeErr: Option<string>): (r: Written)
    ensures r.data.Some? ==> marshal(e.(options := [])) == Ok(r.data.value)
    ensures (!Exists(dirStat) && mkdirErr.Some?) ==> r == Written(e.(options := []), None, mkdirErr)
    ensures !(!Exists(dirStat) && mkdirErr.Some?) ==> r.engine == e
    ensures r.err.None? <==> (Exists(dirStat) || mkdirErr.None?) && marshal(e.(options := [])).Ok? && writeErr.None?
  {
    var bare := e.(options := []);
    if !Exists(dirStat) && mkdirErr.Some? then Written(bare, None, mkdirErr)
    else
      match marshal(bare)
      case Err(msg) => Written(e, None, Some(msg))
      case Ok(data) => Written(e, Some(data), writeErr)
  }
}
