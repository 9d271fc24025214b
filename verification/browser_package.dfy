/**
 * The browser option catalog's data (pkg/browser/definition.go) and the
 * operations on one package (pkg/browser/package.go). Go's references
 * become values: an operation that mutates its receiver returns the new
 * value instead.
 */
module BrowserPackages {
  import opened Wrappers

  /** `BrowserOpt`: one start flag, possibly spelled with several strings. */
  datatype Opt = Opt(description: string, isDefault: bool, option: seq<string>)

  /** `BrowserPackage`. */
  datatype Package = Package(name: string, binary: string, source: string, version: string, enabledOptions: seq<Opt>)

  /** `HasOptions`. */
  predicate HasOptions(p: Package) {
    |p.enabledOptions| > 0
  }

  /** `ClearOptions`: the package with no enabled option. */
  function ClearOptions(p: Package): (r: Package)
    ensures !HasOptions(r)
    ensures r.(enabledOptions := p.enabledOptions) == p
  {
    p.(enabledOptions := [])
  }

  /**
   * `SetEnabledOptions`: the list replaced by `opts`, each option passed
   * through `BrowserOpt.Minimize`, which is not part of this model and is
   * an input here.
   */
  function SetEnabledOptions(p: Package, opts: seq<Opt>, minimize: Opt -> Opt): (r: Package)
    ensures |r.enabledOptions| == |opts|
    ensures forall i | 0 <= i < |opts| :: r.enabledOptions[i] == minimize(opts[i])
    ensures r.(enabledOptions := p.enabledOptions) == p
  {
    p.(enabledOptions := seq(|opts|, i requires 0 <= i < |opts| => minimize(opts[i])))
  }

  /** Setting options makes `HasOptions` hold exactly when the new list is non-empty, and clearing undoes it. */
  lemma OptionsLifecycle(p: Package, opts: seq<Opt>, minimize: Opt -> Opt)
    ensures HasOptions(SetEnabledOptions(p, opts, minimize)) <==> |opts| > 0
    ensures ClearOptions(SetEnabledOptions(p, opts, minimize)) == ClearOptions(p)
  {
  }

  /** Every string of every option, in order: the reference for `GetAllOptions` without its prefix. */
  function Flatten(opts: seq<Opt>): (flat: seq<string>)
    decreases |opts|
  {
    if |opts| == 0 then [] else opts[0].option + Flatten(opts[1..])
  }

  /** The total number of strings over a list of options. */
  function Count(opts: seq<Opt>): nat
    decreases |opts|
  {
    if |opts| == 0 then 0 else |opts[0].option| + Count(opts[1..])
  }

  lemma {:induction false} FlattenAppend(a: seq<Opt>, b: seq<Opt>)
    ensures Flatten(a + b) == Flatten(a) + Flatten(b)
    ensures Count(a + b) == Count(a) + Count(b)
    decreases |a|
  {
    if |a| == 0 {
      assert a + b == b;
    } else {
      assert (a + b)[1..] == a[1..] + b;
      FlattenAppend(a[1..], b);
    }
  }

  lemma {:induction false} FlattenCount(opts: seq<Opt>)
    ensures |Flatten(opts)| == Count(opts)
    decreases |opts|
  {
    if |opts| > 0 {
      FlattenCount(opts[1..]);
    }
  }

  function Prefixed(dash: string, strs: seq<string>): (r: seq<string>)
    ensures |r| == |strs|
    ensures forall i | 0 <= i < |strs| :: r[i] == dash + strs[i]
  {
    seq(|strs|, i requires 0 <= i < |strs| => dash + strs[i])
  }

  /**
   * `GetAllOptions(dash)` as written: two nested loops appending `dash`
   * plus each string. The result is every string of every enabled option,
   * in order, each prefixed, so its length is the sum of the option
   * lengths.
   */
  method GetAllOptions(p: Package, dash: string) returns (ans: seq<string>)
    ensures ans == Prefixed(dash, Flatten(p.enabledOptions))
    ensures |ans| == Count(p.enabledOptions)
  {
    var opts := p.enabledOptions;
    ans := [];
    for i := 0 to |opts|
      invariant ans == Prefixed(dash, Flatten(opts[..i]))
    {
      var before := ans;
      for j := 0 to |opts[i].option|
        invariant ans == before + Prefixed(dash, opts[i].option[..j])
      {
        assert opts[i].option[..j + 1] == opts[i].option[..j] + [opts[i].option[j]];
        ans := ans + [dash + opts[i].option[j]];
      }
      assert opts[i].option[..|opts[i].option|] == opts[i].option;
      assert opts[..i + 1] == opts[..i] + [opts[i]];
      FlattenAppend(opts[..i], [opts[i]]);
      assert Flatten([opts[i]]) == opts[i].option + Flatten([]);
    }
    assert opts[..|opts|] == opts;
    FlattenCount(opts);
  }

  /** The strings of a list of options as a function, for the other modules: `GetAllOptions`' result. */
  function AllOptions(p: Package, dash: string): (r: seq<string>)
    ensures |r| == Count(p.enabledOptions)
    ensures forall i | 0 <= i < |r| :: |r[i]| >= |dash| && r[i][..|dash|] == dash
  {
    FlattenCount(p.enabledOptions);
    Prefixed(dash, Flatten(p.enabledOptions))
  }

  /** Every option has at least one string, so `Option[0]` can be read. */
  predicate Headed(opts: seq<Opt>) {
    forall i | 0 <= i < |opts| :: |opts[i].option| > 0
  }

  /** The first strings of the options: the keys of `Merge`'s lookup map. */
  function Heads(opts: seq<Opt>): (h: set<string>)
    requires Headed(opts)
    ensures forall i | 0 <= i < |opts| :: opts[i].option[0] in h
    ensures forall x | x in h :: exists i | 0 <= i < |opts| :: opts[i].option[0] == x
  {
    set i | 0 <= i < |opts| :: opts[i].option[0]
  }

  /** The options of `m` whose head is not in `heads`, in `m`'s order; the set is not extended on the way. */
  function NewOptions(m: seq<Opt>, heads: set<string>): (r: seq<Opt>)
    requires Headed(m)
    ensures Headed(r)
    ensures forall o :: o in r <==> o in m && o.option[0] !in heads
    ensures |r| <= |m|
    decreases |m|
  {
    if |m| == 0 then []
    else
      var rest := NewOptions(m[1..], heads);
      assert forall o | o in m :: o == m[0] || o in m[1..];
      if m[0].option[0] in heads then rest else [m[0]] + rest
  }

  /** One option is kept exactly when its head is new. */
  lemma NewOptionsSingle(o: Opt, heads: set<string>)
    requires |o.option| > 0
    ensures NewOptions([o], heads) == if o.option[0] in heads then [] else [o]
  {
  }

  /**
   * Filtering distributes over concatenation; with `NewOptionsSingle` this
   * pins the result down as `m` with the known heads dropped, in `m`'s order.
   */
  lemma {:induction false} NewOptionsAppend(a: seq<Opt>, b: seq<Opt>, heads: set<string>)
    requires Headed(a) && Headed(b)
    ensures Headed(a + b)
    ensures NewOptions(a + b, heads) == NewOptions(a, heads) + NewOptions(b, heads)
    decreases |a|
  {
    HeadedAppend(a, b);
    if |a| == 0 {
      assert a + b == b;
    } else {
      var ab := a + b;
      assert ab[0] == a[0];
      assert ab[1..] == a[1..] + b;
      NewOptionsAppend(a[1..], b, heads);
      assert NewOptions(ab, heads) == (if a[0].option[0] in heads then [] else [a[0]]) + NewOptions(ab[1..], heads);
      assert NewOptions(a, heads) == (if a[0].option[0] in heads then [] else [a[0]]) + NewOptions(a[1..], heads);
    }
  }

  lemma HeadedAppend(a: seq<Opt>, b: seq<Opt>)
    requires Headed(a) && Headed(b)
    ensures Headed(a + b)
  {
    forall i | 0 <= i < |a + b| ensures |(a + b)[i].option| > 0 {
      if i >= |a| {
        assert (a + b)[i] == b[i - |a|];
      }
    }
  }

  datatype MergeError =
    /** The two packages have different names. */
    | NameMismatch(name: string, other: string)
    /** An option with no string: `Option[0]` is out of range and Go panics. */
    | EmptyOption

  /**
   * `BrowserPackage.Merge`: packages with different names are an error;
   * otherwise `p`'s options are kept in order and each option of `m`
   * whose head is not a head of `p` is appended, in `m`'s order. An
   * option without strings in either list makes the head lookup panic.
   */
  function Merge(p: Package, m: Package): (r: Result<Package, MergeError>)
    ensures p.name != m.name <==> r == Err(NameMismatch(p.name, m.name))
    ensures p.name == m.name ==> (r.Err? <==> !Headed(p.enabledOptions) || !Headed(m.enabledOptions))
    ensures r.Ok? ==> r.value.(enabledOptions := p.enabledOptions) == p
    ensures r.Ok? ==> |r.value.enabledOptions| >= |p.enabledOptions| && r.value.enabledOptions[..|p.enabledOptions|] == p.enabledOptions
    ensures r.Ok? ==> r.value.enabledOptions[|p.enabledOptions|..] == NewOptions(m.enabledOptions, Heads(p.enabledOptions))
  {
    if p.name != m.name then Err(NameMismatch(p.name, m.name))
    else if !Headed(p.enabledOptions) || !Headed(m.enabledOptions) then Err(EmptyOption)
    else
      var added := NewOptions(m.enabledOptions, Heads(p.enabledOptions));
      assert (p.enabledOptions + added)[..|p.enabledOptions|] == p.enabledOptions;
      Ok(p.(enabledOptions := p.enabledOptions + added))
  }

  /**
   * The appended options are exactly those of `m` whose head `p` lacks:
   * any of them is kept, and no option of `m` whose head `p` has is added.
   */
  lemma MergeAppendsNewHeads(p: Package, m: Package, o: Opt)
    requires Merge(p, m).Ok?
    ensures o in m.enabledOptions && o.option[0] !in Heads(p.enabledOptions) ==> o in Merge(p, m).value.enabledOptions
    ensures o in Merge(p, m).value.enabledOptions ==>
      o in p.enabledOptions || (o in m.enabledOptions && o.option[0] !in Heads(p.enabledOptions))
  {
  }

  /** Two options of `m` with the same new head are both appended: the heads are not updated while appending. */
  lemma MergeKeepsRepeatedHeads(p: Package, o1: Opt, o2: Opt)
    requires Headed(p.enabledOptions) && |o1.option| > 0 && |o2.option| > 0
    requires o1.option[0] == o2.option[0] && o1.option[0] !in Heads(p.enabledOptions)
    ensures var m := p.(enabledOptions := [o1, o2]);
      Merge(p, m) == Ok(p.(enabledOptions := p.enabledOptions + [o1, o2]))
  {
    var h := Heads(p.enabledOptions);
    assert [o1, o2][1..] == [o2];
    assert [o2][1..] == [];
    assert NewOptions([o2], h) == [o2];
    assert NewOptions([o1, o2], h) == [o1, o2];
  }

  lemma {:induction false} NewOptionsCovered(m: seq<Opt>, heads: set<string>)
    requires Headed(m)
    requires forall i | 0 <= i < |m| :: m[i].option[0] in heads
    ensures NewOptions(m, heads) == []
    decreases |m|
  {
    if |m| > 0 {
      NewOptionsCovered(m[1..], heads);
    }
  }

  /** Merging the same package again changes nothing: every head it brought is now present. */
  lemma MergeIdempotent(p: Package, m: Package)
    requires Merge(p, m).Ok?
    ensures Merge(Merge(p, m).value, m) == Merge(p, m)
  {
    var q := Merge(p, m).value;
    MergedCoversHeads(p, m);
    NewOptionsCovered(m.enabledOptions, Heads(q.enabledOptions));
    assert q.enabledOptions + [] == q.enabledOptions;
  }

  /** After a merge every head of `m` is a head of the result. */
  lemma MergedCoversHeads(p: Package, m: Package)
    requires Merge(p, m).Ok?
    ensures forall i | 0 <= i < |m.enabledOptions| :: m.enabledOptions[i].option[0] in Heads(Merge(p, m).value.enabledOptions)
  {
    var q := Merge(p, m).value;
    var added := NewOptions(m.enabledOptions, Heads(p.enabledOptions));
    assert q.enabledOptions == p.enabledOptions + added;
    forall i | 0 <= i < |m.enabledOptions|
      ensures m.enabledOptions[i].option[0] in Heads(q.enabledOptions)
    {
      var o := m.enabledOptions[i];
      if o.option[0] in Heads(p.enabledOptions) {
        var j :| 0 <= j < |p.enabledOptions| && p.enabledOptions[j].option[0] == o.option[0];
        assert q.enabledOptions[j] == p.enabledOptions[j];
      } else {
        assert o in added;
        var j :| 0 <= j < |added| && added[j] == o;
        assert q.enabledOptions[|p.enabledOptions| + j] == o;
      }
    }
  }

  /** A package merged with itself is unchanged. */
  lemma MergeSelf(p: Package)
    requires Headed(p.enabledOptions)
    ensures Merge(p, p) == Ok(p)
  {
    NewOptionsCovered(p.enabledOptions, Heads(p.enabledOptions));
    assert p.enabledOptions + [] == p.enabledOptions;
  }
}
