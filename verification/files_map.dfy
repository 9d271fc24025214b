/**
 * The `FilesMap` of an etc-update run (pkg/portage/etc-update.go): each
 * original configuration file mapped to the staged replacements still
 * waiting for a decision, and `DelFileConfig`, the only operation that
 * takes entries out of it one candidate at a time.
 */
module FilesMaps {

  type FilesMap = map<string, seq<string>>

  /** A key is present exactly when it still has candidates. */
  predicate ValidMap(m: FilesMap) {
    forall k | k in m :: |m[k]| > 0
  }

  /** The list with every occurrence of `x` dropped and the rest kept in order. */
  function Without(s: seq<string>, x: string): (r: seq<string>)
    ensures |r| <= |s|
    ensures forall y :: y in r <==> y in s && y != x
    decreases |s|
  {
    if |s| == 0 then []
    else if s[0] == x then Without(s[1..], x)
    else [s[0]] + Without(s[1..], x)
  }

  /** Dropping distributes over concatenation, so the survivors keep their relative order. */
  lemma {:induction false} WithoutAppend(a: seq<string>, b: seq<string>, x: string)
    ensures Without(a + b, x) == Without(a, x) + Without(b, x)
    decreases |a|
  {
    if |a| == 0 {
      assert a + b == b;
    } else {
      assert (a + b)[1..] == a[1..] + b;
      WithoutAppend(a[1..], b, x);
    }
  }

  /** Each survivor keeps its multiplicity; only `x` disappears. */
  lemma {:induction false} WithoutCounts(s: seq<string>, x: string)
    ensures multiset(Without(s, x))[x] == 0
    ensures forall y | y != x :: multiset(Without(s, x))[y] == multiset(s)[y]
    decreases |s|
  {
    if |s| > 0 {
      WithoutCounts(s[1..], x);
      assert s == [s[0]] + s[1..];
    }
  }

  /** A list without `x` is left as it is. */
  lemma {:induction false} WithoutAbsent(s: seq<string>, x: string)
    requires x !in s
    ensures Without(s, x) == s
    decreases |s|
  {
    if |s| > 0 {
      WithoutAbsent(s[1..], x);
      assert s == [s[0]] + s[1..];
    }
  }

  /** Dropping the same candidate twice changes nothing the second time. */
  lemma WithoutIdempotent(s: seq<string>, x: string)
    ensures Without(Without(s, x), x) == Without(s, x)
  {
    WithoutAbsent(Without(s, x), x);
  }

  /**
   * `DelFileConfig(f, cfg)`: drops every occurrence of `cfg` from `f`'s
   * list, deleting the key once the list is empty; other keys, and an
   * absent `f`, are left alone.
   */
  function DelFileConfig(m: FilesMap, f: string, cfg: string): (r: FilesMap)
    ensures f !in m ==> r == m
    ensures forall k | k != f :: (k in r <==> k in m) && (k in r ==> r[k] == m[k])
    ensures f in m ==> (f in r <==> exists c | c in m[f] :: c != cfg)
    ensures f in r ==> r[f] == Without(m[f], cfg) && cfg !in r[f]
    ensures ValidMap(m) ==> ValidMap(r)
  {
    if f !in m then m
    else
      var rest := Without(m[f], cfg);
      if |rest| == 0 then
        m - {f}
      else
        assert rest[0] in m[f] && rest[0] != cfg;
        m[f := rest]
  }

  /** Deleting a candidate never adds keys and every remaining list only shrinks. */
  predicate Shrinks(m: FilesMap, r: FilesMap) {
    (forall k | k in r :: k in m)
    && (forall k | k in r :: forall c | c in r[k] :: c in m[k])
  }

  lemma ShrinksTransitive(a: FilesMap, b: FilesMap, c: FilesMap)
    requires Shrinks(a, b) && Shrinks(b, c)
    ensures Shrinks(a, c)
  {
  }

  lemma DelFileConfigShrinks(m: FilesMap, f: string, cfg: string)
    ensures Shrinks(m, DelFileConfig(m, f, cfg))
  {
  }
}
