/**
 * The aggregation half of env-update (pkg/portage/envs.go): merging two
 * values of a list-like variable, and folding the parsed files of
 * /etc/env.d into one environment. Parsing one file runs a shell
 * interpreter and is an input here.
 */
module Envs {
  import opened Wrappers
  import opened Text
  import opened Tools
  import opened Paths
  import opened Files

  type Env = map<string, string>

  function Elems(s: seq<string>): set<string> {
    set x | x in s
  }

  /** The fields not yet in `seen`, each once, in their first-occurrence order. */
  function Dedupe(fields: seq<string>, seen: set<string>): (r: seq<string>)
    ensures forall x :: x in r <==> x in fields && x !in seen
    ensures forall i, j | 0 <= i < j < |r| :: r[i] != r[j]
    ensures |r| <= |fields|
    decreases |fields|
  {
    if |fields| == 0 then []
    else if fields[0] in seen then Dedupe(fields[1..], seen)
    else [fields[0]] + Dedupe(fields[1..], seen + {fields[0]})
  }

  /** Deduplicating a concatenation is deduplicating each part, the second against all of the first. */
  lemma {:induction false} DedupeAppend(a: seq<string>, b: seq<string>, seen: set<string>)
    ensures Dedupe(a + b, seen) == Dedupe(a, seen) + Dedupe(b, seen + Elems(a))
    decreases |a|
  {
    if |a| == 0 {
      assert a + b == b;
      assert seen + Elems(a) == seen;
    } else {
      assert (a + b)[1..] == a[1..] + b;
      if a[0] in seen {
        DedupeAppend(a[1..], b, seen);
        assert seen + Elems(a[1..]) == seen + Elems(a);
      } else {
        DedupeAppend(a[1..], b, seen + {a[0]});
        assert seen + {a[0]} + Elems(a[1..]) == seen + Elems(a);
      }
    }
  }

  lemma {:induction false} DedupeAllSeen(fields: seq<string>, seen: set<string>)
    requires forall x | x in fields :: x in seen
    ensures Dedupe(fields, seen) == []
    decreases |fields|
  {
    if |fields| > 0 {
      assert fields[0] in seen;
      DedupeAllSeen(fields[1..], seen);
    }
  }

  /**
   * `mergeEnvValues(new, prev, sep)`: an empty previous value yields the
   * new one; otherwise the previous fields, duplicates kept, then each new
   * field not already present, once, in the new value's order.
   */
  function MergeEnvValues(newValue: string, prevValue: string, sep: char): (r: string)
    ensures prevValue == "" ==> r == newValue
    ensures prevValue != "" ==> Split(r, sep) == Split(prevValue, sep) + Dedupe(Split(newValue, sep), Elems(Split(prevValue, sep)))
  {
    if prevValue == "" then newValue
    else
      var parts := Split(prevValue, sep) + Dedupe(Split(newValue, sep), Elems(Split(prevValue, sep)));
      assert forall i | 0 <= i < |parts| :: sep !in parts[i] by {
        forall i | 0 <= i < |parts|
          ensures sep !in parts[i]
        {
          if i >= |Split(prevValue, sep)| {
            var d := Dedupe(Split(newValue, sep), Elems(Split(prevValue, sep)));
            assert parts[i] == d[i - |Split(prevValue, sep)|];
            assert parts[i] in Split(newValue, sep);
          }
        }
      }
      SplitJoin(parts, sep);
      Join(parts, [sep])
  }

  /** Only the empty string splits into a single empty field. */
  lemma SplitOnlyEmpty(s: string, sep: char)
    ensures Split(s, sep) == [""] <==> s == ""
  {
    JoinSplit(s, sep);
    assert Join([""], [sep]) == "";
  }

  /** With a non-empty previous value every field of both inputs survives. */
  lemma MergeKeepsEveryField(newValue: string, prevValue: string, sep: char)
    requires prevValue != ""
    ensures forall x | x in Split(prevValue, sep) :: x in Split(MergeEnvValues(newValue, prevValue, sep), sep)
    ensures forall x | x in Split(newValue, sep) :: x in Split(MergeEnvValues(newValue, prevValue, sep), sep)
  {
  }

  lemma MergeNotEmpty(newValue: string, prevValue: string, sep: char)
    requires prevValue != ""
    ensures MergeEnvValues(newValue, prevValue, sep) != ""
  {
    var p := Split(prevValue, sep);
    var d := Dedupe(Split(newValue, sep), Elems(p));
    SplitOnlyEmpty(prevValue, sep);
    SplitOnlyEmpty(MergeEnvValues(newValue, prevValue, sep), sep);
    assert p + d != [""] by {
      if |p + d| == 1 {
        assert p + d == p;
      }
    }
  }

  /** Merging the same new value a second time changes nothing. */
  lemma MergeIdempotent(newValue: string, prevValue: string, sep: char)
    ensures MergeEnvValues(newValue, MergeEnvValues(newValue, prevValue, sep), sep) == MergeEnvValues(newValue, prevValue, sep)
  {
    var r := MergeEnvValues(newValue, prevValue, sep);
    var n := Split(newValue, sep);
    if prevValue == "" {
      if newValue != "" {
        DedupeAllSeen(n, Elems(n));
        assert n + [] == n;
        JoinSplit(newValue, sep);
        SplitOnlyEmpty(newValue, sep);
        SplitJoin(n, sep);
      }
    } else {
      MergeNotEmpty(newValue, prevValue, sep);
      var p := Split(prevValue, sep);
      var d := Dedupe(n, Elems(p));
      assert Split(r, sep) == p + d;
      DedupeAllSeen(n, Elems(p + d));
      assert Split(r, sep) + [] == Split(r, sep);
      JoinSplit(r, sep);
      SplitJoin(Split(r, sep), sep);
    }
  }

  /**
   * Merging an empty new value into a non-empty previous one adds a
   * trailing empty field, unless the previous value already had one.
   */
  lemma MergeEmptyNew(prevValue: string, sep: char)
    requires prevValue != ""
    ensures "" in Split(prevValue, sep) ==> MergeEnvValues("", prevValue, sep) == prevValue
    ensures "" !in Split(prevValue, sep) ==> MergeEnvValues("", prevValue, sep) == prevValue + [sep]
  {
    var p := Split(prevValue, sep);
    var r := MergeEnvValues("", prevValue, sep);
    assert Split("", sep) == [""];
    JoinSplit(prevValue, sep);
    JoinSplit(r, sep);
    if "" in p {
      assert Dedupe([""], Elems(p)) == [];
      assert p + [] == p;
    } else {
      assert Dedupe([""], Elems(p)) == [""];
      JoinSnoc(p, "", [sep]);
    }
  }

  lemma ElemsSnoc(a: seq<string>, x: string)
    ensures Elems(a + [x]) == Elems(a) + {x}
  {
  }

  /** One more field is kept exactly when neither `seen` nor the earlier fields hold it. */
  lemma DedupeSnoc(a: seq<string>, x: string, seen: set<string>)
    ensures Dedupe(a + [x], seen) == Dedupe(a, seen) + (if x in seen + Elems(a) then [] else [x])
  {
    DedupeAppend(a, [x], seen);
    assert Dedupe([x], seen + Elems(a)) == (if x in seen + Elems(a) then [] else [x]) by {
      assert [x][1..] == [];
    }
  }

  /** The first loop of `mergeEnvValues`: every previous field, kept, and the set of them. */
  method CollectFields(fields: seq<string>) returns (values: seq<string>, m: set<string>)
    ensures values == fields && m == Elems(fields)
  {
    m := {};
    values := [];
    for i := 0 to |fields|
      invariant values == fields[..i]
      invariant m == Elems(fields[..i])
    {
      assert fields[..i + 1] == fields[..i] + [fields[i]];
      ElemsSnoc(fields[..i], fields[i]);
      m := m + {fields[i]};
      values := values + [fields[i]];
    }
    assert fields[..|fields|] == fields;
  }

  /** The second loop of `mergeEnvValues`: each new field not yet seen is appended and marked seen. */
  method AppendUnseen(values: seq<string>, m: set<string>, fields: seq<string>) returns (r: seq<string>, seen: set<string>)
    ensures r == values + Dedupe(fields, m)
    ensures seen == m + Elems(fields)
  {
    r := values;
    seen := m;
    for j := 0 to |fields|
      invariant r == values + Dedupe(fields[..j], m)
      invariant seen == m + Elems(fields[..j])
    {
      var x := fields[j];
      ghost var done := fields[..j];
      assert fields[..j + 1] == done + [x];
      DedupeSnoc(done, x, m);
      ElemsSnoc(done, x);
      if x !in seen {
        seen := seen + {x};
        r := r + [x];
      }
    }
    assert fields[..|fields|] == fields;
  }

  /** `mergeEnvValues` as written, with its two loops; it computes `MergeEnvValues`. */
  method MergeEnvValuesLoop(newValue: string, prevValue: string, sep: char) returns (ans: string)
    ensures ans == MergeEnvValues(newValue, prevValue, sep)
  {
    if prevValue == "" {
      return newValue;
    }
    var values, m := CollectFields(Split(prevValue, sep));
    values, m := AppendUnseen(values, m, Split(newValue, sep));
    ans := Join(values, [sep]);
  }

  /** `^[0-9][0-9].*`: the names of /etc/env.d that are read. */
  predicate IsEnvdName(name: string) {
    |name| >= 2 && '0' <= name[0] <= '9' && '0' <= name[1] <= '9'
  }

  /** The entries `ParseEnvd` reads, in listing order: files whose names start with two digits. */
  function EnvdNames(entries: seq<Entry>): (names: seq<string>)
    ensures forall n :: n in names <==> exists e | e in entries :: e.name == n && !e.isDir && IsEnvdName(n)
    ensures |names| <= |entries|
    decreases |entries|
  {
    if |entries| == 0 then []
    else
      var rest := EnvdNames(entries[1..]);
      assert forall e | e in entries :: e == entries[0] || e in entries[1..];
      if !entries[0].isDir && IsEnvdName(entries[0].name) then [entries[0].name] + rest else rest
  }

  /** The parse of one env file: the variables it sets, or the parser's message. */
  type Parser = string -> Result<Env, string>

  /** Each selected file parsed in order; the first failure aborts. */
  function ParseAll(parse: Parser, dir: string, names: seq<string>): (r: Result<seq<Env>, string>)
    ensures r.Ok? ==> |r.value| == |names| && forall i | 0 <= i < |names| :: parse(PathJoin(dir, names[i])) == Ok(r.value[i])
    ensures r.Err? ==> exists i | 0 <= i < |names| :: parse(PathJoin(dir, names[i])) == Err(r.error)
    ensures r.Err? <==> exists i | 0 <= i < |names| :: parse(PathJoin(dir, names[i])).Err?
    decreases |names|
  {
    if |names| == 0 then Ok([])
    else
      match parse(PathJoin(dir, names[0]))
      case Err(e) => Err(e)
      case Ok(m) =>
        match ParseAll(parse, dir, names[1..])
        case Err(e) =>
          assert forall i | 0 <= i < |names[1..]| :: names[1..][i] == names[i + 1];
          Err(e)
        case Ok(ms) =>
          assert forall i | 1 <= i < |names| :: names[i] == names[1..][i - 1];
          Ok([m] + ms)
  }

  /** The separator a repeated variable is merged with. */
  function SepFor(k: string, colonSeparated: seq<string>): char {
    if KeyInList(k, colonSeparated) then ':' else ' '
  }

  /** The value `k` has after one more file sets it to `v`. */
  function Combine(ans: Env, k: string, v: string, singleValue: seq<string>, colonSeparated: seq<string>): string {
    if KeyInList(k, singleValue) || k !in ans then v
    else MergeEnvValues(v, ans[k], SepFor(k, colonSeparated))
  }

  /** Folding one parsed file into the environment collected so far. */
  function MergeEnvMap(ans: Env, m: Env, singleValue: seq<string>, colonSeparated: seq<string>): (r: Env)
    ensures r.Keys == ans.Keys + m.Keys
    ensures forall k | k in ans && k !in m :: r[k] == ans[k]
    ensures forall k | k in m && (KeyInList(k, singleValue) || k !in ans) :: r[k] == m[k]
    ensures forall k | k in m && !KeyInList(k, singleValue) && k in ans ::
      r[k] == MergeEnvValues(m[k], ans[k], if KeyInList(k, colonSeparated) then ':' else ' ')
  {
    map k | k in ans.Keys + m.Keys :: if k in m then Combine(ans, k, m[k], singleValue, colonSeparated) else ans[k]
  }

  /**
   * The inner loop of `ParseEnvd` as written, visiting the file's keys in
   * the order Go's map iteration yields them. Whatever that order, it
   * computes `MergeEnvMap`: each key is touched once and only at itself.
   */
  method MergeEnvMapLoop(ans: Env, m: Env, order: seq<string>, singleValue: seq<string>, colonSeparated: seq<string>) returns (r: Env)
    requires forall k :: k in order <==> k in m
    requires forall i, j | 0 <= i < j < |order| :: order[i] != order[j]
    ensures r == MergeEnvMap(ans, m, singleValue, colonSeparated)
  {
    r := ans;
    ghost var done: set<string> := {};
    for i := 0 to |order|
      invariant done == set j | 0 <= j < i :: order[j]
      invariant forall k :: k in r <==> k in ans || k in done
      invariant forall k | k in r && k !in done :: r[k] == ans[k]
      invariant forall k | k in done :: k in m && r[k] == Combine(ans, k, m[k], singleValue, colonSeparated)
    {
      var k := order[i];
      assert k !in done;
      var v := m[k];
      if KeyInList(k, singleValue) {
        r := r[k := v];
      } else if k in r {
        r := r[k := MergeEnvValues(v, r[k], SepFor(k, colonSeparated))];
      } else {
        r := r[k := v];
      }
      done := done + {k};
    }
    assert forall k | k in m :: k in done;
    MergeEnvMapPointwise(ans, m, singleValue, colonSeparated, r);
  }

  /** A map agreeing with `MergeEnvMap` on its keys and at each key is `MergeEnvMap`. */
  lemma MergeEnvMapPointwise(ans: Env, m: Env, singleValue: seq<string>, colonSeparated: seq<string>, r: Env)
    requires forall k :: k in r <==> k in ans || k in m
    requires forall k | k in r && k !in m :: r[k] == ans[k]
    requires forall k | k in m :: r[k] == Combine(ans, k, m[k], singleValue, colonSeparated)
    ensures r == MergeEnvMap(ans, m, singleValue, colonSeparated)
  {
  }

  /** The files folded in listing order, starting from `ans`. */
  function FoldEnv(ans: Env, ms: seq<Env>, singleValue: seq<string>, colonSeparated: seq<string>): (r: Env)
    decreases |ms|
  {
    if |ms| == 0 then ans
    else FoldEnv(MergeEnvMap(ans, ms[0], singleValue, colonSeparated), ms[1..], singleValue, colonSeparated)
  }

  /** The environment holds exactly the variables some file sets. */
  lemma {:induction false} FoldEnvKeys(ans: Env, ms: seq<Env>, singleValue: seq<string>, colonSeparated: seq<string>)
    ensures forall k :: k in FoldEnv(ans, ms, singleValue, colonSeparated) <==> k in ans || exists i | 0 <= i < |ms| :: k in ms[i]
    decreases |ms|
  {
    if |ms| > 0 {
      FoldEnvKeys(MergeEnvMap(ans, ms[0], singleValue, colonSeparated), ms[1..], singleValue, colonSeparated);
      assert forall i | 1 <= i < |ms| :: ms[i] == ms[1..][i - 1];
      assert forall i | 0 <= i < |ms[1..]| :: ms[1..][i] == ms[i + 1];
    }
  }

  /** A variable no later file sets keeps its value. */
  lemma {:induction false} FoldEnvUntouched(ans: Env, ms: seq<Env>, singleValue: seq<string>, colonSeparated: seq<string>, k: string)
    requires k in ans
    requires forall i | 0 <= i < |ms| :: k !in ms[i]
    ensures k in FoldEnv(ans, ms, singleValue, colonSeparated)
    ensures FoldEnv(ans, ms, singleValue, colonSeparated)[k] == ans[k]
    decreases |ms|
  {
    if |ms| > 0 {
      FoldEnvUntouched(MergeEnvMap(ans, ms[0], singleValue, colonSeparated), ms[1..], singleValue, colonSeparated, k);
    }
  }

  /** A single-value variable ends with the value of the last file that sets it. */
  lemma {:induction false} SingleValueLastWins(ans: Env, ms: seq<Env>, singleValue: seq<string>, colonSeparated: seq<string>, k: string, j: nat)
    requires KeyInList(k, singleValue)
    requires j < |ms| && k in ms[j]
    requires forall i | j < i < |ms| :: k !in ms[i]
    ensures k in FoldEnv(ans, ms, singleValue, colonSeparated)
    ensures FoldEnv(ans, ms, singleValue, colonSeparated)[k] == ms[j][k]
    decreases |ms|
  {
    var next := MergeEnvMap(ans, ms[0], singleValue, colonSeparated);
    if j == 0 {
      FoldEnvUntouched(next, ms[1..], singleValue, colonSeparated, k);
    } else {
      SingleValueLastWins(next, ms[1..], singleValue, colonSeparated, k, j - 1);
    }
  }

  /** A variable set by exactly one file, and not before, is stored verbatim. */
  lemma {:induction false} FirstOccurrenceVerbatim(ans: Env, ms: seq<Env>, singleValue: seq<string>, colonSeparated: seq<string>, k: string, j: nat)
    requires k !in ans
    requires j < |ms| && k in ms[j]
    requires forall i | 0 <= i < |ms| && i != j :: k !in ms[i]
    ensures k in FoldEnv(ans, ms, singleValue, colonSeparated)
    ensures FoldEnv(ans, ms, singleValue, colonSeparated)[k] == ms[j][k]
    decreases |ms|
  {
    var next := MergeEnvMap(ans, ms[0], singleValue, colonSeparated);
    if j == 0 {
      FoldEnvUntouched(next, ms[1..], singleValue, colonSeparated, k);
    } else {
      FirstOccurrenceVerbatim(next, ms[1..], singleValue, colonSeparated, k, j - 1);
    }
  }

  /** A list-like variable already collected, set by exactly one later file, is merged with that file's value. */
  lemma {:induction false} FoldEnvMergedOnce(ans: Env, ms: seq<Env>, singleValue: seq<string>, colonSeparated: seq<string>, k: string, i: nat)
    requires !KeyInList(k, singleValue) && k in ans
    requires i < |ms| && k in ms[i]
    requires forall l | 0 <= l < |ms| && l != i :: k !in ms[l]
    ensures k in FoldEnv(ans, ms, singleValue, colonSeparated)
    ensures FoldEnv(ans, ms, singleValue, colonSeparated)[k] == MergeEnvValues(ms[i][k], ans[k], SepFor(k, colonSeparated))
    decreases |ms|
  {
    var next := MergeEnvMap(ans, ms[0], singleValue, colonSeparated);
    if i == 0 {
      FoldEnvUntouched(next, ms[1..], singleValue, colonSeparated, k);
    } else {
      FoldEnvMergedOnce(next, ms[1..], singleValue, colonSeparated, k, i - 1);
    }
  }

  /**
   * A list-like variable set by two files, and by nothing else, ends as the
   * first file's value merged with the second's: the separator is `:` for
   * the colon-separated variables and a space otherwise.
   */
  lemma {:induction false} TwoFilesMerge(ans: Env, ms: seq<Env>, singleValue: seq<string>, colonSeparated: seq<string>, k: string, j: nat, i: nat)
    requires !KeyInList(k, singleValue) && k !in ans
    requires j < i < |ms| && k in ms[j] && k in ms[i]
    requires forall l | 0 <= l < |ms| && l != j && l != i :: k !in ms[l]
    ensures k in FoldEnv(ans, ms, singleValue, colonSeparated)
    ensures FoldEnv(ans, ms, singleValue, colonSeparated)[k] == MergeEnvValues(ms[i][k], ms[j][k], SepFor(k, colonSeparated))
    decreases |ms|
  {
    var next := MergeEnvMap(ans, ms[0], singleValue, colonSeparated);
    if j == 0 {
      FoldEnvMergedOnce(next, ms[1..], singleValue, colonSeparated, k, i - 1);
    } else {
      TwoFilesMerge(next, ms[1..], singleValue, colonSeparated, k, j - 1, i - 1);
    }
  }

  /** Two different single-field values are joined by the separator, the earlier one first. */
  lemma MergeTwoPlainValues(prev: string, next: string, sep: char)
    requires prev != "" && next != "" && prev != next
    requires sep !in prev && sep !in next
    ensures MergeEnvValues(next, prev, sep) == prev + [sep] + next
  {
    SplitAppend(prev, "", sep);
    SplitAppend(next, "", sep);
    assert Split(prev, sep) == [prev];
    assert Split(next, sep) == [next];
    assert Elems([prev]) == {prev};
    assert Dedupe([next], {prev}) == [next];
    assert Join([prev, next], [sep]) == prev + [sep] + next by {
      JoinCons(prev, [next], [sep]);
    }
  }

  /** `ParseAll` fails exactly when some selected name fails to parse. */
  lemma ParseAllFailsIff(parse: Parser, dir: string, names: seq<string>)
    ensures ParseAll(parse, dir, names).Err? <==> exists n | n in names :: parse(PathJoin(dir, n)).Err?
  {
    if ParseAll(parse, dir, names).Err? {
      var i :| 0 <= i < |names| && parse(PathJoin(dir, names[i])).Err?;
      assert names[i] in names;
    } else {
      forall n | n in names
        ensures parse(PathJoin(dir, n)).Ok?
      {
        var i :| 0 <= i < |names| && names[i] == n;
      }
    }
  }

  datatype EnvdError = ReadFailed(fsError: FsError) | ParseFailed(message: string)

  /**
   * `ParseEnvd`: list /etc/env.d, parse the selected files in listing
   * order and fold them; a listing or parse failure aborts.
   */
  function ParseEnvd(fs: Fs, envDir: string, singleValue: seq<string>, colonSeparated: seq<string>, parse: Parser): (r: Result<Env, EnvdError>)
    ensures ReadDir(fs, envDir).Err? ==> r.Err? && r.error.ReadFailed?
    ensures ReadDir(fs, envDir).Ok? ==>
      (r.Err? <==> exists n | n in EnvdNames(ReadDir(fs, envDir).value) :: parse(PathJoin(envDir, n)).Err?)
  {
    match ReadDir(fs, envDir)
    case Err(e) => Err(ReadFailed(e))
    case Ok(entries) =>
      var names := EnvdNames(entries);
      ParseAllFailsIff(parse, envDir, names);
      match ParseAll(parse, envDir, names)
      case Err(msg) => Err(ParseFailed(msg))
      case Ok(ms) => Ok(FoldEnv(map[], ms, singleValue, colonSeparated))
  }

  lemma {:induction false} ParseAllAgrees(p1: Parser, p2: Parser, dir: string, names: seq<string>)
    requires forall n | n in names :: p1(PathJoin(dir, n)) == p2(PathJoin(dir, n))
    ensures ParseAll(p1, dir, names) == ParseAll(p2, dir, names)
    decreases |names|
  {
    if |names| > 0 {
      assert names[0] in names;
      ParseAllAgrees(p1, p2, dir, names[1..]);
    }
  }

  /** Only the selected files are read: parsers that agree on them give the same environment. */
  lemma ParseEnvdReadsOnlySelected(fs: Fs, envDir: string, singleValue: seq<string>, colonSeparated: seq<string>, p1: Parser, p2: Parser)
    requires ReadDir(fs, envDir).Ok?
    requires forall n | n in EnvdNames(ReadDir(fs, envDir).value) :: p1(PathJoin(envDir, n)) == p2(PathJoin(envDir, n))
    ensures ParseEnvd(fs, envDir, singleValue, colonSeparated, p1) == ParseEnvd(fs, envDir, singleValue, colonSeparated, p2)
  {
    ParseAllAgrees(p1, p2, envDir, EnvdNames(ReadDir(fs, envDir).value));
  }
}
