/**
 * Slash-separated path helpers in the shape of Go's `path/filepath`.
 * `PathJoin` glues a directory and one plain name; `CleanJoin` is
 * `filepath.Join` in full for an absolute directory: empty and `.`
 * components vanish, `..` climbs (and stays at the root), and the result
 * is a clean path.
 */
module Paths {
  import opened Text

  /** A path component that names an entry: not empty, no slash, not `.` or `..`. */
  predicate IsPlainName(n: string) {
    IsName(n) && n != "." && n != ".."
  }

  predicate AllPlain(s: seq<string>) {
    forall i | 0 <= i < |s| :: IsPlainName(s[i])
  }

  /** A component that survives cleaning: not empty, no slash, not `.`; it may be `..`. */
  predicate Component(n: string) {
    IsName(n) && n != "."
  }

  /** The fields of a slash-split path that carry meaning: empty and `.` fields dropped. */
  function Significant(fields: seq<string>): (r: seq<string>)
    requires forall i | 0 <= i < |fields| :: '/' !in fields[i]
    ensures forall i | 0 <= i < |r| :: Component(r[i])
    decreases |fields|
  {
    if |fields| == 0 then []
    else (if fields[0] == "" || fields[0] == "." then [] else [fields[0]]) + Significant(fields[1..])
  }

  /** The components of a path, in order. */
  function Parts(p: string): (r: seq<string>)
    ensures forall i | 0 <= i < |r| :: Component(r[i])
  {
    Significant(Split(p, '/'))
  }

  /**
   * Walking `parts` from the directory `stack`: `..` leaves the current
   * directory (and does nothing at the root), anything else enters it.
   */
  function Resolve(stack: seq<string>, parts: seq<string>): (r: seq<string>)
    requires AllPlain(stack)
    requires forall i | 0 <= i < |parts| :: Component(parts[i])
    ensures AllPlain(r)
    decreases |parts|
  {
    if |parts| == 0 then stack
    else if parts[0] == ".." then Resolve(if |stack| > 0 then stack[..|stack| - 1] else [], parts[1..])
    else
      assert Component(parts[0]);
      Resolve(stack + [parts[0]], parts[1..])
  }

  /** The absolute path of a list of components: "/" for none. */
  function Render(stack: seq<string>): (p: string)
    ensures |p| > 0 && p[0] == '/'
    decreases |stack|
  {
    if |stack| == 0 then "/" else PathJoin(Render(stack[..|stack| - 1]), stack[|stack| - 1])
  }

  /** A clean absolute path: the rendering of its own plain components. */
  predicate IsAbsClean(p: string) {
    AllPlain(Parts(p)) && Render(Parts(p)) == p
  }

  /** `filepath.Join(dir, name)` for an absolute `dir`, cleaned as Go cleans it. */
  function CleanJoin(dir: string, name: string): (r: string)
    ensures IsAbsClean(r)
    ensures r == Render(Parts(r))
  {
    var s := Resolve([], Parts(dir) + Parts(name));
    PartsRender(s);
    Render(s)
  }

  /** Splitting at one separator splits the text on either side of it independently. */
  lemma {:induction false} SplitConcat(a: string, b: string, sep: char)
    ensures Split(a + [sep] + b, sep) == Split(a, sep) + Split(b, sep)
    decreases |a|
  {
    if |a| == 0 {
      assert a + [sep] + b == [sep] + b;
      SplitSepCons(b, sep);
    } else {
      SplitConcat(a[1..], b, sep);
      assert a + [sep] + b == [a[0]] + (a[1..] + [sep] + b);
      assert a == [a[0]] + a[1..];
      SplitConcatStep(a[0], a[1..], b, sep);
    }
  }

  lemma SplitConcatStep(c: char, t: string, b: string, sep: char)
    requires Split(t + [sep] + b, sep) == Split(t, sep) + Split(b, sep)
    ensures Split([c] + (t + [sep] + b), sep) == Split([c] + t, sep) + Split(b, sep)
  {
    if c == sep {
      SplitConcatSep(t, b, sep);
    } else {
      SplitConcatChar(c, t, b, sep);
    }
  }

  lemma SplitConcatSep(t: string, b: string, sep: char)
    requires Split(t + [sep] + b, sep) == Split(t, sep) + Split(b, sep)
    ensures Split([sep] + (t + [sep] + b), sep) == Split([sep] + t, sep) + Split(b, sep)
  {
    SplitSepCons(t + [sep] + b, sep);
    SplitSepCons(t, sep);
  }

  lemma SplitConcatChar(c: char, t: string, b: string, sep: char)
    requires c != sep
    requires Split(t + [sep] + b, sep) == Split(t, sep) + Split(b, sep)
    ensures Split([c] + (t + [sep] + b), sep) == Split([c] + t, sep) + Split(b, sep)
  {
    var st := Split(t, sep);
    var sb := Split(b, sep);
    var sx := Split(t + [sep] + b, sep);
    SplitCons(c, t + [sep] + b, sep);
    SplitCons(c, t, sep);
    var head := [c] + st[0];
    assert sx[0] == st[0];
    assert sx[1..] == st[1..] + sb;
    assert Split([c] + (t + [sep] + b), sep) == [head] + (st[1..] + sb);
    assert Split([c] + t, sep) == [head] + st[1..];
    assert [head] + (st[1..] + sb) == ([head] + st[1..]) + sb;
  }

  lemma {:induction false} SignificantAppend(x: seq<string>, y: seq<string>)
    requires forall i | 0 <= i < |x| :: '/' !in x[i]
    requires forall i | 0 <= i < |y| :: '/' !in y[i]
    ensures forall i | 0 <= i < |x + y| :: '/' !in (x + y)[i]
    ensures Significant(x + y) == Significant(x) + Significant(y)
    decreases |x|
  {
    assert forall i | 0 <= i < |x + y| :: (x + y)[i] == if i < |x| then x[i] else y[i - |x|];
    if |x| == 0 {
      assert x + y == y;
    } else {
      assert (x + y)[1..] == x[1..] + y;
      SignificantAppend(x[1..], y);
    }
  }

  /** Joining two texts with a slash joins their components. */
  lemma PartsConcat(a: string, b: string)
    ensures Parts(a + "/" + b) == Parts(a) + Parts(b)
  {
    SplitConcat(a, b, '/');
    assert a + "/" + b == a + ['/'] + b;
    SignificantAppend(Split(a, '/'), Split(b, '/'));
  }

  /**
   * `filepath.Join(dir, name)` names the path the text `dir/name` names
   * once cleaned: the join does not depend on how the two are glued.
   */
  lemma JoinThroughSlash(dir: string, name: string)
    ensures CleanJoin(dir, name) == CleanJoin("/", dir + "/" + name)
  {
    PartsConcat(dir, name);
    PartsOfRoot();
    assert [] + (Parts(dir) + Parts(name)) == Parts(dir) + Parts(name);
  }

  /** A trailing slash on the directory does not change the join. */
  lemma TrailingSlashIgnored(dir: string, name: string)
    ensures CleanJoin(dir + "/", name) == CleanJoin(dir, name)
  {
    PartsConcat(dir, "");
    PartsOfRoot();
    assert dir + "/" + "" == dir + "/";
    assert Parts(dir) + [] == Parts(dir);
  }

  /** A path ending in a slash and a plain name has its components followed by the name. */
  lemma PartsSnoc(p: string, n: string)
    requires IsPlainName(n)
    ensures Parts(p + "/" + n) == Parts(p) + [n]
  {
    SplitConcat(p, n, '/');
    assert p + "/" + n == p + ['/'] + n;
    SplitAppend(n, "", '/');
    SignificantAppend(Split(p, '/'), [n]);
    assert Significant([n]) == [n];
  }

  /** Plain components render to a path that splits back into them. */
  lemma {:induction false} PartsRender(s: seq<string>)
    requires AllPlain(s)
    ensures Parts(Render(s)) == s
    decreases |s|
  {
    if |s| > 0 {
      var init := s[..|s| - 1];
      var n := s[|s| - 1];
      PartsRender(init);
      var d := Render(init);
      if |init| == 0 {
        assert Render(s) == "/" + n;
        assert "/" + n == "" + "/" + n;
        PartsSnoc("", n);
        assert Parts("") == [] by {
          assert Split("", '/') == [""];
        }
      } else {
        assert d != "/" by {
          assert Parts("/") == [] by {
            assert "/" == "" + ['/'] + "";
            SplitConcat("", "", '/');
          }
        }
        assert Render(s) == d + "/" + n;
        PartsSnoc(d, n);
      }
      assert init + [n] == s;
    }
  }

  /** Components without `..` are entered one after another. */
  lemma {:induction false} ResolvePlain(stack: seq<string>, parts: seq<string>)
    requires AllPlain(stack) && AllPlain(parts)
    ensures Resolve(stack, parts) == stack + parts
    decreases |parts|
  {
    if |parts| > 0 {
      ResolvePlain(stack + [parts[0]], parts[1..]);
      assert stack + [parts[0]] + parts[1..] == stack + parts;
    }
  }

  /** On a clean directory and a plain name, `filepath.Join` is plain concatenation, and stays clean. */
  lemma JoinClean(dir: string, name: string)
    requires IsAbsClean(dir) && IsPlainName(name)
    ensures IsAbsClean(PathJoin(dir, name))
    ensures Parts(PathJoin(dir, name)) == Parts(dir) + [name]
    ensures CleanJoin(dir, name) == PathJoin(dir, name)
  {
    var s := Parts(dir) + [name];
    assert AllPlain(s) by {
      assert forall i | 0 <= i < |s| :: s[i] == if i < |Parts(dir)| then Parts(dir)[i] else name;
    }
    RenderSnoc(Parts(dir), name);
    PartsRender(s);
    PartsOfName(name);
    ResolvePlain([], s);
    assert [] + s == s;
  }

  lemma RenderSnoc(s: seq<string>, n: string)
    ensures Render(s + [n]) == PathJoin(Render(s), n)
  {
    assert (s + [n])[..|s|] == s;
  }

  lemma PartsOfName(n: string)
    requires IsPlainName(n)
    ensures Parts(n) == [n]
  {
    SplitAppend(n, "", '/');
    assert Split(n, '/') == [n];
    assert Significant([n]) == [n] + Significant([]);
  }

  lemma PartsOfRoot()
    ensures Parts("/") == []
    ensures Parts("") == []
  {
    assert "/" == "" + ['/'] + "";
    SplitConcat("", "", '/');
    assert Split("", '/') == [""];
    assert Split("/", '/') == ["", ""];
    assert Significant([""]) == [];
    assert Significant(["", ""]) == [] + Significant([""]);
  }

  /** `/` followed by a plain name has that one component. */
  lemma PartsOfTop(n: string)
    requires IsPlainName(n)
    ensures Parts("/" + n) == [n]
    ensures Parts("/" + n + "/") == [n]
  {
    PartsOfName(n);
    PartsOfRoot();
    assert "/" + n == "" + ['/'] + n;
    SplitConcat("", n, '/');
    SignificantAppend([""], Split(n, '/'));
    assert Significant([""]) == [];
    assert "/" + n + "/" == ("/" + n) + ['/'] + "";
    SplitConcat("/" + n, "", '/');
    SignificantAppend(Split("/" + n, '/'), [""]);
  }

  /** `CleanJoin` is the rendering of the resolved components of both sides. */
  lemma CleanJoinIs(dir: string, name: string, pd: seq<string>, pn: seq<string>, s: seq<string>)
    requires Parts(dir) == pd && Parts(name) == pn
    requires AllPlain(s) && Resolve([], pd + pn) == s
    ensures CleanJoin(dir, name) == Render(s)
  {
  }

  /** Joining "" to the root is the root; a leading or trailing slash on the name is dropped. */
  lemma RootJoins()
    ensures CleanJoin("/", "") == "/"
    ensures CleanJoin("/", "etc") == "/etc"
    ensures CleanJoin("/", "/etc/") == "/etc"
  {
    PartsOfRoot();
    CleanJoinIs("/", "", [], [], []);
    RootJoinsEtc();
    RootJoinsSlashedEtc();
  }

  lemma RenderEtc()
    ensures Render(["etc"]) == "/etc" && PathJoin("/", "etc") == "/etc"
  {
    RenderSnoc([], "etc");
  }

  lemma RootJoinsEtc()
    ensures CleanJoin("/", "etc") == "/etc"
  {
    EtcIsPlain();
    PartsOfRoot();
    PartsOfName("etc");
    ResolveEtc();
    CleanJoinIs("/", "etc", [], ["etc"], ["etc"]);
    RenderEtc();
  }

  lemma PartsOfSlashedEtc()
    ensures Parts("/etc/") == ["etc"]
  {
    EtcIsPlain();
    PartsOfTop("etc");
    assert "/etc/" == "/" + "etc" + "/";
  }

  lemma RootJoinsSlashedEtc()
    ensures CleanJoin("/", "/etc/") == "/etc"
  {
    PartsOfRoot();
    PartsOfSlashedEtc();
    ResolveEtc();
    CleanJoinIs("/", "/etc/", [], ["etc"], ["etc"]);
    RenderEtc();
  }

  lemma ResolveEtc()
    ensures Resolve([], [] + ["etc"]) == ["etc"]
    ensures Resolve([], ["etc", ".."]) == []
    ensures Resolve([], ["..", "etc"]) == ["etc"]
  {
    EtcIsPlain();
    ResolveOne("etc");
    ResolveUp("etc");
    ResolveAtRoot("etc");
  }

  lemma EtcIsPlain()
    ensures IsPlainName("etc") && Component("etc") && Component("..")
  {
    assert "etc" != "." && "etc" != ".." by { assert |"etc"| == 3; }
    assert '/' !in "etc" by { assert "etc" == ['e', 't', 'c']; }
    assert '/' !in ".." by { assert ".." == ['.', '.']; }
  }

  lemma ResolvePush(stack: seq<string>, n: string, rest: seq<string>)
    requires AllPlain(stack) && IsPlainName(n)
    requires forall i | 0 <= i < |rest| :: Component(rest[i])
    ensures forall i | 0 <= i < |[n] + rest| :: Component(([n] + rest)[i])
    ensures Resolve(stack, [n] + rest) == Resolve(stack + [n], rest)
  {
    assert ([n] + rest)[1..] == rest;
    assert forall i | 0 < i < |[n] + rest| :: ([n] + rest)[i] == rest[i - 1];
  }

  lemma ResolvePop(stack: seq<string>, rest: seq<string>)
    requires AllPlain(stack)
    requires forall i | 0 <= i < |rest| :: Component(rest[i])
    ensures forall i | 0 <= i < |[".."] + rest| :: Component(([".."] + rest)[i])
    ensures Resolve(stack, [".."] + rest) == Resolve(if |stack| > 0 then stack[..|stack| - 1] else [], rest)
  {
    EtcIsPlain();
    assert ([".."] + rest)[1..] == rest;
    assert forall i | 0 < i < |[".."] + rest| :: ([".."] + rest)[i] == rest[i - 1];
  }

  lemma ResolveOne(n: string)
    requires IsPlainName(n)
    ensures Resolve([], [] + [n]) == [n]
  {
    ResolvePush([], n, []);
    assert [n] + [] == [n];
    assert [] + [n] == [n];
  }

  lemma ResolveUp(n: string)
    requires IsPlainName(n)
    ensures Resolve([], [n, ".."]) == []
  {
    ResolvePop([n], []);
    ResolvePush([], n, [".."]);
    assert [n] + [".."] == [n, ".."];
    assert [] + [n] == [n];
    assert [n][..0] == [];
  }

  lemma ResolveAtRoot(n: string)
    requires IsPlainName(n)
    ensures Resolve([], ["..", n]) == [n]
  {
    ResolvePop([], [n]);
    assert [".."] + [n] == ["..", n];
    ResolveOne(n);
    assert [] + [n] == [n];
  }

  /** `..` climbs one directory, and no higher than the root. */
  lemma DotDotClimbs()
    ensures CleanJoin("/etc", "..") == "/"
    ensures CleanJoin("/", "../etc") == "/etc"
  {
    ClimbToRoot();
    ClimbAboveRoot();
  }

  lemma ClimbToRoot()
    ensures CleanJoin("/etc", "..") == "/"
  {
    EtcIsPlain();
    PartsOfTop("etc");
    assert "/" + "etc" == "/etc";
    PartsOfDotDot();
    ResolveUp("etc");
    assert ["etc"] + [".."] == ["etc", ".."];
    CleanJoinIs("/etc", "..", ["etc"], [".."], []);
  }

  lemma ClimbAboveRoot()
    ensures CleanJoin("/", "../etc") == "/etc"
  {
    EtcIsPlain();
    PartsOfRoot();
    PartsOfDotDot();
    ResolveAtRoot("etc");
    assert [] + ["..", "etc"] == ["..", "etc"];
    CleanJoinIs("/", "../etc", [], ["..", "etc"], ["etc"]);
    RenderSnoc([], "etc");
    assert [] + ["etc"] == ["etc"];
  }

  lemma PartsOfDotDot()
    ensures Parts("..") == [".."]
    ensures Parts("../etc") == ["..", "etc"]
  {
    SplitAppend("..", "", '/');
    assert Split("..", '/') == [".."];
    assert Significant([".."]) == [".."] + Significant([]);
    assert "../etc" == ".." + ['/'] + "etc";
    SplitConcat("..", "etc", '/');
    PartsOfName("etc");
    SignificantAppend([".."], Split("etc", '/'));
  }

  /** A single path component. */
  predicate IsName(n: string) {
    n != "" && '/' !in n
  }

  /** What a directory's children start with. */
  function ChildPrefix(dir: string): string {
    if dir == "/" then "/" else dir + "/"
  }

  /**
   * Gluing a name onto a directory with one slash; an empty name yields the
   * directory itself. It is `filepath.Join(dir, name)` only when `dir` is
   * clean and `name` is a plain name (`JoinClean`); `CleanJoin` is the
   * general join.
   */
  function PathJoin(dir: string, name: string): string {
    if name == "" then dir else ChildPrefix(dir) + name
  }

  /** Index just past the last slash of `p`, or 0 when there is none. */
  function AfterLastSlash(p: string): (i: nat)
    ensures i <= |p|
    ensures i > 0 ==> p[i - 1] == '/'
    ensures forall j | i <= j < |p| :: p[j] != '/'
    decreases |p|
  {
    if |p| == 0 then 0
    else if p[|p| - 1] == '/' then |p|
    else AfterLastSlash(p[..|p| - 1])
  }

  /** `filepath.Base` of a path without trailing slashes: its last component. */
  function Base(p: string): string {
    if p == "" then "."
    else if p == "/" then "/"
    else p[AfterLastSlash(p)..]
  }

  /** `filepath.Dir` of a clean path: everything before the last slash. */
  function Dir(p: string): string {
    var i := AfterLastSlash(p);
    if i == 0 then "."
    else if i == 1 then "/"
    else p[..i - 1]
  }

  /** Joining a directory and a name and then taking them apart again gives both back. */
  lemma DirBaseOfJoin(dir: string, name: string)
    requires IsAbsClean(dir) && IsName(name)
    ensures Dir(PathJoin(dir, name)) == dir
    ensures Base(PathJoin(dir, name)) == name
  {
    assert dir != "";
    var p := PathJoin(dir, name);
    var k := |ChildPrefix(dir)|;
    assert p[..k] == ChildPrefix(dir);
    assert p[k..] == name;
    assert p[k - 1] == '/';
    AfterLastSlashAt(p, k);
  }

  lemma {:induction false} AfterLastSlashAt(p: string, k: nat)
    requires 0 < k <= |p| && p[k - 1] == '/'
    requires forall j | k <= j < |p| :: p[j] != '/'
    ensures AfterLastSlash(p) == k
    decreases |p|
  {
    if |p| > k {
      AfterLastSlashAt(p[..|p| - 1], k);
    }
  }

  /** The last component of a path: everything after its last slash. */
  function LastName(p: string): string {
    p[AfterLastSlash(p)..]
  }

  lemma LastNameOfJoin(dir: string, name: string)
    requires IsName(name)
    ensures LastName(PathJoin(dir, name)) == name
  {
    var p := PathJoin(dir, name);
    var k := |ChildPrefix(dir)|;
    assert p[..k] == ChildPrefix(dir);
    assert p[k..] == name;
    AfterLastSlashAt(p, k);
  }

  /** A child path is strictly longer than its directory. */
  lemma JoinLonger(dir: string, name: string)
    requires IsName(name)
    ensures |PathJoin(dir, name)| > |dir|
  {
  }

  /** `p` lies strictly inside the directory `top`. */
  predicate Under(p: string, top: string) {
    HasPrefix(p, ChildPrefix(top))
  }

  /** `p` is `top` itself or lies inside it. */
  predicate Within(p: string, top: string) {
    p == top || Under(p, top)
  }

  lemma ChildPrefixOfJoin(dir: string, n: string)
    requires IsName(n)
    ensures ChildPrefix(PathJoin(dir, n)) == ChildPrefix(dir) + n + "/"
  {
    assert |PathJoin(dir, n)| >= 2;
  }

  /** A child lies inside its directory. */
  lemma JoinUnder(dir: string, n: string)
    requires IsName(n)
    ensures Under(PathJoin(dir, n), dir)
  {
    assert PathJoin(dir, n)[..|ChildPrefix(dir)|] == ChildPrefix(dir);
  }

  /** What lies inside a child lies inside the directory. */
  lemma UnderChild(p: string, dir: string, n: string)
    requires IsName(n) && Under(p, PathJoin(dir, n))
    ensures Under(p, dir)
  {
    ChildPrefixOfJoin(dir, n);
    var c := ChildPrefix(dir);
    assert p[..|c|] == (c + n + "/")[..|c|];
  }

  /** What lies within a child lies inside the directory. */
  lemma WithinChild(p: string, dir: string, n: string)
    requires IsName(n) && Within(p, PathJoin(dir, n))
    ensures Under(p, dir)
  {
    if p == PathJoin(dir, n) {
      JoinUnder(dir, n);
    } else {
      UnderChild(p, dir, n);
    }
  }

  /** Within is transitive along a child step. */
  lemma WithinJoin(top: string, base: string, n: string)
    requires IsName(n) && Within(top, base)
    ensures Within(PathJoin(top, n), base)
  {
    JoinUnder(top, n);
    if top != base {
      var c := ChildPrefix(base);
      var q := PathJoin(top, n);
      assert |top| >= |c| && top[..|c|] == c;
      assert |top| > 0;
      assert |ChildPrefix(top)| >= |top|;
      assert q[..|ChildPrefix(top)|] == ChildPrefix(top);
      assert q[..|top|] == top by {
        assert ChildPrefix(top)[..|top|] == top || top == "/";
      }
      assert q[..|c|] == top[..|c|];
    }
  }

  lemma DiffersAt(x: string, w: string, i: nat)
    requires i < |w| && (i >= |x| || x[i] != w[i])
    ensures !HasPrefix(x, w)
  {
    if |w| <= |x| {
      assert x[..|w|][i] == x[i];
    }
  }

  lemma PrefixSlice(x: string, u: string, lo: nat, hi: nat)
    requires HasPrefix(x, u) && lo <= hi <= |u|
    ensures x[lo..hi] == u[lo..hi]
  {
    forall j | lo <= j < hi ensures x[j] == u[j] {
      assert x[..|u|][j] == x[j];
    }
  }

  /** The subtrees of two different children of one directory do not meet. */
  lemma SiblingsApart(x: string, dir: string, t: string, s: string)
    requires IsName(t) && IsName(s) && t != s
    requires Within(x, PathJoin(dir, t))
    ensures !Under(x, PathJoin(dir, s)) && x != PathJoin(dir, s)
  {
    var c := ChildPrefix(dir);
    ChildPrefixOfJoin(dir, t);
    ChildPrefixOfJoin(dir, s);
    var w := c + s + "/";
    var v := c + s;
    assert PathJoin(dir, s) == v;
    assert |x| >= |c| + |t| && x[|c|..|c| + |t|] == t by {
      if x == PathJoin(dir, t) {
        assert x == c + t;
      } else {
        var u := c + t + "/";
        PrefixSlice(x, u, |c|, |c| + |t|);
        assert u[|c|..|c| + |t|] == t;
      }
    }
    assert |x| == |c| + |t| || x[|c| + |t|] == '/' by {
      if x != PathJoin(dir, t) {
        var u := c + t + "/";
        assert x[..|c| + |t| + 1] == u;
        assert x[|c| + |t|] == u[|c| + |t|];
      }
    }
    if |s| < |t| {
      var i := |c| + |s|;
      assert x[i] == t[|s|];
      assert t[|s|] != '/' by { assert t[|s|] in t; }
      assert w[i] == '/';
      DiffersAt(x, w, i);
      assert |x| != |v|;
    } else if |s| > |t| {
      var i := |c| + |t|;
      assert w[i] == s[|t|] && v[i] == s[|t|];
      assert s[|t|] != '/' by { assert s[|t|] in s; }
      DiffersAt(x, w, i);
      assert |x| == |c| + |t| || x[i] != v[i];
    } else {
      var k :| 0 <= k < |s| && s[k] != t[k];
      var i := |c| + k;
      assert x[i] == x[|c|..|c| + |t|][k] == t[k];
      assert w[i] == s[k] && v[i] == s[k];
      DiffersAt(x, w, i);
      assert x[i] != v[i];
    }
  }

  /** A directory is neither inside nor equal to any of its children. */
  lemma ParentNotWithinChild(dir: string, s: string)
    requires IsName(s)
    ensures !Within(dir, PathJoin(dir, s))
  {
    ChildPrefixOfJoin(dir, s);
  }
}
