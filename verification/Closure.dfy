/** The dependency closure of the measured enclave image, computed from a lockfile by a worklist. */
module Closure {
  import opened Wrappers
  import opened Lex
  import opened Listing
  import opened Strings

  /** A package is identified by name, version and source. */
  datatype Package = Package(name: string, version: string, source: string)

  /** A dependency entry; version and source are written only where needed to tell packages apart. */
  datatype Dependency = Dependency(name: string, version: Option<string>, source: Option<string>)

  type Lockfile = map<Package, seq<Dependency>>

  predicate Matches(d: Dependency, p: Package) {
    && p.name == d.name
    && (d.version.None? || d.version.value == p.version)
    && (d.source.None? || d.source.value == p.source)
  }

  /** A full entry matches one package; each part left out matches whatever stands there. */
  lemma MatchesExactly(n: string, v: string, s: string, p: Package)
    ensures Matches(Dependency(n, Some(v), Some(s)), p) <==> p == Package(n, v, s)
    ensures Matches(Dependency(n, Some(v), None), p) <==> p == Package(n, v, p.source)
    ensures Matches(Dependency(n, None, Some(s)), p) <==> p == Package(n, p.version, s)
    ensures Matches(Dependency(n, None, None), p) <==> p == Package(n, p.version, p.source)
  {
  }

  function Dependencies(pkgs: Lockfile, p: Package): seq<Dependency> {
    if p in pkgs then pkgs[p] else []
  }

  predicate Edge(pkgs: Lockfile, a: Package, b: Package) {
    b in pkgs && exists i :: 0 <= i < |Dependencies(pkgs, a)| && Matches(Dependencies(pkgs, a)[i], b)
  }

  predicate IsRoot(pkgs: Lockfile, root: string, p: Package) {
    p in pkgs && p.name == root
  }

  /** A chain of dependencies from some root package. */
  ghost predicate IsPath(pkgs: Lockfile, root: string, path: seq<Package>) {
    && |path| > 0 && IsRoot(pkgs, root, path[0])
    && forall i :: 0 <= i < |path| - 1 ==> Edge(pkgs, path[i], path[i + 1])
  }

  ghost predicate Reachable(pkgs: Lockfile, root: string, p: Package) {
    exists path :: IsPath(pkgs, root, path) && path[|path| - 1] == p
  }

  lemma RootReachable(pkgs: Lockfile, root: string, p: Package)
    requires IsRoot(pkgs, root, p)
    ensures Reachable(pkgs, root, p)
  {
    assert IsPath(pkgs, root, [p]);
  }

  lemma EdgeReachable(pkgs: Lockfile, root: string, a: Package, b: Package)
    requires Reachable(pkgs, root, a) && Edge(pkgs, a, b)
    ensures Reachable(pkgs, root, b)
  {
    hide Edge, IsRoot;
    var path :| IsPath(pkgs, root, path) && path[|path| - 1] == a;
    assert IsPath(pkgs, root, path + [b]);
  }

  /** A set with every root and closed under edges holds everything reachable. */
  ghost predicate Closed(pkgs: Lockfile, root: string, s: set<Package>) {
    && (forall p :: IsRoot(pkgs, root, p) ==> p in s)
    && (forall a, b :: a in s && Edge(pkgs, a, b) ==> b in s)
  }

  lemma {:induction false} ClosedHoldsPath(pkgs: Lockfile, root: string, s: set<Package>, path: seq<Package>)
    requires Closed(pkgs, root, s) && IsPath(pkgs, root, path)
    ensures path[|path| - 1] in s
    decreases |path|
  {
    hide Edge, IsRoot;
    if |path| > 1 {
      var n := |path| - 1;
      ClosedHoldsPath(pkgs, root, s, path[..n]);
      assert Edge(pkgs, path[n - 1], path[n]);
    }
  }

  lemma ClosedHoldsReachable(pkgs: Lockfile, root: string, s: set<Package>, p: Package)
    requires Closed(pkgs, root, s) && Reachable(pkgs, root, p)
    ensures p in s
  {
    var path :| IsPath(pkgs, root, path) && path[|path| - 1] == p;
    ClosedHoldsPath(pkgs, root, s, path);
  }

  // ---------------------------------------------------------------- the index by name

  type Index = map<string, seq<Package>>

  function Named(byName: Index, name: string): seq<Package> {
    if name in byName then byName[name] else []
  }

  ghost predicate Indexes(byName: Index, keys: seq<Package>) {
    forall name, p :: p in Named(byName, name) <==> p in keys && p.name == name
  }

  method IndexByName(keys: seq<Package>) returns (byName: Index)
    ensures Indexes(byName, keys)
  {
    byName := map[];
    for i := 0 to |keys|
      invariant Indexes(byName, keys[..i])
    {
      var k := keys[i];
      IndexStep(byName, keys[..i], k);
      byName := byName[k.name := Named(byName, k.name) + [k]];
      assert keys[..i + 1] == keys[..i] + [k];
    }
    assert keys[..|keys|] == keys;
  }

  lemma IndexStep(byName: Index, keys: seq<Package>, k: Package)
    requires Indexes(byName, keys)
    ensures Indexes(byName[k.name := Named(byName, k.name) + [k]], keys + [k])
  {
    var after := byName[k.name := Named(byName, k.name) + [k]];
    forall name, p ensures p in Named(after, name) <==> p in keys + [k] && p.name == name {
      assert p in Named(byName, name) <==> p in keys && p.name == name;
      assert Named(after, name) == if name == k.name then Named(byName, name) + [k] else Named(byName, name);
      assert p in Named(byName, name) + [k] <==> p in Named(byName, name) || p == k;
      assert p in keys + [k] <==> p in keys || p == k;
    }
  }

  function Candidates(options: seq<Package>, d: Dependency): (r: seq<Package>)
    ensures forall p :: p in r <==> p in options && Matches(d, p)
  {
    if |options| == 0 then []
    else
      var rest := Candidates(options[1..], d);
      assert forall p :: p in options <==> p == options[0] || p in options[1..];
      if Matches(d, options[0]) then [options[0]] + rest else rest
  }

  function Unseen(options: seq<Package>, seen: set<Package>): (r: seq<Package>)
    ensures forall p :: p in r <==> p in options && p !in seen
  {
    if |options| == 0 then []
    else
      var rest := Unseen(options[1..], seen);
      assert forall p :: p in options <==> p == options[0] || p in options[1..];
      if options[0] !in seen then [options[0]] + rest else rest
  }

  // ---------------------------------------------------------------- the worklist

  /** Everything on the stack is reachable, and what has been seen leads only to what was seen or is on the stack. */
  ghost predicate Frontier(pkgs: Lockfile, root: string, seen: set<Package>, stack: seq<Package>) {
    && (forall p :: p in seen ==> p in pkgs && Reachable(pkgs, root, p))
    && (forall p :: p in stack ==> p in pkgs && Reachable(pkgs, root, p))
    && (forall p :: IsRoot(pkgs, root, p) ==> p in seen || p in stack)
    && (forall a, b :: a in seen && Edge(pkgs, a, b) ==> b in seen || b in stack)
  }

  lemma FrontierStart(pkgs: Lockfile, keys: seq<Package>, byName: Index, root: string)
    requires Lists(keys, pkgs.Keys) && Indexes(byName, keys)
    ensures Frontier(pkgs, root, {}, Named(byName, root))
  {
    hide Reachable;
    forall p | p in Named(byName, root) ensures p in pkgs && Reachable(pkgs, root, p) {
      RootReachable(pkgs, root, p);
    }
  }

  lemma FrontierTop(pkgs: Lockfile, root: string, seen: set<Package>, rest: seq<Package>, key: Package)
    requires Frontier(pkgs, root, seen, rest + [key])
    ensures key in pkgs && (key in seen ==> Frontier(pkgs, root, seen, rest))
  {
    hide Reachable, Edge, IsRoot;
    var stack := rest + [key];
    assert stack[|rest|] == key;
    assert forall p :: p in stack <==> p in rest || p == key;
  }

  lemma FrontierEmpty(pkgs: Lockfile, root: string, seen: set<Package>)
    requires Frontier(pkgs, root, seen, [])
    ensures forall p :: p in seen <==> Reachable(pkgs, root, p)
  {
    hide Reachable, Edge, IsRoot;
    assert Closed(pkgs, root, seen);
    forall p | Reachable(pkgs, root, p) ensures p in seen {
      ClosedHoldsReachable(pkgs, root, seen, p);
    }
  }

  /** The stack may hold a package many times: unseen packages, then stack length, decrease. */
  method Walk(pkgs: Lockfile, keys: seq<Package>, byName: Index, root: string) returns (seen: set<Package>)
    requires Lists(keys, pkgs.Keys) && Indexes(byName, keys)
    ensures forall p :: p in seen <==> Reachable(pkgs, root, p)
  {
    hide Frontier, Reachable, Lists, Indexes, Edge;
    seen := {};
    var stack := Named(byName, root);
    FrontierStart(pkgs, keys, byName, root);
    while |stack| > 0
      invariant Frontier(pkgs, root, seen, stack)
      decreases pkgs.Keys - seen, |stack|
    {
      var key, rest := stack[|stack| - 1], stack[..|stack| - 1];
      assert stack == rest + [key];
      FrontierTop(pkgs, root, seen, rest, key);
      if key in seen {
        stack := rest;
      } else {
        stack := PushSuccessors(pkgs, keys, byName, key, seen + {key}, rest);
        Advance(pkgs, root, seen, rest, key, stack);
        seen := seen + {key};
      }
    }
    assert stack == [];
    FrontierEmpty(pkgs, root, seen);
  }

  /** Pushes every unseen successor, and nothing but successors. */
  method PushSuccessors(
    pkgs: Lockfile, keys: seq<Package>, byName: Index, key: Package, seen: set<Package>, stack: seq<Package>)
    returns (pushed: seq<Package>)
    requires Lists(keys, pkgs.Keys) && Indexes(byName, keys)
    ensures forall p :: p in pushed <==> p in stack || (Edge(pkgs, key, p) && p !in seen)
  {
    pushed := stack;
    var deps := Dependencies(pkgs, key);
    for i := 0 to |deps|
      invariant forall p :: p in pushed <==> p in stack || (p in pkgs && p !in seen && MatchesSome(deps[..i], p))
    {
      var more := Unseen(Candidates(Named(byName, deps[i].name), deps[i]), seen);
      pushed := pushed + more;
      forall p ensures p in more <==> p in pkgs && p !in seen && Matches(deps[i], p) {
        assert p in Named(byName, deps[i].name) <==> p in keys && p.name == deps[i].name;
      }
      forall p ensures MatchesSome(deps[..i + 1], p) <==> MatchesSome(deps[..i], p) || Matches(deps[i], p) {
        MatchesOneMore(deps, i, p);
      }
    }
    assert deps[..|deps|] == deps;
  }

  predicate MatchesSome(deps: seq<Dependency>, p: Package) {
    exists i :: 0 <= i < |deps| && Matches(deps[i], p)
  }

  lemma MatchesOneMore(deps: seq<Dependency>, i: nat, p: Package)
    requires i < |deps|
    ensures MatchesSome(deps[..i + 1], p) <==> MatchesSome(deps[..i], p) || Matches(deps[i], p)
  {
    hide Matches;
    if MatchesSome(deps[..i + 1], p) {
      var k :| 0 <= k < |deps[..i + 1]| && Matches(deps[..i + 1][k], p);
      if k < i {
        assert Matches(deps[..i][k], p);
      }
    }
    if MatchesSome(deps[..i], p) {
      var k :| 0 <= k < |deps[..i]| && Matches(deps[..i][k], p);
      assert Matches(deps[..i + 1][k], p);
    }
    if Matches(deps[i], p) {
      assert Matches(deps[..i + 1][i], p);
    }
  }

  lemma Advance(pkgs: Lockfile, root: string, seen: set<Package>, rest: seq<Package>, key: Package, stack: seq<Package>)
    requires Frontier(pkgs, root, seen, rest + [key])
    requires forall p :: p in stack <==> p in rest || (Edge(pkgs, key, p) && p !in seen + {key})
    ensures Frontier(pkgs, root, seen + {key}, stack)
  {
    hide Edge, IsRoot;
    var old_ := rest + [key];
    assert old_[|rest|] == key;
    forall p | p in stack ensures p in pkgs && Reachable(pkgs, root, p) {
      if p in rest {
        assert p in old_;
      } else {
        EdgeReachable(pkgs, root, key, p);
        EdgeInPkgs(pkgs, key, p);
      }
    }
  }

  lemma EdgeInPkgs(pkgs: Lockfile, a: Package, b: Package)
    requires Edge(pkgs, a, b)
    ensures b in pkgs
  {
  }

  // ---------------------------------------------------------------- the rendering

  function Render(p: Package): string {
    p.name + " " + p.version + " (" + p.source + ")"
  }

  function Codes(s: string): (c: seq<int>)
    ensures |c| == |s| && forall i :: 0 <= i < |s| ==> c[i] == s[i] as int
  {
    seq(|s|, i requires 0 <= i < |s| => s[i] as int)
  }

  /** Code point order. */
  predicate AtMost(a: string, b: string) {
    a == b || Less(Codes(a), Codes(b))
  }

  lemma AtMostTotal(a: string, b: string)
    ensures AtMost(a, b) || AtMost(b, a)
    ensures AtMost(a, b) && AtMost(b, a) ==> a == b
  {
    LessTotal(Codes(a), Codes(b));
    if Codes(a) == Codes(b) {
      assert forall i :: 0 <= i < |a| ==> Codes(a)[i] == Codes(b)[i];
    }
    LessIrreflexive(Codes(a));
    if Less(Codes(a), Codes(b)) && Less(Codes(b), Codes(a)) {
      LessTransitive(Codes(a), Codes(b), Codes(a));
    }
  }

  lemma AtMostTransitive(a: string, b: string, c: string)
    requires AtMost(a, b) && AtMost(b, c)
    ensures AtMost(a, c)
  {
    if a != b && b != c {
      LessTransitive(Codes(a), Codes(b), Codes(c));
    }
  }

  ghost predicate Sorted(lines: seq<string>) {
    forall i, j :: 0 <= i < j < |lines| ==> AtMost(lines[i], lines[j])
  }

  /** The packages rendered as a given line. */
  function RenderedAs(s: set<Package>, line: string): set<Package> {
    set p | p in s && Render(p) == line
  }

  /** The sorted rendering: each line as often as packages render to it. */
  ghost predicate SortedRendering(lines: seq<string>, s: set<Package>) {
    Sorted(lines) && forall line :: multiset(lines)[line] == |RenderedAs(s, line)|
  }

  function InsertLine(line: string, lines: seq<string>): (r: seq<string>)
    ensures multiset(r) == multiset(lines) + multiset{line}
  {
    if |lines| == 0 || AtMost(line, lines[0]) then [line] + lines
    else
      assert lines == [lines[0]] + lines[1..];
      [lines[0]] + InsertLine(line, lines[1..])
  }

  lemma {:induction false} InsertLineSorted(line: string, lines: seq<string>)
    requires Sorted(lines)
    ensures Sorted(InsertLine(line, lines))
  {
    hide AtMost;
    if |lines| > 0 {
      AtMostTotal(line, lines[0]);
      if AtMost(line, lines[0]) {
        forall j | 0 < j < |lines| ensures AtMost(line, lines[j]) {
          AtMostTransitive(line, lines[0], lines[j]);
        }
      } else {
        InsertLineSorted(line, lines[1..]);
        var r := InsertLine(line, lines[1..]);
        forall j | 0 <= j < |r| ensures AtMost(lines[0], r[j]) {
          assert r[j] in multiset(r);
          assert r[j] == line || r[j] in lines[1..];
        }
      }
    }
  }

  lemma RenderedAsGrows(s: set<Package>, p: Package, line: string)
    requires p !in s
    ensures |RenderedAs(s + {p}, line)| == |RenderedAs(s, line)| + (if Render(p) == line then 1 else 0)
  {
    hide Render;
    if Render(p) == line {
      assert RenderedAs(s + {p}, line) == RenderedAs(s, line) + {p};
    } else {
      assert RenderedAs(s + {p}, line) == RenderedAs(s, line);
    }
  }

  /** Renders a set in whatever order it is iterated; sorting makes the order immaterial. */
  method RenderSorted(s: set<Package>) returns (lines: seq<string>)
    ensures SortedRendering(lines, s)
  {
    lines := [];
    var left := s;
    while left != {}
      invariant left <= s && SortedRendering(lines, s - left)
      decreases left
    {
      hide Sorted, Render, InsertLine;
      var p :| p in left;
      InsertLineSorted(Render(p), lines);
      ghost var done := s - left;
      assert s - (left - {p}) == done + {p};
      forall line ensures multiset(InsertLine(Render(p), lines))[line] == |RenderedAs(done + {p}, line)| {
        RenderedAsGrows(done, p, line);
      }
      lines := InsertLine(Render(p), lines);
      left := left - {p};
    }
    assert s - left == s;
  }

  /** There is only one sorted rendering, so the result does not depend on any iteration order. */
  lemma {:induction false} SortedUnique(a: seq<string>, b: seq<string>)
    requires Sorted(a) && Sorted(b) && multiset(a) == multiset(b)
    ensures a == b
  {
    assert |a| == |multiset(a)| == |multiset(b)| == |b|;
    if |a| > 0 {
      SameHead(a, b);
      SortedTail(a);
      SortedTail(b);
      hide Sorted;
      SortedUnique(a[1..], b[1..]);
      assert a == [a[0]] + a[1..] && b == [b[0]] + b[1..];
    }
  }

  lemma SortedTail(a: seq<string>)
    requires Sorted(a) && |a| > 0
    ensures Sorted(a[1..]) && multiset(a[1..]) == multiset(a) - multiset{a[0]}
  {
    hide AtMost;
    assert a == [a[0]] + a[1..];
  }

  lemma SameHead(a: seq<string>, b: seq<string>)
    requires Sorted(a) && Sorted(b) && multiset(a) == multiset(b) && |a| > 0 && |b| > 0
    ensures a[0] == b[0]
  {
    hide AtMost;
    assert a[0] in multiset(a) && b[0] in multiset(b);
    assert a[0] in b && b[0] in a;
    var i :| 0 <= i < |b| && b[i] == a[0];
    var j :| 0 <= j < |a| && a[j] == b[0];
    AtMostTotal(a[0], b[0]);
  }

  lemma RenderingIsUnique(a: seq<string>, b: seq<string>, s: set<Package>)
    requires SortedRendering(a, s) && SortedRendering(b, s)
    ensures a == b
  {
    hide Sorted;
    assert multiset(a) == multiset(b) by {
      forall line ensures multiset(a)[line] == multiset(b)[line] {
      }
    }
    SortedUnique(a, b);
  }

  /** No name and no version holds a space: what the lockfile's own dependency syntax takes for granted. */
  predicate Spaceless(s: set<Package>) {
    forall p :: p in s ==> ' ' !in p.name && ' ' !in p.version
  }

  /** A line as a reader takes it: name, version, and the source in parentheses. */
  function ReadLine(line: string): Option<Package> {
    var named := SplitOnce(line, ' ');
    if named.None? then None
    else
      var versioned := SplitOnce(named.value.1, ' ');
      if versioned.None? then None
      else
        var s := versioned.value.1;
        if |s| >= 2 && s[0] == '(' && s[|s| - 1] == ')'
        then Some(Package(named.value.0, versioned.value.0, s[1..|s| - 1])) else None
  }

  /** A line reads back as its package. */
  lemma LineReads(p: Package)
    requires ' ' !in p.name && ' ' !in p.version
    ensures ReadLine(Render(p)) == Some(p)
  {
    var s := "(" + p.source + ")";
    var rest := p.version + " " + s;
    assert Render(p) == p.name + " " + rest;
    hide Render;
    SplitOnceAt(p.name, rest, ' ');
    SplitOnceAt(p.version, s, ' ');
    assert s[1..|s| - 1] == p.source;
  }

  /** With spaces, two packages can share a line. */
  lemma SpacesCollide(source: string)
    ensures Render(Package("a b", "c", source)) == Render(Package("a", "b c", source))
  {
    assert "a b" + " " + "c" == "a" + " " + "b c";
  }

  lemma LineHasPackage(lines: seq<string>, s: set<Package>, t: set<Package>, p: Package) returns (q: Package)
    requires SortedRendering(lines, s) && SortedRendering(lines, t) && p in s
    ensures q in t && Render(q) == Render(p)
  {
    hide Sorted, Render;
    assert p in RenderedAs(s, Render(p));
    assert |RenderedAs(t, Render(p))| == |RenderedAs(s, Render(p))| > 0;
    q :| q in RenderedAs(t, Render(p));
  }

  /** Two sets with the same sorted rendering are the same set. */
  lemma RenderingDetermines(lines: seq<string>, s: set<Package>, t: set<Package>)
    requires SortedRendering(lines, s) && SortedRendering(lines, t) && Spaceless(s) && Spaceless(t)
    ensures s == t
  {
    hide SortedRendering, Render;
    forall p | p in s ensures p in t {
      var q := LineHasPackage(lines, s, t, p);
      LineReads(p);
      LineReads(q);
    }
    forall p | p in t ensures p in s {
      var q := LineHasPackage(lines, t, s, p);
      LineReads(p);
      LineReads(q);
    }
  }

  /** Comparing listings compares closures: a listing equals the snapshot's exactly when the closures are the same. */
  lemma SnapshotDecides(a: seq<string>, pkgs: Lockfile, b: seq<string>, pkgs': Lockfile, root: string)
    requires SortedRendering(a, ClosureOf(pkgs, root)) && SortedRendering(b, ClosureOf(pkgs', root))
    requires Spaceless(ClosureOf(pkgs, root)) && Spaceless(ClosureOf(pkgs', root))
    ensures a == b <==> ClosureOf(pkgs, root) == ClosureOf(pkgs', root)
  {
    hide SortedRendering, ClosureOf, Spaceless;
    if a == b {
      RenderingDetermines(a, ClosureOf(pkgs, root), ClosureOf(pkgs', root));
    }
    if ClosureOf(pkgs, root) == ClosureOf(pkgs', root) {
      RenderingIsUnique(a, b, ClosureOf(pkgs, root));
    }
  }

  /** The packages a root pulls in, without the root packages themselves. */
  ghost function ClosureOf(pkgs: Lockfile, root: string): set<Package> {
    set p | p in pkgs && Reachable(pkgs, root, p) && p.name != root
  }

  /** Fails exactly when no package has the root's name; otherwise lists exactly what is reachable. */
  method Closure(pkgs: Lockfile, keys: seq<Package>, root: string) returns (r: Option<seq<string>>)
    requires Lists(keys, pkgs.Keys)
    ensures r.None? <==> forall p :: p in pkgs ==> p.name != root
    ensures r.Some? ==> SortedRendering(r.value, ClosureOf(pkgs, root))
  {
    var byName := IndexByName(keys);
    var roots := Named(byName, root);
    if |roots| == 0 {
      assert forall p :: p in Named(byName, root) <==> p in keys && p.name == root;
      return None;
    }
    assert roots[0] in Named(byName, root);
    var seen := Walk(pkgs, keys, byName, root);
    hide Reachable;
    var kept := set p | p in seen && p.name != root;
    ReachableInPkgs(pkgs, root);
    assert kept == ClosureOf(pkgs, root);
    var lines := RenderSorted(kept);
    r := Some(lines);
  }

  lemma ReachableInPkgs(pkgs: Lockfile, root: string)
    ensures forall p :: Reachable(pkgs, root, p) ==> p in pkgs
  {
    forall p | Reachable(pkgs, root, p) ensures p in pkgs {
      var path :| IsPath(pkgs, root, path) && path[|path| - 1] == p;
      if |path| > 1 {
        EdgeInPkgs(pkgs, path[|path| - 2], path[|path| - 1]);
      }
    }
  }
}
