/** Install paths as the peer analysis takes them apart: by patterns over their text. */
module PeerPaths {
  import opened Options
  import opened Sequences
  import opened Splitting
  import opened InstallPaths

  /** No line terminator: what the dot of a pattern matches. */
  predicate OneLine(text: string) {
    forall i :: 0 <= i < |text| ==> text[i] !in {'\n', '\r', '\U{2028}', '\U{2029}'}
  }

  predicate IsScope(part: string) {
    |part| > 1 && part[0] == '@'
  }

  /** The parts of a path make one or more names under `node_modules`, each with an optional scope before it. */
  predicate MatchesChain(parts: seq<string>) {
    || (|parts| >= 2 && parts[0] == NODE_MODULES && parts[1] != "" && (|parts| == 2 || MatchesChain(parts[2..])))
    || (|parts| >= 3 && parts[0] == NODE_MODULES && IsScope(parts[1]) && parts[2] != ""
       && (|parts| == 3 || MatchesChain(parts[3..])))
  }

  predicate ValidPath(path: string) {
    path == "" || MatchesChain(Split(path, '/'))
  }

  function PathName(path: string): string {
    var parts := Split(path, '/');
    var n := |parts|;
    if n >= 2 && StartsWithAt(parts[n - 2]) then parts[n - 2] + "/" + parts[n - 1] else parts[n - 1]
  }

  function ChildPath(context: string, name: string): string {
    if context == "" then NODE_MODULES + "/" + name else context + BOUNDARY + name
  }

  /** The text before a name; the pattern's dot stops at the end of a line. */
  function Before(parts: seq<string>): Option<string> {
    if parts == [] then Some("") else if OneLine(Join(parts, '/')) then Some(Join(parts, '/')) else None
  }

  function ParentPath(path: string): (parent: Option<string>)
    ensures parent.Some? ==> |parent.value| < |path|
  {
    var parts := Split(path, '/');
    var n := |parts|;
    if n >= 2 && parts[n - 1] != "" && parts[n - 2] == NODE_MODULES then
      ShorterBefore(parts, n - 2);
      Before(parts[..n - 2])
    else if n >= 3 && parts[n - 1] != "" && IsScope(parts[n - 2]) && parts[n - 3] == NODE_MODULES then
      ShorterBefore(parts, n - 3);
      Before(parts[..n - 3])
    else None
  }

  lemma ShorterBefore(parts: seq<string>, k: nat)
    requires k + 1 < |parts|
    ensures k > 0 ==> |Join(parts[..k], '/')| < |Join(parts, '/')|
    ensures k == 0 ==> 0 < |Join(parts, '/')|
  {
    if k > 0 {
      JoinAppend(parts[..k], parts[k..], '/');
      assert parts[..k] + parts[k..] == parts;
    }
  }

  /** The nearest installed copy from a context outwards. */
  function Nearest(context: string, name: string, paths: set<string>): (target: Option<string>)
    ensures target.Some? ==> target.value in paths
    decreases |context|
  {
    if ChildPath(context, name) in paths then Some(ChildPath(context, name))
    else match ParentPath(context) case None => None case Some(outer) => Nearest(outer, name, paths)
  }

  // ----- Chains of packages -----

  ghost predicate AllPackages(names: seq<string>) {
    forall i :: 0 <= i < |names| ==> IsPackageName(names[i])
  }

  /** The path of a chain of packages; the empty chain is the top. */
  function Place(names: seq<string>): string {
    if names == [] then "" else PathOf(names)
  }

  ghost predicate PackagePath(path: string) {
    exists names :: AllPackages(names) && names != [] && PathOf(names) == path
  }

  lemma PlaceAppend(names: seq<string>, name: string)
    ensures Place(names + [name]) == ChildPath(Place(names), name) && (names != [] ==> Place(names) != "")
  {
    PathOfAppend(names, name);
    if names != [] {
      var front := names[..|names| - 1];
      assert front + [names[|names| - 1]] == names;
      PathOfAppend(front, names[|names| - 1]);
    }
  }

  /** The parts of a package name: a scope with a word, or a word alone. */
  ghost predicate NameStep(name: string, step: seq<string>) {
    if |step| == 1 then name == step[0] && name != "" && !StartsWithAt(name)
    else |step| == 2 && name == step[0] + "/" + step[1] && IsScope(step[0]) && step[1] != ""
  }

  lemma PackageStep(name: string)
    requires IsPackageName(name)
    ensures NameStep(name, Split(name, '/'))
  {
    var parts := Split(name, '/');
    if |parts| == 2 {
      assert name == parts[0] + "/" + Join(parts[1..], '/');
      assert Join(parts[1..], '/') == parts[1];
      assert Word(parts[0][1..]);
    }
  }

  lemma NameIsOneLine(name: string)
    requires IsPackageName(name)
    ensures OneLine(name) && name != ""
  {
    var parts := Split(name, '/');
    PackageStep(name);
    if |parts| == 2 {
      forall i | 0 <= i < |parts[0]| ensures parts[0][i] !in {'\n', '\r', '\U{2028}', '\U{2029}'} {
        if i > 0 {
          assert parts[0][i] == parts[0][1..][i - 1];
        }
      }
    } else {
      assert name == parts[0];
    }
  }

  lemma {:induction false} PlaceIsOneLine(names: seq<string>)
    requires AllPackages(names)
    ensures OneLine(Place(names))
    decreases |names|
  {
    if names != [] {
      var n := |names| - 1;
      PlaceIsOneLine(names[..n]);
      assert names[..n] + [names[n]] == names;
      PlaceAppend(names[..n], names[n]);
      NameIsOneLine(names[n]);
      ChildIsOneLine(Place(names[..n]), names[n]);
    }
  }

  lemma ChildIsOneLine(context: string, name: string)
    requires OneLine(context) && OneLine(name)
    ensures OneLine(ChildPath(context, name))
  {
    assert OneLine(NODE_MODULES + "/") && OneLine(BOUNDARY);
  }

  lemma {:induction false} PackagesAreSteps(names: seq<string>)
    requires AllPackages(names)
    ensures AllSteps(names)
  {
  }

  /** The parts of a chain's path: those before the last name, the directory, and the last name's. */
  lemma LastParts(names: seq<string>, name: string)
    requires AllPackages(names) && IsPackageName(name)
    ensures Split(PathOf(names + [name]), '/') == PathParts(names) + [NODE_MODULES] + Split(name, '/')
  {
    SplitJoin(PathParts(names + [name]), '/');
    PathPartsAppend(names, name);
  }

  lemma ParentByParts(path: string, before: seq<string>, name: string, step: seq<string>)
    requires Split(path, '/') == before + [NODE_MODULES] + step && NameStep(name, step)
    ensures ParentPath(path) == Before(before) && PathName(path) == name
  {
    var parts := Split(path, '/');
    var n := |parts|;
    assert parts[..|before|] == before && parts[|before|] == NODE_MODULES;
    assert NODE_MODULES[0] == 'n';
    if |step| == 1 {
      assert parts[n - 1] == step[0] && parts[n - 2] == NODE_MODULES;
    } else {
      assert parts[n - 1] == step[1] && parts[n - 2] == step[0] && parts[n - 3] == NODE_MODULES;
    }
  }

  /** The parent of a chain of packages is the chain without its last name, which is the name of the path. */
  lemma ParentOfChain(names: seq<string>, name: string)
    requires AllPackages(names) && IsPackageName(name)
    ensures ParentPath(PathOf(names + [name])) == Some(Place(names)) && PathName(PathOf(names + [name])) == name
  {
    LastParts(names, name);
    PackageStep(name);
    PlaceIsOneLine(names);
    ParentByParts(PathOf(names + [name]), PathParts(names), name, Split(name, '/'));
  }

  /** From a chain of packages the walk finds the copy under the nearest of its packages, or none has one. */
  lemma {:induction false} NearestIsHosted(names: seq<string>, depth: nat, name: string, paths: set<string>)
    requires AllPackages(names) && depth <= |names|
    ensures NearestHost(names[..depth], name, paths, Nearest(Place(names[..depth]), name, paths))
    decreases depth
  {
    var here := names[..depth];
    PlaceAppend(here, name);
    assert here[..depth] == here;
    assert Candidate(here, depth, name) == ChildPath(Place(here), name);
    if ChildPath(Place(here), name) in paths {
      assert NearestAt(here, name, paths, depth);
    } else if depth == 0 {
      assert ParentPath("") == None;
    } else {
      var outer := names[..depth - 1];
      assert outer + [names[depth - 1]] == here;
      ParentOfChain(outer, names[depth - 1]);
      NearestIsHosted(names, depth - 1, name, paths);
      WidenHost(names, depth, name, paths, Nearest(Place(outer), name, paths));
    }
  }

  /** So what is found under a package's name is itself a chain of packages. */
  lemma FoundIsPackagePath(names: seq<string>, name: string, paths: set<string>)
    requires AllPackages(names) && IsPackageName(name) && Nearest(Place(names), name, paths).Some?
    ensures PackagePath(Nearest(Place(names), name, paths).value)
  {
    NearestIsHosted(names, |names|, name, paths);
    assert names[..|names|] == names;
    var target := Nearest(Place(names), name, paths).value;
    var d: nat :| NearestAt(names, name, paths, d) && Candidate(names, d, name) == target;
    assert AllPackages(names[..d] + [name]) && PathOf(names[..d] + [name]) == target;
  }

  // ----- Where the text of a parent is not found -----

  const HIDDEN_PARENT: seq<string> := [NODE_MODULES, "a\U{2028}b", NODE_MODULES, "c"]

  /** A line separator in a host's name passes the pattern of paths and hides the parent from the pattern of parents. */
  lemma SeparatorHidesParent()
    ensures var path := Join(HIDDEN_PARENT, '/'); ValidPath(path) && PathName(path) == "c" && ParentPath(path) == None
  {
    var parts := HIDDEN_PARENT;
    assert parts[1] == "a\U{2028}b" && AllPlain(parts, '/');
    SplitJoin(parts, '/');
    assert parts[2..] == [NODE_MODULES, "c"] && MatchesChain(parts[2..]);
    assert MatchesChain(parts);
    var before := parts[..2];
    assert before == [NODE_MODULES, "a\U{2028}b"] && before[1..] == ["a\U{2028}b"];
    var text := Join(before, '/');
    assert text == NODE_MODULES + ['/'] + Join(before[1..], '/');
    assert text[14] == '\U{2028}';
  }
}
