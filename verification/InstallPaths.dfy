/** Install paths of a lock file as text, the chain of package names each one spells, and their parser. */
module InstallPaths {
  import opened Options
  import opened Sequences
  import opened Splitting

  const NODE_MODULES: string := "node_modules"
  const BOUNDARY: string := "/node_modules/"

  // ----- Package names -----

  predicate StartsWithAt(part: string) {
    |part| > 0 && part[0] == '@'
  }

  /** What one step of an install path may name: one part, or an `@` part followed by a second one. */
  predicate StepName(name: string) {
    var parts := Split(name, '/');
    if StartsWithAt(parts[0]) then |parts| == 2 else |parts| == 1
  }

  predicate Alphanumeric(c: char) {
    'a' <= c <= 'z' || '0' <= c <= '9'
  }

  predicate Word(part: string) {
    |part| > 0 && Alphanumeric(part[0])
    && forall i :: 1 <= i < |part| ==> Alphanumeric(part[i]) || part[i] in "._-"
  }

  /** One word, or a scope and a word. */
  predicate NameShape(name: string) {
    var parts := Split(name, '/');
    if StartsWithAt(parts[0]) then |parts| == 2 && Word(parts[0][1..]) && Word(parts[1])
    else |parts| == 1 && Word(parts[0])
  }

  predicate IsPackageName(name: string) {
    |name| <= 214 && NameShape(name)
  }

  /** The only slash a step name can hold belongs to a scope. */
  lemma StepNameSlashes(name: string)
    requires StepName(name)
    ensures forall i, j :: 0 <= i < j < |name| ==> name[i] != '/' || name[j] != '/'
    ensures '/' in name ==> name[0] == '@'
  {
    var parts := Split(name, '/');
    if |parts| == 2 {
      assert name == parts[0] + "/" + Join(parts[1..], '/');
      assert Join(parts[1..], '/') == parts[1];
      forall i, j | 0 <= i < j < |name| ensures name[i] != '/' || name[j] != '/' {
        assert i < |parts[0]| ==> name[i] in parts[0];
        assert j > |parts[0]| ==> name[j] in parts[1];
      }
    } else {
      assert name == parts[0];
    }
  }

  ghost predicate AllSteps(names: seq<string>) {
    forall i :: 0 <= i < |names| ==> StepName(names[i])
  }

  // ----- Chains of names and the paths that spell them -----

  ghost predicate Chain(names: seq<string>) {
    |names| > 0 && AllSteps(names)
  }

  function PathParts(names: seq<string>): (parts: seq<string>)
    ensures names != [] ==> |parts| > 0
    ensures AllPlain(parts, '/')
  {
    if names == [] then [] else [NODE_MODULES] + Split(names[0], '/') + PathParts(names[1..])
  }

  function PathOf(names: seq<string>): string
    requires |names| > 0
  {
    Join(PathParts(names), '/')
  }

  /** Reads one host directory and one name at a time, as the lock compiler does; the chain or nothing. */
  function ReadChain(parts: seq<string>): (names: Option<seq<string>>)
    requires AllPlain(parts, '/')
    ensures names.Some? ==> PathParts(names.value) == parts && AllSteps(names.value)
  {
    if parts == [] then Some([])
    else if parts[0] != NODE_MODULES || |parts| < 2 || (StartsWithAt(parts[1]) && |parts| < 3) then None
    else
      var width := if StartsWithAt(parts[1]) then 2 else 1;
      var name := Join(parts[1..1 + width], '/');
      match ReadChain(parts[1 + width..])
      case None => None
      case Some(rest) =>
        StepSplits(parts, width);
        assert ([name] + rest)[1..] == rest;
        CutInThree(parts, width);
        Some([name] + rest)
  }

  lemma StepSplits(parts: seq<string>, width: nat)
    requires 1 <= width && 1 + width <= |parts| && AllPlain(parts, '/')
    requires width == if StartsWithAt(parts[1]) then 2 else 1
    ensures Split(Join(parts[1..1 + width], '/'), '/') == parts[1..1 + width]
  {
    SplitJoin(parts[1..1 + width], '/');
  }

  function Prepend(names: seq<string>, rest: Option<seq<string>>): Option<seq<string>> {
    match rest case None => None case Some(more) => Some(names + more)
  }

  lemma ReadStep(name: string, rest: seq<string>)
    requires StepName(name)
    requires AllPlain(rest, '/')
    ensures ReadChain([NODE_MODULES] + Split(name, '/') + rest) == Prepend([name], ReadChain(rest))
  {
    var step := Split(name, '/');
    var parts := [NODE_MODULES] + step + rest;
    assert parts[1] == step[0];
    assert parts[1..1 + |step|] == step;
    assert parts[1 + |step|..] == rest;
  }

  lemma PrependTwice(a: seq<string>, b: seq<string>, rest: Option<seq<string>>)
    ensures Prepend(a, Prepend(b, rest)) == Prepend(a + b, rest)
  {
    if rest.Some? {
      assert a + (b + rest.value) == (a + b) + rest.value;
    }
  }

  lemma {:induction false} ReadAfter(names: seq<string>, rest: seq<string>)
    requires AllSteps(names) && AllPlain(rest, '/')
    ensures ReadChain(PathParts(names) + rest) == Prepend(names, ReadChain(rest))
  {
    if names == [] {
      assert PathParts(names) + rest == rest;
      assert ReadChain(rest).Some? ==> names + ReadChain(rest).value == ReadChain(rest).value;
    } else {
      var more := names[1..];
      var tail := PathParts(more) + rest;
      ReadAfter(more, rest);
      ReadStep(names[0], tail);
      PrependTwice([names[0]], more, ReadChain(rest));
      assert [names[0]] + more == names;
      Regroup([NODE_MODULES] + Split(names[0], '/'), PathParts(more), rest);
    }
  }

  /** A path spells at most one chain, and reading it back finds that chain. */
  lemma PathSpellsOneChain(names: seq<string>)
    requires Chain(names)
    ensures ReadChain(Split(PathOf(names), '/')) == Some(names)
  {
    SplitJoin(PathParts(names), '/');
    assert PathParts(names) + [] == PathParts(names);
    assert names + [] == names;
    ReadAfter(names, []);
  }

  ghost predicate Spells(path: string, names: seq<string>) {
    Chain(names) && PathOf(names) == path
  }

  function Last(names: seq<string>): string
    requires |names| > 0
  {
    names[|names| - 1]
  }

  ghost predicate ValidInstallPath(path: string) {
    exists names :: Spells(path, names) && IsPackageName(Last(names))
  }

  /** The first `index` parts of the path have been read as the steps `done`. */
  ghost predicate ReadTo(path: string, done: seq<string>, index: nat) {
    index <= |Split(path, '/')| && AllSteps(done) && PathParts(done) == Split(path, '/')[..index]
  }

  /** What the whole path reads as, once the parts up to `index` have been read as `done`. */
  lemma ReadSoFar(path: string, done: seq<string>, index: nat)
    requires ReadTo(path, done, index)
    ensures ReadChain(Split(path, '/')) == Prepend(done, ReadChain(Split(path, '/')[index..]))
  {
    ReadAfter(done, Split(path, '/')[index..]);
    assert Split(path, '/')[..index] + Split(path, '/')[index..] == Split(path, '/');
  }

  lemma NoChain(path: string, done: seq<string>, index: nat)
    requires ReadTo(path, done, index) && ReadChain(Split(path, '/')[index..]) == None
    ensures !ValidInstallPath(path)
  {
    ReadSoFar(path, done, index);
    forall names | Spells(path, names) ensures false {
      PathSpellsOneChain(names);
    }
  }

  lemma OnlyChain(path: string, done: seq<string>)
    requires done != [] && ReadTo(path, done, |Split(path, '/')|)
    ensures Spells(path, done) && forall names :: Spells(path, names) ==> names == done
    ensures ValidInstallPath(path) <==> IsPackageName(Last(done))
  {
    assert Split(path, '/')[..|Split(path, '/')|] == Split(path, '/');
    assert PathOf(done) == path;
    forall names | Spells(path, names) ensures names == done {
      PathSpellsOneChain(names);
      PathSpellsOneChain(done);
    }
  }

  lemma {:induction false} PathPartsAppend(names: seq<string>, name: string)
    ensures PathParts(names + [name]) == PathParts(names) + [NODE_MODULES] + Split(name, '/')
  {
    if names == [] {
      assert names + [name] == [name];
    } else {
      var more := names[1..];
      var head := [NODE_MODULES] + Split(names[0], '/');
      PathPartsAppend(more, name);
      assert (names + [name])[1..] == more + [name];
      Regroup(head, PathParts(more) + [NODE_MODULES], Split(name, '/'));
      Regroup(head, PathParts(more), [NODE_MODULES]);
    }
  }

  lemma TakeFurther<T>(all: seq<T>, index: nat, next: seq<T>)
    requires index + 1 + |next| <= |all| && all[index + 1..index + 1 + |next|] == next
    ensures all[..index + 1 + |next|] == all[..index] + [all[index]] + next
  {
    assert all[index + 1..index + 1 + |next|] == next;
  }

  lemma CutInThree<T>(all: seq<T>, width: nat)
    requires 1 + width <= |all|
    ensures all == [all[0]] + all[1..1 + width] + all[1 + width..]
  {
  }

  predicate StepShape(step: seq<string>) {
    if |step| == 1 then !StartsWithAt(step[0]) else |step| == 2 && StartsWithAt(step[0])
  }

  /** Reading one more step of the path extends the chain read so far. */
  lemma TakeStep(path: string, done: seq<string>, index: nat, step: seq<string>)
    requires ReadTo(path, done, index) && StepShape(step) && index + 1 + |step| <= |Split(path, '/')|
    requires Split(path, '/')[index] == NODE_MODULES && Split(path, '/')[index + 1..index + 1 + |step|] == step
    ensures ReadTo(path, done + [Join(step, '/')], index + 1 + |step|)
    ensures Join(step, '/') == if |step| == 1 then step[0] else step[0] + "/" + step[1]
  {
    assert AllPlain(step, '/');
    SplitJoin(step, '/');
    assert StepName(Join(step, '/'));
    PathPartsAppend(done, Join(step, '/'));
    TakeFurther(Split(path, '/'), index, step);
  }

  lemma TakePlain(path: string, done: seq<string>, start: nat, first: string)
    requires ReadTo(path, done, start) && start + 2 <= |Split(path, '/')| && !StartsWithAt(first)
    requires Split(path, '/')[start] == NODE_MODULES && Split(path, '/')[start + 1] == first
    ensures ReadTo(path, done + [first], start + 2)
  {
    assert Split(path, '/')[start + 1..start + 2] == [first];
    TakeStep(path, done, start, [first]);
  }

  lemma TakeScoped(path: string, done: seq<string>, start: nat, scope: string, name: string)
    requires ReadTo(path, done, start) && start + 3 <= |Split(path, '/')| && StartsWithAt(scope)
    requires Split(path, '/')[start] == NODE_MODULES
    requires Split(path, '/')[start + 1] == scope && Split(path, '/')[start + 2] == name
    ensures ReadTo(path, done + [scope + "/" + name], start + 3)
  {
    assert Split(path, '/')[start + 1..start + 3] == [scope, name];
    TakeStep(path, done, start, [scope, name]);
  }

  /** Reads one host directory and one name at `start`; nothing when the path spells no chain. */
  method ReadName(path: string, segments: seq<string>, start: nat, ghost done: seq<string>)
    returns (name: Option<string>, next: nat)
    requires segments == Split(path, '/') && ReadTo(path, done, start) && start < |segments|
    ensures name.None? ==> !ValidInstallPath(path)
    ensures name.Some? ==> start < next && ReadTo(path, done + [name.value], next)
  {
    next := start + 1;
    if segments[start] != NODE_MODULES || next == |segments| {
      NoChain(path, done, start);
      return None, next;
    }
    var first := segments[next];
    if !StartsWithAt(first) {
      TakePlain(path, done, start, first);
      return Some(first), next + 1;
    }
    if next + 1 == |segments| {
      NoChain(path, done, start);
      return None, next;
    }
    var second := segments[next + 1];
    TakeScoped(path, done, start, first, second);
    return Some(first + "/" + second), next + 2;
  }

  /** Accepts exactly the paths that spell a chain ending in a package name, and returns that name. */
  method PackageNameFromInstallPath(path: string) returns (name: Option<string>)
    ensures name.Some? <==> ValidInstallPath(path)
    ensures forall names :: name.Some? && Spells(path, names) ==> name.value == Last(names)
  {
    var segments := Split(path, '/');
    var index := 0;
    var lastName: Option<string> := None;
    ghost var done: seq<string> := [];
    while index < |segments|
      invariant 0 <= index <= |segments| && ReadTo(path, done, index)
      invariant if done == [] then index == 0 && lastName == None else lastName == Some(Last(done))
    {
      lastName, index := ReadName(path, segments, index, done);
      if lastName.None? {
        return None;
      }
      done := done + [lastName.value];
    }
    OnlyChain(path, done);
    return if IsPackageName(lastName.value) then lastName else None;
  }

  // ----- The last host boundary of a path -----

  predicate OccursAt(text: string, pattern: string, i: int) {
    0 <= i && i + |pattern| <= |text| && text[i..i + |pattern|] == pattern
  }

  function LastFrom(text: string, pattern: string, from: int): (at: int)
    requires from < 0 || from <= |text|
    ensures -1 <= at && (at >= 0 ==> at <= from && OccursAt(text, pattern, at))
    ensures forall i :: at < i <= from ==> !OccursAt(text, pattern, i)
    decreases from + 1
  {
    if from < 0 then -1 else if OccursAt(text, pattern, from) then from else LastFrom(text, pattern, from - 1)
  }

  /** The greatest index at which the pattern occurs, or -1. */
  function LastIndexOf(text: string, pattern: string): (at: int)
    ensures -1 <= at && (at >= 0 ==> OccursAt(text, pattern, at))
    ensures forall i :: at < i ==> !OccursAt(text, pattern, i)
  {
    LastFrom(text, pattern, |text|)
  }

  /**
    * Past the start of its last step, a path holds no further host boundary, even when packages are called
    * `node_modules`.
    */
  lemma NoLaterBoundary(text: string, start: nat, name: string, i: int)
    requires start <= |text| && text[start..] == NODE_MODULES + "/" + name && StepName(name) && start <= i
    ensures !OccursAt(text, BOUNDARY, i)
  {
    StepNameSlashes(name);
    var tail := NODE_MODULES + "/" + name;
    assert BOUNDARY[0] == '/' && BOUNDARY[1] == 'n' && BOUNDARY[13] == '/';
    if OccursAt(text, BOUNDARY, i) {
      TailChar(text, start, tail, i, 0);
      TailChar(text, start, tail, i, 1);
      TailChar(text, start, tail, i, 13);
    }
  }

  lemma TailChar(text: string, start: nat, tail: string, i: nat, k: nat)
    requires start <= |text| && text[start..] == tail && start <= i && OccursAt(text, BOUNDARY, i) && k < 14
    ensures i - start + k < |tail| && tail[i - start + k] == BOUNDARY[k]
  {
    assert text[i..i + 14][k] == text[i + k];
  }

  lemma PathOfAppend(names: seq<string>, name: string)
    ensures PathOf(names + [name]) == if names == [] then NODE_MODULES + "/" + name else PathOf(names) + BOUNDARY + name
  {
    PathPartsAppend(names, name);
    var step := [NODE_MODULES] + Split(name, '/');
    JoinAppend([NODE_MODULES], Split(name, '/'), '/');
    Regroup(PathParts(names), [NODE_MODULES], Split(name, '/'));
    if names != [] {
      JoinAppend(PathParts(names), step, '/');
      BoundaryText(PathOf(names), name);
    }
  }

  lemma BoundaryText(before: string, name: string)
    ensures before + "/" + (NODE_MODULES + "/" + name) == before + BOUNDARY + name
    ensures (before + BOUNDARY + name)[|before| + 1..] == NODE_MODULES + "/" + name
    ensures (before + BOUNDARY + name)[..|before|] == before
    ensures OccursAt(before + BOUNDARY + name, BOUNDARY, |before|)
  {
    assert BOUNDARY == "/" + NODE_MODULES + "/";
  }

  /** Cutting a path at its last boundary drops exactly the deepest name of its chain. */
  lemma CutDropsDeepestName(names: seq<string>)
    requires Chain(names)
    ensures var at := LastIndexOf(PathOf(names), BOUNDARY);
            if |names| == 1 then at == -1 else at >= 0 && PathOf(names)[..at] == PathOf(names[..|names| - 1])
  {
    var front, name := names[..|names| - 1], Last(names);
    assert front + [name] == names;
    PathOfAppend(front, name);
    var path := PathOf(names);
    var start := if front == [] then 0 else |PathOf(front)| + 1;
    if front != [] {
      BoundaryText(PathOf(front), name);
    }
    forall i | i >= start ensures !OccursAt(path, BOUNDARY, i) {
      NoLaterBoundary(path, start, name, i);
    }
  }

  // ----- Resolving a dependency from the declaring package outwards -----

  /** Where a dependency sits when its host is the package `depth` names down the chain; the root host is at depth 0. */
  function Candidate(names: seq<string>, depth: nat, dependency: string): string
    requires depth <= |names|
  {
    PathOf(names[..depth] + [dependency])
  }

  ghost predicate NearestAt(names: seq<string>, dependency: string, paths: set<string>, depth: nat) {
    && depth <= |names| && Candidate(names, depth, dependency) in paths
    && forall d :: depth < d <= |names| ==> Candidate(names, d, dependency) !in paths
  }

  /** The target is the copy under the nearest host that has one, and there is none only when no host has one. */
  ghost predicate NearestHost(names: seq<string>, dependency: string, paths: set<string>, target: Option<string>) {
    match target
    case Some(path) =>
      exists depth: nat :: NearestAt(names, dependency, paths, depth) && Candidate(names, depth, dependency) == path
    case None => forall d :: 0 <= d <= |names| ==> Candidate(names, d, dependency) !in paths
  }

  lemma SpellsOne(path: string)
    ensures forall a, b :: Spells(path, a) && Spells(path, b) ==> a == b
  {
    forall a, b | Spells(path, a) && Spells(path, b) ensures a == b {
      PathSpellsOneChain(a);
      PathSpellsOneChain(b);
    }
  }

  lemma ChainTake(names: seq<string>, depth: nat)
    requires Chain(names) && 1 <= depth <= |names|
    ensures Chain(names[..depth])
    ensures depth > 1 ==> names[..depth][..depth - 1] == names[..depth - 1]
  {
  }

  lemma AtDepth(names: seq<string>, depth: nat, dependency: string)
    requires Chain(names) && 1 <= depth <= |names|
    ensures Candidate(names, depth, dependency) == PathOf(names[..depth]) + BOUNDARY + dependency
    ensures var at := LastIndexOf(PathOf(names[..depth]), BOUNDARY);
            if depth == 1 then at == -1 else at >= 0 && PathOf(names[..depth])[..at] == PathOf(names[..depth - 1])
  {
    ChainTake(names, depth);
    PathOfAppend(names[..depth], dependency);
    CutDropsDeepestName(names[..depth]);
  }

  lemma AtRoot(names: seq<string>, dependency: string)
    ensures Candidate(names, 0, dependency) == NODE_MODULES + "/" + dependency
  {
    PathOfAppend([], dependency);
    assert names[..0] + [dependency] == [] + [dependency];
  }

  /** One package further down that hosts no copy changes nothing. */
  lemma WidenHost(names: seq<string>, depth: nat, name: string, paths: set<string>, target: Option<string>)
    requires 1 <= depth <= |names| && NearestHost(names[..depth - 1], name, paths, target)
    requires Candidate(names[..depth], depth, name) !in paths
    ensures NearestHost(names[..depth], name, paths, target)
  {
    var here, outer := names[..depth], names[..depth - 1];
    forall d: nat | d <= depth - 1 ensures Candidate(here, d, name) == Candidate(outer, d, name) {
      assert here[..d] == outer[..d];
    }
    if target.Some? {
      var d: nat :| NearestAt(outer, name, paths, d) && Candidate(outer, d, name) == target.value;
      assert NearestAt(here, name, paths, d);
    }
  }

  /** Walks up the text of the path, and so visits exactly the hosts of its chain from the deepest to the root. */
  method ResolveNodeDependency<V>(declaringPath: string, dependencyName: string, byPath: map<string, V>)
    returns (target: Option<string>)
    ensures forall names :: Spells(declaringPath, names) ==> NearestHost(names, dependencyName, byPath.Keys, target)
    ensures target.Some? ==> target.value in byPath
  {
    ghost var spelled := exists names :: Spells(declaringPath, names);
    ghost var names :| spelled ==> Spells(declaringPath, names);
    ghost var depth := |names|;
    SpellsOne(declaringPath);
    assert spelled ==> names[..depth] == names;
    var cursor := declaringPath;
    while true
      invariant spelled ==> 1 <= depth <= |names| && cursor == PathOf(names[..depth])
      invariant spelled ==> forall d :: depth < d <= |names| ==> Candidate(names, d, dependencyName) !in byPath
      decreases |cursor|
    {
      var local := cursor + BOUNDARY + dependencyName;
      if spelled {
        AtDepth(names, depth, dependencyName);
      }
      if local in byPath {
        assert spelled ==> NearestAt(names, dependencyName, byPath.Keys, depth);
        return Some(local);
      }
      var boundary := LastIndexOf(cursor, BOUNDARY);
      if boundary < 0 {
        break;
      }
      cursor := cursor[..boundary];
      depth := if spelled then depth - 1 else depth;
    }
    var root := NODE_MODULES + "/" + dependencyName;
    AtRoot(names, dependencyName);
    if root in byPath {
      assert spelled ==> NearestAt(names, dependencyName, byPath.Keys, 0);
      return Some(root);
    }
    return None;
  }

  /** The copy a dependency resolves to is installed under that dependency's own name. */
  lemma ResolvedCopyIsNamesake(names: seq<string>, dependency: string, paths: set<string>, target: string)
    requires Chain(names) && IsPackageName(dependency) && NearestHost(names, dependency, paths, Some(target))
    ensures ValidInstallPath(target)
    ensures forall chain :: Spells(target, chain) ==> Last(chain) == dependency
  {
    var depth: nat :| NearestAt(names, dependency, paths, depth) && Candidate(names, depth, dependency) == target;
    var host := names[..depth] + [dependency];
    assert Spells(target, host) && Last(host) == dependency;
    SpellsOne(target);
  }

  lemma NearestHostUnique(names: seq<string>, dependency: string, paths: set<string>, a: Option<string>,
                          b: Option<string>)
    requires NearestHost(names, dependency, paths, a) && NearestHost(names, dependency, paths, b)
    ensures a == b
  {
    if a.Some? && b.Some? {
      var i: nat :| NearestAt(names, dependency, paths, i) && Candidate(names, i, dependency) == a.value;
      var j: nat :| NearestAt(names, dependency, paths, j) && Candidate(names, j, dependency) == b.value;
      assert i == j;
    }
  }
}
