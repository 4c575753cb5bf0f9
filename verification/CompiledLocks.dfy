/** What compilation accepts and what it retains: every compiled candidate holds exactly the records of its lock. */
module CompiledLocks {
  import opened Options
  import opened Sequences
  import opened Splitting
  import opened InstallPaths
  import opened PeerPaths
  import opened JsonText
  import opened Utf8
  import opened CandidateV2
  import opened PeerSemantics
  import opened CandidatePeers
  import D = DependencyGraph

  // ----- Nodes and records -----

  /** The part of an optional member: present as it stands, or absent and empty. */
  ghost predicate Holds<T>(member: Option<map<string, T>>, present: bool, value: map<string, T>) {
    match member case None => !present && value == map[] case Some(m) => present && value == m
  }

  /** The node tells its record member by member, and the package its path ends in. */
  ghost predicate Tells(n: RawNode, path: string, r: RawRecord) {
    && n.path == path && n.packageName == PathName(path)
    && n.exactVersion == r.version && n.tarballUrl == r.resolved && n.integrity == r.integrity
    && Holds(r.dependencies, n.dependenciesPresent, n.dependencies) && Holds(r.peers, n.peersPresent, n.peers)
    && Holds(r.meta, n.metaPresent, n.meta) && n.peerFlag == r.peer
  }

  /** Every name declares a package, by a text that is not too long. */
  predicate Declared(member: Option<Declarations>) {
    match member
    case None => true
    case Some(d) => forall k :: k in d ==> IsPackageName(k) && Utf8Size(d[k]) <= MAX_SPECIFIER_BYTES
  }

  /** Only peers that are declared are marked. */
  predicate MarksPeers(r: RawRecord) {
    match r.meta case None => true case Some(m) => m.Keys <= PeerNames(r)
  }

  function PeerNames(r: RawRecord): set<string> {
    match r.peers case None => {} case Some(d) => d.Keys
  }

  predicate RecordOk(path: string, r: RawRecord, registry: Text, s: Settings, p: Platform) {
    && p.validPath(path, s) && NODE_MODULES + "/" <= path && IsPackageName(PathName(path))
    && p.isVersion(r.version) && p.validTarball(r.resolved, registry) && p.validIntegrity(r.integrity)
    && Declared(r.dependencies) && Declared(r.peers) && MarksPeers(r)
  }

  lemma NamedByPath(path: string)
    ensures NameFromPath(path) == if IsPackageName(PathName(path)) then Some(PathName(path)) else None
  {
  }

  lemma DeclaredMap(member: Option<Declarations>)
    ensures StringMap(member).Some? <==> Declared(member)
    ensures Declared(member) ==> Holds(member, member.Some?, StringMap(member).value)
  {
  }

  lemma MarksMap(r: RawRecord)
    requires Declared(r.peers)
    ensures var meta := NormalizeMeta(r.meta, StringMap(r.peers).value);
            (meta.Some? <==> MarksPeers(r)) && (meta.Some? ==> Holds(r.meta, r.meta.Some?, meta.value))
  {
    if r.meta.Some? {
      assert (forall k :: k in r.meta.value ==> k in PeerNames(r)) <==> r.meta.value.Keys <= PeerNames(r);
    }
  }

  lemma ParsesRecord(path: string, r: RawRecord, registry: Text, s: Settings, p: Platform)
    ensures var parsed := ParseRecord(path, r, registry, s, p);
            (parsed.Some? <==> RecordOk(path, r, registry, s, p)) && (parsed.Some? ==> Tells(parsed.value, path, r))
  {
    NamedByPath(path);
    DeclaredMap(r.dependencies);
    DeclaredMap(r.peers);
    if Declared(r.peers) {
      MarksMap(r);
    }
  }

  /** Exactly the records in order are parsed, each to the one node that tells it. */
  lemma ParsesRecordIff(path: string, r: RawRecord, registry: Text, s: Settings, p: Platform, n: RawNode)
    ensures ParseRecord(path, r, registry, s, p) == Some(n) <==> RecordOk(path, r, registry, s, p) && Tells(n, path, r)
  {
    ParsesRecord(path, r, registry, s, p);
  }

  // ----- Locks -----

  /** The one root dependency is the top package, and every record is in order, no two paths alike. */
  ghost predicate LockOk(lock: Lock, s: Settings, registry: Text, p: Platform) {
    && lock.rootDependencies == map[s.topName := s.topVersion]
    && IsPackageName(s.topName) && Utf8Size(s.topVersion) <= MAX_SPECIFIER_BYTES
    && 1 <= |lock.packages| <= s.limits.graphNodes
    && NoTwoAlike(lock.packages.Keys, p) && RecordsOk(lock, s, registry, p)
  }

  ghost predicate NoTwoAlike(paths: set<string>, p: Platform) {
    forall a, b :: a in paths && b in paths && a != b ==> p.lower(a) != p.lower(b)
  }

  predicate RecordsOk(lock: Lock, s: Settings, registry: Text, p: Platform) {
    forall path :: path in lock.packages ==> RecordOk(path, lock.packages[path], registry, s, p)
  }

  /** One node for each record, in the order of their paths. */
  ghost predicate Lists(nodes: seq<RawNode>, lock: Lock, p: Platform) {
    InOrder(nodes, p.sorted(lock.packages.Keys), lock.packages)
  }

  ghost predicate InOrder(nodes: seq<RawNode>, paths: seq<string>, packages: map<string, RawRecord>) {
    |nodes| == |paths| && forall i :: 0 <= i < |paths| ==>
      paths[i] in packages && Tells(nodes[i], paths[i], packages[paths[i]])
  }

  lemma DistinctIff(paths: seq<string>, keys: set<string>, p: Platform)
    requires Distinct(paths) && forall k :: k in paths <==> k in keys
    ensures PortablyDistinct(paths, p) <==> NoTwoAlike(keys, p)
  {
    if PortablyDistinct(paths, p) {
      forall a, b | a in keys && b in keys && a != b ensures p.lower(a) != p.lower(b) {
        var i :| 0 <= i < |paths| && paths[i] == a;
        var j :| 0 <= j < |paths| && paths[j] == b;
      }
    }
    if NoTwoAlike(keys, p) {
      forall i, j | 0 <= i < j < |paths| ensures p.lower(paths[i]) != p.lower(paths[j]) {
        assert paths[i] in paths && paths[j] in paths;
      }
    }
  }

  predicate EachOk(paths: seq<string>, packages: map<string, RawRecord>, registry: Text, s: Settings, p: Platform) {
    forall i :: 0 <= i < |paths| ==> paths[i] in packages && RecordOk(paths[i], packages[paths[i]], registry, s, p)
  }

  lemma {:induction false} ParsedRecordsIff(paths: seq<string>, packages: map<string, RawRecord>, registry: Text,
                                            s: Settings, p: Platform, nodes: seq<RawNode>)
    requires forall i :: 0 <= i < |paths| ==> paths[i] in packages
    ensures ParseRecords(paths, packages, registry, s, p) == Some(nodes) <==>
            EachOk(paths, packages, registry, s, p) && InOrder(nodes, paths, packages)
    decreases |paths|
  {
    if ParseRecords(paths, packages, registry, s, p) == Some(nodes) {
      ParsedPaths(paths, packages, registry, s, p);
      forall i | 0 <= i < |paths|
        ensures RecordOk(paths[i], packages[paths[i]], registry, s, p)
                && Tells(nodes[i], paths[i], packages[paths[i]]) {
        ParsesRecordIff(paths[i], packages[paths[i]], registry, s, p, nodes[i]);
      }
    } else if EachOk(paths, packages, registry, s, p) && InOrder(nodes, paths, packages) {
      forall i | 0 <= i < |paths|
        ensures ParseRecord(paths[i], packages[paths[i]], registry, s, p) == Some(nodes[i]) {
        ParsesRecordIff(paths[i], packages[paths[i]], registry, s, p, nodes[i]);
      }
      ParsedAlike(paths, packages, nodes, registry, s, p);
    }
  }

  lemma EachPath(paths: seq<string>, lock: Lock, registry: Text, s: Settings, p: Platform)
    requires forall k :: k in paths <==> k in lock.packages.Keys
    ensures EachOk(paths, lock.packages, registry, s, p) <==> RecordsOk(lock, s, registry, p)
  {
    if EachOk(paths, lock.packages, registry, s, p) {
      forall path | path in lock.packages ensures RecordOk(path, lock.packages[path], registry, s, p) {
        assert path in paths;
      }
    }
    forall i | 0 <= i < |paths| ensures paths[i] in lock.packages {
      assert paths[i] in paths;
    }
  }

  lemma SortedPaths(lock: Lock, p: Platform)
    requires Sorts(p)
    ensures var paths := p.sorted(lock.packages.Keys);
            && Distinct(paths) && (forall k :: k in paths <==> k in lock.packages.Keys) && |paths| == |lock.packages|
            && forall i :: 0 <= i < |paths| ==> paths[i] in lock.packages
  {
    var paths := p.sorted(lock.packages.Keys);
    ListedOnce(paths, lock.packages.Keys);
    forall i | 0 <= i < |paths| ensures paths[i] in lock.packages {
      assert paths[i] in paths;
    }
  }

  /** Exactly the locks in order are parsed, each to the one list of nodes that tells its records. */
  lemma {:induction false} ParsesLockIff(lock: Lock, s: Settings, registry: Text, p: Platform, nodes: seq<RawNode>)
    requires Sane(p)
    ensures ParseLock(lock, s, registry, p) == Some(nodes) <==> LockOk(lock, s, registry, p) && Lists(nodes, lock, p)
  {
    var paths := p.sorted(lock.packages.Keys);
    SortedPaths(lock, p);
    DistinctIff(paths, lock.packages.Keys, p);
    EachPath(paths, lock, registry, s, p);
    ParsedRecordsIff(paths, lock.packages, registry, s, p, nodes);
    if lock.rootDependencies == map[s.topName := s.topVersion] {
      RootIs(lock, s);
    }
  }

  lemma RootIs(lock: Lock, s: Settings)
    requires lock.rootDependencies == map[s.topName := s.topVersion]
    ensures StringMap(Some(lock.rootDependencies)).Some? <==>
            IsPackageName(s.topName) && Utf8Size(s.topVersion) <= MAX_SPECIFIER_BYTES
  {
    assert s.topName in lock.rootDependencies;
  }

  // ----- What a compiled candidate retains -----

  lemma TellsIsKept(n: RawNode, path: string, r: RawRecord)
    requires Tells(n, path, r)
    ensures RecordOf(n) == r
  {
  }

  /** What is rebuilt from nodes that list a lock is the lock's packages. */
  lemma {:induction false} RebuiltIsLock(nodes: seq<Node>, lock: Lock, p: Platform)
    requires Sorts(p) && Lists(RawOf(nodes), lock, p)
    ensures RebuiltPackages(nodes) == Some(lock.packages)
  {
    var paths := p.sorted(lock.packages.Keys);
    RebuiltFromNodes(nodes, paths);
    var packages := RebuiltPackages(nodes).value;
    forall path | path in lock.packages ensures path in packages && packages[path] == lock.packages[path] {
      var i :| 0 <= i < |paths| && paths[i] == path;
      TellsIsKept(nodes[i].raw, path, lock.packages[path]);
    }
    assert packages.Keys == lock.packages.Keys;
    assert packages == lock.packages;
  }

  /** The steps of a compilation that succeeds. */
  lemma {:induction false} CompilesFrom(lock: Lock, s: Settings, registry: Text, p: Platform)
    returns (raw: seq<RawNode>, results: seq<PeerResult>)
    requires Sane(p) && CompileLock(lock, s, registry, p).Some?
    ensures ParseLock(lock, s, registry, p) == Some(raw)
    ensures p.analyzePeers(lock.rootDependencies, raw) == Some(results)
    ensures var u := CompileLock(lock, s, registry, p).value;
            && Assemble(raw, |raw|, results, p) == Some(u.nodes)
            && u.settings == s && u.registry == registry && u.rootDependencies == lock.rootDependencies
  {
    raw := ParseLock(lock, s, registry, p).value;
    results := p.analyzePeers(lock.rootDependencies, raw).value;
  }

  lemma {:induction false} AssembledFromAll(raw: seq<RawNode>, results: seq<PeerResult>, p: Platform, nodes: seq<Node>)
    requires Assemble(raw, |raw|, results, p) == Some(nodes)
    ensures RawOf(nodes) == raw
  {
    AssembledRaw(raw, |raw|, results, p);
  }

  /**
    * Stripped of what was derived, a compiled candidate is its lock again: the same records under the same paths, in
    * order, and the same root.
    */
  lemma {:induction false} CompiledRetainsLock(lock: Lock, s: Settings, registry: Text, p: Platform)
    requires Sane(p) && CompileLock(lock, s, registry, p).Some?
    ensures var u := CompileLock(lock, s, registry, p).value;
            && u.settings == s && u.registry == registry && u.rootDependencies == lock.rootDependencies
            && RebuiltPackages(u.nodes) == Some(lock.packages) && Lists(RawOf(u.nodes), lock, p)
  {
    var raw, results := CompilesFrom(lock, s, registry, p);
    var nodes := CompileLock(lock, s, registry, p).value.nodes;
    ParsesLockIff(lock, s, registry, p, raw);
    AssembledFromAll(raw, results, p, nodes);
    RebuiltIsLock(nodes, lock, p);
  }

  // ----- What compiles -----

  /** From a package's path both walks find the same copy. */
  lemma WalksAgree(path: string, name: string, paths: set<string>)
    requires PackagePath(path)
    ensures ResolveNearest(path, name, paths) == Nearest(path, name, paths)
  {
    var names :| AllPackages(names) && names != [] && PathOf(names) == path;
    var n := |names|;
    assert names[..n] == names;
    PackagesAreSteps(names);
    ResolveNearestIsNearest(names, n, name, paths);
    NearestIsHosted(names, n, name, paths);
    NearestHostUnique(names, name, paths, ResolveNearest(path, name, paths), Nearest(path, name, paths));
  }

  lemma {:induction false} EdgesResolve(n: RawNode, names: seq<string>, paths: set<string>)
    requires forall k :: k in names ==> k in n.dependencies && ResolveNearest(n.path, k, paths).Some?
    ensures EdgesFor(n, names, paths).Some?
    decreases |names|
  {
    if names != [] {
      EdgesResolve(n, names[..|names| - 1], paths);
      assert names[|names| - 1] in names;
    }
  }

  lemma {:induction false} ResultsResolve(path: string, results: seq<PeerResult>, nodes: seq<RawNode>)
    requires forall r :: r in results ==> RequirementOf(r, nodes).Some?
    ensures RequirementsFor(path, results, nodes).Some?
    decreases |results|
  {
    if results != [] {
      ResultsResolve(path, results[..|results| - 1], nodes);
      assert results[|results| - 1] in results;
    }
  }

  lemma {:induction false} AllAssemble(nodes: seq<RawNode>, upTo: nat, results: seq<PeerResult>, p: Platform)
    requires upTo <= |nodes| && forall r :: r in results ==> RequirementOf(r, nodes).Some?
    requires forall i :: 0 <= i < upTo ==>
               EdgesFor(nodes[i], p.sorted(nodes[i].dependencies.Keys), PathsOf(nodes)).Some?
    ensures Assemble(nodes, upTo, results, p).Some?
    decreases upTo
  {
    if upTo > 0 {
      AllAssemble(nodes, upTo - 1, results, p);
      ResultsResolve(nodes[upTo - 1].path, results, nodes);
    }
  }

  lemma FoundAt(nodes: seq<RawNode>, x: string)
    requires PathsDiffer(nodes) && x in Index(nodes)
    ensures NodeAt(nodes, x) == Some(Index(nodes)[x])
  {
    var i :| 0 <= i < |nodes| && nodes[i] == Index(nodes)[x];
    NodeFoundAt(nodes, i);
  }

  lemma ToldResolves(nodes: seq<RawNode>, results: seq<PeerResult>, r: PeerResult)
    requires PathsDiffer(nodes) && TellsPeers(results, Index(nodes).Keys, Index(nodes)) && r in results
    ensures RequirementOf(r, nodes).Some?
  {
    FoundAt(nodes, r.from);
    if r.target.Some? {
      FoundAt(nodes, r.target.value);
    }
  }

  lemma NodeEdgesResolve(nodes: seq<RawNode>, i: nat, t: Tools, p: Platform)
    requires i < |nodes| && PathsDiffer(nodes) && Sorts(p) && AllResolve(Index(nodes), t) && PackagePath(nodes[i].path)
    ensures EdgesFor(nodes[i], p.sorted(nodes[i].dependencies.Keys), PathsOf(nodes)).Some?
  {
    IndexAt(nodes, i);
    IndexPaths(nodes);
    forall k | k in nodes[i].dependencies ensures ResolveNearest(nodes[i].path, k, PathsOf(nodes)).Some? {
      WalksAgree(nodes[i].path, k, PathsOf(nodes));
    }
    EdgesResolve(nodes[i], p.sorted(nodes[i].dependencies.Keys), PathsOf(nodes));
  }

  /** What the analysis accepts is assembled: every declaration and every result resolves. */
  lemma {:induction false} AcceptedAssembles(root: Declarations, nodes: seq<RawNode>, results: seq<PeerResult>,
                                             t: Tools, p: Platform)
    requires Sorts(p) && Works(t) && NamesChecked(root, nodes) && Accepted(root, nodes, t)
    requires TellsPeers(results, Index(nodes).Keys, Index(nodes))
    ensures Assemble(nodes, |nodes|, results, p).Some?
  {
    NamesAreIn(root, nodes);
    RequiredArePlaced(root, Index(nodes), t);
    forall r | r in results ensures RequirementOf(r, nodes).Some? {
      ToldResolves(nodes, results, r);
    }
    forall i | 0 <= i < |nodes|
      ensures EdgesFor(nodes[i], p.sorted(nodes[i].dependencies.Keys), PathsOf(nodes)).Some? {
      assert nodes[i] in nodes;
      NodeEdgesResolve(nodes, i, t, p);
    }
    AllAssemble(nodes, |nodes|, results, p);
  }

  lemma ListedNames(lock: Lock, s: Settings, registry: Text, p: Platform, nodes: seq<RawNode>)
    requires Sorts(p) && LockOk(lock, s, registry, p) && Lists(nodes, lock, p)
    ensures NamesChecked(lock.rootDependencies, nodes)
  {
    var paths := p.sorted(lock.packages.Keys);
    forall i | 0 <= i < |nodes| ensures NamesOk(nodes[i]) {
      assert RecordOk(paths[i], lock.packages[paths[i]], registry, s, p);
      assert Tells(nodes[i], paths[i], lock.packages[paths[i]]);
    }
  }

  /** The nodes that tell the lock's records are in order for the analysis. */
  ghost predicate NodesAccepted(lock: Lock, p: Platform, t: Tools) {
    exists nodes :: Lists(nodes, lock, p) && Accepted(lock.rootDependencies, nodes, t)
  }

  /** Exactly the locks in order whose nodes the analysis accepts compile. */
  lemma {:induction false} CompilesIff(lock: Lock, s: Settings, registry: Text, p: Platform, t: Tools)
    requires Sane(p) && Computes(p, t)
    ensures CompileLock(lock, s, registry, p).Some? <==> LockOk(lock, s, registry, p) && NodesAccepted(lock, p, t)
  {
    if CompileLock(lock, s, registry, p).Some? {
      var raw, results := CompilesFrom(lock, s, registry, p);
      ParsesLockIff(lock, s, registry, p, raw);
    } else if LockOk(lock, s, registry, p) && NodesAccepted(lock, p, t) {
      var nodes :| Lists(nodes, lock, p) && Accepted(lock.rootDependencies, nodes, t);
      ParsesLockIff(lock, s, registry, p, nodes);
      ListedNames(lock, s, registry, p, nodes);
      AcceptedAssembles(lock.rootDependencies, nodes, p.analyzePeers(lock.rootDependencies, nodes).value, t, p);
      assert false;
    }
  }
}
