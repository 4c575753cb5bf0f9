/** Compiling the nodes of a V2 candidate from a lock, and compiling again the lock rebuilt from them. */
module CandidateV2 {
  import opened Sequences
  import opened Options
  import opened Splitting
  import opened InstallPaths
  import opened JsonText
  import opened JsonValues
  import opened Utf8

  /** An object from names to text; objects are compared by their members, whatever their order. */
  type Declarations = map<string, Text>

  type MetaDeclarations = map<string, Option<bool>>

  /** A package record: an absent member is `None`. */
  datatype RawRecord = RawRecord(
    version: Text, resolved: Text, integrity: Text,
    dependencies: Option<Declarations>, peers: Option<Declarations>, meta: Option<MetaDeclarations>, peer: Option<bool>)

  datatype Lock = Lock(rootDependencies: Declarations, packages: map<string, RawRecord>)

  datatype Limits = Limits(
    graphNodes: SafeInteger, compressedArtifactBytes: SafeInteger, totalCompressedBytes: SafeInteger,
    uncompressedArtifactBytes: SafeInteger, totalUncompressedBytes: SafeInteger, regularFileBytes: SafeInteger,
    archiveEntries: SafeInteger, relativePathBytes: SafeInteger, pathDepth: SafeInteger)

  /** The settings a candidate carries unchanged. */
  datatype Settings = Settings(
    profileId: Text, profileVersion: SafeInteger, topName: string, topVersion: Text, entrypoint: Text,
    nodeVersion: Text, npmVersion: Text, materializationRulesVersion: SafeInteger, archiveRulesVersion: SafeInteger,
      limits: Limits)

  datatype RawNode = RawNode(
    path: string, packageName: string, exactVersion: Text, tarballUrl: Text, integrity: Text,
    dependenciesPresent: bool, dependencies: Declarations, peersPresent: bool, peers: Declarations,
    metaPresent: bool, meta: MetaDeclarations, peerFlag: Option<bool>)

  datatype Resolution = Absent | Present(installPath: string, exactVersion: Text)

  datatype PeerResult = PeerResult(from: string, name: string, optional: bool, target: Option<string>)

  datatype Requirement = Requirement(packageName: string, declaredSpecifier: Text, optional: bool,
                                     resolution: Resolution)

  datatype Edge = Edge(packageName: string, declaredSpecifier: Text, installPath: string)

  datatype Node = Node(raw: RawNode, edges: seq<Edge>, requirements: seq<Requirement>)

  datatype Unsigned = Unsigned(settings: Settings, registry: Text, rootDependencies: Declarations, nodes: seq<Node>)

  // ----- What the platform and the opaque parts supply -----

  datatype Platform = Platform(
    validSettings: Settings -> bool,
    normalizeRegistry: Text -> Option<Text>,
    validPath: (string, Settings) -> bool,
    lower: string -> string,
    isVersion: Text -> bool,
    validTarball: (Text, Text) -> bool,
    validIntegrity: Text -> bool,
    analyzePeers: (Declarations, seq<RawNode>) -> Option<seq<PeerResult>>,
    sorted: set<string> -> seq<string>,
    arrange: seq<Requirement> -> seq<Requirement>,
    sha: Text -> Text)

  const MAX_NODES := 256
  const MAX_PEERS := 2048
  const MAX_COMBINED := 4096

  /** The dependencies declared from one node on. */
  function DependencyCount(nodes: seq<RawNode>, from: nat): nat
    requires from <= |nodes|
    decreases |nodes| - from
  {
    if from == |nodes| then 0 else |nodes[from].dependencies| + DependencyCount(nodes, from + 1)
  }

  function PeerCount(nodes: seq<RawNode>, from: nat): nat
    requires from <= |nodes|
    decreases |nodes| - from
  {
    if from == |nodes| then 0 else |nodes[from].peers| + PeerCount(nodes, from + 1)
  }

  /** The analysis refuses more nodes, more peers, or more declarations in all. */
  predicate WithinBudget(root: Declarations, nodes: seq<RawNode>) {
    && |nodes| <= MAX_NODES && PeerCount(nodes, 0) <= MAX_PEERS
    && |root| + DependencyCount(nodes, 0) + PeerCount(nodes, 0) <= MAX_COMBINED
  }

  /** A node is a package at the top or right under another node. */
  ghost predicate Placed(nodes: seq<RawNode>, path: string, name: string) {
    && IsPackageName(name)
    && (path == NODE_MODULES + "/" + name || exists j :: 0 <= j < |nodes| && path == nodes[j].path + BOUNDARY + name)
  }

  ghost predicate IsPlaced(nodes: seq<RawNode>, path: string) {
    exists name :: Placed(nodes, path, name)
  }

  ghost predicate AllPlaced(nodes: seq<RawNode>) {
    forall i :: 0 <= i < |nodes| ==> IsPlaced(nodes, nodes[i].path)
  }

  /** No requirement of a node is told twice. */
  ghost predicate ToldOnce(results: seq<PeerResult>) {
    forall i, j :: 0 <= i < j < |results| ==> results[i].from != results[j].from || results[i].name != results[j].name
  }

  /**
    * What the success of the peer analysis means for compilation: its caps, its check of every path, one result for a
    * peer.
    */
  ghost predicate Analyzes(root: Declarations, nodes: seq<RawNode>, results: seq<PeerResult>) {
    WithinBudget(root, nodes) && AllPlaced(nodes) && ToldOnce(results)
  }

  /** Lower-case hexadecimal digits of a SHA-256 value. */
  predicate IsSha256(t: Text) {
    |t| == 64 && forall i :: 0 <= i < 64 ==> IsDigit(t[i]) || 0x61 <= t[i] <= 0x66
  }

  /** Sorting lists every key once. */
  ghost predicate Sorts(p: Platform) {
    forall keys :: Distinct(p.sorted(keys)) && forall k :: k in p.sorted(keys) <==> k in keys
  }

  /** Arranging only rearranges. */
  ghost predicate Arranges(p: Platform) {
    forall rs :: multiset(p.arrange(rs)) == multiset(rs)
  }

  /** A normalized registry is normal. */
  ghost predicate Normalizes(p: Platform) {
    forall r, n :: p.normalizeRegistry(r) == Some(n) ==> p.normalizeRegistry(n) == Some(n)
  }

  /** What parsing has checked of the names before the analysis: all of them name packages. */
  predicate NamesChecked(root: Declarations, nodes: seq<RawNode>) {
    && (forall k :: k in root ==> IsPackageName(k))
    && forall i :: 0 <= i < |nodes| ==> NamesOk(nodes[i])
  }

  predicate NamesOk(n: RawNode) {
    (forall k :: k in n.dependencies ==> IsPackageName(k)) && forall k :: k in n.peers ==> IsPackageName(k)
  }

  ghost predicate AnalyzesPeers(p: Platform) {
    forall root, nodes :: NamesChecked(root, nodes) && p.analyzePeers(root, nodes).Some? ==>
      Analyzes(root, nodes, p.analyzePeers(root, nodes).value)
  }

  ghost predicate Sane(p: Platform) {
    Sorts(p) && Arranges(p) && Normalizes(p) && AnalyzesPeers(p) && forall t :: IsSha256(p.sha(t))
  }

  // ----- Compilation -----

  const MAX_SPECIFIER_BYTES := 256

  /** The declarations of an object, where every name and text is acceptable. */
  function StringMap(value: Option<Declarations>): Option<Declarations> {
    match value
    case None => Some(map[])
    case Some(d) => if forall k :: k in d ==>
      IsPackageName(k) && Utf8Size(d[k]) <= MAX_SPECIFIER_BYTES then Some(d) else None
  }

  function NormalizeMeta(value: Option<MetaDeclarations>, peers: Declarations): Option<MetaDeclarations> {
    match value
    case None => Some(map[])
    case Some(m) => if forall k :: k in m ==> k in peers then Some(m) else None
  }

  /** The last part of a path, with the part before it when that is a scope; nothing unless it is a package name. */
  function NameFromPath(path: string): Option<string> {
    var segments := Split(path, '/');
    var last := segments[|segments| - 1];
    var name := if |segments| > 1 && StartsWithAt(segments[|segments| - 2]) then segments[|segments| - 2] + "/" + last
      else last;
    if IsPackageName(name) then Some(name) else None
  }

  function ParseRecord(path: string, r: RawRecord, registry: Text, s: Settings, p: Platform): Option<RawNode> {
    if !p.validPath(path, s) || !(NODE_MODULES + "/" <= path) || !p.isVersion(r.version)
       || !p.validTarball(r.resolved, registry) || !p.validIntegrity(r.integrity) || NameFromPath(path).None? then None
    else
      var dependencies, peers := StringMap(r.dependencies), StringMap(r.peers);
      if dependencies.None? || peers.None? then None
      else
        var meta := NormalizeMeta(r.meta, peers.value);
        if meta.None? then None
        else Some(RawNode(path, NameFromPath(path).value, r.version, r.resolved, r.integrity,
                          r.dependencies.Some?, dependencies.value, r.peers.Some?, peers.value, r.meta.Some?,
                            meta.value, r.peer))
  }

  /** The nodes of the listed paths, in that order. */
  function ParseRecords(paths: seq<string>, packages: map<string, RawRecord>, registry: Text, s: Settings,
                        p: Platform): Option<seq<RawNode>>
    requires forall i :: 0 <= i < |paths| ==> paths[i] in packages
  {
    if paths == [] then Some([])
    else
      var front := ParseRecords(paths[..|paths| - 1], packages, registry, s, p);
      var path := paths[|paths| - 1];
      var node := ParseRecord(path, packages[path], registry, s, p);
      if front.None? || node.None? then None else Some(front.value + [node.value])
  }

  predicate PortablyDistinct(paths: seq<string>, p: Platform) {
    forall i, j :: 0 <= i < j < |paths| ==> p.lower(paths[i]) != p.lower(paths[j])
  }

  function ParseLock(lock: Lock, s: Settings, registry: Text, p: Platform): Option<seq<RawNode>>
    requires Sane(p)
  {
    var root := StringMap(Some(lock.rootDependencies));
    var paths := p.sorted(lock.packages.Keys);
    if root.None? || lock.rootDependencies != map[s.topName := s.topVersion] then None
    else if |paths| == 0 || |paths| > s.limits.graphNodes || !PortablyDistinct(paths, p) then None
    else ParseRecords(paths, lock.packages, registry, s, p)
  }

  function PathsOf(nodes: seq<RawNode>): set<string> {
    set i | 0 <= i < |nodes| :: nodes[i].path
  }

  /** The walk up the text of the declaring path. */
  function ResolveNearest(cursor: string, name: string, paths: set<string>): Option<string>
    decreases |cursor|
  {
    var local := cursor + BOUNDARY + name;
    var boundary := LastIndexOf(cursor, BOUNDARY);
    if local in paths then Some(local)
    else if boundary < 0 then if NODE_MODULES + "/" + name in paths then Some(NODE_MODULES + "/" + name) else None
    else ResolveNearest(cursor[..boundary], name, paths)
  }

  function EdgesFor(n: RawNode, names: seq<string>, paths: set<string>): Option<seq<Edge>> {
    if names == [] then Some([])
    else
      var front, name := EdgesFor(n, names[..|names| - 1], paths), names[|names| - 1];
      var target := ResolveNearest(n.path, name, paths);
      if front.None? || target.None? || name !in n.dependencies then None
      else Some(front.value + [Edge(name, n.dependencies[name], target.value)])
  }

  function NodeAt(nodes: seq<RawNode>, path: string): Option<RawNode> {
    if nodes == [] then None
    else if nodes[|nodes| - 1].path == path then Some(nodes[|nodes| - 1]) else NodeAt(nodes[..|nodes| - 1], path)
  }

  /** The requirement a result of the peer analysis stands for. */
  function RequirementOf(r: PeerResult, nodes: seq<RawNode>): Option<Requirement> {
    match NodeAt(nodes, r.from)
    case None => None
    case Some(owner) =>
      if r.name !in owner.peers then None
      else
        match r.target
        case None => Some(Requirement(r.name, owner.peers[r.name], r.optional, Absent))
        case Some(target) =>
          match NodeAt(nodes, target)
          case None => None
          case Some(t) => Some(Requirement(r.name, owner.peers[r.name], r.optional, Present(t.path, t.exactVersion)))
  }

  /** The requirements of one path, in the order of the analysis; nothing when any result does not resolve. */
  function RequirementsFor(path: string, results: seq<PeerResult>, nodes: seq<RawNode>): Option<seq<Requirement>> {
    if results == [] then Some([])
    else
      var last := results[|results| - 1];
      var front, one := RequirementsFor(path, results[..|results| - 1], nodes), RequirementOf(last, nodes);
      if front.None? || one.None? then None else Some(front.value + if last.from == path then [one.value] else [])
  }

  function Assemble(nodes: seq<RawNode>, upTo: nat, results: seq<PeerResult>, p: Platform): Option<seq<Node>>
    requires upTo <= |nodes|
  {
    if upTo == 0 then Some([])
    else
      var n := nodes[upTo - 1];
      var front := Assemble(nodes, upTo - 1, results, p);
      var edges := EdgesFor(n, p.sorted(n.dependencies.Keys), PathsOf(nodes));
      var requirements := RequirementsFor(n.path, results, nodes);
      if front.None? || edges.None? || requirements.None? then None
      else Some(front.value + [Node(n, edges.value, p.arrange(requirements.value))])
  }

  /** The candidate of a lock, before its size is checked. */
  function CompileLock(lock: Lock, s: Settings, registry: Text, p: Platform): Option<Unsigned>
    requires Sane(p)
  {
    match ParseLock(lock, s, registry, p)
    case None => None
    case Some(raw) =>
      match p.analyzePeers(lock.rootDependencies, raw)
      case None => None
      case Some(results) =>
        match Assemble(raw, |raw|, results, p)
        case None => None
        case Some(nodes) => Some(Unsigned(s, registry, lock.rootDependencies, nodes))
  }

  // ----- The lock rebuilt from what a candidate declares -----

  /** The record a node retains; its derived edges and requirements are left behind. */
  function RecordOf(n: RawNode): RawRecord {
    RawRecord(n.exactVersion, n.tarballUrl, n.integrity,
              if n.dependenciesPresent then Some(n.dependencies) else None,
              if n.peersPresent then Some(n.peers) else None,
              if n.metaPresent then Some(n.meta) else None,
              n.peerFlag)
  }

  /** The packages of the rebuilt lock; nothing when a path occurs twice. */
  function RebuiltPackages(nodes: seq<Node>): Option<map<string, RawRecord>> {
    if nodes == [] then Some(map[])
    else
      var front, n := RebuiltPackages(nodes[..|nodes| - 1]), nodes[|nodes| - 1].raw;
      if front.None? || n.path in front.value then None else Some(front.value[n.path := RecordOf(n)])
  }

  // ----- Rebuilding what a compiler produced -----

  /** A parsed record is retained: parsing it again gives the same node. */
  lemma RetainedRecord(path: string, r: RawRecord, registry: Text, s: Settings, p: Platform)
    requires ParseRecord(path, r, registry, s, p).Some?
    ensures var n := ParseRecord(path, r, registry, s, p).value;
            n.path == path && ParseRecord(path, RecordOf(n), registry, s, p) == Some(n)
  {
  }

  lemma {:induction false} ParsedPaths(paths: seq<string>, packages: map<string, RawRecord>, registry: Text,
                                       s: Settings, p: Platform)
    requires (forall i :: 0 <= i < |paths| ==> paths[i] in packages)
        && ParseRecords(paths, packages, registry, s, p).Some?
    ensures var nodes := ParseRecords(paths, packages, registry, s, p).value;
            |nodes| == |paths| && forall i :: 0 <= i < |paths| ==>
              nodes[i].path == paths[i] && ParseRecord(paths[i], packages[paths[i]], registry, s, p) == Some(nodes[i])
    decreases |paths|
  {
    if paths != [] {
      ParsedPaths(paths[..|paths| - 1], packages, registry, s, p);
    }
  }

  /** Records that parse alike at every listed path give the same nodes. */
  lemma {:induction false} ParsedAlike(paths: seq<string>, a: map<string, RawRecord>, nodes: seq<RawNode>,
                                       registry: Text,
                                       s: Settings, p: Platform)
    requires |nodes| == |paths| && forall i :: 0 <= i < |paths| ==>
                                           paths[i] in a && ParseRecord(paths[i], a[paths[i]], registry, s,
                                               p) == Some(nodes[i])
    ensures ParseRecords(paths, a, registry, s, p) == Some(nodes)
    decreases |paths|
  {
    if paths != [] {
      var n := |paths| - 1;
      ParsedAlike(paths[..n], a, nodes[..n], registry, s, p);
      assert nodes == nodes[..n] + [nodes[n]];
    }
  }

  lemma {:induction false} AssembledRaw(nodes: seq<RawNode>, upTo: nat, results: seq<PeerResult>, p: Platform)
    requires upTo <= |nodes| && Assemble(nodes, upTo, results, p).Some?
    ensures var made := Assemble(nodes, upTo, results, p).value;
            |made| == upTo && forall i :: 0 <= i < upTo ==> made[i].raw == nodes[i]
    decreases upTo
  {
    if upTo > 0 {
      AssembledRaw(nodes, upTo - 1, results, p);
    }
  }

  /** The packages are the records of these nodes under these paths. */
  ghost predicate Retains(packages: map<string, RawRecord>, nodes: seq<Node>, paths: seq<string>) {
    && |paths| == |nodes| && (forall k :: k in packages <==> k in paths)
    && forall i :: 0 <= i < |nodes| ==> paths[i] in packages && packages[paths[i]] == RecordOf(nodes[i].raw)
  }

  lemma {:induction false} RetainOneMore(packages: map<string, RawRecord>, nodes: seq<Node>, paths: seq<string>,
                                         n: Node, path: string)
    requires Retains(packages, nodes, paths) && path !in paths
    ensures Retains(packages[path := RecordOf(n.raw)], nodes + [n], paths + [path])
  {
  }

  lemma {:induction false} RebuiltFromNodes(nodes: seq<Node>, paths: seq<string>)
    requires |paths| == |nodes| && Distinct(paths) && forall i :: 0 <= i < |nodes| ==> nodes[i].raw.path == paths[i]
    ensures RebuiltPackages(nodes).Some? && Retains(RebuiltPackages(nodes).value, nodes, paths)
    decreases |nodes|
  {
    if nodes != [] {
      var n := |nodes| - 1;
      RebuiltFromNodes(nodes[..n], paths[..n]);
      assert paths[n] !in paths[..n];
      RetainOneMore(RebuiltPackages(nodes[..n]).value, nodes[..n], paths[..n], nodes[n], paths[n]);
      LastSplits(nodes);
      LastSplits(paths);
    }
  }

  lemma SameSortedKeys(p: Platform, a: set<string>, b: set<string>)
    requires Sane(p) && forall k :: k in a <==> k in b
    ensures p.sorted(a) == p.sorted(b)
  {
    assert a == b;
  }

  /** What the parse of a lock found is found again in the lock rebuilt from its nodes. */
  lemma {:induction false} RebuiltLockParsesAlike(lock: Lock, s: Settings, registry: Text, p: Platform,
                                                  raw: seq<RawNode>, nodes: seq<Node>)
    requires Sane(p) && ParseLock(lock, s, registry, p) == Some(raw)
    requires |nodes| == |raw| && forall i :: 0 <= i < |raw| ==> nodes[i].raw == raw[i]
    ensures RebuiltPackages(nodes).Some?
    ensures ParseLock(Lock(lock.rootDependencies, RebuiltPackages(nodes).value), s, registry, p) == Some(raw)
  {
    var paths := p.sorted(lock.packages.Keys);
    ParsedPaths(paths, lock.packages, registry, s, p);
    RebuiltFromNodes(nodes, paths);
    var packages := RebuiltPackages(nodes).value;
    SameSortedKeys(p, packages.Keys, lock.packages.Keys);
    forall i | 0 <= i < |paths|
      ensures paths[i] in packages && ParseRecord(paths[i], packages[paths[i]], registry, s, p) == Some(raw[i]) {
      RetainedRecord(paths[i], lock.packages[paths[i]], registry, s, p);
    }
    ParsedAlike(paths, packages, raw, registry, s, p);
  }

  /** A compiled candidate compiles, from the lock rebuilt of what it retains, to itself. */
  lemma {:induction false} CompiledRecompiles(lock: Lock, s: Settings, registry: Text, p: Platform)
    requires Sane(p) && CompileLock(lock, s, registry, p).Some?
    ensures var u := CompileLock(lock, s, registry, p).value;
            && RebuiltPackages(u.nodes).Some?
            && CompileLock(Lock(u.rootDependencies, RebuiltPackages(u.nodes).value), s, registry, p) == Some(u)
  {
    var raw := ParseLock(lock, s, registry, p).value;
    var results := p.analyzePeers(lock.rootDependencies, raw).value;
    AssembledRaw(raw, |raw|, results, p);
    var nodes := Assemble(raw, |raw|, results, p).value;
    RebuiltLockParsesAlike(lock, s, registry, p, raw, nodes);
  }

  // ----- The nearest copy -----

  /** Over paths that spell chains of packages, the walk finds the copy under the nearest host. */
  lemma {:induction false} ResolveNearestIsNearest(names: seq<string>, depth: nat, name: string, paths: set<string>)
    requires Chain(names) && 1 <= depth <= |names|
    ensures NearestHost(names[..depth], name, paths, ResolveNearest(PathOf(names[..depth]), name, paths))
    decreases depth
  {
    var here := names[..depth];
    AtDepth(names, depth, name);
    AtRoot(here, name);
    assert here[..depth] == here;
    assert Candidate(here, depth, name) == PathOf(here) + BOUNDARY + name;
    if PathOf(here) + BOUNDARY + name in paths {
      assert NearestAt(here, name, paths, depth);
    } else if depth == 1 {
      assert NODE_MODULES + "/" + name in paths ==> NearestAt(here, name, paths, 0);
    } else {
      ResolveNearestIsNearest(names, depth - 1, name, paths);
      WidenHost(names, depth, name, paths, ResolveNearest(PathOf(names[..depth - 1]), name, paths));
    }
  }

  // ----- Edges of compiled candidates -----

  lemma NamesOkOne(path: string, r: RawRecord, registry: Text, s: Settings, p: Platform)
    requires ParseRecord(path, r, registry, s, p).Some?
    ensures NamesOk(ParseRecord(path, r, registry, s, p).value)
  {
  }

  /** What the analysis is given names only packages, so its answer means what it should. */
  lemma {:induction false} CompiledAnalyzes(lock: Lock, s: Settings, registry: Text, p: Platform)
    requires Sane(p) && CompileLock(lock, s, registry, p).Some?
    ensures var raw := ParseLock(lock, s, registry, p).value;
            && p.analyzePeers(lock.rootDependencies, raw).Some?
            && NamesChecked(lock.rootDependencies, raw)
            && Analyzes(lock.rootDependencies, raw, p.analyzePeers(lock.rootDependencies, raw).value)
  {
    var raw := ParseLock(lock, s, registry, p).value;
    var paths := p.sorted(lock.packages.Keys);
    ParsedPaths(paths, lock.packages, registry, s, p);
    forall j | 0 <= j < |raw| ensures NamesOk(raw[j]) {
      NamesOkOne(paths[j], lock.packages[paths[j]], registry, s, p);
    }
  }

  lemma {:induction false} PackageNameIsStep(name: string)
    requires IsPackageName(name)
    ensures StepName(name)
  {
  }

  lemma {:induction false} TopIsValid(name: string)
    requires IsPackageName(name)
    ensures ValidInstallPath(NODE_MODULES + "/" + name)
  {
    PackageNameIsStep(name);
    PathOfAppend([], name);
    assert [] + [name] == [name];
    assert Spells(NODE_MODULES + "/" + name, [name]) && InstallPaths.Last([name]) == name;
  }

  lemma {:induction false} UnderIsValid(path: string, name: string)
    requires ValidInstallPath(path) && IsPackageName(name)
    ensures ValidInstallPath(path + BOUNDARY + name)
  {
    PackageNameIsStep(name);
    var host :| Spells(path, host) && IsPackageName(InstallPaths.Last(host));
    PathOfAppend(host, name);
    assert Spells(path + BOUNDARY + name, host + [name]) && InstallPaths.Last(host + [name]) == name;
  }

  /** Placed nodes are installed under chains of packages. */
  lemma {:induction false} PlacedSpells(nodes: seq<RawNode>, i: nat)
    requires AllPlaced(nodes) && i < |nodes|
    ensures ValidInstallPath(nodes[i].path)
    decreases |nodes[i].path|
  {
    var path := nodes[i].path;
    var name :| Placed(nodes, path, name);
    if path == NODE_MODULES + "/" + name {
      TopIsValid(name);
    } else {
      var j: nat :| j < |nodes| && path == nodes[j].path + BOUNDARY + name;
      PlacedSpells(nodes, j);
      UnderIsValid(nodes[j].path, name);
    }
  }

  /** The edge leads to the copy under the nearest host of the package that declares it, with the text it declares. */
  ghost predicate NearestEdge(n: RawNode, e: Edge, paths: set<string>) {
    && e.packageName in n.dependencies && e.declaredSpecifier == n.dependencies[e.packageName]
    && exists names :: Spells(n.path, names) && NearestHost(names, e.packageName, paths, Some(e.installPath))
  }

  lemma {:induction false} EdgesAreNearest(n: RawNode, names: seq<string>, paths: set<string>)
    requires EdgesFor(n, names, paths).Some? && exists chain :: Spells(n.path, chain)
    ensures var edges := EdgesFor(n, names, paths).value;
            |edges| == |names| && forall j :: 0 <= j < |edges| ==>
              edges[j].packageName == names[j] && NearestEdge(n, edges[j], paths)
    decreases |names|
  {
    if names != [] {
      var k := |names| - 1;
      EdgesAreNearest(n, names[..k], paths);
      var chain :| Spells(n.path, chain);
      ResolveNearestIsNearest(chain, |chain|, names[k], paths);
      assert chain[..|chain|] == chain;
      var edges := EdgesFor(n, names, paths).value;
      assert edges[..k] == EdgesFor(n, names[..k], paths).value;
      assert NearestEdge(n, edges[k], paths);
    }
  }

  /** Exactly one edge for each declared dependency, each to the nearest copy. */
  ghost predicate EdgesOk(n: Node, paths: set<string>) {
    && |n.edges| == |n.raw.dependencies|
    && (forall name :: name in n.raw.dependencies ==> exists j :: 0 <= j < |n.edges| && n.edges[j].packageName == name)
    && forall j :: 0 <= j < |n.edges| ==> NearestEdge(n.raw, n.edges[j], paths)
  }

  lemma {:induction false} NodeEdgesOk(n: RawNode, edges: seq<Edge>, requirements: seq<Requirement>,
                                       paths: set<string>, p: Platform)
    requires Sorts(p) && EdgesFor(n, p.sorted(n.dependencies.Keys), paths) == Some(edges)
        && exists chain :: Spells(n.path, chain)
    ensures EdgesOk(Node(n, edges, requirements), paths)
  {
    var names := p.sorted(n.dependencies.Keys);
    EdgesAreNearest(n, names, paths);
    ListedOnce(names, n.dependencies.Keys);
    forall name | name in n.dependencies ensures exists j :: 0 <= j < |edges| && edges[j].packageName == name {
      assert name in names;
      var j :| 0 <= j < |names| && names[j] == name;
      assert edges[j].packageName == name;
    }
  }

  /** A sequence that lists a set once is as long as the set is large; within a set, it is no longer. */
  lemma {:induction false} ListedOnce<T>(s: seq<T>, t: set<T>)
    requires Distinct(s) && forall x :: x in s ==> x in t
    ensures |s| <= |t| && ((forall x :: x in t ==> x in s) ==> |s| == |t|)
    decreases |s|
  {
    if s == [] {
      assert (forall x :: x in t ==> x in s) ==> t == {};
    } else {
      var n := |s| - 1;
      var last := s[n];
      assert last !in s[..n];
      ListedOnce(s[..n], t - {last});
    }
  }

  /** The made nodes are these raw nodes with their edges. */
  ghost predicate EdgesMade(made: seq<Node>, nodes: seq<RawNode>, paths: set<string>) {
    |made| <= |nodes| && forall i :: 0 <= i < |made| ==> made[i].raw == nodes[i] && EdgesOk(made[i], paths)
  }

  lemma {:induction false} OneMoreMade(made: seq<Node>, nodes: seq<RawNode>, paths: set<string>, n: Node)
    requires EdgesMade(made, nodes, paths) && |made| < |nodes| && n.raw == nodes[|made|] && EdgesOk(n, paths)
    ensures EdgesMade(made + [n], nodes, paths)
  {
  }

  lemma {:induction false} AssembledEdges(nodes: seq<RawNode>, upTo: nat, results: seq<PeerResult>, p: Platform)
    requires Sorts(p) && AllPlaced(nodes) && upTo <= |nodes| && Assemble(nodes, upTo, results, p).Some?
    ensures |Assemble(nodes, upTo, results, p).value| == upTo
    ensures EdgesMade(Assemble(nodes, upTo, results, p).value, nodes, PathsOf(nodes))
    decreases upTo
  {
    if upTo > 0 {
      var n := nodes[upTo - 1];
      AssembledEdges(nodes, upTo - 1, results, p);
      PlacedSpells(nodes, upTo - 1);
      var edges := EdgesFor(n, p.sorted(n.dependencies.Keys), PathsOf(nodes)).value;
      var one := Node(n, edges, p.arrange(RequirementsFor(n.path, results, nodes).value));
      NodeEdgesOk(n, edges, one.requirements, PathsOf(nodes), p);
      OneMoreMade(Assemble(nodes, upTo - 1, results, p).value, nodes, PathsOf(nodes), one);
    }
  }

  function Paths(u: Unsigned): set<string> {
    set i | 0 <= i < |u.nodes| :: u.nodes[i].raw.path
  }

  /** The nodes spell chains of packages, and their edges are their dependencies' nearest copies. */
  ghost predicate WellResolved(u: Unsigned) {
    forall i :: 0 <= i < |u.nodes| ==>
      EdgesOk(u.nodes[i], Paths(u)) && ValidInstallPath(u.nodes[i].raw.path)
  }

  lemma {:induction false} MadeWellResolved(u: Unsigned, raw: seq<RawNode>)
    requires AllPlaced(raw) && |u.nodes| == |raw| && EdgesMade(u.nodes, raw, PathsOf(raw))
    ensures WellResolved(u)
  {
    assert Paths(u) == PathsOf(raw);
    forall i | 0 <= i < |u.nodes| ensures ValidInstallPath(u.nodes[i].raw.path) {
      PlacedSpells(raw, i);
    }
  }

  /** Every edge of a compiled candidate leads to the copy under the nearest package that hosts one. */
  lemma {:induction false} CompiledEdgesAreNearest(lock: Lock, s: Settings, registry: Text, p: Platform)
    requires Sane(p) && CompileLock(lock, s, registry, p).Some?
    ensures WellResolved(CompileLock(lock, s, registry, p).value)
  {
    var raw := ParseLock(lock, s, registry, p).value;
    var results := p.analyzePeers(lock.rootDependencies, raw).value;
    CompiledAnalyzes(lock, s, registry, p);
    AssembledEdges(raw, |raw|, results, p);
    MadeWellResolved(CompileLock(lock, s, registry, p).value, raw);
  }

  // ----- How large a compiled candidate can be -----

  /** What one node brings: its edges, and no more requirements than it declares peers, nor more optional marks. */
  ghost predicate NodeBounded(n: Node) {
    |n.edges| == |n.raw.dependencies| && |n.requirements| <= |n.raw.peers| && |n.raw.meta| <= |n.raw.peers|
  }

  lemma {:induction false} NodeFound(nodes: seq<RawNode>, path: string)
    ensures NodeAt(nodes, path).Some? ==> NodeAt(nodes, path).value in nodes && NodeAt(nodes, path).value.path == path
  {
    if nodes != [] {
      NodeFound(nodes[..|nodes| - 1], path);
    }
  }

  lemma {:induction false} NodeFoundAt(nodes: seq<RawNode>, i: nat)
    requires i < |nodes| && forall j, k :: 0 <= j < k < |nodes| ==> nodes[j].path != nodes[k].path
    ensures NodeAt(nodes, nodes[i].path) == Some(nodes[i])
  {
    var n := |nodes| - 1;
    if i < n {
      NodeFoundAt(nodes[..n], i);
    }
  }

  function Names(rs: seq<Requirement>): (names: seq<string>)
    ensures |names| == |rs| && forall i :: 0 <= i < |rs| ==> names[i] == rs[i].packageName
  {
    seq(|rs|, i requires 0 <= i < |rs| => rs[i].packageName)
  }

  /** The requirements of a path are as many results told from it, for different peers of its node. */
  lemma {:induction false} RequirementsOfPeers(path: string, results: seq<PeerResult>, nodes: seq<RawNode>)
    requires ToldOnce(results) && RequirementsFor(path, results, nodes).Some?
    ensures var names := Names(RequirementsFor(path, results, nodes).value);
            && Distinct(names)
            && (forall name :: name in names ==>
               exists k :: 0 <= k < |results| && results[k].from == path && results[k].name == name)
            && (names != [] ==> NodeAt(nodes, path).Some? && forall name :: name in names ==>
               name in NodeAt(nodes, path).value.peers)
    decreases |results|
  {
    if results != [] {
      var n := |results| - 1;
      RequirementsOfPeers(path, results[..n], nodes);
      var front := RequirementsFor(path, results[..n], nodes).value;
      var all := RequirementsFor(path, results, nodes).value;
      if results[n].from == path {
        assert results[n].name !in Names(front) by {
          assert forall k :: 0 <= k < n && results[k].from == path ==> results[k].name != results[n].name;
        }
        assert Names(all) == Names(front) + [results[n].name];
      } else {
        assert all == front;
      }
    }
  }

  lemma {:induction false} RequirementsWithin(i: nat, results: seq<PeerResult>, nodes: seq<RawNode>)
    requires ToldOnce(results) && i < |nodes| && RequirementsFor(nodes[i].path, results, nodes).Some?
    requires forall j, k :: 0 <= j < k < |nodes| ==> nodes[j].path != nodes[k].path
    ensures |RequirementsFor(nodes[i].path, results, nodes).value| <= |nodes[i].peers|
  {
    RequirementsOfPeers(nodes[i].path, results, nodes);
    NodeFoundAt(nodes, i);
    var names := Names(RequirementsFor(nodes[i].path, results, nodes).value);
    ListedOnce(names, nodes[i].peers.Keys);
  }

  lemma ParsedOne(path: string, r: RawRecord, registry: Text, s: Settings, p: Platform)
    requires ParseRecord(path, r, registry, s, p).Some?
    ensures var n := ParseRecord(path, r, registry, s, p).value; |n.meta| <= |n.peers| && path != ""
  {
    var n := ParseRecord(path, r, registry, s, p).value;
    assert n.meta.Keys <= n.peers.Keys;
    SubsetCount(n.meta.Keys, n.peers.Keys);
  }

  lemma {:induction false} SubsetCount<T>(a: set<T>, b: set<T>)
    requires a <= b
    ensures |a| <= |b|
  {
    if a != {} {
      var x :| x in a;
      SubsetCount(a - {x}, b - {x});
    }
  }

  ghost predicate BoundsMade(made: seq<Node>, nodes: seq<RawNode>) {
    |made| <= |nodes| && forall i :: 0 <= i < |made| ==> made[i].raw == nodes[i] && NodeBounded(made[i])
  }

  lemma {:induction false} ArrangedWithin(i: nat, results: seq<PeerResult>, nodes: seq<RawNode>, p: Platform)
    requires Arranges(p) && ToldOnce(results) && i < |nodes| && RequirementsFor(nodes[i].path, results, nodes).Some?
    requires forall j, k :: 0 <= j < k < |nodes| ==> nodes[j].path != nodes[k].path
    ensures |p.arrange(RequirementsFor(nodes[i].path, results, nodes).value)| <= |nodes[i].peers|
  {
    RequirementsWithin(i, results, nodes);
    var requirements := RequirementsFor(nodes[i].path, results, nodes).value;
    assert |multiset(p.arrange(requirements))| == |multiset(requirements)|;
  }

  lemma {:induction false} AssembledBounds(nodes: seq<RawNode>, upTo: nat, results: seq<PeerResult>, p: Platform)
    requires Sorts(p) && Arranges(p) && ToldOnce(results) && upTo <= |nodes| && Assemble(nodes, upTo, results, p).Some?
    requires forall j, k :: 0 <= j < k < |nodes| ==> nodes[j].path != nodes[k].path
    requires forall j :: 0 <= j < |nodes| ==> |nodes[j].meta| <= |nodes[j].peers|
    ensures |Assemble(nodes, upTo, results, p).value| == upTo
        && BoundsMade(Assemble(nodes, upTo, results, p).value, nodes)
    decreases upTo
  {
    if upTo > 0 {
      var n := nodes[upTo - 1];
      AssembledBounds(nodes, upTo - 1, results, p);
      ArrangedWithin(upTo - 1, results, nodes, p);
      EdgeForEach(n, p.sorted(n.dependencies.Keys), PathsOf(nodes));
      ListedOnce(p.sorted(n.dependencies.Keys), n.dependencies.Keys);
      var one := Node(n, EdgesFor(n, p.sorted(n.dependencies.Keys), PathsOf(nodes)).value,
                      p.arrange(RequirementsFor(n.path, results, nodes).value));
      OneMoreBound(Assemble(nodes, upTo - 1, results, p).value, nodes, one);
    }
  }

  lemma {:induction false} EdgeForEach(n: RawNode, names: seq<string>, paths: set<string>)
    requires EdgesFor(n, names, paths).Some?
    ensures |EdgesFor(n, names, paths).value| == |names|
    decreases |names|
  {
    if names != [] {
      EdgeForEach(n, names[..|names| - 1], paths);
    }
  }

  lemma {:induction false} OneMoreBound(made: seq<Node>, nodes: seq<RawNode>, n: Node)
    requires BoundsMade(made, nodes) && |made| < |nodes| && n.raw == nodes[|made|] && NodeBounded(n)
    ensures BoundsMade(made + [n], nodes)
  {
  }

  function RawOf(nodes: seq<Node>): (raw: seq<RawNode>)
    ensures |raw| == |nodes| && forall i :: 0 <= i < |raw| ==> raw[i] == nodes[i].raw
  {
    seq(|nodes|, i requires 0 <= i < |nodes| => nodes[i].raw)
  }

  /** The caps of the analysis bound the compiled candidate. */
  ghost predicate Bounded(u: Unsigned) {
    && (forall i :: 0 <= i < |u.nodes| ==> NodeBounded(u.nodes[i]))
    && WithinBudget(u.rootDependencies, RawOf(u.nodes)) && |u.rootDependencies| == 1
  }

  /** Parsed nodes have different paths, and mark none but their own peers as optional. */
  lemma {:induction false} ParsedNodes(lock: Lock, s: Settings, registry: Text, p: Platform)
    requires Sane(p) && ParseLock(lock, s, registry, p).Some?
    ensures var raw := ParseLock(lock, s, registry, p).value;
            && (forall j, k :: 0 <= j < k < |raw| ==> raw[j].path != raw[k].path)
            && (forall j :: 0 <= j < |raw| ==> |raw[j].meta| <= |raw[j].peers|)
            && forall j :: 0 <= j < |raw| ==> raw[j].path != ""
  {
    var raw := ParseLock(lock, s, registry, p).value;
    var paths := p.sorted(lock.packages.Keys);
    ParsedPaths(paths, lock.packages, registry, s, p);
    forall j | 0 <= j < |raw| ensures |raw[j].meta| <= |raw[j].peers| && raw[j].path != "" {
      ParsedOne(paths[j], lock.packages[paths[j]], registry, s, p);
    }
  }

  lemma {:induction false} CompiledIsBounded(lock: Lock, s: Settings, registry: Text, p: Platform)
    requires Sane(p) && CompileLock(lock, s, registry, p).Some?
    ensures Bounded(CompileLock(lock, s, registry, p).value)
  {
    var u := CompileLock(lock, s, registry, p).value;
    var raw := ParseLock(lock, s, registry, p).value;
    var results := p.analyzePeers(lock.rootDependencies, raw).value;
    CompiledAnalyzes(lock, s, registry, p);
    ParsedNodes(lock, s, registry, p);
    AssembledBounds(raw, |raw|, results, p);
    assert RawOf(u.nodes) == raw;
  }

  /** The nodes of a compiled candidate lie at different places, below the root. */
  lemma {:induction false} CompiledPathsDiffer(lock: Lock, s: Settings, registry: Text, p: Platform)
    requires Sane(p) && CompileLock(lock, s, registry, p).Some?
    ensures var nodes := CompileLock(lock, s, registry, p).value.nodes;
            && (forall j :: 0 <= j < |nodes| ==> nodes[j].raw.path != "")
            && forall j, k :: 0 <= j < k < |nodes| ==> nodes[j].raw.path != nodes[k].raw.path
  {
    var raw := ParseLock(lock, s, registry, p).value;
    ParsedNodes(lock, s, registry, p);
    AssembledRaw(raw, |raw|, p.analyzePeers(lock.rootDependencies, raw).value, p);
  }
}
