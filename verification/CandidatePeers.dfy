/** Candidates compiled with the modelled peer analysis: where their nodes lie, and what their peers resolve to. */
module CandidatePeers {
  import opened Options
  import opened Sequences
  import opened Splitting
  import opened InstallPaths
  import opened PeerPaths
  import opened JsonText
  import opened CandidateV2
  import opened PeerSemantics
  import D = DependencyGraph

  // ----- What acceptance means for the places of the nodes -----

  lemma PlaceFound(path: string, k: string, paths: set<string>)
    requires PackagePath(path) && IsPackageName(k) && Nearest(path, k, paths).Some?
    ensures PackagePath(Nearest(path, k, paths).value)
  {
    var names :| AllPackages(names) && names != [] && PathOf(names) == path;
    FoundIsPackagePath(names, k, paths);
  }

  lemma PeerFound(n: RawNode, k: string, m: Nodes)
    requires PackagePath(n.path) && IsPackageName(k) && PeerTarget(n, k, m).Some?
    ensures PackagePath(PeerTarget(n, k, m).value)
  {
    var names :| AllPackages(names) && names != [] && PathOf(names) == n.path;
    var front := names[..|names| - 1];
    LastSplits(names);
    ParentOfChain(front, names[|names| - 1]);
    FoundIsPackagePath(front, k, m.Keys);
  }

  lemma RootPlace(k: string)
    requires IsPackageName(k)
    ensures PackagePath(ChildPath("", k))
  {
    PlaceAppend([], k);
    assert [] + [k] == [k] && AllPackages([k]) && PathOf([k]) == ChildPath("", k);
  }

  ghost predicate NamesIn(m: Nodes) {
    forall x :: x in m ==> m[x].path == x && NamesOk(m[x])
  }

  ghost function PlacedIn(m: Nodes): set<string> {
    set x | x in m && PackagePath(x)
  }

  /** The nodes installed under chains of packages are closed in every way. */
  lemma PlacedIsRequired(root: Declarations, m: Nodes, t: Tools)
    requires Works(t) && NamesIn(m) && RootOk(root, m, t) && forall k :: k in root ==> IsPackageName(k)
    ensures RequiredSet(PlacedIn(m), root, m, OrdinaryGraph(m, t))
  {
    var c := PlacedIn(m);
    var g := OrdinaryGraph(m, t);
    forall k | k in root ensures ChildPath("", k) in c {
      RootPlace(k);
    }
    forall a, b | a in c && D.Links(g, a, b) ensures b in c {
      var i :| 0 <= i < |g[a].dependencyEdges| && g[a].dependencyEdges[i].installPath == b;
      assert g[a].dependencyEdges[i] in g[a].dependencyEdges;
      PlaceFound(a, g[a].dependencyEdges[i].packageName, m.Keys);
    }
    forall x, k | x in c && x in m && k in m[x].peers && !IsOptional(m[x], k) && PeerTarget(m[x], k, m).Some?
      ensures PeerTarget(m[x], k, m).value in c {
      PeerFound(m[x], k, m);
    }
  }

  /**
    * Every node of an accepted input is a package at the top or right under another node. The test of parents alone
    * does not say so, since it lets paths with certain line separators through; but no declaration resolves to such a
    * path, and what nothing resolves to is not required.
    */
  lemma {:induction false} AcceptedIsPlaced(root: Declarations, nodes: seq<RawNode>, t: Tools)
    requires Works(t) && NamesChecked(root, nodes) && Accepted(root, nodes, t)
    ensures AllPlaced(nodes)
  {
    NamesAreIn(root, nodes);
    RequiredArePlaced(root, Index(nodes), t);
    EachIsPlaced(nodes);
  }

  lemma RequiredArePlaced(root: Declarations, m: Nodes, t: Tools)
    requires Works(t) && NamesIn(m) && (forall k :: k in root ==> IsPackageName(k))
    requires RootOk(root, m, t) && AllRequired(root, m, OrdinaryGraph(m, t))
    ensures forall x :: x in m ==> PackagePath(x)
  {
    PlacedIsRequired(root, m, t);
    assert m.Keys <= PlacedIn(m);
  }

  lemma EachIsPlaced(nodes: seq<RawNode>)
    requires (forall x :: x in Index(nodes) ==> PackagePath(x)) && ParentsPresent(nodes, Index(nodes).Keys)
    ensures AllPlaced(nodes)
  {
    forall i | 0 <= i < |nodes| ensures IsPlaced(nodes, nodes[i].path) {
      assert nodes[i] in nodes;
      PlacedUnderParent(nodes, i);
    }
  }

  lemma NamesAreIn(root: Declarations, nodes: seq<RawNode>)
    requires NamesChecked(root, nodes)
    ensures NamesIn(Index(nodes))
  {
    var m := Index(nodes);
    forall x | x in m ensures NamesOk(m[x]) {
      var i :| 0 <= i < |nodes| && nodes[i] == m[x];
    }
  }

  lemma PlacedUnderParent(nodes: seq<RawNode>, i: nat)
    requires i < |nodes| && PackagePath(nodes[i].path) && ParentPresent(nodes[i].path, Index(nodes).Keys)
    ensures IsPlaced(nodes, nodes[i].path)
  {
    var path := nodes[i].path;
    var names :| AllPackages(names) && names != [] && PathOf(names) == path;
    var front, name := names[..|names| - 1], names[|names| - 1];
    LastSplits(names);
    ParentOfChain(front, name);
    PlaceAppend(front, name);
    if front != [] {
      var parent := Index(nodes)[Place(front)];
      var j :| 0 <= j < |nodes| && nodes[j] == parent;
      assert path == nodes[j].path + BOUNDARY + name;
    }
    assert Placed(nodes, path, name);
  }

  /** The compiler's analysis is this one. */
  ghost predicate Computes(p: Platform, t: Tools) {
    && Works(t)
    && forall root, nodes ::
         && (p.analyzePeers(root, nodes).Some? <==> Accepted(root, nodes, t))
         && (p.analyzePeers(root, nodes).Some? ==>
            TellsPeers(p.analyzePeers(root, nodes).value, Index(nodes).Keys, Index(nodes)))
  }

  /**
    * So whatever the compiler relies on in its analysis holds: the caps, the places of the nodes, one result for a
    * peer.
    */
  lemma AnalysisIsLawful(p: Platform, t: Tools)
    requires Computes(p, t)
    ensures AnalyzesPeers(p)
  {
    forall root, nodes | NamesChecked(root, nodes) && p.analyzePeers(root, nodes).Some?
      ensures Analyzes(root, nodes, p.analyzePeers(root, nodes).value) {
      AcceptedIsPlaced(root, nodes, t);
    }
  }

  // ----- Peers of compiled candidates -----

  function TargetOf(r: Resolution): Option<string> {
    match r case Absent => None case Present(path, _) => Some(path)
  }

  /**
    * The copy under the nearest package above this one that hosts the name, or at the top; nothing when there is
    * none.
    */
  ghost predicate HostedAbove(path: string, k: string, paths: set<string>, target: Option<string>) {
    exists names :: AllPackages(names) && names != [] && PathOf(names) == path
      && NearestHost(names[..|names| - 1], k, paths, target)
  }

  ghost predicate IsCopy(n: RawNode, r: Resolution) {
    r == Present(n.path, n.exactVersion)
  }

  /**
    * The requirement tells the copy of the peer under the nearest host above the node, with the version of that copy.
    */
  ghost predicate NearestPeer(q: Requirement, n: RawNode, k: string, nodes: seq<RawNode>) {
    && q.packageName == k && k in n.peers && q.declaredSpecifier == n.peers[k] && q.optional == IsOptional(n, k)
    && (q.resolution.Present? ==> exists x :: x in nodes && IsCopy(x, q.resolution))
    && HostedAbove(n.path, k, PathsOf(nodes), TargetOf(q.resolution))
  }

  /** No more requirements than peers, and one for each peer. */
  ghost predicate PeersTold(n: Node, nodes: seq<RawNode>) {
    && |n.requirements| <= |n.raw.peers|
    && forall k :: k in n.raw.peers ==> exists q :: q in n.requirements && NearestPeer(q, n.raw, k, nodes)
  }

  lemma {:induction false} RequirementIn(path: string, results: seq<PeerResult>, nodes: seq<RawNode>, j: nat)
    requires RequirementsFor(path, results, nodes).Some? && j < |results| && results[j].from == path
    ensures RequirementOf(results[j], nodes).Some?
    ensures RequirementOf(results[j], nodes).value in RequirementsFor(path, results, nodes).value
    decreases |results|
  {
    if j < |results| - 1 {
      RequirementIn(path, results[..|results| - 1], nodes, j);
    }
  }

  lemma TargetIsHosted(n: RawNode, k: string, m: Nodes)
    requires PackagePath(n.path)
    ensures HostedAbove(n.path, k, m.Keys, PeerTarget(n, k, m))
  {
    var names :| AllPackages(names) && names != [] && PathOf(names) == n.path;
    var front := names[..|names| - 1];
    LastSplits(names);
    ParentOfChain(front, names[|names| - 1]);
    NearestIsHosted(front, |front|, k, m.Keys);
    assert front[..|front|] == front;
  }

  lemma IndexPaths(nodes: seq<RawNode>)
    ensures Index(nodes).Keys == PathsOf(nodes)
  {
    forall x | x in Index(nodes) ensures x in PathsOf(nodes) {
      var i :| 0 <= i < |nodes| && nodes[i] == Index(nodes)[x];
    }
    forall x | x in PathsOf(nodes) ensures x in Index(nodes) {
      var i :| 0 <= i < |nodes| && nodes[i].path == x;
      assert nodes[i] in nodes;
    }
  }

  lemma OutcomeIsNearest(nodes: seq<RawNode>, n: RawNode, k: string, m: Nodes)
    requires NodeAt(nodes, n.path) == Some(n) && k in n.peers
        && HostedAbove(n.path, k, PathsOf(nodes), PeerTarget(n, k, m))
    requires RequirementOf(OutcomeOf(n, k, m), nodes).Some?
    ensures NearestPeer(RequirementOf(OutcomeOf(n, k, m), nodes).value, n, k, nodes)
  {
    if PeerTarget(n, k, m).Some? {
      NodeFound(nodes, PeerTarget(n, k, m).value);
    }
  }

  lemma IndexAt(nodes: seq<RawNode>, i: nat)
    requires i < |nodes| && PathsDiffer(nodes)
    ensures nodes[i].path in Index(nodes) && Index(nodes)[nodes[i].path] == nodes[i]
  {
    assert nodes[i] in nodes;
    var j :| 0 <= j < |nodes| && nodes[j] == Index(nodes)[nodes[i].path];
  }

  /** One made node against the results of the analysis. */
  lemma {:induction false} MadePeersTold(nodes: seq<RawNode>, i: nat, results: seq<PeerResult>, n: Node, p: Platform)
    requires i < |nodes| && PathsDiffer(nodes) && PackagePath(nodes[i].path) && Arranges(p)
    requires TellsPeers(results, Index(nodes).Keys, Index(nodes))
        && RequirementsFor(nodes[i].path, results, nodes).Some?
    requires n.raw == nodes[i] && n.requirements == p.arrange(RequirementsFor(nodes[i].path, results, nodes).value)
    requires |n.requirements| <= |n.raw.peers|
    ensures PeersTold(n, nodes)
  {
    var m := Index(nodes);
    IndexAt(nodes, i);
    IndexPaths(nodes);
    NodeFoundAt(nodes, i);
    var unarranged := RequirementsFor(nodes[i].path, results, nodes).value;
    assert multiset(n.requirements) == multiset(unarranged);
    forall k | k in nodes[i].peers ensures exists q :: q in n.requirements && NearestPeer(q, nodes[i], k, nodes) {
      var r := OutcomeOf(nodes[i], k, m);
      assert r in results;
      var j :| 0 <= j < |results| && results[j] == r;
      RequirementIn(nodes[i].path, results, nodes, j);
      TargetIsHosted(nodes[i], k, m);
      OutcomeIsNearest(nodes, nodes[i], k, m);
      var q := RequirementOf(r, nodes).value;
      assert q in multiset(unarranged);
      assert q in n.requirements;
    }
  }

  lemma {:induction false} AssembledRequirements(nodes: seq<RawNode>, upTo: nat, results: seq<PeerResult>, p: Platform)
    requires upTo <= |nodes| && Assemble(nodes, upTo, results, p).Some?
    ensures |Assemble(nodes, upTo, results, p).value| == upTo
    ensures forall i :: 0 <= i < upTo ==> MadeFrom(Assemble(nodes, upTo, results, p).value[i], nodes, i, results, p)
    decreases upTo
  {
    if upTo > 0 {
      AssembledRequirements(nodes, upTo - 1, results, p);
    }
  }

  ghost predicate MadeFrom(n: Node, nodes: seq<RawNode>, i: nat, results: seq<PeerResult>, p: Platform)
    requires i < |nodes|
  {
    && n.raw == nodes[i] && RequirementsFor(nodes[i].path, results, nodes).Some?
    && n.requirements == p.arrange(RequirementsFor(nodes[i].path, results, nodes).value)
  }

  ghost predicate AllPeersTold(nodes: seq<Node>) {
    forall i :: 0 <= i < |nodes| ==> PeersTold(nodes[i], RawOf(nodes))
  }

  ghost predicate AllMade(made: seq<Node>, raw: seq<RawNode>, results: seq<PeerResult>, p: Platform) {
    |made| == |raw| && forall i :: 0 <= i < |raw| ==> MadeFrom(made[i], raw, i, results, p)
  }

  lemma {:induction false} AllMadePeersTold(u: Unsigned, raw: seq<RawNode>, results: seq<PeerResult>, p: Platform)
    requires PathsDiffer(raw) && Arranges(p) && TellsPeers(results, Index(raw).Keys, Index(raw))
    requires (forall x :: x in Index(raw) ==> PackagePath(x)) && AllMade(u.nodes, raw, results, p) && Bounded(u)
    ensures AllPeersTold(u.nodes)
  {
    assert RawOf(u.nodes) == raw;
    forall i | 0 <= i < |u.nodes| ensures PeersTold(u.nodes[i], raw) {
      assert MadeFrom(u.nodes[i], raw, i, results, p) && NodeBounded(u.nodes[i]);
      IndexAt(raw, i);
      MadePeersTold(raw, i, results, u.nodes[i], p);
    }
  }

  /** What the compiler's analysis answers, where it answers. */
  lemma {:induction false} CompiledIsAccepted(lock: Lock, s: Settings, registry: Text, p: Platform, t: Tools)
    requires Sane(p) && Computes(p, t) && CompileLock(lock, s, registry, p).Some?
    ensures var raw := ParseLock(lock, s, registry, p).value;
            && PathsDiffer(raw) && (forall x :: x in Index(raw) ==> PackagePath(x))
            && p.analyzePeers(lock.rootDependencies, raw).Some?
            && TellsPeers(p.analyzePeers(lock.rootDependencies, raw).value, Index(raw).Keys, Index(raw))
  {
    var raw := ParseLock(lock, s, registry, p).value;
    CompiledAnalyzes(lock, s, registry, p);
    NamesAreIn(lock.rootDependencies, raw);
    RequiredArePlaced(lock.rootDependencies, Index(raw), t);
  }

  /**
    * Every peer of a compiled candidate is told once, as the copy under the nearest package above its node that hosts
    * one.
    */
  lemma {:induction false} CompiledPeersAreNearest(lock: Lock, s: Settings, registry: Text, p: Platform, t: Tools)
    requires Sane(p) && Computes(p, t) && CompileLock(lock, s, registry, p).Some?
    ensures AllPeersTold(CompileLock(lock, s, registry, p).value.nodes)
  {
    var u := CompileLock(lock, s, registry, p).value;
    var raw := ParseLock(lock, s, registry, p).value;
    var results := p.analyzePeers(lock.rootDependencies, raw).value;
    CompiledIsAccepted(lock, s, registry, p, t);
    CompiledIsBounded(lock, s, registry, p);
    AssembledRequirements(raw, |raw|, results, p);
    AllMadePeersTold(u, raw, results, p);
  }
}
