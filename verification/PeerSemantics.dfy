/**
  * The analysis of peer dependencies: what production needs, what that requires of peers, and what each peer resolves
  * to.
  */
module PeerSemantics {
  import opened Options
  import opened Sequences
  import opened Splitting
  import opened InstallPaths
  import opened PeerPaths
  import opened JsonText
  import opened Utf8
  import opened Utf16
  import opened CandidateV2
  import D = DependencyGraph

  /** Sorting, the grammars of versions and ranges, what range a version satisfies, and the order of the results. */
  datatype Tools = Tools(
    sorted: set<string> -> seq<string>,
    isVersion: Text -> bool,
    isRange: Text -> bool,
    satisfies: (Text, Text) -> bool,
    order: seq<PeerResult> -> seq<PeerResult>)

  /** Sorting lists every key once, and ordering only rearranges. */
  ghost predicate Works(t: Tools) {
    && (forall keys :: Distinct(t.sorted(keys)) && forall k :: k in t.sorted(keys) <==> k in keys)
    && (forall rs :: multiset(t.order(rs)) == multiset(rs))
  }

  const MAX_STRING_BYTES := 256
  const MAX_DEPTH := 32
  const MAX_PEERS_PER_NODE := 64

  type Nodes = map<string, RawNode>

  // ----- The shape of the input -----

  predicate NameOk(name: string) {
    Utf8Size(ToText(name)) <= MAX_STRING_BYTES && NameShape(name)
  }

  predicate RangeOk(range: Text, t: Tools) {
    Utf8Size(range) <= MAX_STRING_BYTES && t.isRange(range)
  }

  predicate PathOk(n: RawNode) {
    && Utf8Size(ToText(n.path)) <= MAX_STRING_BYTES && ValidPath(n.path) && |Split(n.path, '/')| <= MAX_DEPTH
    && NameOk(n.packageName) && PathName(n.path) == n.packageName
  }

  predicate PeersShape(n: RawNode, t: Tools) {
    && (n.metaPresent ==> n.peersPresent) && |n.peers| <= MAX_PEERS_PER_NODE
    && (forall k :: k in n.peers ==> NameOk(k) && RangeOk(n.peers[k], t) && k !in n.dependencies)
    && (forall k :: k in n.meta ==> k in n.peers)
  }

  predicate NodeOk(n: RawNode, t: Tools) {
    && PathOk(n) && t.isVersion(n.exactVersion) && (forall k :: k in n.dependencies ==> RangeOk(n.dependencies[k], t))
    && PeersShape(n, t)
  }

  /** The text before the last name is the top or another node's path; a path that has no such text is let through. */
  predicate ParentPresent(path: string, paths: set<string>) {
    match ParentPath(path) case None => true case Some(parent) => parent == "" || parent in paths
  }

  predicate ParentsPresent(nodes: seq<RawNode>, paths: set<string>) {
    forall i :: 0 <= i < |nodes| ==> ParentPresent(nodes[i].path, paths)
  }

  function Index(nodes: seq<RawNode>): (m: Nodes)
    ensures forall x :: x in m ==> m[x].path == x && m[x] in nodes
    ensures forall n :: n in nodes ==> n.path in m
  {
    if nodes == [] then map[] else Index(nodes[..|nodes| - 1])[nodes[|nodes| - 1].path := nodes[|nodes| - 1]]
  }

  predicate PathsDiffer(nodes: seq<RawNode>) {
    forall i, j :: 0 <= i < j < |nodes| ==> nodes[i].path != nodes[j].path
  }

  predicate WellShaped(root: Declarations, nodes: seq<RawNode>, t: Tools) {
    && WithinBudget(root, nodes) && (forall k :: k in root ==> NameOk(k) && RangeOk(root[k], t))
    && (forall i :: 0 <= i < |nodes| ==> NodeOk(nodes[i], t)) && PathsDiffer(nodes)
    && ParentsPresent(nodes, Index(nodes).Keys)
  }

  // ----- What declarations resolve to -----

  predicate OrdinaryOk(n: RawNode, m: Nodes, t: Tools) {
    forall k :: k in n.dependencies ==>
      match Nearest(n.path, k, m.Keys)
      case None => false
      case Some(target) => t.satisfies(m[target].exactVersion, n.dependencies[k])
  }

  predicate RootOk(root: Declarations, m: Nodes, t: Tools) {
    forall k :: k in root ==> ChildPath("", k) in m && t.satisfies(m[ChildPath("", k)].exactVersion, root[k])
  }

  /** A peer is looked for from the parent outwards. */
  function PeerTarget(n: RawNode, k: string, m: Nodes): (target: Option<string>)
    ensures target.Some? ==> target.value in m
  {
    Nearest(match ParentPath(n.path) case None => "" case Some(parent) => parent, k, m.Keys)
  }

  predicate IsOptional(n: RawNode, k: string) {
    k in n.meta && n.meta[k] == Some(true)
  }

  /**
    * A peer is another package, not installed below its node, and found with a version in range unless it is
    * optional.
    */
  predicate PeerOk(n: RawNode, k: string, m: Nodes, t: Tools)
    requires k in n.peers
  {
    && k != n.packageName && ChildPath(n.path, k) !in m
    && match PeerTarget(n, k, m)
       case None => IsOptional(n, k)
       case Some(target) => target != n.path && t.satisfies(m[target].exactVersion, n.peers[k])
  }

  predicate PeersOk(n: RawNode, m: Nodes, t: Tools) {
    forall k :: k in n.peers ==> PeerOk(n, k, m, t)
  }

  function OutcomeOf(n: RawNode, k: string, m: Nodes): PeerResult {
    PeerResult(n.path, k, IsOptional(n, k), PeerTarget(n, k, m))
  }

  // ----- Closed sets of paths -----

  /** The edges from the ordinary dependencies of one node. */
  function OrdinaryEdges(n: RawNode, names: seq<string>, m: Nodes): (edges: seq<D.Edge>)
    ensures forall e :: e in edges ==> e.installPath in m
    ensures forall k, target :: k in names && Nearest(n.path, k, m.Keys) == Some(target) ==>
        exists e :: e in edges && e.installPath == target
    ensures forall e :: e in edges ==>
        e.packageName in names && Nearest(n.path, e.packageName, m.Keys) == Some(e.installPath)
  {
    if names == [] then []
    else
      var front, k := OrdinaryEdges(n, names[..|names| - 1], m), names[|names| - 1];
      match Nearest(n.path, k, m.Keys)
      case None => front
      case Some(target) =>
        var edge := D.Edge(k, "", target);
        assert (front + [edge])[|front|] == edge;
        front + [edge]
  }

  function OrdinaryGraph(m: Nodes, t: Tools): D.Graph {
    map x | x in m :: D.Node(x, m[x].packageName, OrdinaryEdges(m[x], t.sorted(m[x].dependencies.Keys), m))
  }

  ghost predicate ClosedUnder(s: set<string>, g: D.Graph) {
    forall a, b :: a in s && D.Links(g, a, b) ==> b in s
  }

  function RootTargets(root: Declarations): set<string> {
    set k | k in root :: ChildPath("", k)
  }

  /** The smallest set with these members that ordinary dependencies do not leave. */
  ghost predicate Least(s: set<string>, initial: set<string>, g: D.Graph) {
    && initial <= s && ClosedUnder(s, g)
    && forall c: set<string> :: initial <= c && ClosedUnder(c, g) ==> s <= c
  }

  /** The set has the target of every peer that one of its members requires. */
  ghost predicate PeerClosed(s: set<string>, m: Nodes) {
    forall x, k :: x in s && x in m && k in m[x].peers && !IsOptional(m[x], k) && PeerTarget(m[x], k, m).Some? ==>
      PeerTarget(m[x], k, m).value in s
  }

  ghost predicate RequiredSet(s: set<string>, root: Declarations, m: Nodes, g: D.Graph) {
    RootTargets(root) <= s && ClosedUnder(s, g) && PeerClosed(s, m)
  }

  /** Needed by production: in every set that holds the root's targets and is closed under ordinary dependencies. */
  ghost predicate Produced(x: string, root: Declarations, g: D.Graph) {
    forall c: set<string> :: RootTargets(root) <= c && ClosedUnder(c, g) ==> x in c
  }

  /** A peer flag says that only peers require the node. */
  ghost predicate RoleOk(n: RawNode, root: Declarations, g: D.Graph) {
    n.peerFlag.Some? ==> (n.peerFlag.value <==> !Produced(n.path, root, g))
  }

  /** Nothing is installed that neither production nor a required peer needs. */
  ghost predicate AllRequired(root: Declarations, m: Nodes, g: D.Graph) {
    forall c: set<string> :: RequiredSet(c, root, m, g) ==> m.Keys <= c
  }

  ghost predicate AllSound(m: Nodes, g: D.Graph) {
    forall x :: x in m ==> !D.Broken(g, x)
  }

  predicate AllResolve(m: Nodes, t: Tools) {
    forall x :: x in m ==> OrdinaryOk(m[x], m, t)
  }

  predicate AllPeersOk(m: Nodes, t: Tools) {
    forall x :: x in m ==> PeersOk(m[x], m, t)
  }

  ghost predicate AllRoles(root: Declarations, m: Nodes, g: D.Graph) {
    forall x :: x in m ==> RoleOk(m[x], root, g)
  }

  /** Everything resolves in range, nothing reaches a cycle, all is required, and the flags say by what. */
  ghost predicate GraphOk(root: Declarations, m: Nodes, g: D.Graph, t: Tools) {
    && AllResolve(m, t) && RootOk(root, m, t) && AllSound(m, g) && AllPeersOk(m, t)
    && AllRequired(root, m, g) && AllRoles(root, m, g)
  }

  /** What the analysis accepts, as one statement about the whole input. */
  ghost predicate Accepted(root: Declarations, nodes: seq<RawNode>, t: Tools) {
    WellShaped(root, nodes, t) && GraphOk(root, Index(nodes), OrdinaryGraph(Index(nodes), t), t)
  }

  /** The results tell each peer of these nodes once, as it resolves. */
  ghost predicate TellsPeers(results: seq<PeerResult>, done: set<string>, m: Nodes) {
    && ToldOnce(results)
    && (forall r :: r in results ==>
       r.from in done && r.from in m && r.name in m[r.from].peers && r == OutcomeOf(m[r.from], r.name, m))
    && (forall x, k :: x in done && x in m && k in m[x].peers ==> OutcomeOf(m[x], k, m) in results)
  }

  // ----- Budgets -----

  method WithinCaps(root: Declarations, nodes: seq<RawNode>) returns (ok: bool)
    ensures ok <==> WithinBudget(root, nodes)
  {
    if |nodes| > MAX_NODES { return false; }
    var peerCount, requirementCount := 0, |root|;
    if requirementCount > MAX_COMBINED { return false; }
    for i := 0 to |nodes|
      invariant peerCount <= MAX_PEERS && requirementCount <= MAX_COMBINED
      invariant peerCount + PeerCount(nodes, i) == PeerCount(nodes, 0)
      invariant requirementCount + DependencyCount(nodes, i) + PeerCount(nodes, i) ==
                |root| + DependencyCount(nodes, 0) + PeerCount(nodes, 0)
    {
      peerCount := peerCount + |nodes[i].peers|;
      requirementCount := requirementCount + |nodes[i].dependencies| + |nodes[i].peers|;
      if peerCount > MAX_PEERS || requirementCount > MAX_COMBINED { return false; }
    }
    return true;
  }

  // ----- Closure -----

  lemma LinksFromEdge(g: D.Graph, a: string, k: nat)
    requires a in g && k < |g[a].dependencyEdges|
    ensures D.Links(g, a, g[a].dependencyEdges[k].installPath)
  {
  }

  lemma SmallerRest(all: set<string>, s: set<string>, x: string)
    requires x in all && x !in s
    ensures |all - (s + {x})| < |all - s|
  {
    D.SmallerSet(all - (s + {x}), all - s);
  }

  /** What has been found reaches as far as what has been taken leads. */
  ghost predicate FoundFrom(found: set<string>, taken: set<string>, initial: set<string>, g: D.Graph) {
    && taken <= found <= g.Keys && initial <= found
    && forall a, b :: a in taken && D.Links(g, a, b) ==> b in found
  }

  ghost predicate NoMoreThan(found: set<string>, initial: set<string>, g: D.Graph) {
    forall c: set<string> :: initial <= c && ClosedUnder(c, g) ==> found <= c
  }

  lemma TakeOne(found: set<string>, taken: set<string>, node: string, targets: set<string>, initial: set<string>,
                g: D.Graph)
    requires D.EdgesResolve(g) && FoundFrom(found, taken, initial, g) && NoMoreThan(found, initial, g) && node in found
    requires forall b :: D.Links(g, node, b) <==> b in targets
    ensures FoundFrom(found + targets, taken + {node}, initial, g) && NoMoreThan(found + targets, initial, g)
  {
    forall c: set<string> | initial <= c && ClosedUnder(c, g) ensures found + targets <= c {
      forall b | b in targets ensures b in c {
        assert D.Links(g, node, b);
      }
    }
    forall b | b in targets ensures b in g.Keys {
      assert D.Links(g, node, b);
    }
  }

  lemma Requeued(queue: set<string>, result: set<string>, node: string, targets: set<string>)
    requires node in queue && queue !! result
    ensures var rest := (queue - {node}) + (targets - (result + {node}));
            rest !! result + {node} && rest + (result + {node}) == queue + result + targets
  {
    var rest := (queue - {node}) + (targets - (result + {node}));
    forall x ensures x in rest + (result + {node}) <==> x in queue + result + targets {
    }
  }

  /** Everything in reach of the initial paths, and no more; a path queued twice is taken once. */
  method Closure(initial: set<string>, g: D.Graph, t: Tools) returns (result: set<string>)
    requires Works(t) && D.EdgesResolve(g) && initial <= g.Keys
    ensures Least(result, initial, g) && result <= g.Keys
  {
    var queue := initial;
    result := {};
    while queue != {}
      invariant queue !! result && FoundFrom(queue + result, result, initial, g)
          && NoMoreThan(queue + result, initial, g)
      decreases |g.Keys - result|
    {
      SortedNonempty(queue, t);
      var node := t.sorted(queue)[0];
      SmallerRest(g.Keys, result, node);
      var targets := TargetsOf(node, g);
      TakeOne(queue + result, result, node, targets, initial, g);
      Requeued(queue, result, node, targets);
      queue := (queue - {node}) + (targets - (result + {node}));
      result := result + {node};
    }
    assert queue + result == result;
  }

  function TargetsOf(node: string, g: D.Graph): (targets: set<string>)
    requires node in g
    ensures forall b :: D.Links(g, node, b) <==> b in targets
  {
    set k | 0 <= k < |g[node].dependencyEdges| :: g[node].dependencyEdges[k].installPath
  }

  lemma SortedNonempty(paths: set<string>, t: Tools)
    requires Works(t) && paths != {}
    ensures t.sorted(paths) != [] && t.sorted(paths)[0] in paths
  {
    var some :| some in paths;
    assert some in t.sorted(paths);
  }

  // ----- No cycle among ordinary dependencies -----

  /** The recursive visit of the nodes of a set that ordinary dependencies do not leave. */
  class OrdinaryDag {
    const g: D.Graph
    const within: set<string>
    var visiting: set<string>
    var done: set<string>
    ghost var order: seq<string>

    constructor (g: D.Graph, within: set<string>)
      ensures this.g == g && this.within == within && visiting == {} && done == {} && order == []
    {
      this.g, this.within, visiting, done, order := g, within, {}, {}, [];
    }

    ghost predicate Consistent(stack: seq<string>)
      reads this
    {
      && within <= g.Keys && ClosedUnder(within, g)
      && visiting == D.Elements(stack) && done == D.Elements(order) && D.FinishingOrder(g, order) && visiting !! done
    }

    method Finish(path: string, ghost stack: seq<string>)
      requires Consistent(stack + [path]) && path !in stack && path in g
      requires forall k :: 0 <= k < |g[path].dependencyEdges| ==> g[path].dependencyEdges[k].installPath in done
      modifies `visiting, `done, `order
      ensures Consistent(stack) && done == old(done) + {path}
    {
      assert (stack + [path])[|stack|] == path;
      assert path in visiting && path !in done;
      D.EdgesCover(g, path, order);
      D.ExtendOrder(g, order, path);
      visiting := visiting - {path};
      done := done + {path};
      order := order + [path];
      assert visiting == D.Elements(stack);
    }

    method Visit(path: string, ghost stack: seq<string>) returns (ok: bool)
      requires Consistent(stack) && D.Walk(g, stack + [path]) && path in within
      modifies `visiting, `done, `order
      ensures ok ==> Consistent(stack) && path in done && old(done) <= done
      ensures !ok ==> D.Broken(g, path)
      decreases |g.Keys - visiting|, 0
    {
      if path in visiting {
        D.ReturnIsCycle(g, stack, path);
        return false;
      }
      if path in done { return true; }
      SmallerRest(g.Keys, visiting, path);
      visiting := visiting + {path};
      assert D.Elements(stack + [path]) == D.Elements(stack) + {path};
      ok := VisitTargets(path, stack);
      if ok {
        Finish(path, stack);
      }
    }

    method VisitTargets(path: string, ghost stack: seq<string>) returns (ok: bool)
      requires Consistent(stack + [path]) && D.Walk(g, stack + [path]) && path in within
      modifies `visiting, `done, `order
      ensures ok ==> Consistent(stack + [path]) && old(done) <= done
      ensures ok ==> forall k :: 0 <= k < |g[path].dependencyEdges| ==> g[path].dependencyEdges[k].installPath in done
      ensures !ok ==> D.Broken(g, path)
      decreases |g.Keys - visiting|, 1
    {
      var edges := g[path].dependencyEdges;
      for k := 0 to |edges|
        invariant Consistent(stack + [path]) && visiting == old(visiting) && old(done) <= done
        invariant forall m :: 0 <= m < k ==> edges[m].installPath in done
      {
        var target := edges[k].installPath;
        assert D.Links(g, path, target);
        if target in within {
          D.StepWalk(g, stack, path, target);
          ok := Visit(target, stack + [path]);
          if !ok {
            D.BrokenStep(g, path, target);
            return;
          }
        }
      }
      return true;
    }
  }

  /** Accepts exactly the sets of nodes from which no cycle can be reached. */
  method AssertOrdinaryDag(nodes: set<string>, g: D.Graph, t: Tools) returns (ok: bool)
    requires Works(t) && nodes <= g.Keys && ClosedUnder(nodes, g)
    ensures ok <==> forall x :: x in nodes ==> !D.Broken(g, x)
  {
    var dag := new OrdinaryDag(g, nodes);
    assert D.Elements([]) == {};
    var paths := t.sorted(nodes);
    for i := 0 to |paths|
      invariant dag.g == g && dag.within == nodes && dag.Consistent([])
      invariant forall j :: 0 <= j < i ==> paths[j] in dag.done
    {
      assert [] + [paths[i]] == [paths[i]];
      ok := dag.Visit(paths[i], []);
      if !ok { return; }
    }
    forall x | x in nodes ensures !D.Broken(g, x) {
      assert x in paths;
      D.OrderIsSound(g, dag.order, x);
    }
    return true;
  }

  // ----- What required peers add -----

  /** From `before`, exactly what including this path adds. */
  ghost predicate Grown(before: set<string>, after: set<string>, path: string, g: D.Graph) {
    && before <= after <= g.Keys && path in after
    && (forall a, b :: a in after - before && D.Links(g, a, b) ==> b in after)
    && forall c: set<string> :: before <= c && path in c && ClosedUnder(c, g) ==> after <= c
  }

  /** Part way through the targets of a path: those before place `k` are included. */
  ghost predicate Growing(before: set<string>, now: set<string>, path: string, g: D.Graph, k: nat) {
    && path in g && k <= |g[path].dependencyEdges| && before + {path} <= now <= g.Keys
    && (forall a, b :: a in now - (before + {path}) && D.Links(g, a, b) ==> b in now)
    && (forall j :: 0 <= j < k ==> g[path].dependencyEdges[j].installPath in now)
    && forall c: set<string> :: before <= c && path in c && ClosedUnder(c, g) ==> now <= c
  }

  lemma GrowingOn(before: set<string>, now: set<string>, then_: set<string>, path: string, g: D.Graph, k: nat)
    requires Growing(before, now, path, g, k) && k < |g[path].dependencyEdges|
    requires Grown(now, then_, g[path].dependencyEdges[k].installPath, g)
    ensures Growing(before, then_, path, g, k + 1)
  {
    LinksFromEdge(g, path, k);
  }

  /** One result for each peer of the nodes done, and of this node up to place `k`. */
  ghost predicate TellsSome(results: seq<PeerResult>, done: set<string>, m: Nodes, n: RawNode, names: seq<string>,
                            k: nat) {
    && k <= |names| && ToldOnce(results)
    && (forall r :: r in results ==>
          && (r.from in done || (r.from == n.path && r.name in names[..k]))
          && r.from in m && r.name in m[r.from].peers && r == OutcomeOf(m[r.from], r.name, m))
    && (forall x, j :: x in done && x in m && j in m[x].peers ==> OutcomeOf(m[x], j, m) in results)
    && (forall j :: 0 <= j < k ==> OutcomeOf(n, names[j], m) in results)
  }

  lemma OneMoreTold(results: seq<PeerResult>, done: set<string>, m: Nodes, n: RawNode, names: seq<string>, k: nat)
    requires TellsSome(results, done, m, n, names, k) && k < |names| && Distinct(names)
    requires n.path in m && m[n.path] == n && n.path !in done && names[k] in n.peers
    ensures TellsSome(results + [OutcomeOf(n, names[k], m)], done, m, n, names, k + 1)
  {
    var r := OutcomeOf(n, names[k], m);
    var all := results + [r];
    forall i | 0 <= i < |results| ensures results[i].from != r.from || results[i].name != r.name {
      assert results[i] in results;
      assert names[k] !in names[..k];
    }
    assert all[|results|] == r;
    forall x | x in results ensures x in all {
    }
    assert names[..k + 1] == names[..k] + [names[k]];
  }

  lemma AllTold(results: seq<PeerResult>, done: set<string>, m: Nodes, n: RawNode, names: seq<string>)
    requires TellsSome(results, done, m, n, names, |names|) && n.path in m && m[n.path] == n
    requires forall k :: k in names <==> k in n.peers
    ensures TellsPeers(results, done + {n.path}, m)
  {
    assert names[..|names|] == names;
    forall x, k | x in done + {n.path} && x in m && k in m[x].peers ensures OutcomeOf(m[x], k, m) in results {
      if x == n.path {
        assert k in names;
        var j :| 0 <= j < |names| && names[j] == k;
        assert OutcomeOf(n, names[j], m) in results;
      }
    }
  }

  /** The peers of this node before place `k` are in order, and those it requires are included. */
  ghost predicate PeersTaken(n: RawNode, names: seq<string>, k: nat, required: set<string>, m: Nodes, t: Tools) {
    && k <= |names| && (forall j :: 0 <= j < k ==> names[j] in n.peers && PeerOk(n, names[j], m, t))
    && forall j :: 0 <= j < k && !IsOptional(n, names[j]) && PeerTarget(n, names[j], m).Some? ==>
       PeerTarget(n, names[j], m).value in required
  }

  lemma Queued(q0: set<string>, r0: set<string>, q1: set<string>, r1: set<string>, q2: set<string>, r2: set<string>)
    requires r0 <= r1 <= r2 && q1 == q0 + (r1 - r0) && q2 == q1 + (r2 - r1)
    ensures q2 == q0 + (r2 - r0)
  {
  }

  lemma StillSmaller(all: set<string>, before: set<string>, now: set<string>, path: string)
    requires path in all && path !in before && before + {path} <= now
    ensures |all - now| < |all - before|
  {
    D.SmallerSet(all - now, all - before);
  }

  /** The fixed point of required nodes: including one includes its ordinary dependencies and queues its peers. */
  class RequiredPeers {
    const root: Declarations
    const m: Nodes
    const t: Tools
    const g: D.Graph
    var required: set<string>
    var queue: set<string>
    var processed: set<string>
    var outcomes: seq<PeerResult>

    constructor (root: Declarations, m: Nodes, t: Tools, g: D.Graph)
      ensures this.root == root && this.m == m && this.t == t && this.g == g
      ensures required == {} && queue == {} && processed == {} && outcomes == []
    {
      this.root, this.m, this.t, this.g, required, queue, processed, outcomes := root, m, t, g, {}, {}, {}, [];
    }

    /** What is required is in the graph, closed under ordinary dependencies, and needed by every required set. */
    ghost predicate Needed()
      reads this`required
    {
      && required <= g.Keys && ClosedUnder(required, g)
      && forall c: set<string> :: RequiredSet(c, root, m, g) ==> required <= c
    }

    ghost predicate Table() {
      Works(t) && D.EdgesResolve(g) && g.Keys == m.Keys && forall x :: x in m ==> m[x].path == x
    }

    /** The nodes taken from the queue have their peers in order, told and included. */
    ghost predicate Processed(done: set<string>)
      reads this`required
    {
      && done <= m.Keys && (forall x :: x in done ==> PeersOk(m[x], m, t))
      && forall x, k :: x in done && k in m[x].peers && !IsOptional(m[x], k) && PeerTarget(m[x], k, m).Some? ==>
           PeerTarget(m[x], k, m).value in required
    }

    method IncludeRequired(path: string)
      requires Table() && path in g && required <= g.Keys
      modifies `required, `queue
      ensures Grown(old(required), required, path, g)
      ensures queue == old(queue) + (required - old(required))
      decreases |g.Keys - required|
    {
      if path in required { return; }
      SmallerRest(g.Keys, required, path);
      required := required + {path};
      queue := queue + {path};
      Queued(old(queue), old(required), old(queue), old(required), queue, required);
      var edges := g[path].dependencyEdges;
      for k := 0 to |edges|
        invariant Growing(old(required), required, path, g, k)
        invariant queue == old(queue) + (required - old(required))
      {
        StillSmaller(g.Keys, old(required), required, path);
        ghost var before, waiting := required, queue;
        LinksFromEdge(g, path, k);
        IncludeRequired(edges[k].installPath);
        GrowingOn(old(required), before, required, path, g, k);
        Queued(old(queue), old(required), waiting, before, queue, required);
      }
      GrownAll(old(required), required, path, g);
    }

    /** Including a node that every required set has keeps what is required needed. */
    method IncludeNeeded(path: string)
      requires Table() && Needed() && path in g
      requires forall c: set<string> :: RequiredSet(c, root, m, g) ==> path in c
      modifies `required, `queue
      ensures Needed() && path in required && old(required) <= required
      ensures queue == old(queue) + (required - old(required))
    {
      IncludeRequired(path);
      GrownNeeded(old(required), required, path, root, m, g);
    }

    /** One peer: it is checked, told, and included if it is required. */
    method TakePeer(n: RawNode, names: seq<string>, i: nat, ghost done: set<string>) returns (ok: bool)
      requires Table() && Needed() && n.path in required && n.path in m && m[n.path] == n && n.path !in done
      requires i < |names| && Distinct(names) && names[i] in n.peers
      requires TellsSome(outcomes, done, m, n, names, i) && PeersTaken(n, names, i, required, m, t)
      modifies `required, `queue, `outcomes
      ensures ok <==> PeerOk(n, names[i], m, t)
      ensures Needed() && old(required) <= required && queue == old(queue) + (required - old(required))
      ensures ok ==> TellsSome(outcomes, done, m, n, names, i + 1) && PeersTaken(n, names, i + 1, required, m, t)
    {
      var k := names[i];
      if !PeerOk(n, k, m, t) { return false; }
      OneMoreTold(outcomes, done, m, n, names, i);
      var target := PeerTarget(n, k, m);
      outcomes := outcomes + [PeerResult(n.path, k, IsOptional(n, k), target)];
      if target.Some? && !IsOptional(n, k) {
        IncludeNeeded(target.value);
      }
      return true;
    }

    /** The peers of one node. */
    method TakePeers(n: RawNode, ghost done: set<string>) returns (ok: bool)
      requires Table() && Needed() && n.path in required && n.path in m && m[n.path] == n && n.path !in done
      requires TellsPeers(outcomes, done, m)
      modifies `required, `queue, `outcomes
      ensures ok <==> PeersOk(n, m, t)
      ensures Needed() && old(required) <= required && queue == old(queue) + (required - old(required))
      ensures ok ==> TellsPeers(outcomes, done + {n.path}, m)
      ensures ok ==> PeersTaken(n, t.sorted(n.peers.Keys), |t.sorted(n.peers.Keys)|, required, m, t)
    {
      var names := t.sorted(n.peers.Keys);
      assert names[..0] == [];
      for i := 0 to |names|
        invariant Needed() && old(required) <= required && queue == old(queue) + (required - old(required))
        invariant TellsSome(outcomes, done, m, n, names, i) && PeersTaken(n, names, i, required, m, t)
      {
        assert names[i] in n.peers.Keys;
        ghost var before, waiting := required, queue;
        ok := TakePeer(n, names, i, done);
        Queued(old(queue), old(required), waiting, before, queue, required);
        if !ok { return; }
      }
      AllTold(outcomes, done, m, n, names);
      forall k | k in n.peers ensures PeerOk(n, k, m, t) {
        assert k in names;
      }
      return true;
    }

    /** Between two nodes: what is required is queued or processed. */
    ghost predicate Underway()
      reads this
    {
      && Table() && Needed() && queue !! processed && queue + processed == required
      && Processed(processed) && TellsPeers(outcomes, processed, m)
    }

    /** Before anything is processed, all that is required is queued. */
    ghost predicate Starting()
      reads this
    {
      Underway() && processed == {} && queue == required
    }

    method IncludeFirst(path: string)
      requires Starting() && path in g
      requires forall c: set<string> :: RequiredSet(c, root, m, g) ==> path in c
      modifies `required, `queue
      ensures Starting() && path in required && old(required) <= required
    {
      IncludeNeeded(path);
      AlsoQueued(old(required), required);
    }

    /** With the queue empty, what is required is closed in every way. */
    lemma Closed()
      requires Underway() && queue == {} && RootTargets(root) <= required
      ensures RequiredSet(required, root, m, g) && TellsPeers(outcomes, required, m) && forall x :: x in required ==>
          PeersOk(m[x], m, t)
    {
      assert processed == required;
    }

    /** Takes one node from the queue. */
    method TakeNext() returns (ok: bool)
      requires Underway() && queue != {}
      modifies `required, `queue, `processed, `outcomes
      ensures ok ==> Underway() && old(required) <= required && |m.Keys - processed| < |m.Keys - old(processed)|
      ensures !ok ==> !AllPeersOk(m, t)
    {
      SortedNonempty(queue, t);
      var path := t.sorted(queue)[0];
      IsWaiting(queue, processed, required, path);
      SmallerRest(m.Keys, processed, path);
      queue := queue - {path};
      processed := processed + {path};
      ghost var waiting := queue;
      ok := TakePeers(m[path], old(processed));
      if ok {
        Moved(old(queue), old(processed), old(required), path, waiting, queue, required);
        OneMoreProcessed(old(processed), old(required), path);
      }
    }

    /** Processes the queue until it is empty; fails exactly when it meets a peer that is not in order. */
    method Run() returns (ok: bool)
      requires Underway()
      modifies `required, `queue, `processed, `outcomes
      ensures ok ==> Underway() && queue == {} && old(required) <= required
      ensures !ok ==> !AllPeersOk(m, t)
    {
      while queue != {}
        invariant Underway() && old(required) <= required
        decreases |m.Keys - processed|
      {
        ok := TakeNext();
        if !ok { return; }
      }
      return true;
    }

    lemma OneMoreProcessed(done: set<string>, before: set<string>, path: string)
      requires Table() && path in m && before <= required
      requires done <= m.Keys && forall x :: x in done ==> PeersOk(m[x], m, t)
      requires forall x, k :: x in done && k in m[x].peers && !IsOptional(m[x], k) && PeerTarget(m[x], k, m).Some? ==>
                 PeerTarget(m[x], k, m).value in before
      requires var names := t.sorted(m[path].peers.Keys); PeersTaken(m[path], names, |names|, required, m, t)
      ensures Processed(done + {path})
    {
      var names := t.sorted(m[path].peers.Keys);
      forall k | k in m[path].peers
        ensures PeerOk(m[path], k, m, t)
        ensures !IsOptional(m[path], k) && PeerTarget(m[path], k, m).Some? ==>
            PeerTarget(m[path], k, m).value in required {
        assert k in names;
      }
    }
  }

  lemma IsWaiting(queue: set<string>, processed: set<string>, required: set<string>, path: string)
    requires queue !! processed && queue + processed == required && path in queue
    ensures path in required && path !in processed
  {
  }

  lemma Moved(queue: set<string>, processed: set<string>, required: set<string>, path: string, waiting: set<string>,
              then_: set<string>, after: set<string>)
    requires queue !! processed && queue + processed == required && path in queue && waiting == queue - {path}
    requires required <= after && then_ == waiting + (after - required)
    ensures then_ !! processed + {path} && then_ + (processed + {path}) == after
  {
  }

  lemma GrownAll(before: set<string>, after: set<string>, path: string, g: D.Graph)
    requires path in g && Growing(before, after, path, g, |g[path].dependencyEdges|)
    ensures Grown(before, after, path, g)
  {
    forall a, b | a in after - before && D.Links(g, a, b) ensures b in after {
      if a == path {
        var k :| 0 <= k < |g[a].dependencyEdges| && g[a].dependencyEdges[k].installPath == b;
      }
    }
  }

  lemma GrownNeeded(before: set<string>, after: set<string>, path: string, root: Declarations, m: Nodes, g: D.Graph)
    requires Grown(before, after, path, g) && ClosedUnder(before, g)
    requires forall c: set<string> :: RequiredSet(c, root, m, g) ==> before <= c && path in c
    ensures ClosedUnder(after, g) && forall c: set<string> :: RequiredSet(c, root, m, g) ==> after <= c
  {
  }

  // ----- The analysis -----

  lemma OrdinaryGraphResolves(root: Declarations, m: Nodes, t: Tools)
    ensures OrdinaryGraph(m, t).Keys == m.Keys && D.EdgesResolve(OrdinaryGraph(m, t))
    ensures RootOk(root, m, t) ==> RootTargets(root) <= m.Keys
  {
    var g := OrdinaryGraph(m, t);
    forall a, b | D.Links(g, a, b) ensures b in g {
      var k :| 0 <= k < |g[a].dependencyEdges| && g[a].dependencyEdges[k].installPath == b;
      assert g[a].dependencyEdges[k] in g[a].dependencyEdges;
    }
  }

  lemma LeastIsProduced(s: set<string>, root: Declarations, g: D.Graph)
    requires Least(s, RootTargets(root), g)
    ensures forall x :: Produced(x, root, g) <==> x in s
  {
  }

  lemma ProductionIsNeeded(s: set<string>, root: Declarations, m: Nodes, g: D.Graph)
    requires Least(s, RootTargets(root), g)
    ensures forall c: set<string> :: RequiredSet(c, root, m, g) ==> s <= c
  {
  }

  /** The fixed point is everything exactly when everything is required. */
  lemma FixedIsRequired(required: set<string>, root: Declarations, m: Nodes, g: D.Graph)
    requires RequiredSet(required, root, m, g) && required <= m.Keys
    requires forall c: set<string> :: RequiredSet(c, root, m, g) ==> required <= c
    ensures |required| == |m| <==> AllRequired(root, m, g)
    ensures |required| == |m| ==> required == m.Keys
  {
    D.SubsetSizes(required, m.Keys);
    assert |m.Keys| == |m|;
    if AllRequired(root, m, g) {
      assert m.Keys <= required;
      assert required == m.Keys;
    }
  }

  lemma {:induction false} OnceIsCountedOnce<T>(s: seq<T>, x: T)
    requires Distinct(s)
    ensures multiset(s)[x] <= 1
  {
    if s != [] {
      var n := |s| - 1;
      OnceIsCountedOnce(s[..n], x);
      LastSplits(s);
      assert s[n] !in s[..n];
    }
  }

  lemma TwiceIsCountedTwice<T>(results: seq<T>, i: nat, j: nat)
    requires i < j < |results| && results[i] == results[j]
    ensures multiset(results)[results[i]] >= 2
  {
    var front, rest := results[..j], results[j..];
    assert results == front + rest;
    assert results[i] in front && rest[0] == results[j];
  }

  /** Ordering the results tells nothing twice and leaves nothing out. */
  lemma OrderTells(results: seq<PeerResult>, done: set<string>, m: Nodes, t: Tools)
    requires Works(t) && TellsPeers(results, done, m)
    ensures TellsPeers(t.order(results), done, m)
  {
    var ordered := t.order(results);
    assert multiset(ordered) == multiset(results);
    forall r ensures r in ordered <==> r in results {
      assert r in multiset(ordered) <==> r in multiset(results);
    }
    forall i, j | 0 <= i < j < |ordered| ensures ordered[i].from != ordered[j].from
      || ordered[i].name != ordered[j].name {
      assert ordered[i] in results && ordered[j] in results;
      if ordered[i].from == ordered[j].from && ordered[i].name == ordered[j].name {
        TwiceIsCountedTwice(ordered, i, j);
        OnceIsCountedOnce(results, ordered[i]);
      }
    }
  }

  lemma AlsoQueued(before: set<string>, now: set<string>)
    requires before <= now
    ensures before + (now - before) == now && now + {} == now
  {
  }

  /** The required nodes, starting with production; nothing when a peer of one of them is not in order. */
  method Require(production: set<string>, root: Declarations, m: Nodes, g: D.Graph, t: Tools)
    returns (ok: bool, required: set<string>, outcomes: seq<PeerResult>)
    requires Works(t) && D.EdgesResolve(g) && g.Keys == m.Keys && forall x :: x in m ==> m[x].path == x
    requires production <= m.Keys && Least(production, RootTargets(root), g)
    ensures ok ==> RequiredSet(required, root, m, g) && production <= required <= m.Keys
    ensures ok ==> forall c: set<string> :: RequiredSet(c, root, m, g) ==> required <= c
    ensures ok ==> TellsPeers(outcomes, required, m) && forall x :: x in required ==> PeersOk(m[x], m, t)
    ensures !ok ==> !AllPeersOk(m, t)
  {
    var fixed := new RequiredPeers(root, m, t, g);
    ProductionIsNeeded(production, root, m, g);
    var paths := t.sorted(production);
    for i := 0 to |paths|
      invariant fixed.root == root && fixed.m == m && fixed.t == t && fixed.g == g
      invariant fixed.Starting() && forall j :: 0 <= j < i ==> paths[j] in fixed.required
    {
      assert paths[i] in production;
      fixed.IncludeFirst(paths[i]);
    }
    forall x | x in production ensures x in fixed.required {
      assert x in paths;
    }
    ok := fixed.Run();
    required, outcomes := fixed.required, fixed.outcomes;
    if ok {
      fixed.Closed();
    }
  }

  /** Each peer flag against whether production needs the node; everything is required by then. */
  predicate RolesMatch(m: Nodes, production: set<string>) {
    forall x :: x in m && m[x].peerFlag.Some? ==> m[x].peerFlag.value == (x !in production)
  }

  lemma RolesByProduction(production: set<string>, root: Declarations, m: Nodes, g: D.Graph)
    requires Least(production, RootTargets(root), g) && forall x :: x in m ==> m[x].path == x
    ensures RolesMatch(m, production) <==> AllRoles(root, m, g)
  {
    LeastIsProduced(production, root, g);
    if AllRoles(root, m, g) {
      forall x | x in m && m[x].peerFlag.Some? ensures m[x].peerFlag.value == (x !in production) {
        assert RoleOk(m[x], root, g);
      }
    }
  }

  /** What resolves, against what is required. */
  method AnalyzeGraph(root: Declarations, m: Nodes, g: D.Graph, t: Tools) returns (results: Option<seq<PeerResult>>)
    requires Works(t) && g == OrdinaryGraph(m, t) && forall x :: x in m ==> m[x].path == x
    requires AllResolve(m, t) && RootOk(root, m, t)
    ensures results.Some? <==> GraphOk(root, m, g, t)
    ensures results.Some? ==> TellsPeers(results.value, m.Keys, m)
  {
    OrdinaryGraphResolves(root, m, t);
    var production := Closure(RootTargets(root), g, t);
    var acyclic := AssertOrdinaryDag(production, g, t);
    if !acyclic { return None; }
    var ok, required, outcomes := Require(production, root, m, g, t);
    if !ok { return None; }
    acyclic := AssertOrdinaryDag(required, g, t);
    if !acyclic { return None; }
    FixedIsRequired(required, root, m, g);
    if |required| != |m| { return None; }
    RolesByProduction(production, root, m, g);
    if !RolesMatch(m, production) { return None; }
    OrderTells(outcomes, required, m, t);
    return Some(t.order(outcomes));
  }

  /** Accepts exactly the inputs that are in order, and then tells every peer of every node once. */
  method AnalyzePeerDependencySemantics(root: Declarations, nodes: seq<RawNode>, t: Tools)
    returns (results: Option<seq<PeerResult>>)
    requires Works(t)
    ensures results.Some? <==> Accepted(root, nodes, t)
    ensures results.Some? ==> TellsPeers(results.value, Index(nodes).Keys, Index(nodes))
  {
    var capped := WithinCaps(root, nodes);
    if !capped || !WellShaped(root, nodes, t) { return None; }
    var m := Index(nodes);
    if !AllResolve(m, t) || !RootOk(root, m, t) { return None; }
    results := AnalyzeGraph(root, m, OrdinaryGraph(m, t), t);
  }
}
