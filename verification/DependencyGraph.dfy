/** The depth-first check that a compiled dependency graph is connected and acyclic. */
module DependencyGraph {

  datatype Edge = Edge(packageName: string, declaredSpecifier: string, installPath: string)

  datatype Node = Node(installPath: string, packageName: string, dependencyEdges: seq<Edge>)

  type Graph = map<string, Node>

  /** The lookup table of the nodes; a repeated path keeps its last node. */
  function ByPath(nodes: seq<Node>): Graph {
    if nodes == [] then map[]
    else ByPath(nodes[..|nodes| - 1])[nodes[|nodes| - 1].installPath := nodes[|nodes| - 1]]
  }

  // ----- Walks, cycles, and the property checked -----

  predicate Links(g: Graph, a: string, b: string) {
    a in g && exists k :: 0 <= k < |g[a].dependencyEdges| && g[a].dependencyEdges[k].installPath == b
  }

  predicate Walk(g: Graph, p: seq<string>) {
    |p| > 0 && forall i :: 0 <= i < |p| - 1 ==> Links(g, p[i], p[i + 1])
  }

  predicate WalkFromTo(g: Graph, p: seq<string>, a: string, b: string) {
    Walk(g, p) && p[0] == a && p[|p| - 1] == b
  }

  ghost predicate Reaches(g: Graph, a: string, b: string) {
    exists p :: WalkFromTo(g, p, a, b)
  }

  ghost predicate OnCycle(g: Graph, x: string) {
    exists p :: WalkFromTo(g, p, x, x) && |p| > 1
  }

  /** Some path that does not resolve, or some cycle, can be reached from `a`. */
  ghost predicate Broken(g: Graph, a: string) {
    exists x :: Reaches(g, a, x) && (x !in g || OnCycle(g, x))
  }

  ghost predicate DistinctPaths(nodes: seq<Node>) {
    forall i, j :: 0 <= i < j < |nodes| ==> nodes[i].installPath != nodes[j].installPath
  }

  /** Every node is reachable from the top, everything reachable resolves, and nothing reachable lies on a cycle. */
  ghost predicate ConnectedAcyclic(nodes: seq<Node>, top: string) {
    && DistinctPaths(nodes)
    && (forall i :: 0 <= i < |nodes| ==> Reaches(ByPath(nodes), top, nodes[i].installPath))
    && !Broken(ByPath(nodes), top)
  }

  // ----- Facts about walks -----

  lemma ReachesSelf(g: Graph, a: string)
    ensures Reaches(g, a, a)
  {
    assert WalkFromTo(g, [a], a, a);
  }

  lemma ReachesStep(g: Graph, a: string, b: string, c: string)
    requires Links(g, a, b) && Reaches(g, b, c)
    ensures Reaches(g, a, c)
  {
    var p :| WalkFromTo(g, p, b, c);
    assert WalkFromTo(g, [a] + p, a, c);
  }

  lemma BrokenStep(g: Graph, a: string, b: string)
    requires Links(g, a, b) && Broken(g, b)
    ensures Broken(g, a)
  {
    var x :| Reaches(g, b, x) && (x !in g || OnCycle(g, x));
    ReachesStep(g, a, b, x);
  }

  /** Coming back to a node still being visited closes a cycle. */
  lemma ReturnIsCycle(g: Graph, stack: seq<string>, path: string)
    requires Walk(g, stack + [path]) && path in stack
    ensures Broken(g, path)
  {
    var i :| 0 <= i < |stack| && stack[i] == path;
    var whole := stack + [path];
    var loop := whole[i..];
    forall k | 0 <= k < |loop| - 1 ensures Links(g, loop[k], loop[k + 1]) {
      assert Links(g, whole[i + k], whole[i + k + 1]);
    }
    assert WalkFromTo(g, loop, path, path) && |loop| > 1;
    ReachesSelf(g, path);
  }

  // ----- The finishing order -----

  ghost predicate TargetsIn(g: Graph, a: string, done: seq<string>) {
    a in g && forall b :: Links(g, a, b) ==> b in done
  }

  /** Each node of `order` comes after everything it links to. */
  ghost predicate FinishingOrder(g: Graph, order: seq<string>) {
    && (forall i, j :: 0 <= i < j < |order| ==> order[i] != order[j])
    && (forall k :: 0 <= k < |order| ==> TargetsIn(g, order[k], order[..k]))
  }

  /** A walk through a finishing order only ever goes backwards. */
  lemma {:induction false} WalkDescends(g: Graph, order: seq<string>, p: seq<string>, i: nat)
    requires FinishingOrder(g, order) && Walk(g, p) && i < |order| && order[i] == p[0]
    ensures exists j :: 0 <= j <= i && order[j] == p[|p| - 1] && (|p| > 1 ==> j < i)
    decreases |p|
  {
    if |p| > 1 {
      assert TargetsIn(g, order[i], order[..i]);
      assert Links(g, p[0], p[1]);
      assert p[1] in order[..i];
      var k :| 0 <= k < i && order[k] == p[1];
      var rest := p[1..];
      forall m | 0 <= m < |rest| - 1 ensures Links(g, rest[m], rest[m + 1]) {
        assert Links(g, p[m + 1], p[m + 2]);
      }
      WalkDescends(g, order, rest, k);
      var j :| 0 <= j <= k && order[j] == rest[|rest| - 1];
      assert order[j] == p[|p| - 1];
    }
  }

  /** From a node of a finishing order only sound nodes of that order are reached. */
  lemma OrderIsSound(g: Graph, order: seq<string>, a: string)
    requires FinishingOrder(g, order) && a in order
    ensures !Broken(g, a)
    ensures forall x :: Reaches(g, a, x) ==> x in order
  {
    forall x | Reaches(g, a, x) ensures x in order && x in g && !OnCycle(g, x) {
      var i :| 0 <= i < |order| && order[i] == a;
      var p :| WalkFromTo(g, p, a, x);
      WalkDescends(g, order, p, i);
      var j :| 0 <= j <= i && order[j] == x;
      assert TargetsIn(g, order[j], order[..j]);
      forall q | WalkFromTo(g, q, x, x) && |q| > 1 ensures false {
        WalkDescends(g, order, q, j);
        assert false;
      }
    }
  }

  lemma ExtendOrder(g: Graph, order: seq<string>, a: string)
    requires FinishingOrder(g, order) && a !in order && TargetsIn(g, a, order)
    ensures FinishingOrder(g, order + [a])
  {
    var longer := order + [a];
    forall k | 0 <= k < |longer| ensures TargetsIn(g, longer[k], longer[..k]) {
      if k < |order| {
        assert longer[..k] == order[..k];
        assert TargetsIn(g, order[k], order[..k]);
      } else {
        assert longer[..k] == order;
      }
    }
  }

  /** A node all of whose edges lead into a sound order is sound, if no walk returns to it. */
  lemma EdgesCover(g: Graph, a: string, done: seq<string>)
    requires a in g
    requires forall k :: 0 <= k < |g[a].dependencyEdges| ==> g[a].dependencyEdges[k].installPath in done
    ensures TargetsIn(g, a, done)
  {
  }

  function Elements(s: seq<string>): set<string> {
    set x | x in s
  }

  // ----- The recursive visit -----

  class ConnectivityCheck {
    const g: Graph
    var visiting: set<string>
    var visited: set<string>
    ghost var order: seq<string>

    constructor (nodes: seq<Node>)
      ensures g == ByPath(nodes) && visiting == {} && visited == {} && order == []
    {
      g, visiting, visited, order := ByPath(nodes), {}, {}, [];
    }

    ghost predicate Consistent(stack: seq<string>)
      reads this
    {
      && visiting == Elements(stack)
      && visited == Elements(order)
      && FinishingOrder(g, order)
      && visiting !! visited
    }

    /** The state after the edges of `path` were visited: `path` moves from one set to the other. */
    method Finish(path: string, ghost stack: seq<string>)
      requires Consistent(stack + [path]) && path !in stack && path in g
      requires forall k :: 0 <= k < |g[path].dependencyEdges| ==> g[path].dependencyEdges[k].installPath in visited
      modifies this
      ensures Consistent(stack)
      ensures visited == old(visited) + {path} && order == old(order) + [path]
    {
      assert (stack + [path])[|stack|] == path;
      assert path in visiting && path !in visited;
      EdgesCover(g, path, order);
      ExtendOrder(g, order, path);
      visiting := visiting - {path};
      visited := visited + {path};
      order := order + [path];
      assert visiting == Elements(stack);
    }

    /** Visits `path`, reached along `stack`; `false` stands for the thrown connectivity error. */
    method Visit(path: string, ghost stack: seq<string>) returns (ok: bool)
      requires Consistent(stack) && Walk(g, stack + [path])
      modifies this
      ensures ok ==> Consistent(stack) && path in visited && old(visited) <= visited
      ensures ok ==> AllReached(g, path, visited - old(visited))
      ensures !ok ==> Broken(g, path)
      decreases |g.Keys - visiting|, 0
    {
      if path in visiting {
        ReturnIsCycle(g, stack, path);
        return false;
      }
      if path in visited { return true; }
      ReachesSelf(g, path);
      if path !in g { return false; }
      SmallerSet(g.Keys - (visiting + {path}), g.Keys - visiting);
      visiting := visiting + {path};
      assert Elements(stack + [path]) == Elements(stack) + {path};
      var edgesOk := VisitEdges(path, stack);
      if !edgesOk { return false; }
      Finish(path, stack);
      return true;
    }

    /** The loop over the edges of `path`, with `path` among the nodes being visited. */
    method VisitEdges(path: string, ghost stack: seq<string>) returns (ok: bool)
      requires Consistent(stack + [path]) && Walk(g, stack + [path]) && path in g
      modifies this
      ensures ok ==> Consistent(stack + [path]) && old(visited) <= visited
      ensures ok ==> forall m :: 0 <= m < |g[path].dependencyEdges| ==>
          g[path].dependencyEdges[m].installPath in visited
      ensures ok ==> AllReached(g, path, visited - old(visited))
      ensures !ok ==> Broken(g, path)
      decreases |g.Keys - visiting|, 1
    {
      var edges := g[path].dependencyEdges;
      for k := 0 to |edges|
        invariant Consistent(stack + [path]) && visiting == old(visiting)
        invariant old(visited) <= visited
        invariant forall m :: 0 <= m < k ==> edges[m].installPath in visited
        invariant AllReached(g, path, visited - old(visited))
      {
        var target := edges[k].installPath;
        assert Links(g, path, target);
        StepWalk(g, stack, path, target);
        ghost var before := visited;
        var childOk := Visit(target, stack + [path]);
        if !childOk {
          BrokenStep(g, path, target);
          return false;
        }
        AllReachedStep(g, path, target, before - old(visited), visited - before, visited - old(visited));
      }
      return true;
    }
  }

  ghost predicate AllReached(g: Graph, a: string, xs: set<string>) {
    forall x :: x in xs ==> Reaches(g, a, x)
  }

  lemma AllReachedStep(g: Graph, path: string, target: string, xs: set<string>, ys: set<string>, all: set<string>)
    requires Links(g, path, target) && AllReached(g, path, xs) && AllReached(g, target, ys) && all <= xs + ys
    ensures AllReached(g, path, all)
  {
    forall x | x in all ensures Reaches(g, path, x) {
      if x in ys { ReachesStep(g, path, target, x); }
    }
  }

  lemma SmallerSet(a: set<string>, b: set<string>)
    requires a < b
    ensures |a| < |b|
  {
    var rest := b - a;
    assert b == a + rest;
    assert rest != {};
    assert |b| == |a| + |rest|;
  }

  lemma StepWalk(g: Graph, stack: seq<string>, path: string, target: string)
    requires Walk(g, stack + [path]) && Links(g, path, target)
    ensures Walk(g, stack + [path] + [target])
  {
    var p, q := stack + [path], stack + [path] + [target];
    forall i | 0 <= i < |q| - 1 ensures Links(g, q[i], q[i + 1]) {
      if i < |p| - 1 {
        assert Links(g, p[i], p[i + 1]);
      }
    }
  }

  // ----- The check -----

  function Paths(nodes: seq<Node>): set<string> {
    set i | 0 <= i < |nodes| :: nodes[i].installPath
  }

  lemma PathsAppend(front: seq<Node>, last: Node)
    ensures Paths(front + [last]) == Paths(front) + {last.installPath}
  {
    var nodes := front + [last];
    assert nodes[|front|] == last;
    forall x | x in Paths(front) ensures x in Paths(nodes) {
      var i :| 0 <= i < |front| && front[i].installPath == x;
      assert nodes[i].installPath == x;
    }
  }

  lemma {:induction false} ByPathKeys(nodes: seq<Node>)
    ensures ByPath(nodes).Keys == Paths(nodes)
  {
    if nodes != [] {
      var front, last := nodes[..|nodes| - 1], nodes[|nodes| - 1];
      ByPathKeys(front);
      PathsAppend(front, last);
      assert nodes == front + [last];
    }
  }

  lemma DistinctAppend(front: seq<Node>, last: Node)
    ensures DistinctPaths(front + [last]) <==> DistinctPaths(front) && last.installPath !in Paths(front)
  {
    var nodes := front + [last];
    if DistinctPaths(nodes) {
      forall i, j | 0 <= i < j < |front| ensures front[i].installPath != front[j].installPath {
        assert nodes[i].installPath != nodes[j].installPath;
      }
      forall i | 0 <= i < |front| ensures front[i].installPath != last.installPath {
        assert nodes[i].installPath != nodes[|front|].installPath;
      }
    }
  }

  /** The table is as large as the list exactly when no path is repeated. */
  lemma {:induction false} PathsCount(nodes: seq<Node>)
    ensures |Paths(nodes)| <= |nodes|
    ensures |Paths(nodes)| == |nodes| <==> DistinctPaths(nodes)
  {
    if nodes != [] {
      var front, last := nodes[..|nodes| - 1], nodes[|nodes| - 1];
      PathsCount(front);
      PathsAppend(front, last);
      DistinctAppend(front, last);
      assert nodes == front + [last];
    }
  }

  /** Accepts exactly the connected, resolving, acyclic graphs. */
  method AssertConnectedAcyclic(nodes: seq<Node>, topPath: string) returns (ok: bool)
    ensures ok <==> ConnectedAcyclic(nodes, topPath)
  {
    var check := new ConnectivityCheck(nodes);
    assert Elements([]) == {};
    assert [] + [topPath] == [topPath];
    var visitOk := check.Visit(topPath, []);
    if !visitOk { return false; }
    OrderIsSound(check.g, check.order, topPath);
    ok := |check.visited| == |nodes|;
    Decide(nodes, topPath, check.visited, check.order);
  }

  lemma OrderInGraph(g: Graph, order: seq<string>, visited: set<string>)
    requires FinishingOrder(g, order) && visited == Elements(order)
    ensures visited <= g.Keys
  {
    forall x | x in visited ensures x in g.Keys {
      var k :| 0 <= k < |order| && order[k] == x;
      assert TargetsIn(g, order[k], order[..k]);
    }
  }

  lemma Decide(nodes: seq<Node>, topPath: string, visited: set<string>, order: seq<string>)
    requires FinishingOrder(ByPath(nodes), order) && visited == Elements(order)
    requires !Broken(ByPath(nodes), topPath)
    requires forall x :: x in visited <==> Reaches(ByPath(nodes), topPath, x)
    ensures |visited| == |nodes| <==> ConnectedAcyclic(nodes, topPath)
  {
    var g := ByPath(nodes);
    ByPathKeys(nodes);
    PathsCount(nodes);
    OrderInGraph(g, order, visited);
    SubsetSizes(visited, Paths(nodes));
    if |visited| == |nodes| {
      forall i | 0 <= i < |nodes| ensures Reaches(g, topPath, nodes[i].installPath) {
        assert nodes[i].installPath in Paths(nodes);
      }
    }
    if ConnectedAcyclic(nodes, topPath) {
      assert visited == Paths(nodes);
    }
  }

  lemma SubsetSizes(a: set<string>, b: set<string>)
    requires a <= b
    ensures |a| <= |b|
    ensures |a| == |b| ==> a == b
  {
    if a != b {
      assert a < b;
      SmallerSet(a, b);
    }
  }

  ghost predicate EdgesResolve(g: Graph) {
    forall a, b :: Links(g, a, b) ==> b in g
  }

  /** When every edge resolves, the check refuses exactly the graphs with an unreachable node or a reachable cycle. */
  lemma ResolvedGraphFailsOnlyByReachOrCycle(nodes: seq<Node>, top: string)
    requires DistinctPaths(nodes) && top in ByPath(nodes) && EdgesResolve(ByPath(nodes))
    ensures ConnectedAcyclic(nodes, top) <==>
            (&& (forall i :: 0 <= i < |nodes| ==> Reaches(ByPath(nodes), top, nodes[i].installPath))
             && (forall x :: Reaches(ByPath(nodes), top, x) ==> !OnCycle(ByPath(nodes), x)))
  {
    var g := ByPath(nodes);
    forall x | Reaches(g, top, x) ensures x in g {
      var p :| WalkFromTo(g, p, top, x);
      if |p| > 1 {
        assert Links(g, p[|p| - 2], p[|p| - 2 + 1]);
      }
    }
  }
}
