/** Compiling the package records of a lock document into an exact dependency graph. */
module LockGraph {
  import opened Options
  import opened InstallPaths
  import opened DependencyGraph

  datatype Declaration = Declaration(name: string, specifier: string)

  /** One package record whose own fields have already been accepted. */
  datatype LockEntry = LockEntry(installPath: string, version: string, dependencies: seq<Declaration>)

  /** What the compiler tables about an install path: the name it spells and the recorded version. */
  datatype Installed = Installed(packageName: string, exactVersion: string)

  datatype TopPackage = TopPackage(name: string, exactVersion: string)

  // ----- What the compiler promises -----

  ghost predicate DeclaresWell(entry: LockEntry, safe: string -> bool) {
    forall k :: 0 <= k < |entry.dependencies| ==>
      IsPackageName(entry.dependencies[k].name) && safe(entry.dependencies[k].specifier)
  }

  /** Every record has a path that spells its package, and no two paths fold to the same portable text. */
  ghost predicate WellFormed(entries: seq<LockEntry>, fold: string -> string, safe: string -> bool) {
    && (forall i, j :: 0 <= i < j < |entries| ==> fold(entries[i].installPath) != fold(entries[j].installPath))
    && (forall i :: 0 <= i < |entries| ==> ValidInstallPath(entries[i].installPath) && DeclaresWell(entries[i], safe))
  }

  function PathSet(entries: seq<LockEntry>): set<string> {
    set i | 0 <= i < |entries| :: entries[i].installPath
  }

  ghost predicate Nearest(path: string, dependency: string, paths: set<string>, target: Option<string>) {
    forall names :: Spells(path, names) ==> NearestHost(names, dependency, paths, target)
  }

  ghost predicate EdgeOf(path: string, declared: Declaration, paths: set<string>, edge: Edge) {
    && edge.packageName == declared.name && edge.declaredSpecifier == declared.specifier
    && Nearest(path, declared.name, paths, Some(edge.installPath))
  }

  /** The node of a record: its own name, and one edge per declaration to the nearest host's copy. */
  ghost predicate NodeOf(entry: LockEntry, paths: set<string>, node: Node) {
    && node.installPath == entry.installPath
    && (forall names :: Spells(entry.installPath, names) ==> node.packageName == Last(names))
    && |node.dependencyEdges| == |entry.dependencies|
    && forall k :: 0 <= k < |entry.dependencies| ==>
      EdgeOf(entry.installPath, entry.dependencies[k], paths, node.dependencyEdges[k])
  }

  ghost predicate NodesOf(entries: seq<LockEntry>, paths: set<string>, nodes: seq<Node>) {
    |nodes| == |entries| && forall i :: 0 <= i < |entries| ==> NodeOf(entries[i], paths, nodes[i])
  }

  function TopPath(top: TopPackage): string {
    NODE_MODULES + "/" + top.name
  }

  ghost predicate HasTop(entries: seq<LockEntry>, top: TopPackage) {
    exists i :: 0 <= i < |entries| && entries[i].installPath == TopPath(top) && entries[i].version == top.exactVersion
  }

  ghost predicate Compiles(entries: seq<LockEntry>, top: TopPackage, limit: nat, fold: string -> string,
                           safe: string -> bool, nodes: seq<Node>) {
    && 0 < |entries| <= limit && WellFormed(entries, fold, safe)
    && NodesOf(entries, PathSet(entries), nodes)
    && HasTop(entries, top) && ConnectedAcyclic(nodes, TopPath(top))
  }

  // ----- At most one graph per lock document -----

  lemma NodeOfUnique(entry: LockEntry, paths: set<string>, a: Node, b: Node)
    requires ValidInstallPath(entry.installPath) && NodeOf(entry, paths, a) && NodeOf(entry, paths, b)
    ensures a == b
  {
    var names :| Spells(entry.installPath, names);
    forall k | 0 <= k < |entry.dependencies| ensures a.dependencyEdges[k] == b.dependencyEdges[k] {
      var declared := entry.dependencies[k];
      assert EdgeOf(entry.installPath, declared, paths, a.dependencyEdges[k]);
      assert EdgeOf(entry.installPath, declared, paths, b.dependencyEdges[k]);
      NearestHostUnique(names, declared.name, paths, Some(a.dependencyEdges[k].installPath),
                        Some(b.dependencyEdges[k].installPath));
    }
  }

  lemma NodesOfUnique(entries: seq<LockEntry>, fold: string -> string, safe: string -> bool, a: seq<Node>, b: seq<Node>)
    requires WellFormed(entries, fold, safe)
    requires NodesOf(entries, PathSet(entries), a) && NodesOf(entries, PathSet(entries), b)
    ensures a == b
  {
    forall i | 0 <= i < |entries| ensures a[i] == b[i] {
      NodeOfUnique(entries[i], PathSet(entries), a[i], b[i]);
    }
  }

  // ----- Compilation -----

  ghost predicate NamesAreSpelled(byPath: map<string, Installed>) {
    forall path, names :: path in byPath && Spells(path, names) ==> byPath[path].packageName == Last(names)
  }

  ghost predicate Tables(entries: seq<LockEntry>, byPath: map<string, Installed>) {
    && byPath.Keys == PathSet(entries) && NamesAreSpelled(byPath)
    && forall i :: 0 <= i < |entries| ==>
      entries[i].installPath in byPath && byPath[entries[i].installPath].exactVersion == entries[i].version
  }

  function PortablePaths(entries: seq<LockEntry>, fold: string -> string): set<string> {
    set i | 0 <= i < |entries| :: fold(entries[i].installPath)
  }

  lemma OneMorePath(front: seq<LockEntry>, entry: LockEntry, fold: string -> string)
    ensures PathSet(front + [entry]) == PathSet(front) + {entry.installPath}
    ensures PortablePaths(front + [entry], fold) == PortablePaths(front, fold) + {fold(entry.installPath)}
  {
    var all := front + [entry];
    assert all[|front|] == entry;
    forall p | p in PathSet(front) ensures p in PathSet(all) {
      var j :| 0 <= j < |front| && front[j].installPath == p;
      assert all[j].installPath == p;
    }
    forall p | p in PortablePaths(front, fold) ensures p in PortablePaths(all, fold) {
      var j :| 0 <= j < |front| && fold(front[j].installPath) == p;
      assert all[j] == front[j];
    }
  }

  lemma StillWellFormed(front: seq<LockEntry>, entry: LockEntry, fold: string -> string, safe: string -> bool)
    requires WellFormed(front, fold, safe)
    requires ValidInstallPath(entry.installPath) && DeclaresWell(entry, safe)
    requires fold(entry.installPath) !in PortablePaths(front, fold)
    ensures WellFormed(front + [entry], fold, safe)
  {
    assert forall j :: 0 <= j < |front| ==> fold(front[j].installPath) in PortablePaths(front, fold);
  }

  lemma StillTables(front: seq<LockEntry>, entry: LockEntry, byPath: map<string, Installed>, name: string)
    requires Tables(front, byPath) && entry.installPath !in PathSet(front)
    requires forall names :: Spells(entry.installPath, names) ==> name == Last(names)
    ensures Tables(front + [entry], byPath[entry.installPath := Installed(name, entry.version)])
  {
    OneMorePath(front, entry, path => path);
    assert forall i :: 0 <= i < |front| ==> front[i].installPath in PathSet(front);
  }

  lemma OneMoreEntry(front: seq<LockEntry>, entry: LockEntry, fold: string -> string, safe: string -> bool,
                     byPath: map<string, Installed>, name: string)
    requires WellFormed(front, fold, safe) && Tables(front, byPath)
    requires ValidInstallPath(entry.installPath) && DeclaresWell(entry, safe)
    requires fold(entry.installPath) !in PortablePaths(front, fold)
    requires forall names :: Spells(entry.installPath, names) ==> name == Last(names)
    ensures WellFormed(front + [entry], fold, safe)
    ensures Tables(front + [entry], byPath[entry.installPath := Installed(name, entry.version)])
    ensures PortablePaths(front + [entry], fold) == PortablePaths(front, fold) + {fold(entry.installPath)}
  {
    OneMorePath(front, entry, fold);
    StillWellFormed(front, entry, fold, safe);
    StillTables(front, entry, byPath, name);
  }

  lemma RepeatedPath(entries: seq<LockEntry>, i: nat, fold: string -> string, safe: string -> bool)
    requires i < |entries| && fold(entries[i].installPath) in PortablePaths(entries[..i], fold)
    ensures !WellFormed(entries, fold, safe)
  {
    var j :| 0 <= j < i && fold(entries[..i][j].installPath) == fold(entries[i].installPath);
    assert fold(entries[j].installPath) == fold(entries[i].installPath);
  }

  /** The state of reading after the first `i` records. */
  ghost predicate ReadEntriesTo(entries: seq<LockEntry>, i: nat, fold: string -> string, safe: string -> bool,
                         byPath: map<string, Installed>, portable: set<string>)
  {
    && i <= |entries| && WellFormed(entries[..i], fold, safe) && Tables(entries[..i], byPath)
    && portable == PortablePaths(entries[..i], fold)
  }

  lemma ReadOne(entries: seq<LockEntry>, i: nat, fold: string -> string, safe: string -> bool,
                byPath: map<string, Installed>, portable: set<string>, name: string)
    requires i < |entries| && ReadEntriesTo(entries, i, fold, safe, byPath, portable)
    requires ValidInstallPath(entries[i].installPath) && DeclaresWell(entries[i], safe)
    requires fold(entries[i].installPath) !in portable
    requires forall names :: Spells(entries[i].installPath, names) ==> name == Last(names)
    ensures ReadEntriesTo(entries, i + 1, fold, safe,
                          byPath[entries[i].installPath := Installed(name, entries[i].version)],
                   portable + {fold(entries[i].installPath)})
  {
    assert entries[..i + 1] == entries[..i] + [entries[i]];
    OneMoreEntry(entries[..i], entries[i], fold, safe, byPath, name);
  }

  /** Checks each record's path and declarations, and tables what the path spells. */
  method ReadEntries(entries: seq<LockEntry>, fold: string -> string, safe: string -> bool)
    returns (byPath: Option<map<string, Installed>>)
    ensures byPath.Some? <==> WellFormed(entries, fold, safe)
    ensures byPath.Some? ==> Tables(entries, byPath.value)
  {
    var table: map<string, Installed> := map[];
    var portablePaths: set<string> := {};
    for i := 0 to |entries|
      invariant ReadEntriesTo(entries, i, fold, safe, table, portablePaths)
    {
      var path := entries[i].installPath;
      if fold(path) in portablePaths {
        RepeatedPath(entries, i, fold, safe);
        return None;
      }
      var name := ReadEntry(entries[i], safe);
      if name.None? {
        return None;
      }
      ReadOne(entries, i, fold, safe, table, portablePaths, name.value);
      portablePaths := portablePaths + {fold(path)};
      table := table[path := Installed(name.value, entries[i].version)];
    }
    assert entries[..|entries|] == entries;
    return Some(table);
  }

  method ReadEntry(entry: LockEntry, safe: string -> bool) returns (name: Option<string>)
    ensures name.Some? <==> ValidInstallPath(entry.installPath) && DeclaresWell(entry, safe)
    ensures name.Some? ==> forall names :: Spells(entry.installPath, names) ==> name.value == Last(names)
  {
    name := PackageNameFromInstallPath(entry.installPath);
    var declares := CheckDeclarations(entry, safe);
    if !declares {
      return None;
    }
  }

  method CheckDeclarations(entry: LockEntry, safe: string -> bool) returns (ok: bool)
    ensures ok <==> DeclaresWell(entry, safe)
  {
    for k := 0 to |entry.dependencies|
      invariant forall d :: 0 <= d < k ==>
          IsPackageName(entry.dependencies[d].name) && safe(entry.dependencies[d].specifier)
    {
      if !IsPackageName(entry.dependencies[k].name) || !safe(entry.dependencies[k].specifier) {
        return false;
      }
    }
    return true;
  }

  /** Resolves every declaration of a record; nothing only when some declaration has no host. */
  method ResolveEdges(entry: LockEntry, byPath: map<string, Installed>) returns (edges: Option<seq<Edge>>)
    requires ValidInstallPath(entry.installPath)
    requires forall k :: 0 <= k < |entry.dependencies| ==> IsPackageName(entry.dependencies[k].name)
    requires NamesAreSpelled(byPath)
    ensures edges.Some? ==> |edges.value| == |entry.dependencies|
    ensures edges.Some? ==> forall k :: 0 <= k < |entry.dependencies| ==>
                                          EdgeOf(entry.installPath, entry.dependencies[k], byPath.Keys, edges.value[k])
    ensures edges.None? ==>
              exists k :: 0 <= k < |entry.dependencies|
                          && Nearest(entry.installPath, entry.dependencies[k].name, byPath.Keys, None)
  {
    var resolved: seq<Edge> := [];
    for k := 0 to |entry.dependencies|
      invariant |resolved| == k
      invariant forall d :: 0 <= d < k ==> EdgeOf(entry.installPath, entry.dependencies[d], byPath.Keys, resolved[d])
    {
      var declared := entry.dependencies[k];
      var target := ResolveNodeDependency(entry.installPath, declared.name, byPath);
      if target.None? {
        return None;
      }
      NamedAfterDeclaration(entry.installPath, declared.name, byPath, target.value);
      if byPath[target.value].packageName != declared.name {
        return None;
      }
      resolved := resolved + [Edge(declared.name, declared.specifier, target.value)];
    }
    return Some(resolved);
  }

  /** Why the compiler's own check of the resolved copy's name can never fail. */
  lemma NamedAfterDeclaration(path: string, dependency: string, byPath: map<string, Installed>, target: string)
    requires ValidInstallPath(path) && IsPackageName(dependency) && target in byPath
    requires Nearest(path, dependency, byPath.Keys, Some(target))
    requires NamesAreSpelled(byPath)
    ensures byPath[target].packageName == dependency
  {
    var names :| Spells(path, names);
    ResolvedCopyIsNamesake(names, dependency, byPath.Keys, target);
    var chain :| Spells(target, chain);
  }

  method ResolveAll(entries: seq<LockEntry>, byPath: map<string, Installed>) returns (nodes: Option<seq<Node>>)
    requires forall i :: 0 <= i < |entries| ==>
        ValidInstallPath(entries[i].installPath) && entries[i].installPath in byPath
    requires forall i, k :: 0 <= i < |entries| && 0 <= k < |entries[i].dependencies| ==>
        IsPackageName(entries[i].dependencies[k].name)
    requires NamesAreSpelled(byPath)
    ensures nodes.Some? ==> NodesOf(entries, byPath.Keys, nodes.value)
    ensures nodes.None? ==> forall ns :: !NodesOf(entries, byPath.Keys, ns)
  {
    var compiled: seq<Node> := [];
    for i := 0 to |entries|
      invariant |compiled| == i
      invariant forall j :: 0 <= j < i ==> NodeOf(entries[j], byPath.Keys, compiled[j])
    {
      var edges := ResolveEdges(entries[i], byPath);
      if edges.None? {
        NoNode(entries, i, byPath.Keys);
        return None;
      }
      compiled := compiled + [Node(entries[i].installPath, byPath[entries[i].installPath].packageName, edges.value)];
    }
    return Some(compiled);
  }

  lemma NoNode(entries: seq<LockEntry>, i: nat, paths: set<string>)
    requires i < |entries| && ValidInstallPath(entries[i].installPath)
    requires exists k :: 0 <= k < |entries[i].dependencies|
                         && Nearest(entries[i].installPath, entries[i].dependencies[k].name, paths, None)
    ensures forall nodes: seq<Node> :: !NodesOf(entries, paths, nodes)
  {
    var entry := entries[i];
    var k :| 0 <= k < |entry.dependencies| && Nearest(entry.installPath, entry.dependencies[k].name, paths, None);
    var names :| Spells(entry.installPath, names);
    forall nodes: seq<Node> | NodesOf(entries, paths, nodes) ensures false {
      assert NodeOf(entry, paths, nodes[i]);
      assert EdgeOf(entry.installPath, entry.dependencies[k], paths, nodes[i].dependencyEdges[k]);
      NearestHostUnique(names, entry.dependencies[k].name, paths, None, Some(nodes[i].dependencyEdges[k].installPath));
    }
  }

  /** The table has the top package at its path exactly when some record does; its name needs no check of its own. */
  lemma TopInTable(entries: seq<LockEntry>, top: TopPackage, byPath: map<string, Installed>)
    requires IsPackageName(top.name) && Tables(entries, byPath)
    ensures HasTop(entries, top) <==>
            TopPath(top) in byPath && byPath[TopPath(top)] == Installed(top.name, top.exactVersion)
  {
    var none: seq<string> := [];
    AtRoot(none, top.name);
    assert none[..0] + [top.name] == [top.name];
    assert Spells(TopPath(top), [top.name]);
    assert Last([top.name]) == top.name;
  }

  /** Yields the one graph the lock document compiles to, exactly when there is one. */
  method CompileLockGraph(entries: seq<LockEntry>, top: TopPackage, limit: nat, fold: string -> string,
                          safe: string -> bool)
    returns (nodes: Option<seq<Node>>)
    requires IsPackageName(top.name)
    ensures nodes.Some? ==> Compiles(entries, top, limit, fold, safe, nodes.value)
    ensures nodes.None? ==> forall ns :: !Compiles(entries, top, limit, fold, safe, ns)
  {
    if |entries| == 0 || |entries| > limit {
      return None;
    }
    var byPath := ReadEntries(entries, fold, safe);
    if byPath.None? {
      return None;
    }
    var resolved := ResolveAll(entries, byPath.value);
    if resolved.None? {
      return None;
    }
    TopInTable(entries, top, byPath.value);
    if TopPath(top) !in byPath.value || byPath.value[TopPath(top)] != Installed(top.name, top.exactVersion) {
      return None;
    }
    var sound := AssertConnectedAcyclic(resolved.value, TopPath(top));
    if !sound {
      forall ns | Compiles(entries, top, limit, fold, safe, ns) ensures false {
        NodesOfUnique(entries, fold, safe, ns, resolved.value);
      }
      return None;
    }
    return resolved;
  }

  /** Every edge of a compiled graph leads to one of its nodes, and that node carries the edge's package name. */
  lemma CompiledEdgesResolve(entries: seq<LockEntry>, top: TopPackage, limit: nat, fold: string -> string,
                             safe: string -> bool, nodes: seq<Node>, i: nat, k: nat)
    requires Compiles(entries, top, limit, fold, safe, nodes) && i < |nodes| && k < |nodes[i].dependencyEdges|
    ensures exists j :: 0 <= j < |nodes| && nodes[j].installPath == nodes[i].dependencyEdges[k].installPath
                        && nodes[j].packageName == nodes[i].dependencyEdges[k].packageName
  {
    var entry, edge := entries[i], nodes[i].dependencyEdges[k];
    assert NodeOf(entry, PathSet(entries), nodes[i])
      && EdgeOf(entry.installPath, entry.dependencies[k], PathSet(entries), edge);
    assert DeclaresWell(entry, safe);
    var names :| Spells(entry.installPath, names);
    ResolvedCopyIsNamesake(names, edge.packageName, PathSet(entries), edge.installPath);
    var depth: nat :| NearestAt(names, edge.packageName, PathSet(entries), depth)
                      && Candidate(names, depth, edge.packageName) == edge.installPath;
    var j :| 0 <= j < |entries| && entries[j].installPath == edge.installPath;
    assert NodeOf(entries[j], PathSet(entries), nodes[j]);
    var chain :| Spells(edge.installPath, chain);
  }
}
