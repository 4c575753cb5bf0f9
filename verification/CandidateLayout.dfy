/** How a compiled candidate is laid out in JSON, and how many values and levels its parts bring. */
module CandidateLayout {
  import opened Numbers
  import opened Options
  import opened Sequences
  import opened JsonText
  import opened JsonValues
  import opened CanonicalJson
  import opened JsonTally
  import opened JsonObjects
  import opened Utf16
  import opened CandidateV2
  import opened LockDocuments

  // ----- Names -----

  const CONTRACT_KEY: Text := Units("semanticContract")
  const PROFILE_ID: Text := Units("profileId")
  const PROFILE_VERSION: Text := Units("profileVersion")
  const TOP_PACKAGE: Text := Units("topPackage")
  const REGISTRY: Text := Units("registryOrigin")
  const RUNTIME: Text := Units("runtimeConstraint")
  const MATERIALIZATION: Text := Units("materializationRulesVersion")
  const ARCHIVE_RULES: Text := Units("archiveRulesVersion")
  const WORKER_PROTOCOL: Text := Units("workerProtocolVersion")
  const LIMITS: Text := Units("limits")
  const ROOT_DEPENDENCIES: Text := Units("rootDependencies")
  const GRAPH_NODES: Text := Units("graphNodes")
  const DIGEST_KEY: Text := Units("candidateDigest")

  const UNSIGNED_NAMES: seq<Text> := [
    Units("candidateSchemaVersion"), CONTRACT_KEY, PROFILE_ID, PROFILE_VERSION, TOP_PACKAGE, REGISTRY, RUNTIME,
    MATERIALIZATION, ARCHIVE_RULES, WORKER_PROTOCOL, LIMITS, ROOT_DEPENDENCIES, GRAPH_NODES
  ]

  const INSTALL_PATH: Text := Units("installPath")
  const PACKAGE_NAME: Text := Units("packageName")
  const EXACT_VERSION: Text := Units("exactVersion")
  const DEPENDENCIES_PRESENT: Text := Units("dependenciesPresent")
  const PEERS_PRESENT: Text := Units("peerDependenciesPresent")
  const META_PRESENT: Text := Units("peerDependenciesMetaPresent")
  const FLAG_PRESENT: Text := Units("peerFlagPresent")
  const PEER_FLAG: Text := Units("peerFlag")
  const SPECIFIER: Text := Units("declaredSpecifier")
  const KIND: Text := Units("kind")

  const NODE_NAMES: seq<Text> := [
    INSTALL_PATH, PACKAGE_NAME, EXACT_VERSION, Units("tarballUrl"), Units("sha512Integrity"),
    Units("expectedLifecycleScriptNames"), DEPENDENCIES_PRESENT, Units("dependencyDeclarations"),
    Units("dependencyEdges"), PEERS_PRESENT, Units("peerDependencyDeclarations"), META_PRESENT, PEER_META,
    FLAG_PRESENT, Units("peerRequirements")
  ]

  const FLAGGED_NAMES: seq<Text> := NODE_NAMES + [PEER_FLAG]

  const TOP_NAMES: seq<Text> := [NAME, EXACT_VERSION, Units("exactEntrypointRelativePath")]

  const RUNTIME_NAMES: seq<Text> := [
    Units("os"), Units("architecture"), Units("nodeMajor"), Units("nodeVersion"), Units("npmGraphGeneratorVersion"),
    LOCKFILE_VERSION
  ]

  const LIMIT_NAMES: seq<Text> := [
    GRAPH_NODES, Units("compressedArtifactBytes"), Units("totalCompressedBytes"), Units("uncompressedArtifactBytes"),
    Units("totalUncompressedBytes"), Units("regularFileBytes"), Units("archiveEntries"), Units("relativePathBytes"),
    Units("pathDepth")
  ]

  const CONTRACT_NAMES: seq<Text> := [
    Units("candidateSchemaVersion"), Units("peerSemanticsVersion"), Units("grammar"), Units("resolver"),
    Units("closure"), LIMITS
  ]

  const CONTRACT_LIMITS: seq<Text> := [
    Units("candidateBytes"), Units("rangeBytes"), Units("branches"), Units("atoms"), Units("comparisons"),
    Units("nodes"), Units("pathBytes"), Units("pathSegments"), Units("peersPerNode"), Units("peers"),
    Units("combinedRequirements")
  ]

  const EDGE_NAMES: seq<Text> := [PACKAGE_NAME, SPECIFIER, INSTALL_PATH]

  const REQUIREMENT_NAMES: seq<Text> := [PACKAGE_NAME, SPECIFIER, OPTIONAL, Units("resolution")]

  const PRESENT_NAMES: seq<Text> := [KIND, INSTALL_PATH, EXACT_VERSION]

  lemma {:induction false} OneMoreName(names: seq<Text>, name: Text)
    requires Distinct(names) && name !in names
    ensures Distinct(names + [name])
  {
  }

  lemma {:induction false} UnsignedNamesDiffer()
    ensures Distinct(UNSIGNED_NAMES)
  {
    assert UNSIGNED_NAMES[1][0] != UNSIGNED_NAMES[11][0];
    assert UNSIGNED_NAMES[3][0] != UNSIGNED_NAMES[5][0];
    assert UNSIGNED_NAMES[4][0] != UNSIGNED_NAMES[12][0];
  }

  lemma {:induction false} DigestIsNew()
    ensures DIGEST_KEY !in UNSIGNED_NAMES
  {
    assert |DIGEST_KEY| == 15 && forall k :: k in UNSIGNED_NAMES ==> |k| != 15;
  }

  lemma {:induction false} NodeNamesDiffer()
    ensures Distinct(NODE_NAMES)
  {
    assert NODE_NAMES[0][0] != NODE_NAMES[1][0];
    assert NODE_NAMES[4][0] != NODE_NAMES[8][0];
    assert NODE_NAMES[4][0] != NODE_NAMES[13][0];
    assert NODE_NAMES[8][0] != NODE_NAMES[13][0];
  }

  lemma {:induction false} FlaggedNamesDiffer()
    ensures PEER_FLAG !in NODE_NAMES && Distinct(FLAGGED_NAMES)
  {
    assert |PEER_FLAG| == 8 && forall k :: k in NODE_NAMES ==> |k| != 8;
    NodeNamesDiffer();
    OneMoreName(NODE_NAMES, PEER_FLAG);
  }

  lemma {:induction false} SmallNamesDiffer()
    ensures Distinct(TOP_NAMES) && Distinct(RUNTIME_NAMES) && Distinct(EDGE_NAMES) && Distinct(REQUIREMENT_NAMES)
    ensures Distinct(PRESENT_NAMES) && Distinct([KIND])
  {
    assert EDGE_NAMES[0][0] != EDGE_NAMES[2][0];
  }

  lemma {:induction false} LimitNamesDiffer()
    ensures Distinct(LIMIT_NAMES)
  {
    assert LIMIT_NAMES[1][0] != LIMIT_NAMES[4][0];
  }

  lemma {:induction false} ContractNamesDiffer()
    ensures Distinct(CONTRACT_NAMES) && Distinct(CONTRACT_LIMITS)
  {
    assert CONTRACT_NAMES[2][0] != CONTRACT_NAMES[4][0];
    assert CONTRACT_LIMITS[3][0] != CONTRACT_LIMITS[5][0];
    assert CONTRACT_LIMITS[3][0] != CONTRACT_LIMITS[9][0];
    assert CONTRACT_LIMITS[5][0] != CONTRACT_LIMITS[9][0];
    assert CONTRACT_LIMITS[7][1] != CONTRACT_LIMITS[8][1];
  }

  // ----- The layout -----

  function Str(s: string): Json {
    JString(ToText(s))
  }

  function ShowText(t: Text): Json {
    JString(t)
  }

  function ShowMark(mark: Option<bool>): Json {
    match mark case None => Named([], []) case Some(b) => Named([OPTIONAL], [JBool(b)])
  }

  function ShowMap<T>(m: map<string, T>, show: T -> Json, p: Platform): Json
    requires Sorts(p)
  {
    JObject(MapMembers(p.sorted(m.Keys), m, show, 0))
  }

  function ShowEdge(e: Edge): Json {
    Named(EDGE_NAMES, [Str(e.packageName), JString(e.declaredSpecifier), Str(e.installPath)])
  }

  function ShowResolution(r: Resolution): Json {
    match r
    case Absent => Named([KIND], [JString(Units("absent"))])
    case Present(path, version) => Named(PRESENT_NAMES, [JString(Units("present")), Str(path), JString(version)])
  }

  function ShowRequirement(r: Requirement): Json {
    Named(REQUIREMENT_NAMES, [Str(r.packageName), JString(r.declaredSpecifier), JBool(r.optional),
                              ShowResolution(r.resolution)])
  }

  function ShowEdges(es: seq<Edge>): (values: seq<Json>)
    ensures |values| == |es| && forall i :: 0 <= i < |es| ==> values[i] == ShowEdge(es[i])
  {
    seq(|es|, i requires 0 <= i < |es| => ShowEdge(es[i]))
  }

  function ShowRequirements(rs: seq<Requirement>): (values: seq<Json>)
    ensures |values| == |rs| && forall i :: 0 <= i < |rs| ==> values[i] == ShowRequirement(rs[i])
  {
    seq(|rs|, i requires 0 <= i < |rs| => ShowRequirement(rs[i]))
  }

  function NodeValues(n: Node, p: Platform): (values: seq<Json>)
    requires Sorts(p)
    ensures |values| == |NODE_NAMES|
  {
    var raw := n.raw;
    [
      Str(raw.path), Str(raw.packageName), JString(raw.exactVersion), JString(raw.tarballUrl),
      JString(raw.integrity), Array([]), JBool(raw.dependenciesPresent), ShowMap(raw.dependencies, ShowText, p),
      Array(ShowEdges(n.edges)), JBool(raw.peersPresent), ShowMap(raw.peers, ShowText, p), JBool(raw.metaPresent),
      ShowMap(raw.meta, ShowMark, p), JBool(raw.peerFlag.Some?), Array(ShowRequirements(n.requirements))
    ]
  }

  function ShowNode(n: Node, p: Platform): Json
    requires Sorts(p)
  {
    match n.raw.peerFlag
    case None => Named(NODE_NAMES, NodeValues(n, p))
    case Some(flag) => Named(FLAGGED_NAMES, NodeValues(n, p) + [JBool(flag)])
  }

  function ShowNodes(ns: seq<Node>, p: Platform): (values: seq<Json>)
    requires Sorts(p)
    ensures |values| == |ns| && forall i :: 0 <= i < |ns| ==> values[i] == ShowNode(ns[i], p)
  {
    seq(|ns|, i requires 0 <= i < |ns| => ShowNode(ns[i], p))
  }

  function TopValues(s: Settings): seq<Json> {
    [Str(s.topName), JString(s.topVersion), JString(s.entrypoint)]
  }

  function ShowTop(s: Settings): Json {
    Named(TOP_NAMES, TopValues(s))
  }

  const DARWIN: Json := JString(Units("darwin"))
  const ARM64: Json := JString(Units("arm64"))

  function RuntimeValues(s: Settings): seq<Json> {
    [DARWIN, ARM64, JInt(26), JString(s.nodeVersion), JString(s.npmVersion), JInt(3)]
  }

  function ShowRuntime(s: Settings): Json {
    Named(RUNTIME_NAMES, RuntimeValues(s))
  }

  function LimitValues(l: Limits): seq<Json> {
    [JInt(l.graphNodes), JInt(l.compressedArtifactBytes), JInt(l.totalCompressedBytes),
     JInt(l.uncompressedArtifactBytes), JInt(l.totalUncompressedBytes), JInt(l.regularFileBytes),
     JInt(l.archiveEntries), JInt(l.relativePathBytes), JInt(l.pathDepth)]
  }

  function ShowLimits(l: Limits): Json {
    Named(LIMIT_NAMES, LimitValues(l))
  }

  const CONTRACT_BOUNDS: seq<Json> := [
    JInt(4_194_304), JInt(256), JInt(8), JInt(16), JInt(32), JInt(256), JInt(512), JInt(32), JInt(64), JInt(2048),
    JInt(4096)
  ]

  function ContractValues(limits: Json): seq<Json> {
    [
      JInt(2), JInt(1), JString(Units("stable-triplet-multi-u0020-v1")), JString(Units("nearest-ancestor-v1")),
      JString(Units("ordinary-required-peer-fixed-point-v1")), limits
    ]
  }

  const CONTRACT: Json := Named(CONTRACT_NAMES, ContractValues(Named(CONTRACT_LIMITS, CONTRACT_BOUNDS)))

  function UnsignedValues(u: Unsigned, p: Platform): (values: seq<Json>)
    requires Sorts(p)
    ensures |values| == |UNSIGNED_NAMES|
  {
    var s := u.settings;
    [
      JInt(2), CONTRACT, JString(s.profileId), JInt(s.profileVersion), ShowTop(s), JString(u.registry),
      ShowRuntime(s), JInt(s.materializationRulesVersion), JInt(s.archiveRulesVersion), JInt(2),
      ShowLimits(s.limits), ShowMap(u.rootDependencies, ShowText, p), Array(ShowNodes(u.nodes, p))
    ]
  }

  /** The candidate without its digest. */
  function Show(u: Unsigned, p: Platform): (v: Json)
    requires Sorts(p)
    ensures v.JObject?
  {
    Named(UNSIGNED_NAMES, UnsignedValues(u, p))
  }

  // ----- Every part is well formed -----

  lemma {:induction false} MarkIsRead(mark: Option<bool>)
    ensures WellFormed(ShowMark(mark)) && ReadMark(ShowMark(mark)) == Some(mark)
  {
    if mark.Some? {
      NamedIs([OPTIONAL], [JBool(mark.value)]);
      assert ExactKeys(ShowMark(mark).members, [], [OPTIONAL]);
    }
  }

  lemma {:induction false} TextsAreRead(m: map<string, Text>, p: Platform)
    requires Sorts(p)
    ensures WellFormed(ShowMap(m, ShowText, p)) && ReadObject(ShowMap(m, ShowText, p), ReadText) == Some(m)
  {
    MapReadsBack(p.sorted(m.Keys), m, ShowText, ReadText);
  }

  lemma {:induction false} MarksAreRead(m: MetaDeclarations, p: Platform)
    requires Sorts(p)
    ensures WellFormed(ShowMap(m, ShowMark, p)) && ReadObject(ShowMap(m, ShowMark, p), ReadMark) == Some(m)
  {
    forall mark ensures WellFormed(ShowMark(mark)) && ReadMark(ShowMark(mark)) == Some(mark) {
      MarkIsRead(mark);
    }
    MapReadsBack(p.sorted(m.Keys), m, ShowMark, ReadMark);
  }

  lemma {:induction false} EdgeWellFormed(e: Edge)
    ensures WellFormed(ShowEdge(e))
  {
    SmallNamesDiffer();
    NamedIs(EDGE_NAMES, [Str(e.packageName), JString(e.declaredSpecifier), Str(e.installPath)]);
  }

  lemma {:induction false} RequirementWellFormed(r: Requirement)
    ensures WellFormed(ShowRequirement(r))
  {
    SmallNamesDiffer();
    match r.resolution {
      case Absent => NamedIs([KIND], [JString(Units("absent"))]);
      case Present(path, version) => NamedIs(PRESENT_NAMES, [JString(Units("present")), Str(path), JString(version)]);
    }
    NamedIs(REQUIREMENT_NAMES, [Str(r.packageName), JString(r.declaredSpecifier), JBool(r.optional),
                                ShowResolution(r.resolution)]);
  }

  lemma {:induction false} ListsWellFormed(es: seq<Edge>, rs: seq<Requirement>)
    ensures WellFormed(Array(ShowEdges(es))) && WellFormed(Array(ShowRequirements(rs)))
  {
    forall i | 0 <= i < |es| ensures WellFormed(ShowEdges(es)[i]) {
      EdgeWellFormed(es[i]);
    }
    forall i | 0 <= i < |rs| ensures WellFormed(ShowRequirements(rs)[i]) {
      RequirementWellFormed(rs[i]);
    }
    ItemsWellFormedFrom(ShowEdges(es), 0);
    ItemsWellFormedFrom(ShowRequirements(rs), 0);
  }

  lemma {:induction false} NodeValuesWellFormed(n: Node, p: Platform)
    requires Sorts(p)
    ensures AllWellFormed(NodeValues(n, p))
  {
    TextsAreRead(n.raw.dependencies, p);
    TextsAreRead(n.raw.peers, p);
    MarksAreRead(n.raw.meta, p);
    ListsWellFormed(n.edges, n.requirements);
    ItemsWellFormedFrom([], 0);
  }

  /** The members of a laid out node under their names. */
  lemma {:induction false} NodeIs(n: Node, p: Platform)
    requires Sorts(p)
    ensures var v, values := ShowNode(n, p), NodeValues(n, p);
            && v.JObject? && WellFormed(v) && ExactKeys(v.members, NODE_NAMES, [PEER_FLAG])
            && (forall j :: 0 <= j < |NODE_NAMES| ==> Get(v, NODE_NAMES[j]) == Some(values[j]))
            && Get(v, PEER_FLAG) == match n.raw.peerFlag case None => None case Some(flag) => Some(JBool(flag))
  {
    NodeNamesDiffer();
    FlaggedNamesDiffer();
    NodeValuesWellFormed(n, p);
    var values := NodeValues(n, p);
    match n.raw.peerFlag {
      case None => NamedIs(NODE_NAMES, values);
      case Some(flag) =>
        NamedIs(FLAGGED_NAMES, values + [JBool(flag)]);
        assert FLAGGED_NAMES[15] == PEER_FLAG && (values + [JBool(flag)])[15] == JBool(flag);
        forall j | 0 <= j < |NODE_NAMES| ensures Get(ShowNode(n, p), NODE_NAMES[j]) == Some(values[j]) {
          assert FLAGGED_NAMES[j] == NODE_NAMES[j] && (values + [JBool(flag)])[j] == values[j];
        }
    }
  }

  lemma {:induction false} ContractWellFormed()
    ensures WellFormed(CONTRACT)
  {
    ContractNamesDiffer();
    NamedWellFormed(CONTRACT_LIMITS, CONTRACT_BOUNDS, 0);
    ContractOfWellFormed(Named(CONTRACT_LIMITS, CONTRACT_BOUNDS));
  }

  lemma {:induction false} ContractOfWellFormed(limits: Json)
    requires WellFormed(limits)
    ensures WellFormed(Named(CONTRACT_NAMES, ContractValues(limits)))
  {
    ContractNamesDiffer();
    NamedWellFormed(CONTRACT_NAMES, ContractValues(limits), 0);
  }

  lemma {:induction false} LimitsWellFormed(l: Limits)
    ensures WellFormed(ShowLimits(l))
  {
    LimitNamesDiffer();
    NamedWellFormed(LIMIT_NAMES, LimitValues(l), 0);
  }

  lemma {:induction false} SettingsWellFormed(s: Settings)
    ensures WellFormed(ShowTop(s)) && WellFormed(ShowRuntime(s))
  {
    SmallNamesDiffer();
    NamedWellFormed(TOP_NAMES, TopValues(s), 0);
    NamedWellFormed(RUNTIME_NAMES, RuntimeValues(s), 0);
  }

  lemma {:induction false} UnsignedValuesWellFormed(u: Unsigned, p: Platform)
    requires Sorts(p)
    ensures AllWellFormed(UnsignedValues(u, p))
  {
    SettingsWellFormed(u.settings);
    LimitsWellFormed(u.settings.limits);
    ContractWellFormed();
    TextsAreRead(u.rootDependencies, p);
    forall i | 0 <= i < |u.nodes| ensures WellFormed(ShowNodes(u.nodes, p)[i]) {
      NodeIs(u.nodes[i], p);
    }
    ItemsWellFormedFrom(ShowNodes(u.nodes, p), 0);
  }

  /** The members of a laid out candidate under their names. */
  lemma {:induction false} ShowIs(u: Unsigned, p: Platform)
    requires Sorts(p)
    ensures var v, values := Show(u, p), UnsignedValues(u, p);
            && WellFormed(v) && ExactKeys(v.members, UNSIGNED_NAMES, [])
            && (forall j :: 0 <= j < |UNSIGNED_NAMES| ==> Get(v, UNSIGNED_NAMES[j]) == Some(values[j]))
  {
    UnsignedNamesDiffer();
    UnsignedValuesWellFormed(u, p);
    NamedIs(UNSIGNED_NAMES, UnsignedValues(u, p));
  }

  // ----- How many values and levels -----

  lemma {:induction false} MapTally<T>(names: seq<string>, m: map<string, T>, show: T -> Json, i: nat, each: nat,
                                       h: nat)
    requires Lists(names, m) && i <= |names|
    requires forall s :: s in m ==> Visits(show(m[s])) <= each && Levels(show(m[s])) <= h
    ensures MembersVisits(MapMembers(names, m, show, i)) <= each * (|names| - i)
    ensures MembersLevels(MapMembers(names, m, show, i)) <= h
    decreases |names| - i
  {
    if i < |names| {
      MapTally(names, m, show, i + 1, each, h);
      assert each * (|names| - i) == each * (|names| - (i + 1)) + each;
    }
  }

  lemma {:induction false} TextsTally(m: map<string, Text>, p: Platform)
    requires Sorts(p)
    ensures Visits(ShowMap(m, ShowText, p)) <= 1 + |m| && Levels(ShowMap(m, ShowText, p)) <= 2
  {
    var names := p.sorted(m.Keys);
    ListedOnce(names, m.Keys);
    MapTally(names, m, ShowText, 0, 1, 1);
  }

  lemma {:induction false} MarkTally(mark: Option<bool>)
    ensures Visits(ShowMark(mark)) <= 2 && Levels(ShowMark(mark)) <= 2
  {
    if mark.Some? {
      var values := [JBool(mark.value)];
      NamedBound([OPTIONAL], values, 1, 1);
    } else {
      NamedBound([], [], 1, 1);
    }
  }

  lemma {:induction false} MarksTally(m: MetaDeclarations, p: Platform)
    requires Sorts(p)
    ensures Visits(ShowMap(m, ShowMark, p)) <= 1 + 2 * |m| && Levels(ShowMap(m, ShowMark, p)) <= 3
  {
    var names := p.sorted(m.Keys);
    ListedOnce(names, m.Keys);
    forall s | s in m ensures Visits(ShowMark(m[s])) <= 2 && Levels(ShowMark(m[s])) <= 2 {
      MarkTally(m[s]);
    }
    MapTally(names, m, ShowMark, 0, 2, 2);
  }

  lemma {:induction false} EdgeTally(e: Edge)
    ensures Visits(ShowEdge(e)) <= 4 && Levels(ShowEdge(e)) <= 2
  {
    var values := [Str(e.packageName), JString(e.declaredSpecifier), Str(e.installPath)];
    NamedBound(EDGE_NAMES, values, 1, 1);
  }

  lemma {:induction false} ResolutionTally(r: Resolution)
    ensures Visits(ShowResolution(r)) <= 4 && Levels(ShowResolution(r)) <= 2
  {
    match r
    case Absent =>
      var values := [JString(Units("absent"))];
      NamedBound([KIND], values, 1, 1);
    case Present(path, version) =>
      var values := [JString(Units("present")), Str(path), JString(version)];
      NamedBound(PRESENT_NAMES, values, 1, 1);
  }

  lemma {:induction false} RequirementTally(r: Requirement)
    ensures Visits(ShowRequirement(r)) <= 8 && Levels(ShowRequirement(r)) <= 3
  {
    var values := [Str(r.packageName), JString(r.declaredSpecifier), JBool(r.optional), ShowResolution(r.resolution)];
    ResolutionTally(r.resolution);
    NamedExactly(REQUIREMENT_NAMES, values, 2);
    assert VisitsFrom(values, 4) == 0;
    assert VisitsFrom(values, 3) <= 4;
    assert VisitsFrom(values, 2) <= 5;
    assert VisitsFrom(values, 1) <= 6;
  }

  lemma {:induction false} ListsTally(n: Node)
    ensures Visits(Array(ShowEdges(n.edges))) <= 1 + 4 * |n.edges|
    ensures Visits(Array(ShowRequirements(n.requirements))) <= 1 + 8 * |n.requirements|
    ensures Levels(Array(ShowEdges(n.edges))) <= 3 && Levels(Array(ShowRequirements(n.requirements))) <= 4
  {
    forall j | 0 <= j < |n.edges| ensures Visits(ShowEdges(n.edges)[j]) <= 4 && Levels(ShowEdges(n.edges)[j]) <= 2 {
      EdgeTally(n.edges[j]);
    }
    forall j | 0 <= j < |n.requirements|
      ensures Visits(ShowRequirements(n.requirements)[j]) <= 8 && Levels(ShowRequirements(n.requirements)[j]) <= 3 {
      RequirementTally(n.requirements[j]);
    }
    ArrayBound(ShowEdges(n.edges), 4, 2);
    ArrayBound(ShowRequirements(n.requirements), 8, 3);
  }

  /** At most 17 values of its own, 5 for each dependency, and 11 for each peer. */
  function NodeCost(n: RawNode): nat {
    17 + 5 * |n.dependencies| + 11 * |n.peers|
  }

  function NodeBounds(n: RawNode): seq<nat> {
    [1, 1, 1, 1, 1, 1, 1, 1 + |n.dependencies|, 1 + 4 * |n.dependencies|, 1, 1 + |n.peers|, 1, 1 + 2 * |n.peers|, 1,
     1 + 8 * |n.peers|]
  }

  lemma {:induction false} NodeBoundsSum(n: RawNode)
    ensures SumFrom(NodeBounds(n), 0) == NodeCost(n) - 2
  {
    var bounds := NodeBounds(n);
    SumFour(bounds, 0);
    SumFour(bounds, 4);
    SumFour(bounds, 8);
    assert SumFrom(bounds, 14) == bounds[14] + SumFrom(bounds, 15);
    assert SumFrom(bounds, 13) == bounds[13] + SumFrom(bounds, 14);
    assert SumFrom(bounds, 12) == bounds[12] + SumFrom(bounds, 13);
  }

  /** The parts of a node that are not single values. */
  ghost predicate PartsWithinBounds(n: Node, p: Platform)
    requires Sorts(p)
  {
    && Visits(ShowMap(n.raw.dependencies, ShowText, p)) <= 1 + |n.raw.dependencies|
    && Visits(Array(ShowEdges(n.edges))) <= 1 + 4 * |n.raw.dependencies|
    && Visits(ShowMap(n.raw.peers, ShowText, p)) <= 1 + |n.raw.peers|
    && Visits(ShowMap(n.raw.meta, ShowMark, p)) <= 1 + 2 * |n.raw.peers|
    && Visits(Array(ShowRequirements(n.requirements))) <= 1 + 8 * |n.raw.peers|
    && Visits(Array([])) <= 1
  }

  lemma {:induction false} PartsAreWithinBounds(n: Node, p: Platform)
    requires Sorts(p) && NodeBounded(n)
    ensures PartsWithinBounds(n, p)
  {
    TextsTally(n.raw.dependencies, p);
    TextsTally(n.raw.peers, p);
    MarksTally(n.raw.meta, p);
    ListsTally(n);
    ArrayExactly([], 0);
  }

  lemma {:induction false} NodeValuesFirst(n: Node, p: Platform)
    requires Sorts(p) && PartsWithinBounds(n, p)
    ensures forall i :: 0 <= i < 7 ==> Visits(NodeValues(n, p)[i]) <= NodeBounds(n.raw)[i]
  {
  }

  lemma {:induction false} NodeValuesMiddle(n: Node, p: Platform)
    requires Sorts(p) && PartsWithinBounds(n, p)
    ensures forall i :: 7 <= i < 11 ==> Visits(NodeValues(n, p)[i]) <= NodeBounds(n.raw)[i]
  {
  }

  lemma {:induction false} NodeValuesLast(n: Node, p: Platform)
    requires Sorts(p) && PartsWithinBounds(n, p)
    ensures forall i :: 11 <= i < 15 ==> Visits(NodeValues(n, p)[i]) <= NodeBounds(n.raw)[i]
  {
  }

  lemma {:induction false} NodeValuesVisits(n: Node, p: Platform)
    requires Sorts(p) && PartsWithinBounds(n, p)
    ensures EachWithin(NodeValues(n, p), NodeBounds(n.raw))
  {
    NodeValuesFirst(n, p);
    NodeValuesMiddle(n, p);
    NodeValuesLast(n, p);
  }

  lemma {:induction false} NodeValuesHeight(n: Node, p: Platform)
    requires Sorts(p)
    ensures NoHigher(NodeValues(n, p), 4)
  {
    TextsTally(n.raw.dependencies, p);
    TextsTally(n.raw.peers, p);
    MarksTally(n.raw.meta, p);
    ListsTally(n);
    assert Levels(Array([])) == 1;
  }

  lemma {:induction false} AlsoVisits(values: seq<Json>, v: Json, i: nat)
    requires i <= |values|
    ensures VisitsFrom(values + [v], i) == VisitsFrom(values, i) + Visits(v)
    decreases |values| - i
  {
    if i < |values| {
      AlsoVisits(values, v, i + 1);
    } else {
      assert VisitsFrom(values + [v], i + 1) == 0;
    }
  }

  lemma {:induction false} NodeTally(n: Node, p: Platform)
    requires Sorts(p) && NodeBounded(n)
    ensures Visits(ShowNode(n, p)) <= NodeCost(n.raw) && Levels(ShowNode(n, p)) <= 5
  {
    var values := NodeValues(n, p);
    PartsAreWithinBounds(n, p);
    NodeValuesVisits(n, p);
    SumBounds(values, NodeBounds(n.raw), 0);
    NodeBoundsSum(n.raw);
    NodeValuesHeight(n, p);
    match n.raw.peerFlag {
      case None => NamedExactly(NODE_NAMES, values, 4);
      case Some(flag) =>
        AlsoVisits(values, JBool(flag), 0);
        NamedExactly(FLAGGED_NAMES, values + [JBool(flag)], 4);
    }
  }

  lemma {:induction false} NodesVisits(ns: seq<Node>, p: Platform, i: nat)
    requires Sorts(p) && i <= |ns| && forall j :: 0 <= j < |ns| ==> NodeBounded(ns[j])
    ensures VisitsFrom(ShowNodes(ns, p), i) <=
            17 * (|ns| - i) + 5 * DependencyCount(RawOf(ns), i) + 11 * PeerCount(RawOf(ns), i)
    decreases |ns| - i
  {
    if i < |ns| {
      NodesVisits(ns, p, i + 1);
      NodeTally(ns[i], p);
    }
  }

  lemma {:induction false} SettingsTally(s: Settings)
    ensures Visits(ShowTop(s)) <= 4 && Levels(ShowTop(s)) <= 2
    ensures Visits(ShowRuntime(s)) <= 7 && Levels(ShowRuntime(s)) <= 2
    ensures Visits(ShowLimits(s.limits)) <= 10 && Levels(ShowLimits(s.limits)) <= 2
  {
    NamedBound(TOP_NAMES, TopValues(s), 1, 1);
    NamedBound(RUNTIME_NAMES, RuntimeValues(s), 1, 1);
    NamedBound(LIMIT_NAMES, LimitValues(s.limits), 1, 1);
  }

  lemma {:induction false} ContractTally()
    ensures Visits(CONTRACT) <= 73 && Levels(CONTRACT) <= 3
  {
    ContractLimitsTally();
    ContractOfTally(Named(CONTRACT_LIMITS, CONTRACT_BOUNDS));
  }

  lemma {:induction false} ContractOfTally(limits: Json)
    requires Visits(limits) <= 12 && Levels(limits) <= 2
    ensures Visits(Named(CONTRACT_NAMES, ContractValues(limits))) <= 73
    ensures Levels(Named(CONTRACT_NAMES, ContractValues(limits))) <= 3
  {
    NamedBound(CONTRACT_NAMES, ContractValues(limits), 12, 2);
  }

  lemma {:induction false} ContractLimitsTally()
    ensures Visits(Named(CONTRACT_LIMITS, CONTRACT_BOUNDS)) <= 12
        && Levels(Named(CONTRACT_LIMITS, CONTRACT_BOUNDS)) <= 2
  {
    NamedBound(CONTRACT_LIMITS, CONTRACT_BOUNDS, 1, 1);
  }

  lemma {:induction false} UnsignedHeight(u: Unsigned, p: Platform)
    requires Sorts(p) && Bounded(u)
    ensures NoHigher(UnsignedValues(u, p), 6)
  {
    SettingsTally(u.settings);
    ContractTally();
    TextsTally(u.rootDependencies, p);
    GraphTally(u.nodes, p);
  }

  function UnsignedBounds(nodes: nat): seq<nat> {
    [1, 73, 1, 1, 4, 1, 7, 1, 1, 1, 10, 2, nodes]
  }

  lemma {:induction false} UnsignedBoundsSum(nodes: nat)
    ensures SumFrom(UnsignedBounds(nodes), 0) == 103 + nodes
  {
    var bounds := UnsignedBounds(nodes);
    SumFour(bounds, 0);
    SumFour(bounds, 4);
    SumFour(bounds, 8);
    assert SumFrom(bounds, 12) == bounds[12] + SumFrom(bounds, 13);
  }

  lemma {:induction false} GraphTally(ns: seq<Node>, p: Platform)
    requires Sorts(p) && forall j :: 0 <= j < |ns| ==> NodeBounded(ns[j])
    ensures Visits(Array(ShowNodes(ns, p))) <= 1 + 17 * |ns| + 5 * DependencyCount(RawOf(ns), 0)
        + 11 * PeerCount(RawOf(ns), 0)
    ensures Levels(Array(ShowNodes(ns, p))) <= 6
  {
    NodesVisits(ns, p, 0);
    forall i | 0 <= i < |ns| ensures Levels(ShowNodes(ns, p)[i]) <= 5 {
      NodeTally(ns[i], p);
    }
    ArrayExactly(ShowNodes(ns, p), 5);
  }

  /** The parts of a candidate that are not single values. */
  ghost predicate HeaderWithinBounds(u: Unsigned, p: Platform)
    requires Sorts(p)
  {
    && Visits(CONTRACT) <= 73 && Visits(ShowTop(u.settings)) <= 4 && Visits(ShowRuntime(u.settings)) <= 7
    && Visits(ShowLimits(u.settings.limits)) <= 10 && Visits(ShowMap(u.rootDependencies, ShowText, p)) <= 2
  }

  lemma {:induction false} HeaderIsWithinBounds(u: Unsigned, p: Platform)
    requires Sorts(p) && Bounded(u)
    ensures HeaderWithinBounds(u, p)
  {
    SettingsTally(u.settings);
    ContractTally();
    TextsTally(u.rootDependencies, p);
  }

  lemma {:induction false} UnsignedVisits(u: Unsigned, p: Platform)
    requires Sorts(p) && HeaderWithinBounds(u, p)
    ensures EachWithin(UnsignedValues(u, p), UnsignedBounds(Visits(Array(ShowNodes(u.nodes, p)))))
  {
  }

  /** A compiled candidate has at most 37300 values and 7 levels. */
  lemma {:induction false} BoundedTally(u: Unsigned, p: Platform)
    requires Sorts(p) && Bounded(u)
    ensures TallyOf(Show(u, p)).visits <= 37_300 && TallyOf(Show(u, p)).height <= 7
  {
    HeaderIsWithinBounds(u, p);
    UnsignedVisits(u, p);
    UnsignedBoundsSum(Visits(Array(ShowNodes(u.nodes, p))));
    SumBounds(UnsignedValues(u, p), UnsignedBounds(Visits(Array(ShowNodes(u.nodes, p)))), 0);
    GraphTally(u.nodes, p);
    UnsignedHeight(u, p);
    NamedExactly(UNSIGNED_NAMES, UnsignedValues(u, p), 6);
    TallyCounts(Show(u, p));
  }
}
