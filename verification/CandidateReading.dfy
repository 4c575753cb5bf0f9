/** What a payload declares: its settings, and the lock document rebuilt from what its nodes retain. */
module CandidateReading {
  import opened Numbers
  import opened Options
  import opened Sequences
  import opened JsonText
  import opened JsonValues
  import opened CanonicalJson
  import opened JsonTally
  import opened JsonObjects
  import opened JsonCollecting
  import opened Utf16
  import opened CandidateV2
  import opened LockDocuments
  import opened CandidateLayout

  // ----- Settings -----

  function IntAt(v: Json, key: Text): Option<SafeInteger> {
    match Get(v, key) case None => None case Some(w) => if w.JInt? then Some(w.n) else None
  }

  function NameAt(v: Json, key: Text): Option<string> {
    match TextAt(v, key) case None => None case Some(t) => FromText(t)
  }

  function ReadLimits(v: Json): Option<Limits> {
    if !v.JObject? || !ExactKeys(v.members, LIMIT_NAMES, [])
      || (exists k :: k in LIMIT_NAMES && IntAt(v, k).None?) then None
    else
      assert forall i :: 0 <= i < |LIMIT_NAMES| ==> LIMIT_NAMES[i] in LIMIT_NAMES;
      Some(Limits(IntAt(v, LIMIT_NAMES[0]).value, IntAt(v, LIMIT_NAMES[1]).value, IntAt(v, LIMIT_NAMES[2]).value,
                  IntAt(v, LIMIT_NAMES[3]).value, IntAt(v, LIMIT_NAMES[4]).value, IntAt(v, LIMIT_NAMES[5]).value,
                  IntAt(v, LIMIT_NAMES[6]).value, IntAt(v, LIMIT_NAMES[7]).value, IntAt(v, LIMIT_NAMES[8]).value))
  }

  /** The fixed part of the runtime constraint. */
  predicate RuntimeShape(v: Json) {
    && v.JObject? && ExactKeys(v.members, RUNTIME_NAMES, [])
    && Get(v, RUNTIME_NAMES[0]) == Some(DARWIN) && Get(v, RUNTIME_NAMES[1]) == Some(ARM64)
    && Get(v, RUNTIME_NAMES[2]) == Some(JInt(26)) && Get(v, RUNTIME_NAMES[5]) == Some(JInt(3))
  }

  predicate TopShape(v: Json) {
    v.JObject? && ExactKeys(v.members, TOP_NAMES, [])
  }

  /** The settings among the members of a payload. */
  function ReadSettings(v: Json): Option<Settings> {
    var profile, version := TextAt(v, PROFILE_ID), IntAt(v, PROFILE_VERSION);
    var materialization, archive := IntAt(v, MATERIALIZATION), IntAt(v, ARCHIVE_RULES);
    var top, runtime, limits := Get(v, TOP_PACKAGE), Get(v, RUNTIME), Get(v, LIMITS);
    if profile.None? || version.None? || materialization.None? || archive.None?
      || Get(v, WORKER_PROTOCOL) != Some(JInt(2))
       || top.None? || !TopShape(top.value) || runtime.None? || !RuntimeShape(runtime.value) || limits.None? then None
    else
      var name, exact, entry := NameAt(top.value, TOP_NAMES[0]), TextAt(top.value, TOP_NAMES[1]),
        TextAt(top.value, TOP_NAMES[2]);
      var node, npm := TextAt(runtime.value, RUNTIME_NAMES[3]), TextAt(runtime.value, RUNTIME_NAMES[4]);
      var bounds := ReadLimits(limits.value);
      if name.None? || exact.None? || entry.None? || node.None? || npm.None? || bounds.None? then None
      else Some(Settings(profile.value, version.value, name.value, exact.value, entry.value, node.value, npm.value,
                         materialization.value, archive.value, bounds.value))
  }

  lemma {:induction false} TopIsRead(s: Settings)
    ensures TopShape(ShowTop(s)) && NameAt(ShowTop(s), TOP_NAMES[0]) == Some(s.topName)
    ensures TextAt(ShowTop(s), TOP_NAMES[1]) == Some(s.topVersion)
        && TextAt(ShowTop(s), TOP_NAMES[2]) == Some(s.entrypoint)
  {
    SmallNamesDiffer();
    NamedIs(TOP_NAMES, TopValues(s));
    FromToText(s.topName);
  }

  lemma {:induction false} RuntimeIsRead(s: Settings)
    ensures RuntimeShape(ShowRuntime(s)) && TextAt(ShowRuntime(s), RUNTIME_NAMES[3]) == Some(s.nodeVersion)
    ensures TextAt(ShowRuntime(s), RUNTIME_NAMES[4]) == Some(s.npmVersion)
  {
    SmallNamesDiffer();
    NamedIs(RUNTIME_NAMES, RuntimeValues(s));
  }

  lemma {:induction false} LimitIsRead(l: Limits, i: nat)
    requires i < |LIMIT_NAMES|
    ensures ExactKeys(ShowLimits(l).members, LIMIT_NAMES, []) && LimitValues(l)[i].JInt?
    ensures IntAt(ShowLimits(l), LIMIT_NAMES[i]) == Some(LimitValues(l)[i].n)
  {
    LimitNamesDiffer();
    NamedIs(LIMIT_NAMES, LimitValues(l));
  }

  lemma {:induction false} LimitsAreRead(l: Limits)
    ensures ReadLimits(ShowLimits(l)) == Some(l)
  {
    LimitIsRead(l, 0);
    forall i | 0 <= i < |LIMIT_NAMES|
      ensures LimitValues(l)[i].JInt? && IntAt(ShowLimits(l), LIMIT_NAMES[i]) == Some(LimitValues(l)[i].n) {
      LimitIsRead(l, i);
    }
  }

  lemma {:induction false} ShownAt(u: Unsigned, p: Platform, j: nat, key: Text)
    requires Sorts(p) && j < |UNSIGNED_NAMES| && UNSIGNED_NAMES[j] == key
    ensures Get(Show(u, p), key) == Some(UnsignedValues(u, p)[j])
  {
    ShowIs(u, p);
  }

  /** The members that settings are read from. */
  ghost predicate HoldsNumbers(v: Json, s: Settings) {
    && TextAt(v, PROFILE_ID) == Some(s.profileId) && IntAt(v, PROFILE_VERSION) == Some(s.profileVersion)
    && IntAt(v, MATERIALIZATION) == Some(s.materializationRulesVersion)
    && IntAt(v, ARCHIVE_RULES) == Some(s.archiveRulesVersion) && Get(v, WORKER_PROTOCOL) == Some(JInt(2))
  }

  ghost predicate HoldsSettings(v: Json, s: Settings) {
    && HoldsNumbers(v, s) && Get(v, TOP_PACKAGE) == Some(ShowTop(s))
    && Get(v, RUNTIME) == Some(ShowRuntime(s)) && Get(v, LIMITS) == Some(ShowLimits(s.limits))
  }

  lemma {:induction false} ShownProfile(u: Unsigned, p: Platform)
    requires Sorts(p)
    ensures TextAt(Show(u, p), PROFILE_ID) == Some(u.settings.profileId)
    ensures IntAt(Show(u, p), PROFILE_VERSION) == Some(u.settings.profileVersion)
  {
    ShownAt(u, p, 2, PROFILE_ID);
    ShownAt(u, p, 3, PROFILE_VERSION);
  }

  lemma {:induction false} ShownRules(u: Unsigned, p: Platform)
    requires Sorts(p)
    ensures IntAt(Show(u, p), MATERIALIZATION) == Some(u.settings.materializationRulesVersion)
    ensures IntAt(Show(u, p), ARCHIVE_RULES) == Some(u.settings.archiveRulesVersion)
    ensures Get(Show(u, p), WORKER_PROTOCOL) == Some(JInt(2))
  {
    ShownAt(u, p, 7, MATERIALIZATION);
    ShownAt(u, p, 8, ARCHIVE_RULES);
    ShownAt(u, p, 9, WORKER_PROTOCOL);
  }

  lemma {:induction false} ShownSettings(u: Unsigned, p: Platform)
    requires Sorts(p)
    ensures HoldsSettings(Show(u, p), u.settings)
  {
    ShownProfile(u, p);
    ShownRules(u, p);
    ShownAt(u, p, 4, TOP_PACKAGE);
    ShownAt(u, p, 6, RUNTIME);
    ShownAt(u, p, 10, LIMITS);
  }

  lemma {:induction false} ShownRegistry(u: Unsigned, p: Platform)
    requires Sorts(p)
    ensures TextAt(Show(u, p), REGISTRY) == Some(u.registry)
  {
    ShownAt(u, p, 5, REGISTRY);
  }

  lemma {:induction false} HeldSettingsAreRead(v: Json, s: Settings)
    requires HoldsSettings(v, s)
    ensures ReadSettings(v) == Some(s)
  {
    TopIsRead(s);
    RuntimeIsRead(s);
    LimitsAreRead(s.limits);
  }

  // ----- The record a node retains -----

  const RETAINED: seq<Renaming> := [
    Renaming(VERSION, EXACT_VERSION), Renaming(RESOLVED, NODE_NAMES[3]), Renaming(INTEGRITY, NODE_NAMES[4]),
    Renaming(DEPENDENCIES, NODE_NAMES[7]), Renaming(PEER_DEPENDENCIES, NODE_NAMES[10]), Renaming(PEER_META, PEER_META),
    Renaming(PEER, PEER_FLAG)
  ]

  lemma {:induction false} RetainedDiffer()
    ensures GoodTable(RETAINED)
  {
    assert |VERSION| == 7 && |RESOLVED| == 8 && |INTEGRITY| == 9 && |DEPENDENCIES| == 12 && |PEER_DEPENDENCIES| == 16;
    assert |PEER_META| == 20 && |PEER| == 4;
    assert |EXACT_VERSION| == 12 && |NODE_NAMES[3]| == 10 && |NODE_NAMES[4]| == 15 && |NODE_NAMES[7]| == 22;
    assert |NODE_NAMES[10]| == 26 && |PEER_FLAG| == 8;
  }

  /** A flag that must be a boolean. */
  function Present(v: Json, key: Text): Option<bool> {
    match Get(v, key) case None => None case Some(w) => if w.JBool? then Some(w.b) else None
  }

  /**
    * Which members of a node its record keeps; nothing when a flag is no boolean or promises a member that is not
    * there.
    */
  function Keeps(v: Json): Option<seq<bool>> {
    var dependencies, peers := Present(v, DEPENDENCIES_PRESENT), Present(v, PEERS_PRESENT);
    var meta, flag := Present(v, META_PRESENT), Present(v, FLAG_PRESENT);
    if dependencies.None? || peers.None? || meta.None? || flag.None?
      || (flag.value && Get(v, PEER_FLAG).None?) then None
    else Some([true, true, true, dependencies.value, peers.value, meta.value, flag.value])
  }

  predicate NodeShape(v: Json) {
    v.JObject? && ExactKeys(v.members, NODE_NAMES, [PEER_FLAG])
  }

  lemma {:induction false} RetainedAlso(ms: Members, keep: seq<bool>, j: nat, i: nat)
    requires ExactKeys(ms, NODE_NAMES, [PEER_FLAG])
    requires j < |RETAINED| && i < |NODE_NAMES| && RETAINED[j].original == NODE_NAMES[i]
        && CanKeep(ms, RETAINED, keep, j + 1)
    ensures CanKeep(ms, RETAINED, keep, j)
  {
    CanKeepAlso(ms, RETAINED, keep, j);
  }

  lemma {:induction false} KeepsCanKeep(v: Json)
    requires NodeShape(v) && Keeps(v).Some?
    ensures CanKeep(v.members, RETAINED, Keeps(v).value, 0)
  {
    var keep := Keeps(v).value;
    assert keep[6] ==> PEER_FLAG in Keys(v.members);
    CanKeepAlso(v.members, RETAINED, keep, 6);
    RetainedAlso(v.members, keep, 5, 12);
    RetainedAlso(v.members, keep, 4, 10);
    RetainedAlso(v.members, keep, 3, 7);
    RetainedAlso(v.members, keep, 2, 4);
    RetainedAlso(v.members, keep, 1, 3);
    RetainedAlso(v.members, keep, 0, 2);
  }

  function RebuiltRecord(v: Json): Option<Json> {
    if !NodeShape(v) then None
    else match Keeps(v)
         case None => None
         case Some(keep) =>
           KeepsCanKeep(v);
           Some(JObject(Kept(v.members, RETAINED, keep, 0)))
  }

  function InstallPathOf(v: Json): Option<Text> {
    TextAt(v, INSTALL_PATH)
  }

  /** The packages of the rebuilt lock below its root; nothing when a path is repeated, or is the root's. */
  function PackagesFrom(items: Items): Option<Members> {
    Collect(items, ROOT_PATH, InstallPathOf, RebuiltRecord)
  }

  const LOCK_NAME: Json := JString(Units("candidate-v2"))
  const LOCK_VERSION: Json := JString(Units("0.0.0"))

  const REBUILT_ROOT_NAMES: seq<Text> := [NAME, VERSION, DEPENDENCIES]

  function LockDocument(rootDependencies: Json, packages: Members): Json {
    var root := Named(REBUILT_ROOT_NAMES, [LOCK_NAME, LOCK_VERSION, rootDependencies]);
    Named(LOCK_NAMES, [LOCK_NAME, LOCK_VERSION, JInt(3), JBool(true), JObject(Member(ROOT_PATH, root, packages))])
  }

  function RebuiltDocument(v: Json): Option<Json> {
    match (Get(v, ROOT_DEPENDENCIES), Get(v, GRAPH_NODES))
    case (Some(root), Some(JArray(items))) =>
      (match PackagesFrom(items) case None => None case Some(packages) => Some(LockDocument(root, packages)))
    case _ => None
  }

  /** What the compiler is given again: settings, registry, and the rebuilt lock document. */
  datatype Declared = Declared(settings: Settings, registry: Text, document: Json)

  function Declares(v: Json): Option<Declared> {
    var settings, registry, document := ReadSettings(v), TextAt(v, REGISTRY), RebuiltDocument(v);
    if settings.None? || registry.None? || document.None? then None
    else Some(Declared(settings.value, registry.value, document.value))
  }

  // ----- Reading back what was laid out -----

  lemma {:induction false} ShownInNode(n: Node, p: Platform, j: nat, key: Text)
    requires Sorts(p) && j < |NODE_NAMES| && NODE_NAMES[j] == key
    ensures Get(ShowNode(n, p), key) == Some(NodeValues(n, p)[j])
  {
    NodeIs(n, p);
  }

  lemma {:induction false} FlagShown(n: Node, p: Platform)
    requires Sorts(p)
    ensures NodeShape(ShowNode(n, p)) && WellFormed(ShowNode(n, p))
    ensures Get(ShowNode(n, p), PEER_FLAG) == match n.raw.peerFlag case None => None
        case Some(flag) => Some(JBool(flag))
  {
    NodeIs(n, p);
  }

  lemma {:induction false} DependenciesShown(n: Node, p: Platform)
    requires Sorts(p)
    ensures Present(ShowNode(n, p), DEPENDENCIES_PRESENT) == Some(n.raw.dependenciesPresent)
    ensures Present(ShowNode(n, p), PEERS_PRESENT) == Some(n.raw.peersPresent)
  {
    ShownInNode(n, p, 6, DEPENDENCIES_PRESENT);
    ShownInNode(n, p, 9, PEERS_PRESENT);
  }

  lemma {:induction false} MarksShown(n: Node, p: Platform)
    requires Sorts(p)
    ensures Present(ShowNode(n, p), META_PRESENT) == Some(n.raw.metaPresent)
    ensures Present(ShowNode(n, p), FLAG_PRESENT) == Some(n.raw.peerFlag.Some?)
  {
    ShownInNode(n, p, 11, META_PRESENT);
    ShownInNode(n, p, 13, FLAG_PRESENT);
  }

  lemma {:induction false} PathShown(n: Node, p: Platform)
    requires Sorts(p)
    ensures TextAt(ShowNode(n, p), INSTALL_PATH) == Some(ToText(n.raw.path))
  {
    ShownInNode(n, p, 0, INSTALL_PATH);
  }

  lemma {:induction false} NodeKeeps(n: Node, p: Platform)
    requires Sorts(p)
    ensures Keeps(ShowNode(n, p)) ==
            Some([true, true, true, n.raw.dependenciesPresent, n.raw.peersPresent, n.raw.metaPresent,
                  n.raw.peerFlag.Some?])
  {
    FlagShown(n, p);
    DependenciesShown(n, p);
    MarksShown(n, p);
  }

  /** A rebuilt record has, under its new names, the members that are kept, and no other. */
  ghost predicate KeepsAs(record: Json, v: Json, keep: seq<bool>)
    requires |keep| == |RETAINED|
  {
    && record.JObject?
    && (forall k :: k in Keys(record.members) ==> exists j :: 0 <= j < |RETAINED| && RETAINED[j].renamed == k)
    && forall j :: 0 <= j < |RETAINED| ==>
         Get(record, RETAINED[j].renamed) == if keep[j] then Get(v, RETAINED[j].original) else None
  }

  lemma {:induction false} RebuiltKeeps(v: Json)
    requires NodeShape(v) && WellFormed(v) && Keeps(v).Some?
    ensures RebuiltRecord(v).Some? && WellFormed(RebuiltRecord(v).value)
    ensures KeepsAs(RebuiltRecord(v).value, v, Keeps(v).value)
  {
    RetainedDiffer();
    var keep := Keeps(v).value;
    KeepsCanKeep(v);
    KeptWellFormed(v.members, RETAINED, keep, 0);
    KeptKeys(v.members, RETAINED, keep, 0);
    forall j | 0 <= j < |RETAINED|
      ensures Get(JObject(Kept(v.members, RETAINED, keep, 0)), RETAINED[j].renamed) ==
              if keep[j] then Get(v, RETAINED[j].original) else None
    {
      KeptAt(v.members, RETAINED, keep, 0, j);
    }
  }

  // ----- Reading the rebuilt records -----

  /** The members of a node that its record may keep. */
  ghost predicate HoldsTexts(v: Json, raw: RawNode) {
    && Get(v, RETAINED[0].original) == Some(JString(raw.exactVersion))
    && Get(v, RETAINED[1].original) == Some(JString(raw.tarballUrl))
    && Get(v, RETAINED[2].original) == Some(JString(raw.integrity))
  }

  ghost predicate HoldsMaps(v: Json, raw: RawNode, p: Platform)
    requires Sorts(p)
  {
    && Get(v, RETAINED[3].original) == Some(ShowMap(raw.dependencies, ShowText, p))
    && Get(v, RETAINED[4].original) == Some(ShowMap(raw.peers, ShowText, p))
    && Get(v, RETAINED[5].original) == Some(ShowMap(raw.meta, ShowMark, p))
  }

  ghost predicate HoldsFlag(v: Json, raw: RawNode) {
    Get(v, RETAINED[6].original) == match raw.peerFlag case None => None case Some(flag) => Some(JBool(flag))
  }

  lemma {:induction false} NodeHoldsTexts(n: Node, p: Platform)
    requires Sorts(p)
    ensures HoldsTexts(ShowNode(n, p), n.raw)
  {
    ShownInNode(n, p, 2, RETAINED[0].original);
    ShownInNode(n, p, 3, RETAINED[1].original);
    ShownInNode(n, p, 4, RETAINED[2].original);
  }

  lemma {:induction false} NodeHoldsMaps(n: Node, p: Platform)
    requires Sorts(p)
    ensures HoldsMaps(ShowNode(n, p), n.raw, p)
  {
    ShownInNode(n, p, 7, RETAINED[3].original);
    ShownInNode(n, p, 10, RETAINED[4].original);
    ShownInNode(n, p, 12, RETAINED[5].original);
  }

  lemma {:induction false} KeptAs(record: Json, v: Json, keep: seq<bool>, j: nat, key: Text)
    requires |keep| == |RETAINED| && KeepsAs(record, v, keep) && j < |RETAINED| && RETAINED[j].renamed == key
    ensures Get(record, key) == if keep[j] then Get(v, RETAINED[j].original) else None
  {
  }

  function KeepsOf(raw: RawNode): (keep: seq<bool>)
    ensures |keep| == |RETAINED|
  {
    [true, true, true, raw.dependenciesPresent, raw.peersPresent, raw.metaPresent, raw.peerFlag.Some?]
  }

  /** What tells the names of flags from those of what is retained: length, or the first letter. */
  ghost predicate FlagForm(k: Text) {
    |k| > 0 && |k| != 9 && |k| != 12 && k[0] != 0x76 && k[0] != 0x72 && k[0] != 0x70
  }

  lemma {:induction false} FlagsHaveForm()
    ensures forall i :: 0 <= i < |FLAGS| ==> FlagForm(FLAGS[i])
  {
  }

  lemma {:induction false} RetainedLacksForm()
    ensures forall j :: 0 <= j < |RETAINED| ==> !FlagForm(RETAINED[j].renamed)
  {
    assert VERSION[0] == 0x76 && RESOLVED[0] == 0x72 && |INTEGRITY| == 9 && |DEPENDENCIES| == 12;
    assert PEER_DEPENDENCIES[0] == 0x70 && PEER_META[0] == 0x70 && PEER[0] == 0x70;
  }

  lemma {:induction false} NotFlags()
    ensures forall j :: 0 <= j < |RETAINED| ==> RETAINED[j].renamed !in FLAGS
  {
    FlagsHaveForm();
    RetainedLacksForm();
  }

  lemma {:induction false} RetainedNames()
    ensures forall j :: 0 <= j < |RETAINED| ==> RETAINED[j].renamed in RECORD_NAMES
  {
    forall j | 0 <= j < |RETAINED| ensures RETAINED[j].renamed in RECORD_NAMES {
      assert RETAINED[j].renamed == RECORD_NAMES[j];
    }
  }

  lemma {:induction false} RebuiltShape(record: Json, v: Json, keep: seq<bool>)
    requires |keep| == |RETAINED| && KeepsAs(record, v, keep)
    ensures RecordShape(record)
  {
    NotFlags();
    RetainedNames();
  }

  lemma {:induction false} TextsRebuilt(record: Json, v: Json, raw: RawNode)
    requires KeepsAs(record, v, KeepsOf(raw)) && HoldsTexts(v, raw)
    ensures TextAt(record, VERSION) == Some(raw.exactVersion) && TextAt(record, RESOLVED) == Some(raw.tarballUrl)
    ensures TextAt(record, INTEGRITY) == Some(raw.integrity)
  {
    KeptAs(record, v, KeepsOf(raw), 0, VERSION);
    KeptAs(record, v, KeepsOf(raw), 1, RESOLVED);
    KeptAs(record, v, KeepsOf(raw), 2, INTEGRITY);
  }

  lemma {:induction false} MapsRebuilt(record: Json, v: Json, raw: RawNode, p: Platform)
    requires KeepsAs(record, v, KeepsOf(raw)) && Sorts(p) && HoldsMaps(v, raw, p)
    ensures ReadOptional(record, DEPENDENCIES, ReadText) == Some(RecordOf(raw).dependencies)
    ensures ReadOptional(record, PEER_DEPENDENCIES, ReadText) == Some(RecordOf(raw).peers)
    ensures ReadOptional(record, PEER_META, ReadMark) == Some(RecordOf(raw).meta)
  {
    TextsAreRead(raw.dependencies, p);
    TextsAreRead(raw.peers, p);
    MarksAreRead(raw.meta, p);
    KeptAs(record, v, KeepsOf(raw), 3, DEPENDENCIES);
    KeptAs(record, v, KeepsOf(raw), 4, PEER_DEPENDENCIES);
    KeptAs(record, v, KeepsOf(raw), 5, PEER_META);
  }

  lemma {:induction false} FlagRebuilt(record: Json, v: Json, raw: RawNode)
    requires KeepsAs(record, v, KeepsOf(raw)) && HoldsFlag(v, raw)
    ensures ReadFlag(record, PEER) == Some(raw.peerFlag)
  {
    KeptAs(record, v, KeepsOf(raw), 6, PEER);
  }

  lemma {:induction false} HeldIsRead(record: Json, v: Json, raw: RawNode, p: Platform)
    requires KeepsAs(record, v, KeepsOf(raw)) && Sorts(p) && HoldsTexts(v, raw) && HoldsMaps(v, raw, p)
        && HoldsFlag(v, raw)
    ensures ReadRecord(record) == Some(RecordOf(raw))
  {
    RebuiltShape(record, v, KeepsOf(raw));
    TextsRebuilt(record, v, raw);
    MapsRebuilt(record, v, raw, p);
    FlagRebuilt(record, v, raw);
  }

  /** The record rebuilt from a laid out node is read as the one the node retains. */
  lemma {:induction false} RebuiltIsRead(n: Node, p: Platform)
    requires Sorts(p)
    ensures RebuiltRecord(ShowNode(n, p)).Some? && WellFormed(RebuiltRecord(ShowNode(n, p)).value)
    ensures ReadRecord(RebuiltRecord(ShowNode(n, p)).value) == Some(RecordOf(n.raw))
  {
    NodeKeeps(n, p);
    FlagShown(n, p);
    NodeHoldsTexts(n, p);
    NodeHoldsMaps(n, p);
    var v := ShowNode(n, p);
    RebuiltKeeps(v);
    HeldIsRead(RebuiltRecord(v).value, v, n.raw, p);
  }
}
