/** The lock document rebuilt from a payload: what it is read as, whatever the member order, and how large it can be. */
module RebuiltLock {
  import opened Numbers
  import opened Options
  import opened Sequences
  import opened JsonText
  import opened JsonValues
  import opened CanonicalJson
  import opened JsonTally
  import opened JsonObjects
  import opened JsonCollecting
  import opened Utf16
  import opened CandidateV2
  import opened LockDocuments
  import opened CandidateLayout
  import opened CandidateReading

  // ----- Read back from a compiled candidate -----

  function PathsIn(ns: seq<Node>): (paths: seq<string>)
    ensures |paths| == |ns| && forall i :: 0 <= i < |ns| ==> paths[i] == ns[i].raw.path
  {
    seq(|ns|, i requires 0 <= i < |ns| => ns[i].raw.path)
  }

  function RecordsIn(ns: seq<Node>): (records: seq<RawRecord>)
    ensures |records| == |ns| && forall i :: 0 <= i < |ns| ==> records[i] == RecordOf(ns[i].raw)
  {
    seq(|ns|, i requires 0 <= i < |ns| => RecordOf(ns[i].raw))
  }

  lemma {:induction false} NodesMake(ns: seq<Node>, p: Platform)
    requires Sorts(p)
    ensures Makes(ShowNodes(ns, p), PathsIn(ns), RecordsIn(ns), InstallPathOf, RebuiltRecord, ReadRecord)
  {
    forall i | 0 <= i < |ns|
      ensures InstallPathOf(ShowNodes(ns, p)[i]) == Some(ToText(PathsIn(ns)[i]))
          && RebuiltRecord(ShowNodes(ns, p)[i]).Some?
      ensures WellFormed(RebuiltRecord(ShowNodes(ns, p)[i]).value)
      ensures ReadRecord(RebuiltRecord(ShowNodes(ns, p)[i]).value) == Some(RecordsIn(ns)[i])
    {
      RebuiltIsRead(ns[i], p);
      PathShown(ns[i], p);
    }
  }

  lemma {:induction false} RetainedMaps(packages: map<string, RawRecord>, ns: seq<Node>)
    requires Retains(packages, ns, PathsIn(ns))
    ensures Maps(PathsIn(ns), RecordsIn(ns), packages)
  {
  }

  lemma {:induction false} LockNamesDiffer()
    ensures Distinct(LOCK_NAMES) && Distinct(REBUILT_ROOT_NAMES)
  {
    assert |NAME| == 4 && |VERSION| == 7 && |LOCKFILE_VERSION| == 15 && |REQUIRES| == 8 && |PACKAGES| == 8;
    assert REQUIRES[0] != PACKAGES[0] && |DEPENDENCIES| == 12;
  }

  function RootRecord(rootDependencies: Json): Json {
    Named(REBUILT_ROOT_NAMES, [LOCK_NAME, LOCK_VERSION, rootDependencies])
  }

  lemma {:induction false} RootIs(rootDependencies: Json)
    requires WellFormed(rootDependencies)
    ensures var root := RootRecord(rootDependencies);
            WellFormed(root) && RootShape(root) && Get(root, DEPENDENCIES) == Some(rootDependencies)
  {
    LockNamesDiffer();
    var values := [LOCK_NAME, LOCK_VERSION, rootDependencies];
    NamedIs(REBUILT_ROOT_NAMES, values);
    assert Get(RootRecord(rootDependencies), REBUILT_ROOT_NAMES[0]) == Some(values[0]);
    assert Get(RootRecord(rootDependencies), REBUILT_ROOT_NAMES[1]) == Some(values[1]);
    assert Get(RootRecord(rootDependencies), REBUILT_ROOT_NAMES[2]) == Some(values[2]);
    assert REBUILT_ROOT_NAMES <= ROOT_NAMES;
  }

  lemma {:induction false} DocumentIs(rootDependencies: Json, packages: Members)
    requires WellFormed(rootDependencies) && MembersWellFormed(packages) && ROOT_PATH !in Keys(packages)
    ensures var doc := LockDocument(rootDependencies, packages);
            && WellFormed(doc) && LockShape(doc)
            && Get(doc, PACKAGES) == Some(JObject(Member(ROOT_PATH, RootRecord(rootDependencies), packages)))
  {
    LockNamesDiffer();
    RootIs(rootDependencies);
    var all := JObject(Member(ROOT_PATH, RootRecord(rootDependencies), packages));
    var values := [LOCK_NAME, LOCK_VERSION, JInt(3), JBool(true), all];
    NamedIs(LOCK_NAMES, values);
    var doc := LockDocument(rootDependencies, packages);
    assert doc == Named(LOCK_NAMES, values);
    assert Get(doc, LOCK_NAMES[0]) == Some(values[0]) && Get(doc, LOCK_NAMES[1]) == Some(values[1]);
    assert Get(doc, LOCK_NAMES[2]) == Some(values[2]) && Get(doc, LOCK_NAMES[3]) == Some(values[3]);
    assert Get(doc, LOCK_NAMES[4]) == Some(values[4]);
  }

  lemma {:induction false} DocumentIsRead(rootDependencies: Json, packages: Members, root: Declarations,
                                          records: map<string, RawRecord>)
    requires WellFormed(rootDependencies) && MembersWellFormed(packages) && ROOT_PATH !in Keys(packages)
    requires ReadObject(rootDependencies, ReadText) == Some(root) && ReadMap(packages, ReadRecord) == Some(records)
    ensures ReadLock(LockDocument(rootDependencies, packages)) == Some(Lock(root, records))
  {
    DocumentIs(rootDependencies, packages);
    RootIs(rootDependencies);
    WithoutAbsent(packages, ROOT_PATH);
    var all := Member(ROOT_PATH, RootRecord(rootDependencies), packages);
    assert Without(all, ROOT_PATH) == packages;
    assert Get(JObject(all), ROOT_PATH) == Some(RootRecord(rootDependencies));
  }

  lemma {:induction false} RebuildingIsWellFormed()
    ensures MakesWellFormed(RebuiltRecord)
  {
    forall v | WellFormed(v) && RebuiltRecord(v).Some? ensures WellFormed(RebuiltRecord(v).value) {
      RebuiltKeeps(v);
    }
  }

  lemma {:induction false} PackagesWellFormed(items: Items)
    requires ItemsWellFormed(items) && PackagesFrom(items).Some?
    ensures MembersWellFormed(PackagesFrom(items).value) && ROOT_PATH !in Keys(PackagesFrom(items).value)
  {
    RebuildingIsWellFormed();
    CollectWellFormed(items, ROOT_PATH, InstallPathOf, RebuiltRecord);
  }

  lemma {:induction false} DocumentShown(u: Unsigned, p: Platform)
    requires Sorts(p)
    ensures RebuiltDocument(Show(u, p)) ==
            match PackagesFrom(ItemsFrom(ShowNodes(u.nodes, p), 0))
            case None => None
            case Some(packages) => Some(LockDocument(ShowMap(u.rootDependencies, ShowText, p), packages))
  {
    ShownAt(u, p, 11, ROOT_DEPENDENCIES);
    ShownAt(u, p, 12, GRAPH_NODES);
  }

  lemma {:induction false} PackagesAreRead(ns: seq<Node>, packages: Members)
    requires Free(PathsIn(ns), ROOT_PATH) && Tells(packages, PathsIn(ns), RecordsIn(ns), ReadRecord, 0)
    ensures ReadMap(packages, ReadRecord) == CandidateV2.RebuiltPackages(ns)
  {
    RebuiltFromNodes(ns, PathsIn(ns));
    RetainedMaps(CandidateV2.RebuiltPackages(ns).value, ns);
    TellsMap(packages, PathsIn(ns), RecordsIn(ns), ReadRecord, CandidateV2.RebuiltPackages(ns).value);
  }

  /** Packages without repeated names, none of them the root's, that are read as these records. */
  ghost predicate ReadAs(packages: Option<Members>, records: Option<map<string, RawRecord>>) {
    && packages.Some? && MembersWellFormed(packages.value) && ROOT_PATH !in Keys(packages.value)
    && records.Some? && ReadMap(packages.value, ReadRecord) == records
  }

  lemma {:induction false} PackagesReadBack(ns: seq<Node>, p: Platform)
    requires Sorts(p) && Free(PathsIn(ns), ROOT_PATH)
    ensures ReadAs(PackagesFrom(ItemsFrom(ShowNodes(ns, p), 0)), CandidateV2.RebuiltPackages(ns))
  {
    NodesMake(ns, p);
    CollectTells(ShowNodes(ns, p), PathsIn(ns), RecordsIn(ns), ROOT_PATH, InstallPathOf, RebuiltRecord, ReadRecord, 0);
    RebuiltFromNodes(ns, PathsIn(ns));
    ShowNodesWellFormed(ns, p);
    PackagesWellFormed(ItemsFrom(ShowNodes(ns, p), 0));
    PackagesAreRead(ns, PackagesFrom(ItemsFrom(ShowNodes(ns, p), 0)).value);
  }

  lemma {:induction false} ShowNodesWellFormed(ns: seq<Node>, p: Platform)
    requires Sorts(p)
    ensures ItemsWellFormed(ItemsFrom(ShowNodes(ns, p), 0))
  {
    forall i | 0 <= i < |ns| ensures WellFormed(ShowNodes(ns, p)[i]) {
      FlagShown(ns[i], p);
    }
    ItemsWellFormedFrom(ShowNodes(ns, p), 0);
  }

  /** A document that is read as a lock. */
  ghost predicate DocumentReadAs(document: Option<Json>, lock: Lock) {
    document.Some? && WellFormed(document.value) && ReadLock(document.value) == Some(lock)
  }

  /** The document rebuilt from a laid out candidate is read as the lock rebuilt from its nodes. */
  lemma {:induction false} DocumentReadsBack(u: Unsigned, p: Platform)
    requires Sorts(p) && Free(PathsIn(u.nodes), ROOT_PATH)
    ensures CandidateV2.RebuiltPackages(u.nodes).Some?
    ensures DocumentReadAs(RebuiltDocument(Show(u, p)),
                           Lock(u.rootDependencies, CandidateV2.RebuiltPackages(u.nodes).value))
  {
    PackagesReadBack(u.nodes, p);
    DocumentShown(u, p);
    TextsAreRead(u.rootDependencies, p);
    LockReadAs(ShowMap(u.rootDependencies, ShowText, p), PackagesFrom(ItemsFrom(ShowNodes(u.nodes, p), 0)).value,
               u.rootDependencies, CandidateV2.RebuiltPackages(u.nodes).value);
  }

  lemma {:induction false} LockReadAs(root: Json, packages: Members, declarations: Declarations, records: map<string,
                                      RawRecord>)
    requires ReadAs(Some(packages), Some(records)) && WellFormed(root)
        && ReadObject(root, ReadText) == Some(declarations)
    ensures DocumentReadAs(Some(LockDocument(root, packages)), Lock(declarations, records))
  {
    DocumentIs(root, packages);
    DocumentIsRead(root, packages, declarations, records);
  }

  /** A laid out candidate declares its settings, its registry and its lock again. */
  lemma {:induction false} DeclaresItself(u: Unsigned, p: Platform)
    requires Sorts(p) && Free(PathsIn(u.nodes), ROOT_PATH)
    ensures Declares(Show(u, p)).Some? && CandidateV2.RebuiltPackages(u.nodes).Some?
    ensures var declared := Declares(Show(u, p)).value;
            && declared.settings == u.settings && declared.registry == u.registry
            && DocumentReadAs(Some(declared.document),
                              Lock(u.rootDependencies, CandidateV2.RebuiltPackages(u.nodes).value))
  {
    DocumentReadsBack(u, p);
    ShownSettings(u, p);
    HeldSettingsAreRead(Show(u, p), u.settings);
    ShownRegistry(u, p);
  }

  // ----- The order of members does not matter -----

  lemma {:induction false} NamedAlike(names: seq<Text>, a: seq<Json>, b: seq<Json>, i: nat)
    requires |names| == |a| == |b| && i <= |names| && forall j :: i <= j < |names| ==> Alike(a[j], b[j])
    ensures SortMembers(NamedFrom(names, a, i)) == SortMembers(NamedFrom(names, b, i))
    decreases |names| - i
  {
    if i < |names| {
      NamedAlike(names, a, b, i + 1);
    }
  }

  lemma {:induction false} PresentAlike(v: Json, w: Json, key: Text)
    requires WellFormed(v) && WellFormed(w) && Alike(v, w)
    ensures CandidateReading.Present(v, key) == CandidateReading.Present(w, key) && IntAt(v, key) == IntAt(w, key)
    ensures Get(v, key).Some? <==> Get(w, key).Some?
  {
    AlikeGet(v, w, key);
  }

  lemma {:induction false} KeepsAlike(v: Json, w: Json)
    requires WellFormed(v) && WellFormed(w) && Alike(v, w)
    ensures NodeShape(v) == NodeShape(w) && Keeps(v) == Keeps(w)
  {
    KeysAlike(v, w);
    PresentAlike(v, w, DEPENDENCIES_PRESENT);
    PresentAlike(v, w, PEERS_PRESENT);
    PresentAlike(v, w, META_PRESENT);
    PresentAlike(v, w, FLAG_PRESENT);
    PresentAlike(v, w, PEER_FLAG);
  }

  lemma {:induction false} RecordAlikeRebuilt(v: Json, w: Json)
    requires WellFormed(v) && WellFormed(w) && Alike(v, w)
    ensures RebuiltRecord(v).Some? <==> RebuiltRecord(w).Some?
    ensures RebuiltRecord(v).Some? ==> Alike(RebuiltRecord(v).value, RebuiltRecord(w).value)
  {
    KeepsAlike(v, w);
    if RebuiltRecord(v).Some? {
      KeepsCanKeep(v);
      KeepsCanKeep(w);
      KeptAlike(v.members, w.members, RETAINED, Keeps(v).value, 0);
    }
  }

  lemma {:induction false} RebuildingIsBlind()
    ensures BlindTo(InstallPathOf, RebuiltRecord)
  {
    forall v, w | WellFormed(v) && WellFormed(w) && Alike(v, w)
      ensures InstallPathOf(v) == InstallPathOf(w) && (RebuiltRecord(v).Some? <==> RebuiltRecord(w).Some?)
      ensures RebuiltRecord(v).Some? ==> Alike(RebuiltRecord(v).value, RebuiltRecord(w).value)
    {
      TextAlike(v, w, INSTALL_PATH);
      RecordAlikeRebuilt(v, w);
    }
  }

  lemma {:induction false} LastOfThreeAlike(names: seq<Text>, a: Json, b: Json, v: Json, w: Json)
    requires |names| == 3 && Alike(v, w)
    ensures Alike(Named(names, [a, b, v]), Named(names, [a, b, w]))
  {
    NamedAlike(names, [a, b, v], [a, b, w], 0);
  }

  lemma {:induction false} LastOfFiveAlike(names: seq<Text>, a: Json, b: Json, c: Json, d: Json, v: Json, w: Json)
    requires |names| == 5 && Alike(v, w)
    ensures Alike(Named(names, [a, b, c, d, v]), Named(names, [a, b, c, d, w]))
  {
    NamedAlike(names, [a, b, c, d, v], [a, b, c, d, w], 0);
  }

  lemma {:induction false} LockDocumentAlike(r: Json, s: Json, x: Members, y: Members)
    requires Alike(r, s) && SortMembers(x) == SortMembers(y)
    ensures Alike(LockDocument(r, x), LockDocument(s, y))
  {
    LastOfThreeAlike(REBUILT_ROOT_NAMES, LOCK_NAME, LOCK_VERSION, r, s);
    var a := JObject(Member(ROOT_PATH, RootRecord(r), x));
    var b := JObject(Member(ROOT_PATH, RootRecord(s), y));
    LastOfFiveAlike(LOCK_NAMES, LOCK_NAME, LOCK_VERSION, JInt(3), JBool(true), a, b);
  }

  lemma {:induction false} LockDocumentWellFormed(root: Json, items: Items)
    requires WellFormed(root) && ItemsWellFormed(items) && PackagesFrom(items).Some?
    ensures WellFormed(LockDocument(root, PackagesFrom(items).value))
  {
    PackagesWellFormed(items);
    DocumentIs(root, PackagesFrom(items).value);
  }

  /** Payloads alike have their documents rebuilt alike, or both not at all. */
  lemma {:induction false} DocumentAlike(v: Json, w: Json)
    requires WellFormed(v) && WellFormed(w) && Alike(v, w)
    ensures RebuiltDocument(v).Some? <==> RebuiltDocument(w).Some?
    ensures RebuiltDocument(v).Some? ==> Alike(RebuiltDocument(v).value, RebuiltDocument(w).value)
                                         && WellFormed(RebuiltDocument(v).value) && WellFormed(RebuiltDocument(w).value)
  {
    AlikeGet(v, w, ROOT_DEPENDENCIES);
    AlikeGet(v, w, GRAPH_NODES);
    if Get(v, ROOT_DEPENDENCIES).Some? && Get(v, GRAPH_NODES).Some? && Get(v, GRAPH_NODES).value.JArray? {
      var r, s := Get(v, ROOT_DEPENDENCIES).value, Get(w, ROOT_DEPENDENCIES).value;
      var a, b := Get(v, GRAPH_NODES).value.items, Get(w, GRAPH_NODES).value.items;
      RebuildingIsBlind();
      CollectAlike(a, b, ROOT_PATH, InstallPathOf, RebuiltRecord);
      if PackagesFrom(a).Some? {
        LockDocumentAlike(r, s, PackagesFrom(a).value, PackagesFrom(b).value);
        LockDocumentWellFormed(r, a);
        LockDocumentWellFormed(s, b);
      }
    }
  }

  lemma {:induction false} LeafAlike(v: Json, w: Json, key: Text, leaf: Json)
    requires WellFormed(v) && WellFormed(w) && Alike(v, w) && !leaf.JArray? && !leaf.JObject?
    ensures Get(v, key) == Some(leaf) <==> Get(w, key) == Some(leaf)
  {
    AlikeGet(v, w, key);
  }

  lemma {:induction false} RuntimeAlike(v: Json, w: Json)
    requires WellFormed(v) && WellFormed(w) && Alike(v, w)
    ensures RuntimeShape(v) == RuntimeShape(w)
  {
    KeysAlike(v, w);
    LeafAlike(v, w, RUNTIME_NAMES[0], DARWIN);
    LeafAlike(v, w, RUNTIME_NAMES[1], ARM64);
    LeafAlike(v, w, RUNTIME_NAMES[2], JInt(26));
    LeafAlike(v, w, RUNTIME_NAMES[5], JInt(3));
  }

  lemma {:induction false} LimitsAlike(v: Json, w: Json)
    requires WellFormed(v) && WellFormed(w) && Alike(v, w)
    ensures ReadLimits(v) == ReadLimits(w)
  {
    KeysAlike(v, w);
    forall i | 0 <= i < |LIMIT_NAMES| ensures IntAt(v, LIMIT_NAMES[i]) == IntAt(w, LIMIT_NAMES[i]) {
      PresentAlike(v, w, LIMIT_NAMES[i]);
    }
  }

  /** The parts of the settings that are objects, read alike. */
  ghost predicate PartsAlike(v: Json, w: Json) {
    && (Get(v, TOP_PACKAGE).Some? <==> Get(w, TOP_PACKAGE).Some?)
    && (Get(v, RUNTIME).Some? <==> Get(w, RUNTIME).Some?) && (Get(v, LIMITS).Some? <==> Get(w, LIMITS).Some?)
    && (Get(v, TOP_PACKAGE).Some? ==> TopAlike(Get(v, TOP_PACKAGE).value, Get(w, TOP_PACKAGE).value))
    && (Get(v, RUNTIME).Some? ==> RuntimesAlike(Get(v, RUNTIME).value, Get(w, RUNTIME).value))
    && (Get(v, LIMITS).Some? ==> ReadLimits(Get(v, LIMITS).value) == ReadLimits(Get(w, LIMITS).value))
  }

  ghost predicate TopAlike(v: Json, w: Json) {
    TopShape(v) == TopShape(w) && forall i :: 0 <= i < 3 ==> TextAt(v, TOP_NAMES[i]) == TextAt(w, TOP_NAMES[i])
  }

  ghost predicate RuntimesAlike(v: Json, w: Json) {
    && RuntimeShape(v) == RuntimeShape(w)
    && TextAt(v, RUNTIME_NAMES[3]) == TextAt(w, RUNTIME_NAMES[3])
    && TextAt(v, RUNTIME_NAMES[4]) == TextAt(w, RUNTIME_NAMES[4])
  }

  lemma {:induction false} TopsAlike(v: Json, w: Json)
    requires WellFormed(v) && WellFormed(w) && Alike(v, w)
    ensures TopAlike(v, w) && RuntimesAlike(v, w) && ReadLimits(v) == ReadLimits(w)
  {
    KeysAlike(v, w);
    forall i | 0 <= i < 3 ensures TextAt(v, TOP_NAMES[i]) == TextAt(w, TOP_NAMES[i]) {
      TextAlike(v, w, TOP_NAMES[i]);
    }
    RuntimeAlike(v, w);
    TextAlike(v, w, RUNTIME_NAMES[3]);
    TextAlike(v, w, RUNTIME_NAMES[4]);
    LimitsAlike(v, w);
  }

  lemma {:induction false} SettingsPartsAlike(v: Json, w: Json)
    requires WellFormed(v) && WellFormed(w) && Alike(v, w)
    ensures PartsAlike(v, w)
  {
    AlikeGet(v, w, TOP_PACKAGE);
    AlikeGet(v, w, RUNTIME);
    AlikeGet(v, w, LIMITS);
    if Get(v, TOP_PACKAGE).Some? { TopsAlike(Get(v, TOP_PACKAGE).value, Get(w, TOP_PACKAGE).value); }
    if Get(v, RUNTIME).Some? { TopsAlike(Get(v, RUNTIME).value, Get(w, RUNTIME).value); }
    if Get(v, LIMITS).Some? { TopsAlike(Get(v, LIMITS).value, Get(w, LIMITS).value); }
  }

  /** The single members that settings are read from, alike. */
  ghost predicate LeavesAlike(v: Json, w: Json) {
    && TextAt(v, PROFILE_ID) == TextAt(w, PROFILE_ID) && IntAt(v, PROFILE_VERSION) == IntAt(w, PROFILE_VERSION)
    && IntAt(v, MATERIALIZATION) == IntAt(w, MATERIALIZATION) && IntAt(v, ARCHIVE_RULES) == IntAt(w, ARCHIVE_RULES)
    && (Get(v, WORKER_PROTOCOL) == Some(JInt(2)) <==> Get(w, WORKER_PROTOCOL) == Some(JInt(2)))
  }

  lemma {:induction false} SettingsLeavesAlike(v: Json, w: Json)
    requires WellFormed(v) && WellFormed(w) && Alike(v, w)
    ensures LeavesAlike(v, w)
  {
    TextAlike(v, w, PROFILE_ID);
    PresentAlike(v, w, PROFILE_VERSION);
    PresentAlike(v, w, MATERIALIZATION);
    PresentAlike(v, w, ARCHIVE_RULES);
    LeafAlike(v, w, WORKER_PROTOCOL, JInt(2));
  }

  lemma {:induction false} SettingsAlike(v: Json, w: Json)
    requires LeavesAlike(v, w) && PartsAlike(v, w)
    ensures ReadSettings(v) == ReadSettings(w)
  {
  }

  /** Payloads alike declare the same settings and registry, and documents alike. */
  lemma {:induction false} DeclaresAlike(v: Json, w: Json)
    requires WellFormed(v) && WellFormed(w) && Alike(v, w)
    ensures Declares(v).Some? <==> Declares(w).Some?
    ensures Declares(v).Some? ==>
              && Declares(v).value.settings == Declares(w).value.settings
              && Declares(v).value.registry == Declares(w).value.registry
              && Alike(Declares(v).value.document, Declares(w).value.document)
              && WellFormed(Declares(v).value.document) && WellFormed(Declares(w).value.document)
  {
    SettingsLeavesAlike(v, w);
    SettingsPartsAlike(v, w);
    SettingsAlike(v, w);
    TextAlike(v, w, REGISTRY);
    DocumentAlike(v, w);
  }
}
