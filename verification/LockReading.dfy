/** What a lock document has to show to be read, and as which lock. */
module LockReading {
  import opened Options
  import opened JsonText
  import opened JsonValues
  import opened CanonicalJson
  import opened JsonObjects
  import opened Utf16
  import opened CandidateV2
  import opened LockDocuments

  /** The members a package record may have. */
  const RECORD_MAY_HAVE: seq<Text> := [
    Units("version"), Units("resolved"), Units("integrity"), Units("dependencies"), Units("bin"), Units("engines"),
    Units("license"), Units("funding"), Units("dev"), Units("optional"), Units("peer"), Units("devOptional"),
    Units("peerDependencies"), Units("peerDependenciesMeta"), Units("hasInstallScript"), Units("link"),
    Units("inBundle")
  ]

  /** Those of them that must not be true. */
  const NEVER_TRUE: seq<Text> := [
    Units("dev"), Units("optional"), Units("devOptional"), Units("hasInstallScript"), Units("link"), Units("inBundle")
  ]

  const ROOT_MAY_HAVE: seq<Text> := [Units("name"), Units("version"), Units("dependencies"), Units("engines")]

  predicate HasText(v: Json, key: Text) {
    match Get(v, key) case None => false case Some(w) => w.JString?
  }

  /** Every key is the text of a name. */
  ghost predicate AllNames(keys: set<Text>) {
    forall k :: k in keys ==> exists s :: ToText(s) == k
  }

  /** The keys are those of the names in the map. */
  ghost predicate NamesOf(keys: set<Text>, names: set<string>) {
    forall s :: s in names <==> ToText(s) in keys
  }

  /** An object that tells the map: a string for each name, and nothing else. */
  ghost predicate ShowsTexts(v: Json, m: Declarations) {
    && v.JObject? && AllNames(Keys(v.members))
    && NamesOf(Keys(v.members), m.Keys)
    && forall s :: s in m ==> Lookup(v.members, ToText(s)) == JString(m[s])
  }

  /** An object without members, or with the mark alone. */
  predicate ShowsMark(v: Json, mark: Option<bool>) {
    && v.JObject?
    && match mark
       case None => Keys(v.members) == {}
       case Some(b) => Keys(v.members) == {Units("optional")} && Get(v, Units("optional")) == Some(JBool(b))
  }

  ghost predicate ShowsMarks(v: Json, m: MetaDeclarations) {
    && v.JObject? && AllNames(Keys(v.members))
    && NamesOf(Keys(v.members), m.Keys)
    && forall s :: s in m ==> ShowsMark(Lookup(v.members, ToText(s)), m[s])
  }

  ghost predicate MayShowTexts(v: Json, key: Text, m: Option<Declarations>) {
    match Get(v, key) case None => m.None? case Some(w) => m.Some? && ShowsTexts(w, m.value)
  }

  ghost predicate MayShowMarks(v: Json, key: Text, m: Option<MetaDeclarations>) {
    match Get(v, key) case None => m.None? case Some(w) => m.Some? && ShowsMarks(w, m.value)
  }

  predicate MayShowFlag(v: Json, key: Text, flag: Option<bool>) {
    match Get(v, key) case None => flag.None? case Some(w) => flag.Some? && w == JBool(flag.value)
  }

  /** A package record, member by member. */
  ghost predicate ShowsRecord(v: Json, r: RawRecord) {
    && v.JObject? && (forall k :: k in Keys(v.members) ==> k in RECORD_MAY_HAVE)
    && (forall k :: k in NEVER_TRUE ==> Get(v, k) != Some(JBool(true)))
    && Get(v, Units("version")) == Some(JString(r.version))
    && Get(v, Units("resolved")) == Some(JString(r.resolved))
    && Get(v, Units("integrity")) == Some(JString(r.integrity))
    && MayShowTexts(v, Units("dependencies"), r.dependencies)
    && MayShowTexts(v, Units("peerDependencies"), r.peers)
    && MayShowMarks(v, Units("peerDependenciesMeta"), r.meta) && MayShowFlag(v, Units("peer"), r.peer)
  }

  ghost predicate ShowsRoot(v: Json, d: Declarations) {
    && v.JObject? && (forall k :: k in Keys(v.members) ==> k in ROOT_MAY_HAVE)
    && HasText(v, Units("name")) && HasText(v, Units("version"))
    && (MayShowTexts(v, Units("dependencies"), Some(d)) || (MayShowTexts(v, Units("dependencies"), None) && d == map[]))
  }

  /** The root under the empty path, and a record under every other path. */
  ghost predicate ShowsPackages(v: Json, lock: Lock) {
    && v.JObject? && [] in Keys(v.members) && ShowsRoot(Lookup(v.members, []), lock.rootDependencies)
    && AllNames(Keys(v.members)) && ShowsRecords(v.members, lock.packages)
  }

  ghost predicate ShowsRecords(ms: Members, packages: map<string, RawRecord>) {
    && (forall s :: s in packages <==> s != "" && ToText(s) in Keys(ms))
    && forall s :: s in packages ==> ShowsRecord(Lookup(ms, ToText(s)), packages[s])
  }

  /** The document of a lock: five members, of the third version of the format. */
  ghost predicate ShowsLock(v: Json, lock: Lock) {
    && v.JObject?
    && Keys(v.members) ==
       {Units("name"), Units("version"), Units("lockfileVersion"), Units("requires"), Units("packages")}
    && HasText(v, Units("name")) && HasText(v, Units("version"))
    && Get(v, Units("lockfileVersion")) == Some(JInt(3)) && Get(v, Units("requires")) == Some(JBool(true))
    && ShowsPackages(Lookup(v.members, Units("packages")), lock)
  }

  // ----- Maps -----

  lemma NamesRead(k: Text)
    ensures FromText(k).Some? <==> exists s :: ToText(s) == k
  {
    if s :| ToText(s) == k {
      FromToText(s);
    }
  }

  ghost predicate EachRead<T>(ms: Members, read: Json -> Option<T>, m: map<string, T>)
    requires NamesOf(Keys(ms), m.Keys)
  {
    forall s :: s in m ==> read(Lookup(ms, ToText(s))) == Some(m[s])
  }

  lemma {:induction false} ReadShows<T>(ms: Members, read: Json -> Option<T>, m: map<string, T>)
    requires MembersWellFormed(ms) && ReadMap(ms, read) == Some(m)
    ensures AllNames(Keys(ms)) && NamesOf(Keys(ms), m.Keys) && EachRead(ms, read, m)
  {
    ReadMapMeans(ms, read);
    forall k | k in Keys(ms) ensures exists s :: ToText(s) == k {
      NamesRead(k);
    }
  }

  lemma {:induction false} ShownReads<T>(ms: Members, read: Json -> Option<T>, m: map<string, T>)
    requires MembersWellFormed(ms) && AllNames(Keys(ms)) && NamesOf(Keys(ms), m.Keys) && EachRead(ms, read, m)
    ensures ReadMap(ms, read) == Some(m)
  {
    ReadMapMeans(ms, read);
    forall k | k in Keys(ms) ensures FromText(k).Some? && read(Lookup(ms, k)).Some? {
      var s :| ToText(s) == k;
      FromToText(s);
      assert s in m;
    }
    MapsToOne(ms, read, m, ReadMap(ms, read).value);
  }

  /** What it takes for an object to be read as a map. */
  lemma {:induction false} ReadsMapIff<T>(ms: Members, read: Json -> Option<T>, m: map<string, T>)
    requires MembersWellFormed(ms)
    ensures ReadMap(ms, read) == Some(m) <==>
            AllNames(Keys(ms)) && NamesOf(Keys(ms), m.Keys) && EachRead(ms, read, m)
  {
    if ReadMap(ms, read) == Some(m) {
      ReadShows(ms, read, m);
    }
    if AllNames(Keys(ms)) && NamesOf(Keys(ms), m.Keys) && EachRead(ms, read, m) {
      ShownReads(ms, read, m);
    }
  }

  lemma {:induction false} ReadsTextsIff(v: Json, m: Declarations)
    requires WellFormed(v)
    ensures ReadObject(v, ReadText) == Some(m) <==> ShowsTexts(v, m)
  {
    if v.JObject? {
      ReadsMapIff(v.members, ReadText, m);
      forall s | s in m && ToText(s) in Keys(v.members)
        ensures ReadText(Lookup(v.members, ToText(s))) == Some(m[s]) <==>
                Lookup(v.members, ToText(s)) == JString(m[s]) {
      }
      if NamesOf(Keys(v.members), m.Keys) {
        assert EachRead(v.members, ReadText, m) <==>
               forall s :: s in m ==> Lookup(v.members, ToText(s)) == JString(m[s]);
      }
    }
  }

  lemma ReadsMarkIff(v: Json, mark: Option<bool>)
    requires WellFormed(v)
    ensures ReadMark(v) == Some(mark) <==> ShowsMark(v, mark)
  {
    assert [OPTIONAL][0] == OPTIONAL;
    if v.JObject? {
      assert ExactKeys(v.members, [], [OPTIONAL]) <==> Keys(v.members) <= {OPTIONAL};
      assert Keys(v.members) <= {OPTIONAL} <==> Keys(v.members) == {} || Keys(v.members) == {OPTIONAL};
    }
  }

  lemma {:induction false} ReadsMarksIff(v: Json, m: MetaDeclarations)
    requires WellFormed(v)
    ensures ReadObject(v, ReadMark) == Some(m) <==> ShowsMarks(v, m)
  {
    if v.JObject? {
      ReadsMapIff(v.members, ReadMark, m);
      forall s | s in m && ToText(s) in Keys(v.members)
        ensures ReadMark(Lookup(v.members, ToText(s))) == Some(m[s]) <==>
                ShowsMark(Lookup(v.members, ToText(s)), m[s]) {
        LookupWellFormed(v.members, ToText(s));
        ReadsMarkIff(Lookup(v.members, ToText(s)), m[s]);
      }
      if NamesOf(Keys(v.members), m.Keys) {
        assert EachRead(v.members, ReadMark, m) <==>
               forall s :: s in m ==> ShowsMark(Lookup(v.members, ToText(s)), m[s]);
      }
    }
  }

  // ----- Records -----

  lemma {:induction false} ReadsMemberIff(v: Json, key: Text, m: Option<Declarations>)
    requires WellFormed(v)
    ensures ReadOptional(v, key, ReadText) == Some(m) <==> MayShowTexts(v, key, m)
  {
    if Get(v, key).Some? {
      LookupWellFormed(v.members, key);
      if m.Some? {
        ReadsTextsIff(Get(v, key).value, m.value);
      }
    }
  }

  lemma {:induction false} ReadsMarkedIff(v: Json, key: Text, m: Option<MetaDeclarations>)
    requires WellFormed(v)
    ensures ReadOptional(v, key, ReadMark) == Some(m) <==> MayShowMarks(v, key, m)
  {
    if Get(v, key).Some? {
      LookupWellFormed(v.members, key);
      if m.Some? {
        ReadsMarksIff(Get(v, key).value, m.value);
      }
    }
  }

  lemma AllowedIff(k: Text)
    ensures k in RECORD_NAMES || k in FLAGS <==> k in RECORD_MAY_HAVE
    ensures k in FLAGS <==> k in NEVER_TRUE
  {
  }

  lemma {:induction false} ShapeIff(v: Json)
    ensures RecordShape(v) <==>
            && v.JObject? && (forall k :: k in Keys(v.members) ==> k in RECORD_MAY_HAVE)
            && forall k :: k in NEVER_TRUE ==> Get(v, k) != Some(JBool(true))
  {
    forall k ensures (k in RECORD_NAMES || k in FLAGS <==> k in RECORD_MAY_HAVE) && (k in FLAGS <==> k in NEVER_TRUE) {
      AllowedIff(k);
    }
  }

  /** Exactly the values that show a record are read as it. */
  lemma {:induction false} ReadsRecordIff(v: Json, r: RawRecord)
    requires WellFormed(v)
    ensures ReadRecord(v) == Some(r) <==> ShowsRecord(v, r)
  {
    ShapeIff(v);
    ReadsMemberIff(v, DEPENDENCIES, r.dependencies);
    ReadsMemberIff(v, PEER_DEPENDENCIES, r.peers);
    ReadsMarkedIff(v, PEER_META, r.meta);
    TextShown(v, VERSION, r.version);
    TextShown(v, RESOLVED, r.resolved);
    TextShown(v, INTEGRITY, r.integrity);
    FlagShown(v, PEER, r.peer);
  }

  lemma TextShown(v: Json, key: Text, t: Text)
    ensures TextAt(v, key) == Some(t) <==> Get(v, key) == Some(JString(t))
  {
  }

  lemma FlagShown(v: Json, key: Text, flag: Option<bool>)
    ensures ReadFlag(v, key) == Some(flag) <==> MayShowFlag(v, key, flag)
  {
  }

  // ----- Documents -----

  lemma {:induction false} RootIff(v: Json, d: Declarations)
    requires WellFormed(v)
    ensures ShowsRoot(v, d) <==>
            && RootShape(v) && ReadOptional(v, DEPENDENCIES, ReadText).Some?
            && d == match ReadOptional(v, DEPENDENCIES, ReadText).value case None => map[] case Some(m) => m
  {
    assert forall k :: k in ROOT_NAMES <==> k in ROOT_MAY_HAVE;
    ReadsMemberIff(v, DEPENDENCIES, Some(d));
    ReadsMemberIff(v, DEPENDENCIES, None);
  }

  lemma RootPath(s: string)
    ensures ToText(s) == ROOT_PATH <==> s == ""
  {
    if ToText(s) == ROOT_PATH {
      ToTextInjective(s, "");
    }
  }

  lemma {:induction false} RestNames(ms: Members, names: set<string>)
    requires MembersWellFormed(ms) && ROOT_PATH in Keys(ms)
    ensures AllNames(Keys(Without(ms, ROOT_PATH))) <==> AllNames(Keys(ms))
    ensures NamesOf(Keys(Without(ms, ROOT_PATH)), names) <==>
            forall s :: s in names <==> s != "" && ToText(s) in Keys(ms)
  {
    var rest := Without(ms, ROOT_PATH);
    WithoutKeeps(ms, ROOT_PATH);
    assert ToText("") == ROOT_PATH;
    assert forall k :: k in Keys(ms) <==> k == ROOT_PATH || k in Keys(rest);
    forall s ensures ToText(s) in Keys(rest) <==> s != "" && ToText(s) in Keys(ms) {
      RootPath(s);
    }
  }

  lemma {:induction false} RestEach(ms: Members, packages: map<string, RawRecord>)
    requires MembersWellFormed(ms) && NamesOf(Keys(Without(ms, ROOT_PATH)), packages.Keys)
    ensures EachRead(Without(ms, ROOT_PATH), ReadRecord, packages) <==>
            forall s :: s in packages ==>
              ToText(s) in Keys(ms) && ShowsRecord(Lookup(ms, ToText(s)), packages[s])
  {
    var rest := Without(ms, ROOT_PATH);
    WithoutKeeps(ms, ROOT_PATH);
    forall s | s in packages
      ensures ToText(s) in Keys(ms)
              && (ReadRecord(Lookup(rest, ToText(s))) == Some(packages[s]) <==>
                  ShowsRecord(Lookup(ms, ToText(s)), packages[s])) {
      LookupWellFormed(ms, ToText(s));
      ReadsRecordIff(Lookup(ms, ToText(s)), packages[s]);
    }
  }

  lemma {:induction false} RestIff(ms: Members, packages: map<string, RawRecord>)
    requires MembersWellFormed(ms) && ROOT_PATH in Keys(ms)
    ensures ReadMap(Without(ms, ROOT_PATH), ReadRecord) == Some(packages) <==>
            AllNames(Keys(ms)) && ShowsRecords(ms, packages)
  {
    WithoutKeeps(ms, ROOT_PATH);
    ReadsMapIff(Without(ms, ROOT_PATH), ReadRecord, packages);
    RestNames(ms, packages.Keys);
    if NamesOf(Keys(Without(ms, ROOT_PATH)), packages.Keys) {
      RestEach(ms, packages);
    }
  }

  lemma {:induction false} PackagesIff(v: Json, lock: Lock)
    requires WellFormed(v)
    ensures v.JObject? ==> (ReadPackages(v) == Some(lock) <==> ShowsPackages(v, lock))
    ensures !v.JObject? ==> ReadPackages(v) == None && !ShowsPackages(v, lock)
  {
    if v.JObject? && ROOT_PATH in Keys(v.members) {
      LookupWellFormed(v.members, ROOT_PATH);
      RootIff(Lookup(v.members, ROOT_PATH), lock.rootDependencies);
      RestIff(v.members, lock.packages);
    }
  }

  lemma LockShapeIff(v: Json)
    ensures LockShape(v) <==>
            && v.JObject?
            && Keys(v.members) ==
               {Units("name"), Units("version"), Units("lockfileVersion"), Units("requires"), Units("packages")}
            && HasText(v, Units("name")) && HasText(v, Units("version"))
            && Get(v, Units("lockfileVersion")) == Some(JInt(3)) && Get(v, Units("requires")) == Some(JBool(true))
  {
    if v.JObject? {
      assert (forall k :: k in LOCK_NAMES ==> k in Keys(v.members))
        <==> {NAME, VERSION, LOCKFILE_VERSION, REQUIRES, PACKAGES} <= Keys(v.members) by {
        assert LOCK_NAMES[0] == NAME && LOCK_NAMES[1] == VERSION && LOCK_NAMES[2] == LOCKFILE_VERSION
          && LOCK_NAMES[3] == REQUIRES && LOCK_NAMES[4] == PACKAGES;
      }
      assert (forall k :: k in Keys(v.members) ==> k in LOCK_NAMES)
        <==> Keys(v.members) <= {NAME, VERSION, LOCKFILE_VERSION, REQUIRES, PACKAGES};
    }
  }

  /** Exactly the documents that show a lock are read as it. */
  lemma {:induction false} ReadsLockIff(v: Json, lock: Lock)
    requires WellFormed(v)
    ensures ReadLock(v) == Some(lock) <==> ShowsLock(v, lock)
  {
    LockShapeIff(v);
    if LockShape(v) {
      LookupWellFormed(v.members, PACKAGES);
      PackagesIff(Lookup(v.members, PACKAGES), lock);
    }
  }
}
