/** Reading a lock document from JSON, as the V2 compiler does before it looks at paths and declarations. */
module LockDocuments {
  import opened Options
  import opened Sequences
  import opened JsonText
  import opened JsonValues
  import opened CanonicalJson
  import opened JsonObjects
  import opened CandidateV2

  const NAME: Text := Units("name")
  const VERSION: Text := Units("version")
  const RESOLVED: Text := Units("resolved")
  const INTEGRITY: Text := Units("integrity")
  const DEPENDENCIES: Text := Units("dependencies")
  const PEER_DEPENDENCIES: Text := Units("peerDependencies")
  const PEER_META: Text := Units("peerDependenciesMeta")
  const PEER: Text := Units("peer")
  const OPTIONAL: Text := Units("optional")
  const LOCKFILE_VERSION: Text := Units("lockfileVersion")
  const REQUIRES: Text := Units("requires")
  const PACKAGES: Text := Units("packages")
  const ROOT_PATH: Text := []

  const LOCK_NAMES: seq<Text> := [NAME, VERSION, LOCKFILE_VERSION, REQUIRES, PACKAGES]

  const ROOT_NAMES: seq<Text> := [NAME, VERSION, DEPENDENCIES, Units("engines")]

  /** Flags a record may carry as long as they are not true. */
  const FLAGS: seq<Text> :=
    [Units("dev"), OPTIONAL, Units("devOptional"), Units("hasInstallScript"), Units("link"), Units("inBundle")]

  /** The other members a record may have. */
  const RECORD_NAMES: seq<Text> := [
    VERSION, RESOLVED, INTEGRITY, DEPENDENCIES, PEER_DEPENDENCIES, PEER_META, PEER,
    Units("bin"), Units("engines"), Units("license"), Units("funding")
  ]

  function ReadText(v: Json): Option<Text> {
    if v.JString? then Some(v.s) else None
  }

  /** The mark of an optional peer: an object without members, or with the mark as its only one. */
  function ReadMark(v: Json): Option<Option<bool>> {
    if !v.JObject? || !ExactKeys(v.members, [], [OPTIONAL]) then None
    else match Get(v, OPTIONAL)
         case None => Some(None)
         case Some(mark) => if mark.JBool? then Some(Some(mark.b)) else None
  }

  function ReadObject<T>(v: Json, read: Json -> Option<T>): Option<map<string, T>> {
    if v.JObject? then ReadMap(v.members, read) else None
  }

  /** A member that may be absent. */
  function ReadOptional<T>(v: Json, key: Text, read: Json -> Option<T>): Option<Option<map<string, T>>> {
    match Get(v, key)
    case None => Some(None)
    case Some(w) => match ReadObject(w, read) case None => None case Some(m) => Some(Some(m))
  }

  function ReadFlag(v: Json, key: Text): Option<Option<bool>> {
    match Get(v, key)
    case None => Some(None)
    case Some(w) => if w.JBool? then Some(Some(w.b)) else None
  }

  /** A record has no member but those allowed, and none of its flags is set. */
  predicate RecordShape(v: Json) {
    && v.JObject? && (forall k :: k in Keys(v.members) ==> k in RECORD_NAMES || k in FLAGS)
    && (forall k :: k in FLAGS ==> Get(v, k) != Some(JBool(true)))
  }

  function TextAt(v: Json, key: Text): Option<Text> {
    match Get(v, key) case None => None case Some(w) => ReadText(w)
  }

  function ReadRecord(v: Json): Option<RawRecord> {
    if !RecordShape(v) then None
    else
      var version, resolved, integrity := TextAt(v, VERSION), TextAt(v, RESOLVED), TextAt(v, INTEGRITY);
      var dependencies, peers := ReadOptional(v, DEPENDENCIES, ReadText), ReadOptional(v, PEER_DEPENDENCIES, ReadText);
      var meta, peer := ReadOptional(v, PEER_META, ReadMark), ReadFlag(v, PEER);
      if version.None? || resolved.None? || integrity.None? || dependencies.None? || peers.None? || meta.None?
        || peer.None? then None
      else Some(RawRecord(version.value, resolved.value, integrity.value, dependencies.value, peers.value, meta.value,
                          peer.value))
  }

  predicate RootShape(v: Json) {
    && v.JObject? && (forall k :: k in Keys(v.members) ==> k in ROOT_NAMES)
    && TextAt(v, NAME).Some? && TextAt(v, VERSION).Some?
  }

  predicate LockShape(v: Json) {
    && v.JObject? && ExactKeys(v.members, LOCK_NAMES, [])
    && TextAt(v, NAME).Some? && TextAt(v, VERSION).Some?
    && Get(v, LOCKFILE_VERSION) == Some(JInt(3)) && Get(v, REQUIRES) == Some(JBool(true))
  }

  /** The packages below the root; `RawRecord`s under their paths. */
  function ReadPackages(v: Json): Option<Lock> {
    match Get(v, ROOT_PATH)
    case None => None
    case Some(root) =>
      if !RootShape(root) then None
      else
        var dependencies := ReadOptional(root, DEPENDENCIES, ReadText);
        var packages := ReadMap(Without(v.members, ROOT_PATH), ReadRecord);
        if dependencies.None? || packages.None? then None
        else Some(Lock(if dependencies.value.Some? then dependencies.value.value else map[], packages.value))
  }

  function ReadLock(v: Json): Option<Lock> {
    if !LockShape(v) then None else match Get(v, PACKAGES) case None => None
      case Some(packages) => ReadPackages(packages)
  }

  // ----- The order of members does not matter -----

  lemma {:induction false} TextAlike(v: Json, w: Json, key: Text)
    requires WellFormed(v) && WellFormed(w) && Alike(v, w)
    ensures TextAt(v, key) == TextAt(w, key) && ReadFlag(v, key) == ReadFlag(w, key)
    ensures forall leaf: Json :: (leaf.JBool? || leaf.JInt?) ==>
        (Get(v, key) == Some(leaf) <==> Get(w, key) == Some(leaf))
  {
    AlikeGet(v, w, key);
  }

  lemma {:induction false} KeysAlike(v: Json, w: Json)
    requires WellFormed(v) && WellFormed(w) && Alike(v, w)
    ensures v.JObject? <==> w.JObject?
    ensures v.JObject? ==> Keys(v.members) == Keys(w.members)
  {
    if v.JObject? && w.JObject? {
      AlikeMembers(v.members, w.members);
    }
  }

  lemma {:induction false} TextIsOrderBlind()
    ensures OrderBlind(ReadText)
  {
  }

  lemma {:induction false} MarkIsOrderBlind()
    ensures OrderBlind(ReadMark)
  {
    forall v, w | WellFormed(v) && WellFormed(w) && Alike(v, w) ensures ReadMark(v) == ReadMark(w) {
      KeysAlike(v, w);
      AlikeGet(v, w, OPTIONAL);
    }
  }

  lemma {:induction false} OptionalAlike<T>(v: Json, w: Json, key: Text, read: Json -> Option<T>)
    requires WellFormed(v) && WellFormed(w) && Alike(v, w) && OrderBlind(read)
    ensures ReadOptional(v, key, read) == ReadOptional(w, key, read)
  {
    AlikeGet(v, w, key);
    if Get(v, key).Some? {
      var a, b := Get(v, key).value, Get(w, key).value;
      if a.JObject? && b.JObject? {
        ReadMapAlike(a.members, b.members, read);
      }
    }
  }

  lemma {:induction false} RecordShapeAlike(v: Json, w: Json)
    requires WellFormed(v) && WellFormed(w) && Alike(v, w)
    ensures RecordShape(v) == RecordShape(w)
  {
    KeysAlike(v, w);
    forall k | k in FLAGS ensures Get(v, k) != Some(JBool(true)) <==> Get(w, k) != Some(JBool(true)) {
      TextAlike(v, w, k);
    }
  }

  lemma {:induction false} RecordIsOrderBlind()
    ensures OrderBlind(ReadRecord)
  {
    forall v, w | WellFormed(v) && WellFormed(w) && Alike(v, w) ensures ReadRecord(v) == ReadRecord(w) {
      RecordAlike(v, w);
    }
  }

  lemma {:induction false} RecordAlike(v: Json, w: Json)
    requires WellFormed(v) && WellFormed(w) && Alike(v, w)
    ensures ReadRecord(v) == ReadRecord(w)
  {
    RecordShapeAlike(v, w);
    TextIsOrderBlind();
    MarkIsOrderBlind();
    TextAlike(v, w, VERSION);
    TextAlike(v, w, RESOLVED);
    TextAlike(v, w, INTEGRITY);
    TextAlike(v, w, PEER);
    OptionalAlike(v, w, DEPENDENCIES, ReadText);
    OptionalAlike(v, w, PEER_DEPENDENCIES, ReadText);
    OptionalAlike(v, w, PEER_META, ReadMark);
  }

  lemma {:induction false} WithoutAlike(a: Members, b: Members, key: Text)
    requires MembersWellFormed(a) && MembersWellFormed(b) && Alike(JObject(a), JObject(b))
    ensures MembersWellFormed(Without(a, key)) && MembersWellFormed(Without(b, key))
    ensures Alike(JObject(Without(a, key)), JObject(Without(b, key)))
  {
    var x, y := Without(a, key), Without(b, key);
    WithoutKeeps(a, key);
    WithoutKeeps(b, key);
    AlikeMembers(a, b);
    SameMembersPointwise(x, y);
    SortDecidesMembers(x, y);
  }

  lemma {:induction false} PackagesAlike(v: Json, w: Json)
    requires WellFormed(v) && WellFormed(w) && Alike(v, w)
    ensures ReadPackages(v) == ReadPackages(w)
  {
    AlikeGet(v, w, ROOT_PATH);
    if Get(v, ROOT_PATH).Some? {
      var a, b := Get(v, ROOT_PATH).value, Get(w, ROOT_PATH).value;
      KeysAlike(a, b);
      TextAlike(a, b, NAME);
      TextAlike(a, b, VERSION);
      TextIsOrderBlind();
      RecordIsOrderBlind();
      OptionalAlike(a, b, DEPENDENCIES, ReadText);
      WithoutAlike(v.members, w.members, ROOT_PATH);
      ReadMapAlike(Without(v.members, ROOT_PATH), Without(w.members, ROOT_PATH), ReadRecord);
    }
  }

  /** Documents that differ in the order of members only are read alike. */
  lemma {:induction false} LockAlike(v: Json, w: Json)
    requires WellFormed(v) && WellFormed(w) && Alike(v, w)
    ensures ReadLock(v) == ReadLock(w)
  {
    KeysAlike(v, w);
    TextAlike(v, w, NAME);
    TextAlike(v, w, VERSION);
    TextAlike(v, w, LOCKFILE_VERSION);
    TextAlike(v, w, REQUIRES);
    AlikeGet(v, w, PACKAGES);
    if Get(v, PACKAGES).Some? {
      PackagesAlike(Get(v, PACKAGES).value, Get(w, PACKAGES).value);
    }
  }
}
