/**
  * Compiling and validating candidates in JSON: a payload is accepted when what it declares compiles to what it
  * claims.
  */
module CandidateValidation {
  import opened Numbers
  import opened Options
  import opened Sequences
  import opened JsonText
  import opened JsonValues
  import opened CanonicalJson
  import opened JsonTally
  import opened JsonObjects
  import opened JsonCollecting
  import opened Utf8
  import opened Utf16
  import opened CandidateV2
  import opened LockDocuments
  import opened CandidateLayout
  import opened CandidateReading
  import opened RebuiltLock
  import opened RebuiltSize

  const MAX_CANDIDATE_BYTES: nat := 4 * 1024 * 1024

  // ----- Compiling -----

  /** Settings, registry and lock document as the caller gives them, with a lower limit on bytes. */
  datatype Input = Input(settings: Settings, registry: Text, document: Json, lowerLimit: Option<int>)

  function LimitOf(lower: Option<int>): (limit: Option<nat>)
    ensures limit.Some? ==> limit.value <= MAX_CANDIDATE_BYTES
  {
    match lower
    case None => Some(MAX_CANDIDATE_BYTES)
    case Some(n) => if 0 < n <= MAX_CANDIDATE_BYTES then Some(n) else None
  }

  function CompileUnsigned(input: Input, p: Platform): Option<Unsigned>
    requires Sane(p)
  {
    var limit, registry := LimitOf(input.lowerLimit), p.normalizeRegistry(input.registry);
    if !p.validSettings(input.settings) || registry.None? || limit.None?
      || !Clones(input.document, limit.value) then None
    else
      match ReadLock(input.document)
      case None => None
      case Some(lock) =>
        match CompileLock(lock, input.settings, registry.value, p)
        case None => None
        case Some(u) => if Utf8Size(CanonicalText(Show(u, p))) <= limit.value then Some(u) else None
  }

  /** An object with its digest as one more member. */
  function Sign(shown: Json, digest: Text): Json
    requires shown.JObject?
  {
    JObject(Assign(shown.members, DIGEST_KEY, JString(digest)))
  }

  function DigestOf(u: Unsigned, p: Platform): Text
    requires Sorts(p)
  {
    p.sha(CanonicalText(Show(u, p)))
  }

  /** The candidate with its digest. */
  function Signed(u: Unsigned, p: Platform): Json
    requires Sorts(p)
  {
    Sign(Show(u, p), DigestOf(u, p))
  }

  function CompileCandidate(input: Input, p: Platform): Option<Json>
    requires Sane(p)
  {
    match CompileUnsigned(input, p)
    case None => None
    case Some(u) =>
      match LimitOf(input.lowerLimit)
      case None => None
      case Some(limit) => if Utf8Size(CanonicalText(Signed(u, p))) <= limit then Some(Signed(u, p)) else None
  }

  // ----- Validating -----

  /** The payload without its digest. */
  function Claimed(ms: Members): Json {
    JObject(Without(ms, DIGEST_KEY))
  }

  /** What a payload's declarations compile to. */
  function Recompiled(claimed: Json, p: Platform): Option<Unsigned>
    requires Sane(p)
  {
    match Declares(claimed)
    case None => None
    case Some(d) => CompileUnsigned(Input(d.settings, d.registry, d.document, None), p)
  }

  /** The checks before compilation: bounds, member names, and the forms of digest and contract. */
  predicate WellMade(v: Json) {
    && Clones(v, MAX_CANDIDATE_BYTES) && v.JObject? && ExactKeys(v.members, UNSIGNED_NAMES + [DIGEST_KEY], [])
    && HasDigest(v) && HasContract(v)
  }

  predicate HasDigest(v: Json) {
    match TextAt(v, DIGEST_KEY) case None => false case Some(digest) => IsSha256(digest)
  }

  predicate HasContract(v: Json) {
    match Get(v, CONTRACT_KEY) case None => false
      case Some(contract) => CanonicalText(contract) == CanonicalText(CONTRACT)
  }

  /** The validated candidate: what the declarations compile to, if it and its digest are what the payload claims. */
  function ValidateCandidateV2Payload(v: Json, p: Platform): Option<Json>
    requires Sane(p)
  {
    if !WellMade(v) then None
    else
      match Recompiled(Claimed(v.members), p)
      case None => None
      case Some(u) =>
        var digest := TextAt(v, DIGEST_KEY).value;
        if CanonicalText(Claimed(v.members)) != CanonicalText(Show(u, p)) || digest != DigestOf(u, p) then None
        else Some(Sign(Show(u, p), digest))
  }

  // ----- The digest member -----

  lemma {:induction false} AssignedLast(ms: Members, key: Text, value: Json)
    requires key !in Keys(ms)
    ensures Without(Assign(ms, key, value), key) == ms && Lookup(Assign(ms, key, value), key) == value
  {
    if ms.Member? {
      AssignedLast(ms.rest, key, value);
    } else {
      assert Without(NoMembers, key) == NoMembers;
    }
  }

  /** Objects are alike exactly when they agree on one member and without it. */
  lemma {:induction false} SplitMember(a: Members, b: Members, key: Text)
    requires MembersWellFormed(a) && MembersWellFormed(b) && key in Keys(a) && key in Keys(b)
    ensures Alike(JObject(a), JObject(b)) <==>
            Alike(Lookup(a, key), Lookup(b, key)) && Alike(JObject(Without(a, key)), JObject(Without(b, key)))
  {
    var x, y := Without(a, key), Without(b, key);
    WithoutKeeps(a, key);
    WithoutKeeps(b, key);
    SortDecidesMembers(a, b);
    SortDecidesMembers(x, y);
    SameMembersPointwise(a, b);
    SameMembersPointwise(x, y);
    assert Keys(a) == Keys(x) + {key} && Keys(b) == Keys(y) + {key};
  }

  /** Signing adds the digest, which taking it out removes again. */
  lemma {:induction false} SignIs(shown: Json, digest: Text)
    requires shown.JObject? && WellFormed(shown) && DIGEST_KEY !in Keys(shown.members)
    ensures var signed := Sign(shown, digest);
            && WellFormed(signed) && Keys(signed.members) == Keys(shown.members) + {DIGEST_KEY}
            && Claimed(signed.members) == shown && Get(signed, DIGEST_KEY) == Some(JString(digest))
  {
    AssignedLast(shown.members, DIGEST_KEY, JString(digest));
    AssignWellFormed(shown.members, DIGEST_KEY, JString(digest));
  }

  /** A payload is like a signed object exactly when it claims that object under that digest. */
  lemma {:induction false} SignedAlike(v: Json, shown: Json, digest: Text)
    requires WellFormed(v) && v.JObject? && DIGEST_KEY in Keys(v.members)
    requires shown.JObject? && WellFormed(shown) && DIGEST_KEY !in Keys(shown.members)
    ensures WellFormed(Claimed(v.members))
    ensures Alike(v, Sign(shown, digest)) <==> TextAt(v, DIGEST_KEY) == Some(digest) && Alike(Claimed(v.members), shown)
  {
    SignIs(shown, digest);
    SplitMember(v.members, Sign(shown, digest).members, DIGEST_KEY);
    WithoutKeeps(v.members, DIGEST_KEY);
    assert Alike(Lookup(v.members, DIGEST_KEY), JString(digest)) <==> Lookup(v.members, DIGEST_KEY) == JString(digest);
  }

  lemma {:induction false} AlikeIsSame(v: Json, w: Json)
    requires WellFormed(v) && WellFormed(w)
    ensures Alike(v, w) <==> SameUpToOrder(v, w)
    ensures Alike(v, w) <==> CanonicalText(v) == CanonicalText(w)
  {
    SortDecides(v, w);
    CanonicalTextDecides(v, w);
  }

  // ----- How large a compiled candidate is -----

  lemma {:induction false} SignTally(shown: Json, digest: Text)
    requires shown.JObject? && WellFormed(shown) && DIGEST_KEY !in Keys(shown.members)
    ensures TallyOf(Sign(shown, digest)).visits == TallyOf(shown).visits + 1
    ensures TallyOf(Sign(shown, digest)).height <= Max(2, TallyOf(shown).height)
  {
    SignIs(shown, digest);
    TakeOut(Sign(shown, digest).members, DIGEST_KEY);
  }

  lemma {:induction false} ShownHasNoDigest(u: Unsigned, p: Platform)
    requires Sorts(p)
    ensures WellFormed(Show(u, p)) && ExactKeys(Show(u, p).members, UNSIGNED_NAMES, [])
        && DIGEST_KEY !in Keys(Show(u, p).members)
  {
    ShowIs(u, p);
    DigestIsNew();
  }

  /** The payload and the lock rebuilt from it keep these bounds, which are far below those of cloning. */
  ghost predicate Small(t: Tally) {
    t.visits <= 37_300 && t.height <= 7 && t.size <= MAX_CANDIDATE_BYTES
  }

  lemma {:induction false} SmallClones(v: Json)
    requires Small(TallyOf(v))
    ensures Clones(v, MAX_CANDIDATE_BYTES)
  {
    ClonesIff(v, MAX_CANDIDATE_BYTES);
  }

  /** A compiled candidate within the limit. */
  ghost predicate IsCompiled(u: Unsigned, lock: Lock, registry: Text, p: Platform)
    requires Sane(p)
  {
    && CompileLock(lock, u.settings, registry, p) == Some(u)
    && p.validSettings(u.settings) && p.normalizeRegistry(registry) == Some(registry)
    && Utf8Size(CanonicalText(Show(u, p))) <= MAX_CANDIDATE_BYTES
  }

  lemma {:induction false} CompiledKeepsHeader(lock: Lock, s: Settings, registry: Text, p: Platform)
    requires Sane(p) && CompileLock(lock, s, registry, p).Some?
    ensures var u := CompileLock(lock, s, registry, p).value;
            u.settings == s && u.registry == registry && u.rootDependencies == lock.rootDependencies
  {
  }

  /** The steps of a compilation that succeeds. */
  ghost predicate Compiles(input: Input, lock: Lock, registry: Text, u: Unsigned, p: Platform)
    requires Sane(p)
  {
    && ReadLock(input.document) == Some(lock) && p.normalizeRegistry(input.registry) == Some(registry)
    && CompileLock(lock, input.settings, registry, p) == Some(u)
    && p.validSettings(input.settings) && LimitOf(input.lowerLimit).Some?
    && Utf8Size(CanonicalText(Show(u, p))) <= LimitOf(input.lowerLimit).value
  }

  lemma {:induction false} UnsignedCompiles(input: Input, p: Platform)
    requires Sane(p) && CompileUnsigned(input, p).Some?
    ensures ReadLock(input.document).Some? && p.normalizeRegistry(input.registry).Some?
    ensures Compiles(input, ReadLock(input.document).value, p.normalizeRegistry(input.registry).value,
                     CompileUnsigned(input, p).value, p)
  {
  }

  lemma {:induction false} FitsMost(n: nat, lower: Option<int>)
    requires LimitOf(lower).Some? && n <= LimitOf(lower).value
    ensures n <= MAX_CANDIDATE_BYTES
  {
  }

  lemma {:induction false} CompilesToCompiled(input: Input, lock: Lock, registry: Text, u: Unsigned, p: Platform)
    requires Sane(p) && Compiles(input, lock, registry, u, p)
    ensures IsCompiled(u, lock, registry, p)
  {
    CompiledKeepsHeader(lock, input.settings, registry, p);
    FitsMost(Utf8Size(CanonicalText(Show(u, p))), input.lowerLimit);
  }

  lemma {:induction false} CompiledPaths(lock: Lock, s: Settings, registry: Text, p: Platform)
    requires Sane(p) && CompileLock(lock, s, registry, p).Some?
    ensures Free(PathsIn(CompileLock(lock, s, registry, p).value.nodes), ROOT_PATH)
  {
    CompiledPathsDiffer(lock, s, registry, p);
  }

  lemma {:induction false} ShownIsSmall(u: Unsigned, lock: Lock, registry: Text, p: Platform)
    requires Sane(p) && IsCompiled(u, lock, registry, p)
    ensures Small(TallyOf(Show(u, p)))
  {
    CompiledIsBounded(lock, u.settings, registry, p);
    BoundedTally(u, p);
    SizeOfCanonicalText(Show(u, p));
  }

  lemma {:induction false} RootIsFlat(u: Unsigned, p: Platform)
    requires Sorts(p)
    ensures Get(Show(u, p), ROOT_DEPENDENCIES).Some?
    ensures TallyOf(Get(Show(u, p), ROOT_DEPENDENCIES).value).height <= 2
  {
    ShownAt(u, p, 11, ROOT_DEPENDENCIES);
    TextsTally(u.rootDependencies, p);
    TallyCounts(ShowMap(u.rootDependencies, ShowText, p));
  }

  lemma {:induction false} ShownHolds(u: Unsigned, p: Platform)
    requires Sorts(p)
    ensures WellFormed(Show(u, p)) && Holds(Show(u, p).members, UNSIGNED_NAMES)
  {
    ShownHasNoDigest(u, p);
  }

  /** The lock rebuilt from a compiled candidate is small, so it is always cloned. */
  lemma {:induction false} RebuiltClones(u: Unsigned, lock: Lock, registry: Text, p: Platform)
    requires Sane(p) && IsCompiled(u, lock, registry, p) && RebuiltDocument(Show(u, p)).Some?
    ensures Clones(RebuiltDocument(Show(u, p)).value, MAX_CANDIDATE_BYTES)
  {
    ShownIsSmall(u, lock, registry, p);
    ShownHolds(u, p);
    RootIsFlat(u, p);
    RebuiltWithin(Show(u, p));
    SmallClones(RebuiltDocument(Show(u, p)).value);
  }

  // ----- Compiling again what was compiled -----

  /**
    * What a claim declares: settings and registry of the candidate, and a document that is cloned and read as its
    * lock.
    */
  ghost predicate DeclaresCompiled(d: Declared, u: Unsigned) {
    && d.settings == u.settings && d.registry == u.registry && Clones(d.document, MAX_CANDIDATE_BYTES)
    && CandidateV2.RebuiltPackages(u.nodes).Some?
    && ReadLock(d.document) == Some(Lock(u.rootDependencies, CandidateV2.RebuiltPackages(u.nodes).value))
  }

  lemma {:induction false} CompiledDeclares(u: Unsigned, lock: Lock, registry: Text, p: Platform)
    requires Sane(p) && IsCompiled(u, lock, registry, p)
    ensures Declares(Show(u, p)).Some? && WellFormed(Declares(Show(u, p)).value.document)
    ensures DeclaresCompiled(Declares(Show(u, p)).value, u)
  {
    CompiledPaths(lock, u.settings, registry, p);
    DeclaresItself(u, p);
    RebuiltClones(u, lock, registry, p);
  }

  lemma {:induction false} AlikeDeclaresCompiled(d: Declared, e: Declared, u: Unsigned)
    requires DeclaresCompiled(d, u) && d.settings == e.settings && d.registry == e.registry
    requires WellFormed(d.document) && WellFormed(e.document) && Alike(d.document, e.document)
    ensures DeclaresCompiled(e, u)
  {
    LockAlike(d.document, e.document);
    ClonesUpToOrder(d.document, e.document, MAX_CANDIDATE_BYTES);
  }

  lemma {:induction false} ClaimDeclares(claimed: Json, u: Unsigned, lock: Lock, registry: Text, p: Platform)
    requires Sane(p) && IsCompiled(u, lock, registry, p) && WellFormed(claimed) && Alike(Show(u, p), claimed)
    ensures Declares(claimed).Some? && DeclaresCompiled(Declares(claimed).value, u)
  {
    CompiledDeclares(u, lock, registry, p);
    ShownHasNoDigest(u, p);
    DeclaresAlike(Show(u, p), claimed);
    AlikeDeclaresCompiled(Declares(Show(u, p)).value, Declares(claimed).value, u);
  }

  lemma {:induction false} DeclaredCompiles(d: Declared, u: Unsigned, lock: Lock, registry: Text, p: Platform)
    requires Sane(p) && IsCompiled(u, lock, registry, p) && DeclaresCompiled(d, u)
    ensures CompileUnsigned(Input(d.settings, d.registry, d.document, None), p) == Some(u)
  {
    CompiledRecompiles(lock, u.settings, registry, p);
    CompiledKeepsHeader(lock, u.settings, registry, p);
  }

  /** Whatever claims a compiled candidate, in any member order, declares what compiles to it again. */
  lemma {:induction false} ClaimRecompiles(claimed: Json, u: Unsigned, lock: Lock, registry: Text, p: Platform)
    requires Sane(p) && IsCompiled(u, lock, registry, p) && WellFormed(claimed) && Alike(Show(u, p), claimed)
    ensures Recompiled(claimed, p) == Some(u)
  {
    ClaimDeclares(claimed, u, lock, registry, p);
    DeclaredCompiles(Declares(claimed).value, u, lock, registry, p);
  }

  // ----- What is accepted -----

  lemma {:induction false} ClaimIsSigned(v: Json, shown: Json, digest: Text)
    requires WellFormed(v) && v.JObject? && TextAt(v, DIGEST_KEY) == Some(digest)
    requires shown.JObject? && WellFormed(shown) && DIGEST_KEY !in Keys(shown.members)
    requires CanonicalText(Claimed(v.members)) == CanonicalText(shown)
    ensures var w := Sign(shown, digest);
            WellFormed(w) && Alike(v, w) && SameUpToOrder(v, w) && CanonicalText(v) == CanonicalText(w)
  {
    SignIs(shown, digest);
    SignedAlike(v, shown, digest);
    AlikeIsSame(Claimed(v.members), shown);
    AlikeIsSame(v, Sign(shown, digest));
  }

  /** The payload, up to order, is this compilation. */
  ghost predicate Answers(v: Json, w: Json, u: Unsigned, p: Platform)
    requires Sane(p)
  {
    w == Signed(u, p) && WellFormed(w) && Alike(v, w) && SameUpToOrder(v, w) && CanonicalText(v) == CanonicalText(w)
  }

  /** What is accepted is answered up to the order of its members, and it is the compilation of what it declares. */
  lemma {:induction false} AcceptedIsRecompiled(v: Json, p: Platform)
    requires Sane(p) && WellFormed(v) && ValidateCandidateV2Payload(v, p).Some?
    ensures v.JObject? && Recompiled(Claimed(v.members), p).Some?
    ensures Answers(v, ValidateCandidateV2Payload(v, p).value, Recompiled(Claimed(v.members), p).value, p)
  {
    var u := Recompiled(Claimed(v.members), p).value;
    ShownHasNoDigest(u, p);
    ClaimIsSigned(v, Show(u, p), DigestOf(u, p));
  }

  // ----- Every compiled candidate is accepted -----

  /** What makes a signed object pass the checks before compilation. */
  ghost predicate Presentable(shown: Json, digest: Text) {
    && shown.JObject? && WellFormed(shown) && ExactKeys(shown.members, UNSIGNED_NAMES, [])
    && DIGEST_KEY !in Keys(shown.members)
    && Get(shown, CONTRACT_KEY) == Some(CONTRACT) && IsSha256(digest) && Small(TallyOf(shown))
    && Utf8Size(CanonicalText(Sign(shown, digest))) <= MAX_CANDIDATE_BYTES
  }

  lemma {:induction false} SignedClones(v: Json, shown: Json, digest: Text)
    requires shown.JObject? && WellFormed(shown) && DIGEST_KEY !in Keys(shown.members) && Small(TallyOf(shown))
    requires Utf8Size(CanonicalText(Sign(shown, digest))) <= MAX_CANDIDATE_BYTES && Alike(v, Sign(shown, digest))
    ensures Clones(v, MAX_CANDIDATE_BYTES)
  {
    SignTally(shown, digest);
    SizeOfCanonicalText(Sign(shown, digest));
    ClonesIff(Sign(shown, digest), MAX_CANDIDATE_BYTES);
    ClonesUpToOrder(v, Sign(shown, digest), MAX_CANDIDATE_BYTES);
  }

  lemma {:induction false} SignedKeys(v: Json, shown: Json, digest: Text)
    requires Presentable(shown, digest) && WellFormed(v) && Alike(v, Sign(shown, digest))
    ensures v.JObject? && ExactKeys(v.members, UNSIGNED_NAMES + [DIGEST_KEY], []) && DIGEST_KEY in Keys(v.members)
  {
    SignIs(shown, digest);
    KeysAlike(v, Sign(shown, digest));
  }

  lemma {:induction false} ClaimedGet(v: Json, key: Text)
    requires v.JObject? && WellFormed(v) && key != DIGEST_KEY
    ensures Get(Claimed(v.members), key) == Get(v, key)
  {
    WithoutKeeps(v.members, DIGEST_KEY);
  }

  lemma {:induction false} SignedContract(v: Json, shown: Json)
    requires v.JObject? && WellFormed(v) && WellFormed(Claimed(v.members)) && WellFormed(shown)
    requires Alike(Claimed(v.members), shown) && Get(shown, CONTRACT_KEY) == Some(CONTRACT)
    ensures HasContract(v)
  {
    ClaimedGet(v, CONTRACT_KEY);
    AlikeGet(Claimed(v.members), shown, CONTRACT_KEY);
  }

  lemma {:induction false} SignedIsWellMade(v: Json, shown: Json, digest: Text)
    requires Presentable(shown, digest) && WellFormed(v) && Alike(v, Sign(shown, digest))
    ensures WellMade(v) && TextAt(v, DIGEST_KEY) == Some(digest)
    ensures WellFormed(Claimed(v.members)) && Alike(Claimed(v.members), shown)
  {
    SignedClones(v, shown, digest);
    SignedKeys(v, shown, digest);
    SignedAlike(v, shown, digest);
    SignedContract(v, shown);
  }

  lemma {:induction false} ShownContract(u: Unsigned, p: Platform)
    requires Sorts(p)
    ensures Get(Show(u, p), CONTRACT_KEY) == Some(CONTRACT)
  {
    ShownAt(u, p, 1, CONTRACT_KEY);
  }

  lemma {:induction false} ShownIsPresentable(u: Unsigned, lock: Lock, registry: Text, p: Platform)
    requires Sane(p) && IsCompiled(u, lock, registry, p) && Utf8Size(CanonicalText(Signed(u, p))) <= MAX_CANDIDATE_BYTES
    ensures Presentable(Show(u, p), DigestOf(u, p))
  {
    ShownHasNoDigest(u, p);
    ShownIsSmall(u, lock, registry, p);
    ShownContract(u, p);
  }

  /** A compiled candidate within the limit is accepted and answered, whatever the member order it comes in. */
  lemma {:induction false} CompilationAccepted(v: Json, u: Unsigned, lock: Lock, registry: Text, p: Platform)
    requires Sane(p) && IsCompiled(u, lock, registry, p) && Utf8Size(CanonicalText(Signed(u, p))) <= MAX_CANDIDATE_BYTES
    requires WellFormed(v) && Alike(v, Signed(u, p))
    ensures ValidateCandidateV2Payload(v, p) == Some(Signed(u, p))
  {
    ShownIsPresentable(u, lock, registry, p);
    SignedIsWellMade(v, Show(u, p), DigestOf(u, p));
    ClaimRecompiles(Claimed(v.members), u, lock, registry, p);
    AlikeIsSame(Claimed(v.members), Show(u, p));
  }

  /** Validating a compiled candidate answers that candidate, whatever it was compiled from. */
  lemma {:induction false} ValidateReturnsCompiled(input: Input, p: Platform)
    requires Sane(p) && CompileCandidate(input, p).Some?
    ensures ValidateCandidateV2Payload(CompileCandidate(input, p).value, p) == CompileCandidate(input, p)
  {
    CandidateIsSigned(input, p);
    var u := CompileUnsigned(input, p).value;
    CompilationAccepted(Signed(u, p), u, ReadLock(input.document).value, p.normalizeRegistry(input.registry).value, p);
  }

  lemma {:induction false} CandidateIsSigned(input: Input, p: Platform)
    requires Sane(p) && CompileCandidate(input, p).Some?
    ensures CompileUnsigned(input, p).Some? && ReadLock(input.document).Some?
        && p.normalizeRegistry(input.registry).Some?
    ensures var u := CompileUnsigned(input, p).value;
            && IsCompiled(u, ReadLock(input.document).value, p.normalizeRegistry(input.registry).value, p)
            && CompileCandidate(input, p).value == Signed(u, p) && WellFormed(Signed(u, p))
            && Utf8Size(CanonicalText(Signed(u, p))) <= MAX_CANDIDATE_BYTES
  {
    UnsignedCompiles(input, p);
    var u := CompileUnsigned(input, p).value;
    CompilesToCompiled(input, ReadLock(input.document).value, p.normalizeRegistry(input.registry).value, u, p);
    FitsMost(Utf8Size(CanonicalText(Signed(u, p))), input.lowerLimit);
    SignedWellFormed(u, p);
  }

  lemma {:induction false} SignedWellFormed(u: Unsigned, p: Platform)
    requires Sorts(p)
    ensures WellFormed(Signed(u, p))
  {
    ShownHasNoDigest(u, p);
    SignIs(Show(u, p), DigestOf(u, p));
  }

  /** The payload is, up to the order of members, what this input compiles to. */
  ghost predicate IsCompilation(v: Json, input: Input, p: Platform)
    requires Sane(p)
  {
    match CompileCandidate(input, p) case None => false case Some(c) => SameUpToOrder(v, c)
  }

  /** The accepted payloads are exactly the compiled candidates, whatever their member order. */
  lemma {:induction false} AcceptsExactlyCompiled(v: Json, p: Platform)
    requires Sane(p) && WellFormed(v)
    ensures ValidateCandidateV2Payload(v, p).Some? <==> exists input :: IsCompilation(v, input, p)
  {
    if ValidateCandidateV2Payload(v, p).Some? {
      AcceptedIsCompilation(v, p);
    }
    if input :| IsCompilation(v, input, p) {
      CompilationIsAccepted(v, input, p);
    }
  }

  lemma {:induction false} CompilationIsAccepted(v: Json, input: Input, p: Platform)
    requires Sane(p) && WellFormed(v) && IsCompilation(v, input, p)
    ensures ValidateCandidateV2Payload(v, p) == CompileCandidate(input, p)
  {
    CandidateIsSigned(input, p);
    var u := CompileUnsigned(input, p).value;
    AlikeIsSame(v, Signed(u, p));
    CompilationAccepted(v, u, ReadLock(input.document).value, p.normalizeRegistry(input.registry).value, p);
  }

  lemma {:induction false} AcceptedIsCompilation(v: Json, p: Platform)
    requires Sane(p) && WellFormed(v) && ValidateCandidateV2Payload(v, p).Some?
    ensures v.JObject? && Declares(Claimed(v.members)).Some?
    ensures var d := Declares(Claimed(v.members)).value;
            IsCompilation(v, Input(d.settings, d.registry, d.document, None), p)
  {
    AcceptedIsRecompiled(v, p);
  }

  // ----- What follows -----

  /** The order of members decides nothing: neither acceptance nor the answer. */
  lemma {:induction false} ValidationIsOrderBlind(v: Json, w: Json, p: Platform)
    requires Sane(p) && WellFormed(v) && WellFormed(w) && SameUpToOrder(v, w)
    ensures ValidateCandidateV2Payload(v, p) == ValidateCandidateV2Payload(w, p)
  {
    AlikeIsSame(v, w);
    if ValidateCandidateV2Payload(v, p).Some? {
      AcceptedElsewhere(v, w, p);
    } else if ValidateCandidateV2Payload(w, p).Some? {
      AcceptedElsewhere(w, v, p);
    }
  }

  lemma {:induction false} AcceptedElsewhere(v: Json, w: Json, p: Platform)
    requires Sane(p) && WellFormed(v) && WellFormed(w) && Alike(v, w) && ValidateCandidateV2Payload(v, p).Some?
    ensures ValidateCandidateV2Payload(w, p) == ValidateCandidateV2Payload(v, p)
  {
    AcceptedIsRecompiled(v, p);
    AcceptedIsCompilation(v, p);
    var d := Declares(Claimed(v.members)).value;
    var input := Input(d.settings, d.registry, d.document, None);
    var c := CompileCandidate(input, p).value;
    CandidateIsSigned(input, p);
    AlikeIsSame(v, c);
    AlikeIsSame(w, c);
    CompilationIsAccepted(v, input, p);
    CompilationIsAccepted(w, input, p);
  }

  /** The payloads declare the same settings, registry and lock. */
  ghost predicate DeclareAlike(v: Json, w: Json) {
    match (Declares(v), Declares(w))
    case (Some(d), Some(e)) =>
      d.settings == e.settings && d.registry == e.registry && ReadLock(d.document) == ReadLock(e.document)
    case _ => false
  }

  lemma {:induction false} RecompiledAlike(v: Json, w: Json, p: Platform)
    requires Sane(p) && DeclareAlike(v, w) && Recompiled(v, p).Some? && Recompiled(w, p).Some?
    ensures Recompiled(v, p) == Recompiled(w, p)
  {
  }

  /**
    * No payload can assert parts of its own: accepted payloads with the same declarations are equal up to member
    * order.
    */
  lemma {:induction false} DerivedPartsAreDetermined(v: Json, w: Json, p: Platform)
    requires Sane(p) && WellFormed(v) && WellFormed(w)
    requires ValidateCandidateV2Payload(v, p).Some? && ValidateCandidateV2Payload(w, p).Some?
    requires v.JObject? && w.JObject? && DeclareAlike(Claimed(v.members), Claimed(w.members))
    ensures SameUpToOrder(v, w) && ValidateCandidateV2Payload(v, p) == ValidateCandidateV2Payload(w, p)
  {
    AcceptedIsRecompiled(v, p);
    AcceptedIsRecompiled(w, p);
    RecompiledAlike(Claimed(v.members), Claimed(w.members), p);
    AlikeIsSame(v, w);
  }
}
