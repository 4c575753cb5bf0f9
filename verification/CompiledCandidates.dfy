/** Exactly which inputs compile to which candidate, and that the candidate's JSON tells every part of it. */
module CompiledCandidates {
  import opened Options
  import opened Sequences
  import opened JsonText
  import opened JsonValues
  import opened CanonicalJson
  import opened JsonTally
  import opened JsonObjects
  import opened Utf8
  import opened Utf16
  import opened CandidateV2
  import opened LockDocuments
  import opened LockReading
  import opened CandidateLayout
  import opened CandidateReading
  import opened RebuiltLock
  import opened CandidateValidation

  // ----- What compiles -----

  /** The limit on bytes: four MiB, or a positive lower one. */
  ghost predicate HasLimit(lower: Option<int>, limit: int) {
    match lower case None => limit == 4 * 1024 * 1024 case Some(n) => limit == n && 0 < n <= 4 * 1024 * 1024
  }

  /** A document of at most 50000 values on 65 levels, whose canonical text is within the limit. */
  predicate Bounded(document: Json, limit: int) {
    && TallyOf(document).visits <= 50_000 && TallyOf(document).height <= 65
    && Utf8Size(CanonicalText(document)) <= limit
  }

  /** The input is within its limit, and its document shows a lock that compiles, under its settings, to this. */
  ghost predicate Admits(input: Input, limit: int, lock: Lock, registry: Text, u: Unsigned, p: Platform)
    requires Sane(p)
  {
    && HasLimit(input.lowerLimit, limit) && Bounded(input.document, limit) && ShowsLock(input.document, lock)
    && p.validSettings(input.settings) && p.normalizeRegistry(input.registry) == Some(registry)
    && CompileLock(lock, input.settings, registry, p) == Some(u)
  }

  /** The members of the candidate, and under one more name the hash of their canonical text. */
  ghost predicate IsSigned(c: Json, u: Unsigned, p: Platform)
    requires Sorts(p)
  {
    && c.JObject? && Keys(c.members) == Keys(Show(u, p).members) + {Units("candidateDigest")}
    && JObject(Without(c.members, Units("candidateDigest"))) == Show(u, p)
    && Lookup(c.members, Units("candidateDigest")) == JString(p.sha(CanonicalText(Show(u, p))))
  }

  lemma {:induction false} SignedIsLarger(u: Unsigned, p: Platform)
    requires Sorts(p)
    ensures IsSigned(Signed(u, p), u, p)
    ensures Utf8Size(CanonicalText(Show(u, p))) <= Utf8Size(CanonicalText(Signed(u, p)))
  {
    var shown, digest := Show(u, p), DigestOf(u, p);
    ShownHasNoDigest(u, p);
    SignIs(shown, digest);
    TakeOut(Sign(shown, digest).members, DIGEST_KEY);
    SizeOfCanonicalText(shown);
    SizeOfCanonicalText(Sign(shown, digest));
  }

  lemma BoundedIsCloned(document: Json, limit: nat)
    ensures Bounded(document, limit) <==> Clones(document, limit)
  {
    ClonesIff(document, limit);
    SizeOfCanonicalText(document);
  }

  lemma LimitIs(lower: Option<int>, limit: int)
    ensures HasLimit(lower, limit) <==> limit >= 0 && LimitOf(lower) == Some(limit)
  {
  }

  /** The steps of a compilation that succeeds, before it is signed. */
  lemma {:induction false} UnsignedIsAdmitted(input: Input, u: Unsigned, p: Platform)
    returns (limit: nat, lock: Lock, registry: Text)
    requires Sane(p) && WellFormed(input.document) && CompileUnsigned(input, p) == Some(u)
    ensures Admits(input, limit, lock, registry, u, p) && LimitOf(input.lowerLimit) == Some(limit)
  {
    limit, registry := LimitOf(input.lowerLimit).value, p.normalizeRegistry(input.registry).value;
    lock := ReadLock(input.document).value;
    ReadsLockIff(input.document, lock);
    BoundedIsCloned(input.document, limit);
    LimitIs(input.lowerLimit, limit);
  }

  lemma {:induction false} AdmittedCompiles(input: Input, limit: int, lock: Lock, registry: Text, u: Unsigned,
                                            p: Platform)
    requires Sane(p) && WellFormed(input.document) && Admits(input, limit, lock, registry, u, p)
    requires Utf8Size(CanonicalText(Show(u, p))) <= limit
    ensures LimitOf(input.lowerLimit) == Some(limit) && CompileUnsigned(input, p) == Some(u)
  {
    LimitIs(input.lowerLimit, limit);
    ReadsLockIff(input.document, lock);
    BoundedIsCloned(input.document, limit);
  }

  /** The candidate made of an admitted input, within its limit. */
  ghost predicate Makes(input: Input, limit: int, lock: Lock, registry: Text, u: Unsigned, c: Json, p: Platform)
    requires Sane(p)
  {
    Admits(input, limit, lock, registry, u, p) && c == Signed(u, p) && Utf8Size(CanonicalText(c)) <= limit
  }

  lemma {:induction false} CandidateIsMade(input: Input, c: Json, p: Platform)
    returns (limit: nat, lock: Lock, registry: Text, u: Unsigned)
    requires Sane(p) && WellFormed(input.document) && CompileCandidate(input, p) == Some(c)
    ensures Makes(input, limit, lock, registry, u, c, p)
  {
    u := CompileUnsigned(input, p).value;
    limit, lock, registry := UnsignedIsAdmitted(input, u, p);
  }

  lemma {:induction false} MadeIsCandidate(input: Input, limit: int, lock: Lock, registry: Text, u: Unsigned, c: Json,
                                           p: Platform)
    requires Sane(p) && WellFormed(input.document) && Makes(input, limit, lock, registry, u, c, p)
    ensures CompileCandidate(input, p) == Some(c) && IsSigned(c, u, p)
  {
    SignedIsLarger(u, p);
    AdmittedCompiles(input, limit, lock, registry, u, p);
  }

  /**
    * Exactly the inputs compile that are within the limit and whose document shows a lock that compiles, and then to
    * the one candidate made of it, signed, if that is within the limit too.
    */
  lemma {:induction false} CompilesCandidateIff(input: Input, c: Json, p: Platform)
    requires Sane(p) && WellFormed(input.document)
    ensures CompileCandidate(input, p) == Some(c) <==>
            exists limit, lock, registry, u :: Makes(input, limit, lock, registry, u, c, p)
  {
    if CompileCandidate(input, p) == Some(c) {
      var limit, lock, registry, u := CandidateIsMade(input, c, p);
    }
    if limit, lock, registry, u :| Makes(input, limit, lock, registry, u, c, p) {
      MadeIsCandidate(input, limit, lock, registry, u, c, p);
    }
  }

  lemma {:induction false} MadeUnder(input: Input, other: Input, limit: int, lower: int, lock: Lock, registry: Text,
                                     u: Unsigned, c: Json, p: Platform)
    requires Sane(p) && Makes(input, limit, lock, registry, u, c, p)
    requires other == input.(lowerLimit := other.lowerLimit) && HasLimit(other.lowerLimit, lower)
    ensures Makes(other, lower, lock, registry, u, c, p) <==>
            Utf8Size(CanonicalText(input.document)) <= lower && Utf8Size(CanonicalText(c)) <= lower
  {
  }

  lemma {:induction false} CompilesUnder(input: Input, other: Input, lower: int, c: Json, p: Platform)
    requires Sane(p) && WellFormed(input.document) && CompileCandidate(input, p) == Some(c)
    requires other == input.(lowerLimit := other.lowerLimit) && HasLimit(other.lowerLimit, lower)
    ensures exists limit :: && HasLimit(input.lowerLimit, limit)
                            && Utf8Size(CanonicalText(input.document)) <= limit && Utf8Size(CanonicalText(c)) <= limit
    ensures Utf8Size(CanonicalText(input.document)) <= lower && Utf8Size(CanonicalText(c)) <= lower ==>
              CompileCandidate(other, p) == Some(c)
  {
    var limit, lock, registry, u := CandidateIsMade(input, c, p);
    MadeUnder(input, other, limit, lower, lock, registry, u, c, p);
    if Makes(other, lower, lock, registry, u, c, p) {
      MadeIsCandidate(other, lower, lock, registry, u, c, p);
    }
  }

  /** A lower limit only refuses: what compiles under one compiles without, to the same candidate. */
  lemma {:induction false} LowerLimitOnlyRefuses(input: Input, n: int, c: Json, p: Platform)
    requires Sane(p) && WellFormed(input.document)
    ensures CompileCandidate(input.(lowerLimit := Some(n)), p) == Some(c) <==>
            && 0 < n <= 4 * 1024 * 1024 && CompileCandidate(input.(lowerLimit := None), p) == Some(c)
            && Utf8Size(CanonicalText(input.document)) <= n && Utf8Size(CanonicalText(c)) <= n
  {
    var low, high := input.(lowerLimit := Some(n)), input.(lowerLimit := None);
    if CompileCandidate(low, p) == Some(c) {
      CompilesUnder(low, high, 4 * 1024 * 1024, c, p);
    } else if 0 < n <= 4 * 1024 * 1024 && CompileCandidate(high, p) == Some(c)
      && Utf8Size(CanonicalText(input.document)) <= n && Utf8Size(CanonicalText(c)) <= n {
      CompilesUnder(high, low, n, c, p);
    }
  }

  // ----- What the JSON tells -----

  lemma {:induction false} AlikeNamed(names: seq<Text>, a: seq<Json>, b: seq<Json>)
    requires |names| == |a| == |b| && Distinct(names) && AllWellFormed(a) && AllWellFormed(b)
    requires Alike(Named(names, a), Named(names, b))
    ensures forall j :: 0 <= j < |names| ==> Alike(a[j], b[j])
  {
    NamedIs(names, a);
    NamedIs(names, b);
    forall j | 0 <= j < |names| ensures Alike(a[j], b[j]) {
      AlikeGet(Named(names, a), Named(names, b), names[j]);
    }
  }

  lemma {:induction false} AlikeItems(a: seq<Json>, b: seq<Json>, i: nat)
    requires i <= |a| && i <= |b| && SortItems(ItemsFrom(a, i)) == SortItems(ItemsFrom(b, i))
    ensures |a| == |b| && forall j :: i <= j < |a| ==> Alike(a[j], b[j])
    decreases |a| - i
  {
    if i < |a| && i < |b| {
      AlikeItems(a, b, i + 1);
    }
  }

  lemma {:induction false} AlikeTexts(m: map<string, Text>, n: map<string, Text>, p: Platform)
    requires Sorts(p) && Alike(ShowMap(m, ShowText, p), ShowMap(n, ShowText, p))
    ensures m == n
  {
    TextsAreRead(m, p);
    TextsAreRead(n, p);
    TextIsOrderBlind();
    ReadMapAlike(ShowMap(m, ShowText, p).members, ShowMap(n, ShowText, p).members, ReadText);
  }

  lemma {:induction false} AlikeMarks(m: MetaDeclarations, n: MetaDeclarations, p: Platform)
    requires Sorts(p) && Alike(ShowMap(m, ShowMark, p), ShowMap(n, ShowMark, p))
    ensures m == n
  {
    MarksAreRead(m, p);
    MarksAreRead(n, p);
    MarkIsOrderBlind();
    ReadMapAlike(ShowMap(m, ShowMark, p).members, ShowMap(n, ShowMark, p).members, ReadMark);
  }

  lemma AlikeStrings(s: string, t: string)
    requires Alike(Str(s), Str(t))
    ensures s == t
  {
    ToTextInjective(s, t);
  }

  lemma {:induction false} EdgeTold(e: Edge, f: Edge)
    requires Alike(ShowEdge(e), ShowEdge(f))
    ensures e == f
  {
    var a := [Str(e.packageName), JString(e.declaredSpecifier), Str(e.installPath)];
    var b := [Str(f.packageName), JString(f.declaredSpecifier), Str(f.installPath)];
    SmallNamesDiffer();
    AlikeNamed(EDGE_NAMES, a, b);
    assert Alike(a[0], b[0]) && Alike(a[1], b[1]) && Alike(a[2], b[2]);
    AlikeStrings(e.packageName, f.packageName);
    AlikeStrings(e.installPath, f.installPath);
  }

  lemma {:induction false} ResolutionShown(r: Resolution)
    ensures WellFormed(ShowResolution(r))
    ensures Get(ShowResolution(r), KIND) == Some(JString(if r.Absent? then Units("absent") else Units("present")))
  {
    SmallNamesDiffer();
    match r {
      case Absent =>
        NamedIs([KIND], [JString(Units("absent"))]);
        assert [KIND][0] == KIND && [JString(Units("absent"))][0] == JString(Units("absent"));
      case Present(path, version) =>
        NamedIs(PRESENT_NAMES, [JString(Units("present")), Str(path), JString(version)]);
        assert PRESENT_NAMES[0] == KIND;
    }
  }

  lemma {:induction false} ResolutionTold(r: Resolution, q: Resolution)
    requires Alike(ShowResolution(r), ShowResolution(q))
    ensures r == q
  {
    ResolutionShown(r);
    ResolutionShown(q);
    AlikeGet(ShowResolution(r), ShowResolution(q), KIND);
    assert |Units("absent")| == 6 && |Units("present")| == 7;
    if r.Present? && q.Present? {
      var a := [JString(Units("present")), Str(r.installPath), JString(r.exactVersion)];
      var b := [JString(Units("present")), Str(q.installPath), JString(q.exactVersion)];
      SmallNamesDiffer();
      AlikeNamed(PRESENT_NAMES, a, b);
      assert Alike(a[1], b[1]) && Alike(a[2], b[2]);
      AlikeStrings(r.installPath, q.installPath);
    }
  }

  lemma {:induction false} RequirementTold(r: Requirement, q: Requirement)
    requires Alike(ShowRequirement(r), ShowRequirement(q))
    ensures r == q
  {
    var a := [Str(r.packageName), JString(r.declaredSpecifier), JBool(r.optional), ShowResolution(r.resolution)];
    var b := [Str(q.packageName), JString(q.declaredSpecifier), JBool(q.optional), ShowResolution(q.resolution)];
    SmallNamesDiffer();
    ResolutionShown(r.resolution);
    ResolutionShown(q.resolution);
    AlikeNamed(REQUIREMENT_NAMES, a, b);
    assert Alike(a[0], b[0]) && Alike(a[1], b[1]) && Alike(a[2], b[2]) && Alike(a[3], b[3]);
    AlikeStrings(r.packageName, q.packageName);
    ResolutionTold(r.resolution, q.resolution);
  }

  lemma {:induction false} EdgesTold(es: seq<Edge>, fs: seq<Edge>)
    requires Alike(Array(ShowEdges(es)), Array(ShowEdges(fs)))
    ensures es == fs
  {
    AlikeItems(ShowEdges(es), ShowEdges(fs), 0);
    forall i | 0 <= i < |es| ensures es[i] == fs[i] {
      EdgeTold(es[i], fs[i]);
    }
  }

  lemma {:induction false} RequirementsTold(rs: seq<Requirement>, qs: seq<Requirement>)
    requires Alike(Array(ShowRequirements(rs)), Array(ShowRequirements(qs)))
    ensures rs == qs
  {
    AlikeItems(ShowRequirements(rs), ShowRequirements(qs), 0);
    forall i | 0 <= i < |rs| ensures rs[i] == qs[i] {
      RequirementTold(rs[i], qs[i]);
    }
  }

  /** The values of two nodes are alike, one by one. */
  lemma {:induction false} NodeValuesAlike(n: Node, m: Node, p: Platform)
    requires Sorts(p) && Alike(ShowNode(n, p), ShowNode(m, p))
    ensures forall j :: 0 <= j < |NODE_NAMES| ==> Alike(NodeValues(n, p)[j], NodeValues(m, p)[j])
    ensures n.raw.peerFlag == m.raw.peerFlag
  {
    NodeIs(n, p);
    NodeIs(m, p);
    forall j | 0 <= j < |NODE_NAMES| ensures Alike(NodeValues(n, p)[j], NodeValues(m, p)[j]) {
      AlikeGet(ShowNode(n, p), ShowNode(m, p), NODE_NAMES[j]);
    }
    AlikeGet(ShowNode(n, p), ShowNode(m, p), PEER_FLAG);
  }

  lemma {:induction false} NodeTold(n: Node, m: Node, p: Platform)
    requires Sorts(p) && Alike(ShowNode(n, p), ShowNode(m, p))
    ensures n == m
  {
    NodeValuesAlike(n, m, p);
    var a, b := NodeValues(n, p), NodeValues(m, p);
    assert Alike(a[0], b[0]) && Alike(a[1], b[1]) && Alike(a[2], b[2]) && Alike(a[3], b[3]) && Alike(a[4], b[4]);
    assert Alike(a[6], b[6]) && Alike(a[7], b[7]) && Alike(a[8], b[8]) && Alike(a[9], b[9]) && Alike(a[10], b[10]);
    assert Alike(a[11], b[11]) && Alike(a[12], b[12]) && Alike(a[14], b[14]);
    AlikeStrings(n.raw.path, m.raw.path);
    AlikeStrings(n.raw.packageName, m.raw.packageName);
    AlikeTexts(n.raw.dependencies, m.raw.dependencies, p);
    AlikeTexts(n.raw.peers, m.raw.peers, p);
    AlikeMarks(n.raw.meta, m.raw.meta, p);
    EdgesTold(n.edges, m.edges);
    RequirementsTold(n.requirements, m.requirements);
  }

  lemma {:induction false} NodesTold(ns: seq<Node>, ms: seq<Node>, p: Platform)
    requires Sorts(p) && Alike(Array(ShowNodes(ns, p)), Array(ShowNodes(ms, p)))
    ensures ns == ms
  {
    AlikeItems(ShowNodes(ns, p), ShowNodes(ms, p), 0);
    forall i | 0 <= i < |ns| ensures ns[i] == ms[i] {
      NodeTold(ns[i], ms[i], p);
    }
  }

  lemma {:induction false} SettingsTold(u: Unsigned, w: Unsigned, p: Platform)
    requires Sorts(p) && Alike(Show(u, p), Show(w, p)) && WellFormed(Show(u, p)) && WellFormed(Show(w, p))
    ensures u.settings == w.settings
  {
    var a, b := Show(u, p), Show(w, p);
    ShownSettings(u, p);
    ShownSettings(w, p);
    HeldSettingsAreRead(a, u.settings);
    HeldSettingsAreRead(b, w.settings);
    SettingsLeavesAlike(a, b);
    SettingsPartsAlike(a, b);
    SettingsAlike(a, b);
  }

  /** Up to the order of members, the JSON of a candidate tells every part of it, derived parts included. */
  lemma {:induction false} LayoutTellsAll(u: Unsigned, w: Unsigned, p: Platform)
    requires Sorts(p) && Alike(Show(u, p), Show(w, p))
    ensures u == w
  {
    ShowIs(u, p);
    ShowIs(w, p);
    var a, b := UnsignedValues(u, p), UnsignedValues(w, p);
    forall j | 0 <= j < |UNSIGNED_NAMES| ensures Alike(a[j], b[j]) {
      AlikeGet(Show(u, p), Show(w, p), UNSIGNED_NAMES[j]);
    }
    SettingsTold(u, w, p);
    assert Alike(a[5], b[5]) && Alike(a[11], b[11]) && Alike(a[12], b[12]);
    AlikeTexts(u.rootDependencies, w.rootDependencies, p);
    NodesTold(u.nodes, w.nodes, p);
  }

  /** Two candidates have the same canonical text exactly when they are the same, part by part. */
  lemma {:induction false} TextTellsCandidate(u: Unsigned, w: Unsigned, p: Platform)
    requires Sorts(p)
    ensures CanonicalText(Signed(u, p)) == CanonicalText(Signed(w, p)) <==> u == w
  {
    if CanonicalText(Signed(u, p)) == CanonicalText(Signed(w, p)) {
      ShownHasNoDigest(u, p);
      ShownHasNoDigest(w, p);
      SignIs(Show(u, p), DigestOf(u, p));
      SignIs(Show(w, p), DigestOf(w, p));
      AlikeIsSame(Signed(u, p), Signed(w, p));
      SignedAlike(Signed(u, p), Show(w, p), DigestOf(w, p));
      LayoutTellsAll(u, w, p);
    }
  }
}
