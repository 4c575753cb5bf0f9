/** How large the lock rebuilt from a payload can be: it counts for no more values and bytes than the payload. */
module RebuiltSize {
  import opened Numbers
  import opened Options
  import opened Sequences
  import opened JsonText
  import opened JsonTokens
  import opened JsonValues
  import opened CanonicalJson
  import opened JsonTally
  import opened JsonObjects
  import opened JsonCollecting
  import opened LockDocuments
  import opened CandidateLayout
  import opened CandidateReading
  import opened RebuiltLock

  // ----- Names as strings -----

  /** Printable ASCII that needs no escape. */
  predicate PlainString(s: string) {
    forall i :: 0 <= i < |s| ==> ' ' <= s[i] <= '~' && s[i] != '"' && s[i] != '\\'
  }

  ghost predicate PlainText(t: Text) {
    forall i :: 0 <= i < |t| ==> 0x20 <= t[i] < 0x7F && t[i] != QUOTE && t[i] != BACKSLASH
  }

  lemma {:induction false} PlainSize(t: Text)
    requires PlainText(t)
    ensures EscapedSize(t) == |t|
    decreases |t|
  {
    if t != [] {
      PlainSize(t[1..]);
    }
  }

  lemma {:induction false} PlainName(s: string)
    requires PlainString(s)
    ensures StringSize(Units(s)) == 2 + |s|
  {
    PlainSize(Units(s));
  }

  lemma {:induction false} AtLeastItsLength(t: Text)
    ensures StringSize(t) >= 2 + |t|
  {
    EscapingGrows(t);
  }

  /** The text is this plain string. */
  ghost predicate Spelled(t: Text, s: string) {
    t == Units(s) && PlainString(s)
  }

  // ----- The record of a node -----

  ghost predicate NoLonger(r: Renaming, s: string) {
    r.renamed == r.original || (Spelled(r.renamed, s) && |s| <= |r.original|)
  }

  ghost predicate ShortNames(table: seq<Renaming>) {
    forall j :: 0 <= j < |table| ==> StringSize(table[j].renamed) <= StringSize(table[j].original)
  }

  lemma {:induction false} NoLongerInSize(table: seq<Renaming>, names: seq<string>)
    requires |table| == |names| && forall j :: 0 <= j < |table| ==> NoLonger(table[j], names[j])
    ensures ShortNames(table)
  {
    forall j | 0 <= j < |table| ensures StringSize(table[j].renamed) <= StringSize(table[j].original) {
      if table[j].renamed != table[j].original {
        PlainName(names[j]);
        AtLeastItsLength(table[j].original);
      }
    }
  }

  const RECORD_STRINGS: seq<string> :=
    ["version", "resolved", "integrity", "dependencies", "peerDependencies", "peerDependenciesMeta", "peer"]

  lemma {:induction false} RetainedLengths()
    ensures |RETAINED[0].original| == 12 && |RETAINED[1].original| == 10 && |RETAINED[2].original| == 15
    ensures |RETAINED[3].original| == 22 && |RETAINED[4].original| == 26 && |RETAINED[6].original| == 8
  {
  }

  lemma {:induction false} RetainedNoLonger(j: nat)
    requires j < |RETAINED|
    ensures NoLonger(RETAINED[j], RECORD_STRINGS[j])
  {
    RetainedLengths();
  }

  lemma {:induction false} RetainedShort()
    ensures ShortNames(RETAINED)
  {
    forall j | 0 <= j < |RETAINED| ensures NoLonger(RETAINED[j], RECORD_STRINGS[j]) {
      RetainedNoLonger(j);
    }
    NoLongerInSize(RETAINED, RECORD_STRINGS);
  }

  /** A path with the record kept beside it counts for no more than the node that holds both. */
  lemma {:induction false} NodeWithin(ms: Members, pathKey: Text, path: Text, table: seq<Renaming>, keep: seq<bool>)
    requires MembersWellFormed(ms) && pathKey in Keys(ms) && Lookup(ms, pathKey) == JString(path) && |pathKey| >= 2
    requires CanKeep(ms, table, keep, 0) && GoodTable(table) && ShortNames(table)
    requires forall j :: 0 <= j < |table| ==> table[j].original != pathKey
    ensures AtMost(Keyed(path, TallyOf(JObject(Kept(ms, table, keep, 0)))), Listed(TallyOf(JObject(ms))))
  {
    var others := Without(ms, pathKey);
    TakeOut(ms, pathKey);
    WithoutKeeps(ms, pathKey);
    KeptSame(ms, others, table, keep, 0);
    KeptWithin(others, table, keep, 0);
    AtLeastItsLength(pathKey);
  }

  lemma {:induction false} PathIsNotKept()
    ensures |INSTALL_PATH| == 11 && forall j :: 0 <= j < |RETAINED| ==> RETAINED[j].original != INSTALL_PATH
  {
    assert |INSTALL_PATH| == 11;
    RetainedLengths();
    assert |RETAINED[5].original| == 20;
  }

  lemma {:induction false} RecordWithin(v: Json)
    requires WellFormed(v) && InstallPathOf(v).Some? && RebuiltRecord(v).Some?
    ensures AtMost(Keyed(InstallPathOf(v).value, TallyOf(RebuiltRecord(v).value)), Listed(TallyOf(v)))
  {
    KeepsCanKeep(v);
    RetainedDiffer();
    RetainedShort();
    PathIsNotKept();
    NodeWithin(v.members, INSTALL_PATH, InstallPathOf(v).value, RETAINED, Keeps(v).value);
  }

  lemma {:induction false} RebuildingShrinks()
    ensures Shrinks(InstallPathOf, RebuiltRecord)
  {
    forall v | WellFormed(v) && InstallPathOf(v).Some? && RebuiltRecord(v).Some?
      ensures AtMost(Keyed(InstallPathOf(v).value, TallyOf(RebuiltRecord(v).value)), Listed(TallyOf(v))) {
      RecordWithin(v);
    }
  }

  /** The packages count for no more than the list of nodes. */
  lemma {:induction false} PackagesWithin(items: Items)
    requires ItemsWellFormed(items) && PackagesFrom(items).Some?
    ensures AtMost(MembersTally(PackagesFrom(items).value), ItemsTally(items))
  {
    RebuildingShrinks();
    CollectWithin(items, ROOT_PATH, InstallPathOf, RebuiltRecord);
  }

  // ----- The rest of the document -----

  ghost predicate AllSpelled(names: seq<Text>, strings: seq<string>) {
    |names| == |strings| && forall j :: 0 <= j < |names| ==> Spelled(names[j], strings[j])
  }

  /** The value is this plain string. */
  ghost predicate Says(v: Json, s: string) {
    v.JString? && Spelled(v.s, s)
  }

  lemma {:induction false} RootTally(names: seq<Text>, strings: seq<string>, a: Json, x: string, b: Json, y: string,
                                     r: Json)
    requires AllSpelled(names, strings) && Says(a, x) && Says(b, y)
    requires |strings| == 3 && |strings[0]| == 4 && |strings[1]| == 7 && |strings[2]| == 12 && |x| == 12 && |y| == 5
    ensures var t := TallyOf(Named(names, [a, b, r]));
            t.visits == 3 + TallyOf(r).visits && t.height == 1 + TallyOf(r).height && t.size == 57 + TallyOf(r).size
  {
    NameSizes(names, strings);
    SaysTally(a, x);
    SaysTally(b, y);
    var values := [a, b, r];
    assert MembersTally(NamedFrom(names, values, 3)) == NOTHING;
    OneMoreTally(names, values, 2);
    OneMoreTally(names, values, 1);
    OneMoreTally(names, values, 0);
  }

  lemma {:induction false} OneMoreTally(names: seq<Text>, values: seq<Json>, i: nat)
    requires i < |names| == |values|
    ensures MembersTally(NamedFrom(names, values, i)) ==
            Plus(Keyed(names[i], TallyOf(values[i])), MembersTally(NamedFrom(names, values, i + 1)))
  {
  }

  /** Strings of the lengths that the member names of a lock document have. */
  ghost predicate LockLengths(strings: seq<string>) {
    && |strings| == 5 && |strings[0]| == 4 && |strings[1]| == 7 && |strings[2]| == 15
    && |strings[3]| == 8 && |strings[4]| == 8
  }

  /** Names and values of the sizes that the members of a lock document have, but for the last. */
  ghost predicate LockSizes(names: seq<Text>, values: seq<Json>) {
    && |names| == |values| == 5 && StringSize(names[0]) == 6 && StringSize(names[1]) == 9 && StringSize(names[2]) == 17
    && StringSize(names[3]) == 10 && StringSize(names[4]) == 10
    && TallyOf(values[0]).size == 14 && TallyOf(values[1]).size == 7 && TallyOf(values[2]).size == 1
    && TallyOf(values[3]).size == 4
    && forall i :: 0 <= i < 4 ==> TallyOf(values[i]).visits == 1 && TallyOf(values[i]).height == 1
  }

  lemma {:induction false} FiveTally(names: seq<Text>, values: seq<Json>)
    requires LockSizes(names, values)
    ensures var t := TallyOf(Named(names, values));
            && t.visits == 5 + TallyOf(values[4]).visits && t.height == 1 + TallyOf(values[4]).height
            && t.size == 89 + TallyOf(values[4]).size
  {
    assert MembersTally(NamedFrom(names, values, 5)) == NOTHING;
    OneMoreTally(names, values, 4);
    OneMoreTally(names, values, 3);
    OneMoreTally(names, values, 2);
    OneMoreTally(names, values, 1);
    OneMoreTally(names, values, 0);
  }

  lemma {:induction false} SaysTally(v: Json, s: string)
    requires Says(v, s)
    ensures TallyOf(v).visits == 1 && TallyOf(v).height == 1 && TallyOf(v).size == 2 + |s|
  {
    PlainName(s);
  }

  lemma {:induction false} DigitTally(n: SafeInteger)
    requires 0 <= n < 10
    ensures TallyOf(JInt(n)).visits == 1 && TallyOf(JInt(n)).height == 1 && TallyOf(JInt(n)).size == 1
  {
  }

  lemma {:induction false} NameSizes(names: seq<Text>, strings: seq<string>)
    requires AllSpelled(names, strings)
    ensures forall j :: 0 <= j < |names| ==> StringSize(names[j]) == 2 + |strings[j]|
  {
    forall j | 0 <= j < |names| ensures StringSize(names[j]) == 2 + |strings[j]| {
      PlainName(strings[j]);
    }
  }

  lemma {:induction false} DocumentSizes(names: seq<Text>, strings: seq<string>, a: Json, x: string, b: Json, y: string,
                                         n: SafeInteger, all: Json)
    requires AllSpelled(names, strings) && LockLengths(strings) && Says(a, x) && Says(b, y) && |x| == 12 && |y| == 5
        && 0 <= n < 10
    ensures LockSizes(names, [a, b, JInt(n), JBool(true), all])
  {
    NameSizes(names, strings);
    SaysTally(a, x);
    SaysTally(b, y);
    DigitTally(n);
  }

  lemma {:induction false} PackagesTally(key: Text, root: Json, packages: Members)
    requires key == []
    ensures var t := TallyOf(JObject(Member(key, root, packages)));
            && t.visits == 1 + TallyOf(root).visits + MembersTally(packages).visits
            && t.height == 1 + Max(TallyOf(root).height, MembersTally(packages).height)
            && t.size == 5 + TallyOf(root).size + MembersTally(packages).size
  {
  }

  const LOCK_STRINGS: seq<string> := ["name", "version", "lockfileVersion", "requires", "packages"]
  const ROOT_STRINGS: seq<string> := ["name", "version", "dependencies"]

  lemma {:induction false} LockNamesSpelled()
    ensures AllSpelled(LOCK_NAMES, LOCK_STRINGS) && AllSpelled(REBUILT_ROOT_NAMES, ROOT_STRINGS)
  {
  }

  /** What a lock document counts for, by its root dependencies and its packages. */
  ghost predicate LockCounts(t: Tally, r: Tally, packages: Tally) {
    && t.visits == 9 + r.visits + packages.visits && t.height == Max(3 + r.height, 2 + packages.height)
    && t.size == 151 + r.size + packages.size
  }

  lemma {:induction false} LockTally(names: seq<Text>, strings: seq<string>, rootNames: seq<Text>,
                                     rootStrings: seq<string>,
                                     a: Json, x: string, b: Json, y: string, n: SafeInteger, key: Text, r: Json,
                                       packages: Members)
    requires AllSpelled(names, strings) && LockLengths(strings) && AllSpelled(rootNames, rootStrings)
        && |rootStrings| == 3
    requires |rootStrings[0]| == 4 && |rootStrings[1]| == 7 && |rootStrings[2]| == 12
    requires Says(a, x) && Says(b, y) && |x| == 12 && |y| == 5 && 0 <= n < 10 && key == []
    ensures LockCounts(TallyOf(Named(names,
                                     [a, b, JInt(n), JBool(true), JObject(Member(key, Named(rootNames, [a, b, r]),
                                         packages))])),
                       TallyOf(r), MembersTally(packages))
  {
    var root := Named(rootNames, [a, b, r]);
    RootTally(rootNames, rootStrings, a, x, b, y, r);
    PackagesTally(key, root, packages);
    var all := JObject(Member(key, root, packages));
    DocumentSizes(names, strings, a, x, b, y, n, all);
    FiveTally(names, [a, b, JInt(n), JBool(true), all]);
  }

  lemma {:induction false} LockDocumentTally(r: Json, packages: Members)
    ensures LockCounts(TallyOf(LockDocument(r, packages)), TallyOf(r), MembersTally(packages))
  {
    LockNamesSpelled();
    LockTally(LOCK_NAMES, LOCK_STRINGS, REBUILT_ROOT_NAMES, ROOT_STRINGS, LOCK_NAME, "candidate-v2", LOCK_VERSION,
              "0.0.0", 3,
              ROOT_PATH, r, packages);
  }

  // ----- The payload -----

  ghost predicate Holds(ms: Members, names: seq<Text>) {
    forall j :: 0 <= j < |names| ==> names[j] in Keys(ms)
  }

  lemma {:induction false} SkipNames(ms: Members, names: seq<Text>, i: nat, upTo: nat)
    requires i <= upTo <= |names| && Holds(ms, names) && forall j :: 0 <= j < |names| ==> |names[j]| >= 6
    ensures PartsFrom(ms, names, i).size >= 11 * (upTo - i) + PartsFrom(ms, names, upTo).size
    ensures PartsFrom(ms, names, i).visits >= (upTo - i) + PartsFrom(ms, names, upTo).visits
    ensures PartsFrom(ms, names, i).height >= PartsFrom(ms, names, upTo).height
    decreases upTo - i
  {
    if i < upTo {
      SkipNames(ms, names, i + 1, upTo);
      AtLeastItsLength(names[i]);
    }
  }

  /** What an object with thirteen named members counts for at least, the last two of them an object and a list. */
  lemma {:induction false} PayloadAtLeast(ms: Members, names: seq<Text>, r: Json, items: Items)
    requires MembersWellFormed(ms) && |names| == 13 && Distinct(names) && Holds(ms, names)
    requires (forall j :: 0 <= j < |names| ==> |names[j]| >= 6) && |names[11]| >= 16
    requires Lookup(ms, names[11]) == r && Lookup(ms, names[12]) == JArray(items)
    ensures MembersTally(ms).visits >= 12 + TallyOf(r).visits + ItemsTally(items).visits
    ensures MembersTally(ms).size >= 152 + TallyOf(r).size + ItemsTally(items).size
    ensures MembersTally(ms).height >= Max(TallyOf(r).height, 1 + ItemsTally(items).height)
  {
    PartsWithin(ms, names, 0);
    SkipNames(ms, names, 0, 11);
    AtLeastItsLength(names[11]);
    AtLeastItsLength(names[12]);
    assert PartsFrom(ms, names, 13) == NOTHING;
    assert PartsFrom(ms, names, 12) == Plus(Keyed(names[12], TallyOf(JArray(items))), NOTHING);
    assert PartsFrom(ms, names, 11) == Plus(Keyed(names[11], TallyOf(r)), PartsFrom(ms, names, 12));
  }

  lemma {:induction false} UnsignedNameLengths()
    ensures (forall j :: 0 <= j < |UNSIGNED_NAMES| ==> |UNSIGNED_NAMES[j]| >= 6) && |UNSIGNED_NAMES[11]| >= 16
  {
  }

  /** A document counts for no more values and bytes than the payload; its levels are those of either part. */
  ghost predicate Within(t: Tally, payload: Tally, r: Tally) {
    t.visits <= payload.visits && t.size <= payload.size && t.height <= Max(payload.height, 3 + r.height)
  }

  /** A payload against a lock document made of its root dependencies and of packages collected from its nodes. */
  lemma {:induction false} DocumentWithin(t: Tally, ms: Members, names: seq<Text>, r: Json, items: Items,
                                          packages: Tally)
    requires MembersWellFormed(ms) && |names| == 13 && Distinct(names) && Holds(ms, names)
    requires (forall j :: 0 <= j < |names| ==> |names[j]| >= 6) && |names[11]| >= 16
    requires Lookup(ms, names[11]) == r && Lookup(ms, names[12]) == JArray(items)
    requires LockCounts(t, TallyOf(r), packages) && AtMost(packages, ItemsTally(items))
    ensures Within(t, TallyOf(JObject(ms)), TallyOf(r))
  {
    PayloadAtLeast(ms, names, r, items);
  }

  /** The rebuilt lock has no more values and no more bytes than the payload, and at most two levels more. */
  lemma {:induction false} RebuiltWithin(v: Json)
    requires WellFormed(v) && v.JObject? && Holds(v.members, UNSIGNED_NAMES) && RebuiltDocument(v).Some?
    ensures Get(v, ROOT_DEPENDENCIES).Some?
    ensures Within(TallyOf(RebuiltDocument(v).value), TallyOf(v), TallyOf(Get(v, ROOT_DEPENDENCIES).value))
  {
    UnsignedNamesDiffer();
    UnsignedNameLengths();
    var r, items := Get(v, ROOT_DEPENDENCIES).value, Get(v, GRAPH_NODES).value.items;
    LookupWellFormed(v.members, GRAPH_NODES);
    PackagesWithin(items);
    LockDocumentTally(r, PackagesFrom(items).value);
    DocumentWithin(TallyOf(RebuiltDocument(v).value), v.members, UNSIGNED_NAMES, r, items,
                   MembersTally(PackagesFrom(items).value));
  }
}
