/** Receipts that are recorded but not exported: identity evidence can outgrow the export schema. */
module LongReceipts {
  import opened Options
  import opened JsonText
  import opened JsonValues
  import opened CanonicalJson
  import opened JsonTally
  import opened ReceiptJson
  import opened Utf8
  import opened AuditRecorder
  import opened HashChain
  import opened AuditEvents
  import opened Gateway
  import opened GatewaySafety
  import opened PortableReceipt

  // ----- Parts of a value -----

  /** The second value is the first, or somewhere inside it. */
  predicate Contains(v: Json, part: Json)
    decreases v
  {
    v == part
    || match v
       case JArray(items) => InItems(items, part)
       case JObject(members) => InMembers(members, part)
       case _ => false
  }

  predicate InItems(items: Items, part: Json)
    decreases items
  {
    match items case NoItems => false case Item(value, rest) => Contains(value, part) || InItems(rest, part)
  }

  predicate InMembers(ms: Members, part: Json)
    decreases ms
  {
    match ms case NoMembers => false case Member(_, value, rest) => Contains(value, part) || InMembers(rest, part)
  }

  lemma {:induction false} PartIsNoLarger(v: Json, part: Json)
    requires Contains(v, part)
    ensures TallyOf(part).size <= TallyOf(v).size
    decreases v
  {
    if v != part {
      match v
      case JArray(items) => ItemIsNoLarger(items, part);
      case JObject(members) => MemberIsNoLarger(members, part);
      case _ =>
    }
  }

  lemma {:induction false} ItemIsNoLarger(items: Items, part: Json)
    requires InItems(items, part)
    ensures TallyOf(part).size <= ItemsTally(items).size
    decreases items
  {
    if Contains(items.value, part) {
      PartIsNoLarger(items.value, part);
    } else {
      ItemIsNoLarger(items.rest, part);
    }
  }

  lemma {:induction false} MemberIsNoLarger(ms: Members, part: Json)
    requires InMembers(ms, part)
    ensures TallyOf(part).size <= MembersTally(ms).size
    decreases ms
  {
    if Contains(ms.value, part) {
      PartIsNoLarger(ms.value, part);
    } else {
      MemberIsNoLarger(ms.rest, part);
    }
  }

  // ----- Identity evidence as large as its schema allows -----

  const LONGEST_STRING := 512
  const MOST_ITEMS := 100
  const MOST_CLAIMS := 64

  /** Every value of the list contains a string of this length. */
  ghost predicate EachSays(items: Items, length: nat) {
    match items
    case NoItems => true
    case Item(value, rest) => (exists s :: |s| == length && Contains(value, JString(s))) && EachSays(rest, length)
  }

  /** An ordered list of as many strings as a claim may have, each as long as it may be. */
  ghost predicate FullList(v: Json) {
    v.JArray? && ItemCount(v.items) == MOST_ITEMS && EachSays(v.items, LONGEST_STRING)
  }

  ghost predicate EachFull(items: Items) {
    match items
    case NoItems => true
    case Item(value, rest) => (exists list :: FullList(list) && Contains(value, list)) && EachFull(rest)
  }

  /** As many claims as identity evidence may have, each with a full list. */
  ghost predicate FullEvidence(v: Json) {
    v.JArray? && ItemCount(v.items) == MOST_CLAIMS && EachFull(v.items)
  }

  lemma {:induction false} StringIsNoLarger(v: Json, length: nat)
    requires exists s :: |s| == length && Contains(v, JString(s))
    ensures TallyOf(v).size >= length
  {
    var s :| |s| == length && Contains(v, JString(s));
    PartIsNoLarger(v, JString(s));
    EscapingGrows(s);
  }

  lemma {:induction false} OneMoreTimes(n: nat, length: nat)
    ensures (1 + n) * length == length + n * length
  {
  }

  lemma {:induction false} StringsSize(items: Items, length: nat)
    requires EachSays(items, length)
    ensures ItemsTally(items).size >= ItemCount(items) * length
    decreases items
  {
    if items.Item? {
      StringsSize(items.rest, length);
      StringIsNoLarger(items.value, length);
      OneMoreTimes(ItemCount(items.rest), length);
    }
  }

  lemma {:induction false} ListsSize(items: Items)
    requires EachFull(items)
    ensures ItemsTally(items).size >= ItemCount(items) * 51_200
    decreases items
  {
    if items.Item? {
      var list :| FullList(list) && Contains(items.value, list);
      PartIsNoLarger(items.value, list);
      StringsSize(list.items, LONGEST_STRING);
      ListsSize(items.rest);
    }
  }

  lemma {:induction false} ThreeBytesAtMost(t: Text)
    ensures Utf8Size(t) <= 3 * |t|
  {
    if t == [] {
    } else if |t| > 1 && LeadSurrogate(t[0]) && TrailSurrogate(t[1]) {
      ThreeBytesAtMost(t[2..]);
    } else {
      ThreeBytesAtMost(t[1..]);
    }
  }

  /** The canonical text of a value with full identity evidence is longer than the export schema allows. */
  lemma {:induction false} FullEvidenceIsTooLong(v: Json, evidence: Json)
    requires FullEvidence(evidence) && Contains(v, evidence)
    ensures |CanonicalText(v)| > MAX_EVENT_JSON
  {
    PartIsNoLarger(v, evidence);
    ListsSize(evidence.items);
    SizeOfCanonicalText(v);
    ThreeBytesAtMost(CanonicalText(v));
  }

  // ----- Such receipts are recorded and verify, and are not exported -----

  /** The event is a receipt of the action that shows full identity evidence. */
  ghost predicate ShowsFullEvidence(row: Row, stamp: Stamp, action: nat, f: Formats) {
    && row.action == action && row.event.ReceiptFinalized?
    && exists evidence :: FullEvidence(evidence) && Contains(f.layout.show(row, stamp), evidence)
  }

  lemma {:induction false} RowIsSelected(columns: seq<Column>, rows: seq<EventRow>, action: nat, first: nat, i: nat)
    requires |columns| == |rows| && i < |columns| && columns[i].action == action && columns[i].kind != OtherEvent
    ensures exists p :: p in Selected(columns, rows, action, first) && p.row == rows[i]
    decreases i
  {
    if i == 0 {
      assert Proof(first, columns[0].kind, rows[0]) in Selected(columns, rows, action, first);
    } else {
      RowIsSelected(columns[1..], rows[1..], action, first + 1, i - 1);
      var p :| p in Selected(columns[1..], rows[1..], action, first + 1) && p.row == rows[i];
      assert p in Selected(columns, rows, action, first);
    }
  }

  /** In every run, an action with a receipt that shows full identity evidence is refused by the schema. */
  lemma {:induction false} FullEvidenceIsRefused(steps: seq<Step>, stamps: seq<Stamp>, action: nat, i: nat,
                                                 legacy: Legacy, f: Formats)
    requires Lawful(f) && |stamps| == |Run(START, steps, f.digest).table| && i < |stamps|
    requires ShowsFullEvidence(Run(START, steps, f.digest).table[i], stamps[i], action, f)
    ensures ExportSnapshot(Store(Run(START, steps, f.digest).table, stamps, f), action, legacy,
                           f) == Refused(OutsideSchema)
  {
    var table := Run(START, steps, f.digest).table;
    var db := Store(table, stamps, f);
    ExportNeverRefuses(steps, stamps, action, legacy, f);
    var evidence :| FullEvidence(evidence) && Contains(f.layout.show(table[i], stamps[i]), evidence);
    FullEvidenceIsTooLong(f.layout.show(table[i], stamps[i]), evidence);
    StoredText(table, stamps, i, f);
    RowIsSelected(db.columns, db.rows, action, 1, i);
  }

  lemma {:induction false} StoredText(table: seq<Row>, stamps: seq<Stamp>, i: nat, f: Formats)
    requires |stamps| == |table| && i < |table| && table[i].event.ReceiptFinalized?
    ensures Store(table, stamps, f).columns[i] == ColumnOf(table[i]) && ColumnOf(table[i]).kind != OtherEvent
    ensures Store(table, stamps, f).rows[i].json == EventText(table[i], stamps[i], f)
  {
    AppendedTells(Texts(table, stamps, f), i, f);
  }

  lemma {:induction false} AppendedTells(texts: seq<Text>, i: nat, f: Formats)
    requires i < |texts|
    ensures |Appended(texts, f.sha)| == |texts| && Appended(texts, f.sha)[i].json == texts[i]
  {
    EveryHistoryVerifies(texts, f.sha);
  }

  /** A call that policy denies, recorded at once. */
  const DENIED: seq<Step> := [Arrive(0, "tool"), Evaluated(0, Refuse, Deny, false, 0, [true, true])]

  lemma {:induction false} DeniedIsRecorded(digest: Digest)
    ensures var table := Run(START, DENIED, digest).table;
            |table| == 3 && table[2].action == 0 && table[2].event.ReceiptFinalized?
              && table[2].event.receipt.AuthorizationReceipt?
  {
    var arrived := Next(START, DENIED[0], digest);
    RunOne(START, DENIED[0], [DENIED[1]], digest);
    RunOne(arrived, DENIED[1], [], digest);
    assert DENIED == [DENIED[0]] + [DENIED[1]];
    var begun := Opened(arrived, 0, false, Deny);
    assert begun.table == [Row(0, DecisionRecorded)];
  }

  /** So it is for a denied call whenever its receipt event shows full identity evidence. */
  lemma {:induction false} DeniedCallRefused(stamps: seq<Stamp>, legacy: Legacy, f: Formats)
    requires Lawful(f) && |stamps| == 3
    requires forall row: Row, stamp: Stamp :: KindOf(row.event) == AuthorizationFinalized ==>
               exists evidence :: FullEvidence(evidence) && Contains(f.layout.show(row, stamp), evidence)
    ensures |Run(START, DENIED, f.digest).table| == 3
    ensures ExportSnapshot(Store(Run(START, DENIED, f.digest).table, stamps, f), 0, legacy, f) == Refused(OutsideSchema)
  {
    DeniedIsRecorded(f.digest);
    var row := Run(START, DENIED, f.digest).table[2];
    assert KindOf(row.event) == AuthorizationFinalized;
    var evidence :| FullEvidence(evidence) && Contains(f.layout.show(row, stamps[2]), evidence);
    assert ShowsFullEvidence(row, stamps[2], 0, f);
    FullEvidenceIsRefused(DENIED, stamps, 0, 2, legacy, f);
  }
}
