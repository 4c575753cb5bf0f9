/** Exporting the receipts of one action from the stored event table, and the relationships an envelope has to meet. */
module PortableReceipt {
  import opened Options
  import opened ApprovalService
  import opened AuditRecorder
  import opened HashChain
  import opened AuditEvents
  import opened Gateway
  import opened GatewaySafety

  const MAX_EVENT_JSON := 524_288

  datatype Completeness = Complete | AuthorizationOnly | Incomplete | LegacyIncomplete

  /** A receipt row of the event table with its sequence number. */
  datatype Proof = Proof(sequence: nat, kind: Kind, row: EventRow)

  /** What an envelope tells of a call without receipts: its status and start. */
  datatype Legacy = Legacy(status: string, startedAt: string)

  datatype Envelope = Envelope(
    action: nat, completeness: Completeness, legacy: Option<Legacy>,
    authorization: Option<Record>, outcome: Option<Record>, proofs: seq<Proof>)

  datatype Refusal =
    BrokenChain | NotFound | BadEvent | DuplicateReceipts | MissingAuthorization | WrongAction | OutsideSchema
      | BadRelationships

  datatype Export = Refused(reason: Refusal) | Exported(envelope: Envelope)

  datatype Status = VerifiedUnsigned | IncompleteStatus | LegacyStatus

  // ----- Reading the stored table -----

  /** The receipt rows of an action in the rows numbered from `first` on. */
  function Selected(columns: seq<Column>, rows: seq<EventRow>, action: nat, first: nat): seq<Proof>
    requires |columns| == |rows|
  {
    if columns == [] then []
    else
      (if columns[0].action == action
        && columns[0].kind != OtherEvent then [Proof(first, columns[0].kind, rows[0])] else [])
      + Selected(columns[1..], rows[1..], action, first + 1)
  }

  /** The finalized receipt a proof tells: its hash holds, its text is a canonical event, and of the kind it names. */
  function ReadProof(p: Proof, f: Formats): (event: Option<Row>)
    ensures event.Some? ==> event.value.event.ReceiptFinalized? && KindOf(event.value.event) == p.kind
  {
    if !HashOk(p.row, f.sha) then None
    else match ReadEvent(p.row.json, f)
         case Some(row) => if row.event.ReceiptFinalized? && KindOf(row.event) == p.kind then Some(row) else None
         case None => None
  }

  /** A proof that exports: besides, the stored digest is the receipt's. */
  predicate Finalizes(p: Proof, f: Formats) {
    match ReadProof(p, f)
    case Some(row) => row.event.digest == f.digest(row.event.receipt)
    case None => false
  }

  function RecordOf(p: Proof, f: Formats): Record
    requires ReadProof(p, f).Some?
  {
    var event := ReadProof(p, f).value.event;
    Record(event.receipt, event.digest)
  }

  function OfKind(ps: seq<Proof>, kind: Kind): (some: seq<Proof>)
    ensures forall p :: p in some ==> p in ps && p.kind == kind
  {
    if ps == [] then [] else (if ps[0].kind == kind then [ps[0]] else []) + OfKind(ps[1..], kind)
  }

  // ----- Building and checking the envelope -----

  predicate IsIncompleteOutcome(r: Receipt) {
    r.Outcome? && r.outcome.terminal == AuditFailed
  }

  function CompletenessOf(authorization: Record, outcome: Option<Record>): Completeness
    requires authorization.receipt.AuthorizationReceipt?
  {
    if outcome.Some? then if IsIncompleteOutcome(outcome.value.receipt) then Incomplete else Complete
    else if authorization.receipt.authorization.standing == Authorized then Incomplete
    else AuthorizationOnly
  }

  function ActionOf(r: Receipt): nat {
    if r.AuthorizationReceipt? then r.authorization.action else r.outcome.action
  }

  predicate VerifyProof(p: Proof, r: Record, f: Formats) {
    match ReadProof(p, f)
    case Some(row) =>
      row.action == ActionOf(r.receipt) && row.event.digest == r.digest && row.event.receipt == r.receipt
    case None => false
  }

  predicate ConformingProof(p: Proof) {
    && p.sequence > 0 && p.kind != OtherEvent && 1 <= |p.row.json| <= MAX_EVENT_JSON
    && |p.row.previous| == HASH_LENGTH && |p.row.hash| == HASH_LENGTH
  }

  /** What the envelope's schema accepts. */
  predicate Conforms(e: Envelope) {
    && |e.proofs| <= 2 && (forall p :: p in e.proofs ==> ConformingProof(p))
    && (e.authorization.Some? ==>
          e.authorization.value.receipt.AuthorizationReceipt?
            && ValidAuthorization(e.authorization.value.receipt.authorization))
    && (e.outcome.Some? ==> e.outcome.value.receipt.Outcome?)
  }

  /** The relationships an envelope has to satisfy, on export, when serialized and on verification. */
  predicate EnvelopeRelationships(e: Envelope, f: Formats)
    requires Conforms(e)
  {
    if e.completeness == LegacyIncomplete then e.legacy.Some? && e.authorization.None? && e.outcome.None?
      && e.proofs == []
    else
      && e.legacy.None? && e.authorization.Some?
      && var a := e.authorization.value;
         && ActionOf(a.receipt) == e.action && f.digest(a.receipt) == a.digest
         && (e.outcome.Some? ==>
               var o := e.outcome.value;
               && a.receipt.authorization.standing == Authorized && ActionOf(o.receipt) == e.action
               && o.receipt.outcome.subject == a.receipt.authorization.subject
               && f.digest(o.receipt) == o.digest && o.receipt.outcome.authorizationDigest == a.digest)
         && e.completeness == CompletenessOf(a, e.outcome)
         && |e.proofs| == (if e.outcome.Some? then 2 else 1)
         && VerifyProof(e.proofs[0], a, f)
         && (e.outcome.Some? ==> VerifyProof(e.proofs[1], e.outcome.value, f)
                                 && e.proofs[0].sequence < e.proofs[1].sequence)
  }

  function Checked(e: Envelope, f: Formats): Export {
    if !Conforms(e) then Refused(OutsideSchema)
    else if !EnvelopeRelationships(e, f) then Refused(BadRelationships)
    else Exported(e)
  }

  /** The envelope made of an action's receipt rows. */
  function FromProofs(proofs: seq<Proof>, action: nat, legacy: Legacy, f: Formats): Export {
    if exists p :: p in proofs && !Finalizes(p, f) then Refused(BadEvent)
    else
      var authorizations, outcomes := OfKind(proofs, AuthorizationFinalized), OfKind(proofs, OutcomeFinalized);
      if |authorizations| > 1 || |outcomes| > 1 then Refused(DuplicateReceipts)
      else if |outcomes| == 1 && |authorizations| == 0 then Refused(MissingAuthorization)
      else if |authorizations| == 0 then Checked(Envelope(action, LegacyIncomplete, Some(legacy), None, None, []), f)
      else
        assert Finalizes(authorizations[0], f);
        var a := RecordOf(authorizations[0], f);
        if ActionOf(a.receipt) != action then Refused(WrongAction)
        else
          assert |outcomes| == 1 ==> Finalizes(outcomes[0], f);
          var o := if |outcomes| == 1 then Some(RecordOf(outcomes[0], f)) else None;
          Checked(Envelope(action, CompletenessOf(a, o), None, Some(a), o, authorizations + outcomes), f)
  }

  function ExportSnapshot(db: Database, action: nat, legacy: Legacy, f: Formats): Export
    requires |db.columns| == |db.rows|
  {
    if !Verifies(db.rows, f.sha) then Refused(BrokenChain)
    else if forall c :: c in db.columns ==> c.action != action then Refused(NotFound)
    else FromProofs(Selected(db.columns, db.rows, action, 1), action, legacy, f)
  }

  function StatusOf(e: Envelope): Status {
    match e.completeness
    case LegacyIncomplete => LegacyStatus
    case Incomplete => IncompleteStatus
    case _ => VerifiedUnsigned
  }

  // ----- The proofs found tell the receipts the gateway recorded -----

  ghost predicate Increasing(ps: seq<Proof>, first: nat) {
    && (forall i :: 0 <= i < |ps| ==> first <= ps[i].sequence)
    && (forall i, j :: 0 <= i < j < |ps| ==> ps[i].sequence < ps[j].sequence)
  }

  ghost predicate Tells(p: Proof, r: Record, action: nat, f: Formats) {
    && p.kind != OtherEvent && |p.row.previous| == HASH_LENGTH && |p.row.hash| == HASH_LENGTH
    && ReadProof(p, f) == Some(Row(action, ReceiptFinalized(r.receipt, r.digest)))
  }

  ghost predicate Lists(ps: seq<Proof>, records: seq<Record>, action: nat, f: Formats) {
    && |ps| == |records|
    && forall i :: 0 <= i < |ps| ==> Tells(ps[i], records[i], action, f)
  }

  /** The rows selected for an action tell its receipts, in table order. */
  lemma {:induction false} SelectedListsReceipts(db: Database, table: seq<Row>, action: nat, first: nat, f: Formats)
    requires Holds(db, table, f)
    ensures Lists(Selected(db.columns, db.rows, action, first), Receipts(table, action), action, f)
    ensures Increasing(Selected(db.columns, db.rows, action, first), first)
    decreases |table|
  {
    if table != [] {
      var row, more := table[0], table[1..];
      var rest := Database(db.columns[1..], db.rows[1..]);
      assert RowHolds(db.columns[0], db.rows[0], row, f);
      assert Holds(rest, more, f) by {
        forall i | 0 <= i < |more| ensures RowHolds(rest.columns[i], rest.rows[i], more[i], f) {
          assert RowHolds(db.columns[i + 1], db.rows[i + 1], table[i + 1], f);
        }
      }
      SelectedListsReceipts(rest, more, action, first + 1, f);
      ReceiptsOfAppend(EventIn(row, action), EventsFor(more, action));
      assert Receipts(table, action) == ReceiptsOf(EventIn(row, action)) + Receipts(more, action);
      if row.action == action {
        assert [row.event][1..] == [];
        assert ReceiptsOf([row.event]) == ReceiptIn(row.event);
      }
      PrependProof(db.rows[0], row, Selected(rest.columns, rest.rows, action, first + 1), Receipts(more, action),
                   action, first, f);
    }
  }

  lemma PrependProof(stored: EventRow, row: Row, ps: seq<Proof>, records: seq<Record>, action: nat, first: nat,
                     f: Formats)
    requires RowHolds(ColumnOf(row), stored, row, f)
    requires Lists(ps, records, action, f) && Increasing(ps, first + 1)
    ensures Increasing(ps, first)
    ensures row.action == action && row.event.ReceiptFinalized? ==>
              var p := Proof(first, KindOf(row.event), stored);
              && Lists([p] + ps, [Record(row.event.receipt, row.event.digest)] + records, action, f)
              && Increasing([p] + ps, first)
  {
    if row.action == action && row.event.ReceiptFinalized? {
      assert Tells(Proof(first, KindOf(row.event), stored), Record(row.event.receipt, row.event.digest), action, f);
    }
  }

  // ----- What an export yields -----

  predicate FitSchema(ps: seq<Proof>) {
    forall p :: p in ps ==> 1 <= |p.row.json| <= MAX_EVENT_JSON
  }

  predicate Known(table: seq<Row>, action: nat) {
    exists i :: 0 <= i < |table| && table[i].action == action
  }

  /** The status of an action with these receipts: told by whether it was authorized and how its outcome ended. */
  function StatusTold(receipts: seq<Record>): Status {
    if receipts == [] then LegacyStatus
    else if |receipts| == 1 then
      if receipts[0].receipt.AuthorizationReceipt?
        && receipts[0].receipt.authorization.standing == Authorized then IncompleteStatus
      else VerifiedUnsigned
    else if IsIncompleteOutcome(receipts[1].receipt) then IncompleteStatus
    else VerifiedUnsigned
  }

  /** How complete the evidence of an action with these receipts is. */
  function CompletenessTold(receipts: seq<Record>): Completeness {
    if receipts == [] then LegacyIncomplete
    else if |receipts| == 1 then
      if receipts[0].receipt.AuthorizationReceipt? && receipts[0].receipt.authorization.standing != Authorized
      then AuthorizationOnly else Incomplete
    else if receipts[1].receipt.Outcome? && receipts[1].receipt.outcome.terminal == AuditFailed then Incomplete
    else Complete
  }

  /** The envelope is sound, carries exactly the receipts, and its completeness and status are those they tell. */
  ghost predicate Carries(e: Envelope, receipts: seq<Record>, action: nat, f: Formats) {
    && Conforms(e) && EnvelopeRelationships(e, f) && e.action == action
    && e.completeness == CompletenessTold(receipts) && StatusOf(e) == StatusTold(receipts)
    && e.authorization == (if |receipts| >= 1 then Some(receipts[0]) else None)
    && e.outcome == (if |receipts| >= 2 then Some(receipts[1]) else None)
  }

  /**
    * A well shaped call is exported exactly when it is known and the texts of its receipt events are within the
    * schema's bound.
    */
  lemma ExportOfShape(db: Database, table: seq<Row>, action: nat, legacy: Legacy, f: Formats)
    requires Holds(db, table, f) && Verifies(db.rows, f.sha)
    requires ReceiptShape(Receipts(table, action), action, f.digest)
    ensures var made := ExportSnapshot(db, action, legacy, f);
            && (made.Exported? <==> Known(table, action) && FitSchema(Selected(db.columns, db.rows, action, 1)))
            && (made.Exported? ==> Carries(made.envelope, Receipts(table, action), action, f))
            && (made.Refused? ==> made.reason == if Known(table, action) then OutsideSchema else NotFound)
  {
    KnownInColumns(db, table, action, f);
    SelectedListsReceipts(db, table, action, 1, f);
    ProofsExport(Selected(db.columns, db.rows, action, 1), Receipts(table, action), action, legacy, f);
  }

  lemma KnownInColumns(db: Database, table: seq<Row>, action: nat, f: Formats)
    requires Holds(db, table, f)
    ensures Known(table, action) <==> exists c :: c in db.columns && c.action == action
  {
    if i :| 0 <= i < |table| && table[i].action == action {
      assert RowHolds(db.columns[i], db.rows[i], table[i], f);
    }
    if c :| c in db.columns && c.action == action {
      var i :| 0 <= i < |db.columns| && db.columns[i] == c;
      assert RowHolds(db.columns[i], db.rows[i], table[i], f);
    }
  }

  lemma ProofsExport(ps: seq<Proof>, receipts: seq<Record>, action: nat, legacy: Legacy, f: Formats)
    requires Lists(ps, receipts, action, f) && Increasing(ps, 1) && ReceiptShape(receipts, action, f.digest)
    ensures var made := FromProofs(ps, action, legacy, f);
            && (made.Exported? <==> FitSchema(ps))
            && (made.Exported? ==> Carries(made.envelope, receipts, action, f))
            && (made.Refused? ==> made.reason == OutsideSchema)
  {
    if |ps| == 1 {
      OneProofExports(ps, receipts, action, legacy, f);
    } else if |ps| == 2 {
      TwoProofsExport(ps, receipts, action, legacy, f);
    }
  }

  lemma OneProofExports(ps: seq<Proof>, receipts: seq<Record>, action: nat, legacy: Legacy, f: Formats)
    requires |ps| == 1 && Lists(ps, receipts, action, f) && Increasing(ps, 1)
        && ReceiptShape(receipts, action, f.digest)
    ensures var made := FromProofs(ps, action, legacy, f);
            && (made.Exported? <==> FitSchema(ps))
            && (made.Exported? ==> Carries(made.envelope, receipts, action, f))
            && (made.Refused? ==> made.reason == OutsideSchema)
  {
    var a := receipts[0];
    assert Tells(ps[0], a, action, f);
    SplitOne(ps);
    assert ps + [] == ps && RecordOf(ps[0], f) == a && Finalizes(ps[0], f);
    assert FromProofs(ps, action, legacy,
                      f) == Checked(Envelope(action, CompletenessOf(a, None), None, Some(a), None, ps), f);
  }

  lemma TwoProofsExport(ps: seq<Proof>, receipts: seq<Record>, action: nat, legacy: Legacy, f: Formats)
    requires |ps| == 2 && Lists(ps, receipts, action, f) && Increasing(ps, 1)
        && ReceiptShape(receipts, action, f.digest)
    ensures var made := FromProofs(ps, action, legacy, f);
            && (made.Exported? <==> FitSchema(ps))
            && (made.Exported? ==> Carries(made.envelope, receipts, action, f))
            && (made.Refused? ==> made.reason == OutsideSchema)
  {
    var a, o := receipts[0], receipts[1];
    assert Tells(ps[0], a, action, f) && Tells(ps[1], o, action, f);
    SplitTwo(ps);
    assert [ps[0]] + [ps[1]] == ps && RecordOf(ps[0], f) == a && RecordOf(ps[1], f) == o;
    assert Finalizes(ps[0], f) && Finalizes(ps[1], f);
    assert FromProofs(ps, action, legacy, f) ==
           Checked(Envelope(action, CompletenessOf(a, Some(o)), None, Some(a), Some(o), ps), f);
  }

  lemma SplitOne(ps: seq<Proof>)
    requires |ps| == 1 && ps[0].kind == AuthorizationFinalized
    ensures OfKind(ps, AuthorizationFinalized) == ps && OfKind(ps, OutcomeFinalized) == []
  {
    assert ps[1..] == [];
  }

  lemma SplitTwo(ps: seq<Proof>)
    requires |ps| == 2 && ps[0].kind == AuthorizationFinalized && ps[1].kind == OutcomeFinalized
    ensures OfKind(ps, AuthorizationFinalized) == [ps[0]] && OfKind(ps, OutcomeFinalized) == [ps[1]]
  {
    var rest := ps[1..];
    assert rest[1..] == [] && rest[0] == ps[1];
    assert OfKind(rest[1..], AuthorizationFinalized) == [] && OfKind(rest[1..], OutcomeFinalized) == [];
    assert OfKind(rest, AuthorizationFinalized) == [] && OfKind(rest, OutcomeFinalized) == [ps[1]];
  }

  // ----- Every run of the gateway -----

  /** A receipt in the table is among its action's receipts. */
  lemma {:induction false} RowInReceipts(table: seq<Row>, k: nat)
    requires k < |table| && table[k].event.ReceiptFinalized?
    ensures Record(table[k].event.receipt, table[k].event.digest) in Receipts(table, table[k].action)
    decreases |table|
  {
    var row, more, action := table[0], table[1..], table[k].action;
    ReceiptsOfAppend(EventIn(row, action), EventsFor(more, action));
    assert Receipts(table, action) == ReceiptsOf(EventIn(row, action)) + Receipts(more, action);
    if k == 0 {
      assert [row.event][1..] == [];
      assert ReceiptsOf([row.event]) == ReceiptIn(row.event);
    } else {
      RowInReceipts(more, k - 1);
    }
  }

  lemma ShapedRowsAreValid(table: seq<Row>, digest: Digest)
    requires forall h: nat :: ReceiptShape(Receipts(table, h), h, digest)
    ensures forall k :: 0 <= k < |table| ==> ValidEvent(table[k].event)
  {
    forall k | 0 <= k < |table| ensures ValidEvent(table[k].event) {
      if table[k].event.ReceiptFinalized? {
        RowInReceipts(table, k);
        assert ReceiptShape(Receipts(table, table[k].action), table[k].action, digest);
      }
    }
  }

  /** The stored table of the run: its chain verifies, and each action exports as its receipts tell. */
  ghost predicate Exportable(table: seq<Row>, db: Database, action: nat, legacy: Legacy, f: Formats) {
    && Holds(db, table, f) && Verifies(db.rows, f.sha)
    && var made := ExportSnapshot(db, action, legacy, f);
       && (made.Exported? <==> Known(table, action) && FitSchema(Selected(db.columns, db.rows, action, 1)))
       && (made.Exported? ==> Carries(made.envelope, Receipts(table, action), action, f))
       && (made.Refused? ==> made.reason == if Known(table, action) then OutsideSchema else NotFound)
  }

  /**
    * In every run of the gateway whose events are appended to the hash chain, the chain verifies, and every known
    * action is exported with exactly its recorded receipts unless the text of one of its receipt events is too long
    * for the schema: no duplicate, hash, digest or relationship check ever refuses it.
    */
  lemma ExportNeverRefuses(steps: seq<Step>, stamps: seq<Stamp>, action: nat, legacy: Legacy, f: Formats)
    requires Lawful(f) && |stamps| == |Run(START, steps, f.digest).table|
    ensures var table := Run(START, steps, f.digest).table;
            Exportable(table, Store(table, stamps, f), action, legacy, f)
  {
    ReceiptsAreWellShaped(steps, f.digest);
    ShapesExport(Run(START, steps, f.digest).table, stamps, action, legacy, f);
  }

  lemma ShapesExport(table: seq<Row>, stamps: seq<Stamp>, action: nat, legacy: Legacy, f: Formats)
    requires Lawful(f) && |stamps| == |table| && forall h: nat :: ReceiptShape(Receipts(table, h), h, f.digest)
    ensures Exportable(table, Store(table, stamps, f), action, legacy, f)
  {
    ShapedRowsAreValid(table, f.digest);
    StoreHolds(table, stamps, f);
    assert ReceiptShape(Receipts(table, action), action, f.digest);
    ExportOfShape(Store(table, stamps, f), table, action, legacy, f);
  }
}
