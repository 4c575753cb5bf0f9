/**
  * What an accepted envelope is evidence of, whoever made it: the receipts of one well shaped call, each told by a
  * chained event.
  */
module ReceiptEvidence {
  import opened Options
  import opened JsonText
  import opened CanonicalJson
  import opened ReceiptJson
  import opened SerializedReceipt
  import opened ApprovalService
  import opened AuditRecorder
  import opened HashChain
  import opened AuditEvents
  import opened GatewaySafety
  import opened PortableReceipt
  import opened ReceiptRoundTrip
  import opened Utf8

  // ----- Evidence -----

  /**
    * The proof's event is canonical text that tells this receipt of this action and its digest, under the kind the
    * proof names, and its hash is that of the row it names before it and the text.
    */
  ghost predicate Attests(p: Proof, r: Record, action: nat, f: Formats) {
    && p.kind == (if r.receipt.AuthorizationReceipt? then AuthorizationFinalized else OutcomeFinalized)
    && p.row.hash == f.sha(p.row.previous + [NEWLINE] + p.row.json)
    && f.parse(p.row.json).Some?
    && CanonicalText(f.parse(p.row.json).value) == p.row.json
    && f.layout.view(f.parse(p.row.json).value) == Some(Row(action, ReceiptFinalized(r.receipt, r.digest)))
  }

  /** Within the bounds of the envelope's schema. */
  ghost predicate InBounds(p: Proof) {
    && p.sequence > 0 && 1 <= |p.row.json| <= 524_288 && |p.row.previous| == 64 && |p.row.hash| == 64
  }

  ghost predicate Attested(ps: seq<Proof>, receipts: seq<Record>, action: nat, f: Formats) {
    && |ps| == |receipts|
    && forall i :: 0 <= i < |ps| ==> Attests(ps[i], receipts[i], action, f) && InBounds(ps[i])
  }

  /** The envelope shows these receipts of a well shaped call and nothing else, each with an event, in order. */
  ghost predicate Evidences(e: Envelope, receipts: seq<Record>, f: Formats) {
    && ReceiptShape(receipts, e.action, f.digest)
    && Attested(e.proofs, receipts, e.action, f)
    && (forall i, j :: 0 <= i < j < |e.proofs| ==> e.proofs[i].sequence < e.proofs[j].sequence)
    && e.authorization == (if |receipts| >= 1 then Some(receipts[0]) else None)
    && e.outcome == (if |receipts| == 2 then Some(receipts[1]) else None)
    && (e.legacy.Some? <==> receipts == [])
    && e.completeness == CompletenessTold(receipts)
  }

  /** The receipts an envelope carries. */
  function Carried(e: Envelope): seq<Record> {
    (if e.authorization.Some? then [e.authorization.value] else [])
    + if e.outcome.Some? then [e.outcome.value] else []
  }

  // ----- Verification -----

  lemma VerifiedAttests(p: Proof, r: Record, action: nat, f: Formats)
    requires ActionOf(r.receipt) == action
    ensures VerifyProof(p, r, f) <==> Attests(p, r, action, f)
  {
  }

  /** Schema and relationships accept exactly the evidence of a well shaped call. */
  lemma AcceptedIsEvidence(e: Envelope, f: Formats)
    ensures Conforms(e) && EnvelopeRelationships(e, f) <==> Evidences(e, Carried(e), f)
  {
    if Conforms(e) && EnvelopeRelationships(e, f) {
      RelatedIsEvidence(e, f);
    }
    if Evidences(e, Carried(e), f) {
      EvidenceIsRelated(e, f);
    }
  }

  lemma RelatedIsEvidence(e: Envelope, f: Formats)
    requires Conforms(e) && EnvelopeRelationships(e, f)
    ensures Evidences(e, Carried(e), f)
  {
    var receipts := Carried(e);
    forall i | 0 <= i < |receipts| ensures Attests(e.proofs[i], receipts[i], e.action, f) && InBounds(e.proofs[i]) {
      VerifiedAttests(e.proofs[i], receipts[i], e.action, f);
      assert ConformingProof(e.proofs[i]);
    }
  }

  lemma AttestedConforms(ps: seq<Proof>, receipts: seq<Record>, action: nat, f: Formats)
    requires Attested(ps, receipts, action, f)
    ensures forall p :: p in ps ==> ConformingProof(p)
  {
    forall p | p in ps ensures ConformingProof(p) {
      var i :| 0 <= i < |ps| && ps[i] == p;
      assert Attests(ps[i], receipts[i], action, f) && InBounds(ps[i]);
    }
  }

  lemma EvidenceIsRelated(e: Envelope, f: Formats)
    requires Evidences(e, Carried(e), f)
    ensures Conforms(e) && EnvelopeRelationships(e, f)
  {
    var receipts := Carried(e);
    AttestedConforms(e.proofs, receipts, e.action, f);
    if |receipts| >= 1 {
      assert Attests(e.proofs[0], receipts[0], e.action, f);
      VerifiedAttests(e.proofs[0], receipts[0], e.action, f);
    }
    if |receipts| == 2 {
      assert Attests(e.proofs[1], receipts[1], e.action, f);
      VerifiedAttests(e.proofs[1], receipts[1], e.action, f);
    }
  }

  /** Only the carried receipts can be what an envelope is evidence of. */
  lemma EvidenceIsCarried(e: Envelope, receipts: seq<Record>, f: Formats)
    requires Evidences(e, receipts, f)
    ensures receipts == Carried(e)
  {
  }

  /** The text is the serialization of an envelope that is evidence of a call with this status. */
  ghost predicate ShowsCall(text: Text, e: Envelope, status: Status, l: EnvelopeLayout, f: Formats) {
    && Evidences(e, Carried(e), f) && status == StatusTold(Carried(e))
    && ValidJsonValue(l.show(e), 0) && text == Serialized(l.show(e))
  }

  lemma SerializedShowsCall(text: Text, e: Envelope, status: Status, l: EnvelopeLayout, f: Formats)
    ensures SerializePortableReceipt(e, l, f) == Some(text) && StatusOf(e) == status <==>
            ShowsCall(text, e, status, l, f)
  {
    AcceptedIsEvidence(e, f);
    if Evidences(e, Carried(e), f) {
      StatusIsTold(e, Carried(e), f);
    }
  }

  lemma StatusIsTold(e: Envelope, receipts: seq<Record>, f: Formats)
    requires ReceiptShape(receipts, e.action, f.digest) && e.completeness == CompletenessTold(receipts)
    ensures StatusOf(e) == StatusTold(receipts)
  {
  }

  /**
    * A text is accepted with a status exactly when it is the serialization, within the bounds, of the evidence of a
    * well shaped call whose receipts tell that status.
    */
  lemma VerdictIsTold(text: Text, status: Status, l: EnvelopeLayout, f: Formats)
    ensures AcceptedAs(text, status, l, f) <==>
            Utf8Size(text) <= MAX_RECEIPT_FILE_BYTES && exists e :: ShowsCall(text, e, status, l, f)
  {
    if AcceptedAs(text, status, l, f) {
      var e :| SerializePortableReceipt(e, l, f) == Some(text) && StatusOf(e) == status;
      SerializedShowsCall(text, e, status, l, f);
    }
    if e :| ShowsCall(text, e, status, l, f) {
      SerializedShowsCall(text, e, status, l, f);
    }
  }

  // ----- Tampering -----

  /** Accepted evidence is what its proofs tell: under the same events, no receipt, action or verdict can differ. */
  lemma ProofsDetermineEvidence(a: Envelope, b: Envelope, f: Formats)
    requires Evidences(a, Carried(a), f) && Evidences(b, Carried(b), f) && a.proofs == b.proofs != []
    ensures a == b
  {
    forall i | 0 <= i < |a.proofs| ensures Carried(a)[i] == Carried(b)[i] && a.action == b.action {
      assert Attests(a.proofs[i], Carried(a)[i], a.action, f) && Attests(b.proofs[i], Carried(b)[i], b.action, f);
    }
    assert Attests(a.proofs[0], Carried(a)[0], a.action, f);
    assert Carried(a) == Carried(b);
  }

  /**
    * An outcome belongs to one authorization: two accepted envelopes with the same outcome show the same
    * authorization, or two receipts with the same digest.
    */
  lemma OutcomeBindsAuthorization(a: Envelope, b: Envelope, f: Formats)
    requires Evidences(a, Carried(a), f) && Evidences(b, Carried(b), f) && a.outcome == b.outcome && a.outcome.Some?
    ensures a.action == b.action
    ensures a.authorization == b.authorization
         || (a.authorization.value.receipt != b.authorization.value.receipt
             && f.digest(a.authorization.value.receipt) == f.digest(b.authorization.value.receipt))
  {
  }

  // ----- Export from any table -----

  lemma {:induction false} KindsAddUp(ps: seq<Proof>)
    requires forall p :: p in ps ==> p.kind != OtherEvent
    ensures |OfKind(ps, AuthorizationFinalized)| + |OfKind(ps, OutcomeFinalized)| == |ps|
  {
    if ps != [] {
      KindsAddUp(ps[1..]);
    }
  }

  lemma {:induction false} SelectedKinds(columns: seq<Column>, rows: seq<EventRow>, action: nat, first: nat)
    requires |columns| == |rows|
    ensures forall p :: p in Selected(columns, rows, action, first) ==> p.kind != OtherEvent
    ensures Increasing(Selected(columns, rows, action, first), first)
  {
    if columns != [] {
      SelectedKinds(columns[1..], rows[1..], action, first + 1);
    }
  }

  lemma FinalizedIsAttested(p: Proof, r: Record, action: nat, f: Formats)
    requires Attests(p, r, action, f) && r.digest == f.digest(r.receipt)
    ensures Finalizes(p, f) && RecordOf(p, f) == r && p.kind != OtherEvent
  {
  }

  /** The records that an action's receipt rows tell, when they tell any. */
  ghost predicate TellsCall(ps: seq<Proof>, receipts: seq<Record>, action: nat, f: Formats) {
    ReceiptShape(receipts, action, f.digest) && Attested(ps, receipts, action, f)
  }

  ghost predicate TellsSomeCall(ps: seq<Proof>, action: nat, f: Formats) {
    exists receipts :: TellsCall(ps, receipts, action, f)
  }

  lemma CheckedIsRelated(e: Envelope, f: Formats)
    requires Checked(e, f).Exported?
    ensures Checked(e, f).envelope == e && Conforms(e) && EnvelopeRelationships(e, f)
  {
  }

  /** The envelope handed to the checks, when there is one. */
  lemma MadeOfProofs(ps: seq<Proof>, action: nat, legacy: Legacy, f: Formats) returns (e: Envelope)
    requires (forall p :: p in ps ==> p.kind != OtherEvent) && FromProofs(ps, action, legacy, f).Exported?
    ensures FromProofs(ps, action, legacy, f) == Checked(e, f) && |ps| <= 2
    ensures e.action == action && e.legacy == (if ps == [] then Some(legacy) else None)
    ensures e.proofs == OfKind(ps, AuthorizationFinalized) + OfKind(ps, OutcomeFinalized)
  {
    KindsAddUp(ps);
    var authorizations, outcomes := OfKind(ps, AuthorizationFinalized), OfKind(ps, OutcomeFinalized);
    if |authorizations| == 0 {
      return Envelope(action, LegacyIncomplete, Some(legacy), None, None, []);
    }
    assert Finalizes(authorizations[0], f) && (|outcomes| == 1 ==> Finalizes(outcomes[0], f));
    var a := RecordOf(authorizations[0], f);
    var o := if |outcomes| == 1 then Some(RecordOf(outcomes[0], f)) else None;
    return Envelope(action, CompletenessOf(a, o), None, Some(a), o, authorizations + outcomes);
  }

  /** Rows sorted by their kind are in table order only if they were so already. */
  lemma InOrderAlready(ps: seq<Proof>)
    requires |ps| <= 2 && (forall p :: p in ps ==> p.kind != OtherEvent) && Increasing(ps, 1)
    ensures var made := OfKind(ps, AuthorizationFinalized) + OfKind(ps, OutcomeFinalized);
            |made| == |ps| && (|made| == 2 && made[0].sequence < made[1].sequence ==> made == ps)
            && (|made| < 2 ==> made == ps)
  {
    KindsAddUp(ps);
    if |ps| == 2 {
      assert ps == [ps[0]] + [ps[1]] && ps[1..] == [ps[1]] && ps[1..][1..] == [];
      assert OfKind(ps[1..][1..], AuthorizationFinalized) == [] && OfKind(ps[1..][1..], OutcomeFinalized) == [];
    } else if |ps| == 1 {
      assert ps == [ps[0]] && ps[1..] == [];
    }
  }

  lemma MadeIsEvidence(ps: seq<Proof>, action: nat, legacy: Legacy, f: Formats)
    requires (forall p :: p in ps ==> p.kind != OtherEvent) && Increasing(ps, 1)
    requires FromProofs(ps, action, legacy, f).Exported?
    ensures var e := FromProofs(ps, action, legacy, f).envelope;
            && e.action == action && e.proofs == ps && Evidences(e, Carried(e), f)
            && e.legacy == (if ps == [] then Some(legacy) else None)
  {
    var e := MadeOfProofs(ps, action, legacy, f);
    CheckedIsRelated(e, f);
    AcceptedIsEvidence(e, f);
    InOrderAlready(ps);
  }

  lemma AttestedLists(ps: seq<Proof>, receipts: seq<Record>, action: nat, f: Formats)
    requires Attested(ps, receipts, action, f)
    ensures Lists(ps, receipts, action, f) && FitSchema(ps)
  {
    forall i | 0 <= i < |ps| ensures Tells(ps[i], receipts[i], action, f) && 1 <= |ps[i].row.json| <= MAX_EVENT_JSON {
      assert Attests(ps[i], receipts[i], action, f) && InBounds(ps[i]);
    }
  }

  lemma EvidenceIsMade(ps: seq<Proof>, receipts: seq<Record>, action: nat, legacy: Legacy, f: Formats)
    requires Increasing(ps, 1) && TellsCall(ps, receipts, action, f)
    ensures FromProofs(ps, action, legacy, f).Exported?
  {
    AttestedLists(ps, receipts, action, f);
    ProofsExport(ps, receipts, action, legacy, f);
  }

  lemma MadeExactly(ps: seq<Proof>, action: nat, legacy: Legacy, f: Formats)
    requires (forall p :: p in ps ==> p.kind != OtherEvent) && Increasing(ps, 1)
    ensures FromProofs(ps, action, legacy, f).Exported? <==> TellsSomeCall(ps, action, f)
  {
    if FromProofs(ps, action, legacy, f).Exported? {
      MadeIsEvidence(ps, action, legacy, f);
      assert TellsCall(ps, Carried(FromProofs(ps, action, legacy, f).envelope), action, f);
    }
    if TellsSomeCall(ps, action, f) {
      var receipts :| TellsCall(ps, receipts, action, f);
      EvidenceIsMade(ps, receipts, action, legacy, f);
    }
  }

  /**
    * Whatever the table holds: an action is exported exactly when the chain verifies, the action is known, and its
    * receipt rows tell, in table order, the receipts of a well shaped call; and the envelope is the evidence of just
    * those rows.
    */
  lemma ExportsExactlyEvidence(db: Database, action: nat, legacy: Legacy, f: Formats)
    requires |db.columns| == |db.rows|
    ensures var made, ps := ExportSnapshot(db, action, legacy, f), Selected(db.columns, db.rows, action, 1);
            && (made.Exported? <==> Verifies(db.rows, f.sha) && (exists c :: c in db.columns && c.action == action)
                                    && TellsSomeCall(ps, action, f))
            && (made.Exported? ==> made.envelope.action == action && made.envelope.proofs == ps
                                   && Evidences(made.envelope, Carried(made.envelope), f)
                                   && made.envelope.legacy == if ps == [] then Some(legacy) else None)
  {
    var ps := Selected(db.columns, db.rows, action, 1);
    SelectedKinds(db.columns, db.rows, action, 1);
    MadeExactly(ps, action, legacy, f);
    if ExportSnapshot(db, action, legacy, f).Exported? {
      MadeIsEvidence(ps, action, legacy, f);
    }
  }
}
