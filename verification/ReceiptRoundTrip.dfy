/** Serialized envelopes and their verification: what is exported and written to a file verifies with its own status. */
module ReceiptRoundTrip {
  import opened Options
  import opened JsonText
  import opened JsonValues
  import opened CanonicalJson
  import opened JsonNesting
  import opened ReceiptJson
  import opened SerializedReceipt
  import opened AuditRecorder
  import opened AuditEvents
  import opened Gateway
  import opened PortableReceipt
  import opened Utf8

  const MAX_RECEIPT_FILE_BYTES := 1_048_576

  /** How an envelope is laid out in JSON, and what its schema sees in a JSON value. */
  datatype EnvelopeLayout = EnvelopeLayout(show: Envelope -> Json, view: Json -> Option<Envelope>)

  /** The schema sees what was laid out, only conforming envelopes, and looks members up by name. */
  ghost predicate LaysOut(l: EnvelopeLayout) {
    && (forall e: Envelope :: Conforms(e) ==> WellFormed(l.show(e)) && l.view(l.show(e)) == Some(e))
    && (forall v: Json :: l.view(v).Some? ==> Conforms(l.view(v).value))
    && (forall v: Json, w: Json :: WellFormed(v) && WellFormed(w) && SameUpToOrder(v, w) ==> l.view(v) == l.view(w))
  }

  /** The line written for an envelope; nothing when schema, relationships or bounds refuse it. */
  function SerializePortableReceipt(e: Envelope, l: EnvelopeLayout, f: Formats): Option<Text> {
    if Conforms(e) && EnvelopeRelationships(e, f)
      && ValidJsonValue(l.show(e), 0) then Some(Serialized(l.show(e))) else None
  }

  /** The text is the serialization, within the size limit, of an envelope with this status. */
  ghost predicate AcceptedAs(text: Text, status: Status, l: EnvelopeLayout, f: Formats) {
    && Utf8Size(text) <= MAX_RECEIPT_FILE_BYTES
    && exists e :: SerializePortableReceipt(e, l, f) == Some(text) && StatusOf(e) == status
  }

  /** Reading the serialization back: it nests within the limit, parses, and shows the envelope again. */
  lemma SerializationReads(e: Envelope, text: Text, l: EnvelopeLayout, f: Formats)
    requires LaysOut(l) && Lawful(f) && SerializePortableReceipt(e, l, f) == Some(text)
    ensures WellNested(text) && f.parse(text).Some? && l.view(f.parse(text).value) == Some(e)
  {
    SerializedParses(l.show(e));
    SortedIsSettled(l.show(e));
  }

  /** Different envelopes are written differently. */
  lemma SerializationsDiffer(a: Envelope, b: Envelope, l: EnvelopeLayout, f: Formats)
    requires LaysOut(l) && Lawful(f) && SerializePortableReceipt(a, l, f).Some?
    requires SerializePortableReceipt(a, l, f) == SerializePortableReceipt(b, l, f)
    ensures a == b
  {
    SerializationReads(a, SerializePortableReceipt(a, l, f).value, l, f);
    SerializationReads(b, SerializePortableReceipt(b, l, f).value, l, f);
  }

  /** Size, nesting, parsing, schema, bounds and canonical form, relationships, in the order they are checked. */
  method VerifyPortableReceipt(text: Text, l: EnvelopeLayout, f: Formats) returns (status: Option<Status>)
    requires LaysOut(l) && Lawful(f)
    ensures forall s :: status == Some(s) <==> AcceptedAs(text, s, l, f)
  {
    status := Judge(text, l, f);
    forall s ensures status == Some(s) <==> AcceptedAs(text, s, l, f) {
      if status == Some(s) {
        var e :| SerializePortableReceipt(e, l, f) == Some(text) && StatusOf(e) == s;
      }
      if AcceptedAs(text, s, l, f) {
        var e :| SerializePortableReceipt(e, l, f) == Some(text) && StatusOf(e) == s;
        SerializationReads(e, text, l, f);
      }
    }
  }

  method Judge(text: Text, l: EnvelopeLayout, f: Formats) returns (status: Option<Status>)
    requires LaysOut(l)
    ensures status.Some? ==> Utf8Size(text) <= MAX_RECEIPT_FILE_BYTES
                             && exists e :: SerializePortableReceipt(e, l, f) == Some(text)
                                            && StatusOf(e) == status.value
    ensures Utf8Size(text) <= MAX_RECEIPT_FILE_BYTES && WellNested(text) && f.parse(text).Some? ==>
              var seen := l.view(f.parse(text).value);
              seen.Some? && SerializePortableReceipt(seen.value, l, f) == Some(text) ==>
                status == Some(StatusOf(seen.value))
  {
    if Utf8Size(text) > MAX_RECEIPT_FILE_BYTES { return None; }
    var nested := AssertSourceNesting(text);
    if !nested { return None; }
    var parsed := f.parse(text);
    if parsed.None? { return None; }
    var envelope := l.view(parsed.value);
    if envelope.None? || !ValidJsonValue(l.show(envelope.value), 0) { return None; }
    if text != CanonicalText(l.show(envelope.value)) + [NEWLINE] { return None; }
    if !EnvelopeRelationships(envelope.value, f) { return None; }
    assert SerializePortableReceipt(envelope.value, l, f) == Some(text);
    if envelope.value.completeness == LegacyIncomplete { return Some(LegacyStatus); }
    if envelope.value.completeness == Incomplete { return Some(IncompleteStatus); }
    return Some(VerifiedUnsigned);
  }

  /** The verdict on the file of this envelope is this status and no other. */
  ghost predicate VerifiesAs(e: Envelope, status: Status, l: EnvelopeLayout, f: Formats) {
    match SerializePortableReceipt(e, l, f)
    case None => !ValidJsonValue(l.show(e), 0)
    case Some(text) => Utf8Size(text) <= MAX_RECEIPT_FILE_BYTES ==> forall s :: AcceptedAs(text, s, l, f) <==>
      s == status
  }

  /**
    * Whatever the gateway did, what is exported of any action and written within the size limit verifies, with the
    * status that the action's recorded receipts tell; and it is written unless its values exceed the receipt bounds.
    */
  lemma ReceiptRoundTrip(steps: seq<Step>, stamps: seq<Stamp>, action: nat, legacy: Legacy, l: EnvelopeLayout,
                         f: Formats)
    requires LaysOut(l) && Lawful(f) && |stamps| == |Run(Gateway.START, steps, f.digest).table|
    ensures var table := Run(Gateway.START, steps, f.digest).table;
            var made := ExportSnapshot(Store(table, stamps, f), action, legacy, f);
            made.Exported? ==> VerifiesAs(made.envelope, StatusTold(Receipts(table, action)), l, f)
  {
    ExportNeverRefuses(steps, stamps, action, legacy, f);
    var table := Run(Gateway.START, steps, f.digest).table;
    var made := ExportSnapshot(Store(table, stamps, f), action, legacy, f);
    if made.Exported? {
      CarriedVerifies(made.envelope, Receipts(table, action), action, l, f);
    }
  }

  lemma CarriedVerifies(e: Envelope, receipts: seq<Record>, action: nat, l: EnvelopeLayout, f: Formats)
    requires LaysOut(l) && Lawful(f) && Carries(e, receipts, action, f)
    ensures VerifiesAs(e, StatusTold(receipts), l, f)
  {
    var text := SerializePortableReceipt(e, l, f);
    if text.Some? {
      forall s | AcceptedAs(text.value, s, l, f) ensures s == StatusOf(e) {
        var d :| SerializePortableReceipt(d, l, f) == text && StatusOf(d) == s;
        SerializationsDiffer(d, e, l, f);
      }
    }
  }
}
