/**
  * The event table as it is stored: each event as canonical JSON text in the hash chain, and what reading it answers.
  */
module AuditEvents {
  import opened Options
  import opened JsonText
  import opened JsonValues
  import opened CanonicalJson
  import opened SerializedReceipt
  import opened HashChain
  import opened AuditRecorder

  datatype Kind = OtherEvent | AuthorizationFinalized | OutcomeFinalized

  /** What a stored row names beside its chained event. */
  datatype Column = Column(action: nat, kind: Kind)

  datatype Database = Database(columns: seq<Column>, rows: seq<EventRow>)

  /** An event's random identifier and creation time. */
  type Stamp = string

  /** How an event is laid out in JSON, and what the schema of audit events sees in a JSON value. */
  datatype Layout = Layout(show: (Row, Stamp) -> Json, view: Json -> Option<Row>)

  /** The layout, the JSON parser, the hash of the chain and the digest of receipts. */
  datatype Formats = Formats(layout: Layout, parse: Parser, sha: Hash, digest: Digest)

  /** The receipt schema accepts the event's receipt. */
  predicate ValidEvent(e: Event) {
    e.ReceiptFinalized? && e.receipt.AuthorizationReceipt? ==> ValidAuthorization(e.receipt.authorization)
  }

  /**
    * The schema sees what was laid out, only valid receipts, and looks members up by name; the parser parses JSON
    * texts.
    */
  ghost predicate Lawful(f: Formats) {
    && (forall row: Row, stamp: Stamp :: ValidEvent(row.event) ==>
          WellFormed(f.layout.show(row, stamp)) && f.layout.view(f.layout.show(row, stamp)) == Some(row))
    && (forall v: Json :: f.layout.view(v).Some? ==> ValidEvent(f.layout.view(v).value.event))
    && (forall v: Json, w: Json :: WellFormed(v) && WellFormed(w) && SameUpToOrder(v, w) ==>
       f.layout.view(v) == f.layout.view(w))
    && IsParser(f.parse) && FixedLength(f.sha)
  }

  function KindOf(e: Event): Kind {
    match e
    case ReceiptFinalized(AuthorizationReceipt(_), _) => AuthorizationFinalized
    case ReceiptFinalized(Outcome(_), _) => OutcomeFinalized
    case _ => OtherEvent
  }

  function ColumnOf(row: Row): Column {
    Column(row.action, KindOf(row.event))
  }

  function EventText(row: Row, stamp: Stamp, f: Formats): Text {
    CanonicalText(f.layout.show(row, stamp))
  }

  /** The event a stored text tells, if the text is canonical. */
  function ReadEvent(text: Text, f: Formats): Option<Row> {
    match f.parse(text)
    case None => None
    case Some(v) => if CanonicalText(v) == text then f.layout.view(v) else None
  }

  /** What was written is read back. */
  lemma EventReadsBack(row: Row, stamp: Stamp, f: Formats)
    requires Lawful(f) && ValidEvent(row.event)
    ensures ReadEvent(EventText(row, stamp, f), f) == Some(row)
  {
    var v := f.layout.show(row, stamp);
    CanonicalParses(v);
    SortedIsSettled(v);
  }

  function Texts(table: seq<Row>, stamps: seq<Stamp>, f: Formats): seq<Text>
    requires |stamps| == |table|
  {
    seq(|table|, i requires 0 <= i < |table| => EventText(table[i], stamps[i], f))
  }

  /** The database after the events of the table have been appended in turn. */
  function Store(table: seq<Row>, stamps: seq<Stamp>, f: Formats): (db: Database)
    requires |stamps| == |table|
    ensures |db.columns| == |db.rows| == |table|
  {
    Database(seq(|table|, i requires 0 <= i < |table| => ColumnOf(table[i])), Appended(Texts(table, stamps, f), f.sha))
  }

  predicate HashOk(row: EventRow, sha: Hash) {
    sha(Input(row.previous, row.json)) == row.hash
  }

  /** Row by row, the database holds the events of the table. */
  ghost predicate Holds(db: Database, table: seq<Row>, f: Formats) {
    && |db.columns| == |db.rows| == |table|
    && forall i :: 0 <= i < |table| ==> RowHolds(db.columns[i], db.rows[i], table[i], f)
  }

  ghost predicate RowHolds(column: Column, row: EventRow, event: Row, f: Formats) {
    && column == ColumnOf(event) && HashOk(row, f.sha) && ReadEvent(row.json, f) == Some(event)
    && |row.previous| == HASH_LENGTH && |row.hash| == HASH_LENGTH
  }

  /** A database written event by event verifies as a chain and holds its events. */
  lemma StoreHolds(table: seq<Row>, stamps: seq<Stamp>, f: Formats)
    requires Lawful(f) && |stamps| == |table| && forall i :: 0 <= i < |table| ==> ValidEvent(table[i].event)
    ensures Holds(Store(table, stamps, f), table, f) && Verifies(Store(table, stamps, f).rows, f.sha)
  {
    var texts := Texts(table, stamps, f);
    EveryHistoryVerifies(texts, f.sha);
    var rows := Appended(texts, f.sha);
    forall i | 0 <= i < |table| ensures RowHolds(Store(table, stamps, f).columns[i], rows[i], table[i], f) {
      assert rows[i].json == EventText(table[i], stamps[i], f);
      EventReadsBack(table[i], stamps[i], f);
      LastHashLength(rows, i, f.sha);
    }
  }
}
