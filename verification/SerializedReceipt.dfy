/** What reading answers for the texts that are printed: canonical text, alone or as a line of a receipt file. */
module SerializedReceipt {
  import opened Options
  import opened JsonText
  import opened JsonTokens
  import opened JsonValues
  import opened CanonicalJson
  import opened JsonNesting
  import opened ReceiptJson

  function Serialized(v: Json): Text {
    CanonicalText(v) + [NEWLINE]
  }

  /**
    * What a JSON parser answers for the text: nothing when it is no JSON text, the last value of each name when it
    * is.
    */
  ghost predicate ParsesTo(text: Text, parsed: Option<Json>) {
    match parsed
    case Some(v) => exists e, w :: Parses(text, e, w) && v == Merge(w)
    case None => forall e :: ValidElement(e) ==> DocumentText(e) != text
  }

  ghost predicate Parses(text: Text, e: Element, v: Json) {
    ValidElement(e) && DocumentText(e) == text && Decodable(e.value) && Read(e.value) == Some(v)
  }

  type Parser = Text -> Option<Json>

  /**
    * Gives that answer wherever there is one; on texts with other numbers it may answer any value without repeated
    * names.
    */
  ghost predicate IsParser(parse: Parser) {
    && (forall text, parsed :: ParsesTo(text, parsed) ==> parse(text) == parsed)
    && (forall text :: parse(text).Some? ==> WellFormed(parse(text).value))
  }

  // ----- A newline after a document -----

  lemma {:induction false} WriteValueRest(v: Value, a: Text, b: Text)
    ensures WriteValue(v, a + b) == WriteValue(v, a) + b
    decreases v
  {
    match v
    case Literal(w) => assert WordText(w) + (a + b) == (WordText(w) + a) + b;
    case Numeric(t) => assert t + (a + b) == (t + a) + b;
    case Quoted(us) => WriteStringRest(us, a, b);
    case Empty(kind, inside) =>
      assert [Open(kind)] + (inside + ([Close(kind)] + (a + b))) == ([Open(kind)] + (inside + ([Close(kind)] + a))) + b;
    case Full(kind, slots) =>
      WriteSlotsRest(slots, [Close(kind)] + a, b);
      assert [Close(kind)] + (a + b) == ([Close(kind)] + a) + b;
      assert [Open(kind)] + (WriteSlots(slots, [Close(kind)] + a) + b) == ([Open(kind)]
        + WriteSlots(slots, [Close(kind)] + a)) + b;
  }

  lemma WriteStringRest(us: seq<Unit>, a: Text, b: Text)
    ensures WriteString(us, a + b) == WriteString(us, a) + b
  {
    assert [QUOTE] + (a + b) == ([QUOTE] + a) + b;
    WriteUnitsRest(us, [QUOTE] + a, b);
  }

  lemma WriteLabelRest(l: Label, a: Text, b: Text)
    ensures WriteLabel(l, a + b) == WriteLabel(l, a) + b
  {
    if l.Label? {
      assert l.after + ([COLON] + (a + b)) == (l.after + ([COLON] + a)) + b;
      WriteStringRest(l.name, l.after + ([COLON] + a), b);
      var s := WriteString(l.name, l.after + ([COLON] + a));
      assert l.before + (s + b) == (l.before + s) + b;
    }
  }

  lemma {:induction false} WriteElementRest(e: Element, a: Text, b: Text)
    ensures WriteElement(e, a + b) == WriteElement(e, a) + b
    decreases e
  {
    assert e.after + (a + b) == (e.after + a) + b;
    WriteValueRest(e.value, e.after + a, b);
    var t := WriteValue(e.value, e.after + a);
    assert e.before + (t + b) == (e.before + t) + b;
  }

  lemma {:induction false} WriteSlotsRest(s: Slots, a: Text, b: Text)
    ensures WriteSlots(s, a + b) == WriteSlots(s, a) + b
    decreases s
  {
    match s
    case Last(head, e) =>
      WriteElementRest(e, a, b);
      WriteLabelRest(head, WriteElement(e, a), b);
    case More(head, e, rest) =>
      WriteSlotsRest(rest, a, b);
      var next := [COMMA] + WriteSlots(rest, a);
      assert [COMMA] + (WriteSlots(rest, a) + b) == next + b;
      WriteElementRest(e, next, b);
      WriteLabelRest(head, WriteElement(e, next), b);
  }

  function SerializedDocument(v: Json): Element {
    Element([], Tree(SortValue(v)), [NEWLINE])
  }

  lemma SerializedIsDocument(v: Json)
    ensures ValidElement(SerializedDocument(v)) && DocumentText(SerializedDocument(v)) == Serialized(v)
    ensures Decodable(Tree(SortValue(v))) && Read(Tree(SortValue(v))) == Some(SortValue(v))
  {
    ReadTree(SortValue(v));
    WriteValueRest(Tree(SortValue(v)), [], [NEWLINE]);
    EmptyWrite(SortValue(v));
  }

  lemma EmptyWrite(v: Json)
    ensures Print(v) == WriteValue(Tree(v), [])
    ensures DocumentText(Element([], Tree(v), [NEWLINE])) == WriteValue(Tree(v), [] + [NEWLINE])
  {
    var rest: Text := [];
    assert rest + [] == [];
    assert [NEWLINE] + [] == rest + [NEWLINE];
  }

  // ----- What the printed texts read back to -----

  /** A text has one answer. */
  lemma ParsedOnce(text: Text, p: Option<Json>, q: Option<Json>)
    requires ParsesTo(text, p) && ParsesTo(text, q)
    ensures p == q
  {
    if p.Some? && q.Some? {
      var e, v :| Parses(text, e, v) && p == Some(Merge(v));
      var d, w :| Parses(text, d, w) && q == Some(Merge(w));
      DocumentUnique(e, d);
    }
  }

  /** The answer to a text, where there is one. */
  ghost function Answer(text: Text): Option<Json> {
    if exists parsed :: ParsesTo(text, parsed) then var parsed :| ParsesTo(text, parsed); parsed else None
  }

  /** There is a parser: what is expected of one never asks for two answers, nor for a value that repeats a name. */
  lemma AnswerIsParser()
    ensures IsParser(Answer)
  {
    forall text, parsed | ParsesTo(text, parsed) ensures Answer(text) == parsed {
      ParsedOnce(text, Answer(text), parsed);
    }
    forall text | Answer(text).Some? ensures WellFormed(Answer(text).value) {
      var e, w :| Parses(text, e, w) && Answer(text).value == Merge(w);
      MergeWellFormed(w);
    }
  }

  lemma SortedIsSettled(v: Json)
    requires WellFormed(v)
    ensures WellFormed(SortValue(v)) && Merge(SortValue(v)) == SortValue(v)
    ensures SameUpToOrder(v, SortValue(v)) && CanonicalText(SortValue(v)) == CanonicalText(v)
  {
    CanonicalTextIdempotent(v);
    SortKeepsWellFormed(v);
    MergeFixes(SortValue(v));
  }

  /** Canonical text is read as the sorted value. */
  lemma CanonicalParses(v: Json)
    requires WellFormed(v)
    ensures ParsesTo(CanonicalText(v), Some(SortValue(v)))
  {
    var document := Document(Tree(SortValue(v)));
    ReadTree(SortValue(v));
    assert Parses(CanonicalText(v), document, SortValue(v));
    SortedIsSettled(v);
  }

  /** So is the serialized text, and it passes the nesting check when the value is within the bounds. */
  lemma SerializedParses(v: Json)
    requires WellFormed(v)
    ensures ParsesTo(Serialized(v), Some(SortValue(v)))
    ensures ValidJsonValue(v, 0) ==> WellNested(Serialized(v))
  {
    SerializedIsDocument(v);
    var document := SerializedDocument(v);
    assert Parses(Serialized(v), document, SortValue(v));
    SortedIsSettled(v);
    if ValidJsonValue(v, 0) {
      NestingIsContainerDepth(document);
      TreeDepth(SortValue(v));
      SortDepth(v);
      ValidDepth(v, 0);
    }
  }
}
