/** The codec of V2 candidates over JSON text: the scan for repeated names, parsing, validation and canonical form. */
module CandidateCodec {
  import opened Options
  import opened JsonText
  import opened JsonTokens
  import opened JsonValues
  import opened CanonicalJson
  import opened JsonNesting
  import opened ReceiptJson
  import opened SerializedReceipt
  import opened Sequences
  import opened Utf8
  import StrictJson
  import opened JsonTally
  import CandidateV2
  import opened CandidateValidation

  // ----- What the scan refuses, in the order it meets it -----

  const MAX_NESTING := 64

  /** No name is repeated and no value lies below the deepest level, in a value found at level `depth`. */
  ghost predicate Clean(v: Value, depth: nat)
    requires ValidValue(v)
  {
    depth <= MAX_NESTING
    && match v
       case Full(kind, slots) => SlotsClean(slots, kind, {}, depth + 1)
       case _ => true
  }

  ghost predicate SlotsClean(s: Slots, kind: Kind, seen: set<Text>, depth: nat)
    requires ValidSlots(s, kind)
  {
    && (kind == Record ==> Meaning(s.head.name) !in seen)
    && Clean(s.element.value, depth)
    && (s.More? ==> SlotsClean(s.rest, kind, Noted(s, kind, seen), depth))
  }

  function Noted(s: Slots, kind: Kind, seen: set<Text>): set<Text>
    requires kind == Record ==> s.head.Label? && ValidUnits(s.head.name)
  {
    if kind == Record then seen + {Meaning(s.head.name)} else seen
  }

  lemma {:induction false} CleanIff(v: Value, depth: nat)
    requires ValidValue(v)
    ensures Clean(v, depth) <==> depth + StrictJson.Height(v) <= MAX_NESTING + 1 && StrictJson.NoRepeats(v)
    decreases v
  {
    if v.Full? {
      SlotsCleanIff(v.slots, v.kind, {}, depth + 1);
    }
  }

  lemma {:induction false} SlotsCleanIff(s: Slots, kind: Kind, seen: set<Text>, depth: nat)
    requires ValidSlots(s, kind)
    ensures SlotsClean(s, kind, seen, depth) <==>
      && depth + StrictJson.SlotsHeight(s) <= MAX_NESTING + 1
      && StrictJson.Fresh(StrictJson.Names(s, kind), seen) && StrictJson.NoInnerRepeats(s, kind)
    decreases s
  {
    CleanIff(s.element.value, depth);
    var more := match s case Last(_, _) => [] case More(_, _, rest) => StrictJson.Names(rest, kind);
    if s.More? {
      SlotsCleanIff(s.rest, kind, Noted(s, kind, seen), depth);
    }
    if kind == Record {
      StrictJson.FreshStep(Meaning(s.head.name), more, seen);
      assert StrictJson.Names(s, kind) == [Meaning(s.head.name)] + more;
    } else {
      assert StrictJson.Names(s, kind) == more;
    }
  }

  lemma TrimmedClean(s: Slots, kind: Kind, seen: set<Text>, depth: nat)
    requires ValidSlots(s, kind) && ValidSlots(StrictJson.Trimmed(s), kind)
    ensures SlotsClean(StrictJson.Trimmed(s), kind, seen, depth) <==> SlotsClean(s, kind, seen, depth)
  {
  }

  // ----- The scan -----

  /** What the text after a string's opening quote starts with. */
  lemma NextUnit(us: seq<Unit>, rest: Text)
    requires ValidUnits(us)
    ensures WriteUnits(us, [QUOTE] + rest) != []
    ensures us == [] ==> WriteUnits(us, [QUOTE] + rest) == [QUOTE] + rest
    ensures us != [] ==> WriteUnits(us, [QUOTE] + rest) == UnitText(us[0]) + WriteUnits(us[1..], [QUOTE] + rest)
  {
  }

  /**
    * The scan for repeated names that runs before a candidate is parsed. As for the strict scanner, the ghost
    * arguments say what stands at the cursor when `known` holds.
    */
  class KeyScanner {
    const text: Text
    var cursor: nat

    constructor (text: Text)
      ensures this.text == text && cursor == 0
    {
      this.text, cursor := text, 0;
    }

    predicate At(tail: Text)
      reads `cursor
    {
      cursor <= |text| && text[cursor..] == tail
    }

    predicate Sees(c: CodeUnit)
      reads `cursor
    {
      cursor < |text| && text[cursor] == c
    }

    ghost predicate Facing(kind: Kind, s: Slots, end: Text)
      reads `cursor
    {
      ValidSlots(s, kind) && At(WriteSlots(s, end))
    }

    method SkipWhitespace(ghost known: bool, ghost before: Text, ghost rest: Text)
      requires cursor <= |text|
      requires known ==> At(before + rest) && AllWs(before) && StrictJson.Begins(rest)
      modifies `cursor
      ensures old(cursor) <= cursor <= |text|
      ensures known ==> At(rest)
    {
      ghost var gone := 0;
      assert known ==> before[0..] == before;
      while cursor < |text| && StrictJson.IsJsSpace(text[cursor])
        invariant old(cursor) <= cursor <= |text|
        invariant known ==> gone <= |before| && At(before[gone..] + rest)
      {
        if known {
          assert text[cursor] == (before[gone..] + rest)[0];
          assert text[cursor + 1..] == text[cursor..][1..] == before[gone + 1..] + rest;
        }
        cursor, gone := cursor + 1, gone + 1;
      }
      assert cursor < |text| ==> text[cursor] == text[cursor..][0];
    }

    /** Moves over one character or escape of a string; refuses what no string can hold. */
    method SkipUnit(ghost known: bool, ghost u: Unit, ghost rest: Text) returns (ok: bool)
      requires cursor < |text| && text[cursor] != QUOTE
      requires known ==> ValidUnit(u) && At(UnitText(u) + rest)
      modifies `cursor
      ensures ok ==> old(cursor) < cursor <= |text|
      ensures known ==> ok && At(rest)
    {
      ghost var tail := text[cursor..];
      assert known ==> forall i :: 0 <= i < |UnitText(u)| ==> text[cursor + i] == tail[i] == UnitText(u)[i];
      assert known ==> text[cursor + |UnitText(u)|..] == tail[|UnitText(u)|..] == rest;
      if text[cursor] == BACKSLASH {
        if cursor + 1 >= |text| { return false; }
        if text[cursor + 1] == LOWER_U {
          if cursor + 6 > |text| || !IsHex(text[cursor + 2]) || !IsHex(text[cursor + 3])
             || !IsHex(text[cursor + 4]) || !IsHex(text[cursor + 5]) {
            return false;
          }
          cursor := cursor + 6;
          return true;
        }
        if !IsShort(text[cursor + 1]) { return false; }
        cursor := cursor + 2;
        return true;
      }
      if text[cursor] < SPACE { return false; }
      cursor := cursor + 1;
      return true;
    }

    method ParseString(ghost known: bool, ghost us: seq<Unit>, ghost rest: Text) returns (value: Option<Text>)
      requires cursor <= |text|
      requires known ==> ValidUnits(us) && At(WriteString(us, rest))
      modifies `cursor
      ensures value.Some? ==> old(cursor) < cursor <= |text|
      ensures known ==> value == Some(Meaning(us)) && At(rest)
    {
      assert known ==> text[cursor] == text[cursor..][0];
      if !Sees(QUOTE) { return None; }
      var start := cursor;
      cursor := cursor + 1;
      assert known ==> text[cursor..] == text[start..][1..];
      if known { NextUnit(us, rest); }
      var closed := SkipUnits(known, us, rest);
      if !closed { return None; }
      if known { StrictJson.TokenIs(text, start, cursor, us, rest); }
      return Decode(text[start + 1..cursor]);
    }

    /** The loop over a string's characters, past its closing quote. */
    method SkipUnits(ghost known: bool, ghost us: seq<Unit>, ghost rest: Text) returns (closed: bool)
      requires cursor <= |text|
      requires known ==> ValidUnits(us) && At(WriteUnits(us, [QUOTE] + rest))
      modifies `cursor
      ensures closed ==> old(cursor) < cursor <= |text|
      ensures known ==> closed && At(rest)
    {
      ghost var k := 0;
      assert known ==> us[0..] == us;
      if known { NextUnit(us, rest); }
      while cursor < |text|
        invariant old(cursor) <= cursor <= |text|
        invariant known ==> k <= |us| && cursor < |text| && At(WriteUnits(us[k..], [QUOTE] + rest))
        decreases |text| - cursor
      {
        if known { NextUnit(us[k..], rest); }
        assert text[cursor] == text[cursor..][0];
        if text[cursor] == QUOTE {
          assert known ==> k == |us| && text[cursor + 1..] == text[cursor..][1..] == rest;
          cursor := cursor + 1;
          return true;
        }
        assert known ==> us[k..][1..] == us[k + 1..];
        var ok := SkipUnit(known, if known then us[k] else Plain(SPACE),
                           if known then WriteUnits(us[k + 1..], [QUOTE] + rest) else []);
        if !ok { return false; }
        if known { NextUnit(us[k + 1..], rest); }
        k := k + 1;
      }
      return false;
    }

    method ParseValue(depth: nat, ghost known: bool, ghost before: Text, ghost v: Value, ghost rest: Text)
      returns (ok: bool)
      requires cursor <= |text|
      requires known ==> AllWs(before) && ValidValue(v) && Stops(rest) && At(before + WriteValue(v, rest))
      modifies `cursor
      ensures ok ==> old(cursor) < cursor <= |text|
      ensures known ==> (ok <==> Clean(v, depth)) && (ok ==> At(rest))
      decreases |text| - cursor, 2
    {
      if depth > MAX_NESTING { return false; }
      if known { StrictJson.ValueBegins(v, rest); }
      SkipWhitespace(known, before, if known then WriteValue(v, rest) else []);
      ok := ParseHere(depth, known, v, rest);
    }

    /** `parseValue` after white space. */
    method ParseHere(depth: nat, ghost known: bool, ghost v: Value, ghost rest: Text) returns (ok: bool)
      requires cursor <= |text| && depth <= MAX_NESTING
      requires known ==> ValidValue(v) && Stops(rest) && At(WriteValue(v, rest))
      modifies `cursor
      ensures ok ==> old(cursor) < cursor <= |text|
      ensures known ==> (ok <==> Clean(v, depth)) && (ok ==> At(rest))
      decreases |text| - cursor, 1
    {
      if known { ValueStart(v, rest); }
      assert known ==> cursor < |text| && text[cursor] == text[cursor..][0];
      if Sees(OPEN_BRACE) {
        ok := ParseContainer(Record, depth + 1, known, v, rest);
      } else if Sees(OPEN_BRACKET) {
        ok := ParseContainer(List, depth + 1, known, v, rest);
      } else {
        ok := ParseScalar(known, v, rest);
      }
    }

    method ParseScalar(ghost known: bool, ghost v: Value, ghost rest: Text) returns (ok: bool)
      requires cursor <= |text|
      requires known ==> ValidValue(v) && Stops(rest) && At(WriteValue(v, rest)) && !v.Empty? && !v.Full?
      modifies `cursor
      ensures ok ==> old(cursor) < cursor <= |text|
      ensures known ==> ok && At(rest)
    {
      if known {
        ValueStart(v, rest);
        assert text[cursor] == text[cursor..][0];
      }
      if Sees(QUOTE) {
        var value := ParseString(known, if known then v.units else [], rest);
        return value.Some?;
      }
      ok := ParseWordOrNumber(known, v, rest);
    }

    method ParseWordOrNumber(ghost known: bool, ghost v: Value, ghost rest: Text) returns (ok: bool)
      requires cursor <= |text|
      requires known ==> ValidValue(v) && Stops(rest) && At(WriteValue(v, rest)) && (v.Literal? || v.Numeric?)
      modifies `cursor
      ensures ok ==> old(cursor) < cursor <= |text|
      ensures known ==> ok && At(rest)
    {
      if known {
        ScalarMatch(v, rest);
        StrictJson.ScalarRest(v, rest);
      }
      var length := ScalarLength(text[cursor..]);
      if length.None? { return false; }
      assert text[cursor + length.value..] == text[cursor..][length.value..];
      cursor := cursor + length.value;
      return true;
    }

    /** `parseObject` and `parseArray` up to their loops: the bracket, white space, and an empty container's end. */
    method ParseContainer(kind: Kind, depth: nat, ghost known: bool, ghost v: Value, ghost rest: Text)
      returns (ok: bool)
      requires Sees(Open(kind)) && 0 < depth <= MAX_NESTING + 1
      requires known ==> ValidValue(v) && Stops(rest) && At(WriteValue(v, rest)) && (v.Empty? || v.Full?)
                         && v.kind == kind
      modifies `cursor
      ensures ok ==> old(cursor) < cursor <= |text|
      ensures known ==> (ok <==> Clean(v, depth - 1)) && (ok ==> At(rest))
      decreases |text| - cursor, 0
    {
      ghost var end := [Close(kind)] + rest;
      ghost var next := if known then StrictJson.AfterInside(v, end) else [];
      if known {
        StrictJson.InsideText(v, rest);
        assert text[cursor + 1..] == text[cursor..][1..];
      }
      cursor := cursor + 1;
      SkipWhitespace(known, if known then StrictJson.Inside(v) else [], next);
      assert known ==> text[cursor] == text[cursor..][0];
      if Sees(Close(kind)) {
        assert known ==> v.Empty? && text[cursor + 1..] == text[cursor..][1..] == rest;
        cursor := cursor + 1;
        return true;
      }
      ghost var slots: Slots := if known then StrictJson.Trimmed(v.slots)
          else Last(Unlabelled, Element([], Literal(Null), []));
      if known {
        StrictJson.TrimmedIsSame(v.slots, kind, end);
        TrimmedClean(v.slots, kind, {}, depth);
      }
      if kind == Record {
        ok := ParseMembers(depth, known, slots, rest);
      } else {
        ok := ParseItems(depth, known, slots, rest);
      }
    }

    /** The closing bracket, or the comma before the next slot. */
    method ParseSeparator(kind: Kind, ghost known: bool, ghost s: Slots, ghost rest: Text)
      returns (more: bool, closed: bool)
      requires cursor <= |text|
      requires known ==> ValidSlots(s, kind) && At(StrictJson.AfterSlot(s, [Close(kind)] + rest))
      modifies `cursor
      ensures more || closed ==> old(cursor) < cursor <= |text|
      ensures known ==> more == s.More? && closed == s.Last?
      ensures known ==> if more then Facing(kind, s.rest, [Close(kind)] + rest) else At(rest)
    {
      assert known ==> cursor < |text| && text[cursor] == text[cursor..][0];
      assert known ==> text[cursor + 1..] == text[cursor..][1..];
      if Sees(Close(kind)) {
        cursor := cursor + 1;
        return false, true;
      }
      if !Sees(COMMA) { return false, false; }
      cursor := cursor + 1;
      return true, false;
    }

    method ParseMembers(depth: nat, ghost known: bool, ghost slots: Slots, ghost rest: Text) returns (ok: bool)
      requires cursor <= |text|
      requires known ==> Facing(Record, slots, [CLOSE_BRACE] + rest)
      modifies `cursor
      ensures ok ==> old(cursor) < cursor <= |text|
      ensures known ==> (ok <==> SlotsClean(slots, Record, {}, depth)) && (ok ==> At(rest))
      decreases |text| - cursor, 5
    {
      var keys: set<Text> := {};
      ghost var s, end := slots, [CLOSE_BRACE] + rest;
      while true
        invariant old(cursor) <= cursor <= |text|
        invariant known ==> Facing(Record, s, end)
        invariant known ==> (SlotsClean(slots, Record, {}, depth) <==> SlotsClean(s, Record, keys, depth))
        decreases |text| - cursor
      {
        var read, key := ParseMember(depth, keys, known, s, end);
        if !read { return false; }
        keys := keys + {key};
        var more, closed := ParseSeparator(Record, known, s, rest);
        if !more { return closed; }
        s := if known then s.rest else s;
      }
    }

    method ParseMember(depth: nat, keys: set<Text>, ghost known: bool, ghost s: Slots, ghost end: Text)
      returns (ok: bool, key: Text)
      requires cursor <= |text|
      requires known ==> Facing(Record, s, end) && end != [] && EndsElement(end)
      modifies `cursor
      ensures ok ==> old(cursor) < cursor <= |text|
      ensures known ==> (ok <==> Meaning(s.head.name) !in keys && Clean(s.element.value, depth))
      ensures known && ok ==> At(StrictJson.AfterSlot(s, end)) && key == Meaning(s.head.name)
      decreases |text| - cursor, 4
    {
      ghost var next := if known then StrictJson.AfterSlot(s, end) else [];
      ok, key := ParseKey(keys, known, s.head, if known then WriteElement(s.element, next) else []);
      if ok {
        ok := ParseElement(depth, known, s.element, next);
      }
    }

    method ParseKey(keys: set<Text>, ghost known: bool, ghost l: Label, ghost rest: Text) returns (ok: bool, key: Text)
      requires cursor <= |text|
      requires known ==> ValidLabel(l, Record) && At(WriteLabel(l, rest))
      modifies `cursor
      ensures ok ==> old(cursor) < cursor <= |text|
      ensures known ==> (ok <==> Meaning(l.name) !in keys)
      ensures known && ok ==> At(rest) && key == Meaning(l.name)
    {
      var name := ParseName(known, l, rest);
      if name.None? { return false, []; }
      key := name.value;
      if key in keys { return false, key; }
      ok := ParseColon(known, if known then l.after else [], rest);
    }

    method ParseName(ghost known: bool, ghost l: Label, ghost rest: Text) returns (name: Option<Text>)
      requires cursor <= |text|
      requires known ==> ValidLabel(l, Record) && At(WriteLabel(l, rest))
      modifies `cursor
      ensures name.Some? ==> old(cursor) < cursor <= |text|
      ensures known ==> name == Some(Meaning(l.name)) && At(l.after + ([COLON] + rest))
    {
      ghost var tail := if known then l.after + ([COLON] + rest) else [];
      SkipWhitespace(known, if known then l.before else [], if known then WriteString(l.name, tail) else []);
      name := ParseString(known, if known then l.name else [], tail);
    }

    method ParseColon(ghost known: bool, ghost before: Text, ghost rest: Text) returns (ok: bool)
      requires cursor <= |text|
      requires known ==> AllWs(before) && At(before + ([COLON] + rest))
      modifies `cursor
      ensures ok ==> old(cursor) < cursor <= |text|
      ensures known ==> ok && At(rest)
    {
      SkipWhitespace(known, before, [COLON] + rest);
      assert known ==> text[cursor] == text[cursor..][0];
      assert known ==> text[cursor + 1..] == text[cursor..][1..] == rest;
      if !Sees(COLON) { return false; }
      cursor := cursor + 1;
      return true;
    }

    /** A value with the white space around it. */
    method ParseElement(depth: nat, ghost known: bool, ghost e: Element, ghost next: Text) returns (ok: bool)
      requires cursor <= |text|
      requires known ==> ValidElement(e) && EndsElement(next) && next != [] && At(WriteElement(e, next))
      modifies `cursor
      ensures ok ==> old(cursor) < cursor <= |text|
      ensures known ==> (ok <==> Clean(e.value, depth)) && (ok ==> At(next))
      decreases |text| - cursor, 3
    {
      ok := ParseValue(depth, known, e.before, e.value, e.after + next);
      if ok {
        SkipWhitespace(known, e.after, next);
      }
    }

    method ParseItems(depth: nat, ghost known: bool, ghost slots: Slots, ghost rest: Text) returns (ok: bool)
      requires cursor <= |text|
      requires known ==> Facing(List, slots, [CLOSE_BRACKET] + rest)
      modifies `cursor
      ensures ok ==> old(cursor) < cursor <= |text|
      ensures known ==> (ok <==> SlotsClean(slots, List, {}, depth)) && (ok ==> At(rest))
      decreases |text| - cursor, 5
    {
      ghost var s, end := slots, [CLOSE_BRACKET] + rest;
      while true
        invariant old(cursor) <= cursor <= |text|
        invariant known ==> Facing(List, s, end)
        invariant known ==> (SlotsClean(slots, List, {}, depth) <==> SlotsClean(s, List, {}, depth))
        decreases |text| - cursor
      {
        var read := ParseElement(depth, known, s.element, if known then StrictJson.AfterSlot(s, end) else []);
        if !read { return false; }
        var more, closed := ParseSeparator(List, known, s, rest);
        if !more { return closed; }
        s := if known then s.rest else s;
      }
    }

    /** The whole scan; on a JSON text it refuses exactly repeated names and too deep a nesting. */
    method AssertNoDuplicateJsonKeys(ghost known: bool, ghost e: Element) returns (ok: bool)
      requires cursor == 0
      requires known ==> ValidElement(e) && text == DocumentText(e)
      modifies `cursor
      ensures known ==> (ok <==> StrictJson.Height(e.value) <= MAX_NESTING + 1 && StrictJson.NoRepeats(e.value))
    {
      assert text[0..] == text;
      assert e.after + [] == e.after;
      if known { CleanIff(e.value, 0); }
      ok := ParseValue(0, known, e.before, e.value, e.after);
      if ok {
        SkipWhitespace(known, e.after, []);
        assert known ==> |text[cursor..]| == 0;
        ok := cursor == |text|;
      }
    }
  }

  // ----- Printed values are clean -----

  function KeysInOrder(ms: Members): seq<Text> {
    match ms case NoMembers => [] case Member(key, _, rest) => [key] + KeysInOrder(rest)
  }

  lemma {:induction false} KeysListed(ms: Members)
    ensures forall k :: k in KeysInOrder(ms) <==> k in Keys(ms)
  {
    if ms.Member? {
      KeysListed(ms.rest);
    }
  }

  /** The tree of a value has the value's levels, and repeats a name only if the value does. */
  lemma {:induction false} TreeIsClean(v: Json)
    requires WellFormed(v)
    ensures ValidValue(Tree(v)) && StrictJson.NoRepeats(Tree(v)) && StrictJson.Height(Tree(v)) == TallyOf(v).height
    decreases v
  {
    ReadTree(v);
    match v
    case JArray(items) => if items.Item? { ItemsAreClean(items); }
    case JObject(members) => if members.Member? { MembersAreClean(members); }
    case _ =>
  }

  lemma {:induction false} ItemsAreClean(items: Items)
    requires items.Item? && ItemsWellFormed(items)
    ensures ValidSlots(ItemSlots(items), List) && StrictJson.NoInnerRepeats(ItemSlots(items), List)
    ensures StrictJson.Names(ItemSlots(items), List) == []
    ensures StrictJson.SlotsHeight(ItemSlots(items)) == ItemsTally(items).height
    decreases items
  {
    ReadItemSlots(items);
    TreeIsClean(items.value);
    if items.rest.Item? {
      ItemsAreClean(items.rest);
    }
  }

  lemma {:induction false} MembersAreClean(ms: Members)
    requires ms.Member? && MembersWellFormed(ms)
    ensures ValidSlots(MemberSlots(ms), Record) && StrictJson.NoInnerRepeats(MemberSlots(ms), Record)
    ensures StrictJson.Names(MemberSlots(ms), Record) == KeysInOrder(ms) && Distinct(KeysInOrder(ms))
    ensures StrictJson.SlotsHeight(MemberSlots(ms)) == MembersTally(ms).height
    decreases ms
  {
    ReadMemberSlots(ms);
    EscapeMeans(ms.key);
    TreeIsClean(ms.value);
    KeysListed(ms.rest);
    if ms.rest.Member? {
      MembersAreClean(ms.rest);
    }
    assert ms.key !in KeysInOrder(ms.rest);
  }

  lemma CanonicalTreeIsClean(v: Json, e: Element)
    requires WellFormed(v) && TallyOf(v).height <= MAX_NESTING + 1 && ValidElement(e)
        && DocumentText(e) == CanonicalText(v)
    ensures StrictJson.Height(e.value) <= MAX_NESTING + 1 && StrictJson.NoRepeats(e.value)
  {
    SortKeepsWellFormed(v);
    TreeIsClean(SortValue(v));
    DocumentUnique(e, Document(Tree(SortValue(v))));
    SortTally(v);
  }

  // ----- The codec -----

  /** The canonical text of the validated candidate, within the byte limit. */
  function EncodeExactGraphCandidateV2(v: Json, p: CandidateV2.Platform): Option<Text>
    requires CandidateV2.Sane(p)
  {
    match ValidateCandidateV2Payload(v, p)
    case None => None
    case Some(w) => if Utf8Size(CanonicalText(w)) <= MAX_CANDIDATE_BYTES then Some(CanonicalText(w)) else None
  }

  predicate WithinLimit(text: Text, lowerByteLimit: Option<int>) {
    match lowerByteLimit
    case None => Utf8Size(text) <= MAX_CANDIDATE_BYTES
    case Some(limit) => 0 < limit <= MAX_CANDIDATE_BYTES && Utf8Size(text) <= limit
  }

  /** Encoding is the canonical text of the payload itself: validation keeps it and has already bounded its size. */
  lemma EncodingIsCanonical(v: Json, p: CandidateV2.Platform)
    requires CandidateV2.Sane(p) && WellFormed(v)
    ensures EncodeExactGraphCandidateV2(v, p) ==
            if ValidateCandidateV2Payload(v, p).Some? then Some(CanonicalText(v)) else None
  {
    if ValidateCandidateV2Payload(v, p).Some? {
      AcceptedIsRecompiled(v, p);
    }
  }

  /** Accepts exactly the encodings, and answers the compiled candidate that has this encoding. */
  method DecodeExactGraphCandidateV2(text: Text, lowerByteLimit: Option<int>, parse: Parser, p: CandidateV2.Platform)
    returns (candidate: Option<Json>)
    requires IsParser(parse) && CandidateV2.Sane(p)
    ensures candidate.Some? <==> WithinLimit(text, lowerByteLimit)
                                 && exists v :: WellFormed(v) && EncodeExactGraphCandidateV2(v, p) == Some(text)
    ensures candidate.Some? ==> WellFormed(candidate.value)
                                && EncodeExactGraphCandidateV2(candidate.value, p) == Some(text)
  {
    var byteLimit := if lowerByteLimit.Some? then lowerByteLimit.value else MAX_CANDIDATE_BYTES;
    if byteLimit <= 0 || byteLimit > MAX_CANDIDATE_BYTES { return None; }
    if Utf8Size(text) > byteLimit { return None; }
    ghost var encoded := exists v :: WellFormed(v) && EncodeExactGraphCandidateV2(v, p) == Some(text);
    ghost var tree := Element([], Literal(Null), []);
    if encoded {
      ghost var v :| WellFormed(v) && EncodeExactGraphCandidateV2(v, p) == Some(text);
      tree := Document(Tree(SortValue(v)));
      EncodingDecodes(v, text, parse, p);
    }
    var scanner := new KeyScanner(text);
    var clean := scanner.AssertNoDuplicateJsonKeys(encoded, tree);
    if !clean { return None; }
    var parsed := parse(text);
    if parsed.None? { return None; }
    candidate := ValidateCandidateV2Payload(parsed.value, p);
    if candidate.None? || text != CanonicalText(candidate.value) { return None; }
    AnswerIsEncoding(parsed.value, p);
  }

  /** The answer of validation is itself encoded, as its own canonical text. */
  lemma AnswerIsEncoding(v: Json, p: CandidateV2.Platform)
    requires CandidateV2.Sane(p) && WellFormed(v) && ValidateCandidateV2Payload(v, p).Some?
    ensures var c := ValidateCandidateV2Payload(v, p).value;
            WellFormed(c) && EncodeExactGraphCandidateV2(c, p) == Some(CanonicalText(c))
  {
    var c := ValidateCandidateV2Payload(v, p).value;
    EncodingIsCanonical(v, p);
    AcceptedIsRecompiled(v, p);
    ValidationIsOrderBlind(v, c, p);
    EncodingIsCanonical(c, p);
  }

  /**
    * On an encoding every check of decoding passes: the scan, parsing, validation and the comparison with the
    * canonical text.
    */
  lemma EncodingDecodes(v: Json, text: Text, parse: Parser, p: CandidateV2.Platform)
    requires IsParser(parse) && CandidateV2.Sane(p) && WellFormed(v) && EncodeExactGraphCandidateV2(v, p) == Some(text)
    ensures var tree := Document(Tree(SortValue(v)));
            ValidElement(tree) && DocumentText(tree) == text
            && StrictJson.Height(tree.value) <= MAX_NESTING + 1 && StrictJson.NoRepeats(tree.value)
    ensures parse(text) == Some(SortValue(v)) && ValidateCandidateV2Payload(SortValue(v), p).Some?
    ensures CanonicalText(ValidateCandidateV2Payload(SortValue(v), p).value) == text
  {
    EncodingIsCanonical(v, p);
    SortedIsSettled(v);
    CanonicalParses(v);
    CanonicalTextReadsBack(v, Document(Tree(SortValue(v))));
    CanonicalTreeIsClean(v, Document(Tree(SortValue(v))));
    ValidationIsOrderBlind(v, SortValue(v), p);
    AcceptedIsRecompiled(v, p);
  }

  /**
    * Two accepted payloads have the same encoding exactly when they are the same candidate, whatever their member
    * order.
    */
  lemma OneEncodingPerCandidate(v: Json, w: Json, p: CandidateV2.Platform)
    requires CandidateV2.Sane(p) && WellFormed(v) && WellFormed(w)
    requires EncodeExactGraphCandidateV2(v, p).Some? && EncodeExactGraphCandidateV2(w, p).Some?
    ensures EncodeExactGraphCandidateV2(v, p) == EncodeExactGraphCandidateV2(w, p) <==> SameUpToOrder(v, w)
  {
    EncodingIsCanonical(v, p);
    EncodingIsCanonical(w, p);
    CanonicalTextDecides(v, w);
  }

  /** One text per compilation: payloads that declare alike are encoded alike. */
  lemma OneEncodingPerDeclarations(v: Json, w: Json, p: CandidateV2.Platform)
    requires CandidateV2.Sane(p) && WellFormed(v) && WellFormed(w)
    requires EncodeExactGraphCandidateV2(v, p).Some? && EncodeExactGraphCandidateV2(w, p).Some?
    ensures v.JObject? && w.JObject?
    ensures DeclareAlike(Claimed(v.members), Claimed(w.members)) ==>
              EncodeExactGraphCandidateV2(v, p) == EncodeExactGraphCandidateV2(w, p)
  {
    if DeclareAlike(Claimed(v.members), Claimed(w.members)) {
      DerivedPartsAreDetermined(v, w, p);
    }
  }

  /**
    * The scan refuses nothing that the later checks would let through: canonical text of a candidate always passes
    * it.
    */
  lemma ScanIsImplied(v: Json, p: CandidateV2.Platform, e: Element)
    requires CandidateV2.Sane(p) && WellFormed(v) && ValidateCandidateV2Payload(v, p).Some?
    requires ValidElement(e) && DocumentText(e) == CanonicalText(ValidateCandidateV2Payload(v, p).value)
    ensures StrictJson.Height(e.value) <= MAX_NESTING + 1 && StrictJson.NoRepeats(e.value)
  {
    AcceptedIsRecompiled(v, p);
    CanonicalTreeIsClean(v, e);
  }
}
