/** Counting the values, levels and bytes of a JSON value, and the clone that bounds them. */
module JsonTally {
  import opened Numbers
  import opened JsonText
  import opened JsonTokens
  import opened JsonValues
  import opened CanonicalJson
  import opened Sequences
  import opened Utf8

  const MAX_VISITS := 50_000
  const MAX_CLONE_DEPTH := 64

  /**
    * The values in a JSON value, its levels, the bytes of its words and strings, and the bytes of its canonical text.
    */
  datatype Tally = Tally(visits: nat, height: nat, bytes: nat, size: nat)

  const NOTHING := Tally(0, 0, 0, 0)

  function Plus(a: Tally, b: Tally): Tally {
    Tally(a.visits + b.visits, Max(a.height, b.height), a.bytes + b.bytes, a.size + b.size)
  }

  /** One container around its content, of which every part brings its own comma or closing bracket. */
  function Around(content: Tally): Tally {
    Tally(1 + content.visits, 1 + content.height, content.bytes, 1 + Max(1, content.size))
  }

  /** The bytes of a string between its quotes. */
  function EscapedSize(s: Text): nat {
    if s == [] then 0
    else if |s| > 1 && LeadSurrogate(s[0]) && TrailSurrogate(s[1]) then 4 + EscapedSize(s[2..])
    else UnitSize(EscapeOne(s[0])) + EscapedSize(s[1..])
  }

  function UnitSize(u: Unit): nat {
    match u
    case Plain(c) => if c < 0x80 then 1 else if c < 0x800 then 2 else 3
    case Short(_) => 2
    case Hex(_, _, _, _) => 6
  }

  function StringSize(s: Text): nat {
    2 + EscapedSize(s)
  }

  function IntSize(n: int): (size: nat)
    ensures size > 0
  {
    IntIsAscii(n);
    |IntText(n)|
  }

  function TallyOf(v: Json): (t: Tally)
    ensures t.visits > 0 && t.height > 0 && t.size > 0
  {
    match v
    case JNull => Tally(1, 1, 1, 4)
    case JBool(b) => Tally(1, 1, 1, if b then 4 else 5)
    case JInt(n) => Tally(1, 1, 0, IntSize(n))
    case JString(s) => Tally(1, 1, Utf8Size(s), StringSize(s))
    case JArray(items) => Around(ItemsTally(items))
    case JObject(members) => Around(MembersTally(members))
  }

  /** A value in a list, with the comma or bracket after it. */
  function Listed(t: Tally): Tally {
    t.(size := t.size + 1)
  }

  function ItemsTally(items: Items): Tally {
    match items case NoItems => NOTHING case Item(value, rest) => Plus(Listed(TallyOf(value)), ItemsTally(rest))
  }

  /** A member: its key, a colon, its value, and the comma or bracket after it. */
  function Keyed(key: Text, t: Tally): Tally {
    t.(bytes := t.bytes + Utf8Size(key), size := StringSize(key) + t.size + 2)
  }

  function MembersTally(ms: Members): Tally {
    match ms case NoMembers => NOTHING
      case Member(key, value, rest) => Plus(Keyed(key, TallyOf(value)), MembersTally(rest))
  }

  // ----- Values and levels alone -----

  function Visits(v: Json): nat {
    match v case JArray(items) => 1 + ItemsVisits(items) case JObject(members) => 1 + MembersVisits(members) case _ => 1
  }

  function ItemsVisits(items: Items): nat {
    match items case NoItems => 0 case Item(value, rest) => Visits(value) + ItemsVisits(rest)
  }

  function MembersVisits(ms: Members): nat {
    match ms case NoMembers => 0 case Member(_, value, rest) => Visits(value) + MembersVisits(rest)
  }

  function Levels(v: Json): nat {
    match v case JArray(items) => 1 + ItemsLevels(items) case JObject(members) => 1 + MembersLevels(members) case _ => 1
  }

  function ItemsLevels(items: Items): nat {
    match items case NoItems => 0 case Item(value, rest) => Max(Levels(value), ItemsLevels(rest))
  }

  function MembersLevels(ms: Members): nat {
    match ms case NoMembers => 0 case Member(_, value, rest) => Max(Levels(value), MembersLevels(rest))
  }

  lemma {:induction false} TallyCounts(v: Json)
    ensures TallyOf(v).visits == Visits(v) && TallyOf(v).height == Levels(v)
    decreases v
  {
    match v
    case JArray(items) => ItemsCount(items);
    case JObject(members) => MembersCount(members);
    case _ =>
  }

  lemma {:induction false} ItemsCount(items: Items)
    ensures ItemsTally(items).visits == ItemsVisits(items) && ItemsTally(items).height == ItemsLevels(items)
    decreases items
  {
    if items.Item? {
      TallyCounts(items.value);
      ItemsCount(items.rest);
    }
  }

  lemma {:induction false} MembersCount(ms: Members)
    ensures MembersTally(ms).visits == MembersVisits(ms) && MembersTally(ms).height == MembersLevels(ms)
    decreases ms
  {
    if ms.Member? {
      TallyCounts(ms.value);
      MembersCount(ms.rest);
    }
  }

  // ----- The size counted is the size of the canonical text -----

  lemma {:induction false} AsciiFirst(a: Text, rest: Text)
    requires forall i :: 0 <= i < |a| ==> a[i] < 0x80
    ensures Utf8Size(a + rest) == |a| + Utf8Size(rest)
    decreases |a|
  {
    if a == [] {
      assert a + rest == rest;
    } else {
      AsciiFirst(a[1..], rest);
      assert (a + rest)[1..] == a[1..] + rest;
    }
  }

  lemma PairFirst(lead: CodeUnit, trail: CodeUnit, more: seq<Unit>, rest: Text)
    requires LeadSurrogate(lead) && TrailSurrogate(trail)
    ensures Utf8Size(WriteUnits([Plain(lead), Plain(trail)] + more, rest)) == 4 + Utf8Size(WriteUnits(more, rest))
  {
    var us := [Plain(lead), Plain(trail)] + more;
    var t := WriteUnits(more, rest);
    assert us[1..][1..] == more && us[1..] != [] && us[1..][0] == Plain(trail);
    assert WriteUnits(us[1..], rest) == [trail] + t;
    assert WriteUnits(us, rest) == [lead] + ([trail] + t);
    assert ([lead] + ([trail] + t))[2..] == t;
  }

  lemma {:induction false} UnitsSize(s: Text, rest: Text)
    ensures Utf8Size(WriteUnits(Escape(s), rest)) == EscapedSize(s) + Utf8Size(rest)
    decreases |s|
  {
    if s == [] {
    } else if |s| > 1 && LeadSurrogate(s[0]) && TrailSurrogate(s[1]) {
      UnitsSize(s[2..], rest);
      PairFirst(s[0], s[1], Escape(s[2..]), rest);
    } else {
      UnitsSize(s[1..], rest);
      var u, more := EscapeOne(s[0]), Escape(s[1..]);
      assert ([u] + more)[1..] == more;
      OneUnitSize(s[0], WriteUnits(more, rest));
    }
  }

  lemma OneUnitSize(c: CodeUnit, rest: Text)
    ensures Utf8Size(UnitText(EscapeOne(c)) + rest) == UnitSize(EscapeOne(c)) + Utf8Size(rest)
  {
    match EscapeOne(c)
    case Plain(d) => assert ([d] + rest)[1..] == rest;
    case Short(_) => AsciiFirst(UnitText(EscapeOne(c)), rest);
    case Hex(d0, d1, d2, d3) =>
      HexUnitMeans(c);
      AsciiFirst([BACKSLASH, LOWER_U, d0, d1, d2, d3], rest);
  }

  lemma StringIsSize(s: Text, rest: Text)
    ensures Utf8Size(WriteString(Escape(s), rest)) == StringSize(s) + Utf8Size(rest)
  {
    UnitsSize(s, [QUOTE] + rest);
    AsciiFirst([QUOTE], rest);
    AsciiFirst([QUOTE], WriteUnits(Escape(s), [QUOTE] + rest));
  }

  lemma {:induction false} ValueIsSize(v: Json, rest: Text)
    ensures Utf8Size(WriteValue(Tree(v), rest)) == TallyOf(v).size + Utf8Size(rest)
    decreases v
  {
    match v
    case JNull => AsciiFirst(WordText(Null), rest);
    case JBool(b) => AsciiFirst(WordText(if b then True else False), rest);
    case JInt(n) => IntIsAscii(n); AsciiFirst(IntText(n), rest);
    case JString(s) => StringIsSize(s, rest);
    case JArray(items) => if items.NoItems? { EmptyIsSize(List, rest); } else { ListIsSize(items, rest); }
    case JObject(members) => if members.NoMembers? { EmptyIsSize(Record, rest); } else { RecordIsSize(members, rest); }
  }

  lemma EmptyIsSize(kind: Kind, rest: Text)
    ensures Utf8Size(WriteValue(Empty(kind, []), rest)) == 2 + Utf8Size(rest)
  {
    assert [Open(kind)] + ([] + ([Close(kind)] + rest)) == [Open(kind), Close(kind)] + rest;
    AsciiFirst([Open(kind), Close(kind)], rest);
  }

  lemma {:induction false} ListIsSize(items: Items, rest: Text)
    requires items.Item?
    ensures Utf8Size(WriteValue(Full(List, ItemSlots(items)), rest)) == TallyOf(JArray(items)).size + Utf8Size(rest)
    decreases items, 1
  {
    ItemsAreSize(items, Close(List), rest);
    AsciiFirst([Open(List)], WriteSlots(ItemSlots(items), [Close(List)] + rest));
  }

  lemma {:induction false} RecordIsSize(ms: Members, rest: Text)
    requires ms.Member?
    ensures Utf8Size(WriteValue(Full(Record, MemberSlots(ms)), rest)) == TallyOf(JObject(ms)).size + Utf8Size(rest)
    decreases ms, 1
  {
    MembersAreSize(ms, Close(Record), rest);
    AsciiFirst([Open(Record)], WriteSlots(MemberSlots(ms), [Close(Record)] + rest));
  }

  lemma IntIsAscii(n: int)
    ensures |IntText(n)| > 0 && forall i :: 0 <= i < |IntText(n)| ==> IntText(n)[i] < 0x80
  {
    IntMeans(n);
    ValueOfDigits(if n < 0 then -n else n);
  }

  lemma {:induction false} ItemsAreSize(items: Items, close: CodeUnit, rest: Text)
    requires items.Item? && close < 0x80
    ensures Utf8Size(WriteSlots(ItemSlots(items), [close] + rest)) == ItemsTally(items).size + Utf8Size(rest)
    decreases items, 0
  {
    var next := if items.rest.NoItems? then [close] + rest
      else [COMMA] + WriteSlots(ItemSlots(items.rest), [close] + rest);
    ValueIsSize(items.value, next);
    assert [] + next == next && [] + WriteValue(Tree(items.value), next) == WriteValue(Tree(items.value), next);
    if items.rest.NoItems? {
      AsciiFirst([close], rest);
    } else {
      ItemsAreSize(items.rest, close, rest);
      AsciiFirst([COMMA], WriteSlots(ItemSlots(items.rest), [close] + rest));
    }
  }

  lemma {:induction false} MembersAreSize(ms: Members, close: CodeUnit, rest: Text)
    requires ms.Member? && close < 0x80
    ensures Utf8Size(WriteSlots(MemberSlots(ms), [close] + rest)) == MembersTally(ms).size + Utf8Size(rest)
    decreases ms, 0
  {
    var next := if ms.rest.NoMembers? then [close] + rest
      else [COMMA] + WriteSlots(MemberSlots(ms.rest), [close] + rest);
    ValueIsSize(ms.value, next);
    MemberIsSize(ms.key, Tree(ms.value), next);
    if ms.rest.NoMembers? {
      AsciiFirst([close], rest);
    } else {
      MembersAreSize(ms.rest, close, rest);
      AsciiFirst([COMMA], WriteSlots(MemberSlots(ms.rest), [close] + rest));
    }
  }

  lemma {:induction false} MemberIsSize(key: Text, v: Value, next: Text)
    ensures Utf8Size(WriteLabel(Label([], Escape(key), []), WriteElement(Element([], v, []), next))) ==
            StringSize(key) + 1 + Utf8Size(WriteValue(v, next))
  {
    var value := WriteValue(v, next);
    AsciiFirst([COLON], value);
    StringIsSize(key, [COLON] + value);
    EmptyConcat(next);
    EmptyConcat(value);
    EmptyConcat([COLON] + value);
    EmptyConcat(WriteString(Escape(key), [COLON] + value));
  }

  // ----- Order decides nothing -----

  /** Sorting moves members but counts nothing differently. */
  lemma {:induction false} SortTally(v: Json)
    ensures TallyOf(SortValue(v)) == TallyOf(v)
    decreases v
  {
    match v
    case JArray(items) => SortItemsTally(items);
    case JObject(members) => SortMembersTally(members);
    case _ =>
  }

  lemma {:induction false} SortItemsTally(items: Items)
    ensures ItemsTally(SortItems(items)) == ItemsTally(items)
    decreases items
  {
    if items.Item? {
      SortTally(items.value);
      SortItemsTally(items.rest);
    }
  }

  lemma {:induction false} SortMembersTally(ms: Members)
    ensures MembersTally(SortMembers(ms)) == MembersTally(ms)
    decreases ms
  {
    if ms.Member? {
      SortTally(ms.value);
      SortMembersTally(ms.rest);
      InsertTally(ms.key, SortValue(ms.value), SortMembers(ms.rest));
    }
  }

  lemma {:induction false} InsertTally(key: Text, value: Json, ms: Members)
    ensures MembersTally(Insert(key, value, ms)) == Plus(Keyed(key, TallyOf(value)), MembersTally(ms))
  {
    if ms.Member? && KeyBefore(ms.key, key) {
      InsertTally(key, value, ms.rest);
      PlusSwaps(Keyed(ms.key, TallyOf(ms.value)), Keyed(key, TallyOf(value)), MembersTally(ms.rest));
    }
  }

  lemma PlusSwaps(a: Tally, b: Tally, c: Tally)
    ensures Plus(a, Plus(b, c)) == Plus(b, Plus(a, c))
  {
  }

  lemma {:induction false} PrintIsSize(v: Json)
    ensures Utf8Size(Print(v)) == TallyOf(v).size
  {
    var nothing: Text := [];
    EmptyConcat(nothing);
    ValueIsSize(v, nothing);
    EmptyConcat(WriteValue(Tree(v), nothing));
  }

  /** The size counted over the parts of a value is the number of bytes of its canonical text. */
  lemma {:induction false} SizeOfCanonicalText(v: Json)
    ensures Utf8Size(CanonicalText(v)) == TallyOf(v).size
  {
    SortTally(v);
    PrintIsSize(SortValue(v));
  }

  // ----- The bytes counted are within the size -----

  lemma {:induction false} EscapingGrows(s: Text)
    ensures Utf8Size(s) <= EscapedSize(s) && |s| <= EscapedSize(s)
  {
    if s == [] {
    } else if |s| > 1 && LeadSurrogate(s[0]) && TrailSurrogate(s[1]) {
      EscapingGrows(s[2..]);
    } else {
      EscapingGrows(s[1..]);
    }
  }

  lemma {:induction false} BytesWithinSize(v: Json)
    ensures TallyOf(v).bytes <= TallyOf(v).size
    decreases v
  {
    match v
    case JString(s) => EscapingGrows(s);
    case JArray(items) => ItemsWithinSize(items);
    case JObject(members) => MembersWithinSize(members);
    case _ =>
  }

  lemma {:induction false} ItemsWithinSize(items: Items)
    ensures ItemsTally(items).bytes <= ItemsTally(items).size
    decreases items
  {
    if items.Item? {
      BytesWithinSize(items.value);
      ItemsWithinSize(items.rest);
    }
  }

  lemma {:induction false} MembersWithinSize(ms: Members)
    ensures MembersTally(ms).bytes <= MembersTally(ms).size
    decreases ms
  {
    if ms.Member? {
      EscapingGrows(ms.key);
      BytesWithinSize(ms.value);
      MembersWithinSize(ms.rest);
    }
  }

  // ----- Cloning evidence -----

  /** The value is cloned: the counters stay within their bounds, and its canonical text within the limit. */
  predicate Clones(v: Json, limit: nat) {
    && TallyOf(v).visits <= MAX_VISITS && TallyOf(v).height <= MAX_CLONE_DEPTH + 1 && TallyOf(v).bytes <= limit
    && Utf8Size(CanonicalText(v)) <= limit
  }

  predicate TallyFits(t: Tally, limit: nat) {
    t.visits <= MAX_VISITS && t.height <= MAX_CLONE_DEPTH + 1 && t.size <= limit
  }

  /** The running count of bytes never refuses what the final measurement would let through. */
  lemma {:induction false} ClonesIff(v: Json, limit: nat)
    ensures Clones(v, limit) <==> TallyFits(TallyOf(v), limit)
  {
    SizeOfCanonicalText(v);
    BytesWithinSize(v);
  }

  lemma {:induction false} ClonesUpToOrder(v: Json, w: Json, limit: nat)
    requires SortValue(v) == SortValue(w)
    ensures Clones(v, limit) == Clones(w, limit)
  {
    SortTally(v);
    SortTally(w);
  }

  /** The recursive walk with its two counters. */
  class EvidenceClone {
    const byteLimit: nat
    var visits: nat
    var minimumBytes: nat

    constructor (byteLimit: nat)
      ensures this.byteLimit == byteLimit && visits == 0 && minimumBytes == 0
    {
      this.byteLimit, visits, minimumBytes := byteLimit, 0, 0;
    }

    ghost function Counted(): (nat, nat)
      reads this
    {
      (visits, minimumBytes)
    }

    /** Whether the counters stay in bounds over a value with this tally, found at this depth. */
    ghost predicate Within(t: Tally, depth: nat)
      reads this
    {
      visits + t.visits <= MAX_VISITS && depth + t.height <= MAX_CLONE_DEPTH + 1 && minimumBytes + t.bytes <= byteLimit
    }

    method Count(bytes: nat) returns (ok: bool)
      modifies `minimumBytes
      ensures minimumBytes == old(minimumBytes) + bytes && ok == (minimumBytes <= byteLimit)
    {
      minimumBytes := minimumBytes + bytes;
      ok := minimumBytes <= byteLimit;
    }

    method Clone(item: Json, depth: nat) returns (ok: bool)
      requires minimumBytes <= byteLimit
      modifies this
      ensures ok <==> old(Within(TallyOf(item), depth))
      ensures ok ==> Counted() == (old(visits) + TallyOf(item).visits, old(minimumBytes) + TallyOf(item).bytes)
      decreases item
    {
      visits := visits + 1;
      if visits > MAX_VISITS || depth > MAX_CLONE_DEPTH { return false; }
      match item {
        case JNull => ok := Count(1);
        case JBool(_) => ok := Count(1);
        case JInt(_) => ok := true;
        case JString(s) => ok := Count(Utf8Size(s));
        case JArray(items) => ok := CloneItems(items, depth + 1);
        case JObject(members) => ok := CloneMembers(members, depth + 1);
      }
    }

    method CloneItems(items: Items, depth: nat) returns (ok: bool)
      requires minimumBytes <= byteLimit && visits <= MAX_VISITS && depth <= MAX_CLONE_DEPTH + 1
      modifies this
      ensures ok <==> old(Within(ItemsTally(items), depth))
      ensures ok ==> Counted() == (old(visits) + ItemsTally(items).visits, old(minimumBytes) + ItemsTally(items).bytes)
      decreases items
    {
      if items.NoItems? { return true; }
      ok := Clone(items.value, depth);
      if ok {
        ok := CloneItems(items.rest, depth);
      }
    }

    method CloneMembers(ms: Members, depth: nat) returns (ok: bool)
      requires minimumBytes <= byteLimit && visits <= MAX_VISITS && depth <= MAX_CLONE_DEPTH + 1
      modifies this
      ensures ok <==> old(Within(MembersTally(ms), depth))
      ensures ok ==> Counted() == (old(visits) + MembersTally(ms).visits, old(minimumBytes) + MembersTally(ms).bytes)
      decreases ms
    {
      if ms.NoMembers? { return true; }
      ok := Count(Utf8Size(ms.key));
      if ok {
        ok := Clone(ms.value, depth);
      }
      if ok {
        ok := CloneMembers(ms.rest, depth);
      }
    }
  }

  /** Cloning passes exactly within the bounds: the counters, then the size of the canonical text. */
  method CloneJsonEvidence(v: Json, byteLimit: nat) returns (ok: bool)
    ensures ok <==> Clones(v, byteLimit)
  {
    var clone := new EvidenceClone(byteLimit);
    ok := clone.Clone(v, 0);
    ok := ok && Utf8Size(CanonicalText(v)) <= byteLimit;
  }
}
