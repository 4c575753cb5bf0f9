/** JSON values, the order of their keys, and the compact text printed for them. */
module JsonValues {
  import opened Numbers
  import opened Options
  import opened JsonText
  import opened JsonTokens

  // ----- Values -----

  /** The integers the platform's numbers hold, print and read back exactly. */
  type SafeInteger = n: int | -MAX_SAFE_INTEGER <= n <= MAX_SAFE_INTEGER

  datatype Json = JNull | JBool(b: bool) | JInt(n: SafeInteger) | JString(s: Text) | JArray(items: Items)
      | JObject(members: Members)

  datatype Items = NoItems | Item(value: Json, rest: Items)

  /** The own properties of a plain object in enumeration order. */
  datatype Members = NoMembers | Member(key: Text, value: Json, rest: Members)

  function Keys(ms: Members): set<Text> {
    match ms case NoMembers => {} case Member(key, _, rest) => {key} + Keys(rest)
  }

  /** No object repeats a key. */
  predicate WellFormed(v: Json) {
    match v
    case JArray(items) => ItemsWellFormed(items)
    case JObject(members) => MembersWellFormed(members)
    case _ => true
  }

  predicate ItemsWellFormed(items: Items) {
    match items case NoItems => true case Item(value, rest) => WellFormed(value) && ItemsWellFormed(rest)
  }

  predicate MembersWellFormed(ms: Members) {
    match ms
    case NoMembers => true
    case Member(key, value, rest) => key !in Keys(rest) && WellFormed(value) && MembersWellFormed(rest)
  }

  // ----- Repeated names -----

  /** Assigning a property: an existing key keeps its place, a new one comes last. */
  function Assign(ms: Members, key: Text, value: Json): (r: Members)
    ensures Keys(r) == Keys(ms) + {key}
  {
    match ms
    case NoMembers => Member(key, value, NoMembers)
    case Member(k, v, rest) => if k == key then Member(key, value, rest) else Member(k, v, Assign(rest, key, value))
  }

  /** What a parser builds for an object that may repeat names: the last value of each name counts. */
  function Merge(v: Json): Json
    decreases v
  {
    match v
    case JArray(items) => JArray(MergeItems(items))
    case JObject(members) => JObject(MergeMembers(members, NoMembers))
    case _ => v
  }

  function MergeItems(items: Items): Items
    decreases items
  {
    match items case NoItems => NoItems case Item(value, rest) => Item(Merge(value), MergeItems(rest))
  }

  function MergeMembers(ms: Members, result: Members): Members
    decreases ms
  {
    match ms case NoMembers => result
      case Member(key, value, rest) => MergeMembers(rest, Assign(result, key, Merge(value)))
  }

  lemma {:induction false} AssignWellFormed(ms: Members, key: Text, value: Json)
    requires MembersWellFormed(ms) && WellFormed(value)
    ensures MembersWellFormed(Assign(ms, key, value))
  {
    if ms.Member? && ms.key != key {
      AssignWellFormed(ms.rest, key, value);
    }
  }

  /** What a parser builds never repeats a name. */
  lemma {:induction false} MergeWellFormed(v: Json)
    ensures WellFormed(Merge(v))
    decreases v
  {
    match v
    case JArray(items) => MergeItemsWellFormed(items);
    case JObject(members) => MergeMembersWellFormed(members, NoMembers);
    case _ =>
  }

  lemma {:induction false} MergeItemsWellFormed(items: Items)
    ensures ItemsWellFormed(MergeItems(items))
    decreases items
  {
    if items.Item? {
      MergeWellFormed(items.value);
      MergeItemsWellFormed(items.rest);
    }
  }

  lemma {:induction false} MergeMembersWellFormed(ms: Members, result: Members)
    requires MembersWellFormed(result)
    ensures MembersWellFormed(MergeMembers(ms, result))
    decreases ms
  {
    if ms.Member? {
      MergeWellFormed(ms.value);
      AssignWellFormed(result, ms.key, Merge(ms.value));
      MergeMembersWellFormed(ms.rest, Assign(result, ms.key, Merge(ms.value)));
    }
  }

  /** Without repeated names a parser builds what is written. */
  lemma {:induction false} MergeFixes(v: Json)
    requires WellFormed(v)
    ensures Merge(v) == v
    decreases v
  {
    match v
    case JArray(items) => MergeFixesItems(items);
    case JObject(members) =>
      MergeFixesMembers(members, NoMembers);
      assert Append(NoMembers, members) == members;
    case _ =>
  }

  lemma {:induction false} MergeFixesItems(items: Items)
    requires ItemsWellFormed(items)
    ensures MergeItems(items) == items
    decreases items
  {
    if items.Item? {
      MergeFixes(items.value);
      MergeFixesItems(items.rest);
    }
  }

  function Append(a: Members, b: Members): Members {
    match a case NoMembers => b case Member(key, value, rest) => Member(key, value, Append(rest, b))
  }

  lemma {:induction false} AssignNew(ms: Members, key: Text, value: Json, more: Members)
    requires key !in Keys(ms)
    ensures Append(Assign(ms, key, value), more) == Append(ms, Member(key, value, more))
  {
    if ms.Member? {
      AssignNew(ms.rest, key, value, more);
    }
  }

  lemma {:induction false} AppendNothing(ms: Members)
    ensures Append(ms, NoMembers) == ms
  {
    if ms.Member? {
      AppendNothing(ms.rest);
    }
  }

  lemma {:induction false} MergeFixesMembers(ms: Members, result: Members)
    requires MembersWellFormed(ms) && Keys(ms) !! Keys(result)
    ensures MergeMembers(ms, result) == Append(result, ms)
    decreases ms
  {
    if ms.Member? {
      MergeFixes(ms.value);
      MergeFixesMembers(ms.rest, Assign(result, ms.key, ms.value));
      AssignNew(result, ms.key, ms.value, ms.rest);
    } else {
      AppendNothing(result);
    }
  }

  // ----- Decimal digits -----

  function Digits(n: nat): (t: Text)
    ensures ValidWhole(t)
  {
    if n < 10 then [ZERO + n] else Digits(n / 10) + [ZERO + n % 10]
  }

  function DigitsValue(t: Text): nat
    requires AllDigits(t)
  {
    if t == [] then 0 else 10 * DigitsValue(t[..|t| - 1]) + (t[|t| - 1] - ZERO)
  }

  lemma {:induction false} ValueOfDigits(n: nat)
    ensures DigitsValue(Digits(n)) == n
  {
    if n < 10 {
      assert Digits(n)[..0] == [];
    } else {
      ValueOfDigits(n / 10);
      assert Digits(n)[..|Digits(n)| - 1] == Digits(n / 10);
    }
  }

  lemma DigitsStep(n: nat, d: nat)
    requires n > 0 && d < 10
    ensures Digits(10 * n + d) == Digits(n) + [ZERO + d]
  {
    var m := 10 * n + d;
    assert m / 10 == n && m % 10 == d;
  }

  /** Digits without a leading zero are the digits of their value. */
  lemma {:induction false} DigitsOfValue(t: Text)
    requires ValidWhole(t)
    ensures Digits(DigitsValue(t)) == t
    decreases |t|
  {
    var front, digit := t[..|t| - 1], t[|t| - 1];
    assert t == front + [digit];
    if |t| == 1 {
      assert DigitsValue(front) == 0;
    } else {
      assert front[0] == t[0] != ZERO;
      DigitsOfValue(front);
      assert Digits(0) == [ZERO];
      DigitsStep(DigitsValue(front), digit - ZERO);
    }
  }

  function IntText(n: int): Text {
    if n < 0 then [MINUS] + Digits(-n) else Digits(n)
  }

  /** The integer a number token without fraction and exponent stands for. */
  function IntMeaning(t: Text): Option<int> {
    if t != [] && t[0] == MINUS then
      var size: int := if ValidWhole(t[1..]) then DigitsValue(t[1..]) else 0;
      if ValidWhole(t[1..]) then Some(-size) else None
    else if ValidWhole(t) then
      var size: int := DigitsValue(t);
      Some(size)
    else None
  }

  lemma IntMeans(n: int)
    ensures IntMeaning(IntText(n)) == Some(n)
  {
    var size := if n < 0 then -n else n;
    ValueOfDigits(size);
    var digits := Digits(size);
    assert IsDigit(digits[0]);
    assert ([MINUS] + digits)[1..] == digits;
  }

  lemma IntIsNumber(negative: bool, digits: Text)
    requires ValidWhole(digits)
    ensures IsNumber(if negative then [MINUS] + digits else digits)
  {
    var number := Number(negative, digits, [], NoExponent);
    assert ValidNumber(number);
    assert NumberText(number) == SignText(negative) + digits;
    assert negative || [] + digits == digits;
  }

  // ----- Strings -----

  predicate LeadSurrogate(c: CodeUnit) {
    0xD800 <= c <= 0xDBFF
  }

  predicate TrailSurrogate(c: CodeUnit) {
    0xDC00 <= c <= 0xDFFF
  }

  function HexLetter(d: nat): CodeUnit
    requires d < 16
  {
    if d < 10 then ZERO + d else 0x61 + (d - 10)
  }

  function HexUnit(c: CodeUnit): Unit {
    Hex(HexLetter(c / 4096), HexLetter(c / 256 % 16), HexLetter(c / 16 % 16), HexLetter(c % 16))
  }

  /** The letter of a code unit's two-character escape, if it has one that is used. */
  function ShortForm(c: CodeUnit): (letter: Option<CodeUnit>)
    ensures letter.Some? ==> IsShort(letter.value) && ShortMeaning(letter.value) == c
    ensures letter.None? ==> c != QUOTE && c != BACKSLASH
  {
    if c == 0x08 then Some(0x62)
    else if c == 0x09 then Some(0x74)
    else if c == 0x0A then Some(0x6E)
    else if c == 0x0C then Some(0x66)
    else if c == 0x0D then Some(0x72)
    else if c == QUOTE || c == BACKSLASH then Some(c)
    else None
  }

  function EscapeOne(c: CodeUnit): Unit {
    match ShortForm(c)
    case Some(letter) => Short(letter)
    case None => if c < SPACE || LeadSurrogate(c) || TrailSurrogate(c) then HexUnit(c) else Plain(c)
  }

  /**
    * How a string is written: short escapes, hexadecimal escapes for other controls and lone surrogates, the rest
    * plain.
    */
  function Escape(s: Text): seq<Unit> {
    if s == [] then []
    else if |s| > 1 && LeadSurrogate(s[0]) && TrailSurrogate(s[1]) then [Plain(s[0]), Plain(s[1])] + Escape(s[2..])
    else [EscapeOne(s[0])] + Escape(s[1..])
  }

  lemma EscapeOneMeans(c: CodeUnit)
    ensures ValidUnit(EscapeOne(c)) && UnitMeaning(EscapeOne(c)) == c
  {
    if ShortForm(c).None? && EscapeOne(c) == HexUnit(c) {
      HexUnitMeans(c);
    }
  }

  lemma HexUnitMeans(c: CodeUnit)
    ensures ValidUnit(HexUnit(c)) && UnitMeaning(HexUnit(c)) == c
  {
    HexLetterMeans(c / 4096);
    HexLetterMeans(c / 256 % 16);
    HexLetterMeans(c / 16 % 16);
    HexLetterMeans(c % 16);
    assert c / 256 == 16 * (c / 4096) + c / 256 % 16;
    assert c / 16 == 16 * (c / 256) + c / 16 % 16;
  }

  lemma HexLetterMeans(d: nat)
    requires d < 16
    ensures IsHex(HexLetter(d)) && HexDigit(HexLetter(d)) == d
  {
  }

  lemma OneMoreUnit(u: Unit, us: seq<Unit>)
    requires ValidUnit(u) && ValidUnits(us)
    ensures ValidUnits([u] + us) && Meaning([u] + us) == [UnitMeaning(u)] + Meaning(us)
  {
    assert ([u] + us)[1..] == us;
  }

  lemma {:induction false} EscapeMeans(s: Text)
    ensures ValidUnits(Escape(s)) && Meaning(Escape(s)) == s
  {
    if s == [] {
    } else if |s| > 1 && LeadSurrogate(s[0]) && TrailSurrogate(s[1]) {
      var more := Escape(s[2..]);
      EscapeMeans(s[2..]);
      OneMoreUnit(Plain(s[1]), more);
      OneMoreUnit(Plain(s[0]), [Plain(s[1])] + more);
      assert Escape(s) == [Plain(s[0])] + ([Plain(s[1])] + more);
      assert s == [s[0]] + ([s[1]] + s[2..]);
    } else {
      EscapeMeans(s[1..]);
      EscapeOneMeans(s[0]);
      OneMoreUnit(EscapeOne(s[0]), Escape(s[1..]));
      assert s == [s[0]] + s[1..];
    }
  }

  // ----- Printing and reading back -----

  /** The syntax tree that is printed: no white space, integers in decimal, strings escaped. */
  function Tree(v: Json): Value {
    match v
    case JNull => Literal(Null)
    case JBool(b) => Literal(if b then True else False)
    case JInt(n) => Numeric(IntText(n))
    case JString(s) => Quoted(Escape(s))
    case JArray(items) => if items.NoItems? then Empty(List, []) else Full(List, ItemSlots(items))
    case JObject(members) => if members.NoMembers? then Empty(Record, []) else Full(Record, MemberSlots(members))
  }

  function ItemSlots(items: Items): Slots
    requires items.Item?
  {
    var e := Element([], Tree(items.value), []);
    if items.rest.NoItems? then Last(Unlabelled, e) else More(Unlabelled, e, ItemSlots(items.rest))
  }

  function MemberSlots(ms: Members): Slots
    requires ms.Member?
  {
    var head := Label([], Escape(ms.key), []);
    var e := Element([], Tree(ms.value), []);
    if ms.rest.NoMembers? then Last(head, e) else More(head, e, MemberSlots(ms.rest))
  }

  /** The value of a syntax tree, names repeated as they stand, for trees whose numbers are safe integers. */
  function Read(v: Value): Option<Json>
    requires Decodable(v)
  {
    match v
    case Literal(w) => Some(match w case Null => JNull case True => JBool(true) case False => JBool(false))
    case Numeric(t) => (match IntMeaning(t)
                         case None => None
                         case Some(n) => if -MAX_SAFE_INTEGER <= n <= MAX_SAFE_INTEGER then Some(JInt(n)) else None)
    case Quoted(us) => Some(JString(Meaning(us)))
    case Empty(kind, _) => Some(if kind == List then JArray(NoItems) else JObject(NoMembers))
    case Full(kind, slots) =>
      match kind
      case List => (match ReadItems(slots) case None => None case Some(items) => Some(JArray(items)))
      case Record => (match ReadMembers(slots) case None => None case Some(members) => Some(JObject(members)))
  }

  /** Its strings and names are well formed. */
  predicate Decodable(v: Value) {
    match v
    case Quoted(us) => ValidUnits(us)
    case Full(kind, slots) => SlotsDecodable(slots, kind)
    case _ => true
  }

  predicate SlotsDecodable(s: Slots, kind: Kind) {
    && (kind == Record <==> s.head.Label?) && (s.head.Label? ==> ValidUnits(s.head.name)) && Decodable(s.element.value)
    && match s case Last(_, _) => true case More(_, _, rest) => SlotsDecodable(rest, kind)
  }

  function ReadItems(s: Slots): Option<Items>
    requires SlotsDecodable(s, List)
  {
    var more := match s case Last(_, _) => Some(NoItems) case More(_, _, rest) => ReadItems(rest);
    var value := Read(s.element.value);
    if value.None? || more.None? then None else Some(Item(value.value, more.value))
  }

  function ReadMembers(s: Slots): Option<Members>
    requires SlotsDecodable(s, Record)
  {
    var more := match s case Last(_, _) => Some(NoMembers) case More(_, _, rest) => ReadMembers(rest);
    var value := Read(s.element.value);
    if value.None? || more.None? then None else Some(Member(Meaning(s.head.name), value.value, more.value))
  }

  lemma {:induction false} ReadTree(v: Json)
    ensures ValidValue(Tree(v)) && Decodable(Tree(v)) && Read(Tree(v)) == Some(v)
    decreases v
  {
    match v
    case JInt(n) =>
      IntMeans(n);
      IntIsNumber(n < 0, Digits(if n < 0 then -n else n));
    case JString(s) => EscapeMeans(s);
    case JArray(items) => if items.Item? { ReadItemSlots(items); }
    case JObject(members) => if members.Member? { ReadMemberSlots(members); }
    case _ =>
  }

  lemma {:induction false} ReadItemSlots(items: Items)
    requires items.Item?
    ensures ValidSlots(ItemSlots(items), List) && SlotsDecodable(ItemSlots(items), List)
    ensures ReadItems(ItemSlots(items)) == Some(items)
    decreases items
  {
    ReadTree(items.value);
    if items.rest.Item? {
      ReadItemSlots(items.rest);
    }
  }

  lemma {:induction false} ReadMemberSlots(ms: Members)
    requires ms.Member?
    ensures ValidSlots(MemberSlots(ms), Record) && SlotsDecodable(MemberSlots(ms), Record)
    ensures ReadMembers(MemberSlots(ms)) == Some(ms)
    decreases ms
  {
    EscapeMeans(ms.key);
    ReadTree(ms.value);
    if ms.rest.Member? {
      ReadMemberSlots(ms.rest);
    }
  }

  function Document(v: Value): Element {
    Element([], v, [])
  }

  /** The printed text of a value. */
  function Print(v: Json): Text {
    DocumentText(Document(Tree(v)))
  }

  /** The printed text has one syntax tree, and reading that tree gives the value back. */
  lemma PrintReadsBack(v: Json, e: Element)
    ensures ValidElement(Document(Tree(v)))
    ensures ValidElement(e) && DocumentText(e) == Print(v) ==> Decodable(e.value) && Read(e.value) == Some(v)
  {
    ReadTree(v);
    if ValidElement(e) && DocumentText(e) == Print(v) {
      DocumentUnique(e, Document(Tree(v)));
    }
  }

  /** Different values print differently. */
  lemma PrintInjective(v: Json, w: Json)
    requires Print(v) == Print(w)
    ensures v == w
  {
    PrintReadsBack(v, Document(Tree(w)));
    PrintReadsBack(w, Document(Tree(w)));
  }
}
