/** Canonical JSON: values printed with the members of every object in one order. */
module CanonicalJson {
  import opened Options
  import opened JsonText
  import opened JsonTokens
  import opened JsonValues

  // ----- The order of keys -----

  const FIRST_NON_INDEX := 4_294_967_295

  /** Keys that name array indices come first, by number. */
  predicate IsIndex(key: Text) {
    ValidWhole(key) && DigitsValue(key) < FIRST_NON_INDEX
  }

  predicate LexLess(a: Text, b: Text) {
    if b == [] then false
    else if a == [] then true
    else a[0] < b[0] || (a[0] == b[0] && LexLess(a[1..], b[1..]))
  }

  /** The order in which the sorted object's own keys are enumerated. */
  predicate KeyBefore(a: Text, b: Text) {
    if IsIndex(a) && IsIndex(b) then DigitsValue(a) < DigitsValue(b)
    else if IsIndex(a) || IsIndex(b) then IsIndex(a)
    else LexLess(a, b)
  }

  lemma {:induction false} LexTrichotomy(a: Text, b: Text)
    ensures !(LexLess(a, b) && LexLess(b, a))
    ensures LexLess(a, b) || a == b || LexLess(b, a)
    ensures a == b ==> !LexLess(a, b)
  {
    if a != [] && b != [] {
      LexTrichotomy(a[1..], b[1..]);
      assert a == [a[0]] + a[1..] && b == [b[0]] + b[1..];
    }
  }

  lemma {:induction false} LexTransitive(a: Text, b: Text, c: Text)
    requires LexLess(a, b) && LexLess(b, c)
    ensures LexLess(a, c)
  {
    if a != [] && a[0] == b[0] == c[0] {
      LexTransitive(a[1..], b[1..], c[1..]);
    }
  }

  lemma KeyTrichotomy(a: Text, b: Text)
    ensures !(KeyBefore(a, b) && KeyBefore(b, a))
    ensures KeyBefore(a, b) || a == b || KeyBefore(b, a)
    ensures a == b ==> !KeyBefore(a, b)
  {
    LexTrichotomy(a, b);
    if IsIndex(a) && IsIndex(b) && DigitsValue(a) == DigitsValue(b) {
      DigitsOfValue(a);
      DigitsOfValue(b);
    }
  }

  lemma KeyTransitive(a: Text, b: Text, c: Text)
    requires KeyBefore(a, b) && KeyBefore(b, c)
    ensures KeyBefore(a, c)
  {
    if !IsIndex(a) && !IsIndex(b) && !IsIndex(c) {
      LexTransitive(a, b, c);
    }
  }

  // ----- Sorting -----

  /** The value with the members of every object, at every level, in key order. */
  function SortValue(v: Json): Json {
    match v
    case JArray(items) => JArray(SortItems(items))
    case JObject(members) => JObject(SortMembers(members))
    case _ => v
  }

  function SortItems(items: Items): Items {
    match items case NoItems => NoItems case Item(value, rest) => Item(SortValue(value), SortItems(rest))
  }

  function SortMembers(ms: Members): Members {
    match ms case NoMembers => NoMembers
      case Member(key, value, rest) => Insert(key, SortValue(value), SortMembers(rest))
  }

  function Insert(key: Text, value: Json, ms: Members): Members {
    match ms
    case NoMembers => Member(key, value, NoMembers)
    case Member(first, v, rest) =>
      if KeyBefore(first, key) then Member(first, v, Insert(key, value, rest)) else Member(key, value, ms)
  }

  /** The canonical text of a value. */
  function CanonicalText(v: Json): Text {
    Print(SortValue(v))
  }

  // ----- Equality up to the order of members -----

  function Lookup(ms: Members, key: Text): Json
    requires key in Keys(ms)
  {
    if ms.key == key then ms.value else Lookup(ms.rest, key)
  }

  /** Equal but for the order of members, at every level. */
  predicate SameUpToOrder(v: Json, w: Json)
    decreases v
  {
    match v
    case JArray(items) => w.JArray? && SameItems(items, w.items)
    case JObject(members) => w.JObject? && Keys(members) == Keys(w.members) && SameMembers(members, w.members)
    case _ => v == w
  }

  predicate SameItems(a: Items, b: Items)
    decreases a
  {
    match a
    case NoItems => b.NoItems?
    case Item(value, rest) => b.Item? && SameUpToOrder(value, b.value) && SameItems(rest, b.rest)
  }

  /** Every member of the first has its like in the second. */
  predicate SameMembers(a: Members, b: Members)
    decreases a
  {
    match a
    case NoMembers => true
    case Member(key, value, rest) => key in Keys(b) && SameUpToOrder(value, Lookup(b, key)) && SameMembers(rest, b)
  }

  // ----- Sorted members are determined by what they map -----

  ghost predicate AllAfter(key: Text, ms: Members) {
    forall k :: k in Keys(ms) ==> KeyBefore(key, k)
  }

  ghost predicate Sorted(ms: Members) {
    match ms case NoMembers => true case Member(key, _, rest) => AllAfter(key, rest) && Sorted(rest)
  }

  function AsMap(ms: Members): (m: map<Text, Json>)
    ensures m.Keys == Keys(ms)
  {
    match ms case NoMembers => map[] case Member(key, value, rest) => AsMap(rest)[key := value]
  }

  lemma {:induction false} InsertKeeps(key: Text, value: Json, ms: Members)
    requires Sorted(ms) && key !in Keys(ms)
    ensures Sorted(Insert(key, value, ms)) && AsMap(Insert(key, value, ms)) == AsMap(ms)[key := value]
    ensures Keys(Insert(key, value, ms)) == Keys(ms) + {key}
  {
    if ms.Member? {
      KeyTrichotomy(ms.key, key);
      if KeyBefore(ms.key, key) {
        InsertKeeps(key, value, ms.rest);
        assert AsMap(ms.rest)[key := value][ms.key := ms.value] == AsMap(ms.rest)[ms.key := ms.value][key := value];
      } else {
        forall k | k in Keys(ms) ensures KeyBefore(key, k) {
          if k != ms.key {
            KeyTransitive(key, ms.key, k);
          }
        }
      }
    }
  }

  lemma {:induction false} SortedUnique(a: Members, b: Members)
    requires Sorted(a) && Sorted(b) && AsMap(a) == AsMap(b)
    ensures a == b
  {
    assert a.Member? ==> a.key in Keys(a);
    assert b.Member? ==> b.key in Keys(b);
    if a.Member? && b.Member? {
      assert a.key in AsMap(b) && b.key in AsMap(a);
      KeyTrichotomy(a.key, b.key);
      assert a.key == b.key;
      assert a.value == AsMap(a)[a.key] == b.value;
      NotInRest(a);
      NotInRest(b);
      assert AsMap(a.rest) == AsMap(a) - {a.key};
      assert AsMap(b.rest) == AsMap(b) - {b.key};
      SortedUnique(a.rest, b.rest);
    }
  }

  lemma NotInRest(ms: Members)
    requires ms.Member? && Sorted(ms)
    ensures ms.key !in Keys(ms.rest)
  {
    KeyTrichotomy(ms.key, ms.key);
  }

  /** Sorting keeps the keys, sorts them, and maps each to its sorted value. */
  lemma {:induction false} SortedMembers(ms: Members)
    requires MembersWellFormed(ms)
    ensures Sorted(SortMembers(ms)) && Keys(SortMembers(ms)) == Keys(ms)
    ensures forall k :: k in Keys(ms) ==> AsMap(SortMembers(ms))[k] == SortValue(Lookup(ms, k))
  {
    if ms.Member? {
      SortedMembers(ms.rest);
      InsertKeeps(ms.key, SortValue(ms.value), SortMembers(ms.rest));
    }
  }

  // ----- Sorting decides equality up to order -----

  lemma {:induction false} SortDecides(v: Json, w: Json)
    requires WellFormed(v) && WellFormed(w)
    ensures SameUpToOrder(v, w) <==> SortValue(v) == SortValue(w)
    decreases v
  {
    match v
    case JArray(items) =>
      if w.JArray? {
        SortDecidesItems(items, w.items);
      }
    case JObject(members) =>
      if w.JObject? {
        SortDecidesMembers(members, w.members);
      }
    case _ =>
  }

  lemma {:induction false} SortDecidesItems(a: Items, b: Items)
    requires ItemsWellFormed(a) && ItemsWellFormed(b)
    ensures SameItems(a, b) <==> SortItems(a) == SortItems(b)
    decreases a
  {
    if a.Item? && b.Item? {
      SortDecides(a.value, b.value);
      SortDecidesItems(a.rest, b.rest);
    }
  }

  lemma {:induction false} SortDecidesMembers(a: Members, b: Members)
    requires MembersWellFormed(a) && MembersWellFormed(b)
    ensures Keys(a) == Keys(b) && SameMembers(a, b) <==> SortMembers(a) == SortMembers(b)
    decreases a, 1
  {
    SortedMembers(a);
    SortedMembers(b);
    SameMembersPointwise(a, b);
    if Keys(a) == Keys(b) && SameMembers(a, b) {
      assert AsMap(SortMembers(a)) == AsMap(SortMembers(b));
      SortedUnique(SortMembers(a), SortMembers(b));
    }
    if SortMembers(a) == SortMembers(b) {
      assert forall k :: k in Keys(a) ==> SortValue(Lookup(a, k)) == AsMap(SortMembers(b))[k];
    }
  }

  ghost predicate Agree(a: Members, b: Members) {
    forall k :: k in Keys(a) ==> k in Keys(b) && SortValue(Lookup(a, k)) == SortValue(Lookup(b, k))
  }

  lemma AgreeStep(a: Members, b: Members)
    requires a.Member? && a.key !in Keys(a.rest)
    ensures Agree(a, b) <==> a.key in Keys(b) && SortValue(a.value) == SortValue(Lookup(b, a.key)) && Agree(a.rest, b)
  {
    assert Lookup(a, a.key) == a.value;
    assert forall k :: k in Keys(a.rest) ==> k in Keys(a) && Lookup(a, k) == Lookup(a.rest, k);
    assert forall k :: k in Keys(a) ==> k == a.key || k in Keys(a.rest);
  }

  lemma {:induction false} SameMembersPointwise(a: Members, b: Members)
    requires MembersWellFormed(a) && MembersWellFormed(b)
    ensures SameMembers(a, b) <==> Agree(a, b)
    decreases a, 0
  {
    if a.Member? {
      if a.key in Keys(b) {
        LookupWellFormed(b, a.key);
        SortDecides(a.value, Lookup(b, a.key));
      }
      SameMembersPointwise(a.rest, b);
      AgreeStep(a, b);
    }
  }

  lemma {:induction false} LookupWellFormed(ms: Members, key: Text)
    requires MembersWellFormed(ms) && key in Keys(ms)
    ensures WellFormed(Lookup(ms, key))
  {
    if ms.key != key {
      LookupWellFormed(ms.rest, key);
    }
  }

  // ----- Main results -----

  /** Two values print alike exactly when they are equal up to the order of members. */
  lemma CanonicalTextDecides(v: Json, w: Json)
    requires WellFormed(v) && WellFormed(w)
    ensures CanonicalText(v) == CanonicalText(w) <==> SameUpToOrder(v, w)
  {
    SortDecides(v, w);
    if CanonicalText(v) == CanonicalText(w) {
      PrintInjective(SortValue(v), SortValue(w));
    }
  }

  /** A parser gives the sorted value back, whichever syntax tree of the text it is given. */
  lemma CanonicalTextReadsBack(v: Json, e: Element)
    ensures ValidElement(Document(Tree(SortValue(v))))
    ensures ValidElement(e) && DocumentText(e) == CanonicalText(v) ==>
              Decodable(e.value) && Read(e.value) == Some(SortValue(v))
  {
    PrintReadsBack(SortValue(v), e);
  }

  lemma {:induction false} SortKeepsWellFormed(v: Json)
    requires WellFormed(v)
    ensures WellFormed(SortValue(v))
    decreases v
  {
    match v
    case JArray(items) => SortKeepsItems(items);
    case JObject(members) => SortKeepsMembers(members);
    case _ =>
  }

  lemma {:induction false} SortKeepsItems(items: Items)
    requires ItemsWellFormed(items)
    ensures ItemsWellFormed(SortItems(items))
    decreases items
  {
    if items.Item? {
      SortKeepsWellFormed(items.value);
      SortKeepsItems(items.rest);
    }
  }

  lemma {:induction false} SortKeepsMembers(ms: Members)
    requires MembersWellFormed(ms)
    ensures MembersWellFormed(SortMembers(ms))
    decreases ms
  {
    if ms.Member? {
      SortKeepsWellFormed(ms.value);
      SortKeepsMembers(ms.rest);
      SortedMembers(ms.rest);
      InsertWellFormed(ms.key, SortValue(ms.value), SortMembers(ms.rest));
    }
  }

  lemma {:induction false} InsertWellFormed(key: Text, value: Json, ms: Members)
    requires MembersWellFormed(ms) && WellFormed(value) && key !in Keys(ms)
    ensures MembersWellFormed(Insert(key, value, ms)) && Keys(Insert(key, value, ms)) == Keys(ms) + {key}
  {
    if ms.Member? && KeyBefore(ms.key, key) {
      InsertWellFormed(key, value, ms.rest);
    }
  }

  lemma {:induction false} InsertFirst(key: Text, value: Json, ms: Members)
    requires AllAfter(key, ms)
    ensures Insert(key, value, ms) == Member(key, value, ms)
  {
    if ms.Member? {
      assert ms.key in Keys(ms);
      KeyTrichotomy(key, ms.key);
    }
  }

  ghost predicate Canonical(v: Json) {
    match v
    case JArray(items) => CanonicalItems(items)
    case JObject(members) => CanonicalMembers(members)
    case _ => true
  }

  ghost predicate CanonicalItems(items: Items) {
    match items case NoItems => true case Item(value, rest) => Canonical(value) && CanonicalItems(rest)
  }

  ghost predicate CanonicalMembers(ms: Members) {
    match ms case NoMembers => true
      case Member(key, value, rest) => AllAfter(key, rest) && Canonical(value) && CanonicalMembers(rest)
  }

  lemma {:induction false} SortIsCanonical(v: Json)
    requires WellFormed(v)
    ensures Canonical(SortValue(v))
    decreases v
  {
    match v
    case JArray(items) => SortIsCanonicalItems(items);
    case JObject(members) => SortIsCanonicalMembers(members);
    case _ =>
  }

  lemma {:induction false} SortIsCanonicalItems(items: Items)
    requires ItemsWellFormed(items)
    ensures CanonicalItems(SortItems(items))
    decreases items
  {
    if items.Item? {
      SortIsCanonical(items.value);
      SortIsCanonicalItems(items.rest);
    }
  }

  lemma {:induction false} SortIsCanonicalMembers(ms: Members)
    requires MembersWellFormed(ms)
    ensures CanonicalMembers(SortMembers(ms))
    decreases ms
  {
    if ms.Member? {
      SortIsCanonical(ms.value);
      SortIsCanonicalMembers(ms.rest);
      SortedMembers(ms.rest);
      InsertCanonical(ms.key, SortValue(ms.value), SortMembers(ms.rest));
    }
  }

  lemma {:induction false} InsertCanonical(key: Text, value: Json, ms: Members)
    requires CanonicalMembers(ms) && Sorted(ms) && Canonical(value) && key !in Keys(ms)
    ensures CanonicalMembers(Insert(key, value, ms))
  {
    InsertKeeps(key, value, ms);
    if ms.Member? && KeyBefore(ms.key, key) {
      InsertCanonical(key, value, ms.rest);
      InsertKeeps(key, value, ms.rest);
    }
  }

  lemma {:induction false} SortFixes(v: Json)
    requires Canonical(v)
    ensures SortValue(v) == v
    decreases v
  {
    match v
    case JArray(items) => SortFixesItems(items);
    case JObject(members) => SortFixesMembers(members);
    case _ =>
  }

  lemma {:induction false} SortFixesItems(items: Items)
    requires CanonicalItems(items)
    ensures SortItems(items) == items
    decreases items
  {
    if items.Item? {
      SortFixes(items.value);
      SortFixesItems(items.rest);
    }
  }

  lemma {:induction false} SortFixesMembers(ms: Members)
    requires CanonicalMembers(ms)
    ensures SortMembers(ms) == ms
    decreases ms
  {
    if ms.Member? {
      SortFixes(ms.value);
      SortFixesMembers(ms.rest);
      InsertFirst(ms.key, ms.value, ms.rest);
    }
  }

  /** Printing, reading and printing again changes nothing, and what is read back equals the value up to order. */
  lemma CanonicalTextIdempotent(v: Json)
    requires WellFormed(v)
    ensures CanonicalText(SortValue(v)) == CanonicalText(v) && SameUpToOrder(v, SortValue(v))
  {
    SortIsCanonical(v);
    SortFixes(SortValue(v));
    SortKeepsWellFormed(v);
    SortDecides(v, SortValue(v));
  }
}
