/** Receipt values: the bounds they are validated against, and why their canonical text passes the nesting check. */
module ReceiptJson {
  import opened Numbers
  import opened JsonText
  import opened JsonValues
  import opened CanonicalJson
  import opened JsonNesting

  const MAX_DEPTH := 32
  const MAX_COLLECTION_ITEMS := 1_000
  const MAX_STRING_LENGTH := 16_384
  const MAX_KEY_LENGTH := 256

  // ----- Validation -----

  function ItemCount(items: Items): nat {
    match items case NoItems => 0 case Item(_, rest) => 1 + ItemCount(rest)
  }

  function MemberCount(ms: Members): nat {
    match ms case NoMembers => 0 case Member(_, _, rest) => 1 + MemberCount(rest)
  }

  /** The value, found at the given depth, is within every bound. */
  predicate ValidJsonValue(v: Json, depth: nat)
    decreases v
  {
    && depth <= MAX_DEPTH
    && match v
       case JString(s) => |s| <= MAX_STRING_LENGTH
       case JArray(items) => ItemCount(items) <= MAX_COLLECTION_ITEMS && ValidItems(items, depth + 1)
       case JObject(members) => MemberCount(members) <= MAX_COLLECTION_ITEMS && ValidMembers(members, depth + 1)
       case _ => true
  }

  predicate ValidItems(items: Items, depth: nat)
    decreases items
  {
    match items case NoItems => true case Item(value, rest) => ValidJsonValue(value, depth) && ValidItems(rest, depth)
  }

  predicate ValidMembers(ms: Members, depth: nat)
    decreases ms
  {
    match ms
    case NoMembers => true
    case Member(key, value, rest) =>
      |key| <= MAX_KEY_LENGTH && ValidJsonValue(value, depth) && ValidMembers(rest, depth)
  }

  // ----- Container depth of values and of their trees -----

  function JsonDepth(v: Json): nat {
    match v
    case JArray(items) => 1 + ItemsDepth(items)
    case JObject(members) => 1 + MembersDepth(members)
    case _ => 0
  }

  function ItemsDepth(items: Items): nat {
    match items case NoItems => 0 case Item(value, rest) => Max(JsonDepth(value), ItemsDepth(rest))
  }

  function MembersDepth(ms: Members): nat {
    match ms case NoMembers => 0 case Member(_, value, rest) => Max(JsonDepth(value), MembersDepth(rest))
  }

  lemma {:induction false} TreeDepth(v: Json)
    ensures ContainerDepth(Tree(v)) == JsonDepth(v)
    decreases v
  {
    match v
    case JArray(items) => if items.Item? { ItemTreeDepth(items); }
    case JObject(members) => if members.Member? { MemberTreeDepth(members); }
    case _ =>
  }

  lemma {:induction false} ItemTreeDepth(items: Items)
    requires items.Item?
    ensures SlotsDepth(ItemSlots(items)) == ItemsDepth(items)
    decreases items
  {
    TreeDepth(items.value);
    if items.rest.Item? {
      ItemTreeDepth(items.rest);
    }
  }

  lemma {:induction false} MemberTreeDepth(ms: Members)
    requires ms.Member?
    ensures SlotsDepth(MemberSlots(ms)) == MembersDepth(ms)
    decreases ms
  {
    TreeDepth(ms.value);
    if ms.rest.Member? {
      MemberTreeDepth(ms.rest);
    }
  }

  /** Sorting moves members but nests nothing differently. */
  lemma {:induction false} SortDepth(v: Json)
    ensures JsonDepth(SortValue(v)) == JsonDepth(v)
    decreases v
  {
    match v
    case JArray(items) => SortItemsDepth(items);
    case JObject(members) => SortMembersDepth(members);
    case _ =>
  }

  lemma {:induction false} SortItemsDepth(items: Items)
    ensures ItemsDepth(SortItems(items)) == ItemsDepth(items)
    decreases items
  {
    if items.Item? {
      SortDepth(items.value);
      SortItemsDepth(items.rest);
    }
  }

  lemma {:induction false} SortMembersDepth(ms: Members)
    ensures MembersDepth(SortMembers(ms)) == MembersDepth(ms)
    decreases ms
  {
    if ms.Member? {
      SortDepth(ms.value);
      SortMembersDepth(ms.rest);
      InsertDepth(ms.key, SortValue(ms.value), SortMembers(ms.rest));
    }
  }

  lemma {:induction false} InsertDepth(key: Text, value: Json, ms: Members)
    ensures MembersDepth(Insert(key, value, ms)) == Max(JsonDepth(value), MembersDepth(ms))
  {
    if ms.Member? && KeyBefore(ms.key, key) {
      InsertDepth(key, value, ms.rest);
    }
  }

  // ----- The nesting check on canonical text -----

  /** The nesting check's verdict on canonical text is exactly a bound on the value's container depth. */
  lemma CanonicalTextNesting(v: Json)
    ensures WellNested(CanonicalText(v)) <==> JsonDepth(v) <= MAX_SOURCE_NESTING
  {
    ReadTree(SortValue(v));
    NestingIsContainerDepth(Document(Tree(SortValue(v))));
    TreeDepth(SortValue(v));
    SortDepth(v);
  }

  lemma {:induction false} ValidDepth(v: Json, depth: nat)
    requires ValidJsonValue(v, depth)
    ensures depth + JsonDepth(v) <= MAX_DEPTH + 1
    decreases v
  {
    match v
    case JArray(items) => ValidItemsDepth(items, depth + 1);
    case JObject(members) => ValidMembersDepth(members, depth + 1);
    case _ =>
  }

  lemma {:induction false} ValidItemsDepth(items: Items, depth: nat)
    requires ValidItems(items, depth) && depth <= MAX_DEPTH + 1
    ensures depth + ItemsDepth(items) <= MAX_DEPTH + 1
    decreases items
  {
    if items.Item? {
      ValidDepth(items.value, depth);
      ValidItemsDepth(items.rest, depth);
    }
  }

  lemma {:induction false} ValidMembersDepth(ms: Members, depth: nat)
    requires ValidMembers(ms, depth) && depth <= MAX_DEPTH + 1
    ensures depth + MembersDepth(ms) <= MAX_DEPTH + 1
    decreases ms
  {
    if ms.Member? {
      ValidDepth(ms.value, depth);
      ValidMembersDepth(ms.rest, depth);
    }
  }

  /** Every receipt value that is printed passes the nesting check. */
  lemma ReceiptTextPassesNesting(v: Json)
    requires ValidJsonValue(v, 0)
    ensures WellNested(CanonicalText(v))
  {
    ValidDepth(v, 0);
    CanonicalTextNesting(v);
  }
}
