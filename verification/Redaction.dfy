/** Redaction of call arguments before they reach the audit log. */
module Redaction {
  import opened JsonText
  import opened JsonValues
  import opened CanonicalJson
  import opened ReceiptJson
  import opened JsonNesting

  const MAX_AUDIT_DEPTH := 12
  const MAX_AUDIT_ITEMS := 100
  const MAX_AUDIT_STRING := 512

  /**
    * The texts `[TRUNCATED]`, `[TRUNCATED:DEPTH]`, `[TRUNCATED:`, `_ITEMS]`, ` fields`, `__truncated__` and
    * `[REDACTED]`.
    */
  const TRUNCATED: Text := [0x5B, 0x54, 0x52, 0x55, 0x4E, 0x43, 0x41, 0x54, 0x45, 0x44, 0x5D]
  const TRUNCATED_DEPTH: Text :=
    [0x5B, 0x54, 0x52, 0x55, 0x4E, 0x43, 0x41, 0x54, 0x45, 0x44, 0x3A, 0x44, 0x45, 0x50, 0x54, 0x48, 0x5D]
  const TRUNCATED_COLON: Text := [0x5B, 0x54, 0x52, 0x55, 0x4E, 0x43, 0x41, 0x54, 0x45, 0x44, 0x3A]
  const ITEMS_MARK: Text := [0x5F, 0x49, 0x54, 0x45, 0x4D, 0x53, 0x5D]
  const FIELDS_MARK: Text := [0x20, 0x66, 0x69, 0x65, 0x6C, 0x64, 0x73]
  const TRUNCATED_KEY: Text := [0x5F, 0x5F, 0x74, 0x72, 0x75, 0x6E, 0x63, 0x61, 0x74, 0x65, 0x64, 0x5F, 0x5F]
  const REDACTED: Text := [0x5B, 0x52, 0x45, 0x44, 0x41, 0x43, 0x54, 0x45, 0x44, 0x5D]

  /** Which keys name secrets. */
  type Secret = Text -> bool

  // ----- Redaction on values -----

  /** The marker that follows the items kept. */
  function ItemsMarker(count: nat): Json
    requires count > MAX_AUDIT_ITEMS
  {
    JString(TRUNCATED_COLON + Digits(count - MAX_AUDIT_ITEMS) + ITEMS_MARK)
  }

  /** The marker kept beside the fields. */
  function FieldsMarker(count: nat): Json
    requires count > MAX_AUDIT_ITEMS
  {
    JString(Digits(count - MAX_AUDIT_ITEMS) + FIELDS_MARK)
  }

  function Push(items: Items, value: Json): Items {
    match items case NoItems => Item(value, NoItems) case Item(v, rest) => Item(v, Push(rest, value))
  }

  function Redact(v: Json, depth: nat, secret: Secret): Json
    decreases v
  {
    if depth > MAX_AUDIT_DEPTH then JString(TRUNCATED_DEPTH)
    else
      match v
      case JString(s) => if |s| <= MAX_AUDIT_STRING then v else JString(s[..MAX_AUDIT_STRING] + TRUNCATED)
      case JArray(items) =>
        var kept := RedactItems(items, 0, NoItems, depth + 1, secret);
        var count := ItemCount(items);
        JArray(if count > MAX_AUDIT_ITEMS
               then Push(kept, ItemsMarker(count)) else kept)
      case JObject(members) =>
        var kept := RedactMembers(members, 0, NoMembers, depth + 1, secret);
        var count := MemberCount(members);
        JObject(if count > MAX_AUDIT_ITEMS
                then Assign(kept, TRUNCATED_KEY, FieldsMarker(count)) else kept)
      case _ => v
  }

  function RedactItems(items: Items, taken: nat, result: Items, depth: nat, secret: Secret): Items
    decreases items
  {
    if items.NoItems? || taken >= MAX_AUDIT_ITEMS then result
    else RedactItems(items.rest, taken + 1, Push(result, Redact(items.value, depth, secret)), depth, secret)
  }

  function RedactMembers(ms: Members, taken: nat, result: Members, depth: nat, secret: Secret): Members
    decreases ms
  {
    if ms.NoMembers? || taken >= MAX_AUDIT_ITEMS then result
    else
      var value := if secret(ms.key) then JString(REDACTED) else Redact(ms.value, depth, secret);
      RedactMembers(ms.rest, taken + 1, Assign(result, ms.key, value), depth, secret)
  }

  // ----- Redaction as it runs -----

  method RedactForAudit(v: Json, secret: Secret) returns (r: Json)
    ensures r == Redact(v, 0, secret)
  {
    r := RedactAt(v, 0, secret);
  }

  method RedactAt(v: Json, depth: nat, secret: Secret) returns (r: Json)
    ensures r == Redact(v, depth, secret)
    decreases v
  {
    if depth > MAX_AUDIT_DEPTH {
      return JString(TRUNCATED_DEPTH);
    }
    match v {
      case JString(s) =>
        return if |s| <= MAX_AUDIT_STRING then v else JString(s[..MAX_AUDIT_STRING] + TRUNCATED);
      case JArray(items) =>
        var result, rest, taken := NoItems, items, 0;
        while rest.Item? && taken < MAX_AUDIT_ITEMS
          invariant rest == items || rest < items
          invariant RedactItems(items, 0, NoItems, depth + 1, secret) == RedactItems(rest, taken, result, depth + 1,
              secret)
          decreases rest
        {
          var item := RedactAt(rest.value, depth + 1, secret);
          result, rest, taken := Push(result, item), rest.rest, taken + 1;
        }
        var count := ItemCount(items);
        if count > MAX_AUDIT_ITEMS {
          result := Push(result, ItemsMarker(count));
        }
        return JArray(result);
      case JObject(members) =>
        var result, rest, taken := NoMembers, members, 0;
        while rest.Member? && taken < MAX_AUDIT_ITEMS
          invariant rest == members || rest < members
          invariant RedactMembers(members, 0, NoMembers, depth + 1, secret) == RedactMembers(rest, taken, result,
              depth + 1, secret)
          decreases rest
        {
          var value := JString(REDACTED);
          if !secret(rest.key) {
            value := RedactAt(rest.value, depth + 1, secret);
          }
          result, rest, taken := Assign(result, rest.key, value), rest.rest, taken + 1;
        }
        var count := MemberCount(members);
        if count > MAX_AUDIT_ITEMS {
          result := Assign(result, TRUNCATED_KEY, FieldsMarker(count));
        }
        return JObject(result);
      case _ =>
        return v;
    }
  }

  // ----- Secrets do not show -----

  /** Equal but for the values of secret-named keys, at every level. */
  predicate SameButSecrets(v: Json, w: Json, secret: Secret)
    decreases v
  {
    match v
    case JArray(items) => w.JArray? && SameItemsButSecrets(items, w.items, secret)
    case JObject(members) => w.JObject? && SameMembersButSecrets(members, w.members, secret)
    case _ => v == w
  }

  predicate SameItemsButSecrets(a: Items, b: Items, secret: Secret)
    decreases a
  {
    match a
    case NoItems => b.NoItems?
    case Item(value, rest) =>
      b.Item? && SameButSecrets(value, b.value, secret) && SameItemsButSecrets(rest, b.rest, secret)
  }

  predicate SameMembersButSecrets(a: Members, b: Members, secret: Secret)
    decreases a
  {
    match a
    case NoMembers => b.NoMembers?
    case Member(key, value, rest) =>
      b.Member? && b.key == key && (secret(key) || SameButSecrets(value, b.value, secret))
        && SameMembersButSecrets(rest, b.rest, secret)
  }

  /** Values that differ only under secret-named keys redact alike. */
  lemma {:induction false} SecretsDoNotShow(v: Json, w: Json, depth: nat, secret: Secret)
    requires SameButSecrets(v, w, secret)
    ensures Redact(v, depth, secret) == Redact(w, depth, secret)
    decreases v
  {
    match v
    case JArray(items) =>
      SecretItems(items, w.items, 0, NoItems, depth + 1, secret);
    case JObject(members) =>
      SecretMembers(members, w.members, 0, NoMembers, depth + 1, secret);
    case _ =>
  }

  lemma {:induction false} SecretItems(a: Items, b: Items, taken: nat, result: Items, depth: nat, secret: Secret)
    requires SameItemsButSecrets(a, b, secret)
    ensures RedactItems(a, taken, result, depth, secret) == RedactItems(b, taken, result, depth, secret)
    ensures ItemCount(a) == ItemCount(b)
    decreases a
  {
    if a.Item? {
      SecretsDoNotShow(a.value, b.value, depth, secret);
      SecretItems(a.rest, b.rest, taken + 1, Push(result, Redact(a.value, depth, secret)), depth, secret);
    }
  }

  lemma {:induction false} SecretMembers(a: Members, b: Members, taken: nat, result: Members, depth: nat,
                                         secret: Secret)
    requires SameMembersButSecrets(a, b, secret)
    ensures RedactMembers(a, taken, result, depth, secret) == RedactMembers(b, taken, result, depth, secret)
    ensures MemberCount(a) == MemberCount(b)
    decreases a
  {
    if a.Member? {
      if !secret(a.key) {
        SecretsDoNotShow(a.value, b.value, depth, secret);
      }
      var value := if secret(a.key) then JString(REDACTED) else Redact(a.value, depth, secret);
      SecretMembers(a.rest, b.rest, taken + 1, Assign(result, a.key, value), depth, secret);
    }
  }

  // ----- Bounds -----

  /** Every string value, list and object inside is within the audit bounds. */
  predicate Bounded(v: Json) {
    match v
    case JString(s) => |s| <= MAX_AUDIT_STRING + |TRUNCATED|
    case JArray(items) => ItemCount(items) <= MAX_AUDIT_ITEMS + 1 && ItemsBounded(items)
    case JObject(members) => MemberCount(members) <= MAX_AUDIT_ITEMS + 1 && MembersBounded(members)
    case _ => true
  }

  predicate ItemsBounded(items: Items) {
    match items case NoItems => true case Item(value, rest) => Bounded(value) && ItemsBounded(rest)
  }

  predicate MembersBounded(ms: Members) {
    match ms case NoMembers => true case Member(_, value, rest) => Bounded(value) && MembersBounded(rest)
  }

  lemma {:induction false} PushBounds(items: Items, value: Json, depth: nat)
    requires ItemsBounded(items) && Bounded(value) && ItemsDepth(items) <= depth && JsonDepth(value) <= depth
    ensures ItemsBounded(Push(items, value)) && ItemsDepth(Push(items, value)) <= depth
    ensures ItemCount(Push(items, value)) == ItemCount(items) + 1
  {
    if items.Item? {
      PushBounds(items.rest, value, depth);
    }
  }

  lemma {:induction false} AssignBounds(ms: Members, key: Text, value: Json, depth: nat)
    requires MembersBounded(ms) && Bounded(value) && MembersDepth(ms) <= depth && JsonDepth(value) <= depth
    ensures MembersBounded(Assign(ms, key, value)) && MembersDepth(Assign(ms, key, value)) <= depth
    ensures MemberCount(Assign(ms, key, value)) <= MemberCount(ms) + 1
  {
    if ms.Member? && ms.key != key {
      AssignBounds(ms.rest, key, value, depth);
    }
  }

  const MAX_COUNT := 9_007_199_254_740_991

  /** No list or object inside holds more than the platform's largest safe count. */
  predicate Countable(v: Json) {
    match v
    case JArray(items) => ItemCount(items) <= MAX_COUNT && ItemsCountable(items)
    case JObject(members) => MemberCount(members) <= MAX_COUNT && MembersCountable(members)
    case _ => true
  }

  predicate ItemsCountable(items: Items) {
    match items case NoItems => true case Item(value, rest) => Countable(value) && ItemsCountable(rest)
  }

  predicate MembersCountable(ms: Members) {
    match ms case NoMembers => true case Member(_, value, rest) => Countable(value) && MembersCountable(rest)
  }

  function PowerOfTen(k: nat): nat {
    if k == 0 then 1 else 10 * PowerOfTen(k - 1)
  }

  lemma {:induction false} FewDigits(n: nat, k: nat)
    requires n < PowerOfTen(k) && k > 0
    ensures |Digits(n)| <= k
  {
    if n >= 10 {
      assert k > 1 by {
        assert PowerOfTen(1) == 10;
      }
      FewDigits(n / 10, k - 1);
    }
  }

  lemma MarkersFit(count: nat)
    requires MAX_AUDIT_ITEMS < count <= MAX_COUNT
    ensures Bounded(ItemsMarker(count))
    ensures Bounded(FieldsMarker(count))
  {
    assert PowerOfTen(2) == 100 && PowerOfTen(4) == 10_000 && PowerOfTen(6) == 1_000_000
      && PowerOfTen(8) == 100_000_000;
    assert PowerOfTen(10) == 10_000_000_000 && PowerOfTen(12) == 1_000_000_000_000
      && PowerOfTen(14) == 100_000_000_000_000;
    assert PowerOfTen(16) == 10_000_000_000_000_000;
    FewDigits(count - MAX_AUDIT_ITEMS, 16);
  }

  /** Strings, lists and objects of redacted values are bounded, and so is how deeply they nest. */
  lemma {:induction false} RedactionBounds(v: Json, depth: nat, secret: Secret)
    requires Countable(v) && depth <= MAX_AUDIT_DEPTH + 1
    ensures Bounded(Redact(v, depth, secret))
    ensures depth + JsonDepth(Redact(v, depth, secret)) <= MAX_AUDIT_DEPTH + 1
    decreases v
  {
    if depth <= MAX_AUDIT_DEPTH {
      match v
      case JArray(items) => ListBounds(items, depth, secret);
      case JObject(members) => RecordBounds(members, depth, secret);
      case _ =>
    }
  }

  lemma {:induction false} ListBounds(items: Items, depth: nat, secret: Secret)
    requires Countable(JArray(items)) && depth <= MAX_AUDIT_DEPTH
    ensures Bounded(Redact(JArray(items), depth, secret))
    ensures depth + JsonDepth(Redact(JArray(items), depth, secret)) <= MAX_AUDIT_DEPTH + 1
    decreases items, 1
  {
    ItemBounds(items, 0, NoItems, depth + 1, secret);
    var kept, count := RedactItems(items, 0, NoItems, depth + 1, secret), ItemCount(items);
    if count > MAX_AUDIT_ITEMS {
      MarkersFit(count);
      PushBounds(kept, ItemsMarker(count), MAX_AUDIT_DEPTH - depth);
    }
  }

  lemma {:induction false} RecordBounds(members: Members, depth: nat, secret: Secret)
    requires Countable(JObject(members)) && depth <= MAX_AUDIT_DEPTH
    ensures Bounded(Redact(JObject(members), depth, secret))
    ensures depth + JsonDepth(Redact(JObject(members), depth, secret)) <= MAX_AUDIT_DEPTH + 1
    decreases members, 1
  {
    MemberBounds(members, 0, NoMembers, depth + 1, secret);
    var kept, count := RedactMembers(members, 0, NoMembers, depth + 1, secret), MemberCount(members);
    if count > MAX_AUDIT_ITEMS {
      MarkersFit(count);
      AssignBounds(kept, TRUNCATED_KEY, FieldsMarker(count), MAX_AUDIT_DEPTH - depth);
    }
  }

  lemma {:induction false} ItemBounds(items: Items, taken: nat, result: Items, depth: nat, secret: Secret)
    requires ItemsCountable(items) && ItemsBounded(result) && ItemCount(result) == taken <= MAX_AUDIT_ITEMS
    requires depth <= MAX_AUDIT_DEPTH + 1 && ItemsDepth(result) <= MAX_AUDIT_DEPTH + 1 - depth
    ensures var kept := RedactItems(items, taken, result, depth, secret);
            ItemsBounded(kept) && ItemCount(kept) <= MAX_AUDIT_ITEMS && depth + ItemsDepth(kept) <= MAX_AUDIT_DEPTH + 1
    decreases items, 0
  {
    if items.Item? && taken < MAX_AUDIT_ITEMS {
      RedactionBounds(items.value, depth, secret);
      PushBounds(result, Redact(items.value, depth, secret), MAX_AUDIT_DEPTH + 1 - depth);
      ItemBounds(items.rest, taken + 1, Push(result, Redact(items.value, depth, secret)), depth, secret);
    }
  }

  lemma {:induction false} MemberBounds(ms: Members, taken: nat, result: Members, depth: nat, secret: Secret)
    requires MembersCountable(ms) && MembersBounded(result) && MemberCount(result) <= taken <= MAX_AUDIT_ITEMS
    requires depth <= MAX_AUDIT_DEPTH + 1 && MembersDepth(result) <= MAX_AUDIT_DEPTH + 1 - depth
    ensures var kept := RedactMembers(ms, taken, result, depth, secret);
            MembersBounded(kept) && MemberCount(kept) <= MAX_AUDIT_ITEMS
              && depth + MembersDepth(kept) <= MAX_AUDIT_DEPTH + 1
    decreases ms, 0
  {
    if ms.Member? && taken < MAX_AUDIT_ITEMS {
      var value := if secret(ms.key) then JString(REDACTED) else Redact(ms.value, depth, secret);
      if !secret(ms.key) {
        RedactionBounds(ms.value, depth, secret);
      }
      AssignBounds(result, ms.key, value, MAX_AUDIT_DEPTH + 1 - depth);
      MemberBounds(ms.rest, taken + 1, Assign(result, ms.key, value), depth, secret);
    }
  }

  // ----- What is stored of a call -----

  /** The stored arguments and the request hash of a call. */
  datatype Stored = Stored(argumentsJson: Text, requestHash: Text)

  /** The text that is hashed: the server, the tool and the redacted arguments under their names. */
  function RequestOf(server: Json, tool: Json, arguments: Json, names: (Text, Text, Text)): Json {
    JObject(Member(names.0, server, Member(names.1, tool, Member(names.2, arguments, NoMembers))))
  }

  function StoredFor(server: Json, tool: Json, arguments: Json, names: (Text, Text, Text), secret: Secret,
                     sha: Text -> Text): Stored {
    var redacted := Redact(arguments, 0, secret);
    Stored(CanonicalText(redacted), sha(CanonicalText(RequestOf(server, tool, redacted, names))))
  }

  /** Neither the stored arguments nor the request hash depend on the values of secret-named keys. */
  lemma StoredRevealsNoSecrets(server: Json, tool: Json, v: Json, w: Json, names: (Text, Text, Text), secret: Secret,
                               sha: Text -> Text)
    requires SameButSecrets(v, w, secret)
    ensures StoredFor(server, tool, v, names, secret, sha) == StoredFor(server, tool, w, names, secret, sha)
  {
    SecretsDoNotShow(v, w, 0, secret);
  }

  /** A redacted value's canonical text passes the nesting check of receipts. */
  lemma RedactedNesting(v: Json, secret: Secret)
    requires Countable(v)
    ensures WellNested(CanonicalText(Redact(v, 0, secret)))
  {
    RedactionBounds(v, 0, secret);
    CanonicalTextNesting(Redact(v, 0, secret));
  }
}
