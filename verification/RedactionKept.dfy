/** What redaction keeps: what stands at each place of a redacted value, told from the value it was made of. */
module RedactionKept {
  import opened Numbers
  import opened Options
  import opened JsonText
  import opened JsonValues
  import opened CanonicalJson
  import opened ReceiptJson
  import opened JsonObjects
  import opened Redaction

  // ----- Places in a value -----

  function ItemList(items: Items): (r: seq<Json>)
    ensures |r| == ItemCount(items)
  {
    match items case NoItems => [] case Item(value, rest) => [value] + ItemList(rest)
  }

  function KeyList(ms: Members): (r: seq<Text>)
    ensures |r| == MemberCount(ms)
  {
    match ms case NoMembers => [] case Member(key, _, rest) => [key] + KeyList(rest)
  }

  /** One step into a value: to an item, or under a name. */
  datatype Place = At(index: nat) | Under(key: Text)

  function Child(v: Json, place: Place): Option<Json> {
    match place
    case At(i) => if v.JArray? && i < ItemCount(v.items) then Some(ItemList(v.items)[i]) else None
    case Under(key) => if v.JObject? && key in Keys(v.members) then Some(Lookup(v.members, key)) else None
  }

  function Find(v: Json, path: seq<Place>): Option<Json>
    decreases |path|
  {
    if path == [] then Some(v)
    else match Child(v, path[0]) case None => None case Some(w) => Find(w, path[1..])
  }

  /** The names kept of an object: the first hundred. */
  function KeptKeys(ms: Members): seq<Text> {
    KeyList(ms)[..Min(100, MemberCount(ms))]
  }

  /** The mark of an object that was cut takes the place of a field of that name. */
  predicate Overwritten(ms: Members, key: Text) {
    MemberCount(ms) > 100 && key == Units("__truncated__")
  }

  /** Redaction looks at this place: among the first hundred, and under no secret name. */
  predicate Open(v: Json, place: Place, secret: Secret) {
    Child(v, place).Some?
    && match place
       case At(i) => i < 100
       case Under(key) => key in KeptKeys(v.members) && !secret(key) && !Overwritten(v.members, key)
  }

  predicate Reached(v: Json, path: seq<Place>, secret: Secret)
    decreases |path|
  {
    path == [] || (Open(v, path[0], secret) && Reached(Child(v, path[0]).value, path[1..], secret))
  }

  // ----- What stands at a place -----

  function CutItemsMark(count: nat): Json
    requires count > 100
  {
    JString(Units("[TRUNCATED:") + Digits(count - 100) + Units("_ITEMS]"))
  }

  function CutFieldsMark(count: nat): Json
    requires count > 100
  {
    JString(Digits(count - 100) + Units(" fields"))
  }

  /** The first hundred items, and the count of the others when there are any. */
  predicate StandsForList(items: Items, shown: Json) {
    && shown.JArray?
    && ItemCount(shown.items) == (if ItemCount(items) > 100 then 101 else ItemCount(items))
    && (ItemCount(items) > 100 ==> ItemList(shown.items)[100] == CutItemsMark(ItemCount(items)))
  }

  /** The first hundred names in their order, and the count of the others under its own name when there are any. */
  predicate StandsForRecord(ms: Members, shown: Json) {
    && shown.JObject?
    && (MemberCount(ms) <= 100 ==> KeyList(shown.members) == KeyList(ms))
    && (MemberCount(ms) > 100 ==>
       && KeyList(shown.members) ==
          KeptKeys(ms) + (if Units("__truncated__") in KeptKeys(ms) then [] else [Units("__truncated__")])
       && Child(shown, Under(Units("__truncated__"))) == Some(CutFieldsMark(MemberCount(ms))))
  }

  /** What a value is shown as at this depth. */
  predicate Stands(v: Json, shown: Json, depth: nat) {
    if depth > 12 then shown == JString(Units("[TRUNCATED:DEPTH]"))
    else
      match v
      case JString(s) => shown == if |s| <= 512 then v else JString(s[..512] + Units("[TRUNCATED]"))
      case JArray(items) => StandsForList(items, shown)
      case JObject(ms) => StandsForRecord(ms, shown)
      case _ => shown == v
  }

  lemma MarksAreSpelled()
    ensures TRUNCATED == Units("[TRUNCATED]") && TRUNCATED_DEPTH == Units("[TRUNCATED:DEPTH]")
    ensures TRUNCATED_COLON == Units("[TRUNCATED:") && ITEMS_MARK == Units("_ITEMS]")
    ensures FIELDS_MARK == Units(" fields") && TRUNCATED_KEY == Units("__truncated__")
    ensures REDACTED == Units("[REDACTED]")
  {
  }

  // ----- One level -----

  /** The first items, each as it is kept. */
  function FirstItems(items: Items, n: nat, depth: nat, secret: Secret): Items
    decreases items
  {
    if n == 0 || items.NoItems? then NoItems
    else Item(Redact(items.value, depth, secret), FirstItems(items.rest, n - 1, depth, secret))
  }

  /** What a field is kept as. */
  function FieldKept(key: Text, value: Json, depth: nat, secret: Secret): Json {
    if secret(key) then JString(REDACTED) else Redact(value, depth, secret)
  }

  /** The first fields, each as it is kept. */
  function FirstFields(ms: Members, n: nat, depth: nat, secret: Secret): (r: Members)
    ensures Keys(r) <= Keys(ms)
    decreases ms
  {
    if n == 0 || ms.NoMembers? then NoMembers
    else Member(ms.key, FieldKept(ms.key, ms.value, depth, secret), FirstFields(ms.rest, n - 1, depth, secret))
  }

  function Followed(items: Items, more: Items): Items {
    match items case NoItems => more case Item(value, rest) => Item(value, Followed(rest, more))
  }

  lemma {:induction false} PushFollowed(items: Items, value: Json, more: Items)
    ensures Followed(Push(items, value), more) == Followed(items, Item(value, more))
  {
    if items.Item? {
      PushFollowed(items.rest, value, more);
    }
  }

  lemma {:induction false} FollowedNothing(items: Items)
    ensures Followed(items, NoItems) == items
  {
    if items.Item? {
      FollowedNothing(items.rest);
    }
  }

  lemma {:induction false} AppendNothing(ms: Members)
    ensures Append(ms, NoMembers) == ms
  {
    if ms.Member? {
      AppendNothing(ms.rest);
    }
  }

  /** The items not yet taken follow those taken, up to the hundredth. */
  lemma {:induction false} ItemsKept(items: Items, taken: nat, result: Items, depth: nat, secret: Secret)
    requires taken <= 100
    ensures RedactItems(items, taken, result, depth, secret) ==
            Followed(result, FirstItems(items, 100 - taken, depth, secret))
    decreases items
  {
    if items.Item? && taken < 100 {
      var value := Redact(items.value, depth, secret);
      ItemsKept(items.rest, taken + 1, Push(result, value), depth, secret);
      PushFollowed(result, value, FirstItems(items.rest, 99 - taken, depth, secret));
    } else {
      FollowedNothing(result);
    }
  }

  lemma {:induction false} FieldsKept(ms: Members, taken: nat, result: Members, depth: nat, secret: Secret)
    requires taken <= 100 && MembersWellFormed(ms) && Keys(ms) !! Keys(result)
    ensures RedactMembers(ms, taken, result, depth, secret) ==
            Append(result, FirstFields(ms, 100 - taken, depth, secret))
    decreases ms
  {
    if ms.Member? && taken < 100 {
      var value := FieldKept(ms.key, ms.value, depth, secret);
      FieldsKept(ms.rest, taken + 1, Assign(result, ms.key, value), depth, secret);
      AssignNew(result, ms.key, value, FirstFields(ms.rest, 99 - taken, depth, secret));
    } else {
      AppendNothing(result);
    }
  }

  lemma {:induction false} FirstItemsAre(items: Items, n: nat, depth: nat, secret: Secret)
    ensures ItemCount(FirstItems(items, n, depth, secret)) == Min(n, ItemCount(items))
    ensures forall i :: 0 <= i < n && i < ItemCount(items) ==>
              ItemList(FirstItems(items, n, depth, secret))[i] == Redact(ItemList(items)[i], depth, secret)
    decreases items
  {
    if items.Item? && n > 0 {
      FirstItemsAre(items.rest, n - 1, depth, secret);
    }
  }

  lemma {:induction false} FirstNamesAre(ms: Members, n: nat, depth: nat, secret: Secret)
    ensures KeyList(FirstFields(ms, n, depth, secret)) == KeyList(ms)[..Min(n, MemberCount(ms))]
    decreases ms
  {
    if ms.Member? && n > 0 {
      FirstNamesAre(ms.rest, n - 1, depth, secret);
    }
  }

  lemma {:induction false} Listed(ms: Members, key: Text)
    ensures key in KeyList(ms) <==> key in Keys(ms)
  {
    if ms.Member? {
      Listed(ms.rest, key);
    }
  }

  lemma {:induction false} FirstFieldIs(ms: Members, n: nat, depth: nat, secret: Secret, key: Text)
    requires MembersWellFormed(ms) && key in Keys(FirstFields(ms, n, depth, secret))
    ensures key in Keys(ms)
    ensures Lookup(FirstFields(ms, n, depth, secret), key) == FieldKept(key, Lookup(ms, key), depth, secret)
    decreases ms
  {
    if ms.key != key {
      FirstFieldIs(ms.rest, n - 1, depth, secret, key);
    }
  }

  lemma {:induction false} PushedLast(items: Items, value: Json)
    ensures ItemList(Push(items, value)) == ItemList(items) + [value]
  {
    if items.Item? {
      PushedLast(items.rest, value);
    }
  }

  lemma {:induction false} ListKept(items: Items, depth: nat, secret: Secret)
    requires depth <= 12
    ensures var shown := Redact(JArray(items), depth, secret);
            && StandsForList(items, shown)
            && forall i :: 0 <= i < 100 && i < ItemCount(items) ==>
                 ItemList(shown.items)[i] == Redact(ItemList(items)[i], depth + 1, secret)
  {
    MarksAreSpelled();
    ItemsKept(items, 0, NoItems, depth + 1, secret);
    var kept := FirstItems(items, 100, depth + 1, secret);
    FirstItemsAre(items, 100, depth + 1, secret);
    if ItemCount(items) > 100 {
      PushedLast(kept, ItemsMarker(ItemCount(items)));
    }
  }

  lemma {:induction false} AssignedKeys(ms: Members, key: Text, value: Json)
    ensures KeyList(Assign(ms, key, value)) == KeyList(ms) + (if key in Keys(ms) then [] else [key])
    ensures Lookup(Assign(ms, key, value), key) == value
  {
    if ms.Member? && ms.key != key {
      AssignedKeys(ms.rest, key, value);
    }
  }

  lemma {:induction false} OthersStay(ms: Members, key: Text, value: Json, other: Text)
    requires other in Keys(ms) && other != key
    ensures Lookup(Assign(ms, key, value), other) == Lookup(ms, other)
  {
    if ms.key != key && ms.key != other {
      OthersStay(ms.rest, key, value, other);
    }
  }

  /** The fields kept of an object. */
  function Kept(ms: Members, depth: nat, secret: Secret): Members {
    FirstFields(ms, 100, depth + 1, secret)
  }

  lemma {:induction false} RecordIs(ms: Members, depth: nat, secret: Secret)
    requires depth <= 12 && MembersWellFormed(ms)
    ensures Redact(JObject(ms), depth, secret) ==
            JObject(if MemberCount(ms) > 100
                    then Assign(Kept(ms, depth, secret), Units("__truncated__"), CutFieldsMark(MemberCount(ms)))
                    else Kept(ms, depth, secret))
    ensures KeyList(Kept(ms, depth, secret)) == KeptKeys(ms)
  {
    MarksAreSpelled();
    FieldsKept(ms, 0, NoMembers, depth + 1, secret);
    FirstNamesAre(ms, 100, depth + 1, secret);
  }

  lemma {:induction false} FieldStands(ms: Members, depth: nat, secret: Secret, key: Text)
    requires depth <= 12 && MembersWellFormed(ms) && key in KeptKeys(ms) && !Overwritten(ms, key)
    ensures key in Keys(ms)
    ensures Child(Redact(JObject(ms), depth, secret), Under(key)) ==
            Some(FieldKept(key, Lookup(ms, key), depth + 1, secret))
  {
    RecordIs(ms, depth, secret);
    Listed(Kept(ms, depth, secret), key);
    FirstFieldIs(ms, 100, depth + 1, secret, key);
    if MemberCount(ms) > 100 {
      OthersStay(Kept(ms, depth, secret), Units("__truncated__"), CutFieldsMark(MemberCount(ms)), key);
    }
  }

  lemma {:induction false} RecordStands(ms: Members, depth: nat, secret: Secret)
    requires depth <= 12 && MembersWellFormed(ms)
    ensures StandsForRecord(ms, Redact(JObject(ms), depth, secret))
  {
    RecordIs(ms, depth, secret);
    if MemberCount(ms) > 100 {
      AssignedKeys(Kept(ms, depth, secret), Units("__truncated__"), CutFieldsMark(MemberCount(ms)));
      Listed(Kept(ms, depth, secret), Units("__truncated__"));
    } else {
      assert KeptKeys(ms) == KeyList(ms);
    }
  }

  // ----- Every place -----

  lemma {:induction false} ChildKept(v: Json, place: Place, depth: nat, secret: Secret)
    requires WellFormed(v) && depth <= 12 && Open(v, place, secret)
    ensures Child(v, place).Some? && WellFormed(Child(v, place).value)
    ensures Child(Redact(v, depth, secret), place) == Some(Redact(Child(v, place).value, depth + 1, secret))
  {
    match place
    case At(i) =>
      ListKept(v.items, depth, secret);
      ItemWellFormed(v.items, i);
    case Under(key) =>
      FieldStands(v.members, depth, secret, key);
      LookupWellFormed(v.members, key);
  }

  lemma {:induction false} ItemWellFormed(items: Items, i: nat)
    requires ItemsWellFormed(items) && i < ItemCount(items)
    ensures WellFormed(ItemList(items)[i])
  {
    if i > 0 {
      ItemWellFormed(items.rest, i - 1);
    }
  }

  lemma {:induction false} PlaceKept(v: Json, path: seq<Place>, depth: nat, end: nat, secret: Secret)
    requires WellFormed(v) && Reached(v, path, secret) && end == depth + |path| <= 13
    ensures Find(v, path).Some? && WellFormed(Find(v, path).value)
    ensures Find(Redact(v, depth, secret), path) == Some(Redact(Find(v, path).value, end, secret))
    decreases |path|
  {
    if path == [] {
      FindHere(Redact(v, depth, secret), path);
    } else {
      var w := Child(v, path[0]).value;
      ChildKept(v, path[0], depth, secret);
      PlaceKept(w, path[1..], depth + 1, end, secret);
      FindStep(v, path);
      FindStep(Redact(v, depth, secret), path);
    }
  }

  lemma FindHere(v: Json, path: seq<Place>)
    requires path == []
    ensures Find(v, path) == Some(v)
  {
  }

  lemma FindStep(v: Json, path: seq<Place>)
    requires path != [] && Child(v, path[0]).Some?
    ensures Find(v, path) == Find(Child(v, path[0]).value, path[1..])
  {
  }

  lemma {:induction false} RedactedStands(v: Json, depth: nat, secret: Secret)
    requires WellFormed(v)
    ensures Stands(v, Redact(v, depth, secret), depth)
  {
    MarksAreSpelled();
    if depth <= 12 {
      match v
      case JArray(items) => ListKept(items, depth, secret);
      case JObject(ms) => RecordStands(ms, depth, secret);
      case _ =>
    }
  }

  /**
    * At every place redaction reaches, what stands is told by the value at that place and its depth: scalars and
    * strings of up to 512 units as they are, a longer string cut, the first hundred entries of a list or an object,
    * and one mark thirteen levels down.
    */
  lemma {:induction false} RedactionKeeps(v: Json, path: seq<Place>, secret: Secret)
    requires WellFormed(v) && Reached(v, path, secret) && |path| <= 13
    ensures Find(v, path).Some? && Find(Redact(v, 0, secret), path).Some?
    ensures Stands(Find(v, path).value, Find(Redact(v, 0, secret), path).value, |path|)
  {
    PlaceKept(v, path, 0, |path|, secret);
    RedactedStands(Find(v, path).value, |path|, secret);
  }

  /** Under a secret name, at every level redaction reaches, there is the one mark of secrets. */
  lemma {:induction false} SecretsAreReplaced(v: Json, path: seq<Place>, key: Text, secret: Secret)
    requires WellFormed(v) && Reached(v, path, secret) && |path| <= 12
    requires Find(v, path).Some? && Find(v, path).value.JObject?
    requires var ms := Find(v, path).value.members; key in KeptKeys(ms) && secret(key) && !Overwritten(ms, key)
    ensures Find(Redact(v, 0, secret), path).Some?
    ensures Child(Find(Redact(v, 0, secret), path).value, Under(key)) == Some(JString(Units("[REDACTED]")))
  {
    MarksAreSpelled();
    PlaceKept(v, path, 0, |path|, secret);
    FieldStands(Find(v, path).value.members, |path|, secret, key);
  }

  // ----- Values that stand unchanged -----

  /** Within every bound, from this depth on, and without a secret name. */
  predicate Plain(v: Json, depth: nat, secret: Secret)
    decreases v
  {
    depth <= 12
    && match v
       case JString(s) => |s| <= 512
       case JArray(items) => ItemCount(items) <= 100 && ItemsPlain(items, depth + 1, secret)
       case JObject(ms) => MemberCount(ms) <= 100 && MembersPlain(ms, depth + 1, secret)
       case _ => true
  }

  predicate ItemsPlain(items: Items, depth: nat, secret: Secret)
    decreases items
  {
    match items
    case NoItems => true
    case Item(value, rest) => Plain(value, depth, secret) && ItemsPlain(rest, depth, secret)
  }

  predicate MembersPlain(ms: Members, depth: nat, secret: Secret)
    decreases ms
  {
    match ms
    case NoMembers => true
    case Member(key, value, rest) => !secret(key) && Plain(value, depth, secret) && MembersPlain(rest, depth, secret)
  }

  lemma {:induction false} PlainItems(items: Items, taken: nat, result: Items, depth: nat, secret: Secret)
    requires ItemsPlain(items, depth, secret) && taken + ItemCount(items) <= 100 && ItemsWellFormed(items)
    ensures RedactItems(items, taken, result, depth, secret) == Followed(result, items)
    decreases items
  {
    if items.Item? {
      PlainStands(items.value, depth, secret);
      PlainItems(items.rest, taken + 1, Push(result, items.value), depth, secret);
      PushFollowed(result, items.value, items.rest);
    } else {
      FollowedNothing(result);
    }
  }

  lemma {:induction false} PlainMembers(ms: Members, taken: nat, result: Members, depth: nat, secret: Secret)
    requires MembersPlain(ms, depth, secret) && taken + MemberCount(ms) <= 100
    requires MembersWellFormed(ms) && Keys(ms) !! Keys(result)
    ensures RedactMembers(ms, taken, result, depth, secret) == Append(result, ms)
    decreases ms
  {
    if ms.Member? {
      PlainStands(ms.value, depth, secret);
      PlainMembers(ms.rest, taken + 1, Assign(result, ms.key, ms.value), depth, secret);
      AssignNew(result, ms.key, ms.value, ms.rest);
    } else {
      AppendNothing(result);
    }
  }

  /** A value within the bounds and without secret names is not changed at all. */
  lemma {:induction false} PlainStands(v: Json, depth: nat, secret: Secret)
    requires WellFormed(v) && Plain(v, depth, secret)
    ensures Redact(v, depth, secret) == v
    decreases v
  {
    match v
    case JArray(items) => PlainItems(items, 0, NoItems, depth + 1, secret);
    case JObject(ms) => PlainMembers(ms, 0, NoMembers, depth + 1, secret);
    case _ =>
  }

  /** So the stored text tells such arguments apart, up to the order of members. */
  lemma PlainArgumentsAreTold(v: Json, w: Json, server: Json, tool: Json, names: (Text, Text, Text), secret: Secret,
                              sha: Text -> Text)
    requires WellFormed(v) && WellFormed(w) && Plain(v, 0, secret) && Plain(w, 0, secret)
    requires StoredFor(server, tool, v, names, secret, sha).argumentsJson ==
             StoredFor(server, tool, w, names, secret, sha).argumentsJson
    ensures SameUpToOrder(v, w)
  {
    PlainStands(v, 0, secret);
    PlainStands(w, 0, secret);
    CanonicalTextDecides(v, w);
  }

  /** The texts hashed for two requests, when they differ and yet have one hash. */
  predicate Collide(a: Text, b: Text, sha: Text -> Text) {
    a != b && sha(a) == sha(b)
  }

  lemma {:induction false} SameRequest(a: Json, b: Json, v: Json, w: Json, server: Json, tool: Json,
                                       names: (Text, Text, Text))
    requires a == RequestOf(server, tool, v, names) && b == RequestOf(server, tool, w, names)
    requires WellFormed(a) && WellFormed(b) && WellFormed(v) && WellFormed(w)
    requires names.0 != names.2 && names.1 != names.2 && CanonicalText(a) == CanonicalText(b)
    ensures SameUpToOrder(v, w)
  {
    CanonicalTextDecides(a, b);
    SortDecides(a, b);
    AlikeGet(a, b, names.2);
    assert Lookup(a.members.rest.rest, names.2) == v && Lookup(b.members.rest.rest, names.2) == w;
    assert Lookup(a.members.rest, names.2) == v && Lookup(b.members.rest, names.2) == w;
    SortDecides(v, w);
  }

  lemma RequestWellFormed(server: Json, tool: Json, v: Json, names: (Text, Text, Text))
    requires WellFormed(server) && WellFormed(tool) && WellFormed(v)
    requires names.0 != names.1 && names.0 != names.2 && names.1 != names.2
    ensures WellFormed(RequestOf(server, tool, v, names))
  {
    var last := Member(names.2, v, NoMembers);
    assert MembersWellFormed(last) && Keys(last) == {names.2};
    assert MembersWellFormed(Member(names.1, tool, last));
  }

  /** And the request hash tells them apart, short of a failure of the hash. */
  lemma PlainRequestsAreTold(v: Json, w: Json, server: Json, tool: Json, names: (Text, Text, Text), secret: Secret,
                             sha: Text -> Text)
    requires WellFormed(v) && WellFormed(w) && Plain(v, 0, secret) && Plain(w, 0, secret)
    requires WellFormed(server) && WellFormed(tool) && names.0 != names.1 && names.0 != names.2 && names.1 != names.2
    requires StoredFor(server, tool, v, names, secret, sha).requestHash ==
             StoredFor(server, tool, w, names, secret, sha).requestHash
    ensures SameUpToOrder(v, w)
         || Collide(CanonicalText(RequestOf(server, tool, v, names)), CanonicalText(RequestOf(server, tool, w, names)),
                    sha)
  {
    PlainStands(v, 0, secret);
    PlainStands(w, 0, secret);
    var a, b := RequestOf(server, tool, v, names), RequestOf(server, tool, w, names);
    if CanonicalText(a) == CanonicalText(b) {
      RequestWellFormed(server, tool, v, names);
      RequestWellFormed(server, tool, w, names);
      SameRequest(a, b, v, w, server, tool, names);
    }
  }
}
