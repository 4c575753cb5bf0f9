/** Objects made of listed fields, and looked up, copied and counted by name. */
module JsonObjects {
  import opened Numbers
  import opened Options
  import opened Sequences
  import opened JsonText
  import opened JsonValues
  import opened CanonicalJson
  import opened JsonTally
  import opened Utf16

  /** The code units of a name. */
  function Units(s: string): Text {
    seq(|s|, i requires 0 <= i < |s| => (s[i] as int) % 0x1_0000)
  }

  function Get(v: Json, key: Text): Option<Json> {
    if v.JObject? && key in Keys(v.members) then Some(Lookup(v.members, key)) else None
  }

  /** The keys are the required ones and some of the optional ones. */
  predicate ExactKeys(ms: Members, required: seq<Text>, optional: seq<Text>) {
    && (forall k :: k in required ==> k in Keys(ms))
    && (forall k :: k in Keys(ms) ==> k in required || k in optional)
  }

  // ----- Equal up to the order of members -----

  predicate Alike(v: Json, w: Json) {
    SortValue(v) == SortValue(w)
  }

  /** What is looked up in alike objects is alike. */
  lemma {:induction false} AlikeMembers(a: Members, b: Members)
    requires MembersWellFormed(a) && MembersWellFormed(b) && Alike(JObject(a), JObject(b))
    ensures Keys(a) == Keys(b)
    ensures forall k :: k in Keys(a) ==> Alike(Lookup(a, k), Lookup(b, k))
  {
    SortedMembers(a);
    SortedMembers(b);
    assert SortMembers(a) == SortMembers(b);
  }

  lemma {:induction false} AlikeGet(v: Json, w: Json, key: Text)
    requires WellFormed(v) && WellFormed(w) && Alike(v, w)
    ensures Get(v, key).Some? <==> Get(w, key).Some?
    ensures Get(v, key).Some? ==> Alike(Get(v, key).value, Get(w, key).value)
                                  && WellFormed(Get(v, key).value) && WellFormed(Get(w, key).value)
  {
    if v.JObject? && w.JObject? {
      AlikeMembers(v.members, w.members);
      if key in Keys(v.members) {
        LookupWellFormed(v.members, key);
        LookupWellFormed(w.members, key);
      }
    }
  }

  // ----- Objects made of names and values, and lists -----

  function NamedFrom(names: seq<Text>, values: seq<Json>, i: nat): Members
    requires |names| == |values| && i <= |names|
    decreases |names| - i
  {
    if i == |names| then NoMembers else Member(names[i], values[i], NamedFrom(names, values, i + 1))
  }

  function Named(names: seq<Text>, values: seq<Json>): Json
    requires |names| == |values|
  {
    JObject(NamedFrom(names, values, 0))
  }

  ghost predicate AllWellFormed(values: seq<Json>) {
    forall i :: 0 <= i < |values| ==> WellFormed(values[i])
  }

  lemma {:induction false} NamedKeys(names: seq<Text>, values: seq<Json>, i: nat)
    requires |names| == |values| && i <= |names|
    ensures forall k :: k in Keys(NamedFrom(names, values, i)) <==> exists j :: i <= j < |names| && names[j] == k
    decreases |names| - i
  {
    if i < |names| {
      NamedKeys(names, values, i + 1);
    }
  }

  lemma {:induction false} NamedAt(names: seq<Text>, values: seq<Json>, i: nat, j: nat)
    requires |names| == |values| && Distinct(names) && i <= j < |names|
    ensures names[j] in Keys(NamedFrom(names, values, i)) && Lookup(NamedFrom(names, values, i), names[j]) == values[j]
    decreases j - i
  {
    if i < j {
      NamedAt(names, values, i + 1, j);
    }
  }

  lemma {:induction false} NamedWellFormed(names: seq<Text>, values: seq<Json>, i: nat)
    requires |names| == |values| && Distinct(names) && AllWellFormed(values) && i <= |names|
    ensures MembersWellFormed(NamedFrom(names, values, i))
    decreases |names| - i
  {
    if i < |names| {
      NamedKeys(names, values, i + 1);
      NamedWellFormed(names, values, i + 1);
    }
  }

  /** The object has exactly these names, and under each its value. */
  lemma {:induction false} NamedIs(names: seq<Text>, values: seq<Json>)
    requires |names| == |values| && Distinct(names) && AllWellFormed(values)
    ensures WellFormed(Named(names, values)) && ExactKeys(Named(names, values).members, names, [])
    ensures forall j :: 0 <= j < |names| ==> Get(Named(names, values), names[j]) == Some(values[j])
  {
    NamedWellFormed(names, values, 0);
    NamedKeys(names, values, 0);
    forall j | 0 <= j < |names| ensures Get(Named(names, values), names[j]) == Some(values[j]) {
      NamedAt(names, values, 0, j);
    }
  }

  function VisitsFrom(values: seq<Json>, i: nat): nat
    requires i <= |values|
    decreases |values| - i
  {
    if i == |values| then 0 else Visits(values[i]) + VisitsFrom(values, i + 1)
  }

  ghost predicate NoHigher(values: seq<Json>, h: nat) {
    forall i :: 0 <= i < |values| ==> Levels(values[i]) <= h
  }

  ghost predicate NoMore(values: seq<Json>, each: nat) {
    forall i :: 0 <= i < |values| ==> Visits(values[i]) <= each
  }

  lemma {:induction false} NamedCounts(names: seq<Text>, values: seq<Json>, i: nat, h: nat)
    requires |names| == |values| && NoHigher(values, h) && i <= |names|
    ensures MembersVisits(NamedFrom(names, values, i)) == VisitsFrom(values, i)
    ensures MembersLevels(NamedFrom(names, values, i)) <= h
    decreases |names| - i
  {
    if i < |names| {
      NamedCounts(names, values, i + 1, h);
    }
  }

  function ItemsFrom(values: seq<Json>, i: nat): Items
    requires i <= |values|
    decreases |values| - i
  {
    if i == |values| then NoItems else Item(values[i], ItemsFrom(values, i + 1))
  }

  function Array(values: seq<Json>): Json {
    JArray(ItemsFrom(values, 0))
  }

  lemma {:induction false} ItemsWellFormedFrom(values: seq<Json>, i: nat)
    requires AllWellFormed(values) && i <= |values|
    ensures ItemsWellFormed(ItemsFrom(values, i))
    decreases |values| - i
  {
    if i < |values| {
      ItemsWellFormedFrom(values, i + 1);
    }
  }

  lemma {:induction false} ItemsCounts(values: seq<Json>, i: nat, h: nat)
    requires NoHigher(values, h) && i <= |values|
    ensures ItemsVisits(ItemsFrom(values, i)) == VisitsFrom(values, i) && ItemsLevels(ItemsFrom(values, i)) <= h
    decreases |values| - i
  {
    if i < |values| {
      ItemsCounts(values, i + 1, h);
    }
  }

  lemma {:induction false} VisitsWithin(values: seq<Json>, i: nat, each: nat)
    requires i <= |values| && NoMore(values, each)
    ensures VisitsFrom(values, i) <= each * (|values| - i)
    decreases |values| - i
  {
    if i < |values| {
      VisitsWithin(values, i + 1, each);
      assert each * (|values| - i) == each * (|values| - (i + 1)) + each;
    }
  }

  function SumFrom(bounds: seq<nat>, i: nat): nat
    requires i <= |bounds|
    decreases |bounds| - i
  {
    if i == |bounds| then 0 else bounds[i] + SumFrom(bounds, i + 1)
  }

  ghost predicate EachWithin(values: seq<Json>, bounds: seq<nat>) {
    |values| == |bounds| && forall i :: 0 <= i < |values| ==> Visits(values[i]) <= bounds[i]
  }

  lemma {:induction false} SumBounds(values: seq<Json>, bounds: seq<nat>, i: nat)
    requires EachWithin(values, bounds) && i <= |values|
    ensures VisitsFrom(values, i) <= SumFrom(bounds, i)
    decreases |values| - i
  {
    if i < |values| {
      SumBounds(values, bounds, i + 1);
    }
  }

  lemma {:induction false} SumFour(bounds: seq<nat>, i: nat)
    requires i + 4 <= |bounds|
    ensures SumFrom(bounds, i) == bounds[i] + bounds[i + 1] + bounds[i + 2] + bounds[i + 3] + SumFrom(bounds, i + 4)
  {
    assert SumFrom(bounds, i + 3) == bounds[i + 3] + SumFrom(bounds, i + 4);
    assert SumFrom(bounds, i + 2) == bounds[i + 2] + SumFrom(bounds, i + 3);
    assert SumFrom(bounds, i + 1) == bounds[i + 1] + SumFrom(bounds, i + 2);
  }

  /** An object or a list of values within bounds. */
  lemma {:induction false} NamedBound(names: seq<Text>, values: seq<Json>, each: nat, h: nat)
    requires |names| == |values| && NoHigher(values, h) && NoMore(values, each)
    ensures Visits(Named(names, values)) <= 1 + each * |values| && Levels(Named(names, values)) <= 1 + h
  {
    NamedCounts(names, values, 0, h);
    VisitsWithin(values, 0, each);
  }

  lemma {:induction false} NamedExactly(names: seq<Text>, values: seq<Json>, h: nat)
    requires |names| == |values| && NoHigher(values, h)
    ensures Visits(Named(names, values)) == 1 + VisitsFrom(values, 0) && Levels(Named(names, values)) <= 1 + h
  {
    NamedCounts(names, values, 0, h);
  }

  lemma {:induction false} ArrayExactly(values: seq<Json>, h: nat)
    requires NoHigher(values, h)
    ensures Visits(Array(values)) == 1 + VisitsFrom(values, 0) && Levels(Array(values)) <= 1 + h
  {
    ItemsCounts(values, 0, h);
  }

  lemma {:induction false} ArrayBound(values: seq<Json>, each: nat, h: nat)
    requires NoHigher(values, h) && NoMore(values, each)
    ensures Visits(Array(values)) <= 1 + each * |values| && Levels(Array(values)) <= 1 + h
  {
    ArrayExactly(values, h);
    VisitsWithin(values, 0, each);
  }

  // ----- Parts of an object -----

  ghost predicate AtMost(a: Tally, b: Tally) {
    a.visits <= b.visits && a.height <= b.height && a.size <= b.size
  }

  function Without(ms: Members, key: Text): (r: Members)
    ensures Keys(r) == Keys(ms) - {key}
  {
    match ms
    case NoMembers => NoMembers
    case Member(k, v, rest) => if k == key then Without(rest, key) else Member(k, v, Without(rest, key))
  }

  lemma {:induction false} WithoutKeeps(ms: Members, key: Text)
    requires MembersWellFormed(ms)
    ensures MembersWellFormed(Without(ms, key))
    ensures forall k :: k in Keys(ms) && k != key ==> Lookup(Without(ms, key), k) == Lookup(ms, k)
  {
    if ms.Member? {
      WithoutKeeps(ms.rest, key);
    }
  }

  lemma {:induction false} WithoutAbsent(ms: Members, key: Text)
    requires key !in Keys(ms)
    ensures Without(ms, key) == ms
  {
    if ms.Member? {
      WithoutAbsent(ms.rest, key);
    }
  }

  /** A member and the others count for the whole object. */
  lemma {:induction false} TakeOut(ms: Members, key: Text)
    requires MembersWellFormed(ms) && key in Keys(ms)
    ensures MembersTally(ms) == Plus(Keyed(key, TallyOf(Lookup(ms, key))), MembersTally(Without(ms, key)))
  {
    if ms.key == key {
      WithoutAbsent(ms.rest, key);
    } else {
      TakeOut(ms.rest, key);
      PlusSwaps(Keyed(ms.key, TallyOf(ms.value)), Keyed(key, TallyOf(Lookup(ms.rest, key))),
                MembersTally(Without(ms.rest, key)));
    }
  }

  /** What the members of these names count for. */
  function PartsFrom(ms: Members, names: seq<Text>, i: nat): Tally
    requires i <= |names| && forall j :: i <= j < |names| ==> names[j] in Keys(ms)
    decreases |names| - i
  {
    if i == |names| then NOTHING else Plus(Keyed(names[i], TallyOf(Lookup(ms, names[i]))), PartsFrom(ms, names, i + 1))
  }

  lemma {:induction false} SameParts(a: Members, b: Members, names: seq<Text>, i: nat)
    requires i <= |names| && forall j :: i <= j < |names| ==>
                               names[j] in Keys(a) && names[j] in Keys(b) && Lookup(a, names[j]) == Lookup(b, names[j])
    ensures PartsFrom(a, names, i) == PartsFrom(b, names, i)
    decreases |names| - i
  {
    if i < |names| {
      SameParts(a, b, names, i + 1);
    }
  }

  /** Different members together count for no more than the object. */
  lemma {:induction false} PartsWithin(ms: Members, names: seq<Text>, i: nat)
    requires MembersWellFormed(ms) && Distinct(names) && i <= |names| && forall j :: i <= j < |names| ==>
        names[j] in Keys(ms)
    ensures AtMost(PartsFrom(ms, names, i), MembersTally(ms))
    decreases |names| - i
  {
    if i < |names| {
      TakeOut(ms, names[i]);
      WithoutKeeps(ms, names[i]);
      PartsWithin(Without(ms, names[i]), names, i + 1);
      SameParts(ms, Without(ms, names[i]), names, i + 1);
    }
  }

  // ----- Keeping some members under other names -----

  /** Another name for the member of an original name. */
  datatype Renaming = Renaming(renamed: Text, original: Text)

  ghost predicate CanKeep(ms: Members, table: seq<Renaming>, keep: seq<bool>, i: nat) {
    |keep| == |table| && forall j :: i <= j < |table| && keep[j] ==> table[j].original in Keys(ms)
  }

  lemma {:induction false} CanKeepAlso(ms: Members, table: seq<Renaming>, keep: seq<bool>, i: nat)
    requires i < |table| && CanKeep(ms, table, keep, i + 1) && (keep[i] ==> table[i].original in Keys(ms))
    ensures CanKeep(ms, table, keep, i)
  {
  }

  /** The members kept from place `i` of the table on. */
  function Kept(ms: Members, table: seq<Renaming>, keep: seq<bool>, i: nat): Members
    requires CanKeep(ms, table, keep, i) && i <= |table|
    decreases |table| - i
  {
    if i == |table| then NoMembers
    else if keep[i] then Member(table[i].renamed, Lookup(ms, table[i].original), Kept(ms, table, keep, i + 1))
    else Kept(ms, table, keep, i + 1)
  }

  ghost predicate GoodTable(table: seq<Renaming>) {
    forall i, j :: 0 <= i < j < |table| ==>
      table[i].renamed != table[j].renamed && table[i].original != table[j].original
  }

  lemma {:induction false} KeptKeys(ms: Members, table: seq<Renaming>, keep: seq<bool>, i: nat)
    requires CanKeep(ms, table, keep, i) && i <= |table|
    ensures forall k :: k in Keys(Kept(ms, table, keep, i)) <==>
        exists j :: i <= j < |table| && keep[j] && table[j].renamed == k
    decreases |table| - i
  {
    if i < |table| {
      KeptKeys(ms, table, keep, i + 1);
    }
  }

  lemma {:induction false} KeptAt(ms: Members, table: seq<Renaming>, keep: seq<bool>, i: nat, j: nat)
    requires CanKeep(ms, table, keep, i) && GoodTable(table) && i <= j < |table|
    ensures table[j].renamed in Keys(Kept(ms, table, keep, i)) <==> keep[j]
    ensures keep[j] ==> Lookup(Kept(ms, table, keep, i), table[j].renamed) == Lookup(ms, table[j].original)
    decreases j - i
  {
    KeptKeys(ms, table, keep, i);
    if i < j {
      KeptAt(ms, table, keep, i + 1, j);
    }
  }

  lemma {:induction false} KeptWellFormed(ms: Members, table: seq<Renaming>, keep: seq<bool>, i: nat)
    requires MembersWellFormed(ms) && CanKeep(ms, table, keep, i) && GoodTable(table) && i <= |table|
    ensures MembersWellFormed(Kept(ms, table, keep, i))
    decreases |table| - i
  {
    if i < |table| {
      KeptWellFormed(ms, table, keep, i + 1);
      if keep[i] {
        KeptKeys(ms, table, keep, i + 1);
        LookupWellFormed(ms, table[i].original);
      }
    }
  }

  lemma {:induction false} KeptAlike(a: Members, b: Members, table: seq<Renaming>, keep: seq<bool>, i: nat)
    requires MembersWellFormed(a) && MembersWellFormed(b) && Alike(JObject(a), JObject(b))
    requires CanKeep(a, table, keep, i) && CanKeep(b, table, keep, i) && i <= |table|
    ensures SortMembers(Kept(a, table, keep, i)) == SortMembers(Kept(b, table, keep, i))
    decreases |table| - i
  {
    if i < |table| {
      KeptAlike(a, b, table, keep, i + 1);
      if keep[i] {
        AlikeMembers(a, b);
      }
    }
  }

  lemma {:induction false} KeptSame(a: Members, b: Members, table: seq<Renaming>, keep: seq<bool>, i: nat)
    requires CanKeep(a, table, keep, i) && CanKeep(b, table, keep, i) && i <= |table|
    requires forall j :: i <= j < |table| && keep[j] ==> Lookup(a, table[j].original) == Lookup(b, table[j].original)
    ensures Kept(a, table, keep, i) == Kept(b, table, keep, i)
    decreases |table| - i
  {
    if i < |table| {
      KeptSame(a, b, table, keep, i + 1);
    }
  }

  /** Under names that are no longer, what is kept counts for no more than the original object. */
  lemma {:induction false} KeptWithin(ms: Members, table: seq<Renaming>, keep: seq<bool>, i: nat)
    requires MembersWellFormed(ms) && CanKeep(ms, table, keep, i) && GoodTable(table) && i <= |table|
    requires forall j :: 0 <= j < |table| ==> StringSize(table[j].renamed) <= StringSize(table[j].original)
    ensures AtMost(MembersTally(Kept(ms, table, keep, i)), MembersTally(ms))
    decreases |table| - i
  {
    if i < |table| {
      if keep[i] {
        var key := table[i].original;
        var others := Without(ms, key);
        TakeOut(ms, key);
        WithoutKeeps(ms, key);
        KeptWithin(others, table, keep, i + 1);
        KeptSame(ms, others, table, keep, i + 1);
      } else {
        KeptWithin(ms, table, keep, i + 1);
      }
    }
  }

  // ----- Maps in objects -----

  /** The members under their names as strings; nothing when a name or a value cannot be read. */
  function ReadMap<T>(ms: Members, read: Json -> Option<T>): Option<map<string, T>> {
    match ms
    case NoMembers => Some(map[])
    case Member(key, value, rest) =>
      var name, one, more := FromText(key), read(value), ReadMap(rest, read);
      if name.None? || one.None? || more.None? then None else Some(more.value[name.value := one.value])
  }

  ghost predicate MapsTo<T>(ms: Members, read: Json -> Option<T>, m: map<string, T>) {
    && (forall s :: s in m <==> ToText(s) in Keys(ms))
    && (forall s :: s in m ==> ToText(s) in Keys(ms) && read(Lookup(ms, ToText(s))) == Some(m[s]))
  }

  ghost predicate Readable<T>(ms: Members, read: Json -> Option<T>) {
    forall k :: k in Keys(ms) ==> FromText(k).Some? && read(Lookup(ms, k)).Some?
  }

  lemma {:induction false} ReadableRest<T>(ms: Members, read: Json -> Option<T>)
    requires ms.Member? && MembersWellFormed(ms)
    ensures Readable(ms, read) <==> FromText(ms.key).Some? && read(ms.value).Some? && Readable(ms.rest, read)
  {
    assert Lookup(ms, ms.key) == ms.value;
    assert forall k :: k in Keys(ms.rest) ==> k in Keys(ms) && Lookup(ms, k) == Lookup(ms.rest, k);
    assert forall k :: k in Keys(ms) ==> k == ms.key || k in Keys(ms.rest);
  }

  lemma {:induction false} MapsOneMore<T>(ms: Members, read: Json -> Option<T>, name: string, one: T, m: map<string, T>)
    requires ms.Member? && MembersWellFormed(ms) && ms.key == ToText(name) && read(ms.value) == Some(one)
        && MapsTo(ms.rest, read, m)
    ensures MapsTo(ms, read, m[name := one])
  {
    forall s | ToText(s) == ms.key ensures s == name {
      ToTextInjective(s, name);
    }
    forall s | s in m[name := one] && s != name ensures ToText(s) in Keys(ms)
      && Lookup(ms, ToText(s)) == Lookup(ms.rest, ToText(s)) {
      assert s in m;
    }
  }

  /** Reading gives what each name maps to, exactly when every name and value can be read. */
  lemma {:induction false} ReadMapMeans<T>(ms: Members, read: Json -> Option<T>)
    requires MembersWellFormed(ms)
    ensures ReadMap(ms, read).Some? <==> Readable(ms, read)
    ensures ReadMap(ms, read).Some? ==> MapsTo(ms, read, ReadMap(ms, read).value)
  {
    if ms.Member? {
      ReadMapMeans(ms.rest, read);
      ReadableRest(ms, read);
      if ReadMap(ms, read).Some? {
        MapsOneMore(ms, read, FromText(ms.key).value, read(ms.value).value, ReadMap(ms.rest, read).value);
      }
    }
  }

  lemma {:induction false} MapsToOne<T>(ms: Members, read: Json -> Option<T>, a: map<string, T>, b: map<string, T>)
    requires MapsTo(ms, read, a) && MapsTo(ms, read, b)
    ensures a == b
  {
    assert forall s :: s in a <==> s in b;
    forall s | s in a ensures a[s] == b[s] {
      assert Some(a[s]) == Some(b[s]);
    }
  }

  ghost predicate OrderBlind<T>(read: Json -> Option<T>) {
    forall v, w :: WellFormed(v) && WellFormed(w) && Alike(v, w) ==> read(v) == read(w)
  }

  lemma {:induction false} ReadMapAlike<T>(a: Members, b: Members, read: Json -> Option<T>)
    requires MembersWellFormed(a) && MembersWellFormed(b) && Alike(JObject(a), JObject(b)) && OrderBlind(read)
    ensures ReadMap(a, read) == ReadMap(b, read)
  {
    AlikeMembers(a, b);
    forall k | k in Keys(a) ensures read(Lookup(a, k)) == read(Lookup(b, k)) {
      LookupWellFormed(a, k);
      LookupWellFormed(b, k);
    }
    ReadMapMeans(a, read);
    ReadMapMeans(b, read);
    if ReadMap(a, read).Some? && ReadMap(b, read).Some? {
      assert MapsTo(a, read, ReadMap(b, read).value);
      MapsToOne(a, read, ReadMap(a, read).value, ReadMap(b, read).value);
    }
  }

  /** The members of a map, in the order of the listed names. */
  function MapMembers<T>(names: seq<string>, m: map<string, T>, show: T -> Json, i: nat): Members
    requires i <= |names| && forall s :: s in names ==> s in m
    decreases |names| - i
  {
    if i == |names| then NoMembers else Member(ToText(names[i]), show(m[names[i]]), MapMembers(names, m, show, i + 1))
  }

  ghost predicate Lists<T>(names: seq<string>, m: map<string, T>) {
    Distinct(names) && forall s :: s in names <==> s in m
  }

  lemma {:induction false} MapMembersKeys<T>(names: seq<string>, m: map<string, T>, show: T -> Json, i: nat)
    requires Lists(names, m) && i <= |names|
    ensures forall k :: k in Keys(MapMembers(names, m, show, i)) <==>
        exists j :: i <= j < |names| && ToText(names[j]) == k
    decreases |names| - i
  {
    if i < |names| {
      MapMembersKeys(names, m, show, i + 1);
    }
  }

  lemma {:induction false} MapMembersAt<T>(names: seq<string>, m: map<string, T>, show: T -> Json, i: nat, j: nat)
    requires Lists(names, m) && i <= j < |names|
    ensures ToText(names[j]) in Keys(MapMembers(names, m, show, i))
    ensures Lookup(MapMembers(names, m, show, i), ToText(names[j])) == show(m[names[j]])
    decreases j - i
  {
    if i < j {
      if ToText(names[i]) == ToText(names[j]) {
        ToTextInjective(names[i], names[j]);
      }
      MapMembersAt(names, m, show, i + 1, j);
    }
  }

  lemma {:induction false} MapMembersWellFormed<T(!new)>(names: seq<string>, m: map<string, T>, show: T -> Json, i: nat)
    requires Lists(names, m) && i <= |names| && forall t :: WellFormed(show(t))
    ensures MembersWellFormed(MapMembers(names, m, show, i))
    decreases |names| - i
  {
    if i < |names| {
      MapMembersKeys(names, m, show, i + 1);
      MapMembersWellFormed(names, m, show, i + 1);
      forall j | i < j < |names| ensures ToText(names[j]) != ToText(names[i]) {
        if ToText(names[j]) == ToText(names[i]) {
          ToTextInjective(names[i], names[j]);
        }
      }
    }
  }

  /** A map laid out as an object is read back. */
  lemma {:induction false} MapReadsBack<T(!new)>(names: seq<string>, m: map<string, T>, show: T -> Json,
                                                 read: Json -> Option<T>)
    requires Lists(names, m) && forall t :: WellFormed(show(t)) && read(show(t)) == Some(t)
    ensures MembersWellFormed(MapMembers(names, m, show, 0))
    ensures ReadMap(MapMembers(names, m, show, 0), read) == Some(m)
  {
    var ms := MapMembers(names, m, show, 0);
    MapMembersWellFormed(names, m, show, 0);
    MapMembersKeys(names, m, show, 0);
    forall k | k in Keys(ms) ensures FromText(k).Some? && read(Lookup(ms, k)).Some? {
      var j :| 0 <= j < |names| && ToText(names[j]) == k;
      FromToText(names[j]);
      MapMembersAt(names, m, show, 0, j);
    }
    forall s ensures s in m <==> ToText(s) in Keys(ms) {
      if ToText(s) in Keys(ms) {
        var j :| 0 <= j < |names| && ToText(names[j]) == ToText(s);
        ToTextInjective(s, names[j]);
      }
      if s in m {
        assert s in names;
      }
    }
    forall s | s in m ensures ToText(s) in Keys(ms) && read(Lookup(ms, ToText(s))) == Some(m[s]) {
      assert s in names;
      var j :| 0 <= j < |names| && names[j] == s;
      MapMembersAt(names, m, show, 0, j);
    }
    ReadMapMeans(ms, read);
    MapsToOne(ms, read, m, ReadMap(ms, read).value);
  }

  /** From place `i` on, the members are these names with values read as these. */
  ghost predicate Tells<T>(ms: Members, names: seq<string>, values: seq<T>, read: Json -> Option<T>, i: nat) {
    && |names| == |values| && MembersWellFormed(ms)
    && (forall k :: k in Keys(ms) <==> exists j :: i <= j < |names| && ToText(names[j]) == k)
    && forall j :: i <= j < |names| ==>
       ToText(names[j]) in Keys(ms) && read(Lookup(ms, ToText(names[j]))) == Some(values[j])
  }

  lemma {:induction false} TellsNew<T>(ms: Members, names: seq<string>, values: seq<T>, read: Json -> Option<T>, i: nat)
    requires i < |names| && Distinct(names) && Tells(ms, names, values, read, i + 1)
    ensures ToText(names[i]) !in Keys(ms)
  {
    if ToText(names[i]) in Keys(ms) {
      var j :| i + 1 <= j < |names| && ToText(names[j]) == ToText(names[i]);
      ToTextInjective(names[i], names[j]);
    }
  }

  lemma {:induction false} TellsOneMore<T>(ms: Members, names: seq<string>, values: seq<T>, read: Json -> Option<T>,
                                           i: nat, v: Json)
    requires i < |names| == |values| && Distinct(names) && Tells(ms, names, values, read, i + 1)
    requires WellFormed(v) && read(v) == Some(values[i])
    ensures Tells(Member(ToText(names[i]), v, ms), names, values, read, i)
  {
    TellsNew(ms, names, values, read, i);
    var all := Member(ToText(names[i]), v, ms);
    forall j | i <= j < |names| ensures ToText(names[j]) in Keys(all)
      && read(Lookup(all, ToText(names[j]))) == Some(values[j]) {
      assert j > i ==> ToText(names[j]) in Keys(ms);
    }
    forall k ensures k in Keys(all) <==> exists j :: i <= j < |names| && ToText(names[j]) == k {
      if k == ToText(names[i]) {
        assert i <= i < |names| && ToText(names[i]) == k;
      }
    }
  }

  /** The map from the names to the values. */
  ghost predicate Maps<T>(names: seq<string>, values: seq<T>, m: map<string, T>) {
    && |names| == |values| && (forall s :: s in m <==> s in names)
    && forall j :: 0 <= j < |names| ==> names[j] in m && m[names[j]] == values[j]
  }

  lemma {:induction false} TellsMap<T>(ms: Members, names: seq<string>, values: seq<T>, read: Json -> Option<T>,
                                       m: map<string, T>)
    requires Tells(ms, names, values, read, 0) && Maps(names, values, m)
    ensures ReadMap(ms, read) == Some(m)
  {
    forall k | k in Keys(ms) ensures FromText(k).Some? && read(Lookup(ms, k)).Some? {
      var j :| 0 <= j < |names| && ToText(names[j]) == k;
      FromToText(names[j]);
    }
    forall s ensures s in m <==> ToText(s) in Keys(ms) {
      if ToText(s) in Keys(ms) {
        var j :| 0 <= j < |names| && ToText(names[j]) == ToText(s);
        ToTextInjective(s, names[j]);
      }
      if s in m {
        var j :| 0 <= j < |names| && names[j] == s;
        assert ToText(names[j]) in Keys(ms);
      }
    }
    forall s | s in m ensures ToText(s) in Keys(ms) && read(Lookup(ms, ToText(s))) == Some(m[s]) {
      var j :| 0 <= j < |names| && names[j] == s;
      assert ToText(names[j]) in Keys(ms);
    }
    ReadMapMeans(ms, read);
    MapsToOne(ms, read, m, ReadMap(ms, read).value);
  }
}
