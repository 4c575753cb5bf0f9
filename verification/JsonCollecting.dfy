/** Collecting an object from a list: each value of the list gives a member its key and its value. */
module JsonCollecting {
  import opened Numbers
  import opened Options
  import opened Sequences
  import opened JsonText
  import opened JsonValues
  import opened CanonicalJson
  import opened JsonTally
  import opened JsonObjects
  import opened Utf16

  /** The members collected; nothing when a key is the one taken already, or is repeated. */
  function Collect(items: Items, taken: Text, key: Json -> Option<Text>, make: Json -> Option<Json>): Option<Members> {
    match items
    case NoItems => Some(NoMembers)
    case Item(value, rest) =>
      var name, made, more := key(value), make(value), Collect(rest, taken, key, make);
      if name.None? || made.None? || more.None? || name.value == taken || name.value in Keys(more.value) then None
      else Some(Member(name.value, made.value, more.value))
  }

  ghost predicate MakesWellFormed(make: Json -> Option<Json>) {
    forall v :: WellFormed(v) && make(v).Some? ==> WellFormed(make(v).value)
  }

  lemma {:induction false} CollectWellFormed(items: Items, taken: Text, key: Json -> Option<Text>,
                                             make: Json -> Option<Json>)
    requires ItemsWellFormed(items) && MakesWellFormed(make) && Collect(items, taken, key, make).Some?
    ensures MembersWellFormed(Collect(items, taken, key, make).value)
        && taken !in Keys(Collect(items, taken, key, make).value)
  {
    if items.Item? {
      CollectWellFormed(items.rest, taken, key, make);
    }
  }

  // ----- Collecting what was laid out -----

  /** Each value has the key of its name, and makes what is read as its record. */
  ghost predicate Makes<T>(values: seq<Json>, names: seq<string>, records: seq<T>, key: Json -> Option<Text>,
                           make: Json -> Option<Json>, read: Json -> Option<T>) {
    |values| == |names| == |records|
    && forall i :: 0 <= i < |values| ==>
         && key(values[i]) == Some(ToText(names[i]))
         && make(values[i]).Some? && WellFormed(make(values[i]).value)
         && read(make(values[i]).value) == Some(records[i])
  }

  /** Different names, none of them the one taken. */
  ghost predicate Free(names: seq<string>, taken: Text) {
    Distinct(names) && forall i :: 0 <= i < |names| ==> ToText(names[i]) != taken
  }

  /** What is collected tells the records from `i` on. */
  ghost predicate Told<T>(collected: Option<Members>, names: seq<string>, records: seq<T>, read: Json -> Option<T>,
                          i: nat) {
    collected.Some? && Tells(collected.value, names, records, read, i)
  }

  lemma {:induction false} CollectOne<T>(values: seq<Json>, names: seq<string>, records: seq<T>, taken: Text,
                                         key: Json -> Option<Text>, make: Json -> Option<Json>,
                                           read: Json -> Option<T>, i: nat, rest: Items)
    requires Makes(values, names, records, key, make, read) && Free(names, taken) && i < |values|
    requires Told(Collect(rest, taken, key, make), names, records, read, i + 1)
    ensures Told(Collect(Item(values[i], rest), taken, key, make), names, records, read, i)
  {
    var more, made := Collect(rest, taken, key, make).value, make(values[i]).value;
    TellsNew(more, names, records, read, i);
    assert Collect(Item(values[i], rest), taken, key, make) == Some(Member(ToText(names[i]), made, more));
    TellsOneMore(more, names, records, read, i, made);
  }

  /** What is laid out under different names is collected under these names. */
  lemma {:induction false} CollectTells<T>(values: seq<Json>, names: seq<string>, records: seq<T>, taken: Text,
                                           key: Json -> Option<Text>, make: Json -> Option<Json>,
                                             read: Json -> Option<T>, i: nat)
    requires Makes(values, names, records, key, make, read) && Free(names, taken) && i <= |values|
    ensures Told(Collect(ItemsFrom(values, i), taken, key, make), names, records, read, i)
    decreases |values| - i
  {
    if i < |values| {
      CollectTells(values, names, records, taken, key, make, read, i + 1);
      CollectOne(values, names, records, taken, key, make, read, i, ItemsFrom(values, i + 1));
    }
  }

  // ----- Collecting from lists that differ in the order of members -----

  /** Values alike give the same key, and make values alike. */
  ghost predicate BlindTo(key: Json -> Option<Text>, make: Json -> Option<Json>) {
    forall v, w :: WellFormed(v) && WellFormed(w) && Alike(v, w) ==>
      && key(v) == key(w) && (make(v).Some? <==> make(w).Some?)
      && (make(v).Some? ==> Alike(make(v).value, make(w).value))
  }

  /** Members collected alike, or not at all. */
  ghost predicate CollectedAlike(a: Option<Members>, b: Option<Members>) {
    match (a, b)
    case (Some(x), Some(y)) => Keys(x) == Keys(y) && SortMembers(x) == SortMembers(y)
    case _ => a == b
  }

  lemma {:induction false} CollectAlike(a: Items, b: Items, taken: Text, key: Json -> Option<Text>,
                                        make: Json -> Option<Json>)
    requires ItemsWellFormed(a) && ItemsWellFormed(b) && SortItems(a) == SortItems(b) && BlindTo(key, make)
    ensures CollectedAlike(Collect(a, taken, key, make), Collect(b, taken, key, make))
    decreases a
  {
    if a.Item? {
      CollectAlike(a.rest, b.rest, taken, key, make);
      assert Alike(a.value, b.value);
    }
  }

  // ----- What is collected counts for no more than the list -----

  /** A member counts for no more than the value it is collected from. */
  ghost predicate Shrinks(key: Json -> Option<Text>, make: Json -> Option<Json>) {
    forall v :: WellFormed(v) && key(v).Some? && make(v).Some? ==>
      AtMost(Keyed(key(v).value, TallyOf(make(v).value)), Listed(TallyOf(v)))
  }

  lemma {:induction false} CollectWithin(items: Items, taken: Text, key: Json -> Option<Text>,
                                         make: Json -> Option<Json>)
    requires ItemsWellFormed(items) && Shrinks(key, make) && Collect(items, taken, key, make).Some?
    ensures AtMost(MembersTally(Collect(items, taken, key, make).value), ItemsTally(items))
  {
    if items.Item? {
      CollectWithin(items.rest, taken, key, make);
    }
  }
}
