/** The order of names in canonical text, and that the sorted value is the one arrangement in that order. */
module CanonicalOrder {
  import opened JsonText
  import opened JsonValues
  import opened CanonicalJson

  // ----- The order, said declaratively -----

  /** The name is the decimal text of this array index. */
  predicate NamesIndex(name: Text, n: nat) {
    n < 4_294_967_295 && Digits(n) == name
  }

  ghost predicate AnyIndex(name: Text) {
    exists n :: NamesIndex(name, n)
  }

  ghost predicate SmallerIndex(a: Text, b: Text) {
    exists m, n :: NamesIndex(a, m) && NamesIndex(b, n) && m < n
  }

  /** After a common start of this length, the first name ends or has the smaller code unit. */
  predicate DiffersAt(a: Text, b: Text, n: nat) {
    n <= |a| && n < |b| && a[..n] == b[..n] && (n == |a| || a[n] < b[n])
  }

  ghost predicate Precedes(a: Text, b: Text) {
    exists n: nat :: DiffersAt(a, b, n)
  }

  /** Array indices come first, by number, and then the other names by their code units. */
  ghost predicate Earlier(a: Text, b: Text) {
    if AnyIndex(a) then SmallerIndex(a, b) || !AnyIndex(b) else !AnyIndex(b) && Precedes(a, b)
  }

  /** At every level the names of an object stand in that order. */
  ghost predicate Arranged(v: Json) {
    match v
    case JArray(items) => ItemsArranged(items)
    case JObject(members) => MembersArranged(members)
    case _ => true
  }

  ghost predicate ItemsArranged(items: Items) {
    match items case NoItems => true case Item(value, rest) => Arranged(value) && ItemsArranged(rest)
  }

  ghost predicate MembersArranged(ms: Members) {
    match ms
    case NoMembers => true
    case Member(name, value, rest) =>
      (forall k :: k in Keys(rest) ==> Earlier(name, k)) && Arranged(value) && MembersArranged(rest)
  }

  // ----- The order of the sort is this one -----

  lemma IndexIs(name: Text)
    ensures IsIndex(name) <==> AnyIndex(name)
    ensures IsIndex(name) ==> NamesIndex(name, DigitsValue(name))
  {
    if IsIndex(name) {
      DigitsOfValue(name);
      assert NamesIndex(name, DigitsValue(name));
    }
    if n :| NamesIndex(name, n) {
      ValueOfDigits(n);
    }
  }

  lemma SmallerIs(a: Text, b: Text)
    requires IsIndex(a) && IsIndex(b)
    ensures SmallerIndex(a, b) <==> DigitsValue(a) < DigitsValue(b)
  {
    IndexIs(a);
    IndexIs(b);
    if m, n :| NamesIndex(a, m) && NamesIndex(b, n) && m < n {
      ValueOfDigits(m);
      ValueOfDigits(n);
    }
  }

  lemma {:induction false} LexIs(a: Text, b: Text)
    ensures LexLess(a, b) <==> Precedes(a, b)
    decreases |a|
  {
    if a == [] {
      assert b != [] ==> DiffersAt(a, b, 0);
    } else if b != [] {
      LexIs(a[1..], b[1..]);
      if a[0] < b[0] {
        assert DiffersAt(a, b, 0);
      } else if a[0] == b[0] && LexLess(a[1..], b[1..]) {
        var n: nat :| DiffersAt(a[1..], b[1..], n);
        assert a[..n + 1] == [a[0]] + a[1..][..n] && b[..n + 1] == [b[0]] + b[1..][..n];
        assert DiffersAt(a, b, n + 1);
      }
      if n: nat :| DiffersAt(a, b, n) {
        if n > 0 {
          assert a[..n][0] == b[..n][0];
          assert a[1..][..n - 1] == a[..n][1..] && b[1..][..n - 1] == b[..n][1..];
          assert DiffersAt(a[1..], b[1..], n - 1);
        }
      }
    }
  }

  lemma BeforeIsEarlier(a: Text, b: Text)
    ensures KeyBefore(a, b) <==> Earlier(a, b)
  {
    IndexIs(a);
    IndexIs(b);
    LexIs(a, b);
    if IsIndex(a) && IsIndex(b) {
      SmallerIs(a, b);
    }
  }

  lemma {:induction false} ArrangedIsCanonical(v: Json)
    ensures Arranged(v) <==> Canonical(v)
    decreases v
  {
    match v
    case JArray(items) => ItemsAreCanonical(items);
    case JObject(members) => MembersAreCanonical(members);
    case _ =>
  }

  lemma {:induction false} ItemsAreCanonical(items: Items)
    ensures ItemsArranged(items) <==> CanonicalItems(items)
    decreases items
  {
    if items.Item? {
      ArrangedIsCanonical(items.value);
      ItemsAreCanonical(items.rest);
    }
  }

  lemma {:induction false} MembersAreCanonical(ms: Members)
    ensures MembersArranged(ms) <==> CanonicalMembers(ms)
    decreases ms
  {
    if ms.Member? {
      ArrangedIsCanonical(ms.value);
      MembersAreCanonical(ms.rest);
      forall k ensures KeyBefore(ms.key, k) <==> Earlier(ms.key, k) {
        BeforeIsEarlier(ms.key, k);
      }
    }
  }

  // ----- Main results -----

  /** Of all values equal up to the order of members, the sorted one is the one with its names in order. */
  lemma SortedIsArranged(v: Json, w: Json)
    requires WellFormed(v) && WellFormed(w)
    ensures w == SortValue(v) <==> SameUpToOrder(v, w) && Arranged(w)
  {
    ArrangedIsCanonical(w);
    SortDecides(v, w);
    if w == SortValue(v) {
      CanonicalTextIdempotent(v);
      SortIsCanonical(v);
    } else if SameUpToOrder(v, w) && Arranged(w) {
      SortFixes(w);
    }
  }

  /** A text is canonical for a value exactly when it prints the arrangement of the value with its names in order. */
  lemma CanonicalTextIs(v: Json, t: Text)
    requires WellFormed(v)
    ensures t == CanonicalText(v) <==>
            exists w :: WellFormed(w) && SameUpToOrder(v, w) && Arranged(w) && t == Print(w)
  {
    SortKeepsWellFormed(v);
    SortedIsArranged(v, SortValue(v));
    if w :| WellFormed(w) && SameUpToOrder(v, w) && Arranged(w) && t == Print(w) {
      SortedIsArranged(v, w);
    }
  }
}
