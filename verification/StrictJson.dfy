/** The bounded scan for repeated names that runs before a strict JSON document is parsed. */
module StrictJson {
  import opened Sequences
  import opened Numbers
  import opened Options
  import opened JsonText
  import opened JsonTokens

  // ----- What the scan promises to refuse -----

  /** Levels of values: a scalar or an empty container is one level. */
  function Height(v: Value): (h: nat)
    ensures h > 0
  {
    match v
    case Full(_, slots) => 1 + SlotsHeight(slots)
    case _ => 1
  }

  function SlotsHeight(s: Slots): (h: nat)
    ensures h > 0
  {
    match s
    case Last(_, e) => Height(e.value)
    case More(_, e, rest) => Max(Height(e.value), SlotsHeight(rest))
  }

  function NameCount(v: Value): nat {
    match v
    case Full(_, slots) => SlotsNameCount(slots)
    case _ => 0
  }

  function SlotsNameCount(s: Slots): nat {
    (if s.head.Label? then 1 else 0) + NameCount(s.element.value)
    + match s case Last(_, _) => 0 case More(_, _, rest) => SlotsNameCount(rest)
  }

  /** The names of one object in order, after unescaping. */
  function Names(s: Slots, kind: Kind): seq<Text>
    requires ValidSlots(s, kind)
  {
    (if s.head.Label? then [Meaning(s.head.name)] else [])
    + match s case Last(_, _) => [] case More(_, _, rest) => Names(rest, kind)
  }

  /** No object anywhere inside repeats a name. */
  ghost predicate NoRepeats(v: Value)
    requires ValidValue(v)
  {
    match v
    case Full(kind, slots) => Distinct(Names(slots, kind)) && NoInnerRepeats(slots, kind)
    case _ => true
  }

  ghost predicate NoInnerRepeats(s: Slots, kind: Kind)
    requires ValidSlots(s, kind)
  {
    && NoRepeats(s.element.value)
    && match s case Last(_, _) => true case More(_, _, rest) => NoInnerRepeats(rest, kind)
  }

  /** Fits the bounds when it starts at level `depth` after `keys` names. */
  ghost predicate Fits(v: Value, depth: nat, keys: nat, maxDepth: nat, maxKeys: nat)
    requires ValidValue(v)
  {
    depth + Height(v) <= maxDepth + 1 && keys + NameCount(v) <= maxKeys && NoRepeats(v)
  }

  /** The same for the rest of a container in which the names `seen` have occurred. */
  ghost predicate SlotsFit(s: Slots, kind: Kind, seen: set<Text>, depth: nat, keys: nat, maxDepth: nat, maxKeys: nat)
    requires ValidSlots(s, kind)
  {
    && depth + SlotsHeight(s) <= maxDepth + 1 && keys + SlotsNameCount(s) <= maxKeys
    && Fresh(Names(s, kind), seen) && NoInnerRepeats(s, kind)
  }

  ghost predicate Fresh(names: seq<Text>, seen: set<Text>) {
    Distinct(names) && forall i :: 0 <= i < |names| ==> names[i] !in seen
  }

  lemma FreshStep(name: Text, more: seq<Text>, seen: set<Text>)
    ensures Fresh([name] + more, seen) <==> name !in seen && Fresh(more, seen + {name})
  {
    var names := [name] + more;
    assert forall i :: 0 <= i < |more| ==> more[i] == names[i + 1];
    if Fresh(names, seen) {
      assert names[0] == name;
      forall i, j | 0 <= i < j < |more| ensures more[i] != more[j] {
        assert names[i + 1] != names[j + 1];
      }
    }
  }

  /** What the scan has still to check, once one slot has been read. */
  lemma FitStep(s: Slots, kind: Kind, seen: set<Text>, depth: nat, keys: nat, maxDepth: nat, maxKeys: nat)
    requires ValidSlots(s, kind)
    ensures var seen' := if kind == Record then seen + {Meaning(s.head.name)} else seen;
            var keys' := if kind == Record then keys + 1 else keys;
            SlotsFit(s, kind, seen, depth, keys, maxDepth, maxKeys) <==>
            && (kind == Record ==> Meaning(s.head.name) !in seen)
            && keys' + NameCount(s.element.value) <= maxKeys
            && Fits(s.element.value, depth, keys', maxDepth, maxKeys)
            && (s.More? ==> SlotsFit(s.rest, kind, seen', depth, keys' + NameCount(s.element.value), maxDepth, maxKeys))
  {
    var more := match s case Last(_, _) => [] case More(_, _, rest) => Names(rest, kind);
    if kind == Record {
      FreshStep(Meaning(s.head.name), more, seen);
      assert Names(s, kind) == [Meaning(s.head.name)] + more;
    } else {
      assert Names(s, kind) == more;
    }
  }

  // ----- The same refusals in the order the scan meets them -----

  ghost predicate Passes(v: Value, depth: nat, keys: nat, maxDepth: nat, maxKeys: nat)
    requires ValidValue(v)
  {
    depth <= maxDepth
    && match v
       case Full(kind, slots) => SlotsPass(slots, kind, {}, depth + 1, keys, maxDepth, maxKeys)
       case _ => true
  }

  ghost predicate SlotsPass(s: Slots, kind: Kind, seen: set<Text>, depth: nat, keys: nat, maxDepth: nat, maxKeys: nat)
    requires ValidSlots(s, kind)
  {
    var value := s.element.value;
    if kind == Record then
      var name := Meaning(s.head.name);
      && name !in seen && keys + 1 <= maxKeys && Passes(value, depth, keys + 1, maxDepth, maxKeys)
      && (s.More? ==> SlotsPass(s.rest, kind, seen + {name}, depth, keys + 1 + NameCount(value), maxDepth, maxKeys))
    else
      && Passes(value, depth, keys, maxDepth, maxKeys)
      && (s.More? ==> SlotsPass(s.rest, kind, seen, depth, keys + NameCount(value), maxDepth, maxKeys))
  }

  lemma {:induction false} PassesIffFits(v: Value, depth: nat, keys: nat, maxDepth: nat, maxKeys: nat)
    requires ValidValue(v) && keys <= maxKeys
    ensures Passes(v, depth, keys, maxDepth, maxKeys) <==> Fits(v, depth, keys, maxDepth, maxKeys)
    decreases v
  {
    if v.Full? {
      SlotsPassIffFit(v.slots, v.kind, {}, depth + 1, keys, maxDepth, maxKeys);
    }
  }

  lemma {:induction false} SlotsPassIffFit(s: Slots, kind: Kind, seen: set<Text>, depth: nat, keys: nat, maxDepth: nat,
                                           maxKeys: nat)
    requires ValidSlots(s, kind) && keys <= maxKeys
    ensures SlotsPass(s, kind, seen, depth, keys, maxDepth, maxKeys) <==>
        SlotsFit(s, kind, seen, depth, keys, maxDepth, maxKeys)
    decreases s
  {
    var value := s.element.value;
    var keys' := if kind == Record then keys + 1 else keys;
    FitStep(s, kind, seen, depth, keys, maxDepth, maxKeys);
    if keys' <= maxKeys {
      PassesIffFits(value, depth, keys', maxDepth, maxKeys);
      if s.More? && keys' + NameCount(value) <= maxKeys {
        var seen' := if kind == Record then seen + {Meaning(s.head.name)} else seen;
        SlotsPassIffFit(s.rest, kind, seen', depth, keys' + NameCount(value), maxDepth, maxKeys);
      }
    }
  }

  // ----- Positions in the text -----

  /** White space as the scanner's pattern has it, a superset of the grammar's. */
  predicate IsJsSpace(c: CodeUnit) {
    || 0x09 <= c <= 0x0D || c == SPACE || c == 0xA0 || c == 0x1680 || 0x2000 <= c <= 0x200A
    || c == 0x2028 || c == 0x2029 || c == 0x202F || c == 0x205F || c == 0x3000 || c == 0xFEFF
  }

  predicate Begins(t: Text) {
    t == [] || !IsJsSpace(t[0])
  }

  lemma ValueBegins(v: Value, rest: Text)
    requires ValidValue(v)
    ensures Begins(WriteValue(v, rest)) && WriteValue(v, rest) != []
  {
    ValueStart(v, rest);
  }

  /** The text after one slot: the closing bracket, or a comma and the other slots. */
  function AfterSlot(s: Slots, end: Text): Text {
    match s case Last(_, _) => end case More(_, _, rest) => [COMMA] + WriteSlots(rest, end)
  }

  /** The same slots without their leading white space. */
  function Trimmed(s: Slots): Slots {
    var head := if s.head.Label? then s.head.(before := []) else s.head;
    var element := if s.head.Label? then s.element else s.element.(before := []);
    match s case Last(_, _) => Last(head, element) case More(_, _, rest) => More(head, element, rest)
  }

  function Leading(s: Slots): Text {
    if s.head.Label? then s.head.before else s.element.before
  }

  lemma {:induction false} TrimmedIsSame(s: Slots, kind: Kind, end: Text)
    requires ValidSlots(s, kind)
    ensures ValidSlots(Trimmed(s), kind) && AllWs(Leading(s))
    ensures WriteSlots(s, end) == Leading(s) + WriteSlots(Trimmed(s), end)
    ensures var t := WriteSlots(Trimmed(s), end); Begins(t) && t != [] && t[0] != Close(kind)
    ensures SlotsNameCount(Trimmed(s)) == SlotsNameCount(s)
  {
    var next := AfterSlot(s, end);
    if kind == List {
      ValueBegins(s.element.value, s.element.after + next);
      ValueStart(s.element.value, s.element.after + next);
      assert [] + WriteValue(s.element.value, s.element.after + next) == WriteValue(s.element.value,
          s.element.after + next);
    }
  }

  lemma TrimmedPasses(s: Slots, kind: Kind, seen: set<Text>, depth: nat, keys: nat, maxDepth: nat, maxKeys: nat)
    requires ValidSlots(s, kind) && ValidSlots(Trimmed(s), kind)
    ensures SlotsPass(Trimmed(s), kind, seen, depth, keys, maxDepth, maxKeys) <==>
            SlotsPass(s, kind, seen, depth, keys, maxDepth, maxKeys)
  {
  }

  /**
    * The scanner, its position and its count of names. The ghost arguments of a method say what stands at the
    * position when `known` holds; without them the methods only promise to move forward.
    */
  class Scanner {
    const text: Text
    const maxDepth: nat
    const maxKeys: nat
    var index: nat
    var keys: nat

    constructor (text: Text, maxDepth: nat, maxKeys: nat)
      ensures this.text == text && this.maxDepth == maxDepth && this.maxKeys == maxKeys && index == 0 && keys == 0
    {
      this.text, this.maxDepth, this.maxKeys, index, keys := text, maxDepth, maxKeys, 0, 0;
    }

    predicate At(tail: Text)
      reads `index
    {
      index <= |text| && text[index..] == tail
    }

    ghost predicate Facing(kind: Kind, s: Slots, end: Text)
      reads `index
    {
      ValidSlots(s, kind) && At(WriteSlots(s, end))
    }

    predicate Sees(c: CodeUnit)
      reads `index
    {
      index < |text| && text[index] == c
    }

    method Whitespace(ghost known: bool, ghost before: Text, ghost rest: Text)
      requires index <= |text|
      requires known ==> At(before + rest) && AllWs(before) && Begins(rest)
      modifies `index
      ensures old(index) <= index <= |text|
      ensures known ==> At(rest)
    {
      ghost var gone := 0;
      assert known ==> before[0..] == before;
      while index < |text| && IsJsSpace(text[index])
        invariant old(index) <= index <= |text|
        invariant known ==> gone <= |before| && At(before[gone..] + rest)
      {
        if known {
          assert text[index] == (before[gone..] + rest)[0];
          assert text[index + 1..] == text[index..][1..] == before[gone + 1..] + rest;
        }
        index := index + 1;
        gone := gone + 1;
      }
      assert index < |text| ==> text[index] == text[index..][0];
    }

    method ReadString(ghost known: bool, ghost us: seq<Unit>, ghost rest: Text) returns (value: Option<Text>)
      requires index <= |text|
      requires known ==> ValidUnits(us) && At(WriteString(us, rest))
      modifies `index
      ensures value.Some? ==> old(index) < index <= |text|
      ensures known ==> value == Some(Meaning(us)) && At(rest)
    {
      if !Sees(QUOTE) {
        return None;
      }
      var start := index;
      index := index + 1;
      ghost var end := StringEnd(text, index);
      if known {
        assert text[start + 1..] == text[start..][1..] == WriteUnits(us, [QUOTE] + rest);
        EndOfUnits(text, index, us, rest);
      }
      while index < |text|
        invariant start < index && StringEnd(text, index) == end
      {
        var c := text[index];
        if c == QUOTE {
          index := index + 1;
          if known {
            TokenIs(text, start, index, us, rest);
          }
          return Decode(text[start + 1..index]);
        }
        index := index + if c == BACKSLASH then 2 else 1;
      }
      return None;
    }

    /** Skips an optional expected character and says whether it stood there. */
    method Take(c: CodeUnit) returns (ok: bool)
      requires index <= |text|
      modifies `index
      ensures ok == old(Sees(c))
      ensures ok ==> index == old(index) + 1 <= |text|
    {
      ok := index < |text| && text[index] == c;
      index := if index < |text| then index + 1 else index;
    }

    method ReadValue(depth: nat, ghost known: bool, ghost before: Text, ghost v: Value, ghost rest: Text)
      returns (ok: bool)
      requires index <= |text| && keys <= maxKeys
      requires known ==> AllWs(before) && ValidValue(v) && Stops(rest) && At(before + WriteValue(v, rest))
      modifies this
      ensures ok ==> old(index) < index <= |text| && keys <= maxKeys
      ensures known ==> (ok <==> Passes(v, depth, old(keys), maxDepth, maxKeys))
      ensures known && ok ==> At(rest) && keys == old(keys) + NameCount(v)
      decreases |text| - index, 1
    {
      if depth > maxDepth {
        return false;
      }
      if known {
        ValueBegins(v, rest);
        ValueStart(v, rest);
      }
      Whitespace(known, before, if known then WriteValue(v, rest) else []);
      assert known ==> index < |text| && text[index] == text[index..][0];
      if Sees(OPEN_BRACE) {
        ok := ReadContainer(Record, depth, known, v, rest);
      } else if Sees(OPEN_BRACKET) {
        ok := ReadContainer(List, depth, known, v, rest);
      } else {
        ok := ReadScalar(known, v, rest);
      }
    }

    method ReadScalar(ghost known: bool, ghost v: Value, ghost rest: Text) returns (ok: bool)
      requires index <= |text|
      requires known ==> ValidValue(v) && Stops(rest) && At(WriteValue(v, rest)) && !v.Empty? && !v.Full?
      modifies `index
      ensures ok ==> old(index) < index <= |text|
      ensures known ==> ok && At(rest)
    {
      if known {
        ValueStart(v, rest);
        assert text[index] == text[index..][0];
      }
      if Sees(QUOTE) {
        var value := ReadString(known, if known then v.units else [], rest);
        return value.Some?;
      }
      if known {
        ScalarMatch(v, rest);
      }
      var length := ScalarLength(text[index..]);
      if length.None? {
        return false;
      }
      if known {
        ScalarRest(v, rest);
        assert text[index + length.value..] == text[index..][length.value..];
      }
      index := index + length.value;
      return true;
    }

    method ReadContainer(kind: Kind, depth: nat, ghost known: bool, ghost v: Value, ghost rest: Text) returns (ok: bool)
      requires Sees(Open(kind)) && keys <= maxKeys && depth <= maxDepth
      requires known ==> ValidValue(v) && Stops(rest) && At(WriteValue(v, rest)) && (v.Empty? || v.Full?)
                         && v.kind == kind
      modifies this
      ensures ok ==> old(index) < index <= |text| && keys <= maxKeys
      ensures known ==> (ok <==> Passes(v, depth, old(keys), maxDepth, maxKeys))
      ensures known && ok ==> At(rest) && keys == old(keys) + NameCount(v)
      decreases |text| - index, 0
    {
      ghost var end := [Close(kind)] + rest;
      ghost var lead := if known then Inside(v) else [];
      ghost var next := if known then AfterInside(v, end) else [];
      if known {
        InsideText(v, rest);
        assert text[index + 1..] == text[index..][1..];
      }
      index := index + 1;
      Whitespace(known, lead, next);
      assert known ==> text[index] == text[index..][0];
      if Sees(Close(kind)) {
        assert known ==> v.Empty?;
        assert known ==> text[index + 1..] == text[index..][1..] == rest;
        index := index + 1;
        return true;
      }
      ghost var slots: Slots := if known then Trimmed(v.slots) else Last(Unlabelled, Element([], Literal(Null), []));
      if known {
        TrimmedIsSame(v.slots, kind, end);
        TrimmedPasses(v.slots, kind, {}, depth + 1, keys, maxDepth, maxKeys);
      }
      if kind == Record {
        ok := ReadMembers(depth, known, slots, rest);
      } else {
        ok := ReadItems(depth, known, slots, rest);
      }
    }

    /** The bracket that closes the container, or the comma before its next slot. */
    method ReadSeparator(kind: Kind, ghost known: bool, ghost s: Slots, ghost rest: Text)
      returns (more: bool, closed: bool)
      requires index <= |text|
      requires known ==> ValidSlots(s, kind) && At(AfterSlot(s, [Close(kind)] + rest))
      modifies `index
      ensures more || closed ==> old(index) < index <= |text|
      ensures known ==> more == s.More? && closed == s.Last?
      ensures known ==> if more then Facing(kind, s.rest, [Close(kind)] + rest) else At(rest)
    {
      assert known ==> index < |text| && text[index] == text[index..][0];
      assert known ==> text[index + 1..] == text[index..][1..];
      if Sees(Close(kind)) {
        index := index + 1;
        return false, true;
      }
      more := Take(COMMA);
      closed := false;
    }

    method ReadMembers(depth: nat, ghost known: bool, ghost slots: Slots, ghost rest: Text) returns (ok: bool)
      requires index <= |text| && keys <= maxKeys
      requires known ==> Facing(Record, slots, [CLOSE_BRACE] + rest)
      modifies this
      ensures ok ==> old(index) < index <= |text| && keys <= maxKeys
      ensures known ==> (ok <==> SlotsPass(slots, Record, {}, depth + 1, old(keys), maxDepth, maxKeys))
      ensures known && ok ==> At(rest) && keys == old(keys) + SlotsNameCount(slots)
      decreases |text| - index, 4
    {
      var seen: set<Text> := {};
      ghost var s := slots;
      ghost var end := [CLOSE_BRACE] + rest;
      while true
        invariant old(index) <= index <= |text| && keys <= maxKeys
        invariant known ==> Facing(Record, s, end)
        invariant known ==> keys + SlotsNameCount(s) == old(keys) + SlotsNameCount(slots)
        invariant known ==> (SlotsPass(slots, Record, {}, depth + 1, old(keys), maxDepth, maxKeys) <==>
                             SlotsPass(s, Record, seen, depth + 1, keys, maxDepth, maxKeys))
        decreases |text| - index
      {
        var read, key := ReadMember(depth, seen, known, s, end);
        if !read {
          return false;
        }
        seen := seen + {key};
        var more, closed := ReadSeparator(Record, known, s, rest);
        if !more {
          return closed;
        }
        s := if known then s.rest else s;
      }
    }

    method ReadMember(depth: nat, seen: set<Text>, ghost known: bool, ghost s: Slots, ghost end: Text)
      returns (ok: bool, key: Text)
      requires index <= |text| && keys <= maxKeys
      requires known ==> Facing(Record, s, end) && end != [] && EndsElement(end)
      modifies this
      ensures ok ==> old(index) < index <= |text| && keys <= maxKeys
      ensures known ==> (ok <==> Meaning(s.head.name) !in seen && old(keys) + 1 <= maxKeys
                                 && Passes(s.element.value, depth + 1, old(keys) + 1, maxDepth, maxKeys))
      ensures known && ok ==> At(AfterSlot(s, end)) && key == Meaning(s.head.name)
                              && keys == old(keys) + 1 + NameCount(s.element.value)
      decreases |text| - index, 3
    {
      ghost var next := if known then AfterSlot(s, end) else [];
      ok, key := ReadName(seen, known, s.head, if known then WriteElement(s.element, next) else []);
      if ok {
        ok := ReadElement(depth, known, s.element, next);
      }
    }

    method ReadItem(depth: nat, ghost known: bool, ghost s: Slots, ghost end: Text) returns (ok: bool)
      requires index <= |text| && keys <= maxKeys
      requires known ==> Facing(List, s, end) && end != [] && EndsElement(end)
      modifies this
      ensures ok ==> old(index) < index <= |text| && keys <= maxKeys
      ensures known ==> (ok <==> Passes(s.element.value, depth + 1, old(keys), maxDepth, maxKeys))
      ensures known && ok ==> At(AfterSlot(s, end)) && keys == old(keys) + NameCount(s.element.value)
      decreases |text| - index, 3
    {
      ok := ReadElement(depth, known, s.element, if known then AfterSlot(s, end) else []);
    }

    method ReadName(seen: set<Text>, ghost known: bool, ghost l: Label, ghost rest: Text) returns (ok: bool, key: Text)
      requires index <= |text| && keys <= maxKeys
      requires known ==> ValidLabel(l, Record) && At(WriteLabel(l, rest))
      modifies this
      ensures ok ==> old(index) < index <= |text| && keys == old(keys) + 1 <= maxKeys
      ensures known ==> (ok <==> Meaning(l.name) !in seen && old(keys) + 1 <= maxKeys)
      ensures known && ok ==> At(rest) && key == Meaning(l.name)
    {
      var name := ReadKey(known, l, rest);
      if name.None? {
        return false, [];
      }
      key := name.value;
      if key in seen {
        return false, key;
      }
      keys := keys + 1;
      if keys > maxKeys {
        return false, key;
      }
      ok := ReadColon(known, if known then l.after else [], rest);
    }

    method ReadKey(ghost known: bool, ghost l: Label, ghost rest: Text) returns (name: Option<Text>)
      requires index <= |text|
      requires known ==> ValidLabel(l, Record) && At(WriteLabel(l, rest))
      modifies `index
      ensures name.Some? ==> old(index) < index <= |text|
      ensures known ==> name == Some(Meaning(l.name)) && At(l.after + ([COLON] + rest))
    {
      ghost var tail := if known then l.after + ([COLON] + rest) else [];
      Whitespace(known, if known then l.before else [], if known then WriteString(l.name, tail) else []);
      name := ReadString(known, if known then l.name else [], tail);
    }

    method ReadColon(ghost known: bool, ghost before: Text, ghost rest: Text) returns (ok: bool)
      requires index <= |text|
      requires known ==> AllWs(before) && At(before + ([COLON] + rest))
      modifies `index
      ensures ok ==> old(index) < index <= |text|
      ensures known ==> ok && At(rest)
    {
      Whitespace(known, before, [COLON] + rest);
      assert known ==> text[index] == text[index..][0];
      assert known ==> text[index + 1..] == text[index..][1..] == rest;
      ok := Take(COLON);
    }

    /** A value with the white space around it. */
    method ReadElement(depth: nat, ghost known: bool, ghost e: Element, ghost next: Text) returns (ok: bool)
      requires index <= |text| && keys <= maxKeys
      requires known ==> AllWs(e.before) && ValidValue(e.value) && AllWs(e.after) && EndsElement(next) && next != []
      requires known ==> At(WriteElement(e, next))
      modifies this
      ensures ok ==> old(index) < index <= |text| && keys <= maxKeys
      ensures known ==> (ok <==> Passes(e.value, depth + 1, old(keys), maxDepth, maxKeys))
      ensures known && ok ==> At(next) && keys == old(keys) + NameCount(e.value)
      decreases |text| - index, 2
    {
      ok := ReadValue(depth + 1, known, e.before, e.value, e.after + next);
      if ok {
        Whitespace(known, e.after, next);
      }
    }

    method ReadItems(depth: nat, ghost known: bool, ghost slots: Slots, ghost rest: Text) returns (ok: bool)
      requires index <= |text| && keys <= maxKeys
      requires known ==> Facing(List, slots, [CLOSE_BRACKET] + rest)
      modifies this
      ensures ok ==> old(index) < index <= |text| && keys <= maxKeys
      ensures known ==> (ok <==> SlotsPass(slots, List, {}, depth + 1, old(keys), maxDepth, maxKeys))
      ensures known && ok ==> At(rest) && keys == old(keys) + SlotsNameCount(slots)
      decreases |text| - index, 4
    {
      ghost var s := slots;
      ghost var end := [CLOSE_BRACKET] + rest;
      while true
        invariant old(index) <= index <= |text| && keys <= maxKeys
        invariant known ==> Facing(List, s, end)
        invariant known ==> keys + SlotsNameCount(s) == old(keys) + SlotsNameCount(slots)
        invariant known ==> (SlotsPass(slots, List, {}, depth + 1, old(keys), maxDepth, maxKeys) <==>
                             SlotsPass(s, List, {}, depth + 1, keys, maxDepth, maxKeys))
        decreases |text| - index
      {
        var read := ReadItem(depth, known, s, end);
        if !read {
          return false;
        }
        var more, closed := ReadSeparator(List, known, s, rest);
        if !more {
          return closed;
        }
        s := if known then s.rest else s;
      }
    }

    method ReadDocument(ghost known: bool, ghost e: Element) returns (ok: bool)
      requires index == 0 && keys == 0
      requires known ==> ValidElement(e) && text == DocumentText(e)
      modifies this
      ensures known ==> (ok <==> Passes(e.value, 1, 0, maxDepth, maxKeys))
    {
      assert text[0..] == text;
      assert e.after + [] == e.after;
      ok := ReadValue(1, known, e.before, e.value, e.after);
      if ok {
        Whitespace(known, e.after, []);
        assert known ==> |text[index..]| == 0;
        ok := index == |text|;
      }
    }
  }

  function Inside(v: Value): Text
    requires v.Empty? || v.Full?
  {
    match v case Empty(_, inside) => inside case Full(_, slots) => Leading(slots)
  }

  function AfterInside(v: Value, end: Text): Text
    requires v.Empty? || v.Full?
  {
    match v case Empty(_, _) => end case Full(_, slots) => WriteSlots(Trimmed(slots), end)
  }

  lemma InsideText(v: Value, rest: Text)
    requires ValidValue(v) && (v.Empty? || v.Full?)
    ensures var next := AfterInside(v, [Close(v.kind)] + rest);
            && WriteValue(v, rest)[1..] == Inside(v) + next && AllWs(Inside(v)) && Begins(next) && next != []
            && (next[0] == Close(v.kind) <==> v.Empty?)
  {
    if v.Full? {
      TrimmedIsSame(v.slots, v.kind, [Close(v.kind)] + rest);
    }
  }

  lemma ScalarRest(v: Value, rest: Text)
    requires v.Literal? || v.Numeric?
    ensures |WriteValue(v, rest)| >= |rest| && WriteValue(v, rest)[|WriteValue(v, rest)| - |rest|..] == rest
  {
  }

  lemma TokenIs(text: Text, start: nat, end: nat, us: seq<Unit>, rest: Text)
    requires start + 1 <= end <= |text| && end == |text| - |rest| && ValidUnits(us)
    requires text[start..] == WriteString(us, rest)
    ensures Decode(text[start + 1..end]) == Some(Meaning(us)) && text[end..] == rest
  {
    WriteUnitsRest(us, [QUOTE], rest);
    assert text[start + 1..] == text[start..][1..] == WriteUnits(us, [QUOTE]) + rest;
    SplitUnique(text[start + 1..end], text[end..], WriteUnits(us, [QUOTE]), rest);
    DecodeWritten(us);
  }

  // ----- Strict documents -----

  const MAX_DEPTH := 64
  const MAX_KEYS := 100_000

  /** The text is a JSON text within the bounds in which no object at any level repeats a name. */
  ghost predicate StrictDocument(e: Element, text: Text) {
    && ValidElement(e) && DocumentText(e) == text
    && Height(e.value) <= MAX_DEPTH && NameCount(e.value) <= MAX_KEYS && NoRepeats(e.value)
  }

  /** The answer a JSON parser gives for a text: its syntax tree, or nothing when it has none. */
  ghost predicate ParserAnswer(text: Text, parsed: Option<Element>) {
    match parsed
    case Some(e) => ValidElement(e) && DocumentText(e) == text
    case None => forall e :: ValidElement(e) ==> DocumentText(e) != text
  }

  /** Scan, then parse; `parsed` is what the platform's parser answers for the text. */
  method ParseStrictJsonDocument(text: Text, parsed: Option<Element>) returns (document: Option<Element>)
    requires ParserAnswer(text, parsed)
    ensures document.Some? <==> exists e :: StrictDocument(e, text)
    ensures document.Some? ==> StrictDocument(document.value, text)
  {
    var scanner := new Scanner(text, MAX_DEPTH, MAX_KEYS);
    ghost var tree := match parsed case Some(e) => e case None => Element([], Literal(Null), []);
    var clean := scanner.ReadDocument(parsed.Some?, tree);
    if parsed.Some? {
      PassesIffFits(tree.value, 1, 0, MAX_DEPTH, MAX_KEYS);
      forall e | StrictDocument(e, text) ensures e == tree {
        DocumentUnique(e, tree);
      }
      assert clean <==> StrictDocument(tree, text);
    }
    return if clean then parsed else None;
  }
}
