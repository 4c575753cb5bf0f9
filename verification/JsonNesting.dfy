/** The lexical nesting check on the source of a receipt. */
module JsonNesting {
  import opened Numbers
  import opened JsonText

  const MAX_SOURCE_NESTING := 64

  datatype Lexer = Lexer(depth: nat, inString: bool, escaped: bool) | Refused

  /** What the check knows after one more code unit. */
  function Step(l: Lexer, c: CodeUnit): Lexer {
    match l
    case Refused => Refused
    case Lexer(depth, inString, escaped) =>
      if inString then Lexer(depth, escaped || c != QUOTE, !escaped && c == BACKSLASH)
      else if c == QUOTE then Lexer(depth, true, escaped)
      else if c == OPEN_BRACE || c == OPEN_BRACKET then
        if depth + 1 > MAX_SOURCE_NESTING then Refused else Lexer(depth + 1, false, escaped)
      else if c == CLOSE_BRACE || c == CLOSE_BRACKET then
        if depth == 0 then Refused else Lexer(depth - 1, false, escaped)
      else l
  }

  function Scan(l: Lexer, t: Text): Lexer
    decreases t
  {
    if t == [] then l else Scan(Step(l, t[0]), t[1..])
  }

  const START := Lexer(0, false, false)

  /** Ends outside every string and container without refusing. */
  predicate WellNested(source: Text) {
    var l := Scan(START, source);
    l.Lexer? && !l.inString && l.depth == 0
  }

  method AssertSourceNesting(source: Text) returns (ok: bool)
    ensures ok <==> WellNested(source)
  {
    var depth := 0;
    var inString := false;
    var escaped := false;
    for i := 0 to |source|
      invariant depth >= 0
      invariant Scan(START, source) == Scan(Lexer(depth, inString, escaped), source[i..])
    {
      var c := source[i];
      assert source[i..][1..] == source[i + 1..];
      if inString {
        if escaped {
          escaped := false;
        } else if c == BACKSLASH {
          escaped := true;
        } else if c == QUOTE {
          inString := false;
        }
        continue;
      }
      if c == QUOTE {
        inString := true;
      } else if c == OPEN_BRACE || c == OPEN_BRACKET {
        depth := depth + 1;
        if depth > MAX_SOURCE_NESTING {
          RefusedStays(source[i + 1..]);
          return false;
        }
      } else if c == CLOSE_BRACE || c == CLOSE_BRACKET {
        depth := depth - 1;
        if depth < 0 {
          RefusedStays(source[i + 1..]);
          return false;
        }
      }
    }
    return !inString && depth == 0;
  }

  lemma {:induction false} RefusedStays(t: Text)
    ensures Scan(Refused, t) == Refused
  {
    if t != [] {
      RefusedStays(t[1..]);
    }
  }

  // ----- The depth counter follows the containers of the syntax tree -----

  /** How many lists and objects are open at once at the deepest point of the value. */
  function ContainerDepth(v: Value): nat {
    match v
    case Empty(_, _) => 1
    case Full(_, slots) => 1 + SlotsDepth(slots)
    case _ => 0
  }

  function SlotsDepth(s: Slots): nat {
    match s
    case Last(_, e) => ContainerDepth(e.value)
    case More(_, e, rest) => Max(ContainerDepth(e.value), SlotsDepth(rest))
  }

  function Outside(depth: nat): Lexer {
    Lexer(depth, false, false)
  }

  function Inside(depth: nat): Lexer {
    Lexer(depth, true, false)
  }

  predicate Silent(c: CodeUnit) {
    c != QUOTE && c != OPEN_BRACE && c != OPEN_BRACKET && c != CLOSE_BRACE && c != CLOSE_BRACKET
  }

  lemma {:induction false} SkipSilent(depth: nat, a: Text, rest: Text)
    requires forall i :: 0 <= i < |a| ==> Silent(a[i])
    ensures Scan(Outside(depth), a + rest) == Scan(Outside(depth), rest)
  {
    if a == [] {
      assert a + rest == rest;
    } else {
      SkipSilent(depth, a[1..], rest);
      assert (a + rest)[1..] == a[1..] + rest;
    }
  }

  /** A string leaves the counter alone: its quotes and brackets are escaped or inside. */
  lemma {:induction false} SkipUnits(depth: nat, us: seq<Unit>, rest: Text)
    requires ValidUnits(us)
    ensures Scan(Inside(depth), WriteUnits(us, [QUOTE] + rest)) == Scan(Outside(depth), rest)
  {
    if us == [] {
      assert ([QUOTE] + rest)[1..] == rest;
    } else {
      SkipUnits(depth, us[1..], rest);
      SkipUnit(depth, us[0], WriteUnits(us[1..], [QUOTE] + rest));
    }
  }

  lemma SkipUnit(depth: nat, u: Unit, rest: Text)
    requires ValidUnit(u)
    ensures Scan(Inside(depth), UnitText(u) + rest) == Scan(Inside(depth), rest)
  {
    match u
    case Plain(c) =>
      assert ([c] + rest)[1..] == rest;
    case Short(letter) =>
      EscapePair(depth, letter, rest);
    case Hex(d0, d1, d2, d3) =>
      assert UnitText(u) + rest == [BACKSLASH, LOWER_U] + ([d0, d1, d2, d3] + rest);
      EscapePair(depth, LOWER_U, [d0, d1, d2, d3] + rest);
      SkipInside(depth, [d0, d1, d2, d3], rest);
  }

  lemma EscapePair(depth: nat, letter: CodeUnit, rest: Text)
    ensures Scan(Inside(depth), [BACKSLASH, letter] + rest) == Scan(Inside(depth), rest)
  {
    var t := [BACKSLASH, letter] + rest;
    assert t[1..] == [letter] + rest && t[1..][1..] == rest;
    assert Scan(Inside(depth), t) == Scan(Lexer(depth, true, true), t[1..]);
  }

  lemma {:induction false} SkipInside(depth: nat, a: Text, rest: Text)
    requires forall i :: 0 <= i < |a| ==> a[i] != QUOTE && a[i] != BACKSLASH
    ensures Scan(Inside(depth), a + rest) == Scan(Inside(depth), rest)
  {
    if a == [] {
      assert a + rest == rest;
    } else {
      SkipInside(depth, a[1..], rest);
      assert (a + rest)[1..] == a[1..] + rest;
    }
  }

  lemma SkipString(depth: nat, us: seq<Unit>, rest: Text)
    requires ValidUnits(us)
    ensures Scan(Outside(depth), WriteString(us, rest)) == Scan(Outside(depth), rest)
  {
    SkipUnits(depth, us, rest);
    assert WriteString(us, rest)[1..] == WriteUnits(us, [QUOTE] + rest);
  }

  lemma SkipLabel(depth: nat, l: Label, kind: Kind, rest: Text)
    requires ValidLabel(l, kind)
    ensures Scan(Outside(depth), WriteLabel(l, rest)) == Scan(Outside(depth), rest)
  {
    if l.Label? {
      SkipSilent(depth, l.before, WriteString(l.name, l.after + ([COLON] + rest)));
      SkipString(depth, l.name, l.after + ([COLON] + rest));
      SkipSilent(depth, l.after, [COLON] + rest);
      SkipSilent(depth, [COLON], rest);
    }
  }

  /** What the check knows after a value that started at some depth. */
  function Verdict(depth: nat, below: nat, rest: Text): Lexer {
    if depth + below <= MAX_SOURCE_NESTING then Scan(Outside(depth), rest) else Refused
  }

  lemma ScanCons(l: Lexer, c: CodeUnit, rest: Text)
    ensures Scan(l, [c] + rest) == Scan(Step(l, c), rest)
  {
    assert ([c] + rest)[1..] == rest;
  }

  lemma ScanEmpty(depth: nat, kind: Kind, inside: Text, rest: Text)
    requires AllWs(inside) && depth <= MAX_SOURCE_NESTING
    ensures Scan(Outside(depth), [Open(kind)] + (inside + ([Close(kind)] + rest))) == Verdict(depth, 1, rest)
  {
    ScanCons(Outside(depth), Open(kind), inside + ([Close(kind)] + rest));
    RefusedStays(inside + ([Close(kind)] + rest));
    SkipSilent(depth + 1, inside, [Close(kind)] + rest);
    ScanCons(Outside(depth + 1), Close(kind), rest);
  }

  lemma {:induction false} ScanValue(depth: nat, v: Value, rest: Text)
    requires ValidValue(v) && depth <= MAX_SOURCE_NESTING
    ensures Scan(Outside(depth), WriteValue(v, rest)) == Verdict(depth, ContainerDepth(v), rest)
    decreases v
  {
    match v
    case Literal(w) =>
      SkipSilent(depth, WordText(w), rest);
    case Numeric(t) =>
      NumberShape(t);
      SkipSilent(depth, t, rest);
    case Quoted(us) =>
      SkipString(depth, us, rest);
    case Empty(kind, inside) =>
      ScanEmpty(depth, kind, inside, rest);
    case Full(kind, slots) =>
      ScanCons(Outside(depth), Open(kind), WriteSlots(slots, [Close(kind)] + rest));
      RefusedStays(WriteSlots(slots, [Close(kind)] + rest));
      if depth + 1 <= MAX_SOURCE_NESTING {
        ScanSlots(depth + 1, slots, kind, [Close(kind)] + rest);
        ScanCons(Outside(depth + 1), Close(kind), rest);
      }
  }

  lemma {:induction false} ScanSlots(depth: nat, s: Slots, kind: Kind, rest: Text)
    requires ValidSlots(s, kind) && depth <= MAX_SOURCE_NESTING
    ensures Scan(Outside(depth), WriteSlots(s, rest)) == Verdict(depth, SlotsDepth(s), rest)
    decreases s
  {
    var e := s.element;
    var next := match s case Last(_, _) => rest case More(_, _, more) => [COMMA] + WriteSlots(more, rest);
    SkipLabel(depth, s.head, kind, WriteElement(e, next));
    SkipSilent(depth, e.before, WriteValue(e.value, e.after + next));
    ScanValue(depth, e.value, e.after + next);
    SkipSilent(depth, e.after, next);
    if s.More? {
      ScanCons(Outside(depth), COMMA, WriteSlots(s.rest, rest));
      ScanSlots(depth, s.rest, kind, rest);
    }
  }

  /** On JSON texts the check accepts exactly those whose containers nest no deeper than the bound. */
  lemma NestingIsContainerDepth(e: Element)
    requires ValidElement(e)
    ensures WellNested(DocumentText(e)) <==> ContainerDepth(e.value) <= MAX_SOURCE_NESTING
  {
    SkipSilent(0, e.before, WriteValue(e.value, e.after + []));
    ScanValue(0, e.value, e.after + []);
    SkipSilent(0, e.after, []);
  }
}
