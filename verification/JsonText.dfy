/** The grammar of JSON texts (RFC 8259, sections 2 to 7) over UTF-16 code units, and its unambiguity. */
module JsonText {

  type CodeUnit = c: int | 0 <= c < 0x1_0000
  type Text = seq<CodeUnit>

  const TAB: CodeUnit := 0x09
  const NEWLINE: CodeUnit := 0x0A
  const RETURN: CodeUnit := 0x0D
  const SPACE: CodeUnit := 0x20
  const QUOTE: CodeUnit := 0x22
  const PLUS: CodeUnit := 0x2B
  const COMMA: CodeUnit := 0x2C
  const MINUS: CodeUnit := 0x2D
  const DOT: CodeUnit := 0x2E
  const SLASH: CodeUnit := 0x2F
  const ZERO: CodeUnit := 0x30
  const COLON: CodeUnit := 0x3A
  const UPPER_E: CodeUnit := 0x45
  const OPEN_BRACKET: CodeUnit := 0x5B
  const BACKSLASH: CodeUnit := 0x5C
  const CLOSE_BRACKET: CodeUnit := 0x5D
  const LOWER_E: CodeUnit := 0x65
  const LOWER_U: CodeUnit := 0x75
  const OPEN_BRACE: CodeUnit := 0x7B
  const CLOSE_BRACE: CodeUnit := 0x7D

  predicate IsWs(c: CodeUnit) {
    c == SPACE || c == TAB || c == NEWLINE || c == RETURN
  }

  predicate IsDigit(c: CodeUnit) {
    ZERO <= c <= ZERO + 9
  }

  predicate IsHex(c: CodeUnit) {
    IsDigit(c) || 0x41 <= c <= 0x46 || 0x61 <= c <= 0x66
  }

  /** The code units a number can be made of. */
  predicate InNumber(c: CodeUnit) {
    IsDigit(c) || c == MINUS || c == PLUS || c == DOT || c == UPPER_E || c == LOWER_E
  }

  predicate AllWs(t: Text) {
    forall i :: 0 <= i < |t| ==> IsWs(t[i])
  }

  predicate AllDigits(t: Text) {
    forall i :: 0 <= i < |t| ==> IsDigit(t[i])
  }

  // ----- Tokens -----

  /** One character of a string: itself, a two-character escape, or four hexadecimal digits. */
  datatype Unit = Plain(c: CodeUnit) | Short(letter: CodeUnit)
      | Hex(d0: CodeUnit, d1: CodeUnit, d2: CodeUnit, d3: CodeUnit)

  /** The letters `"`, `\`, `/`, `b`, `f`, `n`, `r` and `t`. */
  predicate IsShort(letter: CodeUnit) {
    letter in {QUOTE, BACKSLASH, SLASH, 0x62, 0x66, 0x6E, 0x72, 0x74}
  }

  predicate ValidUnit(u: Unit) {
    match u
    case Plain(c) => c >= SPACE && c != QUOTE && c != BACKSLASH
    case Short(letter) => IsShort(letter)
    case Hex(d0, d1, d2, d3) => IsHex(d0) && IsHex(d1) && IsHex(d2) && IsHex(d3)
  }

  predicate ValidUnits(us: seq<Unit>) {
    forall i :: 0 <= i < |us| ==> ValidUnit(us[i])
  }

  function UnitText(u: Unit): Text {
    match u
    case Plain(c) => [c]
    case Short(letter) => [BACKSLASH, letter]
    case Hex(d0, d1, d2, d3) => [BACKSLASH, LOWER_U, d0, d1, d2, d3]
  }

  datatype Exponent = NoExponent | Exponent(marker: CodeUnit, sign: Text, digits: Text)

  datatype Number = Number(negative: bool, whole: Text, fraction: Text, exponent: Exponent)

  predicate ValidWhole(t: Text) {
    |t| > 0 && AllDigits(t) && (|t| > 1 ==> t[0] != ZERO)
  }

  predicate ValidExponent(e: Exponent) {
    match e
    case NoExponent => true
    case Exponent(marker, sign, digits) =>
      (marker == UPPER_E || marker == LOWER_E) && (sign == [] || sign == [PLUS] || sign == [MINUS])
      && |digits| > 0 && AllDigits(digits)
  }

  predicate ValidNumber(n: Number) {
    ValidWhole(n.whole) && AllDigits(n.fraction) && ValidExponent(n.exponent)
  }

  function SignText(negative: bool): Text {
    if negative then [MINUS] else []
  }

  function ExponentText(e: Exponent): Text {
    match e
    case NoExponent => []
    case Exponent(marker, sign, digits) => [marker] + sign + digits
  }

  function FractionText(digits: Text): Text {
    if digits == [] then [] else [DOT] + digits
  }

  function NumberText(n: Number): Text {
    SignText(n.negative) + n.whole + FractionText(n.fraction) + ExponentText(n.exponent)
  }

  datatype Word = True | False | Null

  function WordText(w: Word): Text {
    match w
    case True => [0x74, 0x72, 0x75, 0x65]
    case False => [0x66, 0x61, 0x6C, 0x73, 0x65]
    case Null => [0x6E, 0x75, 0x6C, 0x6C]
  }

  // ----- Syntax trees -----

  datatype Kind = List | Record

  /** The text before a member's value: white space, the quoted name, white space and a colon. */
  datatype Label = Unlabelled | Label(before: Text, name: seq<Unit>, after: Text)

  datatype Value =
    | Literal(word: Word)
    | Numeric(number: Text)
    | Quoted(units: seq<Unit>)
    | Empty(kind: Kind, inside: Text)
    | Full(kind: Kind, slots: Slots)

  datatype Element = Element(before: Text, value: Value, after: Text)

  datatype Slots = Last(head: Label, element: Element) | More(head: Label, element: Element, rest: Slots)

  ghost predicate IsNumber(t: Text) {
    exists n :: ValidNumber(n) && NumberText(n) == t
  }

  predicate ValidLabel(l: Label, kind: Kind) {
    match l
    case Unlabelled => kind == List
    case Label(before, name, after) => kind == Record && AllWs(before) && ValidUnits(name) && AllWs(after)
  }

  ghost predicate ValidValue(v: Value) {
    match v
    case Literal(_) => true
    case Numeric(t) => IsNumber(t)
    case Quoted(us) => ValidUnits(us)
    case Empty(_, inside) => AllWs(inside)
    case Full(kind, slots) => ValidSlots(slots, kind)
  }

  ghost predicate ValidSlots(s: Slots, kind: Kind) {
    && ValidLabel(s.head, kind)
    && AllWs(s.element.before) && ValidValue(s.element.value) && AllWs(s.element.after)
    && match s case Last(_, _) => true case More(_, _, rest) => ValidSlots(rest, kind)
  }

  ghost predicate ValidElement(e: Element) {
    AllWs(e.before) && ValidValue(e.value) && AllWs(e.after)
  }

  // ----- The text of a tree, followed by more text -----

  function Open(kind: Kind): CodeUnit {
    match kind case List => OPEN_BRACKET case Record => OPEN_BRACE
  }

  function Close(kind: Kind): CodeUnit {
    match kind case List => CLOSE_BRACKET case Record => CLOSE_BRACE
  }

  function WriteUnits(us: seq<Unit>, rest: Text): Text {
    if us == [] then rest else UnitText(us[0]) + WriteUnits(us[1..], rest)
  }

  function WriteString(us: seq<Unit>, rest: Text): Text {
    [QUOTE] + WriteUnits(us, [QUOTE] + rest)
  }

  function WriteLabel(l: Label, rest: Text): Text {
    match l
    case Unlabelled => rest
    case Label(before, name, after) => before + WriteString(name, after + ([COLON] + rest))
  }

  function WriteValue(v: Value, rest: Text): Text {
    match v
    case Literal(w) => WordText(w) + rest
    case Numeric(t) => t + rest
    case Quoted(us) => WriteString(us, rest)
    case Empty(kind, inside) => [Open(kind)] + (inside + ([Close(kind)] + rest))
    case Full(kind, slots) => [Open(kind)] + WriteSlots(slots, [Close(kind)] + rest)
  }

  function WriteElement(e: Element, rest: Text): Text {
    e.before + WriteValue(e.value, e.after + rest)
  }

  function WriteSlots(s: Slots, rest: Text): Text {
    WriteLabel(s.head, WriteElement(s.element, match s case Last(_, _) => rest
      case More(_, _, more) => [COMMA] + WriteSlots(more, rest)))
  }

  /** The text of a whole document. */
  function DocumentText(e: Element): Text {
    WriteElement(e, [])
  }

  // ----- Unambiguity -----

  /** What can follow a value: nothing, white space, a comma or a closing bracket. */
  predicate Stops(t: Text) {
    t == [] || IsWs(t[0]) || t[0] == COMMA || t[0] == CLOSE_BRACKET || t[0] == CLOSE_BRACE
  }

  predicate StartsOutside(p: CodeUnit -> bool, t: Text) {
    t == [] || !p(t[0])
  }

  /** A run of one class of code units ends where the class ends. */
  lemma RunUnique(p: CodeUnit -> bool, a: Text, r: Text, b: Text, t: Text)
    requires a + r == b + t && StartsOutside(p, r) && StartsOutside(p, t)
    requires forall i :: 0 <= i < |a| ==> p(a[i])
    requires forall i :: 0 <= i < |b| ==> p(b[i])
    ensures a == b && r == t
  {
    if |a| < |b| {
      RunContinues(b, t, a, r);
    } else if |b| < |a| {
      RunContinues(a, r, b, t);
    } else {
      SplitUnique(a, r, b, t);
    }
  }

  lemma RunContinues(a: Text, r: Text, b: Text, t: Text)
    requires a + r == b + t && |b| < |a|
    ensures t != [] && t[0] == a[|b|]
  {
    assert (a + r)[|b|] == a[|b|] && (b + t)[|b|] == t[0];
  }

  lemma SplitUnique(a: Text, r: Text, b: Text, t: Text)
    requires a + r == b + t && |a| == |b|
    ensures a == b && r == t
  {
    assert a == (a + r)[..|a|] && b == (b + t)[..|a|];
    assert r == (a + r)[|a|..] && t == (b + t)[|a|..];
  }

  lemma UnitUnique(u: Unit, r: Text, w: Unit, t: Text)
    requires ValidUnit(u) && ValidUnit(w) && UnitText(u) + r == UnitText(w) + t
    ensures u == w && r == t
  {
    assert (UnitText(u) + r)[0] == UnitText(u)[0] && (UnitText(w) + t)[0] == UnitText(w)[0];
    if !u.Plain? && !w.Plain? {
      assert (UnitText(u) + r)[1] == UnitText(u)[1] && (UnitText(w) + t)[1] == UnitText(w)[1];
    }
    SplitUnique(UnitText(u), r, UnitText(w), t);
    assert u.Hex? ==> UnitText(u)[2] == u.d0 && UnitText(u)[3] == u.d1 && UnitText(u)[4] == u.d2
                      && UnitText(u)[5] == u.d3;
  }

  lemma UnitsStart(us: seq<Unit>, rest: Text)
    requires ValidUnits(us)
    ensures us != [] ==> WriteUnits(us, rest) != [] && WriteUnits(us, rest)[0] != QUOTE
  {
  }

  lemma {:induction false} UnitsUnique(us: seq<Unit>, r: Text, ws: seq<Unit>, t: Text)
    requires ValidUnits(us) && ValidUnits(ws)
    requires WriteUnits(us, [QUOTE] + r) == WriteUnits(ws, [QUOTE] + t)
    ensures us == ws && r == t
  {
    UnitsStart(us, [QUOTE] + r);
    UnitsStart(ws, [QUOTE] + t);
    if us != [] && ws != [] {
      UnitUnique(us[0], WriteUnits(us[1..], [QUOTE] + r), ws[0], WriteUnits(ws[1..], [QUOTE] + t));
      UnitsUnique(us[1..], r, ws[1..], t);
      assert us == [us[0]] + us[1..] && ws == [ws[0]] + ws[1..];
    } else {
      SplitUnique([QUOTE], r, [QUOTE], t);
    }
  }

  lemma StringUnique(us: seq<Unit>, r: Text, ws: seq<Unit>, t: Text)
    requires ValidUnits(us) && ValidUnits(ws) && WriteString(us, r) == WriteString(ws, t)
    ensures us == ws && r == t
  {
    SplitUnique([QUOTE], WriteUnits(us, [QUOTE] + r), [QUOTE], WriteUnits(ws, [QUOTE] + t));
    UnitsUnique(us, r, ws, t);
  }

  predicate AllInNumber(t: Text) {
    forall i :: 0 <= i < |t| ==> InNumber(t[i])
  }

  lemma InNumberConcat(a: Text, b: Text)
    requires AllInNumber(a) && AllInNumber(b)
    ensures AllInNumber(a + b)
  {
  }

  /** A number is a nonempty run of its own code units and starts with a digit or a minus sign. */
  lemma NumberShape(t: Text)
    requires IsNumber(t)
    ensures t != [] && (IsDigit(t[0]) || t[0] == MINUS)
    ensures AllInNumber(t)
  {
    var n :| ValidNumber(n) && NumberText(n) == t;
    var sign := SignText(n.negative);
    var e := n.exponent;
    InNumberConcat(sign, n.whole);
    InNumberConcat(sign + n.whole, FractionText(n.fraction));
    if e.Exponent? {
      InNumberConcat([e.marker] + e.sign, e.digits);
    }
    InNumberConcat(sign + n.whole + FractionText(n.fraction), ExponentText(e));
    assert t[0] == (sign + n.whole)[0];
  }

  /** The first code unit of a value tells its form. */
  lemma ValueStart(v: Value, rest: Text)
    requires ValidValue(v)
    ensures WriteValue(v, rest) != []
    ensures var c := WriteValue(v, rest)[0];
            match v
            case Literal(w) => c == WordText(w)[0]
            case Numeric(_) => IsDigit(c) || c == MINUS
            case Quoted(_) => c == QUOTE
            case Empty(kind, _) => c == Open(kind)
            case Full(kind, _) => c == Open(kind)
  {
    if v.Numeric? {
      NumberShape(v.number);
    }
  }

  /** What a list or record holds starts, after white space, with something other than its closing bracket. */
  lemma SlotsStart(kind: Kind, s: Slots, rest: Text) returns (before: Text, t: Text)
    requires ValidSlots(s, kind)
    ensures WriteSlots(s, rest) == before + t && AllWs(before)
    ensures t != [] && !IsWs(t[0]) && t[0] != Close(kind)
  {
    var next := match s case Last(_, _) => rest case More(_, _, more) => [COMMA] + WriteSlots(more, rest);
    match s.head
    case Unlabelled =>
      before, t := s.element.before, WriteValue(s.element.value, s.element.after + next);
      ValueStart(s.element.value, s.element.after + next);
    case Label(b, name, after) =>
      before, t := b, WriteString(name, after + ([COLON] + WriteElement(s.element, next)));
  }

  predicate EndsElement(t: Text) {
    t == [] || t[0] == COMMA || t[0] == CLOSE_BRACKET || t[0] == CLOSE_BRACE
  }

  lemma {:induction false} ValueUnique(v: Value, r: Text, w: Value, t: Text)
    requires ValidValue(v) && ValidValue(w) && Stops(r) && Stops(t)
    requires WriteValue(v, r) == WriteValue(w, t)
    ensures v == w && r == t
    decreases v
  {
    ValueStart(v, r);
    ValueStart(w, t);
    match v
    case Literal(word) =>
      SplitUnique(WordText(word), r, WordText(w.word), t);
    case Numeric(number) =>
      NumberShape(number);
      NumberShape(w.number);
      RunUnique(InNumber, number, r, w.number, t);
    case Quoted(units) =>
      StringUnique(units, r, w.units, t);
    case Empty(kind, inside) =>
      InsideUnique(v, r, w, t);
    case Full(kind, slots) =>
      if w.Empty? {
        InsideUnique(w, t, v, r);
      } else {
        SplitUnique([Open(kind)], WriteSlots(slots, [Close(kind)] + r), [Open(kind)],
                    WriteSlots(w.slots, [Close(kind)] + t));
        SlotsUnique(kind, slots, r, w.slots, t);
      }
  }

  /** An empty list or record reads as nothing else. */
  lemma InsideUnique(v: Value, r: Text, w: Value, t: Text)
    requires v.Empty? && (w.Empty? || w.Full?) && w.kind == v.kind && ValidValue(v) && ValidValue(w)
    requires WriteValue(v, r) == WriteValue(w, t)
    ensures v == w && r == t
  {
    var close := [Close(v.kind)];
    if w.Empty? {
      SplitUnique([Open(v.kind)], v.inside + (close + r), [Open(v.kind)], w.inside + (close + t));
      RunUnique(IsWs, v.inside, close + r, w.inside, close + t);
      SplitUnique(close, r, close, t);
    } else {
      var before, next := SlotsStart(v.kind, w.slots, close + t);
      SplitUnique([Open(v.kind)], v.inside + (close + r), [Open(v.kind)], before + next);
      RunUnique(IsWs, v.inside, close + r, before, next);
    }
  }

  lemma {:induction false} ElementUnique(e: Element, r: Text, f: Element, t: Text)
    requires ValidElement(e) && ValidElement(f) && EndsElement(r) && EndsElement(t)
    requires WriteElement(e, r) == WriteElement(f, t)
    ensures e == f && r == t
    decreases e
  {
    ValueStart(e.value, e.after + r);
    ValueStart(f.value, f.after + t);
    RunUnique(IsWs, e.before, WriteValue(e.value, e.after + r), f.before, WriteValue(f.value, f.after + t));
    ValueUnique(e.value, e.after + r, f.value, f.after + t);
    RunUnique(IsWs, e.after, r, f.after, t);
  }

  lemma LabelUnique(kind: Kind, l: Label, r: Text, m: Label, t: Text)
    requires ValidLabel(l, kind) && ValidLabel(m, kind) && WriteLabel(l, r) == WriteLabel(m, t)
    ensures l == m && r == t
  {
    if kind == Record {
      var restL, restM := l.after + ([COLON] + r), m.after + ([COLON] + t);
      RunUnique(IsWs, l.before, WriteString(l.name, restL), m.before, WriteString(m.name, restM));
      StringUnique(l.name, restL, m.name, restM);
      RunUnique(IsWs, l.after, [COLON] + r, m.after, [COLON] + t);
      SplitUnique([COLON], r, [COLON], t);
    }
  }

  lemma {:induction false} SlotsUnique(kind: Kind, s: Slots, r: Text, u: Slots, t: Text)
    requires ValidSlots(s, kind) && ValidSlots(u, kind)
    requires WriteSlots(s, [Close(kind)] + r) == WriteSlots(u, [Close(kind)] + t)
    ensures s == u && r == t
    decreases s
  {
    var close := [Close(kind)];
    var afterS := match s case Last(_, _) => close + r case More(_, _, more) => [COMMA] + WriteSlots(more, close + r);
    var afterU := match u case Last(_, _) => close + t case More(_, _, more) => [COMMA] + WriteSlots(more, close + t);
    LabelUnique(kind, s.head, WriteElement(s.element, afterS), u.head, WriteElement(u.element, afterU));
    ElementUnique(s.element, afterS, u.element, afterU);
    if s.More? {
      SplitUnique([COMMA], WriteSlots(s.rest, close + r), [COMMA], WriteSlots(u.rest, close + t));
      SlotsUnique(kind, s.rest, r, u.rest, t);
    } else {
      SplitUnique(close, r, close, t);
    }
  }

  /** A text is the text of at most one syntax tree. */
  lemma DocumentUnique(e: Element, f: Element)
    requires ValidElement(e) && ValidElement(f) && DocumentText(e) == DocumentText(f)
    ensures e == f
  {
    ElementUnique(e, [], f, []);
  }
}
