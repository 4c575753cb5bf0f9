/** Tokens of a JSON text as the strict scanner finds them: where each one ends and what strings mean. */
module JsonTokens {
  import opened Options
  import opened JsonText

  // ----- What strings mean -----

  function HexDigit(c: CodeUnit): (d: nat)
    requires IsHex(c)
    ensures d < 16
  {
    if IsDigit(c) then c - ZERO else if c <= 0x46 then c - 0x41 + 10 else c - 0x61 + 10
  }

  function ShortMeaning(letter: CodeUnit): CodeUnit {
    match letter
    case 0x62 => 0x08
    case 0x66 => 0x0C
    case 0x6E => 0x0A
    case 0x72 => 0x0D
    case 0x74 => 0x09
    case _ => letter
  }

  function UnitMeaning(u: Unit): CodeUnit
    requires ValidUnit(u)
  {
    match u
    case Plain(c) => c
    case Short(letter) => ShortMeaning(letter)
    case Hex(d0, d1, d2, d3) => 4096 * HexDigit(d0) + 256 * HexDigit(d1) + 16 * HexDigit(d2) + HexDigit(d3)
  }

  /** The string after unescaping. */
  function Meaning(us: seq<Unit>): Text
    requires ValidUnits(us)
  {
    if us == [] then [] else [UnitMeaning(us[0])] + Meaning(us[1..])
  }

  function Cons(c: CodeUnit, t: Option<Text>): Option<Text> {
    match t case None => None case Some(more) => Some([c] + more)
  }

  /** Unescapes string content that ends with its closing quote; nothing when it is no string token. */
  function Decode(t: Text): Option<Text> {
    if t == [] then None
    else if t[0] == QUOTE then if |t| == 1 then Some([]) else None
    else if t[0] < SPACE then None
    else if t[0] != BACKSLASH then Cons(t[0], Decode(t[1..]))
    else if |t| >= 2 && IsShort(t[1]) then Cons(ShortMeaning(t[1]), Decode(t[2..]))
    else if |t| >= 6 && t[1] == LOWER_U && IsHex(t[2]) && IsHex(t[3]) && IsHex(t[4]) && IsHex(t[5]) then
      Cons(UnitMeaning(Hex(t[2], t[3], t[4], t[5])), Decode(t[6..]))
    else None
  }

  lemma {:induction false} DecodeWritten(us: seq<Unit>)
    requires ValidUnits(us)
    ensures Decode(WriteUnits(us, [QUOTE])) == Some(Meaning(us))
  {
    if us != [] {
      DecodeWritten(us[1..]);
      var t := WriteUnits(us, [QUOTE]);
      assert t[|UnitText(us[0])|..] == WriteUnits(us[1..], [QUOTE]);
    }
  }

  /** Whatever decodes is a string token, and decodes to what that token means. */
  lemma {:induction false} DecodedIsWritten(t: Text) returns (us: seq<Unit>)
    requires Decode(t).Some?
    ensures ValidUnits(us) && WriteUnits(us, [QUOTE]) == t && Decode(t) == Some(Meaning(us))
    decreases |t|
  {
    if t[0] == QUOTE {
      us := [];
    } else {
      var u := if t[0] != BACKSLASH then Plain(t[0]) else if IsShort(t[1]) then Short(t[1])
        else Hex(t[2], t[3], t[4], t[5]);
      var n := |UnitText(u)|;
      var more := DecodedIsWritten(t[n..]);
      us := [u] + more;
      assert us[1..] == more;
      assert t == UnitText(u) + t[n..];
    }
  }

  // ----- Where a string token ends -----

  function StringEnd(t: Text, i: nat): Option<nat>
    decreases |t| - i
  {
    if i >= |t| then None
    else if t[i] == QUOTE then Some(i + 1)
    else StringEnd(t, if t[i] == BACKSLASH then i + 2 else i + 1)
  }

  lemma {:induction false} EndOfUnits(t: Text, i: nat, us: seq<Unit>, rest: Text)
    requires i <= |t| && ValidUnits(us) && t[i..] == WriteUnits(us, [QUOTE] + rest)
    ensures StringEnd(t, i) == Some(|t| - |rest|)
    decreases us
  {
    if us == [] {
      assert t[i] == t[i..][0] == QUOTE;
    } else {
      var n := |UnitText(us[0])|;
      assert forall k :: 0 <= k < n ==> t[i..][k] == UnitText(us[0])[k];
      assert t[i + n..] == t[i..][n..] == WriteUnits(us[1..], [QUOTE] + rest);
      SkipUnit(t, i, us[0]);
      EndOfUnits(t, i + n, us[1..], rest);
    }
  }

  lemma SkipUnit(t: Text, i: nat, u: Unit)
    requires ValidUnit(u) && i + |UnitText(u)| <= |t|
    requires forall k :: 0 <= k < |UnitText(u)| ==> t[i..][k] == UnitText(u)[k]
    ensures StringEnd(t, i) == StringEnd(t, i + |UnitText(u)|)
  {
    assert t[i] == t[i..][0] == UnitText(u)[0];
    if u.Hex? {
      assert t[i + 2] == t[i..][2] == u.d0 && t[i + 3] == t[i..][3] == u.d1;
      assert t[i + 4] == t[i..][4] == u.d2 && t[i + 5] == t[i..][5] == u.d3;
      assert StringEnd(t, i + 2) == StringEnd(t, i + 3);
      assert StringEnd(t, i + 4) == StringEnd(t, i + 5);
    }
  }

  lemma {:induction false} WriteUnitsRest(us: seq<Unit>, a: Text, b: Text)
    ensures WriteUnits(us, a + b) == WriteUnits(us, a) + b
  {
    if us != [] {
      WriteUnitsRest(us[1..], a, b);
      assert UnitText(us[0]) + (WriteUnits(us[1..], a) + b) == (UnitText(us[0]) + WriteUnits(us[1..], a)) + b;
    }
  }

  // ----- The longest scalar at the start of a text -----

  function DigitRun(t: Text): (n: nat)
    ensures n <= |t|
  {
    if t == [] || !IsDigit(t[0]) then 0 else 1 + DigitRun(t[1..])
  }

  function FractionLength(t: Text): (n: nat)
    ensures n <= |t|
  {
    if |t| >= 2 && t[0] == DOT && IsDigit(t[1]) then 1 + DigitRun(t[1..]) else 0
  }

  function ExponentLength(t: Text): (n: nat)
    ensures n <= |t|
  {
    if |t| < 2 || (t[0] != UPPER_E && t[0] != LOWER_E) then 0
    else
      var sign := if t[1] == PLUS || t[1] == MINUS then 1 else 0;
      var digits := DigitRun(t[1 + sign..]);
      if digits == 0 then 0 else 1 + sign + digits
  }

  function WholeLength(t: Text): (n: Option<nat>)
    ensures n.Some? ==> 0 < n.value <= |t|
  {
    var sign := if t != [] && t[0] == MINUS then 1 else 0;
    if sign == |t| || !IsDigit(t[sign]) then None
    else Some(sign + if t[sign] == ZERO then 1 else DigitRun(t[sign..]))
  }

  function TailLength(t: Text): (n: nat)
    ensures n <= |t|
  {
    FractionLength(t) + ExponentLength(t[FractionLength(t)..])
  }

  function NumberLength(t: Text): (n: Option<nat>)
    ensures n.Some? ==> 0 < n.value <= |t|
  {
    match WholeLength(t)
    case None => None
    case Some(whole) => Some(whole + TailLength(t[whole..]))
  }

  /** The match of the scanner's pattern for words and numbers. */
  function ScalarLength(t: Text): (n: Option<nat>)
    ensures n.Some? ==> 0 < n.value <= |t|
  {
    if WordText(True) <= t || WordText(Null) <= t then Some(4)
    else if WordText(False) <= t then Some(5)
    else NumberLength(t)
  }

  lemma {:induction false} RunOfDigits(a: Text, r: Text)
    requires AllDigits(a) && (r == [] || !IsDigit(r[0]))
    ensures DigitRun(a + r) == |a|
  {
    if a == [] {
      assert a + r == r;
    } else {
      RunOfDigits(a[1..], r);
      assert (a + r)[1..] == a[1..] + r;
    }
  }

  lemma After(a: Text, b: Text)
    ensures (a + b)[|a|..] == b
  {
  }

  lemma Regroup(a: Text, b: Text, c: Text, d: Text)
    ensures a + b + c + d == a + (b + (c + d))
  {
  }

  lemma ExponentStart(e: Exponent, rest: Text)
    requires ValidExponent(e) && Stops(rest)
    ensures var t := ExponentText(e) + rest; t == [] || (!IsDigit(t[0]) && t[0] != DOT)
  {
  }

  lemma ExponentMatch(e: Exponent, rest: Text)
    requires ValidExponent(e) && Stops(rest)
    ensures ExponentLength(ExponentText(e) + rest) == |ExponentText(e)|
  {
    if e.Exponent? {
      var front := [e.marker] + e.sign;
      assert ExponentText(e) + rest == front + (e.digits + rest);
      RunOfDigits(e.digits, rest);
      After(front, e.digits + rest);
      SignAfterMarker(e, rest);
    } else {
      assert ExponentText(e) + rest == rest;
    }
  }

  lemma SignAfterMarker(e: Exponent, rest: Text)
    requires e.Exponent? && ValidExponent(e)
    ensures var t := ExponentText(e) + rest;
            |t| >= 2 && t[0] == e.marker && (if e.sign == [] then IsDigit(t[1]) else t[1] == e.sign[0])
  {
  }

  lemma FractionMatch(digits: Text, more: Text)
    requires AllDigits(digits) && (more == [] || (!IsDigit(more[0]) && more[0] != DOT))
    ensures FractionLength(FractionText(digits) + more) == |FractionText(digits)|
    ensures var t := FractionText(digits) + more; t == [] || !IsDigit(t[0])
  {
    if digits == [] {
      assert FractionText(digits) + more == more;
    } else {
      var t := FractionText(digits) + more;
      assert t == [DOT] + (digits + more);
      RunOfDigits(digits, more);
    }
  }

  lemma TailMatch(fraction: Text, e: Exponent, rest: Text)
    requires AllDigits(fraction) && ValidExponent(e) && Stops(rest)
    ensures var t := FractionText(fraction) + (ExponentText(e) + rest);
            TailLength(t) == |FractionText(fraction)| + |ExponentText(e)| && (t == [] || !IsDigit(t[0]))
  {
    var tail := ExponentText(e) + rest;
    ExponentStart(e, rest);
    ExponentMatch(e, rest);
    FractionMatch(fraction, tail);
    After(FractionText(fraction), tail);
  }

  lemma WholeMatch(negative: bool, whole: Text, more: Text)
    requires ValidWhole(whole) && (more == [] || !IsDigit(more[0]))
    ensures WholeLength(SignText(negative) + whole + more) == Some(|SignText(negative) + whole|)
  {
    var sign := SignText(negative);
    assert sign + whole + more == sign + (whole + more);
    RunOfDigits(whole, more);
    After(sign, whole + more);
    assert IsDigit(whole[0]) && (whole + more)[0] == whole[0];
  }

  lemma Assemble(front: Text, more: Text)
    requires WholeLength(front + more) == Some(|front|)
    ensures NumberLength(front + more) == Some(|front| + TailLength(more))
  {
    After(front, more);
  }

  lemma NumberMatch(n: Number, rest: Text)
    requires ValidNumber(n) && Stops(rest)
    ensures NumberLength(NumberText(n) + rest) == Some(|NumberText(n)|)
  {
    var front := SignText(n.negative) + n.whole;
    var fraction, exponent := FractionText(n.fraction), ExponentText(n.exponent);
    var more := fraction + (exponent + rest);
    TailMatch(n.fraction, n.exponent, rest);
    WholeMatch(n.negative, n.whole, more);
    Assemble(front, more);
    Regroup(front, fraction, exponent, rest);
  }

  lemma WordMatch(w: Word, rest: Text)
    ensures ScalarLength(WordText(w) + rest) == Some(|WordText(w)|)
  {
    var t := WordText(w) + rest;
    assert WordText(w) <= t;
    assert t[0] == WordText(w)[0];
  }

  lemma NumberIsNoWord(t: Text)
    requires t != [] && (IsDigit(t[0]) || t[0] == MINUS)
    ensures ScalarLength(t) == NumberLength(t)
  {
    assert WordText(True)[0] == 0x74 && WordText(Null)[0] == 0x6E && WordText(False)[0] == 0x66;
  }

  lemma NumericMatch(t: Text, rest: Text)
    requires IsNumber(t) && Stops(rest)
    ensures ScalarLength(t + rest) == Some(|t|)
  {
    NumberShape(t);
    NumberIsNoWord(t + rest);
    var n :| ValidNumber(n) && NumberText(n) == t;
    NumberMatch(n, rest);
  }

  /** The pattern matches exactly the word or number that stands there. */
  lemma ScalarMatch(v: Value, rest: Text)
    requires ValidValue(v) && (v.Literal? || v.Numeric?) && Stops(rest)
    ensures ScalarLength(WriteValue(v, rest)) == Some(|WriteValue(v, rest)| - |rest|)
  {
    match v
    case Literal(word) => WordMatch(word, rest);
    case Numeric(t) => NumericMatch(t, rest);
  }
}
