/**
  * How each code unit of a string is printed: by itself, unless JSON or a missing half of a pair asks for an escape;
  * and how many bytes it takes in UTF-8.
  */
module PrintedStrings {
  import opened JsonText
  import opened JsonValues
  import opened Utf8

  /** One half of a surrogate pair, beside the other half. */
  predicate Paired(s: Text, i: nat)
    requires i < |s|
  {
    || (0xD800 <= s[i] < 0xDC00 && i + 1 < |s| && 0xDC00 <= s[i + 1] < 0xE000)
    || (0xDC00 <= s[i] < 0xE000 && i > 0 && 0xD800 <= s[i - 1] < 0xDC00)
  }

  /** A lower-case hexadecimal digit. */
  function LowerDigit(d: nat): CodeUnit
    requires d < 16
  {
    if d < 10 then 0x30 + d else 0x57 + d
  }

  /** How the code unit at a place is printed. */
  function PrintedAt(s: Text, i: nat): Unit
    requires i < |s|
  {
    var c := s[i];
    if c == 0x22 || c == 0x5C then Short(c)
    else if c == 0x08 then Short(0x62)
    else if c == 0x09 then Short(0x74)
    else if c == 0x0A then Short(0x6E)
    else if c == 0x0C then Short(0x66)
    else if c == 0x0D then Short(0x72)
    else if c < 0x20 || (0xD800 <= c < 0xE000 && !Paired(s, i)) then
      Hex(LowerDigit(c / 4096), LowerDigit(c / 256 % 16), LowerDigit(c / 16 % 16), LowerDigit(c % 16))
    else Plain(c)
  }

  /** No place of the text but the first can be paired with the code unit before the text. */
  predicate Begins(s: Text, i: nat, t: Text) {
    |t| + i == |s| && s[i..] == t && (i > 0 && t != [] && 0xD800 <= s[i - 1] < 0xDC00 ==> !(0xDC00 <= t[0] < 0xE000))
  }

  function PrintedFrom(s: Text, i: nat): seq<Unit>
    requires i <= |s|
    decreases |s| - i
  {
    if i == |s| then [] else [PrintedAt(s, i)] + PrintedFrom(s, i + 1)
  }

  lemma {:induction false} LengthFrom(s: Text, i: nat)
    requires i <= |s|
    ensures |PrintedFrom(s, i)| == |s| - i
    decreases |s| - i
  {
    if i < |s| {
      LengthFrom(s, i + 1);
    }
  }

  lemma {:induction false} PlaceFrom(s: Text, i: nat, k: nat)
    requires i <= k < |s|
    ensures |PrintedFrom(s, i)| == |s| - i && PrintedFrom(s, i)[k - i] == PrintedAt(s, k)
    decreases k - i
  {
    LengthFrom(s, i);
    if i < k {
      PlaceFrom(s, i + 1, k);
    }
  }

  lemma PairFrom(s: Text, i: nat)
    requires i + 1 < |s| && LeadSurrogate(s[i]) && TrailSurrogate(s[i + 1])
    ensures PrintedFrom(s, i) == [Plain(s[i]), Plain(s[i + 1])] + PrintedFrom(s, i + 2)
  {
    assert PrintedAt(s, i) == Plain(s[i]) && PrintedAt(s, i + 1) == Plain(s[i + 1]);
    assert PrintedFrom(s, i) == [PrintedAt(s, i)] + ([PrintedAt(s, i + 1)] + PrintedFrom(s, i + 2));
  }

  lemma LoneFrom(s: Text, i: nat)
    requires i < |s| && (0xD800 <= s[i] < 0xE000 ==> !Paired(s, i))
    ensures PrintedFrom(s, i) == [EscapeOne(s[i])] + PrintedFrom(s, i + 1)
  {
    assert PrintedAt(s, i) == EscapeOne(s[i]);
  }

  lemma {:induction false} EscapesFrom(s: Text, i: nat, t: Text)
    requires Begins(s, i, t)
    ensures Escape(t) == PrintedFrom(s, i)
    decreases |t|
  {
    if t != [] {
      assert forall k :: 0 <= k < |t| ==> t[k] == s[i + k];
      if |t| > 1 && LeadSurrogate(t[0]) && TrailSurrogate(t[1]) {
        PairFrom(s, i);
        EscapesFrom(s, i + 2, t[2..]);
      } else {
        LoneFrom(s, i);
        EscapesFrom(s, i + 1, t[1..]);
      }
    }
  }

  /** Every code unit of a string is printed in turn, as it has to be at its place. */
  lemma {:induction false} StringIsPrinted(s: Text)
    ensures |Escape(s)| == |s| && forall k :: 0 <= k < |s| ==> Escape(s)[k] == PrintedAt(s, k)
  {
    EscapesFrom(s, 0, s);
    LengthFrom(s, 0);
    forall k | 0 <= k < |s| ensures Escape(s)[k] == PrintedAt(s, k) {
      PlaceFrom(s, 0, k);
    }
  }

  // ----- Sizes -----

  /** The bytes of a code unit in UTF-8: each half of a pair brings two of its four. */
  function Octets(s: Text, i: nat): nat
    requires i < |s|
  {
    if s[i] < 0x80 then 1 else if s[i] < 0x800 || Paired(s, i) then 2 else 3
  }

  function OctetsFrom(s: Text, i: nat): nat
    requires i <= |s|
    decreases |s| - i
  {
    if i == |s| then 0 else Octets(s, i) + OctetsFrom(s, i + 1)
  }

  lemma {:induction false} SizeFrom(s: Text, i: nat, t: Text)
    requires Begins(s, i, t)
    ensures Utf8Size(t) == OctetsFrom(s, i)
    decreases |t|
  {
    if t != [] {
      assert forall k :: 0 <= k < |t| ==> t[k] == s[i + k];
      if |t| > 1 && LeadSurrogate(t[0]) && TrailSurrogate(t[1]) {
        SizeFrom(s, i + 2, t[2..]);
        assert OctetsFrom(s, i) == Octets(s, i) + (Octets(s, i + 1) + OctetsFrom(s, i + 2));
      } else {
        SizeFrom(s, i + 1, t[1..]);
      }
    }
  }

  /** The size of a text is the sum over its places. */
  lemma {:induction false} SizeIsCounted(s: Text)
    ensures Utf8Size(s) == OctetsFrom(s, 0)
  {
    SizeFrom(s, 0, s);
  }
}
