/** Strings of Unicode characters as UTF-16 text, and back. */
module Utf16 {
  import opened Options
  import opened JsonText
  import opened JsonValues

  /** The one or two code units of a character (RFC 2781, section 2.1). */
  function Encoded(c: char): Text {
    var n := c as int;
    if n < 0x1_0000 then [n] else [0xD800 + (n - 0x1_0000) / 0x400, 0xDC00 + (n - 0x1_0000) % 0x400]
  }

  function ToText(s: string): Text {
    if s == "" then [] else Encoded(s[0]) + ToText(s[1..])
  }

  /** The characters of a text; nothing when it holds a surrogate without its partner. */
  function FromText(t: Text): (s: Option<string>)
    ensures s.Some? ==> ToText(s.value) == t
  {
    if t == [] then Some("")
    else if |t| > 1 && LeadSurrogate(t[0]) && TrailSurrogate(t[1]) then
      match FromText(t[2..])
      case None => None
      case Some(rest) =>
        var c := (0x1_0000 + ((t[0] as int) - 0xD800) * 0x400 + ((t[1] as int) - 0xDC00)) as char;
        assert ([c] + rest)[1..] == rest && Encoded(c) == [t[0], t[1]];
        assert t == [t[0], t[1]] + t[2..];
        Some([c] + rest)
    else if LeadSurrogate(t[0]) || TrailSurrogate(t[0]) then None
    else
      match FromText(t[1..])
      case None => None
      case Some(rest) =>
        assert ([t[0] as char] + rest)[1..] == rest;
        assert t == [t[0]] + t[1..];
        Some([t[0] as char] + rest)
  }

  lemma {:induction false} ReadUnit(c: char, rest: Text)
    requires (c as int) < 0x1_0000 && FromText(rest).Some?
    ensures FromText([c as int] + rest) == Some([c] + FromText(rest).value)
  {
    assert ([c as int] + rest)[1..] == rest;
  }

  lemma PairOf(c: char)
    requires c as int >= 0x1_0000
    ensures var units := Encoded(c);
            && |units| == 2 && LeadSurrogate(units[0]) && TrailSurrogate(units[1])
            && 0x1_0000 + ((units[0] as int) - 0xD800) * 0x400 + ((units[1] as int) - 0xDC00) == c as int
  {
  }

  lemma {:induction false} ReadPair(c: char, rest: Text)
    requires c as int >= 0x1_0000 && FromText(rest).Some?
    ensures FromText(Encoded(c) + rest) == Some([c] + FromText(rest).value)
  {
    PairOf(c);
    assert (Encoded(c) + rest)[2..] == rest;
  }

  /** Every string is read back from its text. */
  lemma {:induction false} FromToText(s: string)
    ensures FromText(ToText(s)) == Some(s)
  {
    if s != "" {
      FromToText(s[1..]);
      if (s[0] as int) < 0x1_0000 {
        ReadUnit(s[0], ToText(s[1..]));
      } else {
        ReadPair(s[0], ToText(s[1..]));
      }
      assert s == [s[0]] + s[1..];
    }
  }

  /** Different strings have different texts. */
  lemma ToTextInjective(s: string, t: string)
    requires ToText(s) == ToText(t)
    ensures s == t
  {
    FromToText(s);
    FromToText(t);
  }
}
