/** Sizes of texts in UTF-8. */
module Utf8 {
  import opened JsonText
  import opened JsonValues

  /** The length of a text in UTF-8 (RFC 3629, section 3), a lone surrogate counting as its replacement. */
  function Utf8Size(t: Text): nat {
    if t == [] then 0
    else if |t| > 1 && LeadSurrogate(t[0]) && TrailSurrogate(t[1]) then 4 + Utf8Size(t[2..])
    else (if t[0] < 0x80 then 1 else if t[0] < 0x800 then 2 else 3) + Utf8Size(t[1..])
  }
}
