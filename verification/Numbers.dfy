/** Numbers that several modules share. */
module Numbers {

  type Byte = b: int | 0 <= b < 256

  /** The largest integer the platform's numbers hold exactly. */
  const MAX_SAFE_INTEGER := 9_007_199_254_740_991

  function Max(a: nat, b: nat): nat {
    if a < b then b else a
  }

  function Min(a: nat, b: nat): nat {
    if a < b then a else b
  }
}
