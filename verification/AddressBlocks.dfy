/**
  * Address blocks: the masked comparison of a prefix, and what it means for addresses as numbers (RFC 4632, section
  * 3.1).
  */
module AddressBlocks {
  import opened Numbers

  // ----- Powers of two and halving -----

  function Power(k: nat): (p: nat)
    ensures p > 0
  {
    if k == 0 then 1 else 2 * Power(k - 1)
  }

  /** The number after dropping its k lowest bits. */
  function Drop(x: nat, k: nat): nat {
    if k == 0 then x else Drop(x / 2, k - 1)
  }

  lemma HalfQuotient(x: nat, d: nat)
    requires d > 0
    ensures x / 2 / d == x / (2 * d)
  {
    var q, r := x / (2 * d), x % (2 * d);
    assert x == 2 * d * q + r;
    assert x / 2 == d * q + r / 2;
    assert 0 <= r / 2 < d;
    QuotientUnique(x / 2, d, q, r / 2);
  }

  lemma QuotientUnique(x: nat, d: nat, q: nat, r: nat)
    requires d > 0 && x == d * q + r && r < d
    ensures x / d == q
  {
    var p, s := x / d, x % d;
    assert x == d * p + s;
    if p < q {
      NextMultiple(d, p, q);
    } else if p > q {
      NextMultiple(d, q, p);
    }
  }

  lemma NextMultiple(d: nat, p: nat, q: nat)
    requires p < q
    ensures d * q >= d * p + d
  {
    assert d * q == d * (p + 1) + d * (q - p - 1);
  }

  /** Dropping k bits is dividing by the k-th power of two. */
  lemma {:induction false} DropIsQuotient(x: nat, k: nat)
    ensures Drop(x, k) == x / Power(k)
    decreases k
  {
    if k > 0 {
      DropIsQuotient(x / 2, k - 1);
      HalfQuotient(x, Power(k - 1));
    }
  }

  lemma {:induction false} DropTwice(x: nat, j: nat, k: nat)
    ensures Drop(Drop(x, j), k) == Drop(x, j + k)
    decreases j
  {
    if j > 0 {
      DropTwice(x / 2, j - 1, k);
    }
  }

  // ----- Bitwise and -----

  function BitAnd(a: nat, b: nat): nat
    decreases a
  {
    if a == 0 then 0 else (if a % 2 == 1 && b % 2 == 1 then 1 else 0) + 2 * BitAnd(a / 2, b / 2)
  }

  /** Masking with ones above the k lowest bits clears exactly those. */
  lemma {:induction false} MaskClears(x: nat, mask: nat, width: nat, k: nat)
    requires x < Power(width) && k <= width && mask + Power(k) == Power(width)
    ensures BitAnd(x, mask) == Drop(x, k) * Power(k)
    decreases width
  {
    if x == 0 {
      ZeroDrops(k);
    } else {
      assert width > 0;
      if k == 0 {
        assert mask == 2 * (Power(width - 1) - 1) + 1;
        MaskClears(x / 2, mask / 2, width - 1, 0);
      } else {
        assert mask == 2 * (Power(width - 1) - Power(k - 1));
        MaskClears(x / 2, mask / 2, width - 1, k - 1);
        Reorder(Drop(x, k), Power(k - 1));
      }
    }
  }

  lemma Reorder(a: nat, b: nat)
    ensures 2 * (a * b) == a * (2 * b)
  {
  }

  lemma {:induction false} ZeroDrops(k: nat)
    ensures Drop(0, k) == 0
  {
    if k > 0 {
      ZeroDrops(k - 1);
    }
  }

  lemma EightBits()
    ensures Power(8) == 256
  {
    assert Power(2) == 4 && Power(4) == 16 && Power(6) == 64;
  }

  /** The mask of a partial byte: eight ones shifted up, cut back to eight bits. */
  function ByteMask(remainder: nat): nat
    requires 0 < remainder < 8
  {
    BitAnd(255 * Power(8 - remainder), 255)
  }

  /** The w lowest bits of a number. */
  function Keep(x: nat, w: nat): nat {
    if w == 0 then 0 else x % 2 + 2 * Keep(x / 2, w - 1)
  }

  /** A mask of w ones keeps the w lowest bits. */
  lemma {:induction false} LowBits(x: nat, mask: nat, w: nat)
    requires mask + 1 == Power(w)
    ensures BitAnd(x, mask) == Keep(x, w)
    decreases w
  {
    if w == 0 {
      AndZero(x);
    } else if x == 0 {
      KeepZero(w);
    } else {
      assert mask == 2 * (Power(w - 1) - 1) + 1;
      LowBits(x / 2, mask / 2, w - 1);
    }
  }

  lemma {:induction false} KeepZero(w: nat)
    ensures Keep(0, w) == 0
  {
    if w > 0 {
      KeepZero(w - 1);
    }
  }

  lemma {:induction false} AndZero(x: nat)
    ensures BitAnd(x, 0) == 0
    decreases x
  {
    if x > 0 {
      AndZero(x / 2);
    }
  }

  /** Ones from bit k up to bit m, cut back to w bits. */
  lemma {:induction false} OnesKept(x: nat, m: nat, k: nat, w: nat)
    requires x + Power(k) == Power(m) && k <= w <= m
    ensures Keep(x, w) + Power(k) == Power(w)
    decreases w
  {
    if w > 0 {
      OnesKept(x / 2, m - 1, if k == 0 then 0 else k - 1, w - 1);
    }
  }

  lemma PowerPlusEight(k: nat)
    ensures Power(k + 8) == 256 * Power(k)
  {
    assert Power(k + 2) == 4 * Power(k);
    assert Power(k + 4) == 4 * Power(k + 2);
    assert Power(k + 6) == 4 * Power(k + 4);
  }

  lemma ByteMaskIs(remainder: nat)
    requires 0 < remainder < 8
    ensures ByteMask(remainder) + Power(8 - remainder) == Power(8)
  {
    var k := 8 - remainder;
    EightBits();
    PowerPlusEight(k);
    OnesKept(255 * Power(k), k + 8, k, 8);
    LowBits(255 * Power(k), 255, 8);
  }

  /** Two bytes agree under the mask exactly when they agree above the masked bits. */
  lemma MaskCompares(a: Byte, b: Byte, remainder: nat)
    requires 0 < remainder < 8
    ensures var mask, k := ByteMask(remainder), 8 - remainder;
            BitAnd(a, mask) == BitAnd(b, mask) <==> Drop(a, k) == Drop(b, k)
  {
    var mask, k := ByteMask(remainder), 8 - remainder;
    EightBits();
    ByteMaskIs(remainder);
    MaskClears(a, mask, 8, k);
    MaskClears(b, mask, 8, k);
    CancelFactor(Drop(a, k), Drop(b, k), Power(k));
  }

  lemma CancelFactor(a: nat, b: nat, p: nat)
    requires p > 0
    ensures a * p == b * p <==> a == b
  {
    if a < b {
      assert b * p >= (a + 1) * p == a * p + p;
    } else if b < a {
      assert a * p >= (b + 1) * p == b * p + p;
    }
  }

  // ----- Addresses as numbers -----

  /** The big-endian number of the bytes. */
  function Value(bytes: seq<Byte>): nat {
    if bytes == [] then 0 else 256 * Value(bytes[..|bytes| - 1]) + bytes[|bytes| - 1]
  }

  lemma {:induction false} ValueInjective(a: seq<Byte>, b: seq<Byte>)
    requires |a| == |b|
    ensures Value(a) == Value(b) <==> a == b
    decreases |a|
  {
    if a != [] {
      var n := |a| - 1;
      ValueInjective(a[..n], b[..n]);
      if Value(a) == Value(b) {
        assert a == a[..n] + [a[n]] && b == b[..n] + [b[n]];
      }
    }
  }

  lemma DropByte(x: nat)
    ensures Drop(x, 8) == x / 256
  {
    DropIsQuotient(x, 8);
    EightBits();
  }

  /** Dropping the bits of the last bytes leaves the number of the first ones. */
  lemma {:induction false} DropBytes(a: seq<Byte>, m: nat)
    requires m <= |a|
    ensures Drop(Value(a), 8 * m) == Value(a[..|a| - m])
    decreases m
  {
    if m == 0 {
      assert a[..|a|] == a;
    } else {
      var front := a[..|a| - 1];
      DropByte(Value(a));
      DropTwice(Value(a), 8, 8 * (m - 1));
      DropBytes(front, m - 1);
      assert front[..|front| - (m - 1)] == a[..|a| - m];
    }
  }

  /** Dropping bits of the last byte leaves the number before it, shifted, and what is left of the byte. */
  lemma {:induction false} DropInByte(v: nat, c: nat, width: nat, k: nat)
    requires k <= width && c < Power(width)
    ensures Drop(Power(width) * v + c, k) == Power(width - k) * v + Drop(c, k)
    ensures Drop(c, k) < Power(width - k)
    decreases k
  {
    if k > 0 {
      var half := Power(width - 1);
      assert Power(width) * v == 2 * (half * v) by {
        Reorder(v, half);
      }
      assert (Power(width) * v + c) / 2 == half * v + c / 2;
      DropInByte(v, c / 2, width - 1, k - 1);
    }
  }

  lemma PairUnique(p: nat, v: nat, c: nat, w: nat, d: nat)
    requires c < p && d < p
    ensures p * v + c == p * w + d <==> v == w && c == d
  {
    if v < w {
      assert p * w >= p * (v + 1) == p * v + p;
    } else if w < v {
      assert p * v >= p * (w + 1) == p * w + p;
    }
  }

  /** The number of a block's network: the address with the host bits dropped. */
  function Network(bytes: seq<Byte>, bits: nat): nat
    requires bits <= 8 * |bytes|
  {
    Drop(Value(bytes), 8 * |bytes| - bits)
  }

  /** As a quotient, the network number is the address divided by the block's size. */
  lemma NetworkIsQuotient(bytes: seq<Byte>, bits: nat)
    requires bits <= 8 * |bytes|
    ensures Network(bytes, bits) == Value(bytes) / Power(8 * |bytes| - bits)
  {
    DropIsQuotient(Value(bytes), 8 * |bytes| - bits);
  }

  lemma SameQuotient(v: nat, p: nat, d: nat)
    requires d > 0 && p % d == 0
    ensures v / d == p / d <==> p <= v < p + d
  {
    var q := p / d;
    assert p == d * q;
    if p <= v < p + d {
      QuotientUnique(v, d, q, v - p);
    }
    if v / d == q {
      assert v == d * q + v % d;
    }
  }

  /** Having a block's network number is lying between its first and its last address. */
  lemma BlockIsInterval(address: seq<Byte>, prefix: seq<Byte>, bits: nat)
    requires |address| == |prefix| && bits <= 8 * |prefix| && Value(prefix) % Power(8 * |prefix| - bits) == 0
    ensures Network(address, bits) == Network(prefix, bits) <==>
            Value(prefix) <= Value(address) < Value(prefix) + Power(8 * |prefix| - bits)
  {
    NetworkIsQuotient(address, bits);
    NetworkIsQuotient(prefix, bits);
    SameQuotient(Value(address), Value(prefix), Power(8 * |prefix| - bits));
  }

  /** Equal whole bytes and equal masked bits are an equal network number. */
  lemma PartialByte(a: seq<Byte>, b: seq<Byte>, full: nat, remainder: nat)
    requires |a| == |b| && full < |a| && 0 < remainder < 8
    ensures Network(a, 8 * full + remainder) == Network(b, 8 * full + remainder) <==>
            a[..full] == b[..full] && BitAnd(a[full], ByteMask(remainder)) == BitAnd(b[full], ByteMask(remainder))
  {
    PartialNetwork(a, full, remainder);
    PartialNetwork(b, full, remainder);
    ValueInjective(a[..full], b[..full]);
    MaskCompares(a[full], b[full], remainder);
    PairUnique(Power(remainder), Value(a[..full]), Drop(a[full], 8 - remainder), Value(b[..full]),
               Drop(b[full], 8 - remainder));
  }

  lemma PartialNetwork(a: seq<Byte>, full: nat, remainder: nat)
    requires full < |a| && 0 < remainder < 8
    ensures Network(a, 8 * full + remainder) == Power(remainder) * Value(a[..full]) + Drop(a[full], 8 - remainder)
    ensures Drop(a[full], 8 - remainder) < Power(remainder)
  {
    var m, k := |a| - full - 1, 8 - remainder;
    assert 8 * |a| - (8 * full + remainder) == 8 * m + k;
    DropTwice(Value(a), 8 * m, k);
    DropBytes(a, m);
    var head := a[..full + 1];
    assert head[..full] == a[..full] && head[full] == a[full];
    EightBits();
    DropInByte(Value(a[..full]), a[full], 8, k);
  }

  lemma WholeBytes(a: seq<Byte>, b: seq<Byte>, full: nat)
    requires |a| == |b| && full <= |a|
    ensures Network(a, 8 * full) == Network(b, 8 * full) <==> a[..full] == b[..full]
  {
    DropBytes(a, |a| - full);
    DropBytes(b, |b| - full);
    ValueInjective(a[..full], b[..full]);
  }

  /** The masked comparison decides exactly whether address and prefix have the same network number. */
  method HasPrefix(address: seq<Byte>, prefix: seq<Byte>, bits: nat) returns (inside: bool)
    requires |address| == |prefix| && bits <= 8 * |prefix|
    ensures inside <==> Network(address, bits) == Network(prefix, bits)
  {
    var full, remainder := bits / 8, bits % 8;
    for index := 0 to full
      invariant address[..index] == prefix[..index]
    {
      if address[index] != prefix[index] {
        assert address[..full][index] != prefix[..full][index];
        if remainder == 0 {
          WholeBytes(address, prefix, full);
        } else {
          PartialByte(address, prefix, full, remainder);
        }
        return false;
      }
    }
    if remainder == 0 {
      WholeBytes(address, prefix, full);
      return true;
    }
    PartialByte(address, prefix, full, remainder);
    var mask := ByteMask(remainder);
    return BitAnd(address[full], mask) == BitAnd(prefix[full], mask);
  }
}
