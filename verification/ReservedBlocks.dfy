/** The reserved address blocks, byte by byte: which addresses count as public. */
module ReservedBlocks {
  import opened Numbers
  import opened AddressBlocks
  import opened PublicAddress

  // ----- One block -----

  ghost predicate StartsWith(a: seq<Byte>, start: seq<Byte>)
    requires |start| <= |a|
  {
    forall j :: 0 <= j < |start| ==> a[j] == start[j]
  }

  lemma SameStart(a: seq<Byte>, p: seq<Byte>, start: seq<Byte>)
    requires |start| <= |a| && start <= p
    ensures a[..|start|] == p[..|start|] <==> StartsWith(a, start)
  {
    if a[..|start|] == p[..|start|] {
      forall j | 0 <= j < |start| ensures a[j] == start[j] {
        assert a[..|start|][j] == p[..|start|][j];
      }
    }
  }

  /** A block of whole bytes. */
  lemma Whole(a: seq<Byte>, p: seq<Byte>, start: seq<Byte>)
    requires |a| == |p| && start <= p
    ensures Network(a, 8 * |start|) == Network(p, 8 * |start|) <==> StartsWith(a, start)
  {
    WholeBytes(a, p, |start|);
    SameStart(a, p, start);
  }

  /** A block of whole bytes and some leading bits of the next one. */
  lemma Partly(a: seq<Byte>, p: seq<Byte>, start: seq<Byte>, remainder: nat)
    requires |a| == |p| && |start| < |a| && start <= p && 0 < remainder < 8
    ensures var n, d := |start|, Power(8 - remainder);
            Network(a, 8 * n + remainder) == Network(p, 8 * n + remainder) <==>
            StartsWith(a, start) && a[n] / d == p[n] / d
  {
    var n, k := |start|, 8 - remainder;
    PartialByte(a, p, n, remainder);
    SameStart(a, p, start);
    MaskCompares(a[n], p[n], remainder);
    DropIsQuotient(a[n], k);
    DropIsQuotient(p[n], k);
  }

  lemma Powers()
    ensures Power(1) == 2 && Power(2) == 4 && Power(4) == 16 && Power(6) == 64
  {
  }

  // ----- IPv4 -----

  /** Reserved, by the first three of the four bytes. */
  predicate ReservedV4(a: Byte, b: Byte, c: Byte) {
    || a == 0 || a == 10 || a == 127 || 224 <= a
    || (a == 100 && 64 <= b < 128) || (a == 169 && b == 254) || (a == 172 && 16 <= b < 32)
    || (a == 192 && ((b == 0 && (c == 0 || c == 2)) || (b == 88 && c == 99) || b == 168))
    || (a == 198 && (b == 18 || b == 19 || (b == 51 && c == 100)))
    || (a == 203 && b == 0 && c == 113)
  }

  ghost predicate InBlockV4(v: seq<Byte>, i: nat)
    requires |v| == 4
  {
    match i
    case 0 => v[0] == 0
    case 1 => v[0] == 10
    case 2 => v[0] == 100 && 64 <= v[1] < 128
    case 3 => v[0] == 127
    case 4 => v[0] == 169 && v[1] == 254
    case 5 => v[0] == 172 && 16 <= v[1] < 32
    case 6 => v[0] == 192 && v[1] == 0 && v[2] == 0
    case 7 => v[0] == 192 && v[1] == 0 && v[2] == 2
    case 8 => v[0] == 192 && v[1] == 88 && v[2] == 99
    case 9 => v[0] == 192 && v[1] == 168
    case 10 => v[0] == 198 && 18 <= v[1] < 20
    case 11 => v[0] == 198 && v[1] == 51 && v[2] == 100
    case 12 => v[0] == 203 && v[1] == 0 && v[2] == 113
    case 13 => 224 <= v[0] < 240
    case _ => 240 <= v[0]
  }

  lemma BlockV4(v: seq<Byte>, i: nat)
    requires |v| == 4 && i < 15
    ensures |NonPublicV4()| == 15
    ensures var b := NonPublicV4()[i]; Network(v, b.bits) == Network(b.prefix, b.bits) <==> InBlockV4(v, i)
  {
    var b := NonPublicV4()[i];
    Powers();
    if i in {2, 5, 10} {
      Partly(v, b.prefix, b.prefix[..1], b.bits - 8);
    } else if i in {13, 14} {
      Partly(v, b.prefix, [], 4);
    } else if i in {0, 1, 3} {
      Whole(v, b.prefix, b.prefix[..1]);
    } else if i in {4, 9} {
      Whole(v, b.prefix, b.prefix[..2]);
    } else {
      Whole(v, b.prefix, b.prefix[..3]);
    }
  }

  /** An IPv4 address is public exactly when its bytes are not reserved. */
  lemma PublicV4Iff(v: seq<Byte>)
    requires |v| == 4
    ensures PublicV4(v) <==> !ReservedV4(v[0], v[1], v[2])
  {
    forall i: nat | i < 15
      ensures |NonPublicV4()| == 15
              && var b := NonPublicV4()[i]; (Network(v, b.bits) == Network(b.prefix, b.bits) <==> InBlockV4(v, i)) {
      BlockV4(v, i);
    }
    BlockV4(v, 0);
    assert InSome(v, NonPublicV4()) <==> exists i: nat :: i < 15 && InBlockV4(v, i);
    if ReservedV4(v[0], v[1], v[2]) {
      var i := BlockOf(v);
      assert InBlockV4(v, i);
    }
  }

  lemma BlockOf(v: seq<Byte>) returns (i: nat)
    requires |v| == 4 && ReservedV4(v[0], v[1], v[2])
    ensures i < 15 && InBlockV4(v, i)
  {
    i := if v[0] == 0 then 0 else if v[0] == 10 then 1 else if v[0] == 100 then 2 else if v[0] == 127 then 3
      else if v[0] == 169 then 4 else if v[0] == 172 then 5
      else if v[0] == 192 then
        if v[1] == 0 then if v[2] == 0 then 6 else 7 else if v[1] == 88 then 8 else 9
      else if v[0] == 198 then if v[1] == 51 then 11 else 10
      else if v[0] == 203 then 12 else if v[0] < 240 then 13 else 14;
  }

  // ----- IPv6 -----

  /** The bytes from one place up to another are zero. */
  ghost predicate NoBits(v: seq<Byte>, from: nat, to: nat)
    requires to <= |v|
  {
    forall j :: from <= j < to ==> v[j] == 0
  }

  ghost predicate ReservedV6(v: seq<Byte>)
    requires |v| == 16
  {
    || (NoBits(v, 0, 15) && v[15] <= 1)
    || (v[0] == 0x01 && NoBits(v, 1, 8))
    || v[0] == 0xFC || v[0] == 0xFD || v[0] == 0xFF || (v[0] == 0xFE && 0x80 <= v[1] < 0xC0)
    || (v[0] == 0x20 && v[1] == 0x01 && (v[2] < 2 || (v[2] == 0x0D && v[3] == 0xB8)))
    || (v[0] == 0x20 && v[1] == 0x02)
    || (v[0] == 0 && v[1] == 0x64 && v[2] == 0xFF && v[3] == 0x9B && (NoBits(v, 4, 12) || (v[4] == 0 && v[5] == 1)))
    || (v[0] == 0x3F && v[1] == 0xFF && v[2] < 16) || (v[0] == 0x5F && v[1] == 0)
  }

  ghost predicate InBlockV6(v: seq<Byte>, i: nat)
    requires |v| == 16
  {
    match i
    case 0 => NoBits(v, 0, 16)
    case 1 => NoBits(v, 0, 15) && v[15] == 1
    case 2 => v[0] == 0x01 && NoBits(v, 1, 8)
    case 3 => v[0] == 0xFC || v[0] == 0xFD
    case 4 => v[0] == 0xFE && 0x80 <= v[1] < 0xC0
    case 5 => v[0] == 0xFF
    case 6 => v[0] == 0x20 && v[1] == 0x01 && v[2] < 2
    case 7 => v[0] == 0x20 && v[1] == 0x01 && v[2] == 0x0D && v[3] == 0xB8
    case 8 => v[0] == 0x20 && v[1] == 0x01 && v[2] == 0 && v[3] == 2 && NoBits(v, 4, 6)
    case 9 => v[0] == 0 && v[1] == 0x64 && v[2] == 0xFF && v[3] == 0x9B && NoBits(v, 4, 12)
    case 10 => v[0] == 0 && v[1] == 0x64 && v[2] == 0xFF && v[3] == 0x9B && v[4] == 0 && v[5] == 1
    case 11 => v[0] == 0x20 && v[1] == 0x02
    case 12 => v[0] == 0x3F && v[1] == 0xFF && v[2] < 16
    case _ => v[0] == 0x5F && v[1] == 0
  }

  lemma PaddedAt(start: seq<Byte>, length: nat, j: nat)
    requires |start| <= length && j < length
    ensures Padded(start, length)[j] == if j < |start| then start[j] else 0
  {
    if j >= |start| {
      ZerosAre(length - |start|, j - |start|);
    }
  }

  /** A block that starts with these bytes and zeros up to a whole number of bytes. */
  lemma PaddedBlock(v: seq<Byte>, start: seq<Byte>, whole: nat)
    requires |v| == 16 && |start| <= whole <= 16
    ensures Network(v, 8 * whole) == Network(Padded(start, 16), 8 * whole) <==>
            StartsWith(v, start) && NoBits(v, |start|, whole)
  {
    var p := Padded(start, 16);
    Whole(v, p, p[..whole]);
    forall j: nat | j < whole ensures p[j] == if j < |start| then start[j] else 0 {
      PaddedAt(start, 16, j);
    }
    if StartsWith(v, p[..whole]) {
      forall j | 0 <= j < |start| ensures v[j] == start[j] {
        assert v[j] == p[..whole][j];
      }
      forall j | |start| <= j < whole ensures v[j] == 0 {
        assert v[j] == p[..whole][j];
      }
    }
  }

  /** A block of some leading bits of the byte after these. */
  lemma PaddedBits(v: seq<Byte>, start: seq<Byte>, head: seq<Byte>, remainder: nat)
    requires |v| == 16 && |head| < 16 && |start| <= 16 && head <= Padded(start, 16) && 0 < remainder < 8
    ensures var n, d := |head|, Power(8 - remainder);
            Network(v, 8 * n + remainder) == Network(Padded(start, 16), 8 * n + remainder) <==>
            StartsWith(v, head) && v[n] / d == Padded(start, 16)[n] / d
  {
    Partly(v, Padded(start, 16), head, remainder);
  }

  lemma LastBytes(v: seq<Byte>)
    requires |v| == 16
    ensures Network(v, 128) == Network(Zeros(16), 128) <==> NoBits(v, 0, 16)
    ensures Network(v, 128) == Network(Zeros(15) + [1], 128) <==> NoBits(v, 0, 15) && v[15] == 1
  {
    assert [] + Zeros(16) == Zeros(16);
    PaddedBlock(v, [], 16);
    var p := Zeros(15) + [1];
    Whole(v, p, p);
    forall j: nat | j < 15 ensures p[j] == 0 {
      ZerosAre(15, j);
    }
  }

  lemma BitBlocks(v: seq<Byte>)
    requires |v| == 16
    ensures Network(v, 7) == Network(Padded([0xFC], 16), 7) <==> v[0] == 0xFC || v[0] == 0xFD
    ensures Network(v, 10) == Network(Padded([0xFE, 0x80], 16), 10) <==> v[0] == 0xFE && 0x80 <= v[1] < 0xC0
    ensures Network(v, 23) == Network(Padded([0x20, 0x01], 16), 23) <==> v[0] == 0x20 && v[1] == 0x01 && v[2] < 2
    ensures Network(v, 20) == Network(Padded([0x3F, 0xFF], 16), 20) <==> v[0] == 0x3F && v[1] == 0xFF && v[2] < 16
  {
    Powers();
    PaddedAt([0xFC], 16, 0);
    PaddedBits(v, [0xFC], [], 7);
    PaddedBits(v, [0xFE, 0x80], [0xFE], 2);
    PaddedAt([0x20, 0x01], 16, 2);
    PaddedBits(v, [0x20, 0x01], [0x20, 0x01], 7);
    PaddedAt([0x3F, 0xFF], 16, 2);
    PaddedBits(v, [0x3F, 0xFF], [0x3F, 0xFF], 4);
  }

  lemma LowBlockV6(v: seq<Byte>, i: nat)
    requires |v| == 16 && i < 7
    ensures |NonPublicV6()| == 14
    ensures var b := NonPublicV6()[i]; Network(v, b.bits) == Network(b.prefix, b.bits) <==> InBlockV6(v, i)
  {
    if i < 2 {
      LastBytes(v);
    } else if i == 2 {
      PaddedBlock(v, [0x01, 0x00], 8);
    } else if i == 5 {
      PaddedBlock(v, [0xFF], 1);
    } else {
      BitBlocks(v);
    }
  }

  lemma HighBlockV6(v: seq<Byte>, i: nat)
    requires |v| == 16 && 7 <= i < 14
    ensures |NonPublicV6()| == 14
    ensures var b := NonPublicV6()[i]; Network(v, b.bits) == Network(b.prefix, b.bits) <==> InBlockV6(v, i)
  {
    if i == 7 {
      PaddedBlock(v, [0x20, 0x01, 0x0D, 0xB8], 4);
    } else if i == 8 {
      PaddedBlock(v, [0x20, 0x01, 0x00, 0x02], 6);
    } else if i == 9 {
      PaddedBlock(v, [0x00, 0x64, 0xFF, 0x9B], 12);
    } else if i == 10 {
      PaddedBlock(v, [0x00, 0x64, 0xFF, 0x9B, 0x00, 0x01], 6);
    } else if i == 11 {
      PaddedBlock(v, [0x20, 0x02], 2);
    } else if i == 12 {
      BitBlocks(v);
    } else {
      PaddedBlock(v, [0x5F, 0x00], 2);
    }
  }

  lemma BlockV6(v: seq<Byte>, i: nat)
    requires |v| == 16 && i < 14
    ensures |NonPublicV6()| == 14
    ensures var b := NonPublicV6()[i]; Network(v, b.bits) == Network(b.prefix, b.bits) <==> InBlockV6(v, i)
  {
    if i < 7 {
      LowBlockV6(v, i);
    } else {
      HighBlockV6(v, i);
    }
  }

  lemma InSomeV6Iff(v: seq<Byte>)
    requires |v| == 16
    ensures InSome(v, NonPublicV6()) <==> ReservedV6(v)
  {
    forall i: nat | i < 14
      ensures |NonPublicV6()| == 14
              && var b := NonPublicV6()[i]; (Network(v, b.bits) == Network(b.prefix, b.bits) <==> InBlockV6(v, i)) {
      BlockV6(v, i);
    }
    BlockV6(v, 0);
    assert InSome(v, NonPublicV6()) <==> exists i: nat :: i < 14 && InBlockV6(v, i);
    if ReservedV6(v) {
      var i := BlockOfV6(v);
      assert InBlockV6(v, i);
    }
  }

  lemma BlockOfV6(v: seq<Byte>) returns (i: nat)
    requires |v| == 16 && ReservedV6(v)
    ensures i < 14 && InBlockV6(v, i)
  {
    if NoBits(v, 0, 15) && v[15] <= 1 {
      i := v[15];
    } else if v[0] == 0 {
      i := if v[5] == 0 then 9 else 10;
    } else {
      i := if v[0] == 0x01 then 2 else if v[0] == 0xFE then 4 else if v[0] == 0xFF then 5
        else if v[0] == 0x20 then if v[1] == 0x02 then 11 else if v[2] < 2 then 6 else 7
        else if v[0] == 0x3F then 12 else if v[0] == 0x5F then 13 else 3;
    }
  }

  /** The address embeds an IPv4 address. */
  ghost predicate IsMapped(v: seq<Byte>)
    requires |v| == 16
  {
    NoBits(v, 0, 10) && v[10] == 0xFF && v[11] == 0xFF
  }

  lemma MappedIff(v: seq<Byte>, v4: seq<Byte>)
    requires |v| == 16 && |v4| == 4
    ensures v == Mapped(v4) <==> IsMapped(v) && v[12..] == v4
  {
    forall j: nat | j < 10 ensures Zeros(10)[j] == 0 {
      ZerosAre(10, j);
    }
    if NoBits(v, 0, 10) {
      assert v[..10] == Zeros(10);
      MappedShape(v, v4, true);
    } else {
      MappedShape(v, v4, false);
    }
  }

  /** An IPv6 address is public exactly when its bytes, or those of the IPv4 address it embeds, are not reserved. */
  lemma PublicV6Iff(v: seq<Byte>)
    requires |v| == 16
    ensures PublicV6(v) <==> if IsMapped(v) then !ReservedV4(v[12], v[13], v[14]) else !ReservedV6(v)
  {
    forall v4: seq<Byte> | |v4| == 4 ensures v == Mapped(v4) <==> IsMapped(v) && v[12..] == v4 {
      MappedIff(v, v4);
    }
    if IsMapped(v) {
      assert v == Mapped(v[12..]);
      PublicV4Iff(v[12..]);
    } else {
      InSomeV6Iff(v);
    }
  }
}
