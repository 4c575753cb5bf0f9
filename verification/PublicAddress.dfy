/** Which resolved addresses count as public, and how the text of an IPv6 address expands (RFC 4291, section 2.2). */
module PublicAddress {
  import opened Numbers
  import opened Options
  import opened AddressBlocks
  import opened Splitting

  // ----- Groups of hexadecimal digits -----

  /** A hexadecimal digit, in either case. */
  predicate IsHexDigit(c: char) {
    '0' <= c <= '9' || 'a' <= c <= 'f' || 'A' <= c <= 'F'
  }

  function HexDigit(c: char): (d: nat)
    requires IsHexDigit(c)
    ensures d < 16
  {
    if c <= '9' then (c - '0') as int else if c <= 'F' then (c - 'A') as int + 10 else (c - 'a') as int + 10
  }

  predicate IsGroup(part: string) {
    1 <= |part| <= 4 && forall i :: 0 <= i < |part| ==> IsHexDigit(part[i])
  }

  function HexValue(part: string): nat
    requires forall i :: 0 <= i < |part| ==> IsHexDigit(part[i])
  {
    if part == "" then 0 else 16 * HexValue(part[..|part| - 1]) + HexDigit(part[|part| - 1])
  }

  lemma GroupFits(part: string)
    requires IsGroup(part)
    ensures HexValue(part) < 65_536
  {
    var n := |part|;
    assert n >= 2 ==> part[..n - 1][..n - 2] == part[..n - 2];
    assert n >= 3 ==> part[..n - 2][..n - 3] == part[..n - 3];
    assert n >= 4 ==> part[..n - 3][..n - 4] == part[..n - 4];
    if n >= 2 {
      var a := part[..n - 1];
      if n >= 3 {
        var b := part[..n - 2];
        if n >= 4 {
          var c := part[..n - 3];
          assert HexValue(c) < 16;
        }
        assert HexValue(b) < 256;
      }
      assert HexValue(a) < 4096;
    }
  }

  ghost predicate AllGroups(groups: seq<string>) {
    forall i :: 0 <= i < |groups| ==> IsGroup(groups[i])
  }

  /** Two bytes for each group. */
  function GroupBytes(groups: seq<string>): (bytes: seq<Byte>)
    requires AllGroups(groups)
    ensures |bytes| == 2 * |groups|
  {
    if groups == [] then []
    else
      GroupFits(groups[|groups| - 1]);
      var v := HexValue(groups[|groups| - 1]);
      GroupBytes(groups[..|groups| - 1]) + [v / 256, v % 256]
  }

  // ----- The text of an address -----

  /** The groups separated by single colons. */
  function Colons(groups: seq<string>): string {
    if groups == [] then "" else Join(groups, ':')
  }

  /** Eight groups, or up to seven with one double colon in place of the zero groups left out. */
  ghost predicate Spells(text: string, left: seq<string>, right: seq<string>, shortened: bool) {
    && AllGroups(left) && AllGroups(right)
    && if shortened then |left| + |right| <= 7 && text == Colons(left) + "::" + Colons(right)
       else right == [] && |left| == 8 && text == Colons(left)
  }

  function Zeros(n: nat): (z: seq<Byte>)
    ensures |z| == n
  {
    if n == 0 then [] else Zeros(n - 1) + [0]
  }

  function Expansion(left: seq<string>, right: seq<string>): (bytes: seq<Byte>)
    requires AllGroups(left) && AllGroups(right) && |left| + |right| <= 8
    ensures |bytes| == 16
  {
    GroupBytes(left) + Zeros(16 - 2 * |left| - 2 * |right|) + GroupBytes(right)
  }

  // ----- Splitting at double colons -----

  predicate DoubleAt(text: string, i: int) {
    0 <= i && i + 1 < |text| && text[i] == ':' && text[i + 1] == ':'
  }

  function FirstDouble(text: string, from: nat): (at: Option<nat>)
    requires from <= |text|
    ensures at.Some? ==> from <= at.value && DoubleAt(text, at.value)
    ensures forall i :: from <= i < (if at.Some? then at.value else |text|) ==> !DoubleAt(text, i)
    decreases |text| - from
  {
    if from + 1 >= |text| then None else if DoubleAt(text, from) then Some(from) else FirstDouble(text, from + 1)
  }

  function SplitDouble(text: string): (pieces: seq<string>)
    ensures |pieces| > 0
    decreases |text|
  {
    match FirstDouble(text, 0)
    case None => [text]
    case Some(at) => [text[..at]] + SplitDouble(text[at + 2..])
  }

  predicate NoDouble(text: string) {
    forall i :: 0 <= i < |text| ==> !DoubleAt(text, i)
  }

  predicate EdgesPlain(text: string) {
    text != "" ==> text[0] != ':' && text[|text| - 1] != ':'
  }

  lemma {:induction false} ColonsPlain(groups: seq<string>)
    requires AllGroups(groups)
    ensures NoDouble(Colons(groups)) && EdgesPlain(Colons(groups)) && (groups != [] ==> Colons(groups) != "")
    decreases |groups|
  {
    if |groups| == 1 {
      assert Colons(groups) == groups[0];
    } else if |groups| > 1 {
      var rest := groups[1..];
      ColonsPlain(rest);
      var text := groups[0] + [':'] + Colons(rest);
      assert Colons(groups) == text;
      forall i | 0 <= i < |text| ensures !DoubleAt(text, i) {
        if i > |groups[0]| {
          var j := i - |groups[0]| - 1;
          assert !DoubleAt(Colons(rest), j);
          assert text[i] == Colons(rest)[j];
        }
      }
    }
  }

  lemma SplitDoubleOf(a: string, b: string)
    requires NoDouble(a) && EdgesPlain(a) && NoDouble(b)
    ensures SplitDouble(a) == [a] && SplitDouble(a + "::" + b) == [a, b]
  {
    var text := a + "::" + b;
    assert DoubleAt(text, |a|);
    forall i | 0 <= i < |a| ensures !DoubleAt(text, i) {
      assert !DoubleAt(a, i);
      assert text[i] == a[i];
    }
    assert FirstDouble(text, 0) == Some(|a|);
    assert text[..|a|] == a && text[|a| + 2..] == b;
    assert FirstDouble(b, 0) == None && SplitDouble(b) == [b];
  }

  // ----- Parsing -----

  /** The parts between single colons; none in the empty text. */
  function Parts(text: string): (parts: seq<string>)
    ensures Colons(parts) == text
  {
    if text == "" then [] else Split(text, ':')
  }

  lemma PartsOfColons(groups: seq<string>)
    requires AllGroups(groups)
    ensures Parts(Colons(groups)) == groups
  {
    if groups != [] {
      forall i | 0 <= i < |groups| ensures Plain(groups[i], ':') {
      }
      SplitJoin(groups, ':');
      ColonsPlain(groups);
    }
  }

  /** The parser's own test of a part, made on lower-cased text. */
  predicate IsLowerGroup(part: string) {
    1 <= |part| <= 4 && forall i :: 0 <= i < |part| ==> '0' <= part[i] <= '9' || 'a' <= part[i] <= 'f'
  }

  predicate NoCapital(text: string) {
    forall i :: 0 <= i < |text| ==> !('A' <= text[i] <= 'Z')
  }

  method ParseGroups(text: string) returns (bytes: Option<seq<Byte>>)
    requires forall i :: 0 <= i < |Parts(text)| ==> NoCapital(Parts(text)[i])
    ensures bytes.Some? <==> AllGroups(Parts(text))
    ensures bytes.Some? ==> bytes.value == GroupBytes(Parts(text))
  {
    var parts := Parts(text);
    var output: seq<Byte> := [];
    for i := 0 to |parts|
      invariant AllGroups(parts[..i]) && output == GroupBytes(parts[..i])
    {
      if !IsLowerGroup(parts[i]) {
        assert !IsGroup(parts[i]) by { assert NoCapital(parts[i]); }
        return None;
      }
      GroupFits(parts[i]);
      assert parts[..i + 1][..i] == parts[..i];
      var v := HexValue(parts[i]);
      output := output + [v / 256, v % 256];
    }
    assert parts[..|parts|] == parts;
    return Some(output);
  }

  // ----- Lower-casing -----

  /** No character but a capital letter lower-cases to a hexadecimal digit or a colon. */
  function LowerChar(c: char): char {
    if 'A' <= c <= 'Z' then c - 'A' + 'a' else c
  }

  function Lower(text: string): (r: string)
    ensures |r| == |text| && NoCapital(r)
    ensures forall i :: 0 <= i < |text| ==> r[i] == LowerChar(text[i])
  {
    seq(|text|, i requires 0 <= i < |text| => LowerChar(text[i]))
  }

  function LowerAll(parts: seq<string>): (r: seq<string>)
    ensures |r| == |parts| && forall i :: 0 <= i < |parts| ==> r[i] == Lower(parts[i])
  {
    seq(|parts|, i requires 0 <= i < |parts| => Lower(parts[i]))
  }

  lemma LowerFirstPart(c: char, parts: seq<string>)
    requires parts != []
    ensures LowerAll([[c] + parts[0]] + parts[1..]) == [[LowerChar(c)] + LowerAll(parts)[0]] + LowerAll(parts)[1..]
  {
    assert Lower([c] + parts[0]) == [LowerChar(c)] + Lower(parts[0]);
  }

  lemma {:induction false} LowerSplit(text: string)
    ensures Split(Lower(text), ':') == LowerAll(Split(text, ':'))
  {
    if text != "" {
      var rest := Split(text[1..], ':');
      LowerSplit(text[1..]);
      assert Lower(text)[1..] == Lower(text[1..]);
      if text[0] == ':' {
        assert LowerAll([""] + rest) == [""] + LowerAll(rest);
      } else {
        LowerFirstPart(text[0], rest);
      }
    }
  }

  lemma LowerParts(text: string)
    ensures Parts(Lower(text)) == LowerAll(Parts(text))
  {
    LowerSplit(text);
  }

  lemma {:induction false} LowerFirstDouble(text: string, from: nat)
    requires from <= |text|
    ensures FirstDouble(Lower(text), from) == FirstDouble(text, from)
    decreases |text| - from
  {
    if from + 1 < |text| {
      LowerFirstDouble(text, from + 1);
    }
  }

  lemma {:induction false} LowerSplitDouble(text: string)
    ensures SplitDouble(Lower(text)) == LowerAll(SplitDouble(text))
    decreases |text|
  {
    LowerFirstDouble(text, 0);
    match FirstDouble(text, 0) {
      case None =>
      case Some(at) =>
        LowerSplitDouble(text[at + 2..]);
        assert Lower(text)[..at] == Lower(text[..at]) && Lower(text)[at + 2..] == Lower(text[at + 2..]);
        assert LowerAll([text[..at]] + SplitDouble(text[at + 2..])) == [Lower(text[..at])]
          + LowerAll(SplitDouble(text[at + 2..]));
    }
  }

  lemma {:induction false} LowerValue(part: string)
    requires forall i :: 0 <= i < |part| ==> IsHexDigit(part[i])
    ensures forall i :: 0 <= i < |part| ==> IsHexDigit(Lower(part)[i])
    ensures HexValue(Lower(part)) == HexValue(part)
  {
    if part != "" {
      var front := part[..|part| - 1];
      LowerValue(front);
      assert Lower(part)[..|part| - 1] == Lower(front);
    }
  }

  lemma LowerGroup(part: string)
    ensures IsGroup(Lower(part)) <==> IsGroup(part)
  {
    if IsGroup(Lower(part)) {
      forall i | 0 <= i < |part| ensures IsHexDigit(part[i]) {
        assert IsHexDigit(Lower(part)[i]);
      }
    }
  }

  lemma {:induction false} LowerGroups(groups: seq<string>)
    ensures AllGroups(LowerAll(groups)) <==> AllGroups(groups)
    ensures AllGroups(groups) ==> GroupBytes(LowerAll(groups)) == GroupBytes(groups)
  {
    forall i | 0 <= i < |groups| ensures IsGroup(LowerAll(groups)[i]) <==> IsGroup(groups[i]) {
      LowerGroup(groups[i]);
    }
    if groups != [] && AllGroups(groups) {
      var front := groups[..|groups| - 1];
      LowerGroups(front);
      LowerValue(groups[|groups| - 1]);
      assert LowerAll(groups)[..|groups| - 1] == LowerAll(front);
    }
  }

  /** Lower-casing a text lower-cases the groups read from it, and changes no byte of its expansion. */
  lemma ReadsLower(text: string, left: seq<string>, right: seq<string>, shortened: bool)
    requires left == Parts(SplitDouble(text)[0])
    requires right == if shortened && |SplitDouble(text)| == 2 then Parts(SplitDouble(text)[1]) else []
    ensures Reads(Lower(text), LowerAll(left), LowerAll(right), shortened) <==> Reads(text, left, right, shortened)
    ensures Reads(text, left, right, shortened) ==> Expansion(LowerAll(left), LowerAll(right)) == Expansion(left, right)
  {
    LowerSplitDouble(text);
    LowerParts(SplitDouble(text)[0]);
    if |SplitDouble(text)| == 2 { LowerParts(SplitDouble(text)[1]); }
    LowerGroups(left);
    LowerGroups(right);
  }

  /** What the parser finds in a text: the parts before and after the double colon, if there is one. */
  ghost predicate Reads(text: string, left: seq<string>, right: seq<string>, shortened: bool) {
    var pieces := SplitDouble(text);
    && |pieces| == (if shortened then 2 else 1)
    && left == Parts(pieces[0]) && right == (if shortened then Parts(pieces[1]) else [])
    && AllGroups(left) && AllGroups(right)
    && if shortened then |left| + |right| <= 7 else |left| == 8
  }

  /** The parser's reading is the grammar's. */
  lemma ReadsIffSpells(text: string, left: seq<string>, right: seq<string>, shortened: bool)
    ensures Reads(text, left, right, shortened) <==> Spells(text, left, right, shortened)
  {
    if Spells(text, left, right, shortened) {
      ColonsPlain(left);
      ColonsPlain(right);
      SplitDoubleOf(Colons(left), Colons(right));
      PartsOfColons(left);
      PartsOfColons(right);
    }
    if Reads(text, left, right, shortened) && shortened {
      TwoPieces(text);
    }
  }

  /** Accepts exactly the texts of the grammar, in either case, and expands each to its sixteen bytes. */
  method ParseIpv6(text: string) returns (bytes: Option<seq<Byte>>)
    ensures bytes.Some? <==> exists left, right, shortened :: Spells(text, left, right, shortened)
    ensures bytes.Some? ==> |bytes.value| == 16
    ensures bytes.Some? ==> forall left, right, shortened :: Spells(text, left, right, shortened) ==>
        bytes.value == Expansion(left, right)
  {
    forall left, right, shortened ensures Reads(text, left, right, shortened) <==>
      Spells(text, left, right, shortened) {
      ReadsIffSpells(text, left, right, shortened);
    }
    forall left, right, shortened | Reads(text, left, right, shortened)
      ensures Reads(Lower(text), LowerAll(left), LowerAll(right), shortened)
      ensures Expansion(LowerAll(left), LowerAll(right)) == Expansion(left, right)
    {
      ReadsLower(text, left, right, shortened);
    }
    forall left, right, shortened | Reads(Lower(text), left, right, shortened)
      ensures exists l, r :: Reads(text, l, r, shortened)
    {
      LowerReads(text, left, right, shortened);
    }
    bytes := ParsePieces(Lower(text));
  }

  /** Whatever is read from the lower-cased text is read from the text in some case. */
  lemma LowerReads(text: string, left: seq<string>, right: seq<string>, shortened: bool)
    requires Reads(Lower(text), left, right, shortened)
    ensures exists l, r :: Reads(text, l, r, shortened)
  {
    LowerSplitDouble(text);
    var pieces := SplitDouble(text);
    var l, r := Parts(pieces[0]), if shortened then Parts(pieces[1]) else [];
    LowerParts(pieces[0]);
    if shortened { LowerParts(pieces[1]); }
    ReadsLower(text, l, r, shortened);
    assert Reads(text, l, r, shortened);
  }

  lemma {:induction false} PartsKeepNoCapital(text: string)
    requires NoCapital(text)
    ensures forall i :: 0 <= i < |Split(text, ':')| ==> NoCapital(Split(text, ':')[i])
  {
    if text != "" {
      PartsKeepNoCapital(text[1..]);
    }
  }

  lemma {:induction false} PiecesKeepNoCapital(text: string)
    requires NoCapital(text)
    ensures forall i :: 0 <= i < |SplitDouble(text)| ==> NoCapital(SplitDouble(text)[i])
    decreases |text|
  {
    if FirstDouble(text, 0).Some? {
      PiecesKeepNoCapital(text[FirstDouble(text, 0).value + 2..]);
    }
  }

  lemma WholeReads(text: string)
    requires |SplitDouble(text)| == 1 && AllGroups(Parts(SplitDouble(text)[0])) && |Parts(SplitDouble(text)[0])| == 8
    ensures var left := Parts(SplitDouble(text)[0]);
            && Reads(text, left, [], false)
            && forall l, r, shortened :: Reads(text, l, r, shortened) ==> Expansion(l, r) == GroupBytes(left)
  {
    WholeExpansion(Parts(SplitDouble(text)[0]));
  }

  lemma ShortenedReads(text: string)
    requires |SplitDouble(text)| == 2 && AllGroups(Parts(SplitDouble(text)[0]))
        && AllGroups(Parts(SplitDouble(text)[1]))
    requires |Parts(SplitDouble(text)[0])| + |Parts(SplitDouble(text)[1])| <= 7
    ensures var left, right := Parts(SplitDouble(text)[0]), Parts(SplitDouble(text)[1]);
            && Reads(text, left, right, true)
            && forall l, r, shortened :: Reads(text, l, r, shortened) ==> l == left && r == right
  {
  }

  method ParsePieces(text: string) returns (bytes: Option<seq<Byte>>)
    requires NoCapital(text)
    ensures bytes.Some? <==> exists left, right, shortened :: Reads(text, left, right, shortened)
    ensures bytes.Some? ==> |bytes.value| == 16
    ensures bytes.Some? ==> forall left, right, shortened :: Reads(text, left, right, shortened) ==>
        bytes.value == Expansion(left, right)
  {
    var pieces := SplitDouble(text);
    if |pieces| > 2 {
      return None;
    }
    PiecesKeepNoCapital(text);
    PartsKeepNoCapital(pieces[0]);
    var head := ParseGroups(pieces[0]);
    if |pieces| == 1 {
      if head.None? || |head.value| != 16 {
        return None;
      }
      WholeReads(text);
      return head;
    }
    PartsKeepNoCapital(pieces[1]);
    var tail := ParseGroups(pieces[1]);
    if head.None? || tail.None? || 16 - |head.value| - |tail.value| < 2 {
      return None;
    }
    ShortenedReads(text);
    return Some(head.value + Zeros(16 - |head.value| - |tail.value|) + tail.value);
  }

  lemma TwoPieces(text: string)
    requires |SplitDouble(text)| == 2
    ensures text == SplitDouble(text)[0] + "::" + SplitDouble(text)[1]
  {
    var at := FirstDouble(text, 0).value;
    var rest := text[at + 2..];
    assert SplitDouble(rest) == [SplitDouble(text)[1]];
    assert FirstDouble(rest, 0).None?;
    assert text == text[..at] + text[at..at + 2] + rest;
  }

  lemma WholeExpansion(left: seq<string>)
    requires AllGroups(left) && |left| == 8
    ensures Expansion(left, []) == GroupBytes(left)
  {
    assert Zeros(0) == [] && GroupBytes([]) == [];
    assert GroupBytes(left) + [] + [] == GroupBytes(left);
  }

  // ----- Public addresses -----

  datatype Block = Block(prefix: seq<Byte>, bits: nat)

  function Padded(start: seq<Byte>, length: nat): (bytes: seq<Byte>)
    requires |start| <= length
    ensures |bytes| == length
  {
    start + Zeros(length - |start|)
  }

  function NonPublicV4(): (blocks: seq<Block>)
    ensures forall i :: 0 <= i < |blocks| ==> |blocks[i].prefix| == 4 && blocks[i].bits <= 32
  {
    [Block([0, 0, 0, 0], 8), Block([10, 0, 0, 0], 8), Block([100, 64, 0, 0], 10), Block([127, 0, 0, 0], 8),
     Block([169, 254, 0, 0], 16), Block([172, 16, 0, 0], 12), Block([192, 0, 0, 0], 24), Block([192, 0, 2, 0], 24),
     Block([192, 88, 99, 0], 24), Block([192, 168, 0, 0], 16), Block([198, 18, 0, 0], 15), Block([198, 51, 100, 0], 24),
     Block([203, 0, 113, 0], 24), Block([224, 0, 0, 0], 4), Block([240, 0, 0, 0], 4)]
  }

  function NonPublicV6(): (blocks: seq<Block>)
    ensures forall i :: 0 <= i < |blocks| ==> |blocks[i].prefix| == 16 && blocks[i].bits <= 128
  {
    [Block(Zeros(16), 128), Block(Zeros(15) + [1], 128), Block(Padded([0x01, 0x00], 16), 64),
     Block(Padded([0xFC], 16), 7), Block(Padded([0xFE, 0x80], 16), 10), Block(Padded([0xFF], 16), 8),
     Block(Padded([0x20, 0x01], 16), 23), Block(Padded([0x20, 0x01, 0x0D, 0xB8], 16), 32),
     Block(Padded([0x20, 0x01, 0x00, 0x02], 16), 48), Block(Padded([0x00, 0x64, 0xFF, 0x9B], 16), 96),
     Block(Padded([0x00, 0x64, 0xFF, 0x9B, 0x00, 0x01], 16), 48), Block(Padded([0x20, 0x02], 16), 16),
     Block(Padded([0x3F, 0xFF], 16), 20), Block(Padded([0x5F, 0x00], 16), 16)]
  }

  /** The address lies in one of the blocks. */
  ghost predicate InSome(bytes: seq<Byte>, blocks: seq<Block>)
    requires forall i :: 0 <= i < |blocks| ==> |blocks[i].prefix| == |bytes| && blocks[i].bits <= 8 * |bytes|
  {
    exists i :: 0 <= i < |blocks| && Network(bytes, blocks[i].bits) == Network(blocks[i].prefix, blocks[i].bits)
  }

  method Matches(bytes: seq<Byte>, blocks: seq<Block>) returns (some: bool)
    requires forall i :: 0 <= i < |blocks| ==> |blocks[i].prefix| == |bytes| && blocks[i].bits <= 8 * |bytes|
    ensures some <==> InSome(bytes, blocks)
  {
    for i := 0 to |blocks|
      invariant forall j :: 0 <= j < i ==> Network(bytes, blocks[j].bits) != Network(blocks[j].prefix, blocks[j].bits)
    {
      var inside := HasPrefix(bytes, blocks[i].prefix, blocks[i].bits);
      if inside {
        return true;
      }
    }
    return false;
  }

  ghost predicate PublicV4(bytes: seq<Byte>)
    requires |bytes| == 4
  {
    !InSome(bytes, NonPublicV4())
  }

  /** Ten zero bytes, two bytes of ones, and an IPv4 address. */
  function Mapped(v4: seq<Byte>): (bytes: seq<Byte>)
    requires |v4| == 4
    ensures |bytes| == 16
  {
    Zeros(10) + [0xFF, 0xFF] + v4
  }

  // ----- Dotted decimal text -----

  predicate IsDecimal(c: char) {
    '0' <= c <= '9'
  }

  function DecimalDigit(c: char): (d: nat)
    requires IsDecimal(c)
    ensures d < 10
  {
    (c - '0') as int
  }

  function DigitChar(d: nat): (c: char)
    requires d < 10
    ensures IsDecimal(c) && DecimalDigit(c) == d && (c == '0' <==> d == 0)
  {
    '0' + d as char
  }

  function DecimalValue(part: string): nat
    requires forall i :: 0 <= i < |part| ==> IsDecimal(part[i])
  {
    if part == "" then 0 else 10 * DecimalValue(part[..|part| - 1]) + DecimalDigit(part[|part| - 1])
  }

  /** A number from 0 to 255 without leading zeros. */
  predicate IsOctet(part: string) {
    && 1 <= |part| <= 3 && (forall i :: 0 <= i < |part| ==> IsDecimal(part[i]))
    && (|part| > 1 ==> part[0] != '0') && DecimalValue(part) <= 255
  }

  /** The platform's test of IPv4 text. */
  predicate IsIpv4(text: string) {
    |Split(text, '.')| == 4 && forall i :: 0 <= i < 4 ==> IsOctet(Split(text, '.')[i])
  }

  function Octet(b: Byte): string {
    if b < 10 then [DigitChar(b)]
    else if b < 100 then [DigitChar(b / 10), DigitChar(b % 10)]
    else [DigitChar(b / 100), DigitChar(b / 10 % 10), DigitChar(b % 10)]
  }

  lemma DecimalAppend(part: string, c: char)
    requires (forall i :: 0 <= i < |part| ==> IsDecimal(part[i])) && IsDecimal(c)
    ensures DecimalValue(part + [c]) == 10 * DecimalValue(part) + DecimalDigit(c)
  {
    assert (part + [c])[..|part|] == part;
  }

  lemma OneDigit(c: char)
    requires IsDecimal(c)
    ensures DecimalValue([c]) == DecimalDigit(c)
  {
    DecimalAppend("", c);
    assert "" + [c] == [c];
  }

  lemma TwoDigits(c: char, d: char)
    requires IsDecimal(c) && IsDecimal(d)
    ensures DecimalValue([c, d]) == 10 * DecimalDigit(c) + DecimalDigit(d)
  {
    OneDigit(c);
    DecimalAppend([c], d);
    assert [c] + [d] == [c, d];
  }

  lemma ThreeDigits(c: char, d: char, e: char)
    requires IsDecimal(c) && IsDecimal(d) && IsDecimal(e)
    ensures DecimalValue([c, d, e]) == 100 * DecimalDigit(c) + 10 * DecimalDigit(d) + DecimalDigit(e)
  {
    TwoDigits(c, d);
    DecimalAppend([c, d], e);
    assert [c, d] + [e] == [c, d, e];
  }

  lemma ThreePlaces(h: nat, t: nat, u: nat)
    requires t < 10 && u < 10
    ensures var n := 100 * h + 10 * t + u; n / 100 == h && n / 10 % 10 == t && n % 10 == u && n / 10 == 10 * h + t
  {
    var n := 100 * h + 10 * t + u;
    assert n == 10 * (10 * h + t) + u;
    assert n / 10 == 10 * h + t;
  }

  lemma PlacesOf(b: Byte) returns (h: nat, t: nat, u: nat)
    ensures b == 100 * h + 10 * t + u && h < 3 && t < 10 && u < 10
    ensures b / 100 == h && b / 10 % 10 == t && b % 10 == u && b / 10 == 10 * h + t
  {
    h, t, u := b / 100, b % 100 / 10, b % 10;
    assert b % 100 == 10 * t + b % 100 % 10 && b % 100 % 10 == u;
    ThreePlaces(h, t, u);
  }

  lemma OctetReads(b: Byte)
    ensures IsOctet(Octet(b)) && DecimalValue(Octet(b)) == b
  {
    var h, t, u := PlacesOf(b);
    if b < 10 {
      OneDigit(DigitChar(b));
    } else if b < 100 {
      TwoDigits(DigitChar(t), DigitChar(u));
    } else {
      ThreeDigits(DigitChar(h), DigitChar(t), DigitChar(u));
    }
  }

  lemma DigitUnique(c: char)
    requires IsDecimal(c)
    ensures DigitChar(DecimalDigit(c)) == c
  {
  }

  lemma OctetOf(h: nat, t: nat, u: nat)
    requires t < 10 && u < 10 && 100 * h + 10 * t + u <= 255
    ensures Octet(100 * h + 10 * t + u)
         == if h > 0 then [DigitChar(h), DigitChar(t), DigitChar(u)] else if t > 0 then [DigitChar(t), DigitChar(u)]
           else [DigitChar(u)]
  {
    ThreePlaces(h, t, u);
  }

  lemma OctetUnique(part: string)
    requires IsOctet(part)
    ensures Octet(DecimalValue(part)) == part
  {
    var c := DecimalDigit(part[0]);
    DigitUnique(part[0]);
    if |part| == 1 {
      assert part == [part[0]];
      OneDigit(part[0]);
      OctetOf(0, 0, c);
    } else if |part| == 2 {
      assert part == [part[0], part[1]];
      DigitUnique(part[1]);
      TwoDigits(part[0], part[1]);
      OctetOf(0, c, DecimalDigit(part[1]));
    } else {
      assert part == [part[0], part[1], part[2]];
      DigitUnique(part[1]);
      DigitUnique(part[2]);
      ThreeDigits(part[0], part[1], part[2]);
      OctetOf(c, DecimalDigit(part[1]), DecimalDigit(part[2]));
    }
  }

  /** The dotted text of four bytes. */
  function Dotted(v4: seq<Byte>): string
    requires |v4| == 4
  {
    Join([Octet(v4[0]), Octet(v4[1]), Octet(v4[2]), Octet(v4[3])], '.')
  }

  lemma DottedSplits(v4: seq<Byte>)
    requires |v4| == 4
    ensures Split(Dotted(v4), '.') == [Octet(v4[0]), Octet(v4[1]), Octet(v4[2]), Octet(v4[3])] && IsIpv4(Dotted(v4))
  {
    forall i | 0 <= i < 4 ensures IsOctet(Octet(v4[i])) && DecimalValue(Octet(v4[i])) == v4[i] {
      OctetReads(v4[i]);
    }
    SplitJoin([Octet(v4[0]), Octet(v4[1]), Octet(v4[2]), Octet(v4[3])], '.');
  }

  lemma DottedUnique(a: seq<Byte>, b: seq<Byte>)
    requires |a| == 4 && |b| == 4 && Dotted(a) == Dotted(b)
    ensures a == b
  {
    DottedSplits(a);
    DottedSplits(b);
    forall i | 0 <= i < 4 ensures a[i] == b[i] {
      OctetReads(a[i]);
      OctetReads(b[i]);
    }
  }

  /** Reads IPv4 text that has passed the platform's test: the four bytes whose dotted text it is. */
  method ParseIpv4(text: string) returns (bytes: seq<Byte>)
    requires IsIpv4(text)
    ensures |bytes| == 4 && text == Dotted(bytes)
  {
    var parts := Split(text, '.');
    forall i | 0 <= i < 4 ensures Octet(DecimalValue(parts[i])) == parts[i] {
      OctetUnique(parts[i]);
    }
    bytes := [DecimalValue(parts[0]), DecimalValue(parts[1]), DecimalValue(parts[2]), DecimalValue(parts[3])];
    assert parts == [parts[0], parts[1], parts[2], parts[3]];
  }

  // ----- Text and family -----

  datatype Family = V4 | V6

  /** The platform's `isIP`; `isIpv6` is its test of IPv6 text. */
  function IsIp(text: string, isIpv6: string -> bool): Option<Family> {
    if IsIpv4(text) then Some(V4) else if isIpv6(text) then Some(V6) else None
  }

  /** Public, for sixteen bytes: the embedded address decides when there is one. */
  ghost predicate PublicV6(bytes: seq<Byte>)
    requires |bytes| == 16
  {
    if exists v4 :: |v4| == 4 && bytes == Mapped(v4) then forall v4 :: |v4| == 4 && bytes == Mapped(v4) ==> PublicV4(v4)
    else !InSome(bytes, NonPublicV6())
  }

  ghost predicate SpellsPublicV6(text: string, left: seq<string>, right: seq<string>, shortened: bool) {
    Spells(text, left, right, shortened) && PublicV6(Expansion(left, right))
  }

  lemma DottedParses(v4: seq<Byte>)
    requires |v4| == 4
    ensures IsIpv4(Dotted(v4)) && (forall b :: |b| == 4 && Dotted(b) == Dotted(v4) ==> b == v4)
  {
    DottedSplits(v4);
    forall b: seq<Byte> | |b| == 4 && Dotted(b) == Dotted(v4) ensures b == v4 {
      DottedUnique(b, v4);
    }
  }

  ghost predicate DottedPublicV4(text: string, v4: seq<Byte>) {
    |v4| == 4 && text == Dotted(v4) && PublicV4(v4)
  }

  /** The ten zero bytes and two bytes of ones, and what follows them. */
  method Ipv4Mapped(bytes: seq<Byte>) returns (v4: Option<seq<Byte>>)
    requires |bytes| == 16
    ensures v4.Some? ==> |v4.value| == 4 && bytes == Mapped(v4.value)
    ensures v4.None? ==> forall b :: |b| == 4 ==> bytes != Mapped(b)
  {
    var mapped := true;
    for i := 0 to 10
      invariant mapped ==> bytes[..i] == Zeros(i)
      invariant !mapped ==> exists j :: 0 <= j < 10 && bytes[j] != 0
    {
      if bytes[i] != 0 {
        mapped := false;
      }
      assert bytes[..i + 1] == bytes[..i] + [bytes[i]];
    }
    forall b: seq<Byte> | |b| == 4
      ensures bytes == Mapped(b) <==> mapped && bytes[10] == 0xFF && bytes[11] == 0xFF && bytes[12..] == b
    {
      MappedShape(bytes, b, mapped);
    }
    if mapped && bytes[10] == 0xFF && bytes[11] == 0xFF {
      return Some(bytes[12..]);
    }
    return None;
  }

  lemma MappedUnique(a: seq<Byte>, b: seq<Byte>)
    requires |a| == 4 && |b| == 4 && Mapped(a) == Mapped(b)
    ensures a == b
  {
    assert Mapped(a)[12..] == a && Mapped(b)[12..] == b;
  }

  lemma V6Verdict(address: string, bytes: seq<Byte>)
    requires |bytes| == 16 && exists left, right, shortened :: Spells(address, left, right, shortened)
    requires forall left, right, shortened :: Spells(address, left, right, shortened) ==>
        bytes == Expansion(left, right)
    ensures PublicV6(bytes) <==> exists left, right, shortened :: SpellsPublicV6(address, left, right, shortened)
  {
    var left, right, shortened :| Spells(address, left, right, shortened);
    assert PublicV6(bytes) ==> SpellsPublicV6(address, left, right, shortened);
  }

  lemma V4Verdict(address: string, v4: seq<Byte>)
    requires |v4| == 4 && address == Dotted(v4)
    ensures PublicV4(v4) <==> exists b :: DottedPublicV4(address, b)
  {
    DottedParses(v4);
    assert PublicV4(v4) ==> DottedPublicV4(address, v4);
  }

  lemma DottedPublicIsV4(address: string)
    ensures (exists v4 :: DottedPublicV4(address, v4)) ==> IsIpv4(address)
  {
    forall v4 | DottedPublicV4(address, v4) ensures IsIpv4(address) {
      DottedSplits(v4);
    }
  }

  lemma MappedVerdict(bytes: seq<Byte>, v4: seq<Byte>)
    requires |bytes| == 16 && |v4| == 4 && bytes == Mapped(v4)
    ensures PublicV6(bytes) <==> PublicV4(v4)
  {
    assert exists b :: |b| == 4 && bytes == Mapped(b);
    forall b: seq<Byte> | |b| == 4 && bytes == Mapped(b) ensures PublicV4(b) <==> PublicV4(v4) {
      MappedUnique(b, v4);
    }
  }

  /**
    * Public exactly when the text is an address of the stated family outside every reserved block; for an IPv4-mapped
    * address, exactly when the embedded IPv4 address is, which is asked about by its dotted text.
    */
  method IsPublicAddress(address: string, family: Family, isIpv6: string -> bool) returns (public: bool)
    ensures family.V4? ==> (public <==> exists v4 :: DottedPublicV4(address, v4))
    ensures family.V6? ==>
      (public <==> IsIp(address, isIpv6) == Some(V6)
                   && exists left, right, shortened :: SpellsPublicV6(address, left, right, shortened))
    decreases if family.V6? then 2 else 0
  {
    DottedPublicIsV4(address);
    if IsIp(address, isIpv6) != Some(family) {
      return false;
    }
    if family.V4? {
      var bytes := ParseIpv4(address);
      V4Verdict(address, bytes);
      var inside := Matches(bytes, NonPublicV4());
      return !inside;
    }
    var parsed := ParseIpv6(address);
    if parsed.None? {
      return false;
    }
    V6Verdict(address, parsed.value);
    public := IsPublicV6(parsed.value, isIpv6);
  }

  method IsPublicV6(bytes: seq<Byte>, isIpv6: string -> bool) returns (public: bool)
    requires |bytes| == 16
    ensures public <==> PublicV6(bytes)
    decreases 1
  {
    var mapped := Ipv4Mapped(bytes);
    if mapped.Some? {
      V4Verdict(Dotted(mapped.value), mapped.value);
      MappedVerdict(bytes, mapped.value);
      public := IsPublicAddress(Dotted(mapped.value), V4, isIpv6);
    } else {
      var inside := Matches(bytes, NonPublicV6());
      public := !inside;
    }
  }

  lemma {:induction false} ZerosAre(n: nat, i: nat)
    requires i < n
    ensures Zeros(n)[i] == 0
  {
    if i < n - 1 {
      ZerosAre(n - 1, i);
    }
  }

  lemma MappedShape(bytes: seq<Byte>, v4: seq<Byte>, zeros: bool)
    requires |bytes| == 16 && |v4| == 4
    requires if zeros then bytes[..10] == Zeros(10) else exists j :: 0 <= j < 10 && bytes[j] != 0
    ensures bytes == Mapped(v4) <==> zeros && bytes[10] == 0xFF && bytes[11] == 0xFF && bytes[12..] == v4
  {
    if zeros {
      assert bytes == bytes[..10] + [bytes[10], bytes[11]] + bytes[12..];
    } else {
      var j :| 0 <= j < 10 && bytes[j] != 0;
      ZerosAre(10, j);
      assert Mapped(v4)[j] == Zeros(10)[j];
    }
  }
}
