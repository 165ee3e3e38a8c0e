/**
 * The DER elements ssl_asn1.cc is made of: CBB_add_asn1 and CBS_get_asn1 with their
 * relatives (cbb.c, cbs.c; ITU-T X.690, sections 8.1 and 10.1).
 */
module Der {
  import opened Bits
  import opened Bytes

  datatype Option<+T> = None | Some(value: T)

  const INTEGER: byte := 0x02
  const BOOLEAN: byte := 0x01
  const OCTET_STRING: byte := 0x04
  const SEQUENCE: byte := 0x30
  const MAX_CONTENTS: nat := 0xFFFF_FFFE

  // ---------------------------------------------------------------- writing

  /** The definite length CBB_flush writes in front of the contents. */
  function LenBytes(n: nat): seq<byte> {
    if n < 0x80 then [n]
    else if n < 0x100 then [0x81, n]
    else if n < 0x1_0000 then [0x82, n / 0x100, n % 0x100]
    else if n < 0x100_0000 then [0x83, n / 0x1_0000, n / 0x100 % 0x100, n % 0x100]
    else [0x84, n / 0x100_0000 % 0x100, n / 0x1_0000 % 0x100, n / 0x100 % 0x100, n % 0x100]
  }

  function Tlv(tag: byte, contents: seq<byte>): (b: seq<byte>)
    ensures |b| > |contents| && b[0] == tag
  {
    [tag] + LenBytes(|contents|) + contents
  }

  /** The bytes of a number without leading zeros. */
  function Minimal(n: nat): (b: seq<byte>)
    ensures b != [] && BigEndian(b) == n
  {
    if n < 0x100 then
      assert [n][..0] == [];
      [n]
    else
      assert (Minimal(n / 0x100) + [n % 0x100])[..|Minimal(n / 0x100)|] == Minimal(n / 0x100);
      Minimal(n / 0x100) + [n % 0x100]
  }

  /** The contents of a nonnegative INTEGER: padded so that the first bit is clear. */
  function UintContents(n: nat): (b: seq<byte>)
    ensures b != [] && b[0] < 0x80
  {
    if Minimal(n)[0] >= 0x80 then [0] + Minimal(n) else Minimal(n)
  }

  function EncUint(n: nat): seq<byte> {
    Tlv(INTEGER, UintContents(n))
  }

  function EncOctets(b: seq<byte>): seq<byte> {
    Tlv(OCTET_STRING, b)
  }

  function EncBool(v: bool): seq<byte> {
    Tlv(BOOLEAN, [if v then 0xFF else 0])
  }

  // ---------------------------------------------------------------- reading

  /** The class and constructed bits of an identifier, and its tag number. */
  datatype Tag = Tag(bits: nat, number: nat)

  /** A tag in low tag number form. */
  function Low(tag: byte): Tag {
    Tag(tag / 0x20, tag % 0x20)
  }

  /** parse_base128_integer */
  function Base128(b: seq<byte>, v: nat): (r: Option<(nat, seq<byte>)>)
    ensures r.Some? ==> |r.value.1| < |b|
  {
    if b == [] || v >= 0x200_0000_0000_0000 || (v == 0 && b[0] == 0x80) then None
    else
      var w := 0x80 * v + b[0] % 0x80;
      if b[0] >= 0x80 then Base128(b[1..], w) else Some((w, b[1..]))
  }

  /** parse_asn1_tag */
  function ParseTag(b: seq<byte>): (r: Option<(Tag, seq<byte>)>)
    ensures r.Some? ==> |r.value.1| < |b|
  {
    if b == [] then None
    else if b[0] % 0x20 != 0x1F then Some((Low(b[0]), b[1..]))
    else
      match Base128(b[1..], 0)
      case None => None
      case Some((v, rest)) => if v > 0x1FFF_FFFF || v < 0x1F then None else Some((Tag(b[0] / 0x20, v), rest))
  }

  /** An element cut off the front: its tag, its contents, all its bytes, and what follows. */
  datatype Element = Element(tag: Tag, contents: seq<byte>, whole: seq<byte>, rest: seq<byte>)

  /** CBS_get_any_asn1_element, DER only. */
  function GetElement(b: seq<byte>): (r: Option<Element>)
    ensures r.Some? ==> r.value.whole + r.value.rest == b && |r.value.rest| < |b|
  {
    match ParseTag(b)
    case None => None
    case Some((tag, r1)) =>
      if r1 == [] then None
      else
        var start := |b| - |r1| + 1;
        if r1[0] < 0x80 then CutElement(b, tag, start, r1[0])
        else
          var n := r1[0] - 0x80;
          if n == 0 || n > 4 || |r1| < 1 + n then None
          else
            var len := BigEndian(r1[1..1 + n]);
            if len < 0x80 || len < Shl(1, 8 * (n - 1)) then None else CutElement(b, tag, start + n, len)
  }

  function CutElement(b: seq<byte>, tag: Tag, start: nat, len: nat): (r: Option<Element>)
    requires 0 < start <= |b|
    ensures r.Some? ==> r.value.whole + r.value.rest == b && |r.value.rest| < |b|
  {
    if |b| < start + len then None
    else Some(Element(tag, b[start..start + len], b[..start + len], b[start + len..]))
  }

  /** A value read and the bytes that follow. */
  datatype Read<T> = Fail | Got(value: T, rest: seq<byte>)

  /** CBS_get_asn1 */
  function GetAsn1(b: seq<byte>, tag: byte): Read<seq<byte>> {
    match GetElement(b)
    case None => Fail
    case Some(e) => if e.tag == Low(tag) then Got(e.contents, e.rest) else Fail
  }

  /** CBS_peek_asn1_tag */
  predicate Peek(b: seq<byte>, tag: byte) {
    ParseTag(b).Some? && ParseTag(b).value.0 == Low(tag)
  }

  /** CBS_get_optional_asn1 */
  function GetOptional(b: seq<byte>, tag: byte): Read<Option<seq<byte>>> {
    if !Peek(b, tag) then Got(None, b)
    else
      match GetAsn1(b, tag)
      case Fail => Fail
      case Got(c, rest) => Got(Some(c), rest)
  }

  /** The value of INTEGER contents, if it is a minimal nonnegative number of at most 64 bits. */
  function UintValue(c: seq<byte>): Option<nat> {
    if c == [] || c[0] >= 0x80 || (c[0] == 0 && |c| > 1 && c[1] < 0x80) || BigEndian(c) >= TWO_64 then None
    else Some(BigEndian(c))
  }

  /** CBS_get_asn1_uint64 */
  function GetUint(b: seq<byte>): Read<nat> {
    match GetAsn1(b, INTEGER)
    case Fail => Fail
    case Got(c, rest) =>
      match UintValue(c)
      case None => Fail
      case Some(n) => Got(n, rest)
  }

  // ---------------------------------------------------------------- reading back

  lemma ByteWeights()
    ensures Shl(1, 0) == 1 && Shl(1, 8) == 0x100 && Shl(1, 16) == 0x1_0000 && Shl(1, 24) == 0x100_0000
  {
    hide Shl;
    Weights();
    ShlByEight(1);
    ShlShl(1, 8, 8);
    ShlByEight(Shl(1, 8));
    ShlShl(1, 16, 8);
    ShlByEight(Shl(1, 16));
    WeightsStep();
  }

  /** The number of up to four bytes. */
  lemma NumberOf(c: seq<byte>)
    requires 1 <= |c| <= 4
    ensures |c| == 1 ==> BigEndian(c) == c[0]
    ensures |c| == 2 ==> BigEndian(c) == 0x100 * (c[0] as int) + c[1]
    ensures |c| == 3 ==> BigEndian(c) == 0x1_0000 * (c[0] as int) + 0x100 * (c[1] as int) + c[2]
    ensures |c| == 4 ==> BigEndian(c) == 0x100_0000 * (c[0] as int) + 0x1_0000 * (c[1] as int) + 0x100 * (c[2] as int) + c[3]
  {
    hide BigEndian;
    BigEndianNone();
    assert c[..0] == [] && c[..|c|] == c;
    BigEndianStep(c, 0);
    if |c| > 1 { BigEndianStep(c, 1); }
    if |c| > 2 { BigEndianStep(c, 2); }
    if |c| > 3 { BigEndianStep(c, 3); }
  }

  lemma LenReads(n: nat)
    requires 0x80 <= n <= MAX_CONTENTS
    ensures var l := LenBytes(n); var k := |l| - 1;
            && 1 <= k <= 4 && l[0] == 0x80 + k && BigEndian(l[1..]) == n && Shl(1, 8 * (k - 1)) <= n
  {
    hide BigEndian, Shl;
    ByteWeights();
    var l := LenBytes(n);
    NumberOf(l[1..]);
    if n < 0x100 {
      assert l == [0x81, n];
    } else if n < 0x1_0000 {
      assert l == [0x82, n / 0x100, n % 0x100];
    } else if n < 0x100_0000 {
      assert l == [0x83, n / 0x1_0000, n / 0x100 % 0x100, n % 0x100];
      ThreeBytes(n);
    } else {
      assert l == [0x84, n / 0x100_0000 % 0x100, n / 0x1_0000 % 0x100, n / 0x100 % 0x100, n % 0x100];
      FourBytes(n);
    }
  }

  lemma ThreeBytes(n: nat)
    ensures n == 0x1_0000 * (n / 0x1_0000) + 0x100 * (n / 0x100 % 0x100) + n % 0x100
  {
  }

  lemma FourBytes(n: nat)
    requires n < 0x1_0000_0000
    ensures n == 0x100_0000 * (n / 0x100_0000 % 0x100) + 0x1_0000 * (n / 0x1_0000 % 0x100) + 0x100 * (n / 0x100 % 0x100) + n % 0x100
  {
  }

  /** An element is read back as it was written, whatever follows. */
  lemma TlvReads(tag: byte, c: seq<byte>, t: seq<byte>)
    requires tag % 0x20 != 0x1F && |c| <= MAX_CONTENTS
    ensures GetElement(Tlv(tag, c) + t) == Some(Element(Low(tag), c, Tlv(tag, c), t))
    ensures GetAsn1(Tlv(tag, c) + t, tag) == Got(c, t)
    ensures Peek(Tlv(tag, c) + t, tag)
  {
    hide BigEndian, Shl, LenBytes;
    var b, l := Tlv(tag, c) + t, LenBytes(|c|);
    var r1 := b[1..];
    assert r1 == l + c + t;
    var start := 1 + |l|;
    assert b[..start + |c|] == Tlv(tag, c) && b[start + |c|..] == t && b[start..start + |c|] == c;
    if |c| < 0x80 {
      ShortLen(|c|);
    } else {
      LenReads(|c|);
      assert r1[1..|l|] == l[1..];
    }
  }

  lemma ShortLen(n: nat)
    requires n < 0x80
    ensures LenBytes(n) == [n]
  {
  }

  /** Only the tag an element was written with is seen there. */
  lemma OtherTag(b: seq<byte>, tag: byte)
    requires b == [] || (b[0] % 0x20 != 0x1F && b[0] != tag)
    ensures !Peek(b, tag) && GetOptional(b, tag) == Got(None, b)
  {
  }

  lemma {:induction false} MinimalHead(n: nat)
    requires n > 0
    ensures Minimal(n)[0] > 0
  {
    if n >= 0x100 { MinimalHead(n / 0x100); }
  }

  /** Integers of 64 bits are read back. */
  lemma UintReads(n: nat, t: seq<byte>)
    requires n < TWO_64
    ensures GetUint(EncUint(n) + t) == Got(n, t)
  {
    hide GetElement, LenBytes, BigEndian;
    var m, c := Minimal(n), UintContents(n);
    MinimalShort(n);
    TlvReads(INTEGER, c, t);
    BigEndianJoin([0], m);
    ZeroByte();
    ShlZero(8 * |m|);
    if n > 0 { MinimalHead(n); }
    assert n == 0 ==> m == [0];
  }

  lemma ZeroByte()
    ensures BigEndian([0]) == 0
  {
    assert [0 as byte][..0] == [];
  }

  lemma {:induction false} MinimalLength(n: nat, k: nat)
    requires n < Shl(1, 8 * k) && k > 0
    ensures |Minimal(n)| <= k
    decreases k
  {
    if n >= 0x100 {
      ShlShl(1, 8 * (k - 1), 8);
      ShlByEight(Shl(1, 8 * (k - 1)));
      if k == 1 { ShlByEight(1); }
      MinimalLength(n / 0x100, k - 1);
    }
  }

  lemma MinimalShort(n: nat)
    requires n < TWO_64
    ensures |Minimal(n)| <= 8
  {
    Weights();
    MinimalLength(n, 8);
  }
}
