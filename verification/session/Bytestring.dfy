/** CBS and CBB: reading from the front of a byte string, and appending to a buffer (cbs.c, cbb.c). */
module Bytestring {
  import opened Bits
  import opened Bytes
  import opened Der

  /** CBS: what is left to read. */
  class Cbs {
    var data: seq<byte>

    constructor (b: seq<byte>)
      ensures data == b
    {
      data := b;
    }

    /** CBS_get_u8 */
    method GetU8() returns (ok: bool, b: byte)
      modifies this
      ensures ok <==> old(data) != []
      ensures ok ==> b == old(data)[0] && data == old(data)[1..]
      ensures !ok ==> data == old(data)
    {
      if data == [] {
        return false, 0;
      }
      b := data[0];
      data := data[1..];
      return true, b;
    }

    /** CBS_get_bytes */
    method GetBytes(n: nat) returns (ok: bool, b: seq<byte>)
      modifies this
      ensures ok <==> n <= |old(data)|
      ensures ok ==> b == old(data)[..n] && data == old(data)[n..]
      ensures !ok ==> data == old(data)
    {
      if |data| < n {
        return false, [];
      }
      b := data[..n];
      data := data[n..];
      return true, b;
    }

    /** parse_base128_integer */
    method GetBase128() returns (ok: bool, v: nat)
      modifies this
      ensures var r := Base128(old(data), 0); (ok <==> r.Some?) && (ok ==> r.value == (v, data))
    {
      ghost var was := data;
      v := 0;
      var b: byte := 0x80;
      while b >= 0x80
        invariant b >= 0x80 ==> Base128(was, 0) == Base128(data, v)
        invariant b < 0x80 ==> Base128(was, 0) == Some((v, data))
        decreases |data|, b
      {
        ok, b := GetU8();
        if !ok || v >= 0x200_0000_0000_0000 || (v == 0 && b == 0x80) {
          return false, v;
        }
        v := 0x80 * v + b % 0x80;
      }
      return true, v;
    }

    /** parse_asn1_tag */
    method GetTag() returns (ok: bool, tag: Tag)
      modifies this
      ensures var r := ParseTag(old(data)); (ok <==> r.Some?) && (ok ==> r.value == (tag, data))
    {
      hide Base128;
      tag := Tag(0, 0);
      var b, v;
      ok, b := GetU8();
      if !ok {
        return;
      }
      if b % 0x20 != 0x1F {
        return true, Low(b);
      }
      ok, v := GetBase128();
      if !ok || v > 0x1FFF_FFFF || v < 0x1F {
        return false, tag;
      }
      return true, Tag(b / 0x20, v);
    }

    /** CBS_get_any_asn1_element, and the header length as the contents. */
    method GetAnyElement() returns (ok: bool, e: Element)
      modifies this
      ensures var r := GetElement(old(data)); (ok <==> r.Some?) && (ok ==> r.value == e && data == e.rest)
    {
      hide ParseTag, BigEndian, Shl;
      ghost var was := data;
      e := Element(Tag(0, 0), [], [], []);
      var header := new Cbs(data);
      var tag, lengthByte, bytes;
      ok, tag := header.GetTag();
      if !ok {
        return;
      }
      ghost var r1 := header.data;
      ok, lengthByte := header.GetU8();
      if !ok {
        return;
      }
      var headerLen := |data| - |header.data|;
      var len := lengthByte;
      if lengthByte >= 0x80 {
        var numBytes := lengthByte % 0x80;
        if numBytes == 0 || numBytes > 4 {
          return false, e;
        }
        ok, bytes := header.GetBytes(numBytes);
        if !ok {
          return;
        }
        assert bytes == r1[1..1 + numBytes];
        var len32 := Number(bytes);
        if len32 < 0x80 || len32 < Shl(1, 8 * (numBytes - 1)) {
          return false, e;
        }
        headerLen := headerLen + numBytes;
        ok, bytes := GetBytes(headerLen + len32);
      } else {
        ok, bytes := GetBytes(headerLen + lengthByte);
      }
      if ok {
        assert bytes[headerLen..] == was[headerLen..|bytes|];
        e := Element(tag, bytes[headerLen..], bytes, data);
      }
    }

    /** CBS_get_asn1 */
    method GetTagged(tag: byte) returns (ok: bool, contents: seq<byte>)
      modifies this
      ensures var r := GetAsn1(old(data), tag); (ok <==> r.Got?) && (ok ==> contents == r.value && data == r.rest)
    {
      hide GetElement;
      var e;
      ok, e := GetAnyElement();
      if !ok || e.tag != Low(tag) {
        return false, [];
      }
      return true, e.contents;
    }

    /** CBS_peek_asn1_tag */
    method PeekTag(tag: byte) returns (yes: bool)
      ensures yes <==> Peek(data, tag)
    {
      hide ParseTag;
      var copy := new Cbs(data);
      var ok, actual := copy.GetTag();
      return ok && actual == Low(tag);
    }

    /** CBS_get_optional_asn1 */
    method GetOptionalTagged(tag: byte) returns (ok: bool, contents: Option<seq<byte>>)
      modifies this
      ensures var r := GetOptional(old(data), tag); (ok <==> r.Got?) && (ok ==> contents == r.value && data == r.rest)
    {
      hide GetAsn1, Peek;
      var present := PeekTag(tag);
      if !present {
        return true, None;
      }
      var c;
      ok, c := GetTagged(tag);
      return ok, if ok then Some(c) else None;
    }

    /** CBS_get_asn1_uint64 */
    method GetUint64() returns (ok: bool, n: nat)
      modifies this
      ensures var r := GetUint(old(data)); (ok <==> r.Got?) && (ok ==> n == r.value && data == r.rest)
    {
      hide GetAsn1, BigEndian, Or;
      n := 0;
      var bytes;
      ok, bytes := GetTagged(INTEGER);
      if !ok {
        return;
      }
      if bytes == [] || bytes[0] >= 0x80 || (bytes[0] == 0 && |bytes| > 1 && bytes[1] < 0x80) {
        return false, 0;
      }
      BigEndianNone();
      assert bytes[..0] == [];
      ghost var rest := data;
      for i := 0 to |bytes|
        invariant data == rest
        invariant n == BigEndian(bytes[..i]) < TWO_64
      {
        if n >= 0x100_0000_0000_0000 {
          TooLarge(bytes, i);
          return false, 0;
        }
        BigEndianStep(bytes, i);
        ShlByEight(n);
        ShlByEight(1);
        OrDisjoint(bytes[i], n, 8);
        n := Or(bytes[i], Shl64(n, 8));
      }
      assert bytes[..|bytes|] == bytes;
      return true, n;
    }
  }

  /** A prefix of 2^56 or more, followed by another byte, is a number of more than 64 bits. */
  lemma {:induction false} TooLarge(b: seq<byte>, i: nat)
    requires i < |b| && BigEndian(b[..i]) >= 0x100_0000_0000_0000
    ensures BigEndian(b) >= TWO_64
    decreases |b|
  {
    hide BigEndian;
    BigEndianStep(b, |b| - 1);
    assert b[..|b|] == b;
    if i < |b| - 1 {
      var front := b[..|b| - 1];
      assert front[..i] == b[..i];
      TooLarge(front, i);
    }
  }

  /** cbs_get_u: up to four bytes as a number. */
  method Number(b: seq<byte>) returns (n: nat)
    requires |b| <= 4
    ensures n == BigEndian(b)
  {
    n := 0;
    for i := 0 to |b|
      invariant n == BigEndian(b[..i])
    {
      BigEndianStep(b, i);
      n := 0x100 * n + b[i];
    }
    assert b[..|b|] == b;
  }

  /** CBB: a growing buffer, whose child elements are finished before the next is added. */
  class Cbb {
    var data: seq<byte>

    constructor ()
      ensures data == []
    {
      data := [];
    }

    /** CBB_add_asn1 for a child with these contents, flushed. */
    method AddAsn1(tag: byte, contents: seq<byte>) returns (ok: bool)
      modifies this
      ensures ok <==> |contents| <= MAX_CONTENTS
      ensures ok ==> data == old(data) + Tlv(tag, contents)
    {
      if |contents| > MAX_CONTENTS {
        return false;
      }
      data := data + [tag] + LenBytes(|contents|) + contents;
      assert data == old(data) + Tlv(tag, contents);
      return true;
    }

    /** CBB_add_asn1_uint64: the eight bytes from the top, without leading zeros. */
    method AddUint64(value: nat) returns (ok: bool)
      requires value < TWO_64
      modifies this
      ensures ok && data == old(data) + EncUint(value)
    {
      hide BigEndian;
      var contents: seq<byte> := [];
      var bytes := LowBytes(value, 8);
      for i := 0 to 8
        invariant contents == Started(bytes[..i])
      {
        var b := bytes[i];
        assert bytes[..i + 1][..i] == bytes[..i];
        if contents == [] {
          if b == 0 {
            continue;
          }
          if b >= 0x80 {
            contents := [0];
          }
        }
        contents := contents + [b];
      }
      assert bytes[..8] == bytes;
      Weights();
      StartedIsMinimal(value, 8);
      ZeroContents();
      if contents == [] {
        contents := [0];
      }
      MinimalShort(value);
      ok := AddAsn1(INTEGER, contents);
    }

    /** CBB_add_asn1_octet_string */
    method AddOctets(b: seq<byte>) returns (ok: bool)
      modifies this
      ensures ok <==> |b| <= MAX_CONTENTS
      ensures ok ==> data == old(data) + EncOctets(b)
    {
      ok := AddAsn1(OCTET_STRING, b);
    }

    /** CBB_add_asn1_bool */
    method AddBool(v: bool) returns (ok: bool)
      modifies this
      ensures ok && data == old(data) + EncBool(v)
    {
      ok := AddAsn1(BOOLEAN, [if v then 0xFF else 0]);
    }
  }

  /** The `k` low bytes of a number, most significant first. */
  function LowBytes(v: nat, k: nat): (b: seq<byte>)
    ensures |b| == k
  {
    if k == 0 then [] else LowBytes(v / 0x100, k - 1) + [v % 0x100]
  }

  lemma ZeroContents()
    ensures UintContents(0) == [0]
  {
  }

  /** What CBB_add_asn1_uint64 has written after these bytes. */
  function Started(b: seq<byte>): seq<byte> {
    if b == [] then []
    else
      var before, last := Started(b[..|b| - 1]), b[|b| - 1];
      if before != [] then before + [last]
      else if last == 0 then [] else if last >= 0x80 then [0, last] else [last]
  }

  /** Dropping leading zero bytes and padding the sign bit gives the minimal form. */
  lemma {:induction false} StartedIsMinimal(v: nat, k: nat)
    requires v < Shl(1, 8 * k)
    ensures Started(LowBytes(v, k)) == if v == 0 then [] else UintContents(v)
    decreases k
  {
    hide BigEndian, Shl, UintContents, Minimal;
    if k > 0 {
      ShlShl(1, 8 * (k - 1), 8);
      ShlByEight(Shl(1, 8 * (k - 1)));
      StartedIsMinimal(v / 0x100, k - 1);
      var b := LowBytes(v, k);
      assert b[..|b| - 1] == LowBytes(v / 0x100, k - 1);
      OneMoreByte(v);
    } else {
      ZeroShift();
    }
  }

  lemma ZeroShift()
    ensures Shl(1, 0) == 1
  {
  }

  lemma OneMoreByte(v: nat)
    ensures v >= 0x100 ==> UintContents(v) == UintContents(v / 0x100) + [v % 0x100]
    ensures 0 < v < 0x100 ==> UintContents(v) == if v >= 0x80 then [0, v] else [v]
  {
    hide BigEndian;
  }
}
