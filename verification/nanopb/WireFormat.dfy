/**
 * The bytes themselves, as the Protocol Buffers Encoding guide has them: the key of each field
 * type and the documented examples.
 */
module WireFormat {
  import opened Bits
  import opened Schema
  import opened Varint
  import opened Wire
  import MergeProof

  // ---------------------------------------------------------------- keys and examples

  /** A key is eight times the tag plus 0 for varints, 1 for 8 bytes, 2 for blocks and 5 for 4 bytes. */
  lemma KeyOfField(f: Field, v: Value, rest: seq<byte>)
    requires WellFormedField(f) && EncItem(f, v).Some?
    ensures EncValue(f, v).Some?
    ensures var code := match f.ltype
                        case Int => 0 case UInt => 0 case SInt => 0
                        case Fixed64 => 1 case Fixed32 => 5
                        case Bytes => 2 case Text => 2 case FixedBytes => 2 case Message(_) => 2;
            DecVarint32(EncItem(f, v).value + rest) == Ok(8 * f.tag + code, EncValue(f, v).value + rest)
    ensures f.tag < 16 ==> EncItem(f, v).value[0] / 8 == f.tag
    ensures f.ltype.Fixed32? ==> |EncValue(f, v).value| == 4
    ensures f.ltype.Fixed64? ==> |EncValue(f, v).value| == 8
  {
    hide DecVarint32, EncFixed, WellFormed;
    assert EncValue(f, v).Some?;
    MergeProof.KeyRead(f.tag, WireType(f.ltype), EncValue(f, v).value + rest);
    assert EncItem(f, v).value + rest == EncTag(f.tag, WireType(f.ltype)) + (EncValue(f, v).value + rest);
  }

  /** A field of the descriptor table with nothing unusual about it. */
  function Plain(tag: nat, rule: Rule, lt: LType, size: nat): Field {
    Field(tag, rule, lt, size, 8, 0, None, 0, 0)
  }

  lemma Group(v: nat)
    ensures v <= 0x7F ==> EncVarint(v) == [v]
    ensures v > 0x7F ==> EncVarint(v) == [v % 128 + 128] + EncVarint(v / 128)
  {
  }

  lemma TwoGroups(v: nat)
    requires 0x80 <= v < 0x4000
    ensures EncVarint(v) == [v % 128 + 128, v / 128]
  {
    Group(v);
    Group(v / 128);
  }

  /** A varint has its low group first, and every group but the last has the high bit set. */
  lemma SmallVarints()
    ensures EncVarint(1) == [0x01] && EncVarint(150) == [0x96, 0x01] && EncVarint(300) == [0xAC, 0x02]
    ensures EncVarint(86942) == [0x9E, 0xA7, 0x05]
  {
    hide EncVarint;
    Group(1);
    TwoGroups(150);
    TwoGroups(300);
    Group(86942);
    TwoGroups(679);
  }

  /** Nine groups of ones and the one bit that is left. */
  lemma AllOnes()
    ensures EncVarint(TWO_64 - 1) == [0xFF, 0xFF, 0xFF, 0xFF, 0xFF, 0xFF, 0xFF, 0xFF, 0xFF, 0x01]
  {
    hide EncVarint;
    OnesEncoding();
    Group(0xF_FFFF_FFFF);
    Group(0x7FF_FFFF_FFFF);
    Group(0x3_FFFF_FFFF_FFFF);
    Group(0x1FF_FFFF_FFFF_FFFF);
    Group(0xFFFF_FFFF_FFFF_FFFF);
  }

  /** The integer examples of the guide. */
  lemma DocumentedVarints()
    ensures EncItem(Plain(1, Required, Int, 4), Num(150)) == Some([0x08, 0x96, 0x01])
    ensures EncItem(Plain(1, Required, UInt, 4), Num(150)) == Some([0x08, 0x96, 0x01])
    ensures EncItem(Plain(1, Required, Int, 4), Num(-1)) ==
              Some([0x08, 0xFF, 0xFF, 0xFF, 0xFF, 0xFF, 0xFF, 0xFF, 0xFF, 0xFF, 0x01])
    ensures EncItem(Plain(1, Required, SInt, 4), Num(-2)) == Some([0x08, 0x03])
    ensures EncItem(Plain(1, Required, SInt, 4), Num(1)) == Some([0x08, 0x02])
  {
    hide EncVarint, ZigZag;
    SmallVarints();
    AllOnes();
    ZigZagInverse(-2, 0);
    ZigZagInverse(1, 0);
    Group(2);
    Group(3);
    Group(8);
    assert [0x08] + [0x96, 0x01] == [0x08, 0x96, 0x01] && [0x08] + [0x03] == [0x08, 0x03] && [0x08] + [0x02] == [0x08, 0x02];
    assert [0x08] + [0xFF, 0xFF, 0xFF, 0xFF, 0xFF, 0xFF, 0xFF, 0xFF, 0xFF, 0x01]
        == [0x08, 0xFF, 0xFF, 0xFF, 0xFF, 0xFF, 0xFF, 0xFF, 0xFF, 0xFF, 0x01];
  }

  /** Four and eight bytes, the lowest first. */
  lemma DocumentedFixed()
    ensures EncItem(Plain(1, Required, Fixed32, 4), Num(0x04030201)) == Some([0x0D, 1, 2, 3, 4])
    ensures EncItem(Plain(1, Required, Fixed64, 8), Num(0x0807060504030201)) == Some([0x09, 1, 2, 3, 4, 5, 6, 7, 8])
  {
    hide EncVarint, EncFixed;
    Group(0x0D);
    Group(0x09);
    LowByteFirst(0x04030201, 3);
    LowByteFirst(0x040302, 2);
    LowByteFirst(0x0403, 1);
    LowByteFirst(0x04, 0);
    LowByteFirst(0, 0);
    LowByteFirst(0x0807060504030201, 7);
    LowByteFirst(0x08070605040302, 6);
    LowByteFirst(0x080706050403, 5);
    LowByteFirst(0x0807060504, 4);
    LowByteFirst(0x08070605, 3);
    LowByteFirst(0x080706, 2);
    LowByteFirst(0x0807, 1);
    LowByteFirst(0x08, 0);
    assert EncFixed(0x04030201, 4) == [1, 2, 3, 4] && EncFixed(0x0807060504030201, 8) == [1, 2, 3, 4, 5, 6, 7, 8];
    assert [0x0D] + [1, 2, 3, 4] == [0x0D, 1, 2, 3, 4];
    assert [0x09] + [1, 2, 3, 4, 5, 6, 7, 8] == [0x09, 1, 2, 3, 4, 5, 6, 7, 8];
  }

  lemma LowByteFirst(v: nat, n: nat)
    ensures EncFixed(v, n + 1) == [v % 256] + EncFixed(v / 256, n) && EncFixed(v, 0) == []
  {
  }

  /** The string and byte examples: tag, length, bytes. */
  lemma DocumentedStrings()
    ensures EncItem(Plain(2, Required, Text, 16), Data([0x74, 0x65, 0x73, 0x74, 0x69, 0x6E, 0x67])) ==
              Some([0x12, 0x07, 0x74, 0x65, 0x73, 0x74, 0x69, 0x6E, 0x67])
    ensures EncItem(Plain(2, Required, Bytes, 16), Data([0xCA, 0xFE])) == Some([0x12, 0x02, 0xCA, 0xFE])
    ensures EncItem(Plain(2, Required, FixedBytes, 2), Data([0xCA, 0xFE])) == Some([0x12, 0x02, 0xCA, 0xFE])
  {
    hide EncVarint;
    Group(0x12);
    Group(7);
    Group(2);
    assert [0x12] + ([0x07] + [0x74, 0x65, 0x73, 0x74, 0x69, 0x6E, 0x67])
        == [0x12, 0x07, 0x74, 0x65, 0x73, 0x74, 0x69, 0x6E, 0x67];
    assert [0x12] + ([0x02] + [0xCA, 0xFE]) == [0x12, 0x02, 0xCA, 0xFE];
  }

  /** The submessage example. */
  lemma DocumentedMessage()
    ensures EncItem(Plain(3, Required, Message([Plain(1, Required, Int, 4)]), 4), Msg([One(Num(150))])) ==
              Some([0x1A, 0x03, 0x08, 0x96, 0x01])
  {
    hide EncVarint, EncItem;
    var inner, s := Plain(1, Required, Int, 4), [One(Num(150))];
    DocumentedVarints();
    assert EncStruct([], s) == Some([]);
    assert EncStruct([inner], s) == Some([0x08, 0x96, 0x01]) by {
      assert [inner][1..] == [] && inner.slot < |s|;
      assert [0x08, 0x96, 0x01] + [] == [0x08, 0x96, 0x01];
    }
    assert [0x1A] + ([0x03] + [0x08, 0x96, 0x01]) == [0x1A, 0x03, 0x08, 0x96, 0x01];
    Group(0x1A);
    Group(3);
    ItemOf(Plain(3, Required, Message([inner]), 4), Msg(s));
  }

  lemma ItemOf(f: Field, v: Value)
    ensures EncItem(f, v) == Cat(Some(EncTag(f.tag, WireType(f.ltype))), EncValue(f, v))
  {
  }

  /** The packed example. */
  lemma DocumentedPacked()
    ensures EncArray(Plain(4, Repeated, Int, 4), [Num(3), Num(270), Num(86942)]) ==
              Some([0x22, 0x06, 0x03, 0x8E, 0x02, 0x9E, 0xA7, 0x05])
  {
    hide EncVarint;
    var f, items := Plain(4, Repeated, Int, 4), [Num(3), Num(270), Num(86942)];
    SmallVarints();
    Group(3);
    Group(6);
    TwoGroups(270);
    Group(0x22);
    assert items[1..] == [Num(270), Num(86942)] && items[1..][1..] == [Num(86942)] && items[1..][1..][1..] == [];
    assert EncPacked(f, [Num(86942)]) == Some([0x9E, 0xA7, 0x05]) by {
      assert [0x9E, 0xA7, 0x05] + [] == [0x9E, 0xA7, 0x05];
    }
    assert [0x03] + ([0x8E, 0x02] + [0x9E, 0xA7, 0x05]) == [0x03, 0x8E, 0x02, 0x9E, 0xA7, 0x05];
    assert EncPacked(f, items) == Some([0x03, 0x8E, 0x02, 0x9E, 0xA7, 0x05]);
    assert [0x22] + ([0x06] + [0x03, 0x8E, 0x02, 0x9E, 0xA7, 0x05]) == [0x22, 0x06, 0x03, 0x8E, 0x02, 0x9E, 0xA7, 0x05];
  }
}
