/** What pb_decode.c takes of any bytes, also of such as pb_encode.c would not have written. */
module WireInput {
  import opened Bits
  import opened Schema
  import opened Varint
  import opened Wire
  import MergeProof

  /**
   * Integers of any width read any varint of 64 bits: unsigned ones exactly if it is in range, signed
   * ones of at most 32 bits by its low half, zigzag ones by its parity, and each exactly if the
   * value fits.
   */
  lemma IntegersAccepted(f: Field, held: Value, u: nat, rest: seq<byte>)
    requires WellFormedField(f) && u < TWO_64
    ensures f.ltype.UInt? ==>
              DecValue(f, held, EncVarint(u) + rest) == if u < Range(f.dataSize) then Ok(Num(u), rest) else Err
    ensures f.ltype.SInt? ==>
              var v := if u % 2 == 0 then u / 2 else -(u / 2) - 1;
              DecValue(f, held, EncVarint(u) + rest) == if FitsSigned(v, f.dataSize) then Ok(Num(v), rest) else Err
    ensures f.ltype.Int? && f.dataSize == 8 ==>
              DecValue(f, held, EncVarint(u) + rest) == Ok(Num(if u < TWO_63 then u else u - TWO_64), rest)
    ensures f.ltype.Int? && f.dataSize < 8 ==>
              var low := u % TWO_32;
              var v := if low < TWO_31 then low else low - TWO_32;
              DecValue(f, held, EncVarint(u) + rest) == if FitsSigned(v, f.dataSize) then Ok(Num(v), rest) else Err
  {
    hide EncVarint, DecVarint64, ZigZag, UnZigZag, WellFormed;
    Varint64RoundTrip(u, rest);
    UnZigZagIs(u);
  }

  lemma UnZigZagIs(u: nat)
    requires u < TWO_64
    ensures UnZigZag(u) == if u % 2 == 0 then u / 2 else -(u / 2) - 1
  {
    ZigZagInverse(UnZigZag(u), u);
  }

  /**
   * A block is taken into a byte array if it fits behind the size field, into a character buffer if
   * there is room for a terminator, up to its first NUL, and into a fixed-length array if it has that
   * length, or is empty and stands for zeros.
   */
  lemma BlocksAccepted(f: Field, held: Value, d: seq<byte>, rest: seq<byte>)
    requires WellFormedField(f) && |d| < TWO_32
    ensures f.ltype.Bytes? ==>
              DecValue(f, held, EncBlock(d) + rest) == if |d| + 4 <= f.dataSize then Ok(Data(d), rest) else Err
    ensures f.ltype.Text? ==>
              DecValue(f, held, EncBlock(d) + rest) == if |d| < f.dataSize then Ok(Data(UpToNul(d)), rest) else Err
    ensures f.ltype.FixedBytes? && d != [] ==>
              DecValue(f, held, EncBlock(d) + rest) == if |d| == f.dataSize then Ok(Data(d), rest) else Err
    ensures f.ltype.FixedBytes? && d == [] ==>
              DecValue(f, held, EncBlock(d) + rest) == Ok(Data(seq(f.dataSize, _ => 0)), rest)
  {
    hide EncVarint, DecVarint32, WellFormed, UpToNul;
    assert EncBlock(d) + rest == EncVarint(|d|) + (d + rest);
    Varint32RoundTrip(|d|, d + rest);
    assert (d + rest)[..|d|] == d && (d + rest)[|d|..] == rest;
  }

  lemma {:induction false} UpToNulIs(d: seq<byte>)
    ensures var t := UpToNul(d); t <= d && 0 !in t && (t == d || d[|t|] == 0)
  {
    if d != [] && d[0] != 0 { UpToNulIs(d[1..]); }
  }

  /** A zero byte where a key is due ends the message, whatever follows. */
  lemma ZeroKeyEnds(fs: seq<Field>, rest: seq<byte>, st: Progress)
    ensures DecodeLoop(fs, [0] + rest, st) == Ok(st, rest)
  {
    hide DecVarint32, FindField, DecField, SkipField;
    Dec32First(0, rest);
  }

  /** Groups and unassigned wire types of an unknown field are refused, not skipped. */
  lemma GroupsRefused(fs: seq<Field>, tag: nat, wireType: nat, rest: seq<byte>, st: Progress)
    requires 0 < tag < TAG_LIMIT && wireType < 8 && FindField(fs, tag).None?
    requires wireType == 3 || wireType == 4 || wireType == 6 || wireType == 7
    ensures DecodeLoop(fs, EncTag(tag, wireType) + rest, st) == Err
  {
    hide EncTag, DecodeLoop, FindField;
    MergeProof.KeyStep(fs, tag, wireType, rest, st);
  }

  /** An unknown varint is skipped up to its first byte below 128, however long it is. */
  lemma {:induction false} LongVarintSkipped(high: seq<byte>, last: byte, rest: seq<byte>)
    requires last < 128 && forall k :: 0 <= k < |high| ==> high[k] >= 128
    ensures SkipField(0, high + [last] + rest) == Ok((), rest) && SkipField(0, high) == Err
    decreases |high|
  {
    if high == [] {
      assert high + [last] + rest == [last] + rest && ([last] + rest)[1..] == rest;
    } else {
      LongVarintSkipped(high[1..], last, rest);
      assert (high + [last] + rest)[1..] == high[1..] + [last] + rest;
    }
  }

  /** Entries of a packable field are taken one by one as well, as long as the array has room. */
  lemma {:induction false} UnpackedAccepted(fs: seq<Field>, k: nat, items: seq<Value>, vs: seq<Value>, rest: seq<byte>, st: Progress)
    requires k < |fs| && FindField(fs, fs[k].tag) == Some(k) && WellFormedField(fs[k])
    requires fs[k].rule.Repeated? && Packable(fs[k].ltype) && (forall v :: v in vs ==> TypedValue(fs[k], v))
    requires fs[k].slot < |st.s| && st.s[fs[k].slot] == Many(items) && |items| <= fs[k].arraySize
    ensures EncUnpacked(fs[k], vs).Some?
    ensures DecodeLoop(fs, EncUnpacked(fs[k], vs).value + rest, st) ==
              if |items| + |vs| <= fs[k].arraySize
              then DecodeLoop(fs, rest, Progress(st.s[fs[k].slot := Many(items + vs)], st.seen)) else Err
    decreases |vs|
  {
    hide EncTag, DecVarint32, DecodeLoop, EncItem, FindField, WellFormed, WellFormedField, TypedValue, DecField, EncValue, MarkSeen;
    var f := fs[k];
    UnpackedSome(f, vs);
    if vs == [] {
      assert items + vs == items && st.s[f.slot := Many(items)] == st.s && [] + rest == rest;
    } else {
      var tail := EncUnpacked(f, vs[1..]).value;
      assert vs[0] in vs;
      NumberRead(f, vs[0], tail + rest);
      OneEntry(f, items, vs[0], tail + rest, st.s);
      NotRequired(fs, k, st.seen);
      MergeProof.ItemRead(fs, k, f, vs[0], tail + rest, st);
      assert EncUnpacked(f, vs).value == EncItem(f, vs[0]).value + tail;
      assert EncUnpacked(f, vs).value + rest == EncItem(f, vs[0]).value + (tail + rest);
      if |items| < f.arraySize {
        var next := Progress(st.s[f.slot := Many(items + [vs[0]])], st.seen);
        UnpackedAccepted(fs, k, items + [vs[0]], vs[1..], rest, next);
        assert items + [vs[0]] + vs[1..] == items + vs;
        assert next.s[f.slot := Many(items + vs)] == st.s[f.slot := Many(items + vs)];
      }
    }
  }

  /** One entry with the wire type of its own. */
  lemma OneEntry(f: Field, items: seq<Value>, v: Value, rest: seq<byte>, s: Struct)
    requires WellFormedField(f) && f.rule.Repeated? && Packable(f.ltype) && TypedValue(f, v)
    requires f.slot < |s| && s[f.slot] == Many(items)
    ensures EncValue(f, v).Some?
    ensures DecField(f, WireType(f.ltype), EncValue(f, v).value + rest, s) ==
              if |items| >= f.arraySize then Err else Ok(s[f.slot := Many(items + [v])], rest)
  {
    hide WellFormedField, TypedValue, DecValue, EncValue;
    NumberRead(f, v, rest);
  }

  lemma NotRequired(fs: seq<Field>, k: nat, seen: set<nat>)
    requires k < |fs| && fs[k].rule.Repeated?
    ensures MarkSeen(fs, k, seen) == seen
  {
    hide RequiredCount;
  }

  lemma {:induction false} UnpackedSome(f: Field, vs: seq<Value>)
    requires WellFormedField(f) && Packable(f.ltype) && (forall v :: v in vs ==> TypedValue(f, v))
    ensures EncUnpacked(f, vs).Some?
  {
    hide EncValue, WellFormed, TypedValue;
    if vs != [] {
      assert vs[0] in vs;
      NumberRead(f, vs[0], []);
      UnpackedSome(f, vs[1..]);
    }
  }

  lemma NumberRead(f: Field, v: Value, rest: seq<byte>)
    requires WellFormedField(f) && Packable(f.ltype) && TypedValue(f, v)
    ensures EncValue(f, v).Some? && DecValue(f, InitValue(f), EncValue(f, v).value + rest) == Ok(v, rest)
    ensures WireType(f.ltype) != WT_STRING
  {
    hide EncVarint, EncFixed, DecFixed, ZigZag, DecInteger, WellFormed;
    if f.ltype.Fixed32? {
      FixedRoundTrip(v.n, 4, rest);
    } else if f.ltype.Fixed64? {
      FixedRoundTrip(v.n, 8, rest);
    } else {
      MergeProof.IntegerRead(f, v.n, rest);
    }
  }
}
