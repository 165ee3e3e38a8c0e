/**
 * What decoding guarantees on bytes from anywhere: the struct stays within its storage,
 * and the required fields are accounted for.
 */
module AnyInput {
  import opened Bits
  import opened Schema
  import opened Varint
  import opened Wire
  import opened Merge
  import RoundTrip

  // ---------------------------------------------------------------- storage

  /** `v` lies within the data item of its field: ranges, lengths and terminators. */
  ghost predicate StoredValue(f: Field, v: Value)
    decreases f, 0
  {
    match f.ltype
    case Bytes => v.Data? && |v.b| + BYTES_HEADER <= f.dataSize
    case Text => v.Data? && |v.b| < f.dataSize && 0 !in v.b
    case Message(sub) => v.Msg? && Stored(sub, v.s)
    case _ => TypedValue(f, v)
  }

  ghost predicate StoredSlot(f: Field, d: Slot)
    decreases f, 1
  {
    match f.rule
    case Required => d.One? && StoredValue(f, d.v)
    case Singular => d.One? && StoredValue(f, d.v)
    case Optional => d.Opt? && StoredValue(f, d.v)
    case Repeated => d.Many? && |d.items| <= f.arraySize && forall v :: v in d.items ==> StoredValue(f, v)
    case Oneof => d.Nothing? || (d.Chosen? && d.which > 0 && (d.which == f.tag ==> StoredValue(f, d.v)))
  }

  /** Every array, string and submessage of the struct lies within its storage. */
  ghost predicate Stored(fs: seq<Field>, s: Struct)
    decreases fs, 2
  {
    |s| == SlotCount(fs) && forall f :: f in fs ==> StoredSlot(f, s[f.slot])
  }

  /** The default values of the schema lie within their storage. */
  ghost predicate InitStored(fs: seq<Field>) {
    forall f :: f in fs ==> InitStoredField(f)
  }

  ghost predicate InitStoredField(f: Field) {
    && (f.init.Some? && !f.ltype.Message? ==> StoredValue(f, f.init.value))
    && (f.ltype.Bytes? ==> BYTES_HEADER <= f.dataSize)
    && (f.ltype.Message? ==> InitStored(f.ltype.fields))
  }

  lemma {:induction false} InitValueStored(f: Field)
    requires WellFormedField(f) && InitStoredField(f)
    ensures StoredValue(f, InitValue(f))
    decreases f, 0
  {
    if f.ltype.Message? { InitStructStored(f.ltype.fields); }
  }

  lemma {:induction false} InitStructStored(fs: seq<Field>)
    requires WellFormed(fs) && InitStored(fs)
    ensures Stored(fs, InitStruct(fs))
    decreases fs, 1
  {
    hide InitStruct, StoredValue, InitValue, WellFormedField, InitStoredField;
    RoundTrip.InitStructSlots(fs);
    forall f | f in fs ensures StoredSlot(f, InitStruct(fs)[f.slot]) {
      InitValueStored(f);
    }
  }

  lemma IntegerStored(f: Field, b: seq<byte>)
    requires IntegerSize(f.dataSize) && (f.ltype.Int? || f.ltype.UInt? || f.ltype.SInt?)
    ensures var p := DecInteger(f, b); p.Ok? ==> StoredValue(f, p.value)
  {
    hide DecVarint64, UnZigZag, SignedOf;
  }

  lemma DataStored(f: Field, b: seq<byte>)
    requires f.ltype.Bytes? || f.ltype.Text? || f.ltype.FixedBytes?
    ensures var p := DecData(f, b); p.Ok? ==> StoredValue(f, p.value)
  {
    hide DecVarint32;
  }

  lemma {:induction false} FixedBelow(b: seq<byte>, n: nat)
    requires |b| == n
    ensures FixedValue(b) < Shl(1, 8 * n)
    decreases n
  {
    if n > 0 {
      FixedBelow(b[1..], n - 1);
      ShlShl(1, 8 * (n - 1), 8);
      ShlByEight(Shl(1, 8 * (n - 1)));
    }
  }

  lemma FixedStored(f: Field, b: seq<byte>, held: Value)
    requires f.ltype.Fixed32? || f.ltype.Fixed64?
    ensures var p := DecValue(f, held, b); p.Ok? ==> StoredValue(f, p.value)
  {
    hide FixedValue, Shl;
    Weights();
    var n := if f.ltype.Fixed32? then 4 else 8;
    if |b| >= n { FixedBelow(b[..n], n); }
  }

  // ---------------------------------------------------------------- every reader keeps it

  lemma {:induction false} ValueStays(f: Field, held: Value, b: seq<byte>)
    requires WellFormedField(f) && InitStoredField(f) && (f.ltype.Message? ==> StoredValue(f, held))
    ensures var p := DecValue(f, held, b); p.Ok? ==> StoredValue(f, p.value)
    decreases |b|, 1
  {
    hide DecInteger, DecData, DecodeNoInit, Block, FixedValue;
    if f.ltype.Message? {
      var block := Block(b);
      if block.Ok? { DecodedStays(f.ltype.fields, block.value, held.s); }
    } else if f.ltype.Fixed32? || f.ltype.Fixed64? {
      FixedStored(f, b, held);
    } else if Packable(f.ltype) {
      IntegerStored(f, b);
    } else {
      DataStored(f, b);
    }
  }

  lemma {:induction false} PackedStays(f: Field, items: seq<Value>, b: seq<byte>)
    requires WellFormedField(f) && InitStoredField(f) && Packable(f.ltype)
    requires |items| <= f.arraySize && forall v :: v in items ==> StoredValue(f, v)
    ensures var p := DecPacked(f, items, b);
            p.Ok? ==> |p.value| <= f.arraySize && forall v :: v in p.value ==> StoredValue(f, v)
    decreases |b|, 2, f.arraySize - |items|
  {
    hide DecValue, StoredValue, InitValue, WellFormedField, InitStoredField;
    if b != [] && |items| < f.arraySize {
      var q := DecValue(f, InitValue(f), b);
      if q.Ok? {
        ValueStays(f, InitValue(f), b);
        PackedStays(f, items + [q.value], q.rest);
      }
    }
  }

  lemma {:induction false} FieldStays(f: Field, wireType: nat, b: seq<byte>, s: Struct)
    requires WellFormedField(f) && InitStoredField(f) && f.slot < |s| && StoredSlot(f, s[f.slot])
    ensures var p := DecField(f, wireType, b, s);
            p.Ok? ==> exists d :: p.value == s[f.slot := d] && StoredSlot(f, d) && (f.rule.Oneof? ==> d.Chosen? && d.which == f.tag)
    decreases |b|, 3
  {
    hide DecValue, StoredValue, InitValue, DecPacked, Block;
    InitValueStored(f);
    var p := DecField(f, wireType, b, s);
    if p.Ok? {
      var d := p.value[f.slot];
      assert p.value == s[f.slot := d];
      match (f.rule, s[f.slot]) {
        case (Required, One(held)) => ValueStays(f, held, b);
        case (Singular, One(held)) => ValueStays(f, held, b);
        case (Optional, Opt(_, held)) => ValueStays(f, held, b);
        case (Repeated, Many(items)) =>
          if wireType == WT_STRING && Packable(f.ltype) {
            PackedStays(f, items, Block(b).value);
          } else {
            ValueStays(f, InitValue(f), b);
          }
        case (Oneof, _) => ValueStays(f, InitValue(f), b);
        case _ =>
      }
      assert StoredSlot(f, d);
    }
  }

  /** Storing to one field leaves the others within their storage. */
  lemma StoreStays(fs: seq<Field>, s: Struct, k: nat, d: Slot)
    requires WellFormed(fs) && Stored(fs, s) && k < |fs|
    requires StoredSlot(fs[k], d) && (fs[k].rule.Oneof? ==> d.Chosen? && d.which == fs[k].tag)
    ensures Stored(fs, s[fs[k].slot := d])
  {
    hide StoredValue, WellFormedField;
    var t := s[fs[k].slot := d];
    forall f | f in fs ensures StoredSlot(f, t[f.slot]) {
      var j :| 0 <= j < |fs| && fs[j] == f;
      if j != k && f.slot == fs[k].slot {
        assert f.tag != fs[k].tag;
        assert f.rule.Oneof? && fs[k].rule.Oneof?;
      }
    }
  }

  lemma {:induction false} LoopStays(fs: seq<Field>, b: seq<byte>, st: Progress)
    requires WellFormed(fs) && InitStored(fs) && Stored(fs, st.s)
    ensures var p := DecodeLoop(fs, b, st); p.Ok? ==> Stored(fs, p.value.s)
    decreases |b|, 4
  {
    hide DecField, DecVarint32, FindField, SkipField, MarkSeen, Stored, WellFormed, InitStored;
    if b != [] && DecVarint32(b).Ok? && DecVarint32(b).value != 0 {
      var key, rest := DecVarint32(b).value, DecVarint32(b).rest;
      var found := FindField(fs, key / 8);
      if found.Some? {
        var k := found.value;
        var p := DecField(fs[k], key % 8, rest, st.s);
        KnownFieldStays(fs, k, key % 8, rest, st.s);
        if p.Ok? { LoopStays(fs, p.rest, Progress(p.value, MarkSeen(fs, k, st.seen))); }
      } else {
        var p := SkipField(key % 8, rest);
        if p.Ok? { LoopStays(fs, p.rest, st); }
      }
    }
  }

  lemma {:induction false} KnownFieldStays(fs: seq<Field>, k: nat, wireType: nat, b: seq<byte>, s: Struct)
    requires WellFormed(fs) && InitStored(fs) && Stored(fs, s) && k < |fs|
    ensures var p := DecField(fs[k], wireType, b, s); p.Ok? ==> Stored(fs, p.value)
    decreases |b|, 4
  {
    hide DecField, StoredSlot, WellFormedField, InitStoredField;
    FieldStays(fs[k], wireType, b, s);
    var p := DecField(fs[k], wireType, b, s);
    if p.Ok? {
      var d :| p.value == s[fs[k].slot := d] && StoredSlot(fs[k], d) && (fs[k].rule.Oneof? ==> d.Chosen? && d.which == fs[k].tag);
      StoreStays(fs, s, k, d);
    }
  }

  /**
   * Whatever the bytes are, pb_decode_noinit keeps every array within its entries, every
   * string and byte array within its buffer and every number within its type.
   */
  lemma {:induction false} DecodedStays(fs: seq<Field>, b: seq<byte>, s: Struct)
    requires WellFormed(fs) && InitStored(fs) && Stored(fs, s)
    ensures var p := DecodeNoInit(fs, b, s); p.Ok? ==> Stored(fs, p.value)
    decreases |b|, 5
  {
    hide DecodeLoop, Stored, WellFormed, InitStored;
    LoopStays(fs, b, Progress(s, {}));
  }

  /** The same for pb_decode, which starts from the defaults. */
  lemma AnyDecodeIsStored(fs: seq<Field>, b: seq<byte>)
    requires WellFormed(fs) && InitStored(fs)
    ensures var p := Decode(fs, b); p.Ok? ==> Stored(fs, p.value)
  {
    hide DecodeNoInit, InitStruct, Stored, WellFormed, InitStored;
    InitStructStored(fs);
    DecodedStays(fs, b, InitStruct(fs));
  }

  // ---------------------------------------------------------------- decode, encode, decode

  lemma {:induction false} StoredValueTyped(f: Field, v: Value)
    requires WellFormedField(f) && StoredValue(f, v)
    ensures TypedValue(f, v)
    decreases f, 0
  {
    if f.ltype.Message? { StoredTyped(f.ltype.fields, v.s); }
  }

  lemma {:induction false} StoredTyped(fs: seq<Field>, s: Struct)
    requires WellFormed(fs) && Stored(fs, s)
    ensures Typed(fs, s)
    decreases fs, 1
  {
    hide StoredValue, TypedValue, WellFormedField;
    forall f | f in fs ensures TypedSlot(f, s[f.slot]) {
      match s[f.slot] {
        case Many(items) => forall v | v in items ensures TypedValue(f, v) { StoredValueTyped(f, v); }
        case One(v) => StoredValueTyped(f, v);
        case Opt(_, v) => StoredValueTyped(f, v);
        case Chosen(which, v) => if which == f.tag { StoredValueTyped(f, v); }
        case Nothing =>
      }
    }
  }

  lemma {:induction false} ValueEncodable(f: Field, v: Value)
    requires StoredValue(f, v)
    ensures EncValue(f, v).Some?
    decreases f, 0
  {
    if f.ltype.Message? { Encodable(f.ltype.fields, f.ltype.fields, v.s); }
  }

  lemma {:induction false} EntriesEncodable(f: Field, items: seq<Value>)
    requires forall v :: v in items ==> StoredValue(f, v)
    ensures EncPacked(f, items).Some? && EncUnpacked(f, items).Some?
    decreases f, 1, items
  {
    hide StoredValue, EncValue;
    if items != [] {
      ValueEncodable(f, items[0]);
      EntriesEncodable(f, items[1..]);
    }
  }

  lemma {:induction false} SlotEncodable(f: Field, s: Struct)
    requires f.slot < |s| && StoredSlot(f, s[f.slot])
    ensures EncField(f, s).Some?
    decreases f, 2
  {
    hide StoredValue, EncValue, EncPacked, EncUnpacked;
    match s[f.slot] {
      case Many(items) => EntriesEncodable(f, items);
      case One(v) => ValueEncodable(f, v);
      case Opt(_, v) => ValueEncodable(f, v);
      case Chosen(which, v) => if which == f.tag { ValueEncodable(f, v); }
      case Nothing =>
    }
  }

  /** A struct within its storage can be encoded, field by field. */
  lemma {:induction false} Encodable(all: seq<Field>, fs: seq<Field>, s: Struct)
    requires Stored(all, s) && forall f :: f in fs ==> f in all
    ensures EncStruct(fs, s).Some?
    decreases fs, 3
  {
    hide StoredSlot, EncField;
    if fs != [] {
      SlotEncodable(fs[0], s);
      Encodable(all, fs[1..], s);
    }
  }

  /** No field is longer than the message it belongs to. */
  lemma {:induction false} FieldShorter(fs: seq<Field>, s: Struct, f: Field)
    requires EncStruct(fs, s).Some? && f in fs
    ensures EncField(f, s).Some? && |EncField(f, s).value| <= |EncStruct(fs, s).value|
    decreases |fs|
  {
    hide EncField;
    if f != fs[0] {
      assert f in fs[1..];
      FieldShorter(fs[1..], s, f);
    }
  }

  lemma {:induction false} ItemShorter(f: Field, items: seq<Value>, v: Value)
    requires EncUnpacked(f, items).Some? && v in items
    ensures EncItem(f, v).Some? && |EncItem(f, v).value| <= |EncUnpacked(f, items).value|
    decreases |items|
  {
    hide EncItem;
    if v != items[0] {
      assert v in items[1..];
      ItemShorter(f, items[1..], v);
    }
  }

  /** A stored value whose encoding is short enough fits its own schema. */
  lemma {:induction false} StoredValueFits(f: Field, v: Value)
    requires WellFormedField(f)
    requires StoredValue(f, v) && EncItem(f, v).Some? && |EncItem(f, v).value| < TWO_32
    ensures RoundTrip.FitsValue(f, f, v) && ItemLengthFits(f, v)
    decreases f, 0
  {
    hide EncVarint, EncStruct;
    if f.ltype.Message? { StoredFits(f.ltype.fields, v.s); }
  }

  lemma {:induction false} StoredItemsFit(f: Field, items: seq<Value>)
    requires WellFormedField(f)
    requires items != [] && |items| <= f.arraySize && forall v :: v in items ==> StoredValue(f, v)
    requires EncArray(f, items).Some? && |EncArray(f, items).value| < TWO_32
    ensures RoundTrip.FitsSlot(f, f, Many(items))
    decreases f, 1
  {
    hide EncVarint, StoredValue, EncItem, RoundTrip.FitsValue, EncPacked, EncUnpacked;
    forall v | v in items ensures RoundTrip.FitsValue(f, f, v) {
      if Packable(f.ltype) {
        PackableFits(f, v);
      } else {
        ItemShorter(f, items, v);
        StoredValueFits(f, v);
      }
    }
  }

  lemma PackableFits(f: Field, v: Value)
    requires Packable(f.ltype)
    ensures RoundTrip.FitsValue(f, f, v)
  {
  }

  lemma {:induction false} StoredSlotFits(f: Field, s: Struct)
    requires WellFormedField(f)
    requires f.slot < |s| && StoredSlot(f, s[f.slot]) && EncField(f, s).Some? && |EncField(f, s).value| < TWO_32
    requires Emits(f, s[f.slot])
    ensures RoundTrip.FitsSlot(f, f, s[f.slot])
    decreases f, 2
  {
    hide StoredValue, EncItem, EncArray, RoundTrip.FitsValue;
    match s[f.slot] {
      case Many(items) => StoredItemsFit(f, items);
      case One(v) => StoredValueFits(f, v);
      case Opt(_, v) => StoredValueFits(f, v);
      case Chosen(_, v) => StoredValueFits(f, v);
      case Nothing =>
    }
  }

  lemma {:induction false} StoredFits(fs: seq<Field>, s: Struct)
    requires WellFormed(fs) && Stored(fs, s) && EncStruct(fs, s).Some? && |EncStruct(fs, s).value| < TWO_32
    ensures RoundTrip.Fits(fs, fs, s)
    decreases fs, 3
  {
    hide StoredSlot, EncStruct, EncField, RoundTrip.FitsSlot, FindField;
    forall k | 0 <= k < |fs| ensures RoundTrip.FitsField(fs, fs[k], s) {
      FieldShorter(fs, s, fs[k]);
      RoundTrip.FindIs(fs, k, fs[k].tag);
      if Emits(fs[k], s[fs[k].slot]) { StoredSlotFits(fs[k], s); }
    }
  }

  /**
   * Any bytes that decode give a struct that encodes, and decoding its encoding gives
   * the same fields again, as long as the encoding is shorter than 2^32 bytes.
   */
  lemma DecodeEncodeDecode(fs: seq<Field>, b: seq<byte>)
    requires WellFormed(fs) && InitStored(fs) && Decode(fs, b).Ok?
    ensures var s := Decode(fs, b).value;
            && EncStruct(fs, s).Some?
            && (|EncStruct(fs, s).value| < TWO_32 ==>
                 var p := Decode(fs, EncStruct(fs, s).value);
                 && p.Ok? && p.rest == [] && |p.value| == |s| == SlotCount(fs)
                 && forall f :: f in fs ==> RoundTrip.SameSlot(f, f, s[f.slot], p.value[f.slot]))
  {
    hide Decode, Stored, Typed, EncStruct, WellFormed, InitStored, RoundTrip.SameSlot, RoundTrip.Fits, SlotCount;
    AnyDecodeIsStored(fs, b);
    var s := Decode(fs, b).value;
    Encodable(fs, fs, s);
    StoredTyped(fs, s);
    if |EncStruct(fs, s).value| < TWO_32 {
      StoredFits(fs, s);
      RoundTrip.MessageRoundTrip(fs, s);
      StoredLength(fs, s);
    }
  }

  lemma StoredLength(fs: seq<Field>, s: Struct)
    requires Stored(fs, s)
    ensures |s| == SlotCount(fs)
  {
  }
}
