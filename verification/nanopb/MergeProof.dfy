/**
 * Decoding an encoded message is merging: reading with schema `fs` what was written
 * with schema `ws` from struct `m` turns a destination `s` into `MergeStruct(fs, ws, s, m)`,
 * and fails exactly when that is None.
 */
module MergeProof {
  import opened Bits
  import opened Schema
  import opened Varint
  import opened Wire
  import opened Merge

  function AsParse<T>(x: Option<T>, rest: seq<byte>): Parse<T> {
    if x.Some? then Ok(x.value, rest) else Err
  }

  // ---------------------------------------------------------------- blocks and scalars

  /** A length-prefixed block is read back when its length fits 32 bits and refused otherwise. */
  lemma BlockOfEnc(b: seq<byte>, rest: seq<byte>)
    requires |b| < TWO_63
    ensures Block(EncBlock(b) + rest) == if |b| < TWO_32 then Ok(b, rest) else Err
  {
    hide EncVarint, DecVarint32;
    assert EncBlock(b) + rest == EncVarint(|b|) + (b + rest);
    if |b| < TWO_32 {
      Varint32RoundTrip(|b|, b + rest);
      assert (b + rest)[..|b|] == b && (b + rest)[|b|..] == rest;
    } else {
      Varint32RejectsLarge(|b|, b + rest);
    }
  }

  lemma {:induction false} SkipOfVarint(v: nat, rest: seq<byte>)
    ensures SkipVarint(EncVarint(v) + rest) == Ok((), rest)
    decreases v
  {
    EncVarintShape(v, rest);
    var b := EncVarint(v) + rest;
    if v <= 0x7F {
      assert b[1..] == rest;
    } else {
      assert b[1..] == EncVarint(v / 128) + rest;
      SkipOfVarint(v / 128, rest);
    }
  }

  lemma NoNul(b: seq<byte>)
    requires 0 !in b
    ensures UpToNul(b) == b
  {
    if b != [] { NoNul(b[1..]); }
  }

  lemma SignedOfUnsigned(n: int, size: nat)
    requires IntegerSize(size) && FitsSigned(n, size)
    ensures SignedOf(ToUnsigned(n), size) == n
  {
  }

  /** Integers: what the writer's field emits is what the reader's field stores. */
  lemma IntegerRead(f: Field, n: int, rest: seq<byte>)
    requires f.ltype.Int? || f.ltype.UInt? || f.ltype.SInt?
    requires TypedValue(f, Num(n))
    ensures EncValue(f, Num(n)).Some?
    ensures DecInteger(f, EncValue(f, Num(n)).value + rest) == Ok(Num(n), rest)
  {
    hide EncVarint, DecVarint64, ZigZag, UnZigZag, SignedOf;
    match f.ltype
    case Int =>
      SignedOfUnsigned(n, f.dataSize);
      Varint64RoundTrip(ToUnsigned(n), rest);
    case UInt =>
      Varint64RoundTrip(n, rest);
    case SInt =>
      ZigZagInverse(n, 0);
      Varint64RoundTrip(ZigZag(n), rest);
  }

  /** Byte strings and character strings. */
  lemma DataRead(f: Field, w: Field, b: seq<byte>, rest: seq<byte>)
    requires f.ltype == w.ltype && (f.ltype.Bytes? || f.ltype.Text? || (f.ltype.FixedBytes? && f.dataSize == w.dataSize))
    requires TypedValue(w, Data(b)) && w.dataSize < TWO_32 && EncValue(w, Data(b)).Some?
    ensures EncValue(w, Data(b)).value == EncBlock(b)
    ensures DecData(f, EncBlock(b) + rest) == AsParse(MergeValue(f, w, Data([]), Data(b)), rest)
  {
    hide EncVarint, DecVarint32;
    assert EncBlock(b) + rest == EncVarint(|b|) + (b + rest);
    Varint32RoundTrip(|b|, b + rest);
    assert (b + rest)[..|b|] == b && (b + rest)[|b|..] == rest;
    if f.ltype.Text? { NoNul(b); }
    if b == [] { assert Zeros(0) == []; assert [] + rest == rest; }
  }

  // ---------------------------------------------------------------- keys

  lemma KeyRead(tag: nat, wireType: nat, rest: seq<byte>)
    requires tag < TAG_LIMIT && wireType < 8
    ensures DecVarint32(EncTag(tag, wireType) + rest) == Ok(8 * tag + wireType, rest)
  {
    hide EncVarint, DecVarint32;
    Varint32RoundTrip(8 * tag + wireType, rest);
  }

  /** What the decoding loop does after reading a field key. */
  function AfterKey(fs: seq<Field>, tag: nat, wireType: nat, rest: seq<byte>, st: Progress): Parse<Progress> {
    match FindField(fs, tag)
    case Some(k) =>
      (match DecField(fs[k], wireType, rest, st.s)
       case Err => Err
       case Ok(s, rest') => DecodeLoop(fs, rest', Progress(s, MarkSeen(fs, k, st.seen))))
    case None =>
      match SkipField(wireType, rest)
      case Err => Err
      case Ok(_, rest') => DecodeLoop(fs, rest', st)
  }

  lemma KeyStep(fs: seq<Field>, tag: nat, wireType: nat, rest: seq<byte>, st: Progress)
    requires 0 < tag < TAG_LIMIT && wireType < 8
    ensures DecodeLoop(fs, EncTag(tag, wireType) + rest, st) == AfterKey(fs, tag, wireType, rest, st)
  {
    hide EncVarint, DecVarint32, DecField, SkipField, FindField, MarkSeen;
    KeyRead(tag, wireType, rest);
    var b := EncTag(tag, wireType) + rest;
    assert b != [];
    assert (8 * tag + wireType) / 8 == tag && (8 * tag + wireType) % 8 == wireType;
  }

  // ---------------------------------------------------------------- single items

  /** An unknown item is skipped by exactly its own bytes. */
  lemma ValueSkipped(w: Field, v: Value, rest: seq<byte>)
    requires WellFormedField(w) && TypedValue(w, v) && EncValue(w, v).Some? && |EncValue(w, v).value| < TWO_63
    ensures SkipField(WireType(w.ltype), EncValue(w, v).value + rest) == if ItemLengthFits(w, v) then Ok((), rest) else Err
  {
    hide EncVarint, DecVarint32, SkipVarint, EncFixed, ZigZag, EncStruct, Typed, WellFormed;
    var b := EncValue(w, v).value;
    match w.ltype
    case Int => SkipOfVarint(ToUnsigned(v.n), rest);
    case UInt => SkipOfVarint(v.n, rest);
    case SInt => SkipOfVarint(ZigZag(v.n), rest);
    case Fixed32 => assert (b + rest)[4..] == rest;
    case Fixed64 => assert (b + rest)[8..] == rest;
    case Message(sub) => BlockOfEnc(EncStruct(sub, v.s).value, rest);
    case _ => BlockOfEnc(v.b, rest);
  }

  /** A known item is read back as what it merges to. */
  lemma {:induction false} ValueRead(f: Field, w: Field, held: Value, v: Value, rest: seq<byte>)
    requires CompatibleField(f, w) && WellFormedField(w) && TypedValue(w, v)
    requires EncValue(w, v).Some? && |EncValue(w, v).value| < TWO_63
    ensures DecValue(f, held, EncValue(w, v).value + rest) == AsParse(MergeValue(f, w, held, v), rest)
    decreases w, 0
  {
    hide EncVarint, DecVarint32, DecInteger, DecData, DecodeNoInit, EncFixed, DecFixed, ZigZag, EncStruct,
         Block, EncBlock;
    match w.ltype
    case Message(sub) =>
      var body := EncStruct(sub, v.s).value;
      assert EncValue(w, v).value == EncBlock(body);
      BlockLonger(body);
      BlockOfEnc(body, rest);
      if held.Msg? && |body| < TWO_32 {
        StructRead(f.ltype.fields, sub, held.s, v.s);
      }
    case Fixed32 => FixedRoundTrip(v.n, 4, rest);
    case Fixed64 => FixedRoundTrip(v.n, 8, rest);
    case Bytes => DataRead(f, w, v.b, rest);
    case Text => DataRead(f, w, v.b, rest);
    case FixedBytes => DataRead(f, w, v.b, rest);
    case _ =>
      IntegerRead(w, v.n, rest);
      SameInteger(f, w, v, EncValue(w, v).value + rest);
  }

  lemma BlockLonger(b: seq<byte>)
    ensures |EncBlock(b)| > |b|
  {
    hide EncVarint;
  }

  /** Integer decoding depends on the type and width of the field only. */
  lemma SameInteger(f: Field, w: Field, v: Value, b: seq<byte>)
    requires f.ltype == w.ltype && f.dataSize == w.dataSize
    ensures DecInteger(f, b) == DecInteger(w, b)
  {
  }

  // ---------------------------------------------------------------- fields

  /** One item with its key, known to the reader. */
  lemma ItemRead(fs: seq<Field>, k: nat, w: Field, v: Value, rest: seq<byte>, st: Progress)
    requires FindField(fs, w.tag) == Some(k) && WellFormedField(w) && EncValue(w, v).Some?
    ensures EncItem(w, v).Some?
    ensures DecodeLoop(fs, EncItem(w, v).value + rest, st) ==
      match DecField(fs[k], WireType(w.ltype), EncValue(w, v).value + rest, st.s)
      case Err => Err
      case Ok(s, rest') => DecodeLoop(fs, rest', Progress(s, MarkSeen(fs, k, st.seen)))
  {
    hide EncVarint, EncTag, DecVarint32, DecField, DecodeLoop, EncValue, FindField, WellFormed;
    var b := EncValue(w, v).value;
    var key := EncTag(w.tag, WireType(w.ltype));
    assert EncItem(w, v).value + rest == key + (b + rest);
    KeyStep(fs, w.tag, WireType(w.ltype), b + rest, st);
  }

  /** One item with its key, unknown to the reader. */
  lemma ItemSkipped(fs: seq<Field>, w: Field, v: Value, rest: seq<byte>, st: Progress)
    requires FindField(fs, w.tag).None? && WellFormedField(w) && TypedValue(w, v)
    requires EncValue(w, v).Some? && |EncValue(w, v).value| < TWO_63
    ensures EncItem(w, v).Some?
    ensures DecodeLoop(fs, EncItem(w, v).value + rest, st) == if ItemLengthFits(w, v) then DecodeLoop(fs, rest, st) else Err
  {
    hide EncVarint, EncTag, DecVarint32, SkipField, DecodeLoop, EncValue, FindField, WellFormed, TypedValue,
         ItemLengthFits;
    var b := EncValue(w, v).value;
    var key := EncTag(w.tag, WireType(w.ltype));
    assert EncItem(w, v).value + rest == key + (b + rest);
    KeyStep(fs, w.tag, WireType(w.ltype), b + rest, st);
    ValueSkipped(w, v, rest);
  }

  // ---- arrays

  /** Entries of an unpacked array, one keyed item each. */
  lemma {:induction false} UnpackedRead(fs: seq<Field>, k: nat, w: Field, items: seq<Value>, vs: seq<Value>, rest: seq<byte>, st: Progress)
    requires FindField(fs, w.tag) == Some(k) && fs[k].slot < |st.s| && st.s[fs[k].slot] == Many(items)
    requires CompatibleField(fs[k], w) && WellFormedField(w) && w.rule.Repeated? && !Packable(w.ltype)
    requires forall v :: v in vs ==> TypedValue(w, v)
    requires EncUnpacked(w, vs).Some? && |EncUnpacked(w, vs).value| < TWO_63
    ensures DecodeLoop(fs, EncUnpacked(w, vs).value + rest, st) ==
      match MergeItems(fs[k], w, items, vs)
      case None => Err
      case Some(x) => DecodeLoop(fs, rest, Progress(st.s[fs[k].slot := Many(x)], st.seen))
    decreases w, 1, vs
  {
    hide EncVarint, EncTag, DecVarint32, DecodeLoop, EncValue, DecValue, FindField, WellFormed, TypedValue,
         EncItem, CompatibleField, MergeValue;
    var f := fs[k];
    if vs == [] {
      assert EncUnpacked(w, vs).value + rest == rest;
      assert st.s[f.slot := Many(items)] == st.s;
    } else {
      var first, others := EncItem(w, vs[0]).value, EncUnpacked(w, vs[1..]).value;
      assert EncUnpacked(w, vs).value + rest == first + (others + rest);
      ItemParts(w, vs[0]);
      assert vs[0] in vs;
      ItemRead(fs, k, w, vs[0], others + rest, st);
      ValueRead(f, w, InitValue(f), vs[0], others + rest);
      NotRequired(fs, k, st.seen, w);
      var x := MergeValue(f, w, InitValue(f), vs[0]);
      if |items| < f.arraySize && x.Some? {
        var st' := Progress(st.s[f.slot := Many(items + [x.value])], st.seen);
        UnpackedRead(fs, k, w, items + [x.value], vs[1..], rest, st');
        var r := MergeItems(f, w, items + [x.value], vs[1..]);
        if r.Some? {
          assert st'.s[f.slot := Many(r.value)] == st.s[f.slot := Many(r.value)];
        }
      }
    }
  }

  /** An item is its key followed by its value. */
  lemma ItemParts(w: Field, v: Value)
    requires EncItem(w, v).Some?
    ensures EncValue(w, v).Some? && EncItem(w, v).value == EncTag(w.tag, WireType(w.ltype)) + EncValue(w, v).value
    ensures |EncValue(w, v).value| < |EncItem(w, v).value|
  {
    hide EncVarint, EncValue;
  }

  lemma NotRequired(fs: seq<Field>, k: nat, seen: set<nat>, w: Field)
    requires k < |fs| && CompatibleField(fs[k], w) && !w.rule.Required?
    ensures fs[k].rule == w.rule && Packable(fs[k].ltype) == Packable(w.ltype)
    ensures MarkSeen(fs, k, seen) == seen
  {
    hide Compatible;
  }

  lemma {:induction false} UnpackedSkipped(fs: seq<Field>, w: Field, vs: seq<Value>, rest: seq<byte>, st: Progress)
    requires FindField(fs, w.tag).None? && WellFormedField(w)
    requires forall v :: v in vs ==> TypedValue(w, v)
    requires EncUnpacked(w, vs).Some? && |EncUnpacked(w, vs).value| < TWO_63
    ensures DecodeLoop(fs, EncUnpacked(w, vs).value + rest, st) ==
            if forall v :: v in vs ==> ItemLengthFits(w, v) then DecodeLoop(fs, rest, st) else Err
    decreases |vs|
  {
    hide EncVarint, EncTag, DecVarint32, DecodeLoop, EncValue, FindField, WellFormed, TypedValue, EncItem,
         ItemLengthFits, WellFormedField;
    if vs == [] {
      assert EncUnpacked(w, vs).value + rest == rest;
    } else {
      var first, others := EncItem(w, vs[0]).value, EncUnpacked(w, vs[1..]).value;
      assert EncUnpacked(w, vs).value + rest == first + (others + rest);
      ItemParts(w, vs[0]);
      assert vs[0] in vs;
      ItemSkipped(fs, w, vs[0], others + rest, st);
      assert forall v :: v in vs[1..] ==> v in vs;
      assert forall v :: v in vs ==> v == vs[0] || v in vs[1..];
      if ItemLengthFits(w, vs[0]) {
        UnpackedSkipped(fs, w, vs[1..], rest, st);
      }
    }
  }

  /** Packed entries: the reader ends exactly at the payload's end unless its array fills up. */
  lemma {:induction false} PackedRead(f: Field, w: Field, items: seq<Value>, vs: seq<Value>)
    requires CompatibleField(f, w) && WellFormedField(w) && Packable(w.ltype)
    requires forall v :: v in vs ==> TypedValue(w, v)
    requires EncPacked(w, vs).Some? && |EncPacked(w, vs).value| < TWO_63
    ensures var q := DecPacked(f, items, EncPacked(w, vs).value);
            match MergeItems(f, w, items, vs)
            case None => q.Err? || q.rest != []
            case Some(x) => q == Ok(x, [])
    decreases w, 1, vs
  {
    hide EncVarint, EncValue, DecValue, WellFormed, TypedValue, CompatibleField, MergeValue, WellFormedField;
    if vs != [] {
      var first, others := EncValue(w, vs[0]).value, EncPacked(w, vs[1..]).value;
      assert EncPacked(w, vs).value == first + others;
      assert vs[0] in vs;
      PackableNonEmpty(w, vs[0]);
      ValueRead(f, w, InitValue(f), vs[0], others);
      PackableMerges(f, w, vs[0]);
      if |items| < f.arraySize {
        PackedRead(f, w, items + [vs[0]], vs[1..]);
      }
    }
  }

  lemma PackableNonEmpty(w: Field, v: Value)
    requires Packable(w.ltype) && EncValue(w, v).Some?
    ensures EncValue(w, v).value != []
  {
    hide EncVarint;
  }

  lemma PackableMerges(f: Field, w: Field, v: Value)
    requires CompatibleField(f, w) && Packable(w.ltype)
    ensures MergeValue(f, w, InitValue(f), v) == Some(v)
  {
    hide Compatible;
  }

  lemma PackedParts(w: Field, vs: seq<Value>)
    requires vs != [] && Packable(w.ltype) && EncArray(w, vs).Some?
    ensures EncPacked(w, vs).Some? && EncArray(w, vs).value == EncTag(w.tag, WT_STRING) + EncBlock(EncPacked(w, vs).value)
    ensures |EncPacked(w, vs).value| < |EncArray(w, vs).value|
  {
    hide EncVarint, EncPacked;
    BlockLonger(EncPacked(w, vs).value);
  }

  /** A whole array known to the reader. */
  lemma ArrayRead(fs: seq<Field>, k: nat, w: Field, items: seq<Value>, vs: seq<Value>, rest: seq<byte>, st: Progress)
    requires FindField(fs, w.tag) == Some(k) && fs[k].slot < |st.s| && st.s[fs[k].slot] == Many(items)
    requires CompatibleField(fs[k], w) && WellFormedField(w) && w.rule.Repeated? && vs != []
    requires forall v :: v in vs ==> TypedValue(w, v)
    requires EncArray(w, vs).Some? && |EncArray(w, vs).value| < TWO_63
    ensures DecodeLoop(fs, EncArray(w, vs).value + rest, st) ==
      match MergeSlot(fs[k], w, Many(items), Many(vs))
      case None => Err
      case Some(d) => DecodeLoop(fs, rest, Progress(st.s[fs[k].slot := d], st.seen))
    decreases w, 2, 0
  {
    hide EncVarint, EncTag, EncBlock, DecVarint32, DecodeLoop, EncValue, DecValue, FindField, WellFormed,
         TypedValue, EncItem;
    hide CompatibleField, MergeItems, EncPacked, DecPacked, EncUnpacked, Block, MarkSeen;
    NotRequired(fs, k, st.seen, w);
    if Packable(w.ltype) {
      PackedParts(w, vs);
      var payload := EncPacked(w, vs).value;
      assert EncArray(w, vs).value + rest == EncTag(w.tag, WT_STRING) + (EncBlock(payload) + rest);
      KeyStep(fs, w.tag, WT_STRING, EncBlock(payload) + rest, st);
      BlockOfEnc(payload, rest);
      PackedRead(fs[k], w, items, vs);
    } else {
      UnpackedRead(fs, k, w, items, vs, rest, st);
    }
  }

  /** A whole array unknown to the reader. */
  lemma ArraySkipped(fs: seq<Field>, w: Field, vs: seq<Value>, rest: seq<byte>, st: Progress)
    requires FindField(fs, w.tag).None? && WellFormedField(w) && w.rule.Repeated? && vs != []
    requires forall v :: v in vs ==> TypedValue(w, v)
    requires EncArray(w, vs).Some? && |EncArray(w, vs).value| < TWO_63
    ensures DecodeLoop(fs, EncArray(w, vs).value + rest, st) ==
            if LengthsFit(w, Many(vs)) then DecodeLoop(fs, rest, st) else Err
  {
    hide EncVarint, EncTag, EncBlock, DecVarint32, DecodeLoop, EncValue, FindField, WellFormed, TypedValue, EncItem;
    hide EncPacked, EncUnpacked, Block, ItemLengthFits;
    if Packable(w.ltype) {
      PackedParts(w, vs);
      var payload := EncPacked(w, vs).value;
      assert EncArray(w, vs).value + rest == EncTag(w.tag, WT_STRING) + (EncBlock(payload) + rest);
      KeyStep(fs, w.tag, WT_STRING, EncBlock(payload) + rest, st);
      BlockOfEnc(payload, rest);
    } else {
      UnpackedSkipped(fs, w, vs, rest, st);
    }
  }

  // ---------------------------------------------------------------- whole structs

  /** A single item under the reader's field, stored as its rule says. */
  lemma SingleRead(f: Field, w: Field, s: Struct, d: Slot, v: Value, rest: seq<byte>)
    requires CompatibleField(f, w) && WellFormedField(w) && TypedValue(w, v)
    requires !w.rule.Repeated? && EncValue(w, v).Some? && |EncValue(w, v).value| < TWO_63
    requires match d
             case One(x) => x == v && !w.rule.Optional? && !w.rule.Oneof?
             case Opt(_, x) => x == v && w.rule.Optional?
             case Chosen(_, x) => x == v && w.rule.Oneof?
             case _ => false
    ensures DecField(f, WireType(w.ltype), EncValue(w, v).value + rest, s) ==
      if f.slot >= |s| then Err
      else match MergeSlot(f, w, s[f.slot], d)
           case None => Err
           case Some(x) => Ok(s[f.slot := x], rest)
    decreases w, 1
  {
    hide EncValue, DecValue, MergeValue, WellFormed, TypedValue, WellFormedField, Compatible;
    if f.slot < |s| {
      match s[f.slot]
      case One(h) => ValueRead(f, w, h, v, rest);
      case Opt(_, h) => ValueRead(f, w, h, v, rest);
      case Many(_) =>
      case Nothing => ValueRead(f, w, InitValue(f), v, rest);
      case Chosen(_, _) => ValueRead(f, w, InitValue(f), v, rest);
    }
  }

  lemma SingleFieldRead(fs: seq<Field>, w: Field, m: Struct, v: Value, rest: seq<byte>, st: Progress)
    requires w.slot < |m| && Emits(w, m[w.slot]) && WellFormedField(w) && TypedSlot(w, m[w.slot])
    requires !w.rule.Repeated? && m[w.slot].v == v
    requires forall k :: FindField(fs, w.tag) == Some(k) ==> CompatibleField(fs[k], w)
    requires EncItem(w, v).Some? && |EncItem(w, v).value| < TWO_63
    ensures DecodeLoop(fs, EncItem(w, v).value + rest, st) ==
      match MergeField(fs, w, st.s, m)
      case None => Err
      case Some(s) => DecodeLoop(fs, rest, Progress(s, SeenAfterField(fs, w, m, st.seen)))
    decreases w, 2
  {
    hide EncVarint, EncTag, EncItem, EncValue, DecodeLoop, DecField, MergeSlot, WellFormed, TypedValue, WellFormedField;
    hide CompatibleField, FindField, MarkSeen, ItemLengthFits, IsDefaultValue;
    ItemParts(w, v);
    match FindField(fs, w.tag)
    case None => ItemSkipped(fs, w, v, rest, st);
    case Some(k) =>
      ItemRead(fs, k, w, v, rest, st);
      SingleRead(fs[k], w, st.s, m[w.slot], v, rest);
  }

  /** One field of the writer's struct. */
  lemma FieldRead(fs: seq<Field>, w: Field, m: Struct, rest: seq<byte>, st: Progress)
    requires w.slot < |m| && WellFormedField(w) && TypedSlot(w, m[w.slot])
    requires forall k :: FindField(fs, w.tag) == Some(k) ==> CompatibleField(fs[k], w)
    requires EncField(w, m).Some? && |EncField(w, m).value| < TWO_63
    ensures DecodeLoop(fs, EncField(w, m).value + rest, st) ==
      match MergeField(fs, w, st.s, m)
      case None => Err
      case Some(s) => DecodeLoop(fs, rest, Progress(s, SeenAfterField(fs, w, m, st.seen)))
    decreases w, 3
  {
    hide EncItem, EncPacked, EncUnpacked, DecodeLoop, WellFormed, TypedValue, WellFormedField, CompatibleField,
         FindField, IsDefaultValue, MergeValue, MergeItems;
    if !Emits(w, m[w.slot]) {
      assert EncField(w, m).value == [];
      assert [] + rest == rest;
      assert Progress(st.s, st.seen) == st;
    } else if w.rule.Repeated? {
      ArrayFieldRead(fs, w, m, rest, st);
    } else {
      SingleFieldRead(fs, w, m, m[w.slot].v, rest, st);
    }
  }

  lemma ArrayFieldRead(fs: seq<Field>, w: Field, m: Struct, rest: seq<byte>, st: Progress)
    requires w.slot < |m| && WellFormedField(w) && TypedSlot(w, m[w.slot])
    requires w.rule.Repeated? && Emits(w, m[w.slot])
    requires forall k :: FindField(fs, w.tag) == Some(k) ==> CompatibleField(fs[k], w)
    requires EncField(w, m).Some? && |EncField(w, m).value| < TWO_63
    ensures DecodeLoop(fs, EncField(w, m).value + rest, st) ==
      match MergeField(fs, w, st.s, m)
      case None => Err
      case Some(s) => DecodeLoop(fs, rest, Progress(s, SeenAfterField(fs, w, m, st.seen)))
    decreases w, 2, 1
  {
    hide EncItem, EncArray, DecodeLoop, WellFormed, TypedValue, WellFormedField, FindField, MergeValue,
         MergeItems, LengthsFit, MarkSeen, Compatible;
    var vs := m[w.slot].items;
    match FindField(fs, w.tag)
    case None => ArraySkipped(fs, w, vs, rest, st);
    case Some(k) =>
      var f := fs[k];
      NotRequired(fs, k, st.seen, w);
      if f.slot < |st.s| && st.s[f.slot].Many? {
        ArrayRead(fs, k, w, st.s[f.slot].items, vs, rest, st);
      } else {
        ArrayNoRoom(fs, k, w, vs, rest, st);
      }
  }

  /** A destination of the wrong shape is refused. */
  lemma ArrayNoRoom(fs: seq<Field>, k: nat, w: Field, vs: seq<Value>, rest: seq<byte>, st: Progress)
    requires FindField(fs, w.tag) == Some(k) && (fs[k].slot >= |st.s| || !st.s[fs[k].slot].Many?)
    requires CompatibleField(fs[k], w) && WellFormedField(w) && w.rule.Repeated? && vs != []
    requires EncArray(w, vs).Some?
    ensures DecodeLoop(fs, EncArray(w, vs).value + rest, st) == Err
  {
    hide EncVarint, EncTag, EncBlock, DecodeLoop, EncValue, DecValue, FindField, WellFormed, EncItem,
         Compatible, EncPacked, Block, MarkSeen;
    if Packable(w.ltype) {
      PackedParts(w, vs);
      var payload := EncPacked(w, vs).value;
      assert EncArray(w, vs).value + rest == EncTag(w.tag, WT_STRING) + (EncBlock(payload) + rest);
      KeyStep(fs, w.tag, WT_STRING, EncBlock(payload) + rest, st);
    } else {
      var first, others := EncItem(w, vs[0]).value, EncUnpacked(w, vs[1..]).value;
      assert EncArray(w, vs).value + rest == first + (others + rest);
      ItemParts(w, vs[0]);
      ItemRead(fs, k, w, vs[0], others + rest, st);
    }
  }

  lemma EncStructParts(ws: seq<Field>, m: Struct)
    requires ws != [] && EncStruct(ws, m).Some?
    ensures EncField(ws[0], m).Some? && EncStruct(ws[1..], m).Some?
    ensures EncStruct(ws, m).value == EncField(ws[0], m).value + EncStruct(ws[1..], m).value
  {
    hide EncField;
  }

  /** The fields of the writer's struct, in order. */
  lemma {:induction false} FieldsRead(fs: seq<Field>, ws: seq<Field>, m: Struct, rest: seq<byte>, st: Progress)
    requires forall w :: w in ws ==> w.slot < |m| && WellFormedField(w) && TypedSlot(w, m[w.slot])
    requires SameTypes(fs, ws)
    requires EncStruct(ws, m).Some? && |EncStruct(ws, m).value| < TWO_63
    ensures DecodeLoop(fs, EncStruct(ws, m).value + rest, st) ==
      match MergeStruct(fs, ws, st.s, m)
      case None => Err
      case Some(s) => DecodeLoop(fs, rest, Progress(s, SeenAfter(fs, ws, m, st.seen)))
    decreases ws, 4
  {
    hide EncField, DecodeLoop, WellFormedField, TypedSlot, CompatibleField, FindField, MergeField, SeenAfterField;
    if ws == [] {
      assert EncStruct(ws, m).value + rest == rest;
      assert Progress(st.s, st.seen) == st;
    } else {
      EncStructParts(ws, m);
      var w := ws[0];
      assert w in ws;
      assert forall x :: x in ws[1..] ==> x in ws;
      var first, others := EncField(w, m).value, EncStruct(ws[1..], m).value;
      assert EncStruct(ws, m).value + rest == first + (others + rest);
      FieldRead(fs, w, m, others + rest, st);
      match MergeField(fs, w, st.s, m)
      case None =>
      case Some(s) => FieldsRead(fs, ws[1..], m, rest, Progress(s, SeenAfterField(fs, w, m, st.seen)));
    }
  }

  /** Decoding an encoded struct is merging it, exactly. */
  lemma StructRead(fs: seq<Field>, ws: seq<Field>, s: Struct, m: Struct)
    requires Compatible(fs, ws) && WellFormed(ws) && Typed(ws, m)
    requires EncStruct(ws, m).Some? && |EncStruct(ws, m).value| < TWO_63
    ensures DecodeNoInit(fs, EncStruct(ws, m).value, s) == AsParse(MergeStruct(fs, ws, s, m), [])
    decreases ws, 5
  {
    hide EncStruct, WellFormedField, TypedSlot, SameTypes, FindField, MergeStruct, SeenAfter, AllRequiredSeen;
    var b := EncStruct(ws, m).value;
    FieldsRead(fs, ws, m, [], Progress(s, {}));
    assert b + [] == b;
    AllSeen(fs, ws, m);
  }

  // ---------------------------------------------------------------- required fields

  lemma {:induction false} RequiredAt(fs: seq<Field>, i: nat) returns (k: nat)
    requires i < RequiredCount(fs)
    ensures k < |fs| && fs[k].rule.Required? && RequiredCount(fs[..k]) == i
    decreases |fs|
  {
    var n := |fs| - 1;
    if fs[n].rule.Required? && RequiredCount(fs[..n]) == i {
      k := n;
    } else {
      k := RequiredAt(fs[..n], i);
      assert fs[..n][..k] == fs[..k];
    }
  }

  lemma {:induction false} SeenGrows(fs: seq<Field>, ws: seq<Field>, m: Struct, seen: set<nat>)
    ensures seen <= SeenAfter(fs, ws, m, seen)
    decreases |ws|
  {
    if ws != [] { SeenGrows(fs, ws[1..], m, SeenAfterField(fs, ws[0], m, seen)); }
  }

  lemma {:induction false} SeenIncludes(fs: seq<Field>, k: nat, ws: seq<Field>, m: Struct, w: Field, seen: set<nat>)
    requires w in ws && w.slot < |m| && Emits(w, m[w.slot]) && FindField(fs, w.tag) == Some(k)
    ensures MarkSeen(fs, k, {}) <= SeenAfter(fs, ws, m, seen)
    decreases |ws|
  {
    hide FindField, Emits;
    if ws[0] == w {
      SeenGrows(fs, ws[1..], m, SeenAfterField(fs, w, m, seen));
    } else {
      assert w in ws[1..];
      SeenIncludes(fs, k, ws[1..], m, w, SeenAfterField(fs, ws[0], m, seen));
    }
  }

  /** Every field the reader requires has been met once the writer's fields are read. */
  lemma AllSeen(fs: seq<Field>, ws: seq<Field>, m: Struct)
    requires Compatible(fs, ws) && Typed(ws, m)
    ensures AllRequiredSeen(fs, SeenAfter(fs, ws, m, {}))
  {
    hide RequiredCount, SeenAfter, TypedValue, SlotCount, FindField;
    forall i | 0 <= i < Min(RequiredCount(fs), MAX_REQUIRED)
      ensures i in SeenAfter(fs, ws, m, {})
    {
      var k := RequiredAt(fs, i);
      assert fs[k] in fs;
      var w :| w in ws && w.tag == fs[k].tag;
      assert CompatibleField(fs[k], w);
      FindDistinct(fs, k);
      assert TypedSlot(w, m[w.slot]);
      SeenIncludes(fs, k, ws, m, w, {});
    }
  }

  lemma FindDistinct(fs: seq<Field>, k: nat)
    requires k < |fs| && DistinctTags(fs)
    ensures FindField(fs, fs[k].tag) == Some(k)
  {
    var r := FindField(fs, fs[k].tag);
    assert r.Some?;
    if r.value < k {
      assert false;
    } else if r.value > k {
      assert false;
    }
  }
}
