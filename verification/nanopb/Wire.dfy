/**
 * The wire format as pb_encode.c writes it and pb_decode.c reads it, as functions
 * on byte strings.  The stream methods are proved against these functions.
 */
module Wire {
  import opened Bits
  import opened Schema
  import opened Varint

  const WT_VARINT: nat := 0
  const WT_64BIT: nat := 1
  const WT_STRING: nat := 2
  const WT_32BIT: nat := 5

  /** pb_encode_tag_for_field */
  function WireType(lt: LType): (wt: nat)
    ensures wt < 8
  {
    if lt.Int? || lt.UInt? || lt.SInt? then WT_VARINT
    else if lt.Fixed32? then WT_32BIT
    else if lt.Fixed64? then WT_64BIT
    else WT_STRING
  }

  // ================================================================ encoding
  // None stands for "the encoder returns false on every stream".

  function Cat(a: Option<seq<byte>>, b: Option<seq<byte>>): Option<seq<byte>> {
    if a.Some? && b.Some? then Some(a.value + b.value) else None
  }

  function EncTag(tag: nat, wireType: nat): seq<byte> {
    EncVarint(8 * tag + wireType)
  }

  /** pb_encode_string: a length and that many bytes. */
  function EncBlock(b: seq<byte>): seq<byte> {
    EncVarint(|b|) + b
  }

  /** The function PB_ENCODERS lists for the field's type. */
  function EncValue(f: Field, v: Value): Option<seq<byte>>
    decreases f, 0
  {
    match (f.ltype, v)
    case (Int, Num(n)) =>
      if IntegerSize(f.dataSize) && FitsSigned(n, f.dataSize) then Some(EncVarint(ToUnsigned(n))) else None
    case (UInt, Num(n)) =>
      if IntegerSize(f.dataSize) && 0 <= n < Range(f.dataSize) then Some(EncVarint(n)) else None
    case (SInt, Num(n)) =>
      if IntegerSize(f.dataSize) && FitsSigned(n, f.dataSize) then Some(EncVarint(ZigZag(n))) else None
    case (Fixed32, Num(n)) => if 0 <= n < TWO_32 then Some(EncFixed(n, 4)) else None
    case (Fixed64, Num(n)) => if 0 <= n < TWO_64 then Some(EncFixed(n, 8)) else None
    case (Bytes, Data(b)) => if |b| + BYTES_HEADER <= f.dataSize then Some(EncBlock(b)) else None
    case (Text, Data(b)) => if |b| <= f.dataSize then Some(EncBlock(b)) else None
    case (FixedBytes, Data(b)) => if |b| == f.dataSize then Some(EncBlock(b)) else None
    case (Message(sub), Msg(s)) =>
      var body := EncStruct(sub, s);
      if body.Some? then Some(EncBlock(body.value)) else None
    case _ => None
  }

  /** Tag and value. */
  function EncItem(f: Field, v: Value): Option<seq<byte>>
    decreases f, 1
  {
    Cat(Some(EncTag(f.tag, WireType(f.ltype))), EncValue(f, v))
  }

  /** The payload of a packed array. */
  function EncPacked(f: Field, items: seq<Value>): Option<seq<byte>>
    decreases f, 2, items
  {
    if items == [] then Some([]) else Cat(EncValue(f, items[0]), EncPacked(f, items[1..]))
  }

  /** The entries of an array that cannot be packed. */
  function EncUnpacked(f: Field, items: seq<Value>): Option<seq<byte>>
    decreases f, 2, items
  {
    if items == [] then Some([]) else Cat(EncItem(f, items[0]), EncUnpacked(f, items[1..]))
  }

  /** encode_array */
  function EncArray(f: Field, items: seq<Value>): Option<seq<byte>>
    decreases f, 3
  {
    if items == [] then Some([])
    else if |items| > f.arraySize then None
    else if Packable(f.ltype) then
      var payload := EncPacked(f, items);
      if payload.Some? then Some(EncTag(f.tag, WT_STRING) + EncBlock(payload.value)) else None
    else EncUnpacked(f, items)
  }

  /** pb_check_proto3_default_value on a data item of an implicit-presence field. */
  predicate IsDefaultValue(f: Field, v: Value)
    decreases f, 0
  {
    match (f.ltype, v)
    case (Message(sub), Msg(s)) => AllDefault(sub, s)
    case (FixedBytes, Data(b)) => f.dataSize == 0
    case (_, Data(b)) => b == []
    case (_, Num(n)) => n == 0
    case _ => false
  }

  /** pb_check_proto3_default_value on a field of a submessage. */
  predicate IsDefaultSlot(f: Field, d: Slot)
    decreases f, 1
  {
    match (f.rule, d)
    case (Required, _) => false
    case (Repeated, Many(items)) => items == []
    case (Oneof, Nothing) => true
    case (Oneof, Chosen(which, _)) => which == 0
    case (Optional, Opt(has, _)) => !has
    case (Singular, One(v)) => IsDefaultValue(f, v)
    case _ => false
  }

  predicate AllDefault(fs: seq<Field>, s: Struct)
    decreases fs, 2
  {
    fs == [] || (fs[0].slot < |s| && IsDefaultSlot(fs[0], s[fs[0].slot]) && AllDefault(fs[1..], s))
  }

  /** encode_basic_field */
  function EncField(f: Field, s: Struct): Option<seq<byte>>
    decreases f, 4
  {
    if f.slot >= |s| then None
    else
      match (f.rule, s[f.slot])
      case (Required, One(v)) => EncItem(f, v)
      case (Optional, Opt(has, v)) => if has then EncItem(f, v) else Some([])
      case (Singular, One(v)) => if IsDefaultValue(f, v) then Some([]) else EncItem(f, v)
      case (Repeated, Many(items)) => EncArray(f, items)
      case (Oneof, Nothing) => Some([])
      case (Oneof, Chosen(which, v)) => if which == f.tag then EncItem(f, v) else Some([])
      case _ => None
  }

  /** pb_encode: every field in descriptor order. */
  function EncStruct(fs: seq<Field>, s: Struct): Option<seq<byte>>
    decreases fs, 5
  {
    if fs == [] then Some([]) else Cat(EncField(fs[0], s), EncStruct(fs[1..], s))
  }

  // ================================================================ decoding
  // Err stands for "the decoder returns false".

  function Take(b: seq<byte>, n: nat): (p: Parse<seq<byte>>)
    ensures p.Ok? ==> |p.rest| + n == |b|
  {
    if |b| < n then Err else Ok(b[..n], b[n..])
  }

  /** pb_make_string_substream: the bytes of a length-prefixed block. */
  function Block(b: seq<byte>): (p: Parse<seq<byte>>)
    ensures p.Ok? ==> |p.rest| < |b| && |p.value| < |b|
  {
    match DecVarint32(b)
    case Err => Err
    case Ok(n, rest) => Take(rest, n)
  }

  function SkipVarint(b: seq<byte>): (p: Parse<()>)
    ensures p.Ok? ==> |p.rest| < |b|
  {
    if b == [] then Err
    else if b[0] >= 128 then SkipVarint(b[1..])
    else Ok((), b[1..])
  }

  function Forget<T>(p: Parse<T>): (q: Parse<()>)
    ensures q.Ok? <==> p.Ok?
    ensures p.Ok? ==> q.rest == p.rest
  {
    if p.Ok? then Ok((), p.rest) else Err
  }

  /** pb_skip_field */
  function SkipField(wireType: nat, b: seq<byte>): (p: Parse<()>)
    ensures p.Ok? ==> |p.rest| <= |b|
  {
    if wireType == WT_VARINT then SkipVarint(b)
    else if wireType == WT_64BIT then Forget(Take(b, 8))
    else if wireType == WT_STRING then Forget(Block(b))
    else if wireType == WT_32BIT then Forget(Take(b, 4))
    else Err
  }

  /** The C string a character buffer holds. */
  function UpToNul(b: seq<byte>): (r: seq<byte>)
    ensures |r| <= |b| && 0 !in r
  {
    if b == [] || b[0] == 0 then [] else [b[0]] + UpToNul(b[1..])
  }

  function MapNum(p: Parse<nat>): (q: Parse<Value>)
    ensures q.Ok? ==> p.Ok? && q.rest == p.rest
  {
    if p.Ok? then Ok(Num(p.value), p.rest) else Err
  }

  /** The value pb_dec_varint stores: a field of at most 32 bits takes the low half first. */
  function SignedOf(u: nat, size: nat): int
    requires u < TWO_64
  {
    if size == 8 then ToSigned(u)
    else if u % TWO_32 >= TWO_31 then u % TWO_32 - TWO_32
    else u % TWO_32
  }

  /** pb_dec_varint, pb_dec_uvarint, pb_dec_svarint */
  function DecInteger(f: Field, b: seq<byte>): (p: Parse<Value>)
    ensures p.Ok? ==> |p.rest| < |b|
  {
    match DecVarint64(b)
    case Err => Err
    case Ok(u, rest) =>
      if !IntegerSize(f.dataSize) || u >= TWO_64 then Err
      else if f.ltype.UInt? then
        if u < Range(f.dataSize) then Ok(Num(u), rest) else Err
      else
        var v := if f.ltype.SInt? then UnZigZag(u) else SignedOf(u, f.dataSize);
        if FitsSigned(v, f.dataSize) then Ok(Num(v), rest) else Err
  }

  /** pb_dec_bytes, pb_dec_string, pb_dec_fixed_length_bytes */
  function DecData(f: Field, b: seq<byte>): (p: Parse<Value>)
    ensures p.Ok? ==> |p.rest| < |b|
  {
    match DecVarint32(b)
    case Err => Err
    case Ok(n, rest) =>
      if f.ltype.Bytes? && n + BYTES_HEADER > f.dataSize then Err
      else if f.ltype.Text? && n + 1 > f.dataSize then Err
      else if f.ltype.FixedBytes? && n == 0 then Ok(Data(Zeros(f.dataSize)), rest)
      else if f.ltype.FixedBytes? && n != f.dataSize then Err
      else
        match Take(rest, n)
        case Err => Err
        case Ok(data, rest') => Ok(Data(if f.ltype.Text? then UpToNul(data) else data), rest')
  }

  /** The function PB_DECODERS lists for the field's type; `held` is what the data item holds. */
  function DecValue(f: Field, held: Value, b: seq<byte>): (p: Parse<Value>)
    ensures p.Ok? ==> |p.rest| <= |b|
    decreases |b|, 1
  {
    match f.ltype
    case Fixed32 => MapNum(DecFixed(b, 4))
    case Fixed64 => MapNum(DecFixed(b, 8))
    case Message(sub) =>
      if !held.Msg? then Err
      else
        (match Block(b)
         case Err => Err
         case Ok(body, rest) =>
           match DecodeNoInit(sub, body, held.s)
           case Err => Err
           case Ok(s, _) => Ok(Msg(s), rest))
    case _ => if Packable(f.ltype) then DecInteger(f, b) else DecData(f, b)
  }

  /** The loop over a packed array: entries while there are bytes and room. */
  function DecPacked(f: Field, items: seq<Value>, b: seq<byte>): (p: Parse<seq<Value>>)
    decreases |b|, 2, f.arraySize - |items|
  {
    if b == [] || |items| >= f.arraySize then Ok(items, b)
    else
      match DecValue(f, InitValue(f), b)
      case Err => Err
      case Ok(v, rest) => DecPacked(f, items + [v], rest)
  }

  /** decode_static_field */
  function DecField(f: Field, wireType: nat, b: seq<byte>, s: Struct): (p: Parse<Struct>)
    ensures p.Ok? ==> |p.rest| <= |b|
    decreases |b|, 3
  {
    if f.slot >= |s| then Err
    else
      match (f.rule, s[f.slot])
      case (Required, One(held)) => Store(s, f.slot, v => One(v), DecValue(f, held, b))
      case (Singular, One(held)) => Store(s, f.slot, v => One(v), DecValue(f, held, b))
      case (Optional, Opt(_, held)) => Store(s, f.slot, v => Opt(true, v), DecValue(f, held, b))
      case (Repeated, Many(items)) =>
        if wireType == WT_STRING && Packable(f.ltype) then
          match Block(b)
          case Err => Err
          case Ok(payload, rest) =>
            var q := DecPacked(f, items, payload);
            if q.Ok? && q.rest == [] then Ok(s[f.slot := Many(q.value)], rest) else Err
        else if |items| >= f.arraySize then Err
        else Store(s, f.slot, v => Many(items + [v]), DecValue(f, InitValue(f), b))
      case (Oneof, Nothing) => Store(s, f.slot, v => Chosen(f.tag, v), DecValue(f, InitValue(f), b))
      case (Oneof, Chosen(_, _)) => Store(s, f.slot, v => Chosen(f.tag, v), DecValue(f, InitValue(f), b))
      case _ => Err
  }

  function Store(s: Struct, slot: nat, wrap: Value -> Slot, p: Parse<Value>): (q: Parse<Struct>)
    requires slot < |s|
    ensures q.Ok? ==> p.Ok? && q.rest == p.rest
  {
    if p.Ok? then Ok(s[slot := wrap(p.value)], p.rest) else Err
  }

  /** The state of the loop of pb_decode_noinit: the destination and the fields_seen bits. */
  datatype Progress = Progress(s: Struct, seen: set<nat>)

  /** fields_seen after field `k` was met. */
  function MarkSeen(fs: seq<Field>, k: nat, seen: set<nat>): set<nat>
    requires k < |fs|
  {
    var index := RequiredCount(fs[..k]);
    if fs[k].rule.Required? && index < MAX_REQUIRED then seen + {index} else seen
  }

  /** The loop of pb_decode_noinit.  A zero tag ends the message early. */
  function DecodeLoop(fs: seq<Field>, b: seq<byte>, st: Progress): (p: Parse<Progress>)
    ensures p.Ok? ==> |p.rest| <= |b|
    decreases |b|, 4
  {
    if b == [] then Ok(st, b)
    else
      match DecVarint32(b)
      case Err => Err
      case Ok(key, rest) =>
        if key == 0 then Ok(st, rest)
        else
          match FindField(fs, key / 8)
          case Some(k) =>
            (match DecField(fs[k], key % 8, rest, st.s)
             case Err => Err
             case Ok(s, rest') => DecodeLoop(fs, rest', Progress(s, MarkSeen(fs, k, st.seen))))
          case None =>
            // The iterator of an empty message stands on its terminator, whose tag is 0.
            if fs == [] && key / 8 == 0 then Err
            else
              match SkipField(key % 8, rest)
              case Err => Err
              case Ok(_, rest') => DecodeLoop(fs, rest', st)
  }

  function Min(a: nat, b: nat): nat {
    if a < b then a else b
  }

  /** pb_decode_noinit's check of fields_seen. */
  predicate AllRequiredSeen(fs: seq<Field>, seen: set<nat>) {
    forall i :: 0 <= i < Min(RequiredCount(fs), MAX_REQUIRED) ==> i in seen
  }

  /** pb_decode_noinit */
  function DecodeNoInit(fs: seq<Field>, b: seq<byte>, s: Struct): (p: Parse<Struct>)
    ensures p.Ok? ==> |p.rest| <= |b|
    decreases |b|, 5
  {
    match DecodeLoop(fs, b, Progress(s, {}))
    case Err => Err
    case Ok(st, rest) => if AllRequiredSeen(fs, st.seen) then Ok(st.s, rest) else Err
  }

  /** pb_decode */
  function Decode(fs: seq<Field>, b: seq<byte>): (p: Parse<Struct>) {
    DecodeNoInit(fs, b, InitStruct(fs))
  }
}
