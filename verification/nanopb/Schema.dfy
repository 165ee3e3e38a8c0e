/**
 * Message descriptors and message contents.
 *
 * A schema is the pb_field_t array of a message with static allocation.  A static
 * submessage lies inside its parent struct, so a schema is a finite tree.  The data
 * of a field is found through its `slot`, which stands for the accumulated
 * data_offset; the members of one oneof share a slot, as they share a C union.
 */
module Schema {
  import opened Bits

  datatype Option<+T> = None | Some(value: T)

  /** PB_LTYPE_VARINT, UVARINT, SVARINT, FIXED32, FIXED64, BYTES, STRING, FIXED_LENGTH_BYTES, SUBMESSAGE */
  datatype LType =
    | Int | UInt | SInt | Fixed32 | Fixed64
    | Bytes | Text | FixedBytes
    | Message(fields: seq<Field>)

  /**
   * PB_HTYPE_REQUIRED, OPTIONAL with a has_ flag, OPTIONAL without one (proto3
   * singular), REPEATED with a count field, ONEOF.
   */
  datatype Rule = Required | Optional | Singular | Repeated | Oneof

  /**
   * pb_field_t; `init` is the default value `ptr` points to, if any.  The two offsets are
   * those of the C struct: data relative to the end of the previous field, or
   * UNION_MEMBER for a later member of a oneof, and size relative to the data.
   */
  datatype Field = Field(tag: nat, rule: Rule, ltype: LType, dataSize: nat, arraySize: nat,
                         slot: nat, init: Option<Value>, dataOffset: nat, sizeOffset: int)

  /** The content of one data item: a number, a byte or character string, or a struct. */
  datatype Value = Num(n: int) | Data(b: seq<byte>) | Msg(s: seq<Slot>)

  /**
   * The storage of a field: a plain item, an item with its has_ flag, the first
   * `count` entries of an array, or a union whose which_ field is zero or `which`.
   */
  datatype Slot =
    | One(v: Value)
    | Opt(has: bool, v: Value)
    | Many(items: seq<Value>)
    | Nothing
    | Chosen(which: nat, v: Value)

  type Struct = seq<Slot>

  /** PB_SIZE_MAX of a 32-bit pb_size_t */
  const UNION_MEMBER: nat := 0xFFFF_FFFF
  const TAG_LIMIT: nat := 0x2000_0000
  const BYTES_HEADER: nat := 4
  const MAX_REQUIRED: nat := 64

  /** PB_LTYPE(type) <= PB_LTYPE_LAST_PACKABLE */
  predicate Packable(lt: LType) {
    lt.Int? || lt.UInt? || lt.SInt? || lt.Fixed32? || lt.Fixed64?
  }

  predicate IntegerSize(n: nat) {
    n == 1 || n == 2 || n == 4 || n == 8
  }

  function Range(n: nat): int
    requires IntegerSize(n)
  {
    if n == 1 then 0x100 else if n == 2 then 0x1_0000 else if n == 4 then TWO_32 else TWO_64
  }

  predicate FitsSigned(v: int, n: nat)
    requires IntegerSize(n)
  {
    -(Range(n) / 2) <= v < Range(n) / 2
  }

  // ---------------------------------------------------------------- lookups

  /** The first field with the given tag. */
  function FindField(fs: seq<Field>, tag: nat): (r: Option<nat>)
    ensures r.Some? ==> r.value < |fs| && fs[r.value].tag == tag
    ensures r.Some? ==> forall i :: 0 <= i < r.value ==> fs[i].tag != tag
    ensures r.None? ==> forall i :: 0 <= i < |fs| ==> fs[i].tag != tag
  {
    if fs == [] then None
    else if fs[0].tag == tag then Some(0)
    else
      match FindField(fs[1..], tag)
      case None => None
      case Some(k) => Some(k + 1)
  }

  /** How many fields of `fs` are required; the index of a required field counts those before it. */
  function RequiredCount(fs: seq<Field>): (n: nat)
    ensures n <= |fs|
  {
    if fs == [] then 0
    else RequiredCount(fs[..|fs| - 1]) + if fs[|fs| - 1].rule.Required? then 1 else 0
  }

  /** The number of storage slots a message of this schema has. */
  function SlotCount(fs: seq<Field>): (n: nat)
    ensures forall f :: f in fs ==> f.slot < n
  {
    if fs == [] then 0
    else
      var rest := SlotCount(fs[1..]);
      if fs[0].slot < rest then rest else fs[0].slot + 1
  }

  // ---------------------------------------------------------------- well-formedness

  ghost predicate DistinctTags(fs: seq<Field>) {
    forall i, j :: 0 <= i < j < |fs| ==> fs[i].tag != fs[j].tag
  }

  /** Two fields share storage only as members of one oneof. */
  ghost predicate SeparateSlots(fs: seq<Field>) {
    forall i, j :: 0 <= i < j < |fs| && fs[i].slot == fs[j].slot ==> fs[i].rule.Oneof? && fs[j].rule.Oneof?
  }

  ghost predicate WellFormed(fs: seq<Field>) {
    && DistinctTags(fs)
    && SeparateSlots(fs)
    && forall f :: f in fs ==> WellFormedField(f)
  }

  ghost predicate WellFormedField(f: Field) {
    && 0 < f.tag < TAG_LIMIT
    && f.dataSize < TWO_32 && f.arraySize < TWO_32
    && (f.rule.Singular? ==> f.init.None?)
    && (f.ltype.Int? || f.ltype.UInt? || f.ltype.SInt? ==> IntegerSize(f.dataSize))
    && (f.ltype.Text? ==> f.dataSize > 0)
    && (f.ltype.Message? ==> WellFormed(f.ltype.fields))
  }

  // ---------------------------------------------------------------- typed contents

  /** What the C type of a field's data item guarantees about its content. */
  ghost predicate TypedValue(f: Field, v: Value) {
    match f.ltype
    case Int => v.Num? && IntegerSize(f.dataSize) && FitsSigned(v.n, f.dataSize)
    case SInt => v.Num? && IntegerSize(f.dataSize) && FitsSigned(v.n, f.dataSize)
    case UInt => v.Num? && IntegerSize(f.dataSize) && 0 <= v.n < Range(f.dataSize)
    case Fixed32 => v.Num? && 0 <= v.n < TWO_32
    case Fixed64 => v.Num? && 0 <= v.n < TWO_64
    case Bytes => v.Data? && |v.b| < TWO_32
    case Text => v.Data? && |v.b| <= f.dataSize && 0 !in v.b
    case FixedBytes => v.Data? && |v.b| == f.dataSize
    case Message(sub) => v.Msg? && Typed(sub, v.s)
  }

  ghost predicate TypedSlot(f: Field, d: Slot) {
    match f.rule
    case Required => d.One? && TypedValue(f, d.v)
    case Singular => d.One? && TypedValue(f, d.v)
    case Optional => d.Opt? && TypedValue(f, d.v)
    case Repeated => d.Many? && forall v :: v in d.items ==> TypedValue(f, v)
    case Oneof => d.Nothing? || (d.Chosen? && d.which > 0 && (d.which == f.tag ==> TypedValue(f, d.v)))
  }

  /** `s` is a struct of the C type that goes with `fs`. */
  ghost predicate Typed(fs: seq<Field>, s: Struct)
    decreases fs
  {
    && |s| == SlotCount(fs)
    && forall f :: f in fs ==> TypedSlot(f, s[f.slot])
  }

  // ---------------------------------------------------------------- defaults

  function Zeros(n: nat): (b: seq<byte>)
    ensures |b| == n && forall x :: x in b ==> x == 0
  {
    seq(n, _ => 0)
  }

  /** What pb_field_set_to_default stores in a data item. */
  function InitValue(f: Field): Value
    decreases f, 0
  {
    match f.ltype
    case Message(sub) => Msg(InitStruct(sub))
    case _ =>
      if f.init.Some? then f.init.value
      else if Packable(f.ltype) then Num(0)
      else if f.ltype.FixedBytes? then Data(Zeros(f.dataSize))
      else Data([])
  }

  function InitSlot(f: Field): Slot
    decreases f, 1
  {
    match f.rule
    case Required => One(InitValue(f))
    case Singular => One(InitValue(f))
    case Optional => Opt(false, InitValue(f))
    case Repeated => Many([])
    case Oneof => Nothing
  }

  /** pb_message_set_to_defaults, starting from a struct that holds `s`. */
  function InitFrom(fs: seq<Field>, s: Struct): (r: Struct)
    ensures |r| == |s|
    decreases fs, 0
  {
    if fs == [] || fs[0].slot >= |s| then s
    else InitFrom(fs[1..], s[fs[0].slot := InitSlot(fs[0])])
  }

  function InitStruct(fs: seq<Field>): (r: Struct)
    ensures |r| == SlotCount(fs)
    decreases fs, 1
  {
    InitFrom(fs, seq(SlotCount(fs), _ => Nothing))
  }
}
