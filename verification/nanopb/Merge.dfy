/**
 * What decoding an encoded message means, without bytes: `MergeStruct` lays the
 * content of a struct of a writer's schema over a struct of a reader's schema.
 * None stands for a decoder that fails: a full array, a string or byte array too
 * long for its storage, or a length prefix of 2^32 or more.
 */
module Merge {
  import opened Bits
  import opened Schema
  import opened Wire

  // ---------------------------------------------------------------- reader and writer

  /** The reader's field can take what the writer's field of the same tag sends. */
  ghost predicate CompatibleField(f: Field, w: Field)
    decreases f, 0
  {
    && f.rule == w.rule
    && match (f.ltype, w.ltype)
       case (Message(fsub), Message(wsub)) => Compatible(fsub, wsub)
       case (_, _) => f.ltype == w.ltype && (f.ltype.Text? || f.ltype.Bytes? || f.dataSize == w.dataSize)
  }

  /** Fields that share a tag have the same rule and type. */
  ghost predicate SameTypes(fs: seq<Field>, ws: seq<Field>)
    decreases fs, 1
  {
    forall f, w :: f in fs && w in ws && f.tag == w.tag ==> CompatibleField(f, w)
  }

  /** Every field the reader requires is one the writer has. */
  ghost predicate CoversRequired(fs: seq<Field>, ws: seq<Field>) {
    forall f :: f in fs && f.rule.Required? ==> exists w :: w in ws && w.tag == f.tag
  }

  /** A struct written under `ws` makes sense to a reader that knows `fs`. */
  ghost predicate Compatible(fs: seq<Field>, ws: seq<Field>)
    decreases fs, 2
  {
    DistinctTags(fs) && SameTypes(fs, ws) && CoversRequired(fs, ws)
  }

  // ---------------------------------------------------------------- what is on the wire

  /** Whether the encoder writes anything for this field. */
  predicate Emits(w: Field, d: Slot) {
    match (w.rule, d)
    case (Optional, Opt(has, _)) => has
    case (Singular, One(v)) => !IsDefaultValue(w, v)
    case (Repeated, Many(items)) => items != []
    case (Oneof, Nothing) => false
    case (Oneof, Chosen(which, _)) => which == w.tag
    case _ => true
  }

  /** The length prefix of this item, if it has one, fits 32 bits. */
  predicate ItemLengthFits(w: Field, v: Value) {
    w.ltype.Message? && v.Msg? ==>
      var body := EncStruct(w.ltype.fields, v.s); body.Some? && |body.value| < TWO_32
  }

  predicate PayloadLengthFits(w: Field, items: seq<Value>) {
    var payload := EncPacked(w, items);
    payload.Some? && |payload.value| < TWO_32
  }

  /** The outermost length prefixes the encoder writes for this field fit 32 bits. */
  predicate LengthsFit(w: Field, d: Slot) {
    match d
    case Nothing => true
    case Many(items) =>
      if Packable(w.ltype) then PayloadLengthFits(w, items)
      else forall v :: v in items ==> ItemLengthFits(w, v)
    case One(v) => ItemLengthFits(w, v)
    case Opt(_, v) => ItemLengthFits(w, v)
    case Chosen(_, v) => ItemLengthFits(w, v)
  }

  // ---------------------------------------------------------------- merging

  function MergeValue(f: Field, w: Field, held: Value, v: Value): Option<Value>
    decreases w, 0
  {
    match (f.ltype, w.ltype, v)
    case (Message(fsub), Message(wsub), Msg(m)) =>
      if !held.Msg? || !ItemLengthFits(w, v) then None
      else
        (match MergeStruct(fsub, wsub, held.s, m)
         case None => None
         case Some(s) => Some(Msg(s)))
    case (Bytes, _, Data(b)) => if |b| + BYTES_HEADER <= f.dataSize then Some(v) else None
    case (Text, _, Data(b)) => if |b| + 1 <= f.dataSize then Some(v) else None
    case _ => Some(v)
  }

  /** Entries are appended while the reader's array has room. */
  function MergeItems(f: Field, w: Field, items: seq<Value>, vs: seq<Value>): Option<seq<Value>>
    decreases w, 1, vs
  {
    if vs == [] then Some(items)
    else if |items| >= f.arraySize then None
    else
      match MergeValue(f, w, InitValue(f), vs[0])
      case None => None
      case Some(x) => MergeItems(f, w, items + [x], vs[1..])
  }

  function MergeSlot(f: Field, w: Field, held: Slot, d: Slot): Option<Slot>
    decreases w, 2
  {
    match (f.rule, held, d)
    case (Required, One(h), One(v)) =>
      var x := MergeValue(f, w, h, v); if x.Some? then Some(One(x.value)) else None
    case (Singular, One(h), One(v)) =>
      var x := MergeValue(f, w, h, v); if x.Some? then Some(One(x.value)) else None
    case (Optional, Opt(_, h), Opt(_, v)) =>
      var x := MergeValue(f, w, h, v); if x.Some? then Some(Opt(true, x.value)) else None
    case (Repeated, Many(items), Many(vs)) =>
      if Packable(w.ltype) && !PayloadLengthFits(w, vs) then None
      else
        var x := MergeItems(f, w, items, vs); if x.Some? then Some(Many(x.value)) else None
    case (Oneof, Nothing, Chosen(_, v)) =>
      var x := MergeValue(f, w, InitValue(f), v); if x.Some? then Some(Chosen(f.tag, x.value)) else None
    case (Oneof, Chosen(_, _), Chosen(_, v)) =>
      var x := MergeValue(f, w, InitValue(f), v); if x.Some? then Some(Chosen(f.tag, x.value)) else None
    case _ => None
  }

  /** One field of the writer; a field unknown to the reader leaves the struct alone. */
  function MergeField(fs: seq<Field>, w: Field, s: Struct, m: Struct): Option<Struct>
    decreases w, 3
  {
    if w.slot >= |m| then None
    else if !Emits(w, m[w.slot]) then Some(s)
    else
      match FindField(fs, w.tag)
      case None => if LengthsFit(w, m[w.slot]) then Some(s) else None
      case Some(k) =>
        if fs[k].slot >= |s| then None
        else
          match MergeSlot(fs[k], w, s[fs[k].slot], m[w.slot])
          case None => None
          case Some(d) => Some(s[fs[k].slot := d])
  }

  /** The writer's fields in order, over a struct of the reader. */
  function MergeStruct(fs: seq<Field>, ws: seq<Field>, s: Struct, m: Struct): Option<Struct>
    decreases ws, 4
  {
    if ws == [] then Some(s)
    else
      match MergeField(fs, ws[0], s, m)
      case None => None
      case Some(s') => MergeStruct(fs, ws[1..], s', m)
  }

  /** The required fields met while one encoded field is read. */
  function SeenAfterField(fs: seq<Field>, w: Field, m: Struct, seen: set<nat>): set<nat> {
    if w.slot < |m| && Emits(w, m[w.slot]) then
      match FindField(fs, w.tag)
      case None => seen
      case Some(k) => MarkSeen(fs, k, seen)
    else seen
  }

  function SeenAfter(fs: seq<Field>, ws: seq<Field>, m: Struct, seen: set<nat>): set<nat> {
    if ws == [] then seen else SeenAfter(fs, ws[1..], m, SeenAfterField(fs, ws[0], m, seen))
  }
}
