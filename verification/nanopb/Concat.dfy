/**
 * Concatenation is merge: decoding `a + b` into a struct is decoding `a` and then `b`
 * into the same struct.
 */
module Concat {
  import opened Bits
  import opened Schema
  import opened Varint
  import opened Wire
  import opened Merge
  import opened MergeProof
  import opened RoundTrip

  // ---------------------------------------------------------------- readers do not look ahead

  lemma {:induction false} More64(b: seq<byte>, y: seq<byte>, k: nat, r: nat)
    requires DecVarint64From(b, k, r).Ok?
    ensures DecVarint64From(b + y, k, r) == Ok(DecVarint64From(b, k, r).value, DecVarint64From(b, k, r).rest + y)
    decreases |b|
  {
    hide Or, Shl64;
    assert (b + y)[1..] == b[1..] + y;
    if b[0] >= 128 { More64(b[1..], y, (k + 7) % 256, Or(r, Shl64(b[0] % 128, k))); }
  }

  lemma {:induction false} More32From(b: seq<byte>, y: seq<byte>, k: nat, r: nat)
    requires DecVarint32From(b, k, r).Ok?
    ensures DecVarint32From(b + y, k, r) == Ok(DecVarint32From(b, k, r).value, DecVarint32From(b, k, r).rest + y)
    decreases |b|
  {
    hide Or, Shl32, BadExtension;
    assert (b + y)[1..] == b[1..] + y;
    if b[0] >= 128 {
      More32From(b[1..], y, (k + 7) % 256, if k >= 32 then r else Or(r, Shl32(b[0] % 128, k)));
    }
  }

  lemma More32(b: seq<byte>, y: seq<byte>)
    requires DecVarint32(b).Ok?
    ensures DecVarint32(b + y) == Ok(DecVarint32(b).value, DecVarint32(b).rest + y)
  {
    hide DecVarint32From;
    assert (b + y)[1..] == b[1..] + y;
    if b[0] >= 128 { More32From(b[1..], y, 7, b[0] % 128); }
  }

  lemma MoreTake(b: seq<byte>, y: seq<byte>, n: nat)
    requires Take(b, n).Ok?
    ensures Take(b + y, n) == Ok(Take(b, n).value, Take(b, n).rest + y)
  {
    assert (b + y)[..n] == b[..n] && (b + y)[n..] == b[n..] + y;
  }

  lemma MoreBlock(b: seq<byte>, y: seq<byte>)
    requires Block(b).Ok?
    ensures Block(b + y) == Ok(Block(b).value, Block(b).rest + y)
  {
    hide DecVarint32, Take;
    More32(b, y);
    var p := DecVarint32(b);
    MoreTake(p.rest, y, p.value);
  }

  lemma {:induction false} MoreSkipVarint(b: seq<byte>, y: seq<byte>)
    requires SkipVarint(b).Ok?
    ensures SkipVarint(b + y) == Ok((), SkipVarint(b).rest + y)
    decreases |b|
  {
    assert (b + y)[1..] == b[1..] + y;
    if b[0] >= 128 { MoreSkipVarint(b[1..], y); }
  }

  lemma MoreSkip(wireType: nat, b: seq<byte>, y: seq<byte>)
    requires SkipField(wireType, b).Ok?
    ensures SkipField(wireType, b + y) == Ok((), SkipField(wireType, b).rest + y)
  {
    hide SkipVarint, Take, Block;
    if wireType == WT_VARINT { MoreSkipVarint(b, y); }
    else if wireType == WT_64BIT { MoreTake(b, y, 8); }
    else if wireType == WT_STRING { MoreBlock(b, y); }
    else { MoreTake(b, y, 4); }
  }

  lemma MoreValue(f: Field, held: Value, b: seq<byte>, y: seq<byte>)
    requires DecValue(f, held, b).Ok?
    ensures DecValue(f, held, b + y) == Ok(DecValue(f, held, b).value, DecValue(f, held, b).rest + y)
  {
    hide DecVarint32, DecodeNoInit, Take, Block, UnZigZag, SignedOf, UpToNul, DecVarint64From;
    match f.ltype
    case Fixed32 => assert (b + y)[..4] == b[..4] && (b + y)[4..] == b[4..] + y;
    case Fixed64 => assert (b + y)[..8] == b[..8] && (b + y)[8..] == b[8..] + y;
    case Message(_) => MoreBlock(b, y);
    case Bytes => MoreData(f, b, y);
    case Text => MoreData(f, b, y);
    case FixedBytes => MoreData(f, b, y);
    case _ => More64(b, y, 0, 0);
  }

  lemma MoreData(f: Field, b: seq<byte>, y: seq<byte>)
    requires DecData(f, b).Ok?
    ensures DecData(f, b + y) == Ok(DecData(f, b).value, DecData(f, b).rest + y)
  {
    hide DecVarint32, Take, UpToNul;
    More32(b, y);
    var p := DecVarint32(b);
    if Take(p.rest, p.value).Ok? { MoreTake(p.rest, y, p.value); }
  }

  lemma MoreField(f: Field, wireType: nat, b: seq<byte>, s: Struct, y: seq<byte>)
    requires DecField(f, wireType, b, s).Ok?
    ensures DecField(f, wireType, b + y, s) == Ok(DecField(f, wireType, b, s).value, DecField(f, wireType, b, s).rest + y)
  {
    hide DecValue, Block, DecPacked, InitValue;
    if f.rule.Repeated? && wireType == WT_STRING && Packable(f.ltype) {
      MoreBlock(b, y);
    } else {
      match s[f.slot]
      case One(h) => MoreValue(f, h, b, y);
      case Opt(_, h) => MoreValue(f, h, b, y);
      case _ => MoreValue(f, InitValue(f), b, y);
    }
  }

  // ---------------------------------------------------------------- one field at a time

  /** One turn of the decoding loop at a non-zero key. */
  function Turn(fs: seq<Field>, b: seq<byte>, st: Progress): (p: Parse<Progress>)
    ensures p.Ok? ==> |p.rest| < |b|
  {
    match DecVarint32(b)
    case Err => Err
    case Ok(key, rest) =>
      if key == 0 || (fs == [] && key / 8 == 0) then Err
      else
        match FindField(fs, key / 8)
        case Some(k) =>
          (match DecField(fs[k], key % 8, rest, st.s)
           case Err => Err
           case Ok(s, rest') => Ok(Progress(s, MarkSeen(fs, k, st.seen)), rest'))
        case None =>
          match SkipField(key % 8, rest)
          case Err => Err
          case Ok(_, rest') => Ok(st, rest')
  }

  lemma TurnIsLoop(fs: seq<Field>, b: seq<byte>, st: Progress)
    requires Turn(fs, b, st).Ok?
    ensures DecodeLoop(fs, b, st) == DecodeLoop(fs, Turn(fs, b, st).rest, Turn(fs, b, st).value)
  {
    hide DecVarint32, DecField, SkipField, FindField, MarkSeen;
  }

  lemma MoreTurn(fs: seq<Field>, b: seq<byte>, st: Progress, y: seq<byte>)
    requires Turn(fs, b, st).Ok?
    ensures Turn(fs, b + y, st) == Ok(Turn(fs, b, st).value, Turn(fs, b, st).rest + y)
  {
    hide DecVarint32, DecField, SkipField, FindField, MarkSeen;
    More32(b, y);
    var p := DecVarint32(b);
    match FindField(fs, p.value / 8)
    case Some(k) => MoreField(fs[k], p.value % 8, p.rest, st.s, y);
    case None => MoreSkip(p.value % 8, p.rest, y);
  }

  /** `a` decodes to its end and meets no zero key on the way. */
  ghost predicate DecodesWhole(fs: seq<Field>, a: seq<byte>, st: Progress)
    decreases |a|
  {
    a == [] || (Turn(fs, a, st).Ok? && DecodesWhole(fs, Turn(fs, a, st).rest, Turn(fs, a, st).value))
  }

  /** The loop reads `a + b` as `a`, then `b`. */
  lemma {:induction false} LoopConcat(fs: seq<Field>, a: seq<byte>, b: seq<byte>, st: Progress)
    requires DecodesWhole(fs, a, st)
    ensures DecodeLoop(fs, a, st).Ok? && DecodeLoop(fs, a, st).rest == []
    ensures DecodeLoop(fs, a + b, st) == DecodeLoop(fs, b, DecodeLoop(fs, a, st).value)
    decreases |a|
  {
    hide Turn;
    if a == [] {
      assert a + b == b;
    } else {
      hide DecodeLoop;
      var t := Turn(fs, a, st);
      TurnIsLoop(fs, a, st);
      MoreTurn(fs, a, st, b);
      TurnIsLoop(fs, a + b, st);
      LoopConcat(fs, t.rest, b, t.value);
    }
  }

  // ---------------------------------------------------------------- main results

  lemma {:induction false} NoneRequired(fs: seq<Field>, k: nat)
    requires RequiredCount(fs) == 0 && k < |fs|
    ensures !fs[k].rule.Required?
    decreases |fs|
  {
    if k < |fs| - 1 {
      NoneRequired(fs[..|fs| - 1], k);
    }
  }

  lemma {:induction false} SeenStaysEmpty(fs: seq<Field>, a: seq<byte>, st: Progress)
    requires RequiredCount(fs) == 0 && DecodesWhole(fs, a, st)
    ensures DecodeLoop(fs, a, st).Ok? && DecodeLoop(fs, a, st).value.seen == st.seen
    decreases |a|
  {
    hide DecField, SkipField, RequiredCount, FindField, DecVarint32;
    if a != [] {
      TurnIsLoop(fs, a, st);
      var p := DecVarint32(a);
      var k := FindField(fs, p.value / 8);
      if k.Some? { NoneRequired(fs, k.value); }
      SeenStaysEmpty(fs, Turn(fs, a, st).rest, Turn(fs, a, st).value);
    }
  }

  /**
   * For a schema without required fields, pb_decode_noinit on `a + b` has the outcome and
   * the destination of decoding `a` and then `b`, when `a` decodes without meeting a zero tag.
   */
  lemma ConcatIsMerge(fs: seq<Field>, a: seq<byte>, b: seq<byte>, s: Struct)
    requires RequiredCount(fs) == 0 && DecodesWhole(fs, a, Progress(s, {}))
    ensures DecodeNoInit(fs, a, s).Ok? && DecodeNoInit(fs, a, s).rest == []
    ensures DecodeNoInit(fs, a + b, s) == DecodeNoInit(fs, b, DecodeNoInit(fs, a, s).value)
  {
    hide DecodeLoop, RequiredCount, Turn;
    LoopConcat(fs, a, b, Progress(s, {}));
    SeenStaysEmpty(fs, a, Progress(s, {}));
    var t := DecodeLoop(fs, a, Progress(s, {})).value;
    assert t == Progress(t.s, {});
  }

  /** Two encoded messages after one another merge in order, whatever the schema. */
  lemma EncodedConcat(fs: seq<Field>, ws: seq<Field>, m1: Struct, m2: Struct, s: Struct)
    requires Compatible(fs, ws) && WellFormed(ws) && Typed(ws, m1) && Typed(ws, m2)
    requires EncStruct(ws, m1).Some? && |EncStruct(ws, m1).value| < TWO_63
    requires EncStruct(ws, m2).Some? && |EncStruct(ws, m2).value| < TWO_63
    ensures DecodeNoInit(fs, EncStruct(ws, m1).value + EncStruct(ws, m2).value, s) ==
      match MergeStruct(fs, ws, s, m1)
      case None => Err
      case Some(s') => AsParse(MergeStruct(fs, ws, s', m2), [])
  {
    hide EncStruct, WellFormedField, TypedSlot, SameTypes, MergeStruct, SeenAfter, AllRequiredSeen;
    var b1, b2 := EncStruct(ws, m1).value, EncStruct(ws, m2).value;
    FieldsRead(fs, ws, m1, b2, Progress(s, {}));
    var r := MergeStruct(fs, ws, s, m1);
    if r.Some? {
      var seen := SeenAfter(fs, ws, m1, {});
      FieldsRead(fs, ws, m2, [], Progress(r.value, seen));
      assert b2 + [] == b2;
      AllSeen(fs, ws, m1);
      SeenGrows(fs, ws, m2, seen);
      StillSeen(fs, seen, SeenAfter(fs, ws, m2, seen));
    }
  }

  lemma StillSeen(fs: seq<Field>, seen: set<nat>, more: set<nat>)
    requires AllRequiredSeen(fs, seen) && seen <= more
    ensures AllRequiredSeen(fs, more)
  {
    hide RequiredCount;
  }

  // ---------------------------------------------------------------- what merging means

  /** Reading other fields leaves the storage of a field that is in no oneof alone. */
  lemma OtherFieldKept(fs: seq<Field>, w: Field, m: Struct, s: Struct, f: Field)
    requires SeparateSlots(fs) && f in fs && !f.rule.Oneof? && f.tag != w.tag
    requires f.slot < |s| && MergeField(fs, w, s, m).Some?
    ensures var r := MergeField(fs, w, s, m).value; |r| == |s| && r[f.slot] == s[f.slot]
  {
    hide Emits, MergeSlot, LengthsFit, FindField;
    var i :| 0 <= i < |fs| && fs[i] == f;
    match FindField(fs, w.tag)
    case None =>
    case Some(k) =>
      if fs[k].slot == f.slot {
        assert false;
      }
  }

  lemma {:induction false} OtherFieldsKept(fs: seq<Field>, ws: seq<Field>, m: Struct, s: Struct, f: Field)
    requires SeparateSlots(fs) && f in fs && !f.rule.Oneof? && forall w :: w in ws ==> w.tag != f.tag
    requires f.slot < |s| && MergeStruct(fs, ws, s, m).Some?
    ensures var r := MergeStruct(fs, ws, s, m).value; |r| == |s| && r[f.slot] == s[f.slot]
    decreases |ws|
  {
    hide MergeField, SeparateSlots;
    if ws != [] {
      OtherFieldKept(fs, ws[0], m, s, f);
      OtherFieldsKept(fs, ws[1..], m, MergeField(fs, ws[0], s, m).value, f);
    }
  }

  /** Merging a struct merges each field on its own, once. */
  lemma {:induction false} MergePointwise(fs: seq<Field>, ws: seq<Field>, m: Struct, s: Struct, f: Field, w: Field)
    requires SeparateSlots(fs) && DistinctTags(fs) && DistinctTags(ws) && f in fs && w in ws && f.tag == w.tag
    requires !f.rule.Oneof? && f.slot < |s| && w.slot < |m| && MergeStruct(fs, ws, s, m).Some?
    ensures var r := MergeStruct(fs, ws, s, m).value;
            |r| == |s| && Some(r[f.slot]) ==
            if Emits(w, m[w.slot]) then MergeSlot(f, w, s[f.slot], m[w.slot]) else Some(s[f.slot])
    decreases |ws|
  {
    hide Emits, MergeSlot, SeparateSlots;
    var s' := MergeField(fs, ws[0], s, m).value;
    if ws[0] == w {
      var k :| 0 <= k < |fs| && fs[k] == f;
      FindDistinct(fs, k);
      forall y | y in ws[1..]
        ensures y.tag != f.tag
      {
        var j :| 0 <= j < |ws| - 1 && ws[1..][j] == y;
        assert ws[j + 1] == y;
      }
      OtherFieldsKept(fs, ws[1..], m, s', f);
    } else {
      assert w in ws[1..];
      assert ws[0].tag != w.tag by {
        var j :| 0 <= j < |ws| - 1 && ws[1..][j] == w;
        assert ws[j + 1] == w;
      }
      OtherFieldKept(fs, ws[0], m, s, f);
      MergePointwise(fs, ws[1..], m, s', f, w);
    }
  }

  lemma {:induction false} ScalarItemsAppend(f: Field, w: Field, items: seq<Value>, vs: seq<Value>)
    requires !f.ltype.Message? && MergeItems(f, w, items, vs).Some?
    ensures MergeItems(f, w, items, vs).value == items + vs
    decreases |vs|
  {
    hide InitValue;
    if vs != [] {
      ScalarItemsAppend(f, w, items + [vs[0]], vs[1..]);
      assert items + [vs[0]] + vs[1..] == items + vs;
    }
  }

  /** The slot of a non-message field after `d` is merged over `held`: last value wins, arrays append. */
  function Overlay(f: Field, held: Slot, d: Slot): Slot {
    match (held, d)
    case (One(_), One(v)) => if f.rule.Singular? && IsDefaultValue(f, v) then held else d
    case (Many(items), Many(vs)) => Many(items + vs)
    case (Opt(_, _), Opt(has, v)) => if has then d else held
    case _ => d
  }

  predicate SlotShape(f: Field, d: Slot) {
    match f.rule
    case Required => d.One?
    case Singular => d.One?
    case Optional => d.Opt?
    case Repeated => d.Many?
    case Oneof => d.Nothing? || d.Chosen?
  }

  lemma OverlayIsMerge(f: Field, held: Slot, d: Slot)
    requires !f.ltype.Message? && !f.rule.Oneof?
    requires TypedSlot(f, d)
    requires Emits(f, d) ==> MergeSlot(f, f, held, d).Some?
    requires !Emits(f, d) ==> SlotShape(f, held)
    ensures (if Emits(f, d) then MergeSlot(f, f, held, d).value else held) == Overlay(f, held, d)
  {
    hide TypedValue, InitValue, MergeItems, PayloadLengthFits, IsDefaultValue;
    match (held, d)
    case (Many(items), Many(vs)) =>
      if vs != [] { ScalarItemsAppend(f, f, items, vs); } else { assert items + vs == items; }
    case _ =>
  }

  /**
   * Two messages of one schema after one another, decoded into a fresh struct: every scalar,
   * string and byte field outside a oneof shows the last value sent, every such array both
   * lists in order.
   */
  lemma LastOneWins(fs: seq<Field>, m1: Struct, m2: Struct, f: Field)
    requires WellFormed(fs) && Typed(fs, m1) && Typed(fs, m2)
    requires EncStruct(fs, m1).Some? && |EncStruct(fs, m1).value| < TWO_63
    requires EncStruct(fs, m2).Some? && |EncStruct(fs, m2).value| < TWO_63
    requires Decode(fs, EncStruct(fs, m1).value + EncStruct(fs, m2).value).Ok?
    requires f in fs && !f.ltype.Message? && !f.rule.Oneof?
    ensures var r := Decode(fs, EncStruct(fs, m1).value + EncStruct(fs, m2).value).value;
            |r| == SlotCount(fs) && r[f.slot] == Overlay(f, Overlay(f, InitSlot(f), m1[f.slot]), m2[f.slot])
  {
    hide EncStruct, WellFormedField, TypedSlot, MergeStruct, SlotCount, InitStruct, InitSlot, Overlay,
         MergeSlot, Emits, DecodeNoInit, SameTypes;
    SelfCompatible(fs);
    var s0 := InitStruct(fs);
    InitStructSlots(fs);
    EncodedConcat(fs, fs, m1, m2, s0);
    var s1 := MergeStruct(fs, fs, s0, m1).value;
    MergePointwise(fs, fs, m1, s0, f, f);
    MergePointwise(fs, fs, m2, s1, f, f);
    InitShape(f);
    assert TypedSlot(f, m1[f.slot]) && TypedSlot(f, m2[f.slot]);
    OverlayIsMerge(f, s0[f.slot], m1[f.slot]);
    OverlayShape(f, InitSlot(f), m1[f.slot]);
    OverlayIsMerge(f, s1[f.slot], m2[f.slot]);
  }

  lemma InitShape(f: Field)
    ensures SlotShape(f, InitSlot(f))
  {
    hide InitValue;
  }

  lemma OverlayShape(f: Field, held: Slot, d: Slot)
    requires TypedSlot(f, d) && SlotShape(f, held)
    ensures SlotShape(f, Overlay(f, held, d))
  {
    hide TypedValue;
  }

  // ---------------------------------------------------------------- submessages and oneofs

  /** The storage of a field outside a oneof after what `d` sends is merged over `held`. */
  function MergedOver(f: Field, held: Slot, d: Slot): Option<Slot> {
    if Emits(f, d) then MergeSlot(f, f, held, d) else Some(held)
  }

  /** An optional submessage sent in both messages is present and holds the first merged with the second. */
  predicate BothMerged(f: Field, d1: Slot, d2: Slot, x: Slot) {
    match (f.ltype, d1, d2)
    case (Message(sub), Opt(true, Msg(a)), Opt(true, Msg(b))) =>
      var first := MergeStruct(sub, sub, InitStruct(sub), a);
      && first.Some? && x.Opt? && x.has && x.v.Msg?
      && MergeStruct(sub, sub, first.value, b) == Some(x.v.s)
    case _ => true
  }

  /**
   * Two messages of one schema after one another: every field outside a oneof, submessages
   * included, holds both merged over the default in order.  A submessage sent twice is itself
   * merged: what the second does not send stays from the first.
   */
  lemma FieldsMerge(fs: seq<Field>, m1: Struct, m2: Struct, f: Field)
    requires WellFormed(fs) && Typed(fs, m1) && Typed(fs, m2)
    requires EncStruct(fs, m1).Some? && |EncStruct(fs, m1).value| < TWO_63
    requires EncStruct(fs, m2).Some? && |EncStruct(fs, m2).value| < TWO_63
    requires Decode(fs, EncStruct(fs, m1).value + EncStruct(fs, m2).value).Ok?
    requires f in fs && !f.rule.Oneof?
    ensures var r := Decode(fs, EncStruct(fs, m1).value + EncStruct(fs, m2).value).value;
            |r| == SlotCount(fs) && MergedOver(f, InitSlot(f), m1[f.slot]).Some?
            && Some(r[f.slot]) == MergedOver(f, MergedOver(f, InitSlot(f), m1[f.slot]).value, m2[f.slot])
    ensures var r := Decode(fs, EncStruct(fs, m1).value + EncStruct(fs, m2).value).value;
            f.rule.Optional? ==> BothMerged(f, m1[f.slot], m2[f.slot], r[f.slot])
  {
    hide EncStruct, WellFormedField, MergeStruct, SlotCount, InitStruct, InitSlot, MergeSlot, Emits, DecodeNoInit, SameTypes;
    SelfCompatible(fs);
    var s0 := InitStruct(fs);
    InitStructSlots(fs);
    EncodedConcat(fs, fs, m1, m2, s0);
    var s1 := MergeStruct(fs, fs, s0, m1).value;
    MergePointwise(fs, fs, m1, s0, f, f);
    MergePointwise(fs, fs, m2, s1, f, f);
    if f.rule.Optional? { SubmessageTwice(f, m1[f.slot], m2[f.slot]); }
  }

  lemma SubmessageTwice(f: Field, d1: Slot, d2: Slot)
    requires f.rule.Optional? && d1.Opt? && d2.Opt?
    requires var x := MergedOver(f, InitSlot(f), d1); x.Some? && MergedOver(f, x.value, d2).Some?
    ensures BothMerged(f, d1, d2, MergedOver(f, MergedOver(f, InitSlot(f), d1).value, d2).value)
  {
    hide InitStruct, ItemLengthFits, MergeStruct, InitValue, InitSlot;
    match (f.ltype, d1, d2)
    case (Message(sub), Opt(true, Msg(a)), Opt(true, Msg(b))) =>
      InitMessage(f, sub);
      var x := MergeValue(f, f, InitValue(f), d1.v);
      assert MergedOver(f, InitSlot(f), d1) == Some(Opt(true, x.value));
      MessageMerges(f, sub, InitStruct(sub), a);
      MessageMerges(f, sub, x.value.s, b);
    case _ =>
  }

  lemma InitMessage(f: Field, sub: seq<Field>)
    requires f.rule.Optional? && f.ltype == Message(sub)
    ensures InitSlot(f) == Opt(false, Msg(InitStruct(sub))) && InitValue(f) == Msg(InitStruct(sub))
  {
    hide InitStruct;
  }

  lemma MessageMerges(f: Field, sub: seq<Field>, held: Struct, m: Struct)
    requires f.ltype == Message(sub) && MergeValue(f, f, Msg(held), Msg(m)).Some?
    ensures var t := MergeStruct(sub, sub, held, m);
            t.Some? && MergeValue(f, f, Msg(held), Msg(m)) == Some(Msg(t.value))
  {
    hide ItemLengthFits, MergeStruct;
  }

  /** Nothing is sent for the oneof that field `f` is in. */
  ghost predicate Silent(fs: seq<Field>, f: Field, m: Struct) {
    forall g :: !SendsMember(fs, f, g, m)
  }

  /** `g` is the member of the oneof of `f` that is sent. */
  predicate SendsMember(fs: seq<Field>, f: Field, g: Field, m: Struct) {
    g in fs && g.slot == f.slot && g.slot < |m| && Emits(g, m[g.slot])
  }

  /** The storage shows the member `g` with the value sent for it, a submessage merged over its defaults. */
  predicate Shows(g: Field, d: Slot, x: Slot) {
    && d.Chosen? && x.Chosen? && x.which == g.tag
    && Some(x.v) == MergeValue(g, g, InitValue(g), d.v) && (!g.ltype.Message? ==> x.v == d.v)
  }

  lemma {:induction false} OneofKept(fs: seq<Field>, ws: seq<Field>, m: Struct, s: Struct, j: nat)
    requires DistinctTags(fs) && (forall w :: w in ws ==> w in fs) && j < |s| && MergeStruct(fs, ws, s, m).Some?
    requires forall w :: w in ws && w.slot == j ==> w.slot < |m| && !Emits(w, m[w.slot])
    ensures var r := MergeStruct(fs, ws, s, m).value; |r| == |s| && r[j] == s[j]
    decreases |ws|
  {
    hide Emits, MergeSlot, DistinctTags;
    if ws != [] {
      var w := ws[0];
      assert w in fs;
      var k: nat :| k < |fs| && fs[k] == w;
      FindDistinct(fs, k);
      OneofKept(fs, ws[1..], m, MergeField(fs, w, s, m).value, j);
    }
  }

  /** The member that is sent is what the storage of the oneof shows afterwards, whatever it held. */
  lemma {:induction false} OneofMerged(fs: seq<Field>, ws: seq<Field>, m: Struct, s: Struct, g: Field)
    requires DistinctTags(fs) && SeparateSlots(fs) && DistinctTags(ws) && (forall w :: w in ws ==> w in fs)
    requires g in ws && g.rule.Oneof? && g.slot < |m| && g.slot < |s| && Emits(g, m[g.slot])
    requires MergeStruct(fs, ws, s, m).Some?
    ensures var r := MergeStruct(fs, ws, s, m).value; |r| == |s| && Shows(g, m[g.slot], r[g.slot])
    decreases |ws|
  {
    hide MergeValue, InitValue, SeparateSlots;
    var w := ws[0];
    var s' := MergeField(fs, w, s, m).value;
    assert forall y :: y in ws[1..] ==> y in ws;
    if w == g {
      var k: nat :| k < |fs| && fs[k] == g;
      FindDistinct(fs, k);
      ScalarMember(g, m[g.slot]);
      assert MergeSlot(g, g, s[g.slot], m[g.slot]) == Some(s'[g.slot]);
      forall y | y in ws[1..] && y.slot == g.slot ensures y.slot < |m| && !Emits(y, m[y.slot]) {
        var i: nat :| i < |ws| - 1 && ws[1..][i] == y;
        assert ws[i + 1] == y && y.tag != g.tag;
        SharedOneof(fs, g, y);
      }
      OneofKept(fs, ws[1..], m, s', g.slot);
    } else {
      OneofMerged(fs, ws[1..], m, s', g);
    }
  }

  lemma ScalarMember(g: Field, d: Slot)
    ensures d.Chosen? && !g.ltype.Message? && MergeValue(g, g, InitValue(g), d.v).Some? ==>
              MergeValue(g, g, InitValue(g), d.v) == Some(d.v)
  {
    hide InitValue;
  }

  /**
   * Two messages of one schema after one another: a oneof shows the last member sent, with that
   * value; the first message counts only if the second sends no member, and without any the
   * oneof stays empty.
   */
  lemma LastMemberWins(fs: seq<Field>, m1: Struct, m2: Struct, f: Field)
    requires WellFormed(fs) && Typed(fs, m1) && Typed(fs, m2)
    requires EncStruct(fs, m1).Some? && |EncStruct(fs, m1).value| < TWO_63
    requires EncStruct(fs, m2).Some? && |EncStruct(fs, m2).value| < TWO_63
    requires Decode(fs, EncStruct(fs, m1).value + EncStruct(fs, m2).value).Ok?
    requires f in fs && f.rule.Oneof?
    ensures var r := Decode(fs, EncStruct(fs, m1).value + EncStruct(fs, m2).value).value;
            && |r| == SlotCount(fs)
            && (forall g :: SendsMember(fs, f, g, m2) ==> Shows(g, m2[f.slot], r[f.slot]))
            && (Silent(fs, f, m2) ==> forall g :: SendsMember(fs, f, g, m1) ==> Shows(g, m1[f.slot], r[f.slot]))
            && (Silent(fs, f, m1) && Silent(fs, f, m2) ==> r[f.slot] == Nothing)
  {
    hide EncStruct, WellFormedField, TypedSlot, MergeStruct, SlotCount, InitStruct, DecodeNoInit, SameTypes, Emits, Shows,
         SeparateSlots;
    SelfCompatible(fs);
    var s0 := InitStruct(fs);
    InitStructSlots(fs);
    EncodedConcat(fs, fs, m1, m2, s0);
    OneofStep(fs, m1, s0, f);
    OneofStep(fs, m2, MergeStruct(fs, fs, s0, m1).value, f);
  }

  /** One message into a oneof: the member sent, or what was there. */
  lemma OneofStep(fs: seq<Field>, m: Struct, s: Struct, f: Field)
    requires DistinctTags(fs) && SeparateSlots(fs) && f in fs && f.rule.Oneof? && f.slot < |m| && f.slot < |s|
    requires MergeStruct(fs, fs, s, m).Some?
    ensures var r := MergeStruct(fs, fs, s, m).value;
            && |r| == |s|
            && (forall g :: SendsMember(fs, f, g, m) ==> Shows(g, m[f.slot], r[f.slot]))
            && (Silent(fs, f, m) ==> r[f.slot] == s[f.slot])
  {
    hide MergeStruct, Emits, Shows, SeparateSlots, DistinctTags;
    var r := MergeStruct(fs, fs, s, m).value;
    forall g | SendsMember(fs, f, g, m) ensures |r| == |s| && Shows(g, m[f.slot], r[f.slot]) {
      if g != f { SharedOneof(fs, f, g); }
      OneofMerged(fs, fs, m, s, g);
    }
    if Silent(fs, f, m) {
      forall w | w in fs && w.slot == f.slot ensures !Emits(w, m[w.slot]) { assert !SendsMember(fs, f, w, m); }
      OneofKept(fs, fs, m, s, f.slot);
    } else {
      var g :| SendsMember(fs, f, g, m);
      assert |r| == |s|;
    }
  }
}
