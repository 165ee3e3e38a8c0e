/**
 * Fields that are not on the wire: what pb_decode leaves in them, from the descriptors alone,
 * and how has_ and which_ fields tell what was there.
 */
module Defaults {
  import opened Bits
  import opened Schema
  import opened Varint
  import opened Wire
  import opened Required
  import RoundTrip

  // ---------------------------------------------------------------- untouched fields

  /** The item holds the declared default if there is one, and zeros of its type otherwise. */
  ghost predicate InitialValue(f: Field, v: Value)
    decreases f, 0
  {
    match f.ltype
    case Message(sub) => v.Msg? && |v.s| == SlotCount(sub) && forall g :: g in sub ==> Initial(g, v.s[g.slot])
    case Bytes => v == if f.init.Some? then f.init.value else Data([])
    case Text => v == if f.init.Some? then f.init.value else Data([])
    case FixedBytes =>
      if f.init.Some? then v == f.init.value
      else v.Data? && |v.b| == f.dataSize && forall k :: 0 <= k < |v.b| ==> v.b[k] == 0
    case _ => v == if f.init.Some? then f.init.value else Num(0)
  }

  /** No has_ flag is set, arrays are empty, and no member of a oneof is chosen. */
  ghost predicate Initial(f: Field, d: Slot)
    decreases f, 1
  {
    match f.rule
    case Required => d.One? && InitialValue(f, d.v)
    case Singular => d.One? && InitialValue(f, d.v)
    case Optional => d.Opt? && !d.has && InitialValue(f, d.v)
    case Repeated => d == Many([])
    case Oneof => d == Nothing
  }

  lemma {:induction false} InitIsInitial(f: Field)
    requires WellFormedField(f)
    ensures InitialValue(f, InitValue(f)) && Initial(f, InitSlot(f))
    decreases f
  {
    if f.ltype.Message? {
      RoundTrip.InitStructSlots(f.ltype.fields);
      forall g | g in f.ltype.fields ensures Initial(g, InitStruct(f.ltype.fields)[g.slot]) {
        InitIsInitial(g);
      }
    }
  }

  lemma DecFieldElsewhere(f: Field, wireType: nat, b: seq<byte>, s: Struct)
    requires DecField(f, wireType, b, s).Ok?
    ensures var r := DecField(f, wireType, b, s).value;
            |r| == |s| && f.slot < |s| && forall j :: 0 <= j < |s| && j != f.slot ==> r[j] == s[j]
  {
    hide DecValue, DecPacked, Block;
  }

  /** The loop of pb_decode_noinit changes no slot but those of the fields it meets. */
  lemma {:induction false} LoopKeepsUnmet(fs: seq<Field>, b: seq<byte>, st: Progress, slot: nat)
    requires DecodeLoop(fs, b, st).Ok? && slot < |st.s|
    requires forall f :: f in fs && f.tag in Met(fs, b, st.s) ==> f.slot != slot
    ensures var r := DecodeLoop(fs, b, st).value.s;
            |r| == |st.s| && r[slot] == st.s[slot]
    decreases |b|
  {
    hide DecField, DecVarint32, FindField, SkipField, MarkSeen;
    if b != [] && DecVarint32(b).value != 0 {
      var key, rest := DecVarint32(b).value, DecVarint32(b).rest;
      var found := FindField(fs, key / 8);
      if found.Some? {
        var f := fs[found.value];
        var p := DecField(f, key % 8, rest, st.s);
        DecFieldElsewhere(f, key % 8, rest, st.s);
        assert f in fs && f.tag == key / 8;
        LoopKeepsUnmet(fs, p.rest, Progress(p.value, MarkSeen(fs, found.value, st.seen)), slot);
      } else {
        LoopKeepsUnmet(fs, SkipField(key % 8, rest).rest, st, slot);
      }
    }
  }

  /** pb_decode_noinit onto any struct leaves the fields alone whose tags are not on the wire. */
  lemma UnmetKept(fs: seq<Field>, b: seq<byte>, s: Struct, slot: nat)
    requires DecodeNoInit(fs, b, s).Ok? && slot < |s|
    requires forall f :: f in fs && f.tag in Met(fs, b, s) ==> f.slot != slot
    ensures |DecodeNoInit(fs, b, s).value| == |s| && DecodeNoInit(fs, b, s).value[slot] == s[slot]
  {
    hide DecodeLoop, Met, AllRequiredSeen;
    LoopKeepsUnmet(fs, b, Progress(s, {}), slot);
  }

  // ---------------------------------------------------------------- what is on the wire

  /** The bytes hold a field of this tag, whatever struct they are read into. */
  ghost predicate OnWire(fs: seq<Field>, b: seq<byte>, tag: nat) {
    exists s :: tag in Met(fs, b, s)
  }

  lemma SameRest(f: Field, wireType: nat, b: seq<byte>, s: Struct, s': Struct)
    requires DecField(f, wireType, b, s).Ok? && DecField(f, wireType, b, s').Ok?
    ensures DecField(f, wireType, b, s).rest == DecField(f, wireType, b, s').rest
  {
    hide DecPacked, DecodeNoInit, DecInteger, DecData, DecFixed, Block, DecVarint32;
  }

  /** If the loop gets through the bytes from one struct, it meets no further tag from any other. */
  lemma {:induction false} MetIsMost(fs: seq<Field>, b: seq<byte>, st: Progress, s: Struct)
    requires DecodeLoop(fs, b, st).Ok?
    ensures Met(fs, b, s) <= Met(fs, b, st.s)
    decreases |b|
  {
    hide DecField, DecVarint32, FindField, SkipField, MarkSeen;
    if b != [] && DecVarint32(b).value != 0 {
      var key, rest := DecVarint32(b).value, DecVarint32(b).rest;
      var found := FindField(fs, key / 8);
      if found.Some? {
        var f := fs[found.value];
        var p, q := DecField(f, key % 8, rest, st.s), DecField(f, key % 8, rest, s);
        if q.Ok? {
          SameRest(f, key % 8, rest, st.s, s);
          MetIsMost(fs, p.rest, Progress(p.value, MarkSeen(fs, found.value, st.seen)), q.value);
        }
      } else {
        MetIsMost(fs, SkipField(key % 8, rest).rest, st, s);
      }
    }
  }

  /** What pb_decode meets in bytes it accepts is all that is on the wire. */
  lemma MetIsOnWire(fs: seq<Field>, b: seq<byte>)
    requires Decode(fs, b).Ok?
    ensures forall tag :: OnWire(fs, b, tag) <==> tag in Met(fs, b, InitStruct(fs))
  {
    hide DecodeLoop, Met, InitStruct, AllRequiredSeen;
    forall tag | OnWire(fs, b, tag) ensures tag in Met(fs, b, InitStruct(fs)) {
      var s :| tag in Met(fs, b, s);
      MetIsMost(fs, b, Progress(InitStruct(fs), {}), s);
    }
  }

  /**
   * A field whose tag is not on the wire holds its declared default, or zeros of its type if
   * there is none, its submessages likewise; its has_ flag is false, its array is empty.  The same
   * goes for a oneof none of whose tags is there: its which_ field is 0.
   */
  lemma AbsentIsDefault(fs: seq<Field>, b: seq<byte>, f: Field)
    requires WellFormed(fs) && Decode(fs, b).Ok? && f in fs
    requires forall g :: g in fs && g.slot == f.slot ==> !OnWire(fs, b, g.tag)
    ensures |Decode(fs, b).value| == SlotCount(fs) && Initial(f, Decode(fs, b).value[f.slot])
  {
    hide DecodeNoInit, Met, InitStruct, Initial, WellFormedField;
    MetIsOnWire(fs, b);
    RoundTrip.InitStructSlots(fs);
    UnmetKept(fs, b, InitStruct(fs), f.slot);
    InitIsInitial(f);
  }

  // ---------------------------------------------------------------- presence

  lemma DecFieldMarks(f: Field, wireType: nat, b: seq<byte>, s: Struct)
    requires DecField(f, wireType, b, s).Ok?
    ensures var r := DecField(f, wireType, b, s).value;
            && |r| == |s| && f.slot < |s|
            && (f.rule.Optional? ==> r[f.slot].Opt? && r[f.slot].has)
            && (f.rule.Oneof? ==> r[f.slot].Chosen? && r[f.slot].which == f.tag)
  {
    hide DecValue, DecPacked, Block;
  }

  /** A has_ flag is set by the loop exactly if it was set before or the field was met. */
  lemma {:induction false} LoopSetsHas(fs: seq<Field>, b: seq<byte>, st: Progress, f: Field)
    requires DistinctTags(fs) && SeparateSlots(fs) && f in fs && f.rule.Optional?
    requires DecodeLoop(fs, b, st).Ok? && f.slot < |st.s| && st.s[f.slot].Opt?
    ensures var r := DecodeLoop(fs, b, st).value.s;
            |r| == |st.s| && r[f.slot].Opt? && (r[f.slot].has <==> st.s[f.slot].has || f.tag in Met(fs, b, st.s))
    decreases |b|
  {
    hide DecField, DecVarint32, FindField, SkipField, MarkSeen;
    if b != [] && DecVarint32(b).value != 0 {
      var key, rest := DecVarint32(b).value, DecVarint32(b).rest;
      var found := FindField(fs, key / 8);
      if found.Some? {
        var g := fs[found.value];
        var p := DecField(g, key % 8, rest, st.s);
        DecFieldElsewhere(g, key % 8, rest, st.s);
        DecFieldMarks(g, key % 8, rest, st.s);
        assert g in fs && g.tag == key / 8;
        LoopSetsHas(fs, p.rest, Progress(p.value, MarkSeen(fs, found.value, st.seen)), f);
      } else {
        LoopSetsHas(fs, SkipField(key % 8, rest).rest, st, f);
      }
    }
  }

  /** After pb_decode a has_ flag is true exactly if the field was on the wire. */
  lemma HasIsOnWire(fs: seq<Field>, b: seq<byte>, f: Field)
    requires WellFormed(fs) && Decode(fs, b).Ok? && f in fs && f.rule.Optional?
    ensures var r := Decode(fs, b).value;
            |r| == SlotCount(fs) && r[f.slot].Opt? && (r[f.slot].has <==> OnWire(fs, b, f.tag))
  {
    MetIsOnWire(fs, b);
    hide DecodeLoop, Met, InitStruct, AllRequiredSeen, WellFormedField;
    RoundTrip.InitStructSlots(fs);
    LoopSetsHas(fs, b, Progress(InitStruct(fs), {}), f);
  }

  /** A oneof is left empty by the loop exactly if it was empty and no member of it was met. */
  lemma {:induction false} LoopChooses(fs: seq<Field>, b: seq<byte>, st: Progress, f: Field)
    requires DistinctTags(fs) && SeparateSlots(fs) && f in fs && f.rule.Oneof?
    requires DecodeLoop(fs, b, st).Ok? && f.slot < |st.s| && (st.s[f.slot].Nothing? || st.s[f.slot].Chosen?)
    ensures var r := DecodeLoop(fs, b, st).value.s;
            && |r| == |st.s| && (r[f.slot].Nothing? || r[f.slot].Chosen?)
            && (r[f.slot].Nothing? <==>
                  st.s[f.slot].Nothing? && forall g :: g in fs && g.slot == f.slot ==> g.tag !in Met(fs, b, st.s))
    decreases |b|
  {
    hide DecField, DecVarint32, FindField, SkipField, MarkSeen;
    if b != [] && DecVarint32(b).value != 0 {
      var key, rest := DecVarint32(b).value, DecVarint32(b).rest;
      var found := FindField(fs, key / 8);
      if found.Some? {
        var g := fs[found.value];
        var p := DecField(g, key % 8, rest, st.s);
        DecFieldElsewhere(g, key % 8, rest, st.s);
        DecFieldMarks(g, key % 8, rest, st.s);
        assert g in fs && g.tag == key / 8;
        LoopChooses(fs, p.rest, Progress(p.value, MarkSeen(fs, found.value, st.seen)), f);
      } else {
        LoopChooses(fs, SkipField(key % 8, rest).rest, st, f);
      }
    }
  }

  /** After pb_decode a oneof is empty exactly if none of its tags was on the wire. */
  lemma EmptyIsAbsent(fs: seq<Field>, b: seq<byte>, f: Field)
    requires WellFormed(fs) && Decode(fs, b).Ok? && f in fs && f.rule.Oneof?
    ensures var r := Decode(fs, b).value;
            && |r| == SlotCount(fs) && (r[f.slot].Nothing? || r[f.slot].Chosen?)
            && (r[f.slot].Nothing? <==>
                  forall g :: g in fs && g.slot == f.slot ==> !OnWire(fs, b, g.tag))
  {
    MetIsOnWire(fs, b);
    hide DecodeLoop, Met, InitStruct, AllRequiredSeen, WellFormedField;
    RoundTrip.InitStructSlots(fs);
    LoopChooses(fs, b, Progress(InitStruct(fs), {}), f);
  }
}
