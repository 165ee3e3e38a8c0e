/**
 * What a reader gets from a writer's message: the projection of the message to the
 * reader's fields.  With equal schemas this is the round trip, with a smaller
 * reader's schema it is schema evolution.
 */
module RoundTrip {
  import opened Bits
  import opened Schema
  import opened Varint
  import opened Wire
  import opened Merge
  import opened MergeProof

  // ---------------------------------------------------------------- projection

  /** `x` under the reader's field shows the content `v` of the writer's field. */
  ghost predicate SameContent(f: Field, w: Field, v: Value, x: Value)
    decreases w, 0
  {
    match (f.ltype, w.ltype)
    case (Message(fsub), Message(wsub)) => v.Msg? && x.Msg? && Projection(fsub, wsub, v.s, x.s)
    case _ => x == v
  }

  /** The reader's slot shows the writer's slot: presence, count, choice and contents. */
  ghost predicate SameSlot(f: Field, w: Field, d: Slot, x: Slot)
    decreases w, 1
  {
    match f.rule
    case Required => d.One? && x.One? && SameContent(f, w, d.v, x.v)
    case Singular => d.One? && x.One? && SameContent(f, w, d.v, x.v)
    case Optional => d.Opt? && x.Opt? && x.has == d.has && (d.has ==> SameContent(f, w, d.v, x.v))
    case Repeated =>
      d.Many? && x.Many? && |x.items| == |d.items| &&
      forall i :: 0 <= i < |d.items| ==> SameContent(f, w, d.items[i], x.items[i])
    case Oneof =>
      && (x.Nothing? || x.Chosen?)
      && ((d.Chosen? && d.which == w.tag) <==> (x.Chosen? && x.which == f.tag))
      && (d.Chosen? && d.which == w.tag ==> SameContent(f, w, d.v, x.v))
  }

  /** The slot of a field nothing was received for. */
  ghost predicate Untouched(f: Field, x: Slot) {
    if f.rule.Oneof? then x.Nothing? || (x.Chosen? && x.which != f.tag) else x == InitSlot(f)
  }

  /** The state of the reader's field when the writer's first `k` fields were received. */
  ghost predicate FieldState(f: Field, ws: seq<Field>, k: nat, m: Struct, x: Slot)
    decreases ws, 0
  {
    match FindField(ws, f.tag)
    case None => Untouched(f, x)
    case Some(j) =>
      if j < k then ws[j].slot < |m| && SameSlot(f, ws[j], m[ws[j].slot], x) else Untouched(f, x)
  }

  ghost predicate Received(fs: seq<Field>, ws: seq<Field>, k: nat, m: Struct, s: Struct)
    decreases ws, 1
  {
    && |s| == SlotCount(fs)
    && forall f :: f in fs ==> FieldState(f, ws, k, m, s[f.slot])
  }

  /** Every field of the reader shows the writer's field of the same tag, or is untouched if there is none. */
  ghost predicate Projection(fs: seq<Field>, ws: seq<Field>, m: Struct, s: Struct)
    decreases ws, 2
  {
    Received(fs, ws, |ws|, m, s)
  }

  // ---------------------------------------------------------------- when it works

  ghost predicate SameTag(f: Field, w: Field, ws: seq<Field>) {
    w in ws && w.tag == f.tag
  }

  /** The reader has room for what the writer may send, and keeps the writer's oneofs apart. */
  ghost predicate Roomy(fs: seq<Field>, ws: seq<Field>)
    decreases ws, 1
  {
    && (forall f, w :: f in fs && w in ws && f.tag == w.tag ==> RoomyField(f, w))
    && (forall f, g, w, y :: f in fs && g in fs && f.slot == g.slot && SameTag(f, w, ws) && SameTag(g, y, ws)
          ==> w.slot == y.slot)
  }

  ghost predicate RoomyField(f: Field, w: Field)
    decreases w, 0
  {
    && f.arraySize >= w.arraySize
    && (f.ltype.Message? && w.ltype.Message? ==> Roomy(f.ltype.fields, w.ltype.fields))
  }

  /** The item fits the reader's storage and its length prefixes fit 32 bits. */
  ghost predicate FitsValue(f: Field, w: Field, v: Value)
    decreases w, 0
  {
    match (f.ltype, w.ltype, v)
    case (Message(fsub), Message(wsub), Msg(m)) => ItemLengthFits(w, v) && Fits(fsub, wsub, m)
    case (Bytes, _, Data(b)) => |b| + BYTES_HEADER <= f.dataSize
    case (Text, _, Data(b)) => |b| < f.dataSize
    case _ => true
  }

  ghost predicate FitsSlot(f: Field, w: Field, d: Slot)
    decreases w, 1
  {
    match d
    case One(v) => FitsValue(f, w, v)
    case Opt(_, v) => FitsValue(f, w, v)
    case Chosen(_, v) => FitsValue(f, w, v)
    case Many(vs) => (Packable(w.ltype) ==> PayloadLengthFits(w, vs)) && forall v :: v in vs ==> FitsValue(f, w, v)
    case Nothing => true
  }

  ghost predicate FitsField(fs: seq<Field>, w: Field, m: Struct)
    decreases w, 2
  {
    w.slot < |m| && Emits(w, m[w.slot]) ==>
      match FindField(fs, w.tag)
      case None => LengthsFit(w, m[w.slot])
      case Some(k) => FitsSlot(fs[k], w, m[w.slot])
  }

  /**
   * Everything sent fits the reader: strings leave room for their terminator, byte
   * arrays fit, and every length prefix met is below 2^32.
   */
  ghost predicate Fits(fs: seq<Field>, ws: seq<Field>, m: Struct)
    decreases ws, 3
  {
    forall w :: w in ws ==> FitsField(fs, w, m)
  }

  // ---------------------------------------------------------------- defaults

  /** Initialising gives every field its initial slot. */
  lemma {:induction false} InitFromSlots(fs: seq<Field>, s: Struct)
    requires SeparateSlots(fs) && forall f :: f in fs ==> f.slot < |s|
    ensures forall f :: f in fs ==> InitFrom(fs, s)[f.slot] == InitSlot(f)
    ensures forall j :: 0 <= j < |s| && (forall f :: f in fs ==> f.slot != j) ==> InitFrom(fs, s)[j] == s[j]
    decreases |fs|
  {
    hide InitSlot;
    if fs != [] {
      var s' := s[fs[0].slot := InitSlot(fs[0])];
      InitFromSlots(fs[1..], s');
      OneofInit(fs);
      forall f | f in fs
        ensures InitFrom(fs, s)[f.slot] == InitSlot(f)
      {
        if f in fs[1..] {
        } else {
          assert f == fs[0];
          if exists g :: g in fs[1..] && g.slot == f.slot {
            var g :| g in fs[1..] && g.slot == f.slot;
            SharedSlot(fs, g);
          }
        }
      }
    }
  }

  lemma OneofInit(fs: seq<Field>)
    ensures forall f :: f in fs && f.rule.Oneof? ==> InitSlot(f) == Nothing
  {
  }

  lemma SharedSlot(fs: seq<Field>, g: Field)
    requires SeparateSlots(fs) && fs != [] && g in fs[1..] && g.slot == fs[0].slot
    ensures g.rule.Oneof? && fs[0].rule.Oneof?
  {
    var j :| 0 <= j < |fs| - 1 && fs[1..][j] == g;
    assert fs[j + 1] == g;
  }

  lemma InitStructSlots(fs: seq<Field>)
    requires SeparateSlots(fs)
    ensures |InitStruct(fs)| == SlotCount(fs)
    ensures forall f :: f in fs ==> f.slot < SlotCount(fs) && InitStruct(fs)[f.slot] == InitSlot(f)
  {
    InitFromSlots(fs, seq(SlotCount(fs), _ => Nothing));
  }

  lemma {:induction false} AllDefaultMember(fs: seq<Field>, s: Struct, f: Field)
    requires AllDefault(fs, s) && f in fs
    ensures f.slot < |s| && IsDefaultSlot(f, s[f.slot])
    decreases |fs|
  {
    hide IsDefaultSlot;
    if f != fs[0] { AllDefaultMember(fs[1..], s, f); }
  }

  /** A value left out because it is the default is what the reader starts from. */
  lemma {:induction false} DefaultProjects(f: Field, w: Field, v: Value)
    requires CompatibleField(f, w) && WellFormedField(f) && f.rule.Singular?
    requires TypedValue(w, v) && IsDefaultValue(w, v)
    ensures SameContent(f, w, v, InitValue(f))
    decreases w, 1
  {
    hide Typed, WellFormed, Compatible, Projection, AllDefault, InitStruct;
    match w.ltype
    case Message(sub) => DefaultStructProjects(f.ltype.fields, sub, v.s);
    case _ =>
  }

  lemma {:induction false} DefaultStructProjects(fs: seq<Field>, ws: seq<Field>, m: Struct)
    requires Compatible(fs, ws) && WellFormed(fs) && Typed(ws, m) && AllDefault(ws, m)
    ensures Projection(fs, ws, m, InitStruct(fs))
    decreases ws, 0
  {
    hide TypedSlot, InitStruct, InitSlot, SameSlot, IsDefaultSlot, AllDefault, CompatibleField,
         WellFormedField, FindField, Untouched, DistinctTags;
    InitStructSlots(fs);
    forall f | f in fs
      ensures FieldState(f, ws, |ws|, m, InitSlot(f))
    {
      match FindField(ws, f.tag)
      case None => UntouchedInit(f);
      case Some(j) =>
        var w := ws[j];
        assert w in ws;
        AllDefaultMember(ws, m, w);
        DefaultSlotProjects(f, w, m[w.slot]);
    }
  }

  lemma UntouchedInit(f: Field)
    ensures Untouched(f, InitSlot(f))
  {
    hide InitValue;
  }

  lemma {:induction false} DefaultSlotProjects(f: Field, w: Field, d: Slot)
    requires CompatibleField(f, w) && WellFormedField(f) && TypedSlot(w, d) && IsDefaultSlot(w, d)
    ensures SameSlot(f, w, d, InitSlot(f))
    decreases w, 2
  {
    hide SameContent, InitValue, TypedValue, WellFormed, Compatible, IsDefaultValue;
    if f.rule.Singular? {
      DefaultProjects(f, w, d.v);
    }
  }

  // ---------------------------------------------------------------- values and arrays

  /** A value merged into a fresh data item is projected exactly when it fits. */
  lemma {:induction false} ValueProjected(f: Field, w: Field, v: Value)
    requires CompatibleField(f, w) && WellFormedField(f) && WellFormedField(w) && RoomyField(f, w)
    requires TypedValue(w, v) && EncValue(w, v).Some?
    ensures MergeValue(f, w, InitValue(f), v).Some? <==> FitsValue(f, w, v)
    ensures FitsValue(f, w, v) ==> SameContent(f, w, v, MergeValue(f, w, InitValue(f), v).value)
    decreases w, 0
  {
    hide Typed, WellFormed, Compatible, Projection, EncStruct, MergeStruct, InitStruct, Roomy, Fits,
         ItemLengthFits, EncVarint;
    match w.ltype
    case Message(sub) => StructProjected(f.ltype.fields, sub, v.s);
    case _ =>
  }

  /** Some array is encodable only if each entry is. */
  lemma {:induction false} EntriesEncodable(w: Field, vs: seq<Value>)
    requires EncPacked(w, vs).Some? || EncUnpacked(w, vs).Some?
    ensures forall v :: v in vs ==> EncValue(w, v).Some?
    decreases |vs|
  {
    hide EncValue;
    if vs != [] { EntriesEncodable(w, vs[1..]); }
  }

  lemma {:induction false} ItemsProjected(f: Field, w: Field, items: seq<Value>, vs: seq<Value>)
    requires CompatibleField(f, w) && WellFormedField(f) && WellFormedField(w) && RoomyField(f, w)
    requires forall v :: v in vs ==> TypedValue(w, v) && EncValue(w, v).Some?
    requires |items| + |vs| <= f.arraySize
    ensures MergeItems(f, w, items, vs).Some? <==> forall v :: v in vs ==> FitsValue(f, w, v)
    ensures MergeItems(f, w, items, vs).Some? ==>
              var x := MergeItems(f, w, items, vs).value;
              && |x| == |items| + |vs| && x[..|items|] == items
              && forall i :: 0 <= i < |vs| ==> SameContent(f, w, vs[i], x[|items| + i])
    decreases w, 1, vs
  {
    hide FitsValue, MergeValue, SameContent, TypedValue, EncValue, CompatibleField, WellFormedField,
         RoomyField, InitValue;
    if vs != [] {
      assert vs[0] in vs;
      assert forall v :: v in vs <==> v == vs[0] || v in vs[1..];
      ValueProjected(f, w, vs[0]);
      var y := MergeValue(f, w, InitValue(f), vs[0]);
      if y.Some? {
        ItemsProjected(f, w, items + [y.value], vs[1..]);
        var r := MergeItems(f, w, items + [y.value], vs[1..]);
        if r.Some? {
          assert r.value[|items|] == y.value && r.value[..|items|] == items by {
            assert r.value[..|items| + 1] == items + [y.value];
            assert r.value[..|items|] == r.value[..|items| + 1][..|items|];
            assert r.value[|items|] == r.value[..|items| + 1][|items|];
          }
          forall i | 0 <= i < |vs|
            ensures SameContent(f, w, vs[i], r.value[|items| + i])
          {
            if i > 0 { assert vs[i] == vs[1..][i - 1]; }
          }
        }
      }
    }
  }

  // ---------------------------------------------------------------- fields

  lemma RepeatedEncodable(w: Field, m: Struct)
    requires w.slot < |m| && w.rule.Repeated? && m[w.slot].Many? && EncField(w, m).Some?
    ensures |m[w.slot].items| <= w.arraySize
    ensures forall v :: v in m[w.slot].items ==> EncValue(w, v).Some?
  {
    hide EncValue, EncPacked, EncUnpacked;
    var vs := m[w.slot].items;
    if vs != [] {
      EntriesEncodable(w, vs);
    }
  }

  lemma SingleEncodable(w: Field, m: Struct)
    requires w.slot < |m| && TypedSlot(w, m[w.slot]) && !w.rule.Repeated? && EncField(w, m).Some? && Emits(w, m[w.slot])
    ensures TypedValue(w, m[w.slot].v) && EncValue(w, m[w.slot].v).Some?
  {
    hide EncValue, TypedValue, IsDefaultValue;
  }

  /** A received slot is projected exactly when it fits. */
  lemma SlotProjected(f: Field, w: Field, held: Slot, m: Struct)
    requires CompatibleField(f, w) && WellFormedField(f) && WellFormedField(w) && RoomyField(f, w)
    requires w.slot < |m| && TypedSlot(w, m[w.slot]) && EncField(w, m).Some? && Emits(w, m[w.slot])
    requires Untouched(f, held)
    ensures MergeSlot(f, w, held, m[w.slot]).Some? <==> FitsSlot(f, w, m[w.slot])
    ensures FitsSlot(f, w, m[w.slot]) ==> SameSlot(f, w, m[w.slot], MergeSlot(f, w, held, m[w.slot]).value)
    ensures f.rule.Oneof? && FitsSlot(f, w, m[w.slot]) ==>
              MergeSlot(f, w, held, m[w.slot]).value.Chosen? && MergeSlot(f, w, held, m[w.slot]).value.which == f.tag
    decreases w, 2
  {
    hide FitsValue, MergeValue, SameContent, TypedValue, EncValue, Compatible, WellFormedField, Roomy,
         InitValue, IsDefaultValue, PayloadLengthFits, EncPacked, EncUnpacked;
    var d := m[w.slot];
    assert f.rule == w.rule;
    if w.rule.Repeated? {
      RepeatedEncodable(w, m);
      ItemsProjected(f, w, [], d.items);
    } else {
      SingleEncodable(w, m);
      ValueProjected(f, w, d.v);
    }
  }

  /** Nothing sent means nothing to show. */
  lemma SilentProjected(f: Field, w: Field, d: Slot, x: Slot)
    requires CompatibleField(f, w) && WellFormedField(f) && TypedSlot(w, d) && !Emits(w, d) && Untouched(f, x)
    ensures SameSlot(f, w, d, x)
  {
    hide SameContent, TypedValue, Compatible, WellFormed, InitValue, IsDefaultValue;
    if f.rule.Singular? {
      DefaultProjects(f, w, d.v);
    }
  }

  // ---------------------------------------------------------------- structs

  lemma SameTagSameField(fs: seq<Field>, f: Field, g: Field)
    requires DistinctTags(fs) && f in fs && g in fs && f.tag == g.tag
    ensures f == g
  {
  }

  lemma FindIs(ws: seq<Field>, k: nat, tag: nat)
    requires k < |ws| && DistinctTags(ws) && ws[k].tag == tag
    ensures FindField(ws, tag) == Some(k)
  {
    FindDistinct(ws, k);
  }

  /** One more field of the writer is received: the reader's other fields keep their state. */
  lemma FieldProjected(fs: seq<Field>, ws: seq<Field>, k: nat, m: Struct, s: Struct)
    requires Compatible(fs, ws) && WellFormed(fs) && WellFormed(ws) && Roomy(fs, ws)
    requires k < |ws| && ws[k].slot < |m| && TypedSlot(ws[k], m[ws[k].slot]) && EncField(ws[k], m).Some?
    requires Received(fs, ws, k, m, s)
    ensures MergeField(fs, ws[k], s, m).Some? <==> FitsField(fs, ws[k], m)
    ensures FitsField(fs, ws[k], m) ==> Received(fs, ws, k + 1, m, MergeField(fs, ws[k], s, m).value)
    decreases ws, 3
  {
    hide TypedSlot, InitSlot, SameSlot, CompatibleField, WellFormedField, RoomyField, EncField, Emits,
         MergeSlot, FitsSlot, LengthsFit, FindField, SlotCount;
    var w := ws[k];
    assert w in ws;
    if !Emits(w, m[w.slot]) {
      ReceivedSilently(fs, ws, k, m, s);
    } else {
      match FindField(fs, w.tag)
      case None =>
        ReceivedUnknown(fs, ws, k, m, s);
      case Some(j) =>
        var f := fs[j];
        assert f in fs;
        FindIs(ws, k, f.tag);
        SlotProjected(f, w, s[f.slot], m);
        if FitsSlot(f, w, m[w.slot]) {
          ReceivedKnown(fs, ws, k, m, s, f, MergeSlot(f, w, s[f.slot], m[w.slot]).value);
        }
    }
  }

  lemma ReceivedSilently(fs: seq<Field>, ws: seq<Field>, k: nat, m: Struct, s: Struct)
    requires Compatible(fs, ws) && WellFormed(fs) && WellFormed(ws)
    requires k < |ws| && ws[k].slot < |m| && TypedSlot(ws[k], m[ws[k].slot]) && !Emits(ws[k], m[ws[k].slot])
    requires Received(fs, ws, k, m, s)
    ensures Received(fs, ws, k + 1, m, s)
  {
    hide TypedSlot, InitSlot, SameSlot, CompatibleField, WellFormedField, Emits, FindField, SlotCount, Untouched;
    forall f | f in fs
      ensures FieldState(f, ws, k + 1, m, s[f.slot])
    {
      if FindField(ws, f.tag) == Some(k) {
        assert ws[k] in ws;
        SilentProjected(f, ws[k], m[ws[k].slot], s[f.slot]);
      }
    }
  }

  lemma ReceivedUnknown(fs: seq<Field>, ws: seq<Field>, k: nat, m: Struct, s: Struct)
    requires k < |ws| && FindField(fs, ws[k].tag).None?
    requires Received(fs, ws, k, m, s)
    ensures Received(fs, ws, k + 1, m, s)
  {
    hide SameSlot, SlotCount, Untouched, FindField;
    forall f | f in fs
      ensures FieldState(f, ws, k + 1, m, s[f.slot])
    {
      assert FieldState(f, ws, k, m, s[f.slot]);
    }
  }

  /** Storing the received slot `x` of field `f`. */
  lemma ReceivedKnown(fs: seq<Field>, ws: seq<Field>, k: nat, m: Struct, s: Struct, f: Field, x: Slot)
    requires Compatible(fs, ws) && WellFormed(fs) && WellFormed(ws) && Roomy(fs, ws)
    requires k < |ws| && ws[k].slot < |m| && TypedSlot(ws[k], m[ws[k].slot]) && Emits(ws[k], m[ws[k].slot])
    requires f in fs && f.tag == ws[k].tag && f.slot < |s|
    requires Received(fs, ws, k, m, s)
    requires SameSlot(f, ws[k], m[ws[k].slot], x)
    requires f.rule.Oneof? ==> x.Chosen? && x.which == f.tag
    ensures Received(fs, ws, k + 1, m, s[f.slot := x])
    decreases ws, 2
  {
    hide TypedSlot, InitSlot, SameSlot, CompatibleField, WellFormedField, RoomyField, Emits, FindField,
         SlotCount, Untouched;
    FindIs(ws, k, f.tag);
    forall g | g in fs
      ensures FieldState(g, ws, k + 1, m, s[f.slot := x][g.slot])
    {
      ReceivedFor(fs, ws, k, m, s, f, x, g);
    }
  }

  /** The same, seen from field `g`. */
  lemma ReceivedFor(fs: seq<Field>, ws: seq<Field>, k: nat, m: Struct, s: Struct, f: Field, x: Slot, g: Field)
    requires Compatible(fs, ws) && WellFormed(fs) && WellFormed(ws) && Roomy(fs, ws)
    requires k < |ws| && ws[k].slot < |m| && TypedSlot(ws[k], m[ws[k].slot]) && Emits(ws[k], m[ws[k].slot])
    requires f in fs && f.tag == ws[k].tag && f.slot < |s| && g in fs && g.slot < |s|
    requires FieldState(g, ws, k, m, s[g.slot]) && FindField(ws, f.tag) == Some(k)
    requires SameSlot(f, ws[k], m[ws[k].slot], x)
    requires f.rule.Oneof? ==> x.Chosen? && x.which == f.tag
    ensures FieldState(g, ws, k + 1, m, s[f.slot := x][g.slot])
    decreases ws, 1
  {
    hide TypedSlot, InitSlot, SameSlot, CompatibleField, WellFormedField, RoomyField, Emits, FindField,
         SlotCount, Untouched;
    if g.tag == f.tag {
      SameTagSameField(fs, f, g);
    } else if g.slot == f.slot {
      SharedOneof(fs, f, g);
      OtherMember(fs, ws, k, m, f, g, x);
    }
  }

  lemma SharedOneof(fs: seq<Field>, f: Field, g: Field)
    requires SeparateSlots(fs) && f in fs && g in fs && f != g && f.slot == g.slot
    ensures f.rule.Oneof? && g.rule.Oneof?
  {
    var i :| 0 <= i < |fs| && fs[i] == f;
    var j :| 0 <= j < |fs| && fs[j] == g;
    if i < j {
      assert fs[i].slot == fs[j].slot;
    } else {
      assert fs[j].slot == fs[i].slot;
    }
  }

  /** Choosing member `f` of a oneof is right for the other members too. */
  lemma OtherMember(fs: seq<Field>, ws: seq<Field>, k: nat, m: Struct, f: Field, g: Field, x: Slot)
    requires SameTypes(fs, ws) && Roomy(fs, ws)
    requires k < |ws| && ws[k].slot < |m| && TypedSlot(ws[k], m[ws[k].slot]) && Emits(ws[k], m[ws[k].slot])
    requires f in fs && g in fs && f.tag == ws[k].tag && f.tag != g.tag && f.slot == g.slot
    requires f.rule.Oneof? && g.rule.Oneof? && x.Chosen? && x.which == f.tag
    ensures FieldState(g, ws, k + 1, m, x)
  {
    hide SameTypes, TypedSlot, Roomy, FindField, SameSlot;
    match FindField(ws, g.tag)
    case None =>
    case Some(j) =>
      OneofApart(fs, ws, k, j, m, f, g, x);
  }

  lemma OneofApart(fs: seq<Field>, ws: seq<Field>, k: nat, j: nat, m: Struct, f: Field, g: Field, x: Slot)
    requires SameTypes(fs, ws) && Roomy(fs, ws)
    requires k < |ws| && ws[k].slot < |m| && TypedSlot(ws[k], m[ws[k].slot]) && Emits(ws[k], m[ws[k].slot])
    requires j < |ws| && ws[j].tag == g.tag
    requires f in fs && g in fs && f.tag == ws[k].tag && f.tag != g.tag && f.slot == g.slot
    requires f.rule.Oneof? && g.rule.Oneof? && x.Chosen? && x.which == f.tag
    ensures ws[j].slot < |m| && SameSlot(g, ws[j], m[ws[j].slot], x)
  {
    hide SameContent, TypedValue, CompatibleField, RoomyField;
    var w, y := ws[k], ws[j];
    assert w in ws && y in ws;
    assert w.slot == y.slot by { RoomySlots(fs, ws, f, g, w, y); }
    assert w.rule.Oneof? by { SameRule(fs, ws, f, w); }
  }

  lemma RoomySlots(fs: seq<Field>, ws: seq<Field>, f: Field, g: Field, w: Field, y: Field)
    requires Roomy(fs, ws) && f in fs && g in fs && f.slot == g.slot
    requires w in ws && y in ws && f.tag == w.tag && g.tag == y.tag
    ensures w.slot == y.slot
  {
    hide RoomyField;
    assert SameTag(f, w, ws) && SameTag(g, y, ws);
  }

  lemma SameRule(fs: seq<Field>, ws: seq<Field>, f: Field, w: Field)
    requires SameTypes(fs, ws) && f in fs && w in ws && f.tag == w.tag
    ensures CompatibleField(f, w) && f.rule == w.rule
  {
    hide Compatible;
  }

  lemma {:induction false} FoldProjected(fs: seq<Field>, ws: seq<Field>, k: nat, m: Struct, s: Struct)
    requires Compatible(fs, ws) && WellFormed(fs) && WellFormed(ws) && Roomy(fs, ws)
    requires Typed(ws, m) && k <= |ws| && EncStruct(ws[k..], m).Some?
    requires Received(fs, ws, k, m, s)
    ensures MergeStruct(fs, ws[k..], s, m).Some? <==> forall w :: w in ws[k..] ==> FitsField(fs, w, m)
    ensures MergeStruct(fs, ws[k..], s, m).Some? ==> Projection(fs, ws, m, MergeStruct(fs, ws[k..], s, m).value)
    decreases ws, 4, |ws| - k
  {
    hide TypedSlot, Compatible, WellFormed, Roomy, EncField, FitsField, MergeField, FieldState, SlotCount;
    if k < |ws| {
      var w := ws[k];
      assert ws[k..][0] == w && ws[k..][1..] == ws[k + 1..];
      assert w in ws;
      EncStructParts(ws[k..], m);
      SlotInRange(ws, m, w);
      FieldProjected(fs, ws, k, m, s);
      assert forall y :: y in ws[k..] <==> y == w || y in ws[k + 1..];
      var r := MergeField(fs, w, s, m);
      if r.Some? {
        FoldProjected(fs, ws, k + 1, m, r.value);
      }
    }
  }

  lemma SlotInRange(ws: seq<Field>, m: Struct, w: Field)
    requires Typed(ws, m) && w in ws
    ensures w.slot < |m| && TypedSlot(w, m[w.slot])
  {
    hide TypedSlot;
  }

  lemma NothingReceived(fs: seq<Field>, ws: seq<Field>, m: Struct)
    requires WellFormed(fs)
    ensures Received(fs, ws, 0, m, InitStruct(fs))
  {
    hide InitStruct, InitSlot, SameSlot, FindField, SlotCount, Untouched, WellFormedField;
    InitStructSlots(fs);
    forall f | f in fs
      ensures FieldState(f, ws, 0, m, InitSlot(f))
    {
      UntouchedInit(f);
    }
  }

  /** Merged into a fresh struct, a message that fits becomes its projection; one that does not is refused. */
  lemma StructProjected(fs: seq<Field>, ws: seq<Field>, m: Struct)
    requires Compatible(fs, ws) && WellFormed(fs) && WellFormed(ws) && Roomy(fs, ws)
    requires Typed(ws, m) && EncStruct(ws, m).Some?
    ensures MergeStruct(fs, ws, InitStruct(fs), m).Some? <==> Fits(fs, ws, m)
    ensures Fits(fs, ws, m) ==> Projection(fs, ws, m, MergeStruct(fs, ws, InitStruct(fs), m).value)
    decreases ws, 5
  {
    hide Typed, Compatible, WellFormed, Roomy, EncStruct, FitsField, MergeStruct, Received, InitStruct;
    NothingReceived(fs, ws, m);
    assert ws[0..] == ws;
    FoldProjected(fs, ws, 0, m, InitStruct(fs));
  }

  // ---------------------------------------------------------------- main results

  /**
   * Schema evolution: decoding under `fs` what was encoded under `ws` succeeds exactly
   * when the message fits, consumes every byte, and yields the projection of the message.
   */
  lemma SchemaEvolution(fs: seq<Field>, ws: seq<Field>, m: Struct)
    requires Compatible(fs, ws) && WellFormed(fs) && WellFormed(ws) && Roomy(fs, ws)
    requires Typed(ws, m) && EncStruct(ws, m).Some? && |EncStruct(ws, m).value| < TWO_63
    ensures Decode(fs, EncStruct(ws, m).value).Ok? <==> Fits(fs, ws, m)
    ensures Decode(fs, EncStruct(ws, m).value).Ok? ==>
              var p := Decode(fs, EncStruct(ws, m).value);
              p.rest == [] && Projection(fs, ws, m, p.value)
  {
    hide Typed, Compatible, WellFormed, Roomy, EncStruct, Fits, MergeStruct, Projection, InitStruct, DecodeNoInit;
    StructRead(fs, ws, InitStruct(fs), m);
    StructProjected(fs, ws, m);
  }

  lemma {:induction false} SelfCompatibleField(f: Field)
    requires WellFormedField(f)
    ensures CompatibleField(f, f) && RoomyField(f, f)
    decreases f
  {
    if f.ltype.Message? { SelfCompatible(f.ltype.fields); }
  }

  lemma {:induction false} SelfCompatible(fs: seq<Field>)
    requires WellFormed(fs)
    ensures Compatible(fs, fs) && Roomy(fs, fs)
    decreases fs
  {
    hide WellFormedField, CompatibleField, RoomyField;
    forall f, w | f in fs && w in fs && f.tag == w.tag
      ensures CompatibleField(f, w) && RoomyField(f, w)
    {
      SameTagSameField(fs, f, w);
      SelfCompatibleField(f);
    }
    forall f, g, w, y | f in fs && g in fs && f.slot == g.slot && SameTag(f, w, fs) && SameTag(g, y, fs)
      ensures w.slot == y.slot
    {
      SameTagSameField(fs, f, w);
      SameTagSameField(fs, g, y);
    }
  }

  /**
   * Round trip: pb_decode of pb_encode's output succeeds exactly when every string is
   * terminated within its buffer and every length prefix is below 2^32.  It then
   * consumes every byte and each field of the result shows the field of the message.
   */
  lemma MessageRoundTrip(fs: seq<Field>, m: Struct)
    requires WellFormed(fs) && Typed(fs, m) && EncStruct(fs, m).Some? && |EncStruct(fs, m).value| < TWO_63
    ensures Decode(fs, EncStruct(fs, m).value).Ok? <==> Fits(fs, fs, m)
    ensures Decode(fs, EncStruct(fs, m).value).Ok? ==>
              var p := Decode(fs, EncStruct(fs, m).value);
              && p.rest == [] && |p.value| == |m|
              && forall f :: f in fs ==> SameSlot(f, f, m[f.slot], p.value[f.slot])
  {
    hide TypedSlot, EncStruct, Fits, Decode, FindField, SameSlot, SlotCount, WellFormedField;
    SelfCompatible(fs);
    SchemaEvolution(fs, fs, m);
    var p := Decode(fs, EncStruct(fs, m).value);
    if p.Ok? {
      forall f | f in fs
        ensures SameSlot(f, f, m[f.slot], p.value[f.slot])
      {
        var k :| 0 <= k < |fs| && fs[k] == f;
        FindIs(fs, k, f.tag);
        assert FieldState(f, fs, |fs|, m, p.value[f.slot]);
      }
    }
  }

  lemma SingleField(f: Field, m: Struct)
    requires EncField(f, m).Some?
    ensures EncStruct([f], m) == EncField(f, m)
  {
    hide EncField;
    assert [f][1..] == [];
    assert EncStruct([f][1..], m) == Some([]);
    var b := EncField(f, m).value;
    assert b + [] == b;
  }

  /** A one-character buffer without its terminator is written but cannot be read back. */
  lemma UnterminatedStringFails()
    ensures
      var fs := [Field(1, Required, Text, 1, 0, 0, None, 0, 0)];
      var m := [One(Data(['A' as int]))];
      && WellFormed(fs) && Typed(fs, m)
      && EncStruct(fs, m) == Some([0x0A, 0x01, 0x41])
      && Decode(fs, [0x0A, 0x01, 0x41]) == Err
  {
    var f := Field(1, Required, Text, 1, 0, 0, None, 0, 0);
    var fs := [f];
    var m := [One(Data(['A' as int]))];
    assert WellFormedField(f);
    assert EncBlock([0x41]) == [0x01, 0x41];
    assert EncTag(1, 2) == [0x0A];
    assert EncValue(f, Data([0x41])) == Some([0x01, 0x41]);
    assert [0x0A] + [0x01, 0x41] == [0x0A, 0x01, 0x41];
    assert EncField(f, m) == EncItem(f, Data([0x41])) == Some([0x0A, 0x01, 0x41]);
    SingleField(f, m);
    assert Typed(fs, m) by {
      assert SlotCount(fs) == 1 by { assert fs[1..] == []; }
      assert TypedSlot(f, m[0]);
      assert forall g :: g in fs ==> g == f;
    }
    var b: seq<byte> := [0x0A, 0x01, 0x41];
    assert DecVarint32(b) == Ok(10, [0x01, 0x41]) by { assert b[1..] == [0x01, 0x41]; }
    assert FindField(fs, 1) == Some(0);
    assert DecVarint32([0x01, 0x41]) == Ok(1, [0x41]);
    assert DecField(f, 2, [0x01, 0x41], InitStruct(fs)) == Err;
  }
}
