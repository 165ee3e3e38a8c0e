/** What pb_encode.c can encode, and what it leaves out. */
module WireOutput {
  import opened Bits
  import opened Schema
  import opened Varint
  import opened Wire

  /** Of the values a C struct can hold only a byte array that exceeds its buffer cannot be encoded, and a submessage that holds such a one. */
  lemma EncodableValues(f: Field, v: Value)
    requires WellFormedField(f) && TypedValue(f, v)
    ensures EncValue(f, v).Some? <==>
              match f.ltype
              case Bytes => |v.b| + 4 <= f.dataSize
              case Message(sub) => EncStruct(sub, v.s).Some?
              case _ => true
  {
    hide EncVarint, EncFixed, ZigZag, EncStruct, Typed, WellFormed;
  }

  /** Nor can an array that exceeds its capacity, or holds an entry that cannot. */
  lemma {:induction false} EncodableArrays(f: Field, items: seq<Value>)
    ensures EncArray(f, items).Some? <==>
              items == [] || (|items| <= f.arraySize && forall v :: v in items ==> EncValue(f, v).Some?)
  {
    hide EncValue, EncVarint;
    EntriesEncodable(f, items);
  }

  lemma {:induction false} EntriesEncodable(f: Field, items: seq<Value>)
    ensures EncPacked(f, items).Some? <==> forall v :: v in items ==> EncValue(f, v).Some?
    ensures EncUnpacked(f, items).Some? <==> forall v :: v in items ==> EncValue(f, v).Some?
  {
    hide EncValue, EncVarint;
    if items != [] {
      EntriesEncodable(f, items[1..]);
      assert forall v :: v in items <==> v == items[0] || v in items[1..];
      assert items[0] in items;
      assert EncPacked(f, items) == Cat(EncValue(f, items[0]), EncPacked(f, items[1..]));
      assert EncUnpacked(f, items) == Cat(EncItem(f, items[0]), EncUnpacked(f, items[1..]));
    }
  }

  /** A message can be encoded exactly if each of its fields can. */
  lemma {:induction false} EncodableMessages(fs: seq<Field>, s: Struct)
    ensures EncStruct(fs, s).Some? <==> forall f :: f in fs ==> EncField(f, s).Some?
  {
    hide EncField;
    if fs != [] {
      EncodableMessages(fs[1..], s);
      assert EncStruct(fs, s) == Cat(EncField(fs[0], s), EncStruct(fs[1..], s));
      assert forall f :: f in fs <==> f == fs[0] || f in fs[1..];
      assert fs[0] in fs;
    }
  }

  // ---------------------------------------------------------------- implicit presence

  /** Every oneof is empty or holds one of its members, in the submessages too. */
  ghost predicate Choices(fs: seq<Field>, s: Struct)
    decreases fs
  {
    && (forall f :: f in fs && f.slot < |s| && f.rule.Oneof? && s[f.slot].Chosen? ==> MemberOf(fs, f.slot, s[f.slot].which))
    && (forall f :: f in fs && f.slot < |s| && f.rule.Singular? ==> ChoicesBelow(f, s[f.slot]))
  }

  ghost predicate MemberOf(fs: seq<Field>, slot: nat, which: nat) {
    exists g :: g in fs && g.slot == slot && g.rule.Oneof? && g.tag == which
  }

  ghost predicate ChoicesBelow(f: Field, d: Slot) {
    f.ltype.Message? && d.One? && d.v.Msg? ==> Choices(f.ltype.fields, d.v.s)
  }

  lemma {:induction false} AllDefaultIs(fs: seq<Field>, s: Struct)
    ensures AllDefault(fs, s) <==> forall f :: f in fs ==> f.slot < |s| && IsDefaultSlot(f, s[f.slot])
  {
    hide IsDefaultSlot;
    if fs != [] {
      AllDefaultIs(fs[1..], s);
      assert forall f :: f in fs <==> f == fs[0] || f in fs[1..];
    }
  }

  lemma CatEmpty(a: Option<seq<byte>>, b: Option<seq<byte>>)
    ensures Cat(a, b) == Some([]) <==> a == Some([]) && b == Some([])
  {
    if a == Some([]) && b == Some([]) { assert a.value + b.value == []; }
    if Cat(a, b) == Some([]) {
      assert a.value + b.value == [];
      assert |a.value| + |b.value| == 0;
      assert a.value == [] && b.value == [];
    }
  }

  lemma {:induction false} EmptyStructIs(fs: seq<Field>, s: Struct)
    ensures EncStruct(fs, s) == Some([]) <==> forall f :: f in fs ==> EncField(f, s) == Some([])
  {
    hide EncField, Cat;
    if fs != [] {
      CatEmpty(EncField(fs[0], s), EncStruct(fs[1..], s));
      EmptyStructIs(fs[1..], s);
      assert EncStruct(fs, s) == Cat(EncField(fs[0], s), EncStruct(fs[1..], s));
      assert forall f :: f in fs <==> f == fs[0] || f in fs[1..];
      assert fs[0] in fs;
    } else {
      assert EncStruct(fs, s) == Some([]);
    }
  }

  lemma ItemNotEmpty(f: Field, v: Value)
    ensures EncItem(f, v) != Some([])
  {
    hide EncValue, EncVarint;
  }

  lemma EmptyArray(f: Field, items: seq<Value>)
    ensures EncArray(f, items) == Some([]) <==> items == []
  {
    hide EncItem, EncPacked, EncVarint;
    if items != [] {
      ItemNotEmpty(f, items[0]);
      CatEmpty(EncItem(f, items[0]), EncUnpacked(f, items[1..]));
    }
  }

  /** The submessages a struct is checked against pb_check_proto3_default_value for are those that encode to nothing. */
  lemma {:induction false} DefaultIsEmpty(fs: seq<Field>, s: Struct)
    requires WellFormed(fs) && Choices(fs, s) && (forall f :: f in fs ==> f.slot < |s| && TypedSlot(f, s[f.slot]))
    ensures AllDefault(fs, s) <==> EncStruct(fs, s) == Some([])
    decreases fs, 1
  {
    hide IsDefaultSlot, EncField, AllDefault, EncStruct, Choices, WellFormedField, TypedSlot;
    AllDefaultIs(fs, s);
    EmptyStructIs(fs, s);
    forall f | f in fs
      ensures IsDefaultSlot(f, s[f.slot]) ==> EncField(f, s) == Some([])
      ensures !f.rule.Oneof? && EncField(f, s) == Some([]) ==> IsDefaultSlot(f, s[f.slot])
    {
      SlotDefaultIsEmpty(fs, f, s);
    }
    if AllDefault(fs, s) {
      assert EncStruct(fs, s) == Some([]);
    } else if EncStruct(fs, s) == Some([]) {
      var f :| f in fs && !IsDefaultSlot(f, s[f.slot]);
      ChosenIsSent(fs, f, s);
    }
  }

  lemma ChosenIsSent(fs: seq<Field>, f: Field, s: Struct)
    requires Choices(fs, s) && f in fs && f.rule.Oneof? && f.slot < |s| && TypedSlot(f, s[f.slot]) && !IsDefaultSlot(f, s[f.slot])
    ensures exists g :: g in fs && EncField(g, s) != Some([])
  {
    hide EncItem, TypedValue;
    assert MemberOf(fs, f.slot, s[f.slot].which);
    var g :| g in fs && g.slot == f.slot && g.rule.Oneof? && g.tag == s[f.slot].which;
    ItemNotEmpty(g, s[g.slot].v);
    assert EncField(g, s) == EncItem(g, s[g.slot].v);
  }

  lemma {:induction false} SlotDefaultIsEmpty(fs: seq<Field>, f: Field, s: Struct)
    requires WellFormed(fs) && Choices(fs, s) && f in fs && f.slot < |s| && TypedSlot(f, s[f.slot])
    ensures IsDefaultSlot(f, s[f.slot]) ==> EncField(f, s) == Some([])
    ensures !f.rule.Oneof? && EncField(f, s) == Some([]) ==> IsDefaultSlot(f, s[f.slot])
    decreases fs, 0
  {
    hide EncItem, EncArray, IsDefaultValue, TypedValue, DistinctTags, SeparateSlots;
    match s[f.slot]
    case One(v) =>
      ItemNotEmpty(f, v);
    case Opt(_, v) => ItemNotEmpty(f, v);
    case Many(items) => EmptyArray(f, items);
    case Nothing =>
    case Chosen(_, _) =>
  }

  /** A proto3 field is left out exactly if its number is zero, its bytes are none, or its submessage encodes to nothing. */
  lemma OmittedIsEmpty(fs: seq<Field>, f: Field, s: Struct)
    requires WellFormed(fs) && Choices(fs, s) && f in fs && f.slot < |s| && TypedSlot(f, s[f.slot]) && f.rule.Singular?
    ensures s[f.slot].One?
    ensures EncField(f, s) == Some([]) <==>
              match s[f.slot].v
              case Num(n) => n == 0
              case Data(b) => b == []
              case Msg(m) => f.ltype.Message? && EncStruct(f.ltype.fields, m) == Some([])
  {
    hide EncItem, EncStruct, AllDefault, DistinctTags, SeparateSlots;
    var v := s[f.slot].v;
    ItemNotEmpty(f, v);
    if v.Msg? {
      SubmessageKept(fs, f, s);
      DefaultIsEmpty(f.ltype.fields, v.s);
    }
  }

  lemma SubmessageKept(fs: seq<Field>, f: Field, s: Struct)
    requires WellFormed(fs) && Choices(fs, s) && f in fs && f.slot < |s| && TypedSlot(f, s[f.slot])
    requires f.rule.Singular? && s[f.slot].One? && s[f.slot].v.Msg?
    ensures f.ltype.Message? && WellFormed(f.ltype.fields) && Choices(f.ltype.fields, s[f.slot].v.s)
    ensures forall g :: g in f.ltype.fields ==> g.slot < |s[f.slot].v.s| && TypedSlot(g, s[f.slot].v.s[g.slot])
  {
    assert WellFormedField(f) && ChoicesBelow(f, s[f.slot]);
    hide Choices, WellFormed;
    FieldsTyped(f, s[f.slot].v);
  }

  lemma FieldsTyped(f: Field, v: Value)
    requires TypedValue(f, v) && v.Msg?
    ensures f.ltype.Message? && forall g :: g in f.ltype.fields ==> g.slot < |v.s| && TypedSlot(g, v.s[g.slot])
  {
    hide TypedSlot;
  }
}
