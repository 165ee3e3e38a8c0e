/**
 * pb_encode.c: the output stream and the encoder, working in place on the stream.
 * Each method is proved against the byte string `Wire` says it emits: on a sizing
 * stream it counts exactly those bytes, on a buffer stream it stores exactly those
 * bytes and succeeds exactly when they fit.
 */
module PbEncode {
  import opened Bits
  import opened Schema
  import opened Varint
  import opened Wire

  // ---------------------------------------------------------------- what a step does to a stream

  /** The visible state of a stream; `bounded` is false for a sizing stream. */
  datatype Snap = Snap(bounded: bool, state: nat, maxSize: nat, bytesWritten: nat, content: seq<byte>)

  ghost predicate ValidSnap(s: Snap) {
    s.bounded ==> s.bytesWritten <= s.maxSize && s.state + (s.maxSize - s.bytesWritten) <= |s.content|
  }

  /** Nothing outside the part of the buffer the stream may still fill has changed. */
  ghost predicate Kept(s0: Snap, s: Snap) {
    && ValidSnap(s0) && ValidSnap(s)
    && s.bounded == s0.bounded && s.maxSize == s0.maxSize && s.bytesWritten >= s0.bytesWritten
    && (s.bounded ==>
          && s.state - s.bytesWritten == s0.state - s0.bytesWritten
          && |s.content| == |s0.content|
          && s.content[..s0.state] == s0.content[..s0.state]
          && s.content[s0.state + (s0.maxSize - s0.bytesWritten)..] == s0.content[s0.state + (s0.maxSize - s0.bytesWritten)..])
  }

  /** Exactly the bytes `out` went to the stream. */
  ghost predicate Stored(s0: Snap, s: Snap, out: seq<byte>) {
    && s.bytesWritten == s0.bytesWritten + |out|
    && (s.bounded ==> s.state == s0.state + |out| <= |s.content| && s.content[s0.state..s.state] == out)
  }

  ghost predicate Room(s: Snap, n: nat) {
    s.bounded ==> s.bytesWritten + n <= s.maxSize
  }

  /** An encoding step that stands for `out`: it succeeds exactly when there are such bytes and they fit. */
  ghost predicate Step(s0: Snap, s: Snap, ok: bool, out: Option<seq<byte>>) {
    && Kept(s0, s)
    && (ok <==> out.Some? && Room(s0, |out.value|))
    && (ok ==> Stored(s0, s, out.value))
  }

  lemma StoredThen(s0: Snap, s1: Snap, s2: Snap, a: seq<byte>, b: seq<byte>)
    requires Kept(s0, s1) && Kept(s1, s2) && Stored(s0, s1, a) && Stored(s1, s2, b)
    ensures Kept(s0, s2) && Stored(s0, s2, a + b)
  {
    if s0.bounded {
      var p, q, r := s0.state, s1.state, s2.state;
      assert s2.content[p..q] == s1.content[p..q] by {
        assert s2.content[..q][p..] == s2.content[p..q];
        assert s1.content[..q][p..] == s1.content[p..q];
      }
      assert s2.content[p..r] == s2.content[p..q] + s2.content[q..r];
      assert s2.content[..p] == s2.content[..q][..p];
      assert s1.content[..p] == s1.content[..q][..p];
    }
  }

  lemma KeptThen(s0: Snap, s1: Snap, s2: Snap)
    requires Kept(s0, s1) && Kept(s1, s2)
    ensures Kept(s0, s2)
  {
    if s0.bounded {
      var p, q := s0.state, s1.state;
      assert s2.content[..p] == s2.content[..q][..p];
      assert s1.content[..p] == s1.content[..q][..p];
    }
  }

  /** A step that succeeded, and one after it. */
  lemma StepThen(s0: Snap, s1: Snap, s2: Snap, ok: bool, a: Option<seq<byte>>, b: Option<seq<byte>>)
    requires Step(s0, s1, true, a) && Step(s1, s2, ok, b)
    ensures Step(s0, s2, ok, Cat(a, b))
  {
    KeptThen(s0, s1, s2);
    if ok { StoredThen(s0, s1, s2, a.value, b.value); }
  }

  /** A step that failed makes the whole fail. */
  lemma StepFails(s0: Snap, s1: Snap, a: Option<seq<byte>>, b: Option<seq<byte>>)
    requires Step(s0, s1, false, a)
    ensures Step(s0, s1, false, Cat(a, b))
  {
  }

  // ---------------------------------------------------------------- the stream

  /** pb_ostream_t; a null `buf` is the null callback of a sizing stream. */
  class OStream {
    const buf: array?<byte>
    var state: nat
    var maxSize: nat
    var bytesWritten: nat

    function Footprint(): set<object> {
      if buf == null then {} else {buf}
    }

    ghost function Now(): Snap
      reads this, Footprint()
    {
      Snap(buf != null, state, maxSize, bytesWritten, if buf == null then [] else buf[..])
    }

    ghost predicate Valid()
      reads this, Footprint()
    {
      ValidSnap(Now())
    }

    /** PB_OSTREAM_SIZING */
    constructor Sizing()
      ensures Valid() && buf == null && bytesWritten == 0
    {
      buf := null;
      state, maxSize, bytesWritten := 0, 0, 0;
    }

    /** pb_ostream_from_buffer, and the substream of pb_encode_submessage. */
    constructor FromBuffer(b: array<byte>, at: nat, size: nat)
      requires at + size <= b.Length
      ensures Valid() && buf == b && state == at && maxSize == size && bytesWritten == 0
    {
      buf := b;
      state, maxSize, bytesWritten := at, size, 0;
    }

    /** pb_write */
    method Write(data: seq<byte>) returns (ok: bool)
      requires Valid()
      modifies this, Footprint()
      ensures Step(old(Now()), Now(), ok, Some(data))
    {
      if buf != null {
        if bytesWritten + |data| > maxSize {
          return false;
        }
        BufWrite(data);
      }
      bytesWritten := bytesWritten + |data|;
      return true;
    }

    /** buf_write */
    method BufWrite(data: seq<byte>)
      requires buf != null && state + |data| <= buf.Length
      modifies this`state, buf
      ensures state == old(state) + |data|
      ensures buf[..] == old(buf[..state]) + data + old(buf[state + |data|..])
    {
      var dest := state;
      ghost var content := buf[..];
      state := dest + |data|;
      for i := 0 to |data|
        invariant state == dest + |data|
        invariant buf[..] == content[..dest] + data[..i] + content[dest + i..]
      {
        buf[dest + i] := data[i];
      }
    }

    /** pb_write with a null buffer, which only a sizing stream is given. */
    method WriteSize(n: nat)
      requires buf == null
      modifies this
      ensures Now() == old(Now()).(bytesWritten := old(bytesWritten) + n)
    {
      bytesWritten := bytesWritten + n;
    }
  }

  // ---------------------------------------------------------------- varints and blocks

  lemma VarintGroup(v: nat)
    ensures v > 0x7F ==> EncVarint(v) == [v % 128 + 128] + EncVarint(v / 128)
    ensures v <= 0x7F ==> EncVarint(v) == [v] && v % 128 == v && v / 128 == 0
  {
  }

  /** The loop of pb_encode_varint, which fills its ten-byte buffer from the low end. */
  method VarintBytes(v: nat) returns (bytes: seq<byte>)
    requires 0x7F < v < TWO_64
    ensures bytes == EncVarint(v)
  {
    hide EncVarint;
    EncVarintAtMostTen(v);
    var buffer := new byte[10](_ => 0);
    var value: nat, i: nat := v, 0;
    while value != 0
      invariant i <= 10
      invariant value > 0 ==> EncVarint(v) == buffer[..i] + EncVarint(value)
      invariant value == 0 ==> i > 0 && buffer[i - 1] >= 128 && EncVarint(v) == buffer[..i - 1] + [buffer[i - 1] - 128]
      decreases value
    {
      ghost var before := buffer[..i];
      buffer[i] := value % 128 + 128;
      assert buffer[..i + 1] == before + [value % 128 + 128];
      VarintGroup(value);
      value := value / 128;
      i := i + 1;
    }
    ghost var all := buffer[..i - 1];
    buffer[i - 1] := buffer[i - 1] - 128;
    assert buffer[..i] == all + [buffer[i - 1]];
    return buffer[..i];
  }

  /** pb_encode_varint */
  method EncodeVarint(stream: OStream, v: nat) returns (ok: bool)
    requires stream.Valid() && v < TWO_64
    modifies stream, stream.Footprint()
    ensures Step(old(stream.Now()), stream.Now(), ok, Some(EncVarint(v)))
  {
    hide Step;
    if v <= 0x7F {
      VarintGroup(v);
      ok := stream.Write([v]);
      return;
    }
    var buffer := VarintBytes(v);
    ok := stream.Write(buffer);
  }

  /** pb_encode_tag */
  method EncodeTag(stream: OStream, wireType: nat, tag: nat) returns (ok: bool)
    requires stream.Valid() && 8 * tag + wireType < TWO_64
    modifies stream, stream.Footprint()
    ensures Step(old(stream.Now()), stream.Now(), ok, Some(EncTag(tag, wireType)))
  {
    hide Step;
    ok := EncodeVarint(stream, 8 * tag + wireType);
  }

  lemma StepPair(s0: Snap, s1: Snap, s2: Snap, ok: bool, a: seq<byte>, b: seq<byte>)
    requires Step(s0, s1, true, Some(a)) && Step(s1, s2, ok, Some(b))
    ensures Step(s0, s2, ok, Some(a + b))
  {
    hide Step;
    StepThen(s0, s1, s2, ok, Some(a), Some(b));
  }

  lemma StepFirstFails(s0: Snap, s1: Snap, a: seq<byte>, b: seq<byte>)
    requires Step(s0, s1, false, Some(a))
    ensures Step(s0, s1, false, Some(a + b))
  {
    hide Kept;
    StepFails(s0, s1, Some(a), Some(b));
  }

  lemma StepValid(s0: Snap, s1: Snap, ok: bool, out: Option<seq<byte>>)
    requires Step(s0, s1, ok, out)
    ensures ValidSnap(s1) && s1.bounded == s0.bounded
  {
  }

  /** pb_encode_string */
  method EncodeString(stream: OStream, data: seq<byte>) returns (ok: bool)
    requires stream.Valid() && |data| < TWO_64
    modifies stream, stream.Footprint()
    ensures Step(old(stream.Now()), stream.Now(), ok, Some(EncBlock(data)))
  {
    hide Step, EncVarint;
    ghost var s0 := stream.Now();
    ok := EncodeVarint(stream, |data|);
    ghost var s1 := stream.Now();
    if !ok {
      StepFirstFails(s0, s1, EncVarint(|data|), data);
      return;
    }
    StepValid(s0, s1, true, Some(EncVarint(|data|)));
    ok := stream.Write(data);
    StepPair(s0, s1, stream.Now(), ok, EncVarint(|data|), data);
  }

  /** pb_encode_fixed32 and pb_encode_fixed64 */
  method EncodeFixed(stream: OStream, v: nat, n: nat) returns (ok: bool)
    requires stream.Valid()
    modifies stream, stream.Footprint()
    ensures Step(old(stream.Now()), stream.Now(), ok, Some(EncFixed(v, n)))
  {
    hide Step;
    var bytes: seq<byte>, value: nat := [], v;
    for i := 0 to n
      invariant EncFixed(v, n) == bytes + EncFixed(value, n - i)
    {
      ghost var before, rest := bytes, EncFixed(value / 256, n - i - 1);
      bytes := bytes + [value % 256];
      assert before + ([value % 256] + rest) == bytes + rest;
      value := value / 256;
    }
    assert bytes + [] == bytes;
    ok := stream.Write(bytes);
  }

  // ---------------------------------------------------------------- default values

  /** The submessage loop of pb_check_proto3_default_value. */
  method CheckDefaultStruct(fs: seq<Field>, s: Struct) returns (isDefault: bool)
    requires Typed(fs, s)
    ensures isDefault == AllDefault(fs, s)
    decreases fs, 2
  {
    hide TypedValue, SlotCount;
    for k := 0 to |fs|
      invariant AllDefault(fs, s) == AllDefault(fs[k..], s)
    {
      assert fs[k] in fs;
      assert fs[k..][0] == fs[k] && fs[k..][1..] == fs[k + 1..];
      var here := CheckDefaultSlot(fs[k], s[fs[k].slot]);
      if !here {
        return false;
      }
    }
    return true;
  }

  /** pb_check_proto3_default_value */
  method CheckDefaultSlot(f: Field, d: Slot) returns (isDefault: bool)
    requires TypedSlot(f, d)
    ensures isDefault == IsDefaultSlot(f, d)
    decreases f, 1
  {
    hide TypedValue, IsDefaultValue;
    match f.rule {
      case Required => return false;
      case Repeated => return |d.items| == 0;
      case Oneof => return d.Nothing?;
      case Optional => return !d.has;
      case Singular => isDefault := CheckDefaultValue(f, d.v);
    }
  }

  method CheckDefaultValue(f: Field, v: Value) returns (isDefault: bool)
    requires TypedValue(f, v)
    ensures isDefault == IsDefaultValue(f, v)
    decreases f, 0
  {
    hide AllDefault;
    match f.ltype {
      case Bytes => return |v.b| == 0;
      case Text => return |v.b| == 0;
      case FixedBytes => return f.dataSize == 0;
      case Message(sub) => isDefault := CheckDefaultStruct(sub, v.s);
      case _ => return v.n == 0;
    }
  }

  // ---------------------------------------------------------------- values, items, arrays

  ghost predicate Small(out: Option<seq<byte>>) {
    out.Some? ==> |out.value| < TWO_64
  }

  ghost predicate SmallValue(f: Field, v: Value)
    decreases f, 0
  {
    f.ltype.Message? && v.Msg? ==> SmallStruct(f.ltype.fields, v.s)
  }

  ghost predicate SmallSlot(f: Field, d: Slot)
    decreases f, 1
  {
    match d
    case One(v) => SmallValue(f, v)
    case Opt(_, v) => SmallValue(f, v)
    case Chosen(_, v) => SmallValue(f, v)
    case Many(vs) => (Packable(f.ltype) ==> Small(EncPacked(f, vs))) && forall v :: v in vs ==> SmallValue(f, v)
    case Nothing => true
  }

  /** The sizes the encoder counts in a size_t do not overflow it. */
  ghost predicate SmallStruct(fs: seq<Field>, s: Struct)
    decreases fs, 2
  {
    Small(EncStruct(fs, s)) && forall f :: f in fs && f.slot < |s| ==> SmallSlot(f, s[f.slot])
  }

  /** The encoder the table lists for the field's type. */
  method EncodeValue(stream: OStream, f: Field, v: Value) returns (ok: bool)
    requires stream.Valid() && TypedValue(f, v) && WellFormedField(f) && SmallValue(f, v)
    modifies stream, stream.Footprint()
    ensures Step(old(stream.Now()), stream.Now(), ok, EncValue(f, v))
    decreases f, 0
  {
    hide Step, EncVarint, EncBlock, EncStruct, EncFixed, ZigZag;
    match f.ltype {
      case Int =>
        ok := EncodeVarint(stream, ToUnsigned(v.n));
      case UInt =>
        ok := EncodeVarint(stream, v.n);
      case SInt =>
        ok := EncodeVarint(stream, ZigZag(v.n));
      case Fixed32 =>
        ok := EncodeFixed(stream, v.n, 4);
      case Fixed64 =>
        ok := EncodeFixed(stream, v.n, 8);
      case Bytes =>
        if |v.b| + BYTES_HEADER > f.dataSize {
          NoStep(stream.Now());
          return false;
        }
        ok := EncodeString(stream, v.b);
      case Text =>
        ok := EncodeString(stream, v.b);
      case FixedBytes =>
        ok := EncodeString(stream, v.b);
      case Message(sub) =>
        ok := EncodeSubmessage(stream, sub, v.s);
    }
  }

  /** Returning false at once is the step of an encoder that cannot succeed. */
  lemma NoStep(s: Snap)
    requires ValidSnap(s)
    ensures Step(s, s, false, None)
  {
  }

  function BlockOf(body: Option<seq<byte>>): Option<seq<byte>> {
    if body.Some? then Some(EncBlock(body.value)) else None
  }

  /** A sizing stream counts the bytes there are. */
  lemma Sized(s0: Snap, s1: Snap, ok: bool, out: Option<seq<byte>>)
    requires Step(s0, s1, ok, out) && !s0.bounded
    ensures ok <==> out.Some?
    ensures ok ==> s1.bytesWritten == s0.bytesWritten + |out.value|
  {
  }

  lemma CountedStep(s: Snap, out: seq<byte>)
    requires !s.bounded && ValidSnap(s)
    ensures Step(s, s.(bytesWritten := s.bytesWritten + |out|), true, Some(out))
  {
  }

  lemma FullStep(s: Snap, out: seq<byte>)
    requires ValidSnap(s) && !Room(s, |out|)
    ensures Step(s, s, false, Some(out))
  {
  }

  /** Encoding into a window of exactly the right size succeeds, and is a step of the parent stream. */
  lemma WindowStep(s: Snap, w: Snap, ok: bool, out: seq<byte>)
    requires ValidSnap(s) && s.bounded && Room(s, |out|)
    requires Step(Snap(true, s.state, |out|, 0, s.content), w, ok, Some(out))
    ensures ok && w.bytesWritten == |out|
    ensures Step(s, Snap(true, w.state, s.maxSize, s.bytesWritten + w.bytesWritten, w.content), true, Some(out))
  {
    var t := s.state + |out|;
    var e := s.state + (s.maxSize - s.bytesWritten);
    assert w.content[t..] == s.content[t..];
    assert w.content[e..] == w.content[t..][e - t..];
    assert s.content[e..] == s.content[t..][e - t..];
  }

  /** pb_encode_submessage: size, length prefix, then the same encoding again in a window of that size. */
  method EncodeSubmessage(stream: OStream, fs: seq<Field>, s: Struct) returns (ok: bool)
    requires stream.Valid() && Typed(fs, s) && WellFormed(fs) && SmallStruct(fs, s)
    modifies stream, stream.Footprint()
    ensures Step(old(stream.Now()), stream.Now(), ok, BlockOf(EncStruct(fs, s)))
    decreases fs, 6
  {
    hide EncVarint, EncStruct, Typed, WellFormed, Step, SlotCount, SmallSlot;
    ghost var s0 := stream.Now();
    ghost var out := EncStruct(fs, s);
    var sizing := new OStream.Sizing();
    ghost var z0 := sizing.Now();
    ok := Encode(sizing, fs, s);
    Sized(z0, sizing.Now(), ok, out);
    assert stream.Now() == s0;
    if !ok {
      NoStep(s0);
      return;
    }
    var size := sizing.bytesWritten;
    ok := EncodeVarint(stream, size);
    ghost var s1 := stream.Now();
    if !ok {
      StepFirstFails(s0, s1, EncVarint(size), out.value);
      return;
    }
    StepValid(s0, s1, true, Some(EncVarint(size)));
    ok := EncodeWindow(stream, fs, s, size);
    StepPair(s0, s1, stream.Now(), ok, EncVarint(size), out.value);
  }

  /** The rest of pb_encode_submessage, after the length prefix. */
  method EncodeWindow(stream: OStream, fs: seq<Field>, s: Struct, size: nat) returns (ok: bool)
    requires stream.Valid() && Typed(fs, s) && WellFormed(fs) && SmallStruct(fs, s)
    requires EncStruct(fs, s).Some? && |EncStruct(fs, s).value| == size
    modifies stream, stream.Footprint()
    ensures Step(old(stream.Now()), stream.Now(), ok, EncStruct(fs, s))
    decreases fs, 5, 1
  {
    hide EncVarint, EncStruct, Typed, WellFormed, Step, SlotCount, SmallSlot;
    ghost var s1 := stream.Now();
    ghost var body := EncStruct(fs, s).value;
    if stream.buf == null {
      CountedStep(s1, body);
      stream.WriteSize(size);
      return true;
    }
    if stream.bytesWritten + size > stream.maxSize {
      FullStep(s1, body);
      return false;
    }
    var substream := new OStream.FromBuffer(stream.buf, stream.state, size);
    assert substream.Now() == Snap(true, s1.state, size, 0, s1.content);
    var status := Encode(substream, fs, s);
    WindowStep(s1, substream.Now(), status, body);
    stream.bytesWritten := stream.bytesWritten + substream.bytesWritten;
    stream.state := substream.state;
    if substream.bytesWritten != size {
      return false;
    }
    return status;
  }

  /** Tag and value. */
  method EncodeItem(stream: OStream, f: Field, v: Value) returns (ok: bool)
    requires stream.Valid() && TypedValue(f, v) && WellFormedField(f) && SmallValue(f, v)
    modifies stream, stream.Footprint()
    ensures Step(old(stream.Now()), stream.Now(), ok, EncItem(f, v))
    decreases f, 1
  {
    hide EncVarint, EncTag, EncValue, Step, WellFormed, TypedValue;
    ghost var s0 := stream.Now();
    ghost var key := EncTag(f.tag, WireType(f.ltype));
    ok := EncodeTag(stream, WireType(f.ltype), f.tag);
    ghost var s1 := stream.Now();
    if !ok {
      StepFails(s0, s1, Some(key), EncValue(f, v));
      return;
    }
    StepValid(s0, s1, true, Some(key));
    ok := EncodeValue(stream, f, v);
    StepThen(s0, s1, stream.Now(), ok, Some(key), EncValue(f, v));
  }

  lemma CatAssociative(a: Option<seq<byte>>, b: Option<seq<byte>>, c: Option<seq<byte>>)
    ensures Cat(Cat(a, b), c) == Cat(a, Cat(b, c))
  {
    if a.Some? && b.Some? && c.Some? {
      assert a.value + b.value + c.value == a.value + (b.value + c.value);
    }
  }

  lemma NothingYet(s: Snap)
    requires ValidSnap(s)
    ensures Step(s, s, true, Some([]))
  {
    if s.bounded { assert s.content[s.state..s.state] == []; }
  }

  /**
   * One turn of an encoding loop: `done` is written, `part` is next, `rest` is to come.
   * Either the loop goes on with `done + part`, or the whole has failed.
   */
  lemma Turn(s0: Snap, s1: Snap, s2: Snap, ok: bool, done: seq<byte>, part: Option<seq<byte>>, rest: Option<seq<byte>>)
    requires Step(s0, s1, true, Some(done)) && Step(s1, s2, ok, part)
    ensures ok ==> part.Some? && Step(s0, s2, true, Some(done + part.value))
    ensures ok ==> Cat(Some(done), Cat(part, rest)) == Cat(Some(done + part.value), rest)
    ensures !ok ==> Step(s0, s2, false, Cat(Some(done), Cat(part, rest)))
  {
    hide Step;
    StepThen(s0, s1, s2, ok, Some(done), part);
    CatAssociative(Some(done), part, rest);
    StepHasBytes(s1, s2, ok, part);
    if !ok { StepFails(s0, s2, Cat(Some(done), part), rest); }
  }

  lemma StepHasBytes(s1: Snap, s2: Snap, ok: bool, out: Option<seq<byte>>)
    requires Step(s1, s2, ok, out)
    ensures ok ==> out.Some?
  {
  }

  lemma CatNothing(a: seq<byte>)
    ensures Cat(Some(a), Some([])) == Some(a)
  {
    assert a + [] == a;
  }

  /** The entries of a packed array, with the encoder of the table. */
  method EncodePacked(stream: OStream, f: Field, items: seq<Value>) returns (ok: bool)
    requires stream.Valid() && WellFormedField(f) && forall v :: v in items ==> TypedValue(f, v) && SmallValue(f, v)
    modifies stream, stream.Footprint()
    ensures Step(old(stream.Now()), stream.Now(), ok, EncPacked(f, items))
    decreases f, 2, 0
  {
    hide Step, EncValue, TypedValue, WellFormedField, SmallValue;
    ghost var s0, done := stream.Now(), [];
    NothingYet(s0);
    CatSelf(EncPacked(f, items));
    for i := 0 to |items|
      invariant stream.Valid() && Step(s0, stream.Now(), true, Some(done))
      invariant EncPacked(f, items) == Cat(Some(done), EncPacked(f, items[i..]))
    {
      assert items[i..][0] == items[i] && items[i..][1..] == items[i + 1..];
      ghost var s1, part, rest := stream.Now(), EncValue(f, items[i]), EncPacked(f, items[i + 1..]);
      ok := EncodeValue(stream, f, items[i]);
      Turn(s0, s1, stream.Now(), ok, done, part, rest);
      if !ok {
        return;
      }
      done := done + part.value;
      StepValid(s0, stream.Now(), true, Some(done));
    }
    CatNothing(done);
    return true;
  }

  /** The entries of an array that cannot be packed, each with its tag. */
  method EncodeUnpacked(stream: OStream, f: Field, items: seq<Value>) returns (ok: bool)
    requires stream.Valid() && WellFormedField(f) && forall v :: v in items ==> TypedValue(f, v) && SmallValue(f, v)
    modifies stream, stream.Footprint()
    ensures Step(old(stream.Now()), stream.Now(), ok, EncUnpacked(f, items))
    decreases f, 2, 0
  {
    hide Step, EncItem, TypedValue, WellFormedField, SmallValue;
    ghost var s0, done := stream.Now(), [];
    NothingYet(s0);
    CatSelf(EncUnpacked(f, items));
    for i := 0 to |items|
      invariant stream.Valid() && Step(s0, stream.Now(), true, Some(done))
      invariant EncUnpacked(f, items) == Cat(Some(done), EncUnpacked(f, items[i..]))
    {
      assert items[i..][0] == items[i] && items[i..][1..] == items[i + 1..];
      ghost var s1, part, rest := stream.Now(), EncItem(f, items[i]), EncUnpacked(f, items[i + 1..]);
      ok := EncodeItem(stream, f, items[i]);
      Turn(s0, s1, stream.Now(), ok, done, part, rest);
      if !ok {
        return;
      }
      done := done + part.value;
      StepValid(s0, stream.Now(), true, Some(done));
    }
    CatNothing(done);
    return true;
  }

  lemma CatSelf(a: Option<seq<byte>>)
    ensures Cat(Some([]), a) == a
  {
    if a.Some? { assert [] + a.value == a.value; }
  }

  /** The size computation of encode_array. */
  method PackedSize(f: Field, items: seq<Value>) returns (ok: bool, size: nat)
    requires Packable(f.ltype) && WellFormedField(f)
    requires forall v :: v in items ==> TypedValue(f, v) && SmallValue(f, v)
    ensures ok <==> EncPacked(f, items).Some?
    ensures ok ==> size == |EncPacked(f, items).value|
    decreases f, 2, 1
  {
    hide Step, TypedValue, WellFormedField, SmallValue, EncPacked;
    if f.ltype.Fixed32? {
      FixedSize(f, items, 4);
      return true, 4 * |items|;
    } else if f.ltype.Fixed64? {
      FixedSize(f, items, 8);
      return true, 8 * |items|;
    }
    var sizestream := new OStream.Sizing();
    ghost var z0 := sizestream.Now();
    ok := EncodePacked(sizestream, f, items);
    Sized(z0, sizestream.Now(), ok, EncPacked(f, items));
    size := sizestream.bytesWritten;
  }

  lemma {:induction false} FixedSize(f: Field, items: seq<Value>, n: nat)
    requires (f.ltype.Fixed32? && n == 4) || (f.ltype.Fixed64? && n == 8)
    requires forall v :: v in items ==> TypedValue(f, v)
    ensures EncPacked(f, items).Some? && |EncPacked(f, items).value| == n * |items|
    decreases |items|
  {
    hide EncFixed;
    if items != [] {
      assert items[0] in items;
      assert TypedValue(f, items[0]);
      FixedSize(f, items[1..], n);
    }
  }

  /** The packed branch of encode_array. */
  method EncodePackedArray(stream: OStream, f: Field, items: seq<Value>) returns (ok: bool)
    requires stream.Valid() && Packable(f.ltype) && WellFormedField(f) && Small(EncPacked(f, items))
    requires forall v :: v in items ==> TypedValue(f, v) && SmallValue(f, v)
    modifies stream, stream.Footprint()
    ensures Step(old(stream.Now()), stream.Now(), ok, PackedArrayBytes(f, EncPacked(f, items)))
    decreases f, 2, 2
  {
    hide Step, TypedValue, SmallValue, EncPacked, EncVarint, EncTag, WellFormed;
    ghost var s0, payload := stream.Now(), EncPacked(f, items);
    ghost var key := EncTag(f.tag, WT_STRING);
    ok := EncodeTag(stream, WT_STRING, f.tag);
    ghost var s1 := stream.Now();
    if !ok {
      StepFails(s0, s1, Some(key), BlockOf(payload));
      return;
    }
    StepValid(s0, s1, true, Some(key));
    var size;
    ok, size := PackedSize(f, items);
    assert stream.Now() == s1;
    if !ok {
      NoStep(s1);
      StepThen(s0, s1, s1, false, Some(key), None);
      return;
    }
    ok := EncodeVarint(stream, size);
    ghost var s2 := stream.Now();
    if !ok {
      StepFirstFails(s1, s2, EncVarint(size), payload.value);
    } else {
      StepValid(s1, s2, true, Some(EncVarint(size)));
      if stream.buf == null {
        CountedStep(s2, payload.value);
        stream.WriteSize(size);
      } else {
        ok := EncodePacked(stream, f, items);
      }
      StepPair(s1, s2, stream.Now(), ok, EncVarint(size), payload.value);
    }
    StepThen(s0, s1, stream.Now(), ok, Some(key), BlockOf(payload));
  }

  function PackedArrayBytes(f: Field, payload: Option<seq<byte>>): Option<seq<byte>> {
    Cat(Some(EncTag(f.tag, WT_STRING)), BlockOf(payload))
  }

  /** encode_array */
  method EncodeArray(stream: OStream, f: Field, items: seq<Value>) returns (ok: bool)
    requires stream.Valid() && WellFormedField(f) && SmallSlot(f, Many(items)) && forall v :: v in items ==> TypedValue(f, v)
    modifies stream, stream.Footprint()
    ensures Step(old(stream.Now()), stream.Now(), ok, EncArray(f, items))
    decreases f, 3
  {
    hide Step, TypedValue, SmallValue, EncPacked, EncUnpacked, EncBlock, EncTag, WellFormedField;
    if |items| == 0 {
      NothingYet(stream.Now());
      return true;
    }
    if |items| > f.arraySize {
      NoStep(stream.Now());
      return false;
    }
    if Packable(f.ltype) {
      ok := EncodePackedArray(stream, f, items);
    } else {
      ok := EncodeUnpacked(stream, f, items);
    }
  }

  // ---------------------------------------------------------------- fields and messages

  /** encode_basic_field */
  method EncodeField(stream: OStream, f: Field, s: Struct) returns (ok: bool)
    requires stream.Valid() && WellFormedField(f) && f.slot < |s| && TypedSlot(f, s[f.slot]) && SmallSlot(f, s[f.slot])
    modifies stream, stream.Footprint()
    ensures Step(old(stream.Now()), stream.Now(), ok, EncField(f, s))
    decreases f, 4
  {
    hide Step, TypedValue, SmallValue, EncItem, EncArray, WellFormedField, IsDefaultValue, EncPacked;
    var d := s[f.slot];
    NothingYet(stream.Now());
    match f.rule {
      case Required =>
        ok := EncodeItem(stream, f, d.v);
      case Optional =>
        if d.has { ok := EncodeItem(stream, f, d.v); } else { ok := true; }
      case Singular =>
        var implicitHas := CheckDefaultValue(f, d.v);
        if implicitHas { ok := true; } else { ok := EncodeItem(stream, f, d.v); }
      case Repeated =>
        ok := EncodeArray(stream, f, d.items);
      case Oneof =>
        if d.Chosen? && d.which == f.tag { ok := EncodeItem(stream, f, d.v); } else { ok := true; }
    }
  }

  /**
   * pb_encode: on any stream, succeeds exactly when the message has an encoding and the
   * stream has room for it, and then emits exactly that encoding.
   */
  method Encode(stream: OStream, fs: seq<Field>, s: Struct) returns (ok: bool)
    requires stream.Valid() && Typed(fs, s) && WellFormed(fs) && SmallStruct(fs, s)
    modifies stream, stream.Footprint()
    ensures Step(old(stream.Now()), stream.Now(), ok, EncStruct(fs, s))
    decreases fs, 5, 0
  {
    hide Step, EncField, TypedSlot, WellFormedField, SmallSlot, SlotCount;
    ghost var s0, done := stream.Now(), [];
    NothingYet(s0);
    CatSelf(EncStruct(fs, s));
    for k := 0 to |fs|
      invariant stream.Valid() && Step(s0, stream.Now(), true, Some(done))
      invariant EncStruct(fs, s) == Cat(Some(done), EncStruct(fs[k..], s))
    {
      assert fs[k..][0] == fs[k] && fs[k..][1..] == fs[k + 1..];
      assert fs[k] in fs;
      ghost var s1, part, rest := stream.Now(), EncField(fs[k], s), EncStruct(fs[k + 1..], s);
      ok := EncodeField(stream, fs[k], s);
      Turn(s0, s1, stream.Now(), ok, done, part, rest);
      if !ok {
        return;
      }
      done := done + part.value;
      StepValid(s0, stream.Now(), true, Some(done));
    }
    CatNothing(done);
    return true;
  }

  /** pb_get_encoded_size */
  method GetEncodedSize(fs: seq<Field>, s: Struct) returns (ok: bool, size: nat)
    requires Typed(fs, s) && WellFormed(fs) && SmallStruct(fs, s)
    ensures ok <==> EncStruct(fs, s).Some?
    ensures ok ==> size == |EncStruct(fs, s).value|
  {
    hide Step, EncStruct, Typed, WellFormed, SmallSlot;
    var stream := new OStream.Sizing();
    ghost var z0 := stream.Now();
    ok := Encode(stream, fs, s);
    Sized(z0, stream.Now(), ok, EncStruct(fs, s));
    size := stream.bytesWritten;
  }

  /**
   * Sizing agrees with writing: into a buffer of `n` bytes, pb_encode succeeds exactly when
   * pb_get_encoded_size gives a size of at most `n`, and it fills exactly that many bytes.
   */
  method EncodeIntoBuffer(buf: array<byte>, n: nat, fs: seq<Field>, s: Struct)
    returns (ok: bool, sized: bool, size: nat, written: nat)
    requires n <= buf.Length && Typed(fs, s) && WellFormed(fs) && SmallStruct(fs, s)
    modifies buf
    ensures ok <==> sized && size <= n
    ensures ok ==> written == size && EncStruct(fs, s) == Some(buf[..size]) && buf[n..] == old(buf[n..])
  {
    hide Step, EncStruct, Typed, WellFormed, SmallSlot;
    sized, size := GetEncodedSize(fs, s);
    var stream := new OStream.FromBuffer(buf, 0, n);
    ghost var s0 := stream.Now();
    ok := Encode(stream, fs, s);
    written := stream.bytesWritten;
    Filled(s0, stream.Now(), ok, EncStruct(fs, s));
  }

  lemma Filled(s0: Snap, s1: Snap, ok: bool, out: Option<seq<byte>>)
    requires Step(s0, s1, ok, out) && s0.bounded && s0.state == 0 && s0.bytesWritten == 0
    ensures ok <==> out.Some? && |out.value| <= s0.maxSize
    ensures ok ==> s1.bytesWritten == |out.value| <= |s1.content| && s1.content[..|out.value|] == out.value
    ensures s0.maxSize <= |s1.content| && s1.content[s0.maxSize..] == s0.content[s0.maxSize..]
  {
  }
}
