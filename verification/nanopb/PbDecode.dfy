/**
 * pb_decode.c: the input stream and the decoder, working in place on the stream.
 * Each method is proved against the reader of `Wire` for the bytes left in the stream.
 */
module PbDecode {
  import opened Bits
  import opened Schema
  import opened PbCommon
  import Varint
  import Wire

  /** pb_istream_t over a buffer: `bytesLeft` bytes from `pos` on. */
  class IStream {
    const buf: array<byte>
    var pos: nat
    var bytesLeft: nat

    ghost predicate Valid()
      reads this
    {
      End() <= buf.Length
    }

    /** Where the stream's bytes end in the buffer. */
    ghost function End(): nat
      reads this
    {
      pos + bytesLeft
    }

    /** The bytes still to be read. */
    ghost function Rest(): seq<byte>
      requires Valid()
      reads this, buf
    {
      buf[pos..pos + bytesLeft]
    }

    /** pb_istream_from_buffer, and the copy pb_make_string_substream makes. */
    constructor FromBuffer(b: array<byte>, at: nat, size: nat)
      requires at + size <= b.Length
      ensures Valid() && buf == b && pos == at && bytesLeft == size
    {
      buf := b;
      pos, bytesLeft := at, size;
    }

    /** pb_readbyte */
    method ReadByte() returns (ok: bool, b: byte)
      requires Valid()
      modifies this
      ensures Valid() && End() == old(End())
      ensures ok <==> old(Rest()) != []
      ensures ok ==> b == old(Rest())[0] && Rest() == old(Rest())[1..]
      ensures !ok ==> Rest() == old(Rest())
    {
      if bytesLeft == 0 {
        return false, 0;
      }
      b := buf[pos];
      pos := pos + 1;
      bytesLeft := bytesLeft - 1;
      return true, b;
    }

    /** pb_read */
    method Read(n: nat) returns (ok: bool, data: seq<byte>)
      requires Valid()
      modifies this
      ensures Valid() && End() == old(End())
      ensures var p := Wire.Take(old(Rest()), n);
              && (ok <==> p.Ok?)
              && (ok ==> data == p.value && Rest() == p.rest)
    {
      if bytesLeft < n {
        return false, [];
      }
      data := buf[pos..pos + n];
      pos := pos + n;
      bytesLeft := bytesLeft - n;
      return true, data;
    }
  }

  // ---------------------------------------------------------------- varints and keys

  /** The check of pb_decode_varint32_eof behind its loop. */
  ghost function LastGroup(byt: byte, bitpos: nat, result: nat, rest: seq<byte>): Varint.Parse<nat> {
    if bitpos == 35 && byt / 16 % 8 != 0 then Varint.Err else Varint.Ok(result, rest)
  }

  /** pb_decode_varint32_eof; `eof` reports that the stream was at its end. */
  method DecodeVarint32Eof(stream: IStream) returns (ok: bool, value: nat, eof: bool)
    requires stream.Valid()
    modifies stream
    ensures stream.Valid() && stream.End() == old(stream.End())
    ensures var p := Varint.DecVarint32(old(stream.Rest()));
            && (ok <==> p.Ok?)
            && (ok ==> value == p.value && stream.Rest() == p.rest)
    ensures eof == (old(stream.Rest()) == [])
  {
    ghost var b := stream.Rest();
    var more, byt := stream.ReadByte();
    if !more {
      return false, 0, true;
    }
    if byt < 128 {
      return true, byt, false;
    }
    var bitpos: nat, result: nat := 7, byt % 128;
    while byt >= 128
      invariant stream.Valid() && stream.End() == old(stream.End())
      invariant byt >= 128 ==> Varint.DecVarint32(b) == Varint.DecVarint32From(stream.Rest(), bitpos, result)
      invariant byt < 128 ==> Varint.DecVarint32(b) == LastGroup(byt, bitpos, result, stream.Rest())
      decreases stream.bytesLeft + (if byt >= 128 then 1 else 0)
    {
      hide Or, Shl32, Varint.DecVarint32;
      ghost var rest := stream.Rest();
      more, byt := stream.ReadByte();
      if !more {
        return false, 0, false;
      }
      if bitpos >= 32 {
        if Varint.BadExtension(byt, bitpos, result) {
          return false, 0, false;
        }
      } else {
        result := Or(result, Shl32(byt % 128, bitpos));
      }
      bitpos := (bitpos + 7) % 256;
    }
    if bitpos == 35 && byt / 16 % 8 != 0 {
      return false, 0, false;
    }
    return true, result, false;
  }

  /** pb_decode_varint */
  method DecodeVarint(stream: IStream) returns (ok: bool, value: nat)
    requires stream.Valid()
    modifies stream
    ensures stream.Valid() && stream.End() == old(stream.End())
    ensures var p := Varint.DecVarint64(old(stream.Rest()));
            && (ok <==> p.Ok?)
            && (ok ==> value == p.value && stream.Rest() == p.rest)
  {
    ghost var b := stream.Rest();
    var bitpos: nat, result: nat, byt: byte := 0, 0, 128;
    while byt >= 128
      invariant stream.Valid() && stream.End() == old(stream.End())
      invariant byt >= 128 ==> Varint.DecVarint64(b) == Varint.DecVarint64From(stream.Rest(), bitpos, result)
      invariant byt < 128 ==> Varint.DecVarint64(b) == Varint.Ok(result, stream.Rest())
      decreases stream.bytesLeft + (if byt >= 128 then 1 else 0)
    {
      hide Or, Shl64, Varint.DecVarint64;
      if bitpos >= 64 {
        return false, 0;
      }
      var more;
      more, byt := stream.ReadByte();
      if !more {
        return false, 0;
      }
      result := Or(result, Shl64(byt % 128, bitpos));
      bitpos := (bitpos + 7) % 256;
    }
    return true, result;
  }

  /** pb_skip_varint */
  method SkipVarint(stream: IStream) returns (ok: bool)
    requires stream.Valid()
    modifies stream
    ensures stream.Valid() && stream.End() == old(stream.End())
    ensures var p := Wire.SkipVarint(old(stream.Rest()));
            (ok <==> p.Ok?) && (ok ==> stream.Rest() == p.rest)
  {
    ghost var b := stream.Rest();
    var byt: byte := 128;
    while byt >= 128
      invariant stream.Valid() && stream.End() == old(stream.End())
      invariant byt >= 128 ==> Wire.SkipVarint(b) == Wire.SkipVarint(stream.Rest())
      invariant byt < 128 ==> Wire.SkipVarint(b) == Varint.Ok((), stream.Rest())
      decreases stream.bytesLeft + (if byt >= 128 then 1 else 0)
    {
      var more;
      more, byt := stream.ReadByte();
      if !more {
        return false;
      }
    }
    return true;
  }

  /** pb_skip_string */
  method SkipString(stream: IStream) returns (ok: bool)
    requires stream.Valid()
    modifies stream
    ensures stream.Valid() && stream.End() == old(stream.End())
    ensures var p := Wire.Block(old(stream.Rest()));
            (ok <==> p.Ok?) && (ok ==> stream.Rest() == p.rest)
  {
    hide Varint.DecVarint32;
    var length, eof;
    ok, length, eof := DecodeVarint32Eof(stream);
    if !ok {
      return false;
    }
    var data;
    ok, data := stream.Read(length);
  }

  /** pb_decode_tag: `eof` at the end of the stream and at a zero key, which end the message. */
  method DecodeTag(stream: IStream) returns (ok: bool, wireType: nat, tag: nat, eof: bool)
    requires stream.Valid()
    modifies stream
    ensures stream.Valid() && stream.End() == old(stream.End())
    ensures var p := Varint.DecVarint32(old(stream.Rest()));
            && (ok <==> p.Ok? && p.value != 0)
            && (p.Ok? ==> stream.Rest() == p.rest)
            && (ok ==> tag == p.value / 8 && wireType == p.value % 8)
            && (eof <==> old(stream.Rest()) == [] || (p.Ok? && p.value == 0))
  {
    hide Varint.DecVarint32From;
    var key;
    ok, key, eof := DecodeVarint32Eof(stream);
    if !ok {
      return false, 0, 0, eof;
    }
    if key == 0 {
      return false, 0, 0, true;
    }
    return true, key % 8, key / 8, false;
  }

  /** pb_skip_field */
  method SkipField(stream: IStream, wireType: nat) returns (ok: bool)
    requires stream.Valid()
    modifies stream
    ensures stream.Valid() && stream.End() == old(stream.End())
    ensures var p := Wire.SkipField(wireType, old(stream.Rest()));
            (ok <==> p.Ok?) && (ok ==> stream.Rest() == p.rest)
  {
    hide Wire.SkipVarint, Wire.Block;
    var data;
    if wireType == Wire.WT_VARINT {
      ok := SkipVarint(stream);
    } else if wireType == Wire.WT_64BIT {
      ok, data := stream.Read(8);
    } else if wireType == Wire.WT_STRING {
      ok := SkipString(stream);
    } else if wireType == Wire.WT_32BIT {
      ok, data := stream.Read(4);
    } else {
      ok := false;
    }
  }

  // ---------------------------------------------------------------- substreams

  /**
   * pb_make_string_substream: the substream takes the block's bytes.  The parent gives up
   * those bytes but keeps its position until the substream is closed.
   */
  method MakeSubstream(stream: IStream) returns (ok: bool, sub: IStream)
    requires stream.Valid()
    modifies stream
    ensures stream.Valid()
    ensures ok <==> Wire.Block(old(stream.Rest())).Ok?
    ensures ok ==> fresh(sub) && sub.buf == stream.buf && sub.Valid() && sub.pos == stream.pos
    ensures ok ==> sub.Rest() == Wire.Block(old(stream.Rest())).value && sub.bytesLeft < old(stream.bytesLeft)
    ensures ok ==> stream.bytesLeft == |Wire.Block(old(stream.Rest())).rest|
    ensures ok ==> sub.End() + stream.bytesLeft == old(stream.End())
    ensures ok ==> stream.buf[sub.End()..sub.End() + stream.bytesLeft] == Wire.Block(old(stream.Rest())).rest
  {
    hide Varint.DecVarint32;
    var size, eof;
    ok, size, eof := DecodeVarint32Eof(stream);
    sub := stream;
    if !ok {
      return;
    }
    if stream.bytesLeft < size {
      return false, stream;
    }
    ghost var rest := stream.Rest();
    sub := new IStream.FromBuffer(stream.buf, stream.pos, size);
    SliceOfSlice(stream.buf[..], stream.pos, stream.bytesLeft, size);
    assert sub.Rest() == rest[..size];
    stream.bytesLeft := stream.bytesLeft - size;
    assert stream.buf[sub.End()..sub.End() + stream.bytesLeft] == rest[size..];
  }

  lemma SliceOfSlice(a: seq<byte>, i: nat, n: nat, k: nat)
    requires i + n <= |a| && k <= n
    ensures a[i..i + n][..k] == a[i..i + k] && a[i..i + n][k..] == a[i + k..i + n]
  {
  }

  /** pb_close_string_substream: skip what is left and move the parent behind it. */
  method CloseSubstream(stream: IStream, sub: IStream) returns (ok: bool)
    requires stream != sub && sub.Valid() && sub.buf == stream.buf && sub.End() + stream.bytesLeft <= stream.buf.Length
    modifies stream, sub
    ensures ok && stream.Valid() && stream.pos == old(sub.End()) && stream.bytesLeft == old(stream.bytesLeft)
  {
    if sub.bytesLeft != 0 {
      var data;
      ok, data := sub.Read(sub.bytesLeft);
      if !ok {
        return;
      }
    }
    stream.pos := sub.pos;
    return true;
  }

  // ---------------------------------------------------------------- values

  /** Reading a value of a type without substreams. */
  method DecodeScalar(stream: IStream, f: Field) returns (ok: bool, v: Value)
    requires stream.Valid() && !f.ltype.Message?
    modifies stream
    ensures stream.Valid() && stream.End() == old(stream.End())
    ensures var p := Wire.DecValue(f, Num(0), old(stream.Rest()));
            (ok <==> p.Ok?) && (ok ==> v == p.value && stream.Rest() == p.rest)
  {
    hide Wire.DecInteger, Wire.DecData, Varint.FixedValue;
    v := Num(0);
    if f.ltype.Fixed32? || f.ltype.Fixed64? {
      var data;
      ok, data := stream.Read(if f.ltype.Fixed32? then 4 else 8);
      v := Num(Varint.FixedValue(data));
    } else if Packable(f.ltype) {
      ok, v := DecodeInteger(stream, f);
    } else {
      ok, v := DecodeData(stream, f);
    }
  }

  /** pb_dec_varint, pb_dec_uvarint, pb_dec_svarint */
  method DecodeInteger(stream: IStream, f: Field) returns (ok: bool, v: Value)
    requires stream.Valid()
    modifies stream
    ensures stream.Valid() && stream.End() == old(stream.End())
    ensures var p := Wire.DecInteger(f, old(stream.Rest()));
            (ok <==> p.Ok?) && (ok ==> v == p.value && stream.Rest() == p.rest)
  {
    hide Varint.DecVarint64, Varint.UnZigZag, Wire.SignedOf;
    v := Num(0);
    var value;
    ok, value := DecodeVarint(stream);
    if !ok {
      return;
    }
    if value >= TWO_64 || !IntegerSize(f.dataSize) {
      return false, v;
    }
    if f.ltype.UInt? {
      return value < Range(f.dataSize), Num(value);
    }
    var svalue := if f.ltype.SInt? then Varint.UnZigZag(value) else Wire.SignedOf(value, f.dataSize);
    return FitsSigned(svalue, f.dataSize), Num(svalue);
  }

  /** pb_dec_bytes, pb_dec_string, pb_dec_fixed_length_bytes */
  method DecodeData(stream: IStream, f: Field) returns (ok: bool, v: Value)
    requires stream.Valid()
    modifies stream
    ensures stream.Valid() && stream.End() == old(stream.End())
    ensures var p := Wire.DecData(f, old(stream.Rest()));
            (ok <==> p.Ok?) && (ok ==> v == p.value && stream.Rest() == p.rest)
  {
    hide Varint.DecVarint32, Wire.UpToNul;
    v := Num(0);
    var size, eof, data;
    ok, size, eof := DecodeVarint32Eof(stream);
    if !ok {
      return;
    }
    match f.ltype {
      case Bytes =>
        if size + BYTES_HEADER > f.dataSize { return false, v; }
      case Text =>
        if size + 1 > f.dataSize { return false, v; }
      case FixedBytes =>
        if size == 0 { return true, Data(Zeros(f.dataSize)); }
        if size != f.dataSize { return false, v; }
      case _ =>
    }
    ok, data := stream.Read(size);
    v := Data(if f.ltype.Text? then Wire.UpToNul(data) else data);
  }

  // ---------------------------------------------------------------- fields_seen

  /** The words of fields_seen hold exactly the indices in `seen`. */
  ghost predicate Holds(w0: nat, w1: nat, seen: set<nat>) {
    && w0 < TWO_32 && w1 < TWO_32
    && (forall i: nat :: i < 32 ==> (Bit(w0, i) <==> i in seen))
    && (forall i: nat :: i < 32 ==> (Bit(w1, i) <==> i + 32 in seen))
  }

  lemma NoneSeen()
    ensures Holds(0, 0, {})
  {
    forall i: nat ensures !Bit(0, i) { BitOfZero(i); }
  }

  lemma SetBit(w: nat, k: nat)
    requires w < TWO_32 && k < 32
    ensures Or(w, Shl(1, k)) < TWO_32 && Shl32(1, k) == Shl(1, k)
    ensures forall i: nat :: Bit(Or(w, Shl(1, k)), i) <==> Bit(w, i) || i == k
  {
    hide Or, Shl, Bit;
    Weights();
    ShlBelow(k + 1, 32);
    ShlOneMore(k);
    OrBelow(w, Shl(1, k), 32);
    forall i: nat ensures Bit(Or(w, Shl(1, k)), i) <==> Bit(w, i) || i == k {
      BitOfOr(w, Shl(1, k), i);
      BitOfShl(k, i);
    }
  }

  lemma ShlOneMore(k: nat)
    ensures Shl(1, k + 1) == 2 * Shl(1, k)
  {
  }

  /** The check of one fields_seen word: its `n` expected bits are all set exactly when it has this value. */
  lemma WordComplete(w: nat, n: nat)
    requires 0 < n <= 32 && w < TWO_32 && forall i: nat :: n <= i < 32 ==> !Bit(w, i)
    ensures w == Shl(1, n) - 1 ==> forall i: nat :: i < n ==> Bit(w, i)
    ensures (forall i: nat :: i < n ==> Bit(w, i)) ==> w == Shl(1, n) - 1
  {
    hide Shl, Bit;
    Weights();
    HighBitsClear(w, 32);
    BoundedByBits(w, n);
    if forall i: nat :: i < n ==> Bit(w, i) { AllOnes(w, n); }
    if w == Shl(1, n) - 1 {
      forall i: nat | i < n ensures Bit(w, i) { BitOfOnes(n, i); }
    }
  }

  lemma {:induction false} HighBitsClear(w: nat, n: nat)
    requires w < Shl(1, n)
    ensures forall i: nat :: i >= n ==> !Bit(w, i)
    decreases n
  {
    forall i: nat | i >= n ensures !Bit(w, i) {
      if n == 0 { BitOfZero(i); } else { HighBitsClear(w / 2, n - 1); assert !Bit(w / 2, i - 1); }
    }
  }

  /** Setting the bit of required field `k` in the word it belongs to. */
  lemma SetSeen(w0: nat, w1: nat, k: nat, seen: set<nat>)
    requires Holds(w0, w1, seen) && k < MAX_REQUIRED
    ensures k < 32 ==> Holds(Or(w0, Shl32(1, k)), w1, seen + {k})
    ensures k >= 32 ==> Holds(w0, Or(w1, Shl32(1, k - 32)), seen + {k})
  {
    hide Or, Shl, Shl32, Bit;
    if k < 32 { SetBit(w0, k); } else { SetBit(w1, k - 32); }
  }

  lemma {:induction false} RequiredBefore(fs: seq<Field>, k: nat)
    requires k < |fs| && fs[k].rule.Required?
    ensures RequiredCount(fs[..k]) < RequiredCount(fs)
    decreases |fs|
  {
    var short := fs[..|fs| - 1];
    if k < |fs| - 1 {
      assert short[..k] == fs[..k];
      RequiredBefore(short, k);
    }
  }

  /**
   * The closing check of pb_decode_noinit: whole words first, then the remaining bits.
   * It passes exactly when the first `n` required fields have all been seen.
   */
  method CheckSeen(w0: nat, w1: nat, n: nat, ghost seen: set<nat>) returns (ok: bool)
    requires Holds(w0, w1, seen) && n <= MAX_REQUIRED && forall i :: i in seen ==> i < n
    ensures ok <==> forall i: nat :: i < n ==> i in seen
  {
    hide Bit, Or;
    Weights();
    if n >= 32 {
      WordComplete(w0, 32);
      if w0 != 0xFFFF_FFFF {
        return false;
      }
      WholeWordSeen(w0, w1, seen);
    }
    if n == 64 {
      WordComplete(w1, 32);
      SeenInWords(w0, w1, seen);
      return w1 == 0xFFFF_FFFF;
    }
    if n % 32 != 0 {
      var expected := Shl(1, n % 32) - 1;
      WordComplete(if n < 32 then w0 else w1, n % 32);
      SeenInWords(w0, w1, seen);
      return (if n < 32 then w0 else w1) == expected;
    }
    return true;
  }

  lemma WholeWordSeen(w0: nat, w1: nat, seen: set<nat>)
    requires Holds(w0, w1, seen) && forall i: nat :: i < 32 ==> Bit(w0, i)
    ensures forall i: nat :: i < 32 ==> i in seen
  {
    hide Bit;
    forall i: nat | i < 32 ensures i in seen { assert Bit(w0, i); }
  }

  lemma SeenInWords(w0: nat, w1: nat, seen: set<nat>)
    requires Holds(w0, w1, seen)
    ensures forall i: nat :: i < 32 ==> (i in seen <==> Bit(w0, i))
    ensures forall i: nat :: 32 <= i < 64 ==> (i in seen <==> Bit(w1, i - 32))
  {
    hide Bit;
    forall i: nat | 32 <= i < 64 ensures i in seen <==> Bit(w1, i - 32) {
      var j: nat := i - 32;
      assert Bit(w1, j) <==> j + 32 in seen;
    }
  }

  /** How pb_decode_noinit counts the required fields: walk the iterator to its end. */
  method CountRequired(iter: FieldIter) returns (n: nat)
    requires iter.Valid()
    modifies iter
    ensures n == Wire.Min(RequiredCount(iter.start), MAX_REQUIRED)
  {
    var more, lastRequired := true, false;
    n := 0;
    while more
      invariant more ==> iter.Valid()
      invariant !more ==> iter.Valid() && (iter.start == [] ==> n == 0)
      invariant !more && iter.start != [] ==>
        n == RequiredCount(iter.start[..|iter.start| - 1]) && lastRequired == iter.start[|iter.start| - 1].rule.Required?
      decreases if more then 1 + |iter.start| - iter.pos else 0
    {
      n := iter.requiredFieldIndex;
      lastRequired := if iter.start == [] then true else iter.start[iter.pos].rule.Required?;
      more := iter.Next();
    }
    if lastRequired && iter.start != [] {
      n := n + 1;
    }
    if n > MAX_REQUIRED {
      n := MAX_REQUIRED;
    }
  }

  // ---------------------------------------------------------------- fields

  /** The function PB_DECODERS lists for the field's type; pb_dec_submessage for a message. */
  method DecodeValue(stream: IStream, f: Field, held: Value) returns (ok: bool, v: Value)
    requires stream.Valid() && (f.ltype.Message? ==> WellFormed(f.ltype.fields))
    modifies stream
    ensures stream.Valid() && (ok ==> stream.End() == old(stream.End()))
    ensures var p := Wire.DecValue(f, held, old(stream.Rest()));
            (ok <==> p.Ok?) && (ok ==> v == p.value && stream.Rest() == p.rest)
    decreases f, 1
  {
    hide Wire.DecodeNoInit, Wire.Block, Wire.DecInteger, Wire.DecData;
    if !f.ltype.Message? {
      ok, v := DecodeScalar(stream, f);
      return;
    }
    v := held;
    if !held.Msg? {
      return false, v;
    }
    ghost var b := stream.Rest();
    var sub, s;
    ok, sub := MakeSubstream(stream);
    if !ok {
      return;
    }
    ghost var end := sub.End();
    ok, s := DecodeNoInit(sub, f.ltype.fields, held.s);
    if !ok {
      return;
    }
    ok := CloseSubstream(stream, sub);
    v := Msg(s);
  }

  /** The packed branch of decode_static_field. */
  method DecodePackedField(stream: IStream, f: Field, held: seq<Value>) returns (ok: bool, items: seq<Value>)
    requires stream.Valid() && Packable(f.ltype)
    modifies stream
    ensures stream.Valid() && (ok ==> stream.End() == old(stream.End()))
    ensures var block := Wire.Block(old(stream.Rest()));
            && (ok ==> block.Ok? && stream.Rest() == block.rest
                       && Wire.DecPacked(f, held, block.value) == Varint.Ok(items, []))
            && (!ok ==> block.Err? || Wire.DecPacked(f, held, block.value).Err?
                        || Wire.DecPacked(f, held, block.value).rest != [])
  {
    hide Wire.Block, Wire.DecInteger, Wire.DecValue;
    var sub, v, status;
    items := held;
    ok, sub := MakeSubstream(stream);
    if !ok {
      return;
    }
    ghost var block, end, pos, left := sub.Rest(), sub.End(), stream.pos, stream.bytesLeft;
    status := true;
    while status && sub.bytesLeft > 0 && |items| < f.arraySize
      invariant sub.Valid() && sub.End() == end
      invariant stream.pos == pos && stream.bytesLeft == left
      invariant status ==> Wire.DecPacked(f, held, block) == Wire.DecPacked(f, items, sub.Rest())
      invariant !status ==> Wire.DecPacked(f, held, block).Err?
      decreases status, sub.bytesLeft, f.arraySize - |items|
    {
      PackedStep(f, items, sub.Rest());
      status, v := DecodeScalar(sub, f);
      if status {
        items := items + [v];
      }
    }
    if sub.bytesLeft != 0 {
      return false, items;
    }
    ok := CloseSubstream(stream, sub);
    return status, items;
  }

  /** One turn of the packed loop reads an entry with the scalar decoder. */
  lemma PackedStep(f: Field, items: seq<Value>, b: seq<byte>)
    requires b != [] && |items| < f.arraySize && Packable(f.ltype)
    ensures var p := Wire.DecValue(f, Num(0), b);
            Wire.DecPacked(f, items, b) == if p.Ok? then Wire.DecPacked(f, items + [p.value], p.rest) else Varint.Err
  {
    hide Wire.DecInteger, Wire.DecodeNoInit, Varint.FixedValue;
    assert Wire.DecValue(f, InitValue(f), b) == Wire.DecValue(f, Num(0), b);
  }

  /** decode_static_field on the field whose content is slot `f.slot` of `s`. */
  method DecodeField(stream: IStream, f: Field, wireType: nat, s: Struct) returns (ok: bool, r: Struct)
    requires stream.Valid() && (f.ltype.Message? ==> WellFormed(f.ltype.fields))
    modifies stream
    ensures stream.Valid() && (ok ==> stream.End() == old(stream.End()))
    ensures var p := Wire.DecField(f, wireType, old(stream.Rest()), s);
            (ok <==> p.Ok?) && (ok ==> r == p.value && stream.Rest() == p.rest)
    decreases f, 2
  {
    hide Wire.DecValue, Wire.DecPacked, Wire.Block, InitValue;
    var v;
    r := s;
    if f.slot >= |s| {
      return false, r;
    }
    match (f.rule, s[f.slot]) {
      case (Required, One(held)) =>
        ok, v := DecodeValue(stream, f, held);
        r := s[f.slot := One(v)];
      case (Singular, One(held)) =>
        ok, v := DecodeValue(stream, f, held);
        r := s[f.slot := One(v)];
      case (Optional, Opt(_, held)) =>
        r := r[f.slot := Opt(true, held)];
        ok, v := DecodeValue(stream, f, held);
        r := r[f.slot := Opt(true, v)];
      case (Repeated, Many(held)) =>
        if wireType == Wire.WT_STRING && Packable(f.ltype) {
          var items;
          ok, items := DecodePackedField(stream, f, held);
          r := s[f.slot := Many(items)];
        } else {
          if |held| >= f.arraySize {
            return false, r;
          }
          var blank := DefaultValue(f);
          ok, v := DecodeValue(stream, f, blank);
          r := s[f.slot := Many(held + [v])];
        }
      case (Oneof, _) =>
        if !s[f.slot].Nothing? && !s[f.slot].Chosen? {
          return false, r;
        }
        var blank := DefaultValue(f);
        r := r[f.slot := Chosen(f.tag, blank)];
        ok, v := DecodeValue(stream, f, blank);
        r := r[f.slot := Chosen(f.tag, v)];
      case _ =>
        ok := false;
    }
  }

  // ---------------------------------------------------------------- defaults

  /** The value part of pb_field_set_to_default. */
  method DefaultValue(f: Field) returns (v: Value)
    ensures v == InitValue(f)
    decreases f, 0
  {
    match f.ltype {
      case Message(sub) =>
        var s := SetToDefaults(sub);
        v := Msg(s);
      case _ =>
        if f.init.Some? {
          v := f.init.value;
        } else if Packable(f.ltype) {
          v := Num(0);
        } else if f.ltype.FixedBytes? {
          v := Data(Zeros(f.dataSize));
        } else {
          v := Data([]);
        }
    }
  }

  /** pb_field_set_to_default */
  method DefaultSlot(f: Field) returns (d: Slot)
    ensures d == InitSlot(f)
    decreases f, 1
  {
    if f.rule.Repeated? {
      return Many([]);
    } else if f.rule.Oneof? {
      return Nothing;
    }
    var v := DefaultValue(f);
    return if f.rule.Optional? then Opt(false, v) else One(v);
  }

  /** pb_message_set_to_defaults, walking the fields with the iterator. */
  method SetToDefaults(fs: seq<Field>) returns (s: Struct)
    ensures s == InitStruct(fs)
    decreases fs, 2
  {
    hide InitSlot;
    s := seq(SlotCount(fs), _ => Nothing);
    if fs == [] {
      return;
    }
    var iter := new FieldIter.Begin(fs);
    var more := true;
    while more
      invariant iter.Valid() && iter.start == fs && |s| == SlotCount(fs)
      invariant more ==> InitFrom(fs[iter.pos..], s) == InitStruct(fs)
      invariant !more ==> s == InitStruct(fs)
      decreases if more then 1 + |fs| - iter.pos else 0
    {
      var f := fs[iter.pos];
      var d := DefaultSlot(f);
      InitStep(fs, iter.pos, s);
      s := s[f.slot := d];
      more := iter.Next();
    }
  }

  lemma InitStep(fs: seq<Field>, k: nat, s: Struct)
    requires k < |fs| && fs[k].slot < |s|
    ensures InitFrom(fs[k..], s) == InitFrom(fs[k + 1..], s[fs[k].slot := InitSlot(fs[k])])
    ensures k + 1 == |fs| ==> InitFrom(fs[k..], s) == s[fs[k].slot := InitSlot(fs[k])]
  {
    hide InitSlot;
    assert fs[k..][1..] == fs[k + 1..];
  }

  // ---------------------------------------------------------------- messages

  /** The iterator finds the field the tag names. */
  lemma IterFinds(fs: seq<Field>, k: nat, tag: nat)
    requires WellFormed(fs) && k < |fs| && fs[k].tag == tag
    ensures FindField(fs, tag) == Some(k)
  {
  }

  /** One turn of the loop of pb_decode_noinit over a known field. */
  lemma KnownStep(fs: seq<Field>, b: seq<byte>, st: Wire.Progress, k: nat, rest: seq<byte>, key: nat)
    requires b != [] && Varint.DecVarint32(b) == Varint.Ok(key, rest) && key != 0 && FindField(fs, key / 8) == Some(k)
    ensures var p := Wire.DecField(fs[k], key % 8, rest, st.s);
            Wire.DecodeLoop(fs, b, st) ==
              if p.Ok? then Wire.DecodeLoop(fs, p.rest, Wire.Progress(p.value, Wire.MarkSeen(fs, k, st.seen))) else Varint.Err
  {
    hide Wire.DecField, Varint.DecVarint32, FindField, Wire.MarkSeen;
  }

  /** One turn of the loop of pb_decode_noinit over an unknown field. */
  lemma UnknownStep(fs: seq<Field>, b: seq<byte>, st: Wire.Progress, rest: seq<byte>, key: nat)
    requires b != [] && Varint.DecVarint32(b) == Varint.Ok(key, rest) && key != 0 && FindField(fs, key / 8) == None
    ensures var p := Wire.SkipField(key % 8, rest);
            Wire.DecodeLoop(fs, b, st) ==
              if (fs == [] && key / 8 == 0) || p.Err? then Varint.Err else Wire.DecodeLoop(fs, p.rest, st)
  {
    hide Wire.SkipField, Varint.DecVarint32, FindField;
  }

  /** How pb_decode_noinit records a required field in fields_seen. */
  method MarkRequired(fs: seq<Field>, k: nat, index: nat, w0: nat, w1: nat, ghost seen: set<nat>)
    returns (v0: nat, v1: nat)
    requires k < |fs| && index == RequiredCount(fs[..k]) && Holds(w0, w1, seen)
    ensures Holds(v0, v1, Wire.MarkSeen(fs, k, seen))
  {
    hide Holds, RequiredCount, Or, Shl32;
    v0, v1 := w0, w1;
    if fs[k].rule.Required? && index < MAX_REQUIRED {
      SetSeen(w0, w1, index, seen);
      if index < 32 {
        v0 := Or(w0, Shl32(1, index));
      } else {
        v1 := Or(w1, Shl32(1, index - 32));
      }
    }
  }

  lemma MarkedBelow(fs: seq<Field>, k: nat, seen: set<nat>)
    requires k < |fs| && forall i :: i in seen ==> i < RequiredCount(fs) && i < MAX_REQUIRED
    ensures forall i :: i in Wire.MarkSeen(fs, k, seen) ==> i < RequiredCount(fs) && i < MAX_REQUIRED
  {
    hide RequiredCount;
    if fs[k].rule.Required? { RequiredBefore(fs, k); }
  }

  /** How one turn of the loop of pb_decode_noinit ends. */
  datatype Turn = Continue | Done | Fail

  /** One turn of the loop of pb_decode_noinit. */
  method DecodeNext(stream: IStream, fs: seq<Field>, iter: FieldIter, w0: nat, w1: nat, s: Struct, ghost seen: set<nat>)
    returns (turn: Turn, v0: nat, v1: nat, r: Struct, ghost seen': set<nat>)
    requires stream.Valid() && stream.bytesLeft > 0 && WellFormed(fs)
    requires iter.Valid() && iter.start == fs && Holds(w0, w1, seen)
    requires forall i :: i in seen ==> i < RequiredCount(fs) && i < MAX_REQUIRED
    modifies stream, iter
    ensures stream.Valid() && iter.Valid()
    ensures !turn.Fail? ==> stream.End() == old(stream.End()) && Holds(v0, v1, seen')
    ensures turn.Continue? ==> stream.bytesLeft < old(stream.bytesLeft)
    ensures !turn.Fail? ==> forall i :: i in seen' ==> i < RequiredCount(fs) && i < MAX_REQUIRED
    ensures Wire.DecodeLoop(fs, old(stream.Rest()), Wire.Progress(s, seen)) ==
              match turn
              case Fail => Varint.Err
              case Done => Varint.Ok(Wire.Progress(r, seen'), stream.Rest())
              case Continue => Wire.DecodeLoop(fs, stream.Rest(), Wire.Progress(r, seen'))
    decreases fs, 3
  {
    hide Holds, Wire.DecodeLoop, Varint.DecVarint32, Wire.DecField, Wire.SkipField, FindField, RequiredCount,
         WellFormed;
    hide Wire.MarkSeen;
    v0, v1, r, seen' := w0, w1, s, seen;
    ghost var at, st := stream.Rest(), Wire.Progress(s, seen);
    var ok, wireType, tag, eof := DecodeTag(stream);
    if !ok {
      LoopEnds(fs, at, st);
      turn := if eof then Done else Fail;
      return;
    }
    ghost var p := Varint.DecVarint32(at);
    var found := iter.Find(tag);
    if !found || fs == [] {
      NotFound(fs, tag);
      UnknownStep(fs, at, st, p.rest, p.value);
      if found {
        // The terminator of an empty message reads as a required varint field of size 0.
        var value;
        ok, value := DecodeVarint(stream);
        turn := Fail;
        return;
      }
      ok := SkipField(stream, wireType);
    } else {
      IterFinds(fs, iter.pos, tag);
      KnownStep(fs, at, st, iter.pos, p.rest, p.value);
      v0, v1 := MarkRequired(fs, iter.pos, iter.requiredFieldIndex, w0, w1, seen);
      MarkedBelow(fs, iter.pos, seen);
      seen' := Wire.MarkSeen(fs, iter.pos, seen);
      FieldWellFormed(fs, iter.pos);
      ok, r := DecodeField(stream, fs[iter.pos], wireType, s);
    }
    turn := if ok then Continue else Fail;
  }

  /** pb_decode_noinit over the destination struct `s0`. */
  method DecodeNoInit(stream: IStream, fs: seq<Field>, s0: Struct) returns (ok: bool, s: Struct)
    requires stream.Valid() && WellFormed(fs)
    modifies stream
    ensures stream.Valid() && (ok ==> stream.End() == old(stream.End()))
    ensures var p := Wire.DecodeNoInit(fs, old(stream.Rest()), s0);
            (ok <==> p.Ok?) && (ok ==> s == p.value && stream.Rest() == p.rest)
    decreases fs, 4
  {
    hide Holds, Wire.DecodeLoop, Wire.DecodeNoInit, RequiredCount, WellFormed;
    ghost var b := stream.Rest();
    ghost var seen: set<nat> := {};
    var w0: nat, w1: nat := 0, 0;
    var iter := new FieldIter.Begin(fs);
    var turn := Continue;
    s := s0;
    NoneSeen();
    while stream.bytesLeft != 0 && turn == Continue
      invariant stream.Valid() && stream.End() == old(stream.End()) && !turn.Fail?
      invariant iter.Valid() && iter.start == fs && Holds(w0, w1, seen)
      invariant forall i :: i in seen ==> i < RequiredCount(fs) && i < MAX_REQUIRED
      invariant Wire.DecodeLoop(fs, b, Wire.Progress(s0, {})) ==
                if turn.Done? then Varint.Ok(Wire.Progress(s, seen), stream.Rest())
                else Wire.DecodeLoop(fs, stream.Rest(), Wire.Progress(s, seen))
      decreases turn == Continue, stream.bytesLeft
    {
      turn, w0, w1, s, seen := DecodeNext(stream, fs, iter, w0, w1, s, seen);
      if turn.Fail? {
        Failed(fs, b, s0);
        return false, s;
      }
    }
    LoopEnds(fs, [], Wire.Progress(s, seen));
    var n := CountRequired(iter);
    ok := CheckSeen(w0, w1, n, seen);
    Finished(fs, b, s0, Wire.Progress(s, seen), stream.Rest(), n);
  }

  lemma Failed(fs: seq<Field>, b: seq<byte>, s0: Struct)
    requires Wire.DecodeLoop(fs, b, Wire.Progress(s0, {})).Err?
    ensures Wire.DecodeNoInit(fs, b, s0).Err?
  {
    hide Wire.DecodeLoop;
  }

  /** The result of pb_decode_noinit from the final state of its loop. */
  lemma Finished(fs: seq<Field>, b: seq<byte>, s0: Struct, st: Wire.Progress, rest: seq<byte>, n: nat)
    requires Wire.DecodeLoop(fs, b, Wire.Progress(s0, {})) == Varint.Ok(st, rest)
    requires n == Wire.Min(RequiredCount(fs), MAX_REQUIRED)
    ensures (forall i: nat :: i < n ==> i in st.seen) ==> Wire.DecodeNoInit(fs, b, s0) == Varint.Ok(st.s, rest)
    ensures Wire.DecodeNoInit(fs, b, s0).Ok? ==> forall i: nat :: i < n ==> i in st.seen
  {
    hide Wire.DecodeLoop, RequiredCount;
  }

  lemma NotFound(fs: seq<Field>, tag: nat)
    requires forall k :: 0 <= k < |fs| ==> fs[k].tag != tag
    ensures FindField(fs, tag) == None
  {
  }

  lemma FieldWellFormed(fs: seq<Field>, k: nat)
    requires WellFormed(fs) && k < |fs|
    ensures WellFormedField(fs[k])
  {
  }

  /** The loop ends at the end of the bytes and at a zero key, and fails on a broken key. */
  lemma LoopEnds(fs: seq<Field>, b: seq<byte>, st: Wire.Progress)
    ensures b == [] ==> Wire.DecodeLoop(fs, b, st) == Varint.Ok(st, b)
    ensures b != [] ==> var p := Varint.DecVarint32(b);
              && (p.Err? ==> Wire.DecodeLoop(fs, b, st).Err?)
              && (p.Ok? && p.value == 0 ==> Wire.DecodeLoop(fs, b, st) == Varint.Ok(st, p.rest))
  {
    hide Varint.DecVarint32;
  }

  /** pb_decode */
  method Decode(stream: IStream, fs: seq<Field>) returns (ok: bool, s: Struct)
    requires stream.Valid() && WellFormed(fs)
    modifies stream
    ensures stream.Valid() && (ok ==> stream.End() == old(stream.End()))
    ensures var p := Wire.Decode(fs, old(stream.Rest()));
            (ok <==> p.Ok?) && (ok ==> s == p.value && stream.Rest() == p.rest)
  {
    hide Wire.DecodeNoInit, InitStruct, WellFormed;
    s := SetToDefaults(fs);
    ok, s := DecodeNoInit(stream, fs, s);
  }
}
