/**
 * Base-128 varints as nanopb reads and writes them.  These functions are the
 * specification that the stream methods of PbEncode and PbDecode are proved
 * against; the lemmas relate the writer to the two readers.
 */
module Varint {
  import opened Bits

  /** The outcome of reading from the front of a byte string. */
  datatype Parse<+T> = Err | Ok(value: T, rest: seq<byte>)

  /** What pb_encode_varint emits for an unsigned 64-bit value. */
  function EncVarint(v: nat): (b: seq<byte>)
    ensures |b| >= 1
    decreases v
  {
    if v <= 0x7F then [v]
    else [v % 128 + 128] + EncVarint(v / 128)
  }

  /** The loop of pb_decode_varint, entered with `bitpos` bits already collected in `result`. */
  function DecVarint64From(b: seq<byte>, bitpos: nat, result: nat): (p: Parse<nat>)
    ensures p.Ok? ==> |p.rest| < |b|
    decreases |b|
  {
    if bitpos >= 64 || b == [] then Err
    else
      var r := Or(result, Shl64(b[0] % 128, bitpos));
      if b[0] >= 128 then DecVarint64From(b[1..], (bitpos + 7) % 256, r)
      else Ok(r, b[1..])
  }

  function DecVarint64(b: seq<byte>): (p: Parse<nat>)
    ensures p.Ok? ==> |p.rest| < |b|
  {
    DecVarint64From(b, 0, 0)
  }

  /** Whether a byte read at `bitpos` >= 32 is refused as "varint overflow". */
  predicate BadExtension(byt: byte, bitpos: nat, result: nat) {
    var signExtension := if bitpos < 63 then 0xFF else 0x01;
    byt % 128 != 0 && (result < TWO_31 || byt != signExtension)
  }

  /** The do-while loop of pb_decode_varint32_eof; `bitpos` is an 8-bit counter. */
  function DecVarint32From(b: seq<byte>, bitpos: nat, result: nat): (p: Parse<nat>)
    ensures p.Ok? ==> |p.rest| < |b|
    decreases |b|
  {
    if b == [] then Err
    else if bitpos >= 32 && BadExtension(b[0], bitpos, result) then Err
    else
      var r := if bitpos >= 32 then result else Or(result, Shl32(b[0] % 128, bitpos));
      var next := (bitpos + 7) % 256;
      if b[0] >= 128 then DecVarint32From(b[1..], next, r)
      else if next == 35 && b[0] / 16 % 8 != 0 then Err
      else Ok(r, b[1..])
  }

  /** pb_decode_varint32 */
  function DecVarint32(b: seq<byte>): (p: Parse<nat>)
    ensures p.Ok? ==> |p.rest| < |b|
  {
    if b == [] then Err
    else if b[0] < 128 then Ok(b[0], b[1..])
    else DecVarint32From(b[1..], 7, b[0] % 128)
  }

  // ---------------------------------------------------------------- writer and 64-bit reader

  /** A varint of a value below 128^n is at most n bytes long. */
  lemma {:induction false} EncVarintLength(v: nat, n: nat)
    requires n >= 1 && v < Shl(1, 7 * n)
    ensures |EncVarint(v)| <= n
    decreases v
  {
    if v > 0x7F {
      Shl7(1, 7 * (n - 1));
      EncVarintLength(v / 128, n - 1);
    }
  }

  /** Every 64-bit value fits the ten-byte buffer of pb_encode_varint. */
  lemma EncVarintAtMostTen(v: nat)
    requires v < TWO_64
    ensures |EncVarint(v)| <= 10
  {
    Weights();
    EncVarintLength(v, 10);
  }

  /** A value placed at bit `k` is its low seven bits there and the others seven bits higher. */
  lemma ShlSplit7(v: nat, c: nat, q: nat, k: nat)
    requires v == c + 128 * q
    ensures Shl(v, k) == Shl(c, k) + Shl(q, k + 7)
  {
    Shl7(q, k);
    ShlSum(c, 128 * q, k);
  }

  /** Seven more bits above `k` collected ones stay below bit `k + 7`. */
  lemma CollectedBelow(r: nat, c: nat, k: nat)
    requires r < Shl(1, k) && c < 128
    ensures r + Shl(c, k) < Shl(1, k + 7)
  {
    Shl7(1, k);
    ShlBySeven(1);
    ShlShl(1, 7, k);
    ShlMonotone(c, 127, k);
    ShlSum(127, 1, k);
  }

  /** Collecting one more group of seven bits, in a register it fits. */
  lemma Collect64(r: nat, c: nat, k: nat)
    requires r < Shl(1, k) && Shl(c, k) < TWO_64
    ensures Or(r, Shl64(c, k)) == r + Shl(c, k)
  {
    assert Shl64(c, k) == Shl(c, k);
    OrDisjoint(r, c, k);
  }

  lemma WeightBelow64(q: nat, k: nat)
    requires q > 0 && Shl(q, k) < TWO_64
    ensures k < 64
  {
    if k >= 64 {
      ShlMonotone(1, q, k);
      Weights();
      ShlBelow(64, k);
      assert false;
    }
  }

  lemma EncVarintShape(v: nat, rest: seq<byte>)
    ensures v <= 0x7F ==> EncVarint(v) + rest == [v] + rest
    ensures v > 0x7F ==> EncVarint(v) + rest == [v % 128 + 128] + (EncVarint(v / 128) + rest)
  {
  }

  lemma Dec64Unfold(x: byte, c: nat, t: seq<byte>, k: nat, r: nat)
    requires k < 64 && r < Shl(1, k) && c == x % 128 && Shl(c, k) < TWO_64
    ensures DecVarint64From([x] + t, k, r) ==
            if x >= 128 then DecVarint64From(t, k + 7, r + Shl(c, k)) else Ok(r + Shl(c, k), t)
  {
    hide Shl, Shl64, Or;
    Collect64(r, c, k);
    assert ([x] + t)[1..] == t;
  }

  lemma {:induction false} Dec64OfEnc(v: nat, k: nat, r: nat, rest: seq<byte>)
    requires k < 64 && r < Shl(1, k) && r + Shl(v, k) < TWO_64
    ensures DecVarint64From(EncVarint(v) + rest, k, r) == Ok(r + Shl(v, k), rest)
    decreases v
  {
    hide *;
    EncVarintShape(v, rest);
    if v <= 0x7F {
      Dec64Unfold(v, v, rest, k, r);
    } else {
      var c, q := v % 128, v / 128;
      ShlSplit7(v, c, q, k);
      Dec64Unfold(c + 128, c, EncVarint(q) + rest, k, r);
      WeightBelow64(q, k + 7);
      CollectedBelow(r, c, k);
      Dec64OfEnc(q, k + 7, r + Shl(c, k), rest);
    }
  }

  /** pb_decode_varint inverts pb_encode_varint on every 64-bit value. */
  lemma Varint64RoundTrip(v: nat, rest: seq<byte>)
    requires v < TWO_64
    ensures DecVarint64(EncVarint(v) + rest) == Ok(v, rest)
  {
    Dec64OfEnc(v, 0, 0, rest);
  }

  lemma {:induction false} Dec64Below(b: seq<byte>, k: nat, r: nat)
    requires r < TWO_64 && DecVarint64From(b, k, r).Ok?
    ensures DecVarint64From(b, k, r).value < TWO_64
    decreases |b|
  {
    hide Or, Shl;
    var n := Or(r, Shl64(b[0] % 128, k));
    Weights();
    OrBelow(r, Shl64(b[0] % 128, k), 64);
    if b[0] >= 128 { Dec64Below(b[1..], (k + 7) % 256, n); }
  }

  /** pb_decode_varint collects its result in 64 bits. */
  lemma Varint64InRange(b: seq<byte>)
    requires DecVarint64(b).Ok?
    ensures DecVarint64(b).value < TWO_64
  {
    Dec64Below(b, 0, 0);
  }

  // ---------------------------------------------------------------- 32-bit reader

  /** Collecting one more group of seven bits in the 32-bit register. */
  lemma Collect32(r: nat, c: nat, k: nat)
    requires r < Shl(1, k) && Shl(c, k) < TWO_32
    ensures Or(r, Shl32(c, k)) == r + Shl(c, k)
  {
    assert Shl32(c, k) == Shl(c, k);
    OrDisjoint(r, c, k);
  }

  lemma Dec32Unfold(x: byte, c: nat, t: seq<byte>, k: nat, r: nat)
    requires k <= 28 && r < Shl(1, k) && c == x % 128 && Shl(c, k) < TWO_32
    requires x < 128 && k == 28 ==> x < 16
    ensures DecVarint32From([x] + t, k, r) ==
            if x >= 128 then DecVarint32From(t, k + 7, r + Shl(c, k)) else Ok(r + Shl(c, k), t)
  {
    hide Shl, Shl32, Or;
    Collect32(r, c, k);
    assert ([x] + t)[1..] == t;
  }

  lemma ShlSixteen(k: nat)
    ensures Shl(16, k) == 16 * Shl(1, k)
  {
    ShlSum(1, 1, k); ShlSum(2, 2, k); ShlSum(4, 4, k); ShlSum(8, 8, k);
  }

  lemma WeightBelow32(q: nat, k: nat)
    requires q > 0 && Shl(q, k) < TWO_32
    ensures k < 32
    ensures k == 28 ==> q < 16
  {
    Weights();
    if k >= 32 {
      ShlMonotone(1, q, k);
      ShlBelow(32, k);
      assert false;
    }
    if k == 28 && q >= 16 {
      ShlMonotone(16, q, k);
      ShlSixteen(28);
      assert false;
    }
  }

  lemma {:induction false} Dec32OfEnc(v: nat, k: nat, r: nat, rest: seq<byte>)
    requires k <= 28 && k % 7 == 0 && r < Shl(1, k) && r + Shl(v, k) < TWO_32
    ensures DecVarint32From(EncVarint(v) + rest, k, r) == Ok(r + Shl(v, k), rest)
    decreases v
  {
    hide *;
    EncVarintShape(v, rest);
    if v > 0 { WeightBelow32(v, k); }
    if v <= 0x7F {
      Dec32Unfold(v, v, rest, k, r);
    } else {
      var c, q := v % 128, v / 128;
      ShlSplit7(v, c, q, k);
      Dec32Unfold(c + 128, c, EncVarint(q) + rest, k, r);
      WeightBelow32(q, k + 7);
      CollectedBelow(r, c, k);
      Dec32OfEnc(q, k + 7, r + Shl(c, k), rest);
    }
  }

  lemma Dec32First(x: byte, t: seq<byte>)
    ensures DecVarint32([x] + t) == if x < 128 then Ok(x, t) else DecVarint32From(t, 7, x % 128)
  {
    assert ([x] + t)[1..] == t;
  }

  /** pb_decode_varint32 inverts pb_encode_varint on every 32-bit value. */
  lemma Varint32RoundTrip(v: nat, rest: seq<byte>)
    requires v < TWO_32
    ensures DecVarint32(EncVarint(v) + rest) == Ok(v, rest)
  {
    hide *;
    EncVarintShape(v, rest);
    if v <= 0x7F {
      Dec32First(v, rest);
    } else {
      var c, q := v % 128, v / 128;
      Dec32First(c + 128, EncVarint(q) + rest);
      ShlBySeven(q);
      ShlBySeven(1);
      Dec32OfEnc(q, 7, c, rest);
    }
  }

  // ---- values that need more than 32 bits

  /** Past bit 35, more canonical bytes of a value below 2^63 end in a refusal. */
  lemma {:induction false} Dec32RejectsHigh(v: nat, k: nat, r: nat, rest: seq<byte>)
    requires 35 <= k < 63 && v > 0 && Shl(v, k) < TWO_63
    ensures DecVarint32From(EncVarint(v) + rest, k, r) == Err
    decreases v
  {
    hide Shl, EncVarint;
    EncVarintShape(v, rest);
    var b := EncVarint(v) + rest;
    if v > 0x7F {
      var c, q := v % 128, v / 128;
      ShlSplit7(v, c, q, k);
      WeightBelow63(q, k + 7);
      Dec32RejectsHigh(q, k + 7, r, rest);
      assert b[1..] == EncVarint(q) + rest;
    }
  }

  lemma WeightBelow63(q: nat, k: nat)
    requires q > 0 && Shl(q, k) < TWO_63
    ensures k < 63
  {
    Weights();
    if k >= 63 {
      ShlMonotone(1, q, k);
      ShlBelow(63, k);
      assert false;
    }
  }

  /** A value that does not fit below bit 32 at weight `k` still has more than seven bits while k < 28. */
  lemma LargeAtWeight(v: nat, k: nat)
    requires k <= 28 && Shl(v, k) + Shl(1, k) > TWO_32
    ensures k <= 21 ==> v > 0x7F
    ensures v >= 16
  {
    Weights();
    if v < 16 {
      ShlMonotone(v, 15, k);
      ShlSum(15, 1, k);
      ShlBelow(k, 28);
      ShlShl(1, 4, k);
      ShlShl(1, k, 4);
      ShlSixteen(k);
      assert false;
    }
    if k <= 21 && v <= 0x7F {
      ShlMonotone(v, 127, k);
      ShlSum(127, 1, k);
      ShlBySeven(1);
      ShlShl(1, 7, k);
      ShlBelow(7 + k, 28);
      assert false;
    }
  }

  lemma Dec32Past28(x: byte, c: nat, t: seq<byte>, r: nat)
    requires c == x % 128 && x >= 128
    ensures DecVarint32From([x] + t, 28, r) == DecVarint32From(t, 35, Or(r, Shl32(c, 28)))
  {
    hide Or, Shl32;
    assert ([x] + t)[1..] == t;
  }

  lemma Dec32LastTooBig(x: byte, t: seq<byte>, r: nat)
    requires 16 <= x < 128
    ensures DecVarint32From([x] + t, 28, r) == Err
  {
    hide Or, Shl32;
  }

  /** From any group boundary below bit 35, a total of at least 2^32 is refused. */
  lemma {:induction false} Dec32RejectsFrom(v: nat, k: nat, r: nat, rest: seq<byte>)
    requires k <= 28 && k % 7 == 0 && r < Shl(1, k) && r + Shl(v, k) >= TWO_32 && Shl(v, k) < TWO_63
    ensures DecVarint32From(EncVarint(v) + rest, k, r) == Err
    decreases v
  {
    hide DecVarint32From, EncVarint, Shl, Shl32, Or;
    EncVarintShape(v, rest);
    LargeAtWeight(v, k);
    if v <= 0x7F {
      Dec32LastTooBig(v, rest, r);
    } else {
      var c, q := v % 128, v / 128;
      ShlSplit7(v, c, q, k);
      if k == 28 {
        Dec32Past28(c + 128, c, EncVarint(q) + rest, r);
        Dec32RejectsHigh(q, 35, Or(r, Shl32(c, k)), rest);
      } else {
        CollectedBelow(r, c, k);
        Weights();
        ShlBelow(k + 7, 28);
        Dec32Unfold(c + 128, c, EncVarint(q) + rest, k, r);
        Dec32RejectsFrom(q, k + 7, r + Shl(c, k), rest);
      }
    }
  }

  /** pb_decode_varint32 refuses the canonical form of every value from 2^32 up to 2^63. */
  lemma Varint32RejectsLarge(v: nat, rest: seq<byte>)
    requires TWO_32 <= v < TWO_63
    ensures DecVarint32(EncVarint(v) + rest) == Err
  {
    hide DecVarint32From, Shl, EncVarint;
    EncVarintShape(v, rest);
    var c, q := v % 128, v / 128;
    Dec32First(c + 128, EncVarint(q) + rest);
    ShlBySeven(q);
    ShlBySeven(1);
    Dec32RejectsFrom(q, 7, c, rest);
  }

  // ---- agreement of the two readers

  /** Bytes read at bit 35 or above do not change the low half of the 64-bit register. */
  lemma HighGroupKeepsLow(r: nat, c: nat, k: nat)
    requires 35 <= k < 64 && k % 7 == 0 && r < Shl(1, k) && c < 128
    ensures Or(r, Shl64(c, k)) % TWO_32 == r % TWO_32
    ensures k < 63 ==> Or(r, Shl64(c, k)) < Shl(1, k + 7)
  {
    hide Or, Shl;
    var d := if k == 63 then c % 2 else c;
    assert Shl64(c, k) == Shl(d, k) by {
      if k == 63 {
        Shl63(c);
      } else {
        CollectedBelow(0, c, k) by { ShlPositive(k); }
        Weights();
        ShlBelow(k + 7, 63);
      }
    }
    OrDisjoint(r, d, k);
    MultipleOf32(d, k);
    if k < 63 { CollectedBelow(r, c, k); }
  }

  lemma Shl63(c: nat)
    ensures Shl64(c, 63) == Shl(c % 2, 63)
  {
    hide Shl;
    Weights();
    ShlTimes(c);
    ShlTimes(c % 2);
  }

  lemma {:induction false} ShlTimes(c: nat)
    ensures Shl(c, 63) == c * TWO_63
  {
    hide Shl;
    if c == 0 {
      ShlZero(63);
    } else {
      Weights();
      ShlSum(c - 1, 1, 63);
      ShlTimes(c - 1);
    }
  }

  lemma MultipleOf32(c: nat, k: nat)
    requires k >= 32
    ensures forall r: nat :: (r + Shl(c, k)) % TWO_32 == r % TWO_32
  {
    hide Shl;
    ShlShl(c, k - 32, 32);
    By32(Shl(c, k - 32));
  }

  lemma {:induction false} By32(m: nat)
    ensures Shl(m, 32) == TWO_32 * m
  {
    hide Shl;
    if m == 0 {
      ShlZero(32);
    } else {
      Weights();
      ShlSum(m - 1, 1, 32);
      By32(m - 1);
    }
  }

  /** While fewer than 32 bits are collected, both registers take the same group. */
  lemma LowGroupAgrees(r: nat, c: nat, k: nat)
    requires k <= 28 && k % 7 == 0 && r < Shl(1, k) && c < 128
    ensures var r64 := Or(r, Shl64(c, k)); r64 < Shl(1, k + 7) && Or(r, Shl32(c, k)) == r64 % TWO_32
  {
    hide Or, Shl;
    CollectedBelow(r, c, k);
    CollectedBelow(0, c, k) by { ShlPositive(k); }
    Weights();
    ShlBelow(k + 7, 63);
    assert Shl64(c, k) == Shl(c, k);
    OrDisjoint(r, c, k);
    if k < 28 {
      ShlBelow(k + 7, 28);
    } else {
      Group28(r, c);
    }
  }

  lemma Group28(r: nat, c: nat)
    requires r < Shl(1, 28) && c < 128
    ensures Or(r, Shl32(c, 28)) == (r + Shl(c, 28)) % TWO_32
  {
    hide Or, Shl;
    var d, e := c % 16, c / 16;
    Weights();
    Shl28(c);
    Shl28(d);
    assert Shl(c, 28) == Shl(d, 28) + e * TWO_32;
    assert Shl32(c, 28) == Shl(d, 28);
    OrDisjoint(r, d, 28);
  }

  lemma {:induction false} Shl28(c: nat)
    ensures Shl(c, 28) == c * 0x1000_0000
  {
    hide Shl;
    if c == 0 {
      ShlZero(28);
    } else {
      Weights();
      ShlSum(c - 1, 1, 28);
      Shl28(c - 1);
    }
  }

  lemma Step32(b: seq<byte>, k: nat, r: nat)
    requires k <= 63 && DecVarint32From(b, k, r).Ok?
    ensures b != []
    ensures var n := if k >= 32 then r else Or(r, Shl32(b[0] % 128, k));
            DecVarint32From(b, k, r) == if b[0] >= 128 then DecVarint32From(b[1..], k + 7, n) else Ok(n, b[1..])
  {
    hide Or, Shl, Shl32, BadExtension;
  }

  lemma Step64(b: seq<byte>, k: nat, r: nat)
    requires k <= 63 && b != []
    ensures var n := Or(r, Shl64(b[0] % 128, k));
            DecVarint64From(b, k, r) == if b[0] >= 128 then DecVarint64From(b[1..], k + 7, n) else Ok(n, b[1..])
  {
    hide Or, Shl, Shl64;
  }

  /** The two readers in step: same position, 32-bit register = low half of the 64-bit one. */
  lemma {:induction false} ReadersAgreeFrom(b: seq<byte>, k: nat, r32: nat, r64: nat)
    requires 7 <= k <= 63 && k % 7 == 0 && r64 < Shl(1, k) && r32 == r64 % TWO_32
    requires k <= 28 ==> r32 == r64
    requires DecVarint32From(b, k, r32).Ok? && |b| - |DecVarint32From(b, k, r32).rest| <= (70 - k) / 7
    ensures DecVarint64From(b, k, r64).Ok?
    ensures DecVarint64From(b, k, r64).rest == DecVarint32From(b, k, r32).rest
    ensures DecVarint64From(b, k, r64).value % TWO_32 == DecVarint32From(b, k, r32).value
    decreases |b|
  {
    hide DecVarint32From, DecVarint64From, Or, Shl, Shl32, Shl64;
    var c := b[0] % 128;
    Step32(b, k, r32);
    Step64(b, k, r64);
    var n32 := if k >= 32 then r32 else Or(r32, Shl32(c, k));
    var n64 := Or(r64, Shl64(c, k));
    assert n32 == n64 % TWO_32 && (k < 63 ==> n64 < Shl(1, k + 7)) by {
      if k <= 28 { LowGroupAgrees(r64, c, k); } else { HighGroupKeepsLow(r64, c, k); }
    }
    if b[0] >= 128 {
      assert k < 63;
      if k + 7 <= 28 {
        Weights();
        ShlBelow(k + 7, 28);
      }
      ReadersAgreeFrom(b[1..], k + 7, n32, n64);
    }
  }

  /**
   * On an encoding of at most ten bytes, whatever pb_decode_varint32 accepts is what
   * pb_decode_varint reads there, reduced modulo 2^32.
   */
  lemma Varint32IsLowHalf(b: seq<byte>)
    requires DecVarint32(b).Ok? && |b| - |DecVarint32(b).rest| <= 10
    ensures DecVarint64(b).Ok? && DecVarint64(b).rest == DecVarint32(b).rest
    ensures DecVarint32(b).value == DecVarint64(b).value % TWO_32
  {
    hide Shl, Or;
    ShlZeroShift(b[0] % 128);
    ShlBySeven(1);
    if b[0] >= 128 {
      ReadersAgreeFrom(b[1..], 7, b[0] % 128, b[0] % 128);
    }
  }

  lemma ShlZeroShift(c: nat)
    requires c < 128
    ensures Or(0, Shl64(c, 0)) == c && Shl(1, 0) == 1
  {
  }

  // ---- sign-extended negative 32-bit values

  /** From bit 35 on, the all-ones groups of a negative value pass when the register is negative. */
  lemma Dec32AcceptsOnes(r: nat, rest: seq<byte>)
    requires r >= TWO_31
    ensures DecVarint32From([0xFF, 0xFF, 0xFF, 0xFF, 0x01] + rest, 35, r) == Ok(r, rest)
  {
    hide DecVarint32From;
    OnesStep([0xFF, 0xFF, 0xFF, 0x01] + rest, 35, r);
    OnesStep([0xFF, 0xFF, 0x01] + rest, 42, r);
    OnesStep([0xFF, 0x01] + rest, 49, r);
    OnesStep([0x01] + rest, 56, r);
    OnesLast(rest, r);
    assert [0xFF] + ([0xFF, 0xFF, 0xFF, 0x01] + rest) == [0xFF, 0xFF, 0xFF, 0xFF, 0x01] + rest;
    assert [0xFF] + ([0xFF, 0xFF, 0x01] + rest) == [0xFF, 0xFF, 0xFF, 0x01] + rest;
    assert [0xFF] + ([0xFF, 0x01] + rest) == [0xFF, 0xFF, 0x01] + rest;
    assert [0xFF] + ([0x01] + rest) == [0xFF, 0x01] + rest;
  }

  lemma OnesStep(t: seq<byte>, k: nat, r: nat)
    requires 35 <= k < 63 && r >= TWO_31
    ensures DecVarint32From([0xFF] + t, k, r) == DecVarint32From(t, k + 7, r)
  {
    hide Or, Shl32;
    assert ([0xFF] + t)[1..] == t;
  }

  lemma OnesLast(t: seq<byte>, r: nat)
    requires r >= TWO_31
    ensures DecVarint32From([0x01] + t, 63, r) == Ok(r, t)
  {
    hide Or, Shl32;
    assert ([0x01] + t)[1..] == t;
  }

  lemma OnesEncoding()
    ensures EncVarint(0x1FFF_FFFF) == [0xFF, 0xFF, 0xFF, 0xFF, 0x01]
  {
    assert EncVarint(0x1FFF_FFFF) == [0xFF] + EncVarint(0x3F_FFFF);
    assert EncVarint(0x3F_FFFF) == [0xFF] + EncVarint(0x7FFF);
    assert EncVarint(0x7FFF) == [0xFF] + EncVarint(0xFF);
    assert EncVarint(0xFF) == [0xFF] + EncVarint(0x1);
  }

  lemma {:induction false} Dec32AcceptsNegative(v: nat, k: nat, r: nat, rest: seq<byte>)
    requires k <= 28 && k % 7 == 0 && r < Shl(1, k)
    requires TWO_64 - TWO_31 <= r + Shl(v, k) < TWO_64
    ensures DecVarint32From(EncVarint(v) + rest, k, r).Ok?
    ensures DecVarint32From(EncVarint(v) + rest, k, r).rest == rest
    decreases 28 - k
  {
    hide DecVarint32From, EncVarint, Shl, Shl32, Or;
    EncVarintShape(v, rest);
    Weights();
    ShlBelow(k, 28);
    LargeAtWeight(v, k);
    var c, q := v % 128, v / 128;
    ShlSplit7(v, c, q, k);
    if k == 28 {
      Shl28(v);
      Shl28(c);
      assert q == 0x1FFF_FFFF;
      OnesEncoding();
      Dec32Past28(c + 128, c, EncVarint(q) + rest, r);
      Group28(r, c);
      Dec32AcceptsOnes(Or(r, Shl32(c, 28)), rest);
    } else {
      CollectedBelow(r, c, k);
      ShlBelow(k + 7, 28);
      Dec32Unfold(c + 128, c, EncVarint(q) + rest, k, r);
      Dec32AcceptsNegative(q, k + 7, r + Shl(c, k), rest);
    }
  }

  /** A negative int32 written as a sign-extended 64-bit varint is read back by pb_decode_varint32. */
  lemma Varint32SignExtended(v: nat, rest: seq<byte>)
    requires TWO_64 - TWO_31 <= v < TWO_64
    ensures DecVarint32(EncVarint(v) + rest) == Ok(v - (TWO_64 - TWO_32), rest)
  {
    hide DecVarint32From, DecVarint64From, EncVarint, Shl, Shl32, Or;
    EncVarintShape(v, rest);
    var c, q := v % 128, v / 128;
    Dec32First(c + 128, EncVarint(q) + rest);
    ShlBySeven(q);
    ShlBySeven(1);
    Dec32AcceptsNegative(q, 7, c, rest);
    EncVarintAtMostTen(v);
    Varint32IsLowHalf(EncVarint(v) + rest);
    Varint64RoundTrip(v, rest);
  }

  // ---------------------------------------------------------------- zigzag and fixed width

  /** A signed 64-bit number as the unsigned one with the same bits. */
  function ToUnsigned(v: int): nat
    requires -TWO_63 <= v < TWO_63
  {
    if v < 0 then v + TWO_64 else v
  }

  /** An unsigned 64-bit number as the signed one with the same bits. */
  function ToSigned(u: nat): int
    requires u < TWO_64
  {
    if u >= TWO_63 then u - TWO_64 else u
  }

  /** The value pb_encode_svarint hands to pb_encode_varint: `~(v << 1)` or `v << 1` on 64 bits. */
  function ZigZag(v: int): (u: nat)
    requires -TWO_63 <= v < TWO_63
    ensures u < TWO_64
  {
    var doubled := 2 * ToUnsigned(v) % TWO_64;
    if v < 0 then TWO_64 - 1 - doubled else doubled
  }

  /** The value pb_decode_svarint stores: `~(u >> 1)` or `u >> 1`, read as signed. */
  function UnZigZag(u: nat): (v: int)
    requires u < TWO_64
    ensures -TWO_63 <= v < TWO_63
  {
    if u % 2 == 1 then ToSigned(TWO_64 - 1 - u / 2) else ToSigned(u / 2)
  }

  /** Zigzag coding is a bijection between int64 and uint64. */
  lemma ZigZagInverse(v: int, u: nat)
    requires -TWO_63 <= v < TWO_63 && u < TWO_64
    ensures UnZigZag(ZigZag(v)) == v
    ensures ZigZag(UnZigZag(u)) == u
    ensures ZigZag(v) == if v < 0 then -2 * v - 1 else 2 * v
  {
  }

  /** `n` little-endian bytes of `v`, as pb_encode_fixed32 and pb_encode_fixed64 write them. */
  function EncFixed(v: nat, n: nat): (b: seq<byte>)
    ensures |b| == n
  {
    if n == 0 then [] else [v % 256] + EncFixed(v / 256, n - 1)
  }

  function FixedValue(b: seq<byte>): nat {
    if b == [] then 0 else b[0] + 256 * FixedValue(b[1..])
  }

  /** pb_decode_fixed32 and pb_decode_fixed64 */
  function DecFixed(b: seq<byte>, n: nat): (p: Parse<nat>)
    ensures p.Ok? ==> |p.rest| + n == |b| && p.rest == b[n..]
  {
    if |b| < n then Err else Ok(FixedValue(b[..n]), b[n..])
  }

  lemma {:induction false} FixedOfEnc(v: nat, n: nat)
    requires v < Shl(1, 8 * n)
    ensures FixedValue(EncFixed(v, n)) == v
    decreases n
  {
    hide Shl;
    if n > 0 {
      Shl7(1, 8 * n - 7);
      ShlOne(8 * n - 8);
      FixedOfEnc(v / 256, n - 1);
      assert EncFixed(v, n)[1..] == EncFixed(v / 256, n - 1);
    } else {
      ShlZeroShift(0);
    }
  }

  lemma ShlOne(k: nat)
    ensures Shl(1, k + 1) == 2 * Shl(1, k)
  {
  }

  /** Fixed-width values survive a round trip. */
  lemma FixedRoundTrip(v: nat, n: nat, rest: seq<byte>)
    requires (n == 4 && v < TWO_32) || (n == 8 && v < TWO_64)
    ensures DecFixed(EncFixed(v, n) + rest, n) == Ok(v, rest)
  {
    hide Shl, EncFixed, FixedValue;
    Weights();
    FixedOfEnc(v, n);
    assert (EncFixed(v, n) + rest)[..n] == EncFixed(v, n);
  }
}
