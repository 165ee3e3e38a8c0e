/**
 * dtls_record.cc: the replay window and the part of dtls_open_record that uses it, and
 * the epoch change of dtls_method.cc (RFC 6347, section 4.1.2.6).
 */
module Replay {
  import opened Bits
  import opened Bytes

  const WINDOW: nat := 64
  const EPOCHS: nat := 0x1_0000
  const PER_EPOCH: nat := 0x1_0000_0000_0000

  // ---------------------------------------------------------------- record numbers

  /** The epoch part of a record number. */
  function EpochOf(n: nat): nat {
    n / PER_EPOCH
  }

  /** The first two of eight bytes are the epoch. */
  lemma EpochBytes(b: seq<byte>)
    requires |b| == 8
    ensures EpochOf(BigEndian(b)) == 256 * (b[0] as int) + b[1]
    ensures BigEndian(b) < TWO_64
  {
    hide BigEndian;
    BigEndianStep(b, 0); BigEndianStep(b, 1); BigEndianStep(b, 2); BigEndianStep(b, 3);
    BigEndianStep(b, 4); BigEndianStep(b, 5); BigEndianStep(b, 6); BigEndianStep(b, 7);
    BigEndianNone();
    assert b[..0] == [] && b[..8] == b;
    var low: int := (((((b[2] as int) * 256 + b[3]) * 256 + b[4]) * 256 + b[5]) * 256 + b[6]) * 256 + b[7];
    assert BigEndian(b) == (256 * (b[0] as int) + b[1]) * PER_EPOCH + low;
    assert 0 <= low < PER_EPOCH;
  }

  /** to_u64_be */
  method ToU64(b: seq<byte>) returns (ret: nat)
    requires |b| == 8
    ensures ret == BigEndian(b)
  {
    hide Or, Shl;
    ret := 0;
    for i := 0 to 8
      invariant ret == BigEndian(b[..i])
    {
      BigEndianBelow(b[..i]);
      assert b[..i + 1][..i] == b[..i];
      Weights();
      ByteShifts(i, ret);
      ShlByEight(1);
      OrDisjoint(b[i], ret, 8);
      ret := Or(b[i], Shl64(ret, 8));
    }
    assert b[..8] == b;
  }

  lemma ByteShifts(i: nat, v: nat)
    requires i < 8 && v < Shl(1, 8 * i)
    ensures Shl64(v, 8) == Shl(v, 8) == 256 * v
  {
    hide Shl;
    Weights();
    ShlByEight(v);
    ShlBelow(8 * i, 56);
    ShlShl(1, 56, 8);
    ShlByEight(Shl(1, 56));
  }

  // ---------------------------------------------------------------- the window

  /** The contents of a DTLS1_BITMAP. */
  datatype Window = Window(mask: nat, max: nat)

  /** dtls1_bitmap_should_discard */
  predicate Discards(w: Window, n: nat) {
    n <= w.max && (w.max - n >= WINDOW || Bit(w.mask, w.max - n))
  }

  /** dtls1_bitmap_record */
  function Recorded(w: Window, n: nat): Window {
    var slid :=
      if n <= w.max then w
      else Window(if n - w.max >= WINDOW then 0 else Shl64(w.mask, n - w.max), n);
    if slid.max - n < WINDOW then slid.(mask := Or(slid.mask, Shl64(1, slid.max - n))) else slid
  }

  /** The window remembers exactly the recent members of `seen`, and the highest of them. */
  ghost predicate Tracks(w: Window, seen: set<nat>) {
    && (forall n :: n in seen ==> n <= w.max)
    && (w.max == 0 || w.max in seen)
    && (forall i: nat :: i < WINDOW && i <= w.max ==> (Bit(w.mask, i) <==> w.max - i in seen))
    && (forall i: nat :: i < WINDOW && i > w.max ==> !Bit(w.mask, i))
  }

  /** What is discarded: what was recorded, and what is 64 or more behind the highest one. */
  lemma DiscardsSeenOrStale(w: Window, seen: set<nat>, n: nat)
    requires Tracks(w, seen)
    ensures Discards(w, n) <==> n in seen || n + WINDOW <= w.max
  {
    hide Bit;
    if n <= w.max && w.max - n < WINDOW {
      var i: nat := w.max - n;
      assert Bit(w.mask, i) <==> w.max - i in seen;
    }
  }

  /** The bits of a number written as low part and high part. */
  lemma {:induction false} BitOfSum(low: nat, high: nat, k: nat, i: nat)
    requires low < Shl(1, k)
    ensures Bit(low + Shl(high, k), i) <==> if i < k then Bit(low, i) else Bit(high, i - k)
    decreases k
  {
    if k > 0 && i > 0 { BitOfSum(low / 2, high, k - 1, i - 1); }
  }

  lemma ShlBy64(v: nat)
    ensures Shl(v, 64) == TWO_64 * v
  {
    hide Shl;
    Shl7(v, 0); Shl7(v, 7); Shl7(v, 14); Shl7(v, 21); Shl7(v, 28);
    Shl7(v, 35); Shl7(v, 42); Shl7(v, 49); ShlShl(v, 56, 8); ShlByEight(Shl(v, 56));
    ShlNone(v);
  }

  lemma ShlNone(v: nat)
    ensures Shl(v, 0) == v
  {
  }

  lemma BitOfTruncated(v: nat, i: nat)
    ensures Bit(v % TWO_64, i) <==> i < 64 && Bit(v, i)
  {
    hide Shl, Bit;
    Weights();
    var low, high := v % TWO_64, v / TWO_64;
    ShlBy64(high);
    BitOfSum(low, high, 64, i);
    if i >= 64 {
      BitOfSum(low, 0, 64, i);
      ShlZero(64);
      BitOfZero(i - 64);
    }
  }

  lemma {:induction false} BitOfShifted(v: nat, k: nat, i: nat)
    ensures Bit(Shl(v, k), i) <==> i >= k && Bit(v, i - k)
    decreases k
  {
    if k > 0 && i > 0 { BitOfShifted(v, k - 1, i - 1); }
  }

  /** A 64-bit register shifted left. */
  lemma BitOfShl64(v: nat, k: nat, i: nat)
    ensures Bit(Shl64(v, k), i) <==> k <= i < 64 && Bit(v, i - k)
  {
    hide Bit, Shl;
    BitOfTruncated(Shl(v, k), i);
    BitOfShifted(v, k, i);
  }

  lemma SlidBit(w: Window, seen: set<nat>, n: nat, i: nat)
    requires Tracks(w, seen) && n > w.max && i < WINDOW
    ensures var mask := if n - w.max >= WINDOW then 0 else Shl64(w.mask, n - w.max);
            Bit(mask, i) <==> i <= n && n - i in seen
  {
    hide Bit, Shl64;
    var d: nat := n - w.max;
    if d >= WINDOW {
      BitOfZero(i);
    } else {
      BitOfShl64(w.mask, d, i);
      if i >= d {
        var j: nat := i - d;
        if j <= w.max { assert Bit(w.mask, j) <==> w.max - j in seen; } else { assert !Bit(w.mask, j); }
      }
    }
  }

  lemma MarkedBit(mask: nat, k: nat, i: nat)
    requires k < WINDOW
    ensures Bit(Or(mask, Shl64(1, k)), i) <==> Bit(mask, i) || i == k
  {
    hide Bit, Or, Shl64, Shl;
    BitOfOr(mask, Shl64(1, k), i);
    BitOfShl64(1, k, i);
    if i >= k { BitOfOne(i - k); }
  }

  lemma BitOfOne(i: nat)
    ensures Bit(1, i) <==> i == 0
  {
    BitOfShl(0, i);
  }

  /** Recording a number that is not stale adds it to what the window tracks. */
  lemma RecordedTracks(w: Window, seen: set<nat>, n: nat)
    requires Tracks(w, seen) && n + WINDOW > w.max
    ensures Tracks(Recorded(w, n), seen + {n})
  {
    hide Bit, Or, Shl64;
    var v := Recorded(w, n);
    forall i: nat | i < WINDOW ensures Bit(v.mask, i) <==> i <= v.max && v.max - i in seen + {n} {
      if n > w.max {
        MarkedBit(if n - w.max >= WINDOW then 0 else Shl64(w.mask, n - w.max), 0, i);
        SlidBit(w, seen, n, i);
      } else {
        MarkedBit(w.mask, w.max - n, i);
        if i <= w.max { assert Bit(w.mask, i) <==> w.max - i in seen; } else { assert !Bit(w.mask, i); }
      }
    }
  }

  lemma EmptyTracks()
    ensures Tracks(Window(0, 0), {})
  {
    forall i: nat ensures !Bit(0, i) { BitOfZero(i); }
  }

  /** DTLS1_BITMAP */
  class Bitmap {
    var mask: nat
    var maxSeqNum: nat

    function Value(): Window
      reads this
    {
      Window(mask, maxSeqNum)
    }

    constructor ()
      ensures Value() == Window(0, 0)
    {
      mask, maxSeqNum := 0, 0;
    }

    method Reset()
      modifies this
      ensures Value() == Window(0, 0)
    {
      mask, maxSeqNum := 0, 0;
    }

    /** dtls1_bitmap_should_discard */
    method ShouldDiscard(seqNum: seq<byte>) returns (discard: bool)
      requires |seqNum| == 8
      ensures discard <==> Discards(Value(), BigEndian(seqNum))
    {
      hide Bit;
      var n := ToU64(seqNum);
      if n > maxSeqNum {
        return false;
      }
      var idx := maxSeqNum - n;
      return idx >= WINDOW || Bit(mask, idx);
    }

    /** dtls1_bitmap_record */
    method Record(seqNum: seq<byte>)
      requires |seqNum| == 8
      modifies this
      ensures Value() == Recorded(old(Value()), BigEndian(seqNum))
    {
      hide Or, Shl64;
      var n := ToU64(seqNum);
      if n > maxSeqNum {
        var shift := n - maxSeqNum;
        if shift >= WINDOW {
          mask := 0;
        } else {
          mask := Shl64(mask, shift);
        }
        maxSeqNum := n;
      }
      var idx := maxSeqNum - n;
      if idx < WINDOW {
        mask := Or(mask, Shl64(1, idx));
      }
    }
  }
}
