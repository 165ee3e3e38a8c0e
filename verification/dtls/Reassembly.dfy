/**
 * d1_both.cc: one incoming handshake message while its fragments arrive.  The bit mask
 * says which body bytes have been received; it is freed when all of them have.
 */
module Reassembly {
  import opened Bits

  const HM_HEADER: nat := 12
  const U16: nat := 0x1_0000
  const U24: nat := 0x100_0000

  // ---------------------------------------------------------------- mask bytes

  /** bit_range, computed in an unsigned register and cut to eight bits. */
  function BitRange(start: nat, end: nat): bv8
    requires start <= 8 && end <= 8
  {
    (!(((1 as bv16) << start) - 1) & (((1 as bv16) << end) - 1) & 0xFF) as bv8
  }

  predicate IsSet(w: bv8, k: nat)
    requires k < 8
  {
    w & ((1 as bv8) << k) != 0
  }

  lemma UpToEight(k: nat)
    requires k <= 8
    ensures k == 0 || k == 1 || k == 2 || k == 3 || k == 4 || k == 5 || k == 6 || k == 7 || k == 8
  {
  }

  /** bit_range sets the bits from `start` up to, not including, `end`. */
  lemma RangeSets(start: nat, end: nat, k: nat)
    requires start <= 8 && end <= 8 && k < 8
    ensures IsSet(BitRange(start, end), k) <==> start <= k < end
  {
    UpToEight(start);
    UpToEight(end);
    UpToEight(k);
  }

  lemma OrSets(v: bv8, w: bv8, k: nat)
    requires k < 8
    ensures IsSet(v | w, k) <==> IsSet(v, k) || IsSet(w, k)
  {
    UpToEight(k);
  }

  lemma SameBits(v: bv8, w: bv8)
    requires forall k: nat :: k < 8 ==> (IsSet(v, k) <==> IsSet(w, k))
    ensures v == w
  {
    assert IsSet(v, 0) == IsSet(w, 0) && IsSet(v, 1) == IsSet(w, 1) && IsSet(v, 2) == IsSet(w, 2) && IsSet(v, 3) == IsSet(w, 3);
    assert IsSet(v, 4) == IsSet(w, 4) && IsSet(v, 5) == IsSet(w, 5) && IsSet(v, 6) == IsSet(w, 6) && IsSet(v, 7) == IsSet(w, 7);
  }

  /** A byte has its low `n` bits set and no other exactly when it is bit_range(0, n). */
  lemma LowBits(w: bv8, n: nat)
    requires n <= 8 && forall k: nat :: n <= k < 8 ==> !IsSet(w, k)
    ensures w == BitRange(0, n) ==> forall k: nat :: k < n ==> IsSet(w, k)
    ensures (forall k: nat :: k < n ==> IsSet(w, k)) ==> w == BitRange(0, n)
  {
    hide IsSet, BitRange;
    forall k: nat | k < 8 ensures IsSet(BitRange(0, n), k) <==> k < n { RangeSets(0, n, k); }
    if forall k: nat :: k < n ==> IsSet(w, k) { SameBits(w, BitRange(0, n)); }
  }

  lemma WholeByte(w: bv8)
    ensures BitRange(0, 8) == 0xFF && w | 0xFF == 0xFF && w | 0 == w
  {
  }

  lemma EmptyRange(n: nat)
    requires n <= 8
    ensures BitRange(n, n) == 0
  {
    UpToEight(n);
  }

  // ---------------------------------------------------------------- masks

  predicate MaskBit(mask: seq<bv8>, k: nat)
    requires k < 8 * |mask|
  {
    IsSet(mask[k / 8], k % 8)
  }

  function Clamp(x: int): (c: nat)
    ensures c <= 8
  {
    if x < 0 then 0 else if x > 8 then 8 else x
  }

  /** What marking [start, end) contributes to byte `i` of the mask. */
  function Share(start: nat, end: nat, i: nat): bv8 {
    BitRange(Clamp(start - 8 * i), Clamp(end - 8 * i))
  }

  lemma ShareSets(was: seq<bv8>, now: seq<bv8>, start: nat, end: nat, k: nat)
    requires start <= end && |was| == |now| && k < 8 * |was|
    requires now[k / 8] == was[k / 8] | Share(start, end, k / 8)
    ensures MaskBit(now, k) <==> MaskBit(was, k) || start <= k < end
  {
    hide IsSet, BitRange;
    var i, j := k / 8, k % 8;
    OrSets(was[i], Share(start, end, i), j);
    RangeSets(Clamp(start - 8 * i), Clamp(end - 8 * i), j);
  }

  lemma Untouched(w: bv8, start: nat, end: nat, i: nat)
    requires start <= end && (i < start / 8 || i > end / 8 || (i == end / 8 && end % 8 == 0))
    ensures w | Share(start, end, i) == w
  {
    hide BitRange;
    WholeByte(w);
    EmptyRange(0);
    EmptyRange(8);
  }

  lemma Inner(w: bv8, start: nat, end: nat, i: nat)
    requires start / 8 < i < end / 8
    ensures w | Share(start, end, i) == 0xFF
  {
    hide BitRange;
    WholeByte(w);
  }

  lemma Edges(start: nat, end: nat)
    requires start <= end
    ensures start / 8 < end / 8 ==> Share(start, end, start / 8) == BitRange(start % 8, 8)
    ensures start / 8 < end / 8 ==> Share(start, end, end / 8) == BitRange(0, end % 8)
    ensures start / 8 == end / 8 ==> Share(start, end, start / 8) == BitRange(start % 8, end % 8)
  {
    hide BitRange;
  }

  /** The marking part of dtls1_hm_fragment_mark. */
  method SetRange(mask: array<bv8>, start: nat, end: nat)
    requires start < end <= 8 * mask.Length
    modifies mask
    ensures forall k: nat :: k < 8 * mask.Length ==>
              (MaskBit(mask[..], k) <==> MaskBit(old(mask[..]), k) || start <= k < end)
  {
    hide Share, MaskBit, BitRange;
    ghost var was := mask[..];
    Edges(start, end);
    if start / 8 == end / 8 {
      mask[start / 8] := mask[start / 8] | BitRange(start % 8, end % 8);
    } else {
      mask[start / 8] := mask[start / 8] | BitRange(start % 8, 8);
      for i := start / 8 + 1 to end / 8
        invariant forall j :: start / 8 <= j < i ==> mask[j] == was[j] | Share(start, end, j)
        invariant forall j :: 0 <= j < mask.Length && (j < start / 8 || j >= i) ==> mask[j] == was[j]
      {
        Inner(was[i], start, end, i);
        mask[i] := 0xFF;
      }
      if end % 8 != 0 {
        mask[end / 8] := mask[end / 8] | BitRange(0, end % 8);
      }
    }
    forall k: nat | k < 8 * mask.Length
      ensures MaskBit(mask[..], k) <==> MaskBit(was, k) || start <= k < end
    {
      var i := k / 8;
      if i < start / 8 || i > end / 8 || (i == end / 8 && end % 8 == 0) { Untouched(was[i], start, end, i); }
      ShareSets(was, mask[..], start, end, k);
    }
  }

  /** The completeness check of dtls1_hm_fragment_mark. */
  method AllSet(mask: array<bv8>, n: nat) returns (complete: bool)
    requires mask.Length == (n + 7) / 8
    requires forall k: nat :: n <= k < 8 * mask.Length ==> !MaskBit(mask[..], k)
    ensures complete <==> forall k: nat :: k < n ==> MaskBit(mask[..], k)
  {
    hide IsSet, BitRange;
    WholeByte(0);
    for i := 0 to n / 8
      invariant forall k: nat :: k < 8 * i ==> MaskBit(mask[..], k)
    {
      LowBits(mask[i], 8);
      if mask[i] != 0xFF {
        var k: nat :| k < 8 && !IsSet(mask[i], k);
        assert !MaskBit(mask[..], 8 * i + k);
        return false;
      }
      forall k: nat | k < 8 * (i + 1) ensures MaskBit(mask[..], k) {
        if k >= 8 * i { assert IsSet(mask[i], k - 8 * i); }
      }
    }
    if n % 8 != 0 {
      var i, r := n / 8, n % 8;
      forall k: nat | r <= k < 8 ensures !IsSet(mask[i], k) { assert !MaskBit(mask[..], 8 * i + k); }
      LowBits(mask[i], r);
      if mask[i] != BitRange(0, r) {
        var k: nat :| k < r && !IsSet(mask[i], k);
        assert !MaskBit(mask[..], 8 * i + k);
        return false;
      }
      forall k: nat | k < n ensures MaskBit(mask[..], k) {
        if k >= 8 * i { assert IsSet(mask[i], k - 8 * i); }
      }
    }
    return true;
  }

  // ---------------------------------------------------------------- messages

  /** hm_header_st */
  datatype Header = Header(kind: byte, len: nat, seqNo: nat, off: nat, fragLen: nat)

  predicate HeaderFits(h: Header) {
    h.len < U24 && h.seqNo < U16 && h.off < U24 && h.fragLen < U24
  }

  function U24Bytes(n: nat): seq<byte>
    requires n < U24
  {
    [n / 0x1_0000, n / 0x100 % 0x100, n % 0x100]
  }

  /** The twelve header bytes as CBB writes them. */
  function HeaderBytes(h: Header): (b: seq<byte>)
    requires HeaderFits(h)
    ensures |b| == HM_HEADER
  {
    [h.kind] + U24Bytes(h.len) + [h.seqNo / 0x100, h.seqNo % 0x100] + U24Bytes(h.off) + U24Bytes(h.fragLen)
  }

  /** Type, length, message number, offset and fragment length, each with its high byte first (RFC 6347, section 4.2.2). */
  lemma HeaderFormat()
    ensures HeaderBytes(Header(1, 0x020304, 0x0506, 0x070809, 0x0A0B0C)) == [1, 2, 3, 4, 5, 6, 7, 8, 9, 10, 11, 12]
  {
  }

  /** A message of which some body bytes are known. */
  datatype Partial = Partial(kind: byte, seqNo: nat, len: nat, bytes: map<nat, byte>)

  predicate Complete(p: Partial) {
    forall k: nat :: k < p.len ==> k in p.bytes
  }

  /** The message in the form the transcript takes: as if it had come in one fragment. */
  function RawOf(p: Partial): (b: seq<byte>)
    requires p.len < U24 && p.seqNo < U16 && Complete(p)
    ensures |b| == HM_HEADER + p.len
  {
    HeaderBytes(Header(p.kind, p.len, p.seqNo, 0, p.len)) + seq(p.len, k requires 0 <= k < p.len => p.bytes[k])
  }

  /** Body byte `k` is one of the `n` bytes from `off` on. */
  predicate Covers(off: nat, n: nat, k: nat) {
    off <= k < off + n
  }

  /** Laying the fragment `body` over the known bytes. */
  function Laid(bytes: map<nat, byte>, off: nat, body: seq<byte>): map<nat, byte> {
    bytes + map k: nat | off <= k < off + |body| && Covers(off, |body|, k) :: body[k - off]
  }

  /** hm_fragment */
  class HmFragment {
    const kind: byte
    const seqNo: nat
    const msgLen: nat
    const data: array<byte>
    var reassembly: array?<bv8>

    /** The mask has no bit past the message, and is there exactly while a byte is missing. */
    ghost predicate Valid()
      reads this, data, reassembly
    {
      && msgLen < U24 && seqNo < U16
      && data.Length == HM_HEADER + msgLen
      && data[..HM_HEADER] == HeaderBytes(Header(kind, msgLen, seqNo, 0, msgLen))
      && (reassembly != null ==>
           && reassembly.Length == (msgLen + 7) / 8
           && (forall k: nat :: msgLen <= k < 8 * reassembly.Length ==> !MaskBit(reassembly[..], k))
           && exists k: nat :: k < msgLen && !MaskBit(reassembly[..], k))
    }

    ghost predicate Received(k: nat)
      requires Valid()
      reads this, data, reassembly
    {
      k < msgLen && (reassembly == null || MaskBit(reassembly[..], k))
    }

    ghost function View(): (p: Partial)
      requires Valid()
      reads this, data, reassembly
      ensures p.kind == kind && p.seqNo == seqNo && p.len == msgLen
      ensures forall k: nat :: k in p.bytes <==> Received(k)
      ensures Complete(p) <==> reassembly == null
    {
      var bytes := map k: nat | k < msgLen && Received(k) :: data[HM_HEADER + k];
      assert reassembly != null ==> exists k: nat :: k < msgLen && k !in bytes by {
        if reassembly != null {
          var k: nat :| k < msgLen && !MaskBit(reassembly[..], k);
          assert k !in bytes;
        }
      }
      Partial(kind, seqNo, msgLen, bytes)
    }

    ghost function Repr(): set<object>
      reads this
    {
      {this, data} + if reassembly == null then {} else {reassembly}
    }

    /** dtls1_hm_fragment_new */
    constructor New(h: Header)
      requires h.len < U24 && h.seqNo < U16
      ensures Valid() && View() == Partial(h.kind, h.seqNo, h.len, map[])
      ensures fresh(data) && (reassembly == null || fresh(reassembly)) && (h.len > 0 ==> reassembly != null)
    {
      hide HeaderBytes, IsSet;
      kind, seqNo, msgLen := h.kind, h.seqNo, h.len;
      var header := HeaderBytes(Header(h.kind, h.len, h.seqNo, 0, h.len));
      var bytes := new byte[HM_HEADER + h.len];
      forall i | 0 <= i < HM_HEADER {
        bytes[i] := header[i];
      }
      assert bytes[..HM_HEADER] == header;
      data := bytes;
      if h.len > 0 {
        var mask := new bv8[(h.len + 7) / 8](_ => 0);
        ZeroMask(mask[..]);
        reassembly := mask;
        assert !MaskBit(mask[..], 0);
      } else {
        reassembly := null;
      }
      new;
      assert View().bytes == map[];
    }

    /**
     * dtls1_hm_fragment_mark: exactly [start, end) is added to what has been received, and
     * the mask is freed exactly when nothing is missing any more.
     */
    method Mark(start: nat, end: nat)
      requires Valid() && reassembly != null && start <= end <= msgLen
      modifies this`reassembly, reassembly
      ensures Valid() && (reassembly == old(reassembly) || reassembly == null)
      ensures forall k: nat :: Received(k) <==> old(Received(k)) || start <= k < end
      ensures reassembly == null <==> forall k: nat :: k < msgLen ==> old(Received(k)) || start <= k < end
    {
      hide MaskBit, HeaderBytes;
      if start == end {
        ghost var missing: nat :| missing < msgLen && !MaskBit(reassembly[..], missing);
        assert !old(Received(missing));
        return;
      }
      var mask: array<bv8> := reassembly;
      ghost var was := mask[..];
      assert forall k: nat :: old(Received(k)) <==> k < msgLen && MaskBit(was, k);
      SetRange(mask, start, end);
      assert forall k: nat :: k < msgLen ==> (MaskBit(mask[..], k) <==> MaskBit(was, k) || start <= k < end);
      var complete := AllSet(mask, msgLen);
      if complete {
        reassembly := null;
      } else {
        ghost var missing: nat :| missing < msgLen && !MaskBit(mask[..], missing);
        assert !old(Received(missing));
      }
    }

    /** The header and body of a complete message, as dtls1_get_message hands them out. */
    method Raw() returns (raw: seq<byte>)
      requires Valid() && reassembly == null
      ensures raw == RawOf(View())
    {
      hide HeaderBytes;
      raw := data[..];
      assert raw == RawOf(View());
    }

    /** The end of the loop of dtls1_open_handshake: copy the body and mark it. */
    method Fill(off: nat, body: seq<byte>)
      requires Valid() && reassembly != null && off + |body| <= msgLen
      modifies this`reassembly, reassembly, data
      ensures Valid() && (reassembly == old(reassembly) || reassembly == null)
      ensures View() == old(View()).(bytes := Laid(old(View()).bytes, off, body))
    {
      hide MaskBit, HeaderBytes;
      forall i | 0 <= i < |body| {
        data[HM_HEADER + off + i] := body[i];
      }
      assert data[..HM_HEADER] == old(data[..HM_HEADER]) && reassembly[..] == old(reassembly[..]);
      Mark(off, off + |body|);
      ghost var now, was := View().bytes, old(View()).bytes;
      forall k: nat ensures k in now <==> k in Laid(was, off, body) {
      }
      assert now == Laid(was, off, body);
    }
  }

  lemma ZeroMask(mask: seq<bv8>)
    requires forall i :: 0 <= i < |mask| ==> mask[i] == 0
    ensures forall k: nat :: k < 8 * |mask| ==> !MaskBit(mask, k)
  {
  }
}
