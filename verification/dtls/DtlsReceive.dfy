/**
 * d1_both.cc, receiving: the ring of seven incoming messages, indexed by sequence number
 * modulo seven, and the handling of handshake records.
 */
module DtlsReceive {
  import opened Bits
  import opened Reassembly

  const FLIGHT: nat := 7

  datatype Option<+T> = None | Some(value: T)

  // ---------------------------------------------------------------- the ring, as a value

  /** handshake_read_seq, incoming_messages and has_change_cipher_spec. */
  datatype Rx = Rx(readSeq: nat, slots: seq<Option<Partial>>, ccs: bool)

  const NoMessages := Rx(0, [None, None, None, None, None, None, None], false)

  /** A filled slot holds one of the next seven messages, the one its index stands for. */
  predicate InWindow(readSeq: nat, i: nat, p: Partial) {
    p.seqNo % FLIGHT == i && readSeq <= p.seqNo < readSeq + FLIGHT && p.seqNo < U16 && p.len < U24
  }

  predicate RingOk(rx: Rx) {
    && |rx.slots| == FLIGHT && rx.readSeq < U16
    && forall i :: 0 <= i < FLIGHT && rx.slots[i].Some? ==> InWindow(rx.readSeq, i, rx.slots[i].value)
  }

  /** SSL_AD_INTERNAL_ERROR, ILLEGAL_PARAMETER, UNEXPECTED_MESSAGE, DECODE_ERROR */
  datatype Alert = InternalError | IllegalParameter | UnexpectedMessage | DecodeError

  datatype Handled = Handled(rx: Rx, error: Option<Alert>)

  /** dtls1_get_incoming_message: the message a fragment belongs to, created at its first fragment. */
  function Incoming(rx: Rx, h: Header): (p: Option<Partial>)
    requires RingOk(rx)
  {
    if h.seqNo < rx.readSeq || h.seqNo - rx.readSeq >= FLIGHT then None
    else
      match rx.slots[h.seqNo % FLIGHT]
      case None => Some(Partial(h.kind, h.seqNo, h.len, map[]))
      case Some(p) => if p.kind == h.kind && p.len == h.len then Some(p) else None
  }

  function IncomingAlert(rx: Rx, h: Header): Alert {
    if h.seqNo < rx.readSeq || h.seqNo - rx.readSeq >= FLIGHT then InternalError else IllegalParameter
  }

  predicate Oversized(h: Header, maxLen: nat) {
    h.off > h.len || h.off + h.fragLen > h.len || h.len > maxLen
  }

  /** One fragment of a handshake record. */
  function HandleFragment(rx: Rx, epoch: nat, maxLen: nat, h: Header, body: seq<byte>): Handled
    requires RingOk(rx)
  {
    if Oversized(h, maxLen) then Handled(rx, Some(IllegalParameter))
    else if epoch == 1 && h.seqNo != rx.readSeq then Handled(rx, Some(UnexpectedMessage))
    else if h.seqNo < rx.readSeq || h.seqNo > rx.readSeq + FLIGHT then Handled(rx, None)
    else
      match Incoming(rx, h)
      case None => Handled(rx, Some(IncomingAlert(rx, h)))
      case Some(p) =>
        var q := if Complete(p) then p else p.(bytes := Laid(p.bytes, h.off, body));
        Handled(rx.(slots := rx.slots[h.seqNo % FLIGHT := Some(q)]), None)
  }

  /** A fragment cut off the front of a record. */
  datatype Cut = Cut(h: Header, body: seq<byte>, rest: seq<byte>)

  function U24At(b: seq<byte>, i: nat): (n: nat)
    requires i + 3 <= |b|
    ensures n < U24
  {
    0x1_0000 * (b[i] as nat) + 0x100 * (b[i + 1] as nat) + b[i + 2]
  }

  /** dtls1_parse_fragment */
  function ParseFragment(b: seq<byte>): (c: Option<Cut>)
    ensures c.Some? ==> HeaderFits(c.value.h) && |c.value.body| == c.value.h.fragLen && |c.value.rest| < |b|
  {
    if |b| < HM_HEADER then None
    else
      var h := Header(b[0], U24At(b, 1), 0x100 * (b[4] as nat) + b[5], U24At(b, 6), U24At(b, 9));
      if |b| < HM_HEADER + h.fragLen then None
      else Some(Cut(h, b[HM_HEADER..HM_HEADER + h.fragLen], b[HM_HEADER + h.fragLen..]))
  }

  /** The fragments of a handshake record, in order, up to the first error. */
  function HandleRecord(rx: Rx, epoch: nat, maxLen: nat, b: seq<byte>): (r: Handled)
    requires RingOk(rx)
    ensures RingOk(r.rx)
    decreases |b|
  {
    if b == [] then Handled(rx, None)
    else
      match ParseFragment(b)
      case None => Handled(rx, Some(DecodeError))
      case Some(c) =>
        var r := HandleFragment(rx, epoch, maxLen, c.h, c.body);
        HandledInRing(rx, epoch, maxLen, c.h, c.body);
        if r.error.Some? then r else HandleRecord(r.rx, epoch, maxLen, c.rest)
  }

  /** Handling a fragment keeps the ring in order; so the assertion on its sequence number holds. */
  lemma HandledInRing(rx: Rx, epoch: nat, maxLen: nat, h: Header, body: seq<byte>)
    requires RingOk(rx) && HeaderFits(h)
    ensures RingOk(HandleFragment(rx, epoch, maxLen, h, body).rx)
    ensures Incoming(rx, h).Some? ==> Incoming(rx, h).value.seqNo == h.seqNo
  {
    hide Laid, Complete;
    var i := h.seqNo % FLIGHT;
    if rx.readSeq <= h.seqNo < rx.readSeq + FLIGHT && rx.slots[i].Some? {
      OneInSeven(rx.readSeq, rx.slots[i].value.seqNo, h.seqNo);
    }
  }

  /** Among seven consecutive numbers only one has a given remainder modulo seven. */
  lemma OneInSeven(base: nat, a: nat, b: nat)
    requires base <= a < base + FLIGHT && base <= b < base + FLIGHT && a % FLIGHT == b % FLIGHT
    ensures a == b
  {
  }

  // ---------------------------------------------------------------- taking messages

  /** dtls1_is_current_message_complete */
  predicate CurrentComplete(rx: Rx)
    requires RingOk(rx)
  {
    var slot := rx.slots[rx.readSeq % FLIGHT];
    slot.Some? && Complete(slot.value)
  }

  /** dtls1_next_message; handshake_read_seq is 16 bits wide. */
  function Taken(rx: Rx): Rx
    requires RingOk(rx)
  {
    Rx((rx.readSeq + 1) % U16, rx.slots[rx.readSeq % FLIGHT := None], rx.ccs)
  }

  /** Taking a message keeps the ring in order, also where the sequence number wraps to zero. */
  lemma TakenInRing(rx: Rx)
    requires RingOk(rx)
    ensures RingOk(Taken(rx))
  {
    var next := Taken(rx);
    forall i | 0 <= i < FLIGHT && next.slots[i].Some? ensures InWindow(next.readSeq, i, next.slots[i].value) {
      var p := rx.slots[i].value;
      assert InWindow(rx.readSeq, i, p);
      assert p.seqNo != rx.readSeq;
    }
  }

  /** dtls_has_unprocessed_handshake_data */
  predicate Unprocessed(rx: Rx, hasMessage: bool)
    requires RingOk(rx)
  {
    rx.ccs || exists i :: 0 <= i < FLIGHT && rx.slots[i].Some? && !(hasMessage && i == rx.readSeq % FLIGHT)
  }

  const RT_CCS: byte := 20
  const RT_HANDSHAKE: byte := 22
  const RT_APPLICATION_DATA: byte := 23

  datatype Opened = Success | Discarded | Refused(alert: Alert)

  /** Which records are acceptable: early application data and encrypted or malformed ChangeCipherSpecs are not. */
  function OpenedAs(rx: Rx, kind: byte, record: seq<byte>, nullCipher: bool, epoch: nat, maxLen: nat): Opened
    requires RingOk(rx)
  {
    if kind == RT_HANDSHAKE then
      var error := HandleRecord(rx, epoch, maxLen, record).error;
      if error.Some? then Refused(error.value) else Success
    else if kind == RT_CCS && nullCipher then if record == [1] then Success else Refused(IllegalParameter)
    else if kind == RT_APPLICATION_DATA && !nullCipher then Discarded
    else Refused(UnexpectedMessage)
  }

  /**
   * Of the fragments beyond the window, the one seven ahead of the awaited message is an error;
   * those further ahead, and those from the past, are ignored.
   */
  lemma BeyondTheWindow(rx: Rx, epoch: nat, maxLen: nat, h: Header, body: seq<byte>)
    requires RingOk(rx) && !Oversized(h, maxLen) && epoch != 1
    requires h.seqNo < rx.readSeq || h.seqNo >= rx.readSeq + FLIGHT
    ensures HandleFragment(rx, epoch, maxLen, h, body).rx == rx
    ensures HandleFragment(rx, epoch, maxLen, h, body).error ==
              if h.seqNo == rx.readSeq + FLIGHT then Some(InternalError) else None
  {
    hide Laid, Complete;
  }

  /** What is known of the message the fragment belongs to. */
  function KnownOf(rx: Rx, seqNo: nat): Option<Partial>
    requires RingOk(rx)
  {
    rx.slots[seqNo % FLIGHT]
  }

  /**
   * Any fragment, honest or not, is refused exactly if it reaches beyond its message, announces a
   * message that is too long, comes in epoch 1 for another message than the awaited one, is
   * seven ahead, or contradicts the type or length known of its message.
   */
  lemma FragmentRefused(rx: Rx, epoch: nat, maxLen: nat, h: Header, body: seq<byte>)
    requires RingOk(rx) && HeaderFits(h) && |body| == h.fragLen
    ensures var r := HandleFragment(rx, epoch, maxLen, h, body);
            var tooLong := h.off + h.fragLen > h.len || h.len > maxLen;
            var foreign := epoch == 1 && h.seqNo != rx.readSeq;
            var contradicts := rx.readSeq <= h.seqNo < rx.readSeq + 7 && KnownOf(rx, h.seqNo).Some?
                               && (KnownOf(rx, h.seqNo).value.kind != h.kind || KnownOf(rx, h.seqNo).value.len != h.len);
            && (r.error.Some? <==> tooLong || foreign || h.seqNo == rx.readSeq + 7 || contradicts)
            && (r.error.Some? ==> r.rx == rx)
            && (tooLong ==> r.error == Some(IllegalParameter))
            && (!tooLong && foreign ==> r.error == Some(UnexpectedMessage))
            && (!tooLong && !foreign && h.seqNo == rx.readSeq + 7 ==> r.error == Some(InternalError))
            && (!tooLong && !foreign && contradicts ==> r.error == Some(IllegalParameter))
  {
    hide Laid, Complete;
  }

  /**
   * A fragment that is not refused and belongs to one of the next seven messages adds its bytes
   * to what is known of that one, unless all of it is known, and changes nothing else.
   */
  lemma FragmentTaken(rx: Rx, epoch: nat, maxLen: nat, h: Header, body: seq<byte>, k: nat)
    requires RingOk(rx) && HeaderFits(h) && |body| == h.fragLen
    requires HandleFragment(rx, epoch, maxLen, h, body).error.None? && rx.readSeq <= h.seqNo < rx.readSeq + 7
    ensures var was := KnownOf(rx, h.seqNo);
            var r := HandleFragment(rx, epoch, maxLen, h, body).rx;
            && r.readSeq == rx.readSeq && r.ccs == rx.ccs && RingOk(r)
            && (forall i :: 0 <= i < 7 && i != h.seqNo % 7 ==> r.slots[i] == rx.slots[i])
            && KnownOf(r, h.seqNo).Some?
            && (var now := KnownOf(r, h.seqNo).value;
                && now.kind == h.kind && now.seqNo == h.seqNo && now.len == h.len
                && (was.Some? && Complete(was.value) ==> now == was.value)
                && (!(was.Some? && Complete(was.value)) && h.off <= k < h.off + h.fragLen ==>
                      k in now.bytes && now.bytes[k] == body[k - h.off])
                && (!(h.off <= k < h.off + h.fragLen) ==>
                      (k in now.bytes <==> was.Some? && k in was.value.bytes)
                      && (k in now.bytes ==> now.bytes[k] == was.value.bytes[k])))
  {
    hide Complete, Laid;
    HandledInRing(rx, epoch, maxLen, h, body);
    NothingComplete(h.kind, h.seqNo, h.len);
    LaidAt(map[], h.off, body, k);
    if rx.slots[h.seqNo % FLIGHT].Some? { LaidAt(rx.slots[h.seqNo % FLIGHT].value.bytes, h.off, body, k); }
    if rx.slots[h.seqNo % FLIGHT].Some? { OneInSeven(rx.readSeq, rx.slots[h.seqNo % FLIGHT].value.seqNo, h.seqNo); }
  }

  lemma LaidAt(bytes: map<nat, byte>, off: nat, body: seq<byte>, k: nat)
    ensures var now := Laid(bytes, off, body);
            if off <= k < off + |body| then k in now && now[k] == body[k - off]
            else (k in now <==> k in bytes) && (k in now ==> now[k] == bytes[k])
  {
  }

  /** Of a message of which nothing is known all is known only if it has no body. */
  lemma NothingComplete(kind: byte, seqNo: nat, len: nat)
    ensures Complete(Partial(kind, seqNo, len, map[])) <==> len == 0
  {
    var none: map<nat, byte> := map[];
    if len > 0 { assert 0 !in none; }
  }

  // ---------------------------------------------------------------- the ring, in place

  /** The receiving half of DTLS1_STATE. */
  class Receiver {
    var incoming: seq<HmFragment?>
    var readSeq: nat
    var ccs: bool
    var hasMessage: bool
    ghost var Repr: set<object>

    ghost predicate Valid()
      reads this, Repr
    {
      && this in Repr && |incoming| == FLIGHT && readSeq < U16
      && (forall i :: 0 <= i < FLIGHT && incoming[i] != null ==>
            incoming[i] in Repr && incoming[i].Repr() <= Repr && incoming[i].Valid()
            && InWindow(readSeq, i, incoming[i].View()))
      && (forall i, j :: 0 <= i < j < FLIGHT && incoming[i] != null && incoming[j] != null ==>
            incoming[i].Repr() !! incoming[j].Repr())
    }

    ghost function SlotView(i: nat): Option<Partial>
      requires Valid() && i < FLIGHT
      reads this, Repr
    {
      if incoming[i] == null then None else Some(incoming[i].View())
    }

    ghost function View(): (rx: Rx)
      requires Valid()
      reads this, Repr
      ensures RingOk(rx)
    {
      Rx(readSeq, seq(FLIGHT, i requires 0 <= i < FLIGHT && Valid() reads this, Repr => SlotView(i)), ccs)
    }

    constructor ()
      ensures Valid() && View() == NoMessages && fresh(Repr)
    {
      incoming := seq(FLIGHT, _ => null);
      readSeq, ccs, hasMessage := 0, false, false;
      Repr := {this};
    }

    /** dtls1_get_incoming_message */
    method GetIncoming(h: Header) returns (frag: HmFragment?, alert: Alert)
      requires Valid() && HeaderFits(h)
      modifies this`Repr, this`incoming
      ensures Valid() && fresh(Repr - old(Repr))
      ensures readSeq == old(readSeq) && ccs == old(ccs) && hasMessage == old(hasMessage)
      ensures frag == null <==> Incoming(old(View()), h).None?
      ensures frag == null ==> View() == old(View()) && alert == IncomingAlert(old(View()), h)
      ensures frag != null ==>
                && incoming[h.seqNo % FLIGHT] == frag
                && View().slots == old(View()).slots[h.seqNo % FLIGHT := Some(frag.View())]
                && frag.View() == Incoming(old(View()), h).value
    {
      hide HmFragment.Valid, HmFragment.View, HeaderBytes;
      alert := InternalError;
      if h.seqNo < readSeq || h.seqNo - readSeq >= FLIGHT {
        return null, alert;
      }
      var idx := h.seqNo % FLIGHT;
      frag := incoming[idx];
      if frag != null {
        OneInSeven(readSeq, frag.View().seqNo, h.seqNo);
        assert frag.seqNo == h.seqNo;
        if frag.kind != h.kind || frag.msgLen != h.len {
          return null, IllegalParameter;
        }
        assert View().slots == old(View()).slots[idx := Some(frag.View())];
        return;
      }
      frag := NewIncoming(h);
    }

    /** The first fragment of a message creates its entry. */
    method NewIncoming(h: Header) returns (frag: HmFragment)
      requires Valid() && HeaderFits(h) && readSeq <= h.seqNo < readSeq + FLIGHT && incoming[h.seqNo % FLIGHT] == null
      modifies this`Repr, this`incoming
      ensures Valid() && fresh(Repr - old(Repr))
      ensures incoming[h.seqNo % FLIGHT] == frag && frag.View() == Partial(h.kind, h.seqNo, h.len, map[])
      ensures View().slots == old(View()).slots[h.seqNo % FLIGHT := Some(frag.View())]
    {
      hide HmFragment.Valid, HmFragment.View, HeaderBytes, Complete;
      var idx := h.seqNo % FLIGHT;
      frag := new HmFragment.New(h);
      incoming := incoming[idx := frag];
      Repr := Repr + frag.Repr();
      assert View().slots == old(View()).slots[idx := Some(frag.View())];
    }

    /** One turn of the loop of dtls1_open_handshake. */
    method HandleOne(epoch: nat, maxLen: nat, h: Header, body: seq<byte>) returns (error: Option<Alert>)
      requires Valid() && HeaderFits(h) && |body| == h.fragLen
      modifies Repr
      ensures Valid() && fresh(Repr - old(Repr)) && hasMessage == old(hasMessage)
      ensures Handled(View(), error) == HandleFragment(old(View()), epoch, maxLen, h, body)
    {
      hide HmFragment.Valid, HmFragment.View, HeaderBytes, Laid, Complete;
      if h.off > h.len || h.off + h.fragLen > h.len || h.len > maxLen {
        return Some(IllegalParameter);
      }
      if epoch == 1 && h.seqNo != readSeq {
        return Some(UnexpectedMessage);
      }
      if h.seqNo < readSeq || h.seqNo > readSeq + FLIGHT {
        return None;
      }
      ghost var before := View();
      var frag, alert := GetIncoming(h);
      if frag == null {
        return Some(alert);
      }
      if frag.reassembly == null {
        return None;
      }
      FillSlot(frag, h, body);
      return None;
    }

    /** Filling the message of one slot leaves the other slots alone. */
    method FillSlot(frag: HmFragment, h: Header, body: seq<byte>)
      requires Valid() && incoming[h.seqNo % FLIGHT] == frag && frag.reassembly != null && h.off + |body| <= frag.msgLen
      modifies frag`reassembly, frag.reassembly, frag.data
      ensures Valid()
      ensures View() == old(View()).(slots := old(View()).slots[h.seqNo % FLIGHT :=
                Some(old(frag.View()).(bytes := Laid(old(frag.View()).bytes, h.off, body)))])
    {
      hide HmFragment.Valid, HmFragment.View, HeaderBytes, Laid;
      frag.Fill(h.off, body);
      assert View().slots == old(View()).slots[h.seqNo % FLIGHT := Some(frag.View())];
    }

    /** The handshake branch of dtls1_open_handshake. */
    method OpenRecord(epoch: nat, maxLen: nat, record: seq<byte>) returns (error: Option<Alert>)
      requires Valid()
      modifies Repr
      ensures Valid() && fresh(Repr - old(Repr)) && hasMessage == old(hasMessage)
      ensures Handled(View(), error) == HandleRecord(old(View()), epoch, maxLen, record)
    {
      hide HandleFragment;
      var cbs := record;
      while cbs != []
        invariant Valid() && fresh(Repr - old(Repr)) && hasMessage == old(hasMessage)
        invariant HandleRecord(old(View()), epoch, maxLen, record) == HandleRecord(View(), epoch, maxLen, cbs)
        decreases |cbs|
      {
        var c := ParseFragment(cbs);
        if c.None? {
          return Some(DecodeError);
        }
        error := HandleOne(epoch, maxLen, c.value.h, c.value.body);
        if error.Some? {
          return;
        }
        cbs := c.value.rest;
      }
      return None;
    }

    /** dtls1_open_handshake, after dtls_open_record has opened the record. */
    method OpenHandshake(kind: byte, record: seq<byte>, nullCipher: bool, epoch: nat, maxLen: nat)
      returns (ret: Opened)
      requires Valid()
      modifies Repr
      ensures Valid() && fresh(Repr - old(Repr)) && hasMessage == old(hasMessage)
      ensures ret == OpenedAs(old(View()), kind, record, nullCipher, epoch, maxLen)
      ensures kind == RT_HANDSHAKE ==> View() == HandleRecord(old(View()), epoch, maxLen, record).rx
      ensures kind == RT_CCS ==> View() == old(View()).(ccs := old(View()).ccs || ret.Success?)
      ensures kind != RT_HANDSHAKE && kind != RT_CCS ==> View() == old(View())
    {
      hide HmFragment.View, HmFragment.Valid, HandleRecord;
      if kind == RT_APPLICATION_DATA {
        return if nullCipher then Refused(UnexpectedMessage) else Discarded;
      }
      if kind == RT_CCS {
        if !nullCipher {
          return Refused(UnexpectedMessage);
        }
        if record != [1] {
          return Refused(IllegalParameter);
        }
        ccs := true;
        assert View().slots == old(View()).slots;
        return Success;
      }
      if kind != RT_HANDSHAKE {
        return Refused(UnexpectedMessage);
      }
      var error := OpenRecord(epoch, maxLen, record);
      return if error.Some? then Refused(error.value) else Success;
    }

    /** dtls1_open_change_cipher_spec, given what dtls1_open_handshake made of the next record. */
    method TakeChangeCipherSpec() returns (taken: bool)
      requires Valid()
      modifies this`ccs
      ensures Valid() && taken == old(ccs) && !ccs && View() == old(View()).(ccs := false)
    {
      hide HmFragment.View, HmFragment.Valid;
      taken := ccs;
      ccs := false;
      assert View().slots == old(View()).slots;
    }

    /** dtls1_get_message */
    method GetMessage() returns (ok: bool, kind: byte, body: seq<byte>, raw: seq<byte>)
      requires Valid()
      modifies this`hasMessage
      ensures Valid() && View() == old(View())
      ensures ok <==> CurrentComplete(View())
      ensures ok ==> hasMessage
      ensures ok ==> var p := View().slots[readSeq % FLIGHT].value;
                     kind == p.kind && raw == RawOf(p) && body == RawOf(p)[HM_HEADER..]
      ensures !ok ==> hasMessage == old(hasMessage)
    {
      hide HmFragment.Valid, HmFragment.View, HeaderBytes, RawOf, Complete;
      kind, body, raw := 0, [], [];
      var frag := incoming[readSeq % FLIGHT];
      ok := frag != null && frag.reassembly == null;
      if ok {
        kind := frag.kind;
        raw := frag.Raw();
        body := raw[HM_HEADER..];
        hasMessage := true;
      }
    }

    /** dtls1_next_message */
    method NextMessage()
      requires Valid() && hasMessage && CurrentComplete(View())
      modifies this
      ensures Valid() && Repr == old(Repr) && !hasMessage
      ensures View() == Taken(old(View()))
    {
      hide HmFragment.Valid, HmFragment.View, HeaderBytes, Complete;
      TakenInRing(View());
      ghost var before := View();
      incoming := incoming[readSeq % FLIGHT := null];
      readSeq := (readSeq + 1) % U16;
      hasMessage := false;
      assert forall i :: 0 <= i < FLIGHT && incoming[i] != null ==> Taken(before).slots[i] == Some(incoming[i].View());
      assert View().slots == Taken(before).slots;
    }

    /** dtls_has_unprocessed_handshake_data */
    method HasUnprocessed() returns (yes: bool)
      requires Valid()
      ensures yes <==> Unprocessed(View(), hasMessage)
    {
      if ccs {
        return true;
      }
      var current := readSeq % FLIGHT;
      for i := 0 to FLIGHT
        invariant forall j :: 0 <= j < i && View().slots[j].Some? ==> hasMessage && j == current
      {
        if !(hasMessage && i == current) && incoming[i] != null {
          assert View().slots[i].Some?;
          return true;
        }
      }
      return false;
    }
  }
}
