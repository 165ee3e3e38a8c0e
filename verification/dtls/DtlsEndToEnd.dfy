/**
 * An honest sender and a receiver over a network that loses, repeats and reorders records
 * (RFC 6347, sections 4.2.3, 4.2.4 and 4.2.6).  Retransmissions may cut the messages anew.
 */
module DtlsEndToEnd {
  import opened Bits
  import opened Reassembly
  import opened DtlsReceive
  import DtlsSend

  // ---------------------------------------------------------------- messages on the wire

  datatype Msg = Msg(kind: byte, body: seq<byte>)

  /** The header of the whole of message number `i`. */
  function HeaderOf(sent: seq<Msg>, i: nat): (h: Header)
    requires i < |sent| && i < U16 && |sent[i].body| < U24
    ensures HeaderFits(h)
  {
    Header(sent[i].kind, |sent[i].body|, i, 0, |sent[i].body|)
  }

  predicate SizesOk(sent: seq<Msg>, maxLen: nat) {
    |sent| < U16 && maxLen < U24 && forall m :: m in sent ==> |m.body| <= maxLen
  }

  /** A fragment of message `i`: any cut the sender may make. */
  datatype Piece = Piece(i: nat, off: nat, n: nat)

  predicate PieceOf(sent: seq<Msg>, p: Piece) {
    p.i < |sent| && p.off + p.n <= |sent[p.i].body|
  }

  function Payload(sent: seq<Msg>, p: Piece): seq<byte>
    requires |sent| < U16 && PieceOf(sent, p) && |sent[p.i].body| < U24
  {
    DtlsSend.FragmentOf(HeaderOf(sent, p.i), sent[p.i].body, p.off, p.n)
  }

  /** What the sender's transcript holds: every message as if it had not been fragmented. */
  function Transcript(sent: seq<Msg>, n: nat): seq<seq<byte>>
    requires n <= |sent| < U16 && forall m :: m in sent ==> |m.body| < U24
  {
    if n == 0 then [] else Transcript(sent, n - 1) + [DtlsSend.Raw(sent[n - 1].kind, n - 1, sent[n - 1].body)]
  }

  // ---------------------------------------------------------------- reading a piece back

  lemma U24RoundTrip(n: nat, b: seq<byte>, i: nat)
    requires n < U24 && i + 3 <= |b| && b[i..i + 3] == U24Bytes(n)
    ensures U24At(b, i) == n
  {
    assert b[i] == b[i..i + 3][0] && b[i + 1] == b[i..i + 3][1] && b[i + 2] == b[i..i + 3][2];
  }

  /** The receiver reads the header and the bytes the sender wrote. */
  lemma ParsesBack(h: Header, body: seq<byte>, rest: seq<byte>)
    requires HeaderFits(h) && |body| == h.fragLen
    ensures ParseFragment(HeaderBytes(h) + body + rest) == Some(Cut(h, body, rest))
  {
    hide U24At;
    var b := HeaderBytes(h) + body + rest;
    assert b[..HM_HEADER] == HeaderBytes(h);
    assert b[1..4] == HeaderBytes(h)[1..4] == U24Bytes(h.len);
    assert b[6..9] == HeaderBytes(h)[6..9] == U24Bytes(h.off);
    assert b[9..12] == HeaderBytes(h)[9..12] == U24Bytes(h.fragLen);
    U24RoundTrip(h.len, b, 1);
    U24RoundTrip(h.off, b, 6);
    U24RoundTrip(h.fragLen, b, 9);
    assert b[0] == HeaderBytes(h)[0] && b[4] == HeaderBytes(h)[4] && b[5] == HeaderBytes(h)[5];
    assert b[HM_HEADER..HM_HEADER + h.fragLen] == body && b[HM_HEADER + h.fragLen..] == rest;
  }

  /** The fragments of a record are handled in turn; the first error ends it, and what came before it stays. */
  lemma FragmentsInTurn(rx: Rx, epoch: nat, maxLen: nat, h: Header, body: seq<byte>, rest: seq<byte>)
    requires RingOk(rx) && HeaderFits(h) && |body| == h.fragLen
    ensures var r := HandleFragment(rx, epoch, maxLen, h, body);
            && RingOk(r.rx)
            && HandleRecord(rx, epoch, maxLen, HeaderBytes(h) + body + rest) ==
                 if r.error.Some? then r else HandleRecord(r.rx, epoch, maxLen, rest)
  {
    hide HeaderBytes, ParseFragment, HandleFragment;
    ParsesBack(h, body, rest);
    HandledInRing(rx, epoch, maxLen, h, body);
  }

  /** A record that breaks off in a header or a fragment is refused. */
  lemma BrokenRecordRefused(rx: Rx, epoch: nat, maxLen: nat, b: seq<byte>)
    requires RingOk(rx) && b != []
    requires |b| < 12 || |b| < 12 + 0x1_0000 * (b[9] as nat) + 0x100 * (b[10] as nat) + b[11]
    ensures HandleRecord(rx, epoch, maxLen, b) == Handled(rx, Some(DecodeError))
  {
  }

  // ---------------------------------------------------------------- the invariant of the receiver

  /** What is known of a message is true of the message the sender sent under its number. */
  ghost predicate Faithful(sent: seq<Msg>, p: Partial) {
    && p.seqNo < |sent| && p.kind == sent[p.seqNo].kind && p.len == |sent[p.seqNo].body|
    && forall k: nat :: k in p.bytes ==> k < p.len && p.bytes[k] == sent[p.seqNo].body[k]
  }

  ghost predicate FaithfulRx(sent: seq<Msg>, rx: Rx) {
    RingOk(rx) && forall i :: 0 <= i < FLIGHT && rx.slots[i].Some? ==> Faithful(sent, rx.slots[i].value)
  }

  lemma LaidFaithful(sent: seq<Msg>, p: Partial, off: nat, n: nat)
    requires Faithful(sent, p) && off + n <= p.len
    ensures Faithful(sent, p.(bytes := Laid(p.bytes, off, sent[p.seqNo].body[off..off + n])))
  {
  }

  /** A record that carries one piece is handled as that one fragment. */
  lemma PieceIsFragment(sent: seq<Msg>, rx: Rx, epoch: nat, maxLen: nat, p: Piece)
    requires SizesOk(sent, maxLen) && RingOk(rx) && PieceOf(sent, p)
    ensures HandleRecord(rx, epoch, maxLen, Payload(sent, p)) ==
              HandleFragment(rx, epoch, maxLen, PieceHeader(sent, p), PieceBody(sent, p))
  {
    hide HeaderBytes, ParseFragment, HandleFragment;
    var h, body := PieceHeader(sent, p), PieceBody(sent, p);
    ParsesBack(h, body, []);
    assert HeaderBytes(h) + body + [] == Payload(sent, p);
    HandledInRing(rx, epoch, maxLen, h, body);
  }

  function PieceHeader(sent: seq<Msg>, p: Piece): (h: Header)
    requires PieceOf(sent, p) && |sent| < U16 && |sent[p.i].body| < U24
    ensures HeaderFits(h)
  {
    Header(sent[p.i].kind, |sent[p.i].body|, p.i, p.off, p.n)
  }

  function PieceBody(sent: seq<Msg>, p: Piece): (b: seq<byte>)
    requires PieceOf(sent, p)
    ensures |b| == p.n
  {
    sent[p.i].body[p.off..p.off + p.n]
  }

  predicate PieceCovers(p: Piece, k: nat) {
    p.off <= k < p.off + p.n
  }

  /** A record carrying one honest piece is handled without error unless it is seven ahead or epoch 1 expects another. */
  lemma PieceHandled(sent: seq<Msg>, rx: Rx, epoch: nat, maxLen: nat, p: Piece)
    requires SizesOk(sent, maxLen) && FaithfulRx(sent, rx) && PieceOf(sent, p)
    ensures var r := HandleRecord(rx, epoch, maxLen, Payload(sent, p));
            && FaithfulRx(sent, r.rx) && r.rx.readSeq == rx.readSeq
            && (r.error.Some? <==> (epoch == 1 && p.i != rx.readSeq) || p.i == rx.readSeq + FLIGHT)
  {
    hide HandleFragment, HandleRecord, FaithfulRx;
    FaithfulRing(sent, rx);
    PieceIsFragment(sent, rx, epoch, maxLen, p);
    FragmentHandled(sent, rx, epoch, maxLen, p, PieceHeader(sent, p), PieceBody(sent, p));
  }

  lemma FaithfulRing(sent: seq<Msg>, rx: Rx)
    requires FaithfulRx(sent, rx)
    ensures RingOk(rx)
  {
  }

  lemma FragmentHandled(sent: seq<Msg>, rx: Rx, epoch: nat, maxLen: nat, p: Piece, h: Header, body: seq<byte>)
    requires SizesOk(sent, maxLen) && FaithfulRx(sent, rx) && PieceOf(sent, p)
    requires h == Header(sent[p.i].kind, |sent[p.i].body|, p.i, p.off, p.n) && body == sent[p.i].body[p.off..p.off + p.n]
    ensures var r := HandleFragment(rx, epoch, maxLen, h, body);
            && FaithfulRx(sent, r.rx) && r.rx.readSeq == rx.readSeq
            && (r.error.Some? <==> (epoch == 1 && p.i != rx.readSeq) || p.i == rx.readSeq + FLIGHT)
  {
    hide Laid, Complete;
    HandledInRing(rx, epoch, maxLen, h, body);
    if rx.readSeq <= p.i < rx.readSeq + FLIGHT {
      var slot := rx.slots[p.i % FLIGHT];
      if slot.Some? { assert slot.value.seqNo == p.i by { OneInSeven(rx.readSeq, slot.value.seqNo, p.i); } }
      LaidFaithful(sent, if slot.Some? then slot.value else Partial(h.kind, h.seqNo, h.len, map[]), p.off, p.n);
    }
  }

  // ---------------------------------------------------------------- the world

  /**
   * `net` is every record payload the sender has ever put on the wire: delivery never removes
   * one, so records may be lost, repeated and reordered freely.
   */
  datatype World = World(sent: seq<Msg>, net: set<seq<byte>>, rx: Rx, epoch: nat, taken: seq<seq<byte>>, failed: bool)

  datatype Event =
    | Write(m: Msg)              // the sender adds a message to a flight
    | Transmit(p: Piece)         // the sender sends or resends a fragment, cut for the MTU of the moment
    | Deliver(record: seq<byte>) // one record of the current epoch arrives
    | Take                       // dtls1_get_message followed by dtls1_next_message
    | NextEpoch                  // dtls1_set_read_state

  const Start := World([], {}, NoMessages, 0, [], false)

  /** The event can happen. */
  predicate Enabled(w: World, maxLen: nat, e: Event) {
    match e
    case Write(m) => |w.sent| + 1 < U16 && |m.body| <= maxLen
    case Transmit(p) => PieceOf(w.sent, p)
    case Deliver(record) => record in w.net && !w.failed
    case Take => RingOk(w.rx) && CurrentComplete(w.rx) && !w.failed
    case NextEpoch => RingOk(w.rx) && !Unprocessed(w.rx, false)
  }

  function Next(w: World, maxLen: nat, e: Event): World
    requires SizesOk(w.sent, maxLen) && RingOk(w.rx) && Enabled(w, maxLen, e)
  {
    match e
    case Write(m) => w.(sent := w.sent + [m])
    case Transmit(p) => w.(net := w.net + {Payload(w.sent, p)})
    case Deliver(record) =>
      var r := HandleRecord(w.rx, w.epoch, maxLen, record);
      w.(rx := r.rx, failed := r.error.Some?)
    case Take =>
      w.(rx := Taken(w.rx), taken := w.taken + [RawOf(w.rx.slots[w.rx.readSeq % FLIGHT].value)])
    case NextEpoch => w.(epoch := w.epoch + 1)
  }

  ghost predicate OnWire(sent: seq<Msg>, record: seq<byte>)
    requires |sent| < U16 && forall m :: m in sent ==> |m.body| < U24
  {
    exists p :: PieceOf(sent, p) && record == Payload(sent, p)
  }

  ghost predicate Inv(w: World, maxLen: nat) {
    && SizesOk(w.sent, maxLen)
    && FaithfulRx(w.sent, w.rx)
    && w.rx.readSeq == |w.taken| <= |w.sent|
    && w.taken == Transcript(w.sent, |w.taken|)
    && forall record :: record in w.net ==> OnWire(w.sent, record)
  }

  lemma {:induction false} TranscriptKeeps(sent: seq<Msg>, m: Msg, n: nat)
    requires n <= |sent| && |sent| + 1 < U16 && |m.body| < U24 && forall x :: x in sent ==> |x.body| < U24
    ensures Transcript(sent + [m], n) == Transcript(sent, n)
  {
    if n > 0 { TranscriptKeeps(sent, m, n - 1); }
  }

  lemma WriteKeeps(w: World, maxLen: nat, m: Msg)
    requires Inv(w, maxLen) && Enabled(w, maxLen, Write(m))
    ensures Inv(Next(w, maxLen, Write(m)), maxLen)
  {
    hide HeaderBytes, InWindow;
    TranscriptKeeps(w.sent, m, |w.taken|);
    forall record | record in w.net ensures OnWire(w.sent + [m], record) {
      var p :| PieceOf(w.sent, p) && record == Payload(w.sent, p);
      assert PieceOf(w.sent + [m], p) && record == Payload(w.sent + [m], p);
    }
  }

  lemma DeliverKeeps(w: World, maxLen: nat, record: seq<byte>)
    requires Inv(w, maxLen) && Enabled(w, maxLen, Deliver(record))
    ensures Inv(Next(w, maxLen, Deliver(record)), maxLen)
  {
    hide HandleRecord, FaithfulRx, Payload, Transcript;
    FaithfulRing(w.sent, w.rx);
    var p :| PieceOf(w.sent, p) && record == Payload(w.sent, p);
    PieceHandled(w.sent, w.rx, w.epoch, maxLen, p);
  }

  /** A complete message under number `i` is message `i` of the sender, byte for byte. */
  lemma CompleteIsRaw(sent: seq<Msg>, p: Partial)
    requires Faithful(sent, p) && Complete(p) && p.seqNo < U16 && p.len < U24
    ensures RawOf(p) == DtlsSend.Raw(p.kind, p.seqNo, sent[p.seqNo].body)
  {
    hide HeaderBytes;
    assert seq(p.len, k requires 0 <= k < p.len => p.bytes[k]) == sent[p.seqNo].body;
  }

  lemma TakeKeeps(w: World, maxLen: nat)
    requires Inv(w, maxLen) && Enabled(w, maxLen, Take)
    ensures Inv(Next(w, maxLen, Take), maxLen)
  {
    hide OnWire, RawOf, Complete, DtlsSend.Raw;
    TakenInRing(w.rx);
    var p := w.rx.slots[w.rx.readSeq % FLIGHT].value;
    OneInSeven(w.rx.readSeq, p.seqNo, w.rx.readSeq);
    CompleteIsRaw(w.sent, p);
  }

  /** Every event keeps the invariant. */
  lemma StepKeeps(w: World, maxLen: nat, e: Event)
    requires Inv(w, maxLen) && Enabled(w, maxLen, e)
    ensures Inv(Next(w, maxLen, e), maxLen)
  {
    match e {
      case Write(m) => WriteKeeps(w, maxLen, m);
      case Transmit(p) =>
      case Deliver(record) => DeliverKeeps(w, maxLen, record);
      case Take => TakeKeeps(w, maxLen);
      case NextEpoch =>
    }
  }

  /** The world after a run; None if some event could not happen when it was due. */
  ghost function Run(es: seq<Event>, maxLen: nat): Option<World> {
    if es == [] then Some(Start)
    else
      match Run(es[..|es| - 1], maxLen)
      case None => None
      case Some(w) =>
        var e := es[|es| - 1];
        if SizesOk(w.sent, maxLen) && RingOk(w.rx) && Enabled(w, maxLen, e) then Some(Next(w, maxLen, e)) else None
  }

  lemma {:induction false} ReachableInv(es: seq<Event>, maxLen: nat)
    requires maxLen < U24 && Run(es, maxLen).Some?
    ensures Inv(Run(es, maxLen).value, maxLen)
  {
    hide Inv, Enabled, Next;
    if es == [] {
      StartInv(maxLen);
    } else {
      ReachableInv(es[..|es| - 1], maxLen);
      StepKeeps(Run(es[..|es| - 1], maxLen).value, maxLen, es[|es| - 1]);
    }
  }

  lemma StartInv(maxLen: nat)
    requires maxLen < U24
    ensures Inv(Start, maxLen)
  {
  }

  /**
   * Under any schedule of loss, repetition, reordering and retransmission with changing cuts,
   * the messages taken are the sender's first messages in order, each with the very bytes the
   * sender put in its transcript.
   */
  lemma DeliveredIsTranscriptPrefix(es: seq<Event>, maxLen: nat)
    requires maxLen < U24 && Run(es, maxLen).Some?
    ensures var w := Run(es, maxLen).value;
            && |w.taken| <= |w.sent| < U16 && (forall m :: m in w.sent ==> |m.body| < U24)
            && w.taken == Transcript(w.sent, |w.taken|)
  {
    hide Run, FaithfulRx, OnWire;
    ReachableInv(es, maxLen);
  }

  /** In every reachable state a filled slot holds one of the next seven messages, in its own place. */
  lemma ReachableRing(es: seq<Event>, maxLen: nat)
    requires maxLen < U24 && Run(es, maxLen).Some?
    ensures RingOk(Run(es, maxLen).value.rx)
  {
    hide Run, OnWire, Faithful;
    ReachableInv(es, maxLen);
  }

  // ---------------------------------------------------------------- the sender's records

  /** A built message passes the sender's own checks and parses to its header and body. */
  lemma RawIsSingleFragment(sent: seq<Msg>, i: nat)
    requires i < |sent| < U16 && |sent[i].body| < U24
    ensures var data := DtlsSend.Raw(sent[i].kind, i, sent[i].body);
            && DtlsSend.SingleFragment(data)
            && ParseFragment(data).value.h == HeaderOf(sent, i) && ParseFragment(data).value.body == sent[i].body
  {
    hide HeaderBytes, ParseFragment;
    ParsesBack(HeaderOf(sent, i), sent[i].body, []);
    var data := DtlsSend.Raw(sent[i].kind, i, sent[i].body);
    assert HeaderBytes(HeaderOf(sent, i)) + sent[i].body + [] == data;
  }

  /** Message `m` of a flight is message number `i` of the sender. */
  predicate IsNumber(sent: seq<Msg>, m: DtlsSend.OutMsg, i: nat) {
    i < |sent| < U16 && |sent[i].body| < U24 && m.data == DtlsSend.Raw(sent[i].kind, i, sent[i].body)
  }

  /** Every handshake message of the flight is one of the sender's messages under its number. */
  ghost predicate FlightOf(sent: seq<Msg>, flight: seq<DtlsSend.OutMsg>) {
    forall m :: m in flight && !m.isCcs ==> exists i :: IsNumber(sent, m, i)
  }

  /**
   * Whatever send_flight puts out, at any MTU, after any number of failures and rewinds, is a
   * ChangeCipherSpec or a piece of one of the sender's messages.
   */
  lemma SentIsOnWire(sent: seq<Msg>, maxLen: nat, flight: seq<DtlsSend.OutMsg>, c: DtlsSend.Cursor, rs: seq<DtlsSend.Sent>, r: DtlsSend.Sent)
    requires SizesOk(sent, maxLen) && FlightOf(sent, flight) && DtlsSend.FlightOk(flight) && DtlsSend.CursorOk(flight, c)
    requires DtlsSend.Chain(flight, c, rs).Some? && r in rs && r.kind != RT_CCS
    ensures OnWire(sent, r.payload)
  {
    hide HeaderBytes, ParseFragment, DtlsSend.Chain, DtlsSend.Raw;
    DtlsSend.ChainHonest(flight, c, rs);
    var j: nat, off: nat, n: nat :|
      && j < |flight| && !flight[j].isCcs && off + n <= |DtlsSend.BodyOf(flight[j])|
      && r.payload == DtlsSend.FragmentOf(DtlsSend.HeaderOf(flight[j]), DtlsSend.BodyOf(flight[j]), off, n);
    var i :| IsNumber(sent, flight[j], i);
    RawIsSingleFragment(sent, i);
    assert PieceOf(sent, Piece(i, off, n)) && r.payload == Payload(sent, Piece(i, off, n));
  }

  // ---------------------------------------------------------------- progress

  /** What a receiver makes of records, in whatever order and however often they come. */
  function ReceiveAll(rx: Rx, epoch: nat, maxLen: nat, records: seq<seq<byte>>): (r: Rx)
    requires RingOk(rx)
    ensures RingOk(r)
  {
    if records == [] then rx
    else HandleRecord(ReceiveAll(rx, epoch, maxLen, records[..|records| - 1]), epoch, maxLen, records[|records| - 1]).rx
  }

  /** A fragment of message `i` has been taken in. */
  ghost predicate Held(rx: Rx, i: nat)
    requires RingOk(rx)
  {
    rx.slots[i % FLIGHT].Some? && rx.slots[i % FLIGHT].value.seqNo == i
  }

  /** Byte `k` of message `i` is known. */
  ghost predicate Knows(rx: Rx, i: nat, k: nat)
    requires RingOk(rx)
  {
    Held(rx, i) && k in rx.slots[i % FLIGHT].value.bytes
  }

  /** The messages a receiver takes fragments of: the next seven, in epoch 1 only the awaited one. */
  predicate Welcome(readSeq: nat, epoch: nat, i: nat) {
    readSeq <= i < readSeq + FLIGHT && (epoch == 1 ==> i == readSeq)
  }

  /** A piece of a welcome message adds its bytes, and no piece makes anything forgotten. */
  lemma FragmentLearned(sent: seq<Msg>, rx: Rx, epoch: nat, maxLen: nat, p: Piece, h: Header, body: seq<byte>)
    requires SizesOk(sent, maxLen) && FaithfulRx(sent, rx) && PieceOf(sent, p)
    requires h == Header(sent[p.i].kind, |sent[p.i].body|, p.i, p.off, p.n) && body == sent[p.i].body[p.off..p.off + p.n]
    ensures var r := HandleFragment(rx, epoch, maxLen, h, body).rx;
            && RingOk(r) && r.readSeq == rx.readSeq
            && (Welcome(rx.readSeq, epoch, p.i) ==> Held(r, p.i) && forall k: nat :: PieceCovers(p, k) ==> Knows(r, p.i, k))
            && (forall i: nat :: Held(rx, i) ==> Held(r, i))
            && (forall i: nat, k: nat :: Knows(rx, i, k) ==> Knows(r, i, k))
  {
    HandledInRing(rx, epoch, maxLen, h, body);
    var slot := rx.slots[p.i % FLIGHT];
    if Welcome(rx.readSeq, epoch, p.i) && slot.Some? { OneInSeven(rx.readSeq, slot.value.seqNo, p.i); }
  }

  lemma PieceLearned(sent: seq<Msg>, rx: Rx, epoch: nat, maxLen: nat, p: Piece)
    requires SizesOk(sent, maxLen) && FaithfulRx(sent, rx) && PieceOf(sent, p)
    ensures RingOk(rx)
    ensures var r := HandleRecord(rx, epoch, maxLen, Payload(sent, p)).rx;
            && FaithfulRx(sent, r) && r.readSeq == rx.readSeq
            && (Welcome(rx.readSeq, epoch, p.i) ==> Held(r, p.i) && forall k: nat :: PieceCovers(p, k) ==> Knows(r, p.i, k))
            && (forall i: nat :: Held(rx, i) ==> Held(r, i))
            && (forall i: nat, k: nat :: Knows(rx, i, k) ==> Knows(r, i, k))
  {
    hide HandleFragment, HandleRecord, FaithfulRx, Knows, Held, Welcome;
    FaithfulRing(sent, rx);
    PieceIsFragment(sent, rx, epoch, maxLen, p);
    FragmentHandled(sent, rx, epoch, maxLen, p, PieceHeader(sent, p), PieceBody(sent, p));
    FragmentLearned(sent, rx, epoch, maxLen, p, PieceHeader(sent, p), PieceBody(sent, p));
  }

  /** Whatever honest records come, every piece of a welcome message among them is learned. */
  lemma {:induction false} AllLearned(sent: seq<Msg>, rx: Rx, epoch: nat, maxLen: nat, records: seq<seq<byte>>, p: Piece)
    requires SizesOk(sent, maxLen) && FaithfulRx(sent, rx) && (forall b :: b in records ==> OnWire(sent, b))
    requires PieceOf(sent, p) && Welcome(rx.readSeq, epoch, p.i)
    ensures RingOk(rx)
    ensures var r := ReceiveAll(rx, epoch, maxLen, records);
            && FaithfulRx(sent, r) && r.readSeq == rx.readSeq
            && (Payload(sent, p) in records ==> Held(r, p.i) && forall k: nat :: PieceCovers(p, k) ==> Knows(r, p.i, k))
  {
    hide FaithfulRx, Knows, Held, HandleRecord, PieceCovers, Payload;
    FaithfulRing(sent, rx);
    if records != [] {
      var front, last := records[..|records| - 1], records[|records| - 1];
      AllLearned(sent, rx, epoch, maxLen, front, p);
      var before := ReceiveAll(rx, epoch, maxLen, front);
      if last == Payload(sent, p) {
        PieceLearned(sent, before, epoch, maxLen, p);
      } else {
        assert OnWire(sent, last);
        var q :| PieceOf(sent, q) && last == Payload(sent, q);
        PieceLearned(sent, before, epoch, maxLen, q);
      }
    }
  }

  /** The records hold a piece of message `i`, and pieces that together cover it. */
  ghost predicate Covered(sent: seq<Msg>, records: seq<seq<byte>>, i: nat)
    requires i < |sent| < U16 && |sent[i].body| < U24
  {
    && (exists off: nat, n: nat :: PieceOf(sent, Piece(i, off, n)) && Payload(sent, Piece(i, off, n)) in records)
    && forall k: nat :: k < |sent[i].body| ==> ByteIn(sent, records, i, k)
  }

  ghost predicate ByteIn(sent: seq<Msg>, records: seq<seq<byte>>, i: nat, k: nat)
    requires i < |sent| < U16 && |sent[i].body| < U24
  {
    exists off: nat, n: nat ::
      off <= k < off + n && PieceOf(sent, Piece(i, off, n)) && Payload(sent, Piece(i, off, n)) in records
  }

  /**
   * Once records that together cover a welcome message have arrived, in any order, with any
   * overlaps and among whatever others of the sender, the message is complete.
   */
  lemma CoverCompletes(sent: seq<Msg>, rx: Rx, epoch: nat, maxLen: nat, records: seq<seq<byte>>, i: nat)
    requires SizesOk(sent, maxLen) && FaithfulRx(sent, rx) && (forall b :: b in records ==> OnWire(sent, b))
    requires i < |sent| && Welcome(rx.readSeq, epoch, i) && Covered(sent, records, i)
    ensures RingOk(rx)
    ensures var r := ReceiveAll(rx, epoch, maxLen, records);
            r.readSeq == rx.readSeq && Held(r, i) && Complete(r.slots[i % FLIGHT].value)
  {
    hide ReceiveAll, Payload, OnWire;
    FaithfulRing(sent, rx);
    var off: nat, n: nat :| PieceOf(sent, Piece(i, off, n)) && Payload(sent, Piece(i, off, n)) in records;
    AllLearned(sent, rx, epoch, maxLen, records, Piece(i, off, n));
    var r := ReceiveAll(rx, epoch, maxLen, records);
    var p := r.slots[i % FLIGHT].value;
    forall k: nat | k < p.len ensures k in p.bytes {
      assert ByteIn(sent, records, i, k);
      var off: nat, n: nat :|
        off <= k < off + n && PieceOf(sent, Piece(i, off, n)) && Payload(sent, Piece(i, off, n)) in records;
      AllLearned(sent, rx, epoch, maxLen, records, Piece(i, off, n));
      assert PieceCovers(Piece(i, off, n), k) && Knows(r, i, k);
    }
  }

  /**
   * dtls_has_unprocessed_handshake_data is false exactly if no ChangeCipherSpec waits and nothing
   * is held of any message but the one just read.
   */
  lemma NothingLeftBehind(rx: Rx, hasMessage: bool)
    requires RingOk(rx)
    ensures !Unprocessed(rx, hasMessage) <==>
              && !rx.ccs
              && forall i: nat :: rx.readSeq <= i < rx.readSeq + 7 && Held(rx, i) ==> hasMessage && i == rx.readSeq
  {
    if !Unprocessed(rx, hasMessage) {
      forall i: nat | rx.readSeq <= i < rx.readSeq + 7 && Held(rx, i) ensures hasMessage && i == rx.readSeq {
        assert rx.slots[i % FLIGHT].Some?;
        OneInSeven(rx.readSeq, rx.readSeq, if i % FLIGHT == rx.readSeq % FLIGHT then i else rx.readSeq);
      }
    } else if !rx.ccs {
      var s :| 0 <= s < FLIGHT && rx.slots[s].Some? && !(hasMessage && s == rx.readSeq % FLIGHT);
      assert InWindow(rx.readSeq, s, rx.slots[s].value);
      assert Held(rx, rx.slots[s].value.seqNo);
    }
  }

  // ---------------------------------------------------------------- a flight that gets through

  /** `n` messages taken one after the other; None if one of them is not complete. */
  function TakeAll(rx: Rx, n: nat): Option<seq<seq<byte>>>
    requires RingOk(rx)
    decreases n
  {
    if n == 0 then Some([])
    else if !CurrentComplete(rx) then None
    else
      TakenInRing(rx);
      match TakeAll(Taken(rx), n - 1)
      case None => None
      case Some(raws) => Some([RawOf(rx.slots[rx.readSeq % FLIGHT].value)] + raws)
  }

  /** The next `n` messages are held and complete. */
  ghost predicate AllHeld(rx: Rx, n: nat)
    requires RingOk(rx)
  {
    forall i :: rx.readSeq <= i < rx.readSeq + n ==> Held(rx, i) && Complete(rx.slots[i % FLIGHT].value)
  }

  lemma StillHeld(rx: Rx, n: nat)
    requires RingOk(rx) && 0 < n <= FLIGHT && rx.readSeq + n < U16 && AllHeld(rx, n)
    ensures RingOk(Taken(rx)) && Taken(rx).readSeq == rx.readSeq + 1 && AllHeld(Taken(rx), n - 1)
  {
    hide Complete;
    TakenInRing(rx);
    forall i | rx.readSeq + 1 <= i < rx.readSeq + n
      ensures Held(Taken(rx), i) && Complete(Taken(rx).slots[i % FLIGHT].value)
    {
      assert Held(rx, i);
      if i % FLIGHT == rx.readSeq % FLIGHT { OneInSeven(rx.readSeq, rx.readSeq, i); }
    }
  }

  lemma StillFaithful(sent: seq<Msg>, rx: Rx)
    requires FaithfulRx(sent, rx)
    ensures FaithfulRx(sent, Taken(rx))
  {
    hide Faithful;
    TakenInRing(rx);
  }

  /** Complete messages are taken in order, each as the sender's transcript has it. */
  lemma {:induction false} HeldIsTaken(sent: seq<Msg>, rx: Rx, n: nat)
    requires |sent| < U16 && (forall m :: m in sent ==> |m.body| < U24) && FaithfulRx(sent, rx)
    requires n <= FLIGHT && rx.readSeq + n <= |sent| && AllHeld(rx, n)
    ensures RingOk(rx) && TakeAll(rx, n).Some? && |TakeAll(rx, n).value| == n
    ensures forall j :: 0 <= j < n ==>
              var i := rx.readSeq + j; TakeAll(rx, n).value[j] == DtlsSend.Raw(sent[i].kind, i, sent[i].body)
    decreases n
  {
    hide FaithfulRx, Complete, RawOf, DtlsSend.Raw, AllHeld;
    FaithfulRing(sent, rx);
    if n > 0 {
      FirstHeld(sent, rx, n);
      StillHeld(rx, n);
      StillFaithful(sent, rx);
      HeldIsTaken(sent, Taken(rx), n - 1);
    }
  }

  lemma FirstHeld(sent: seq<Msg>, rx: Rx, n: nat)
    requires |sent| < U16 && (forall m :: m in sent ==> |m.body| < U24) && FaithfulRx(sent, rx)
    requires 0 < n && rx.readSeq < |sent| && RingOk(rx) && AllHeld(rx, n)
    ensures CurrentComplete(rx)
    ensures RawOf(rx.slots[rx.readSeq % FLIGHT].value) ==
              DtlsSend.Raw(sent[rx.readSeq].kind, rx.readSeq, sent[rx.readSeq].body)
  {
    hide Complete, RawOf, DtlsSend.Raw;
    assert Held(rx, rx.readSeq);
    CompleteIsRaw(sent, rx.slots[rx.readSeq % FLIGHT].value);
  }

  lemma ByteCovered(sent: seq<Msg>, flight: seq<DtlsSend.OutMsg>, rs: seq<DtlsSend.Sent>, records: seq<seq<byte>>,
                    j: nat, i: nat, k: nat)
    requires DtlsSend.FlightOk(flight) && DtlsSend.Chain(flight, DtlsSend.Cursor(0, 0), rs) == Some(DtlsSend.Cursor(|flight|, 0))
    requires forall r :: r in rs && r.kind == RT_HANDSHAKE ==> r.payload in records
    requires j < |flight| && !flight[j].isCcs && IsNumber(sent, flight[j], i)
    requires k < |sent[i].body| || (k == 0 && sent[i].body == [])
    ensures exists off: nat, n: nat :: PieceOf(sent, Piece(i, off, n)) && Payload(sent, Piece(i, off, n)) in records
    ensures k < |sent[i].body| ==> ByteIn(sent, records, i, k)
  {
    hide DtlsSend.Chain, DtlsSend.Raw, DtlsSend.FragmentOf, ParseFragment, HeaderBytes;
    RawIsSingleFragment(sent, i);
    DtlsSend.ChainCovers(flight, DtlsSend.Cursor(0, 0), rs, j, k);
    var off: nat, n: nat :|
      DtlsSend.PieceSent(flight, rs, j, off, n) && (k < |DtlsSend.BodyOf(flight[j])| ==> off <= k < off + n);
    assert PieceOf(sent, Piece(i, off, n)) && Payload(sent, Piece(i, off, n)) in records;
  }

  /** The records of a whole flight cover each of its messages. */
  lemma FlightCovers(sent: seq<Msg>, flight: seq<DtlsSend.OutMsg>, rs: seq<DtlsSend.Sent>, records: seq<seq<byte>>, j: nat, i: nat)
    requires DtlsSend.FlightOk(flight) && DtlsSend.Chain(flight, DtlsSend.Cursor(0, 0), rs) == Some(DtlsSend.Cursor(|flight|, 0))
    requires forall r :: r in rs && r.kind == RT_HANDSHAKE ==> r.payload in records
    requires j < |flight| && !flight[j].isCcs && IsNumber(sent, flight[j], i)
    ensures Covered(sent, records, i)
  {
    hide DtlsSend.Chain, IsNumber, ByteIn, Payload;
    NumberFits(sent, flight[j], i);
    ByteCovered(sent, flight, rs, records, j, i, 0);
    forall k: nat | k < |sent[i].body| ensures ByteIn(sent, records, i, k) {
      ByteCovered(sent, flight, rs, records, j, i, k);
    }
  }

  lemma NumberFits(sent: seq<Msg>, m: DtlsSend.OutMsg, i: nat)
    requires IsNumber(sent, m, i)
    ensures i < |sent| < U16 && |sent[i].body| < U24
  {
  }

  /**
   * A flight that gets through: whatever the order, the cuts, the repetitions and the other
   * records of the sender among them, once the records cover the next `n` messages these can be
   * taken one after the other, byte for byte as in the sender's transcript.
   */
  lemma FlightDelivered(sent: seq<Msg>, rx: Rx, epoch: nat, maxLen: nat, records: seq<seq<byte>>, n: nat)
    requires SizesOk(sent, maxLen) && FaithfulRx(sent, rx) && (forall b :: b in records ==> OnWire(sent, b))
    requires n <= FLIGHT && rx.readSeq + n <= |sent| && (epoch == 1 ==> n <= 1)
    requires forall i :: rx.readSeq <= i < rx.readSeq + n ==> Covered(sent, records, i)
    ensures RingOk(rx)
    ensures var all := TakeAll(ReceiveAll(rx, epoch, maxLen, records), n);
            && all.Some? && |all.value| == n
            && forall j :: 0 <= j < n ==>
                 var i := rx.readSeq + j; all.value[j] == DtlsSend.Raw(sent[i].kind, i, sent[i].body)
  {
    hide FaithfulRx, ReceiveAll, Covered, OnWire, Complete, DtlsSend.Raw;
    FaithfulRing(sent, rx);
    ReceivedFaithful(sent, rx, epoch, maxLen, records);
    var r := ReceiveAll(rx, epoch, maxLen, records);
    forall i | rx.readSeq <= i < rx.readSeq + n ensures Held(r, i) && Complete(r.slots[i % FLIGHT].value) {
      CoverCompletes(sent, rx, epoch, maxLen, records, i);
    }
    HeldIsTaken(sent, r, n);
  }

  lemma {:induction false} ReceivedFaithful(sent: seq<Msg>, rx: Rx, epoch: nat, maxLen: nat, records: seq<seq<byte>>)
    requires SizesOk(sent, maxLen) && FaithfulRx(sent, rx) && (forall b :: b in records ==> OnWire(sent, b))
    ensures RingOk(rx)
    ensures var r := ReceiveAll(rx, epoch, maxLen, records); FaithfulRx(sent, r) && r.readSeq == rx.readSeq
  {
    hide FaithfulRx, HandleRecord, Payload;
    FaithfulRing(sent, rx);
    if records != [] {
      ReceivedFaithful(sent, rx, epoch, maxLen, records[..|records| - 1]);
      assert OnWire(sent, records[|records| - 1]);
      var q :| PieceOf(sent, q) && records[|records| - 1] == Payload(sent, q);
      PieceLearned(sent, ReceiveAll(rx, epoch, maxLen, records[..|records| - 1]), epoch, maxLen, q);
    }
  }

  /** Message number `i` of the sender is in the flight. */
  ghost predicate HasNumber(sent: seq<Msg>, flight: seq<DtlsSend.OutMsg>, i: nat) {
    exists j: nat :: j < |flight| && !flight[j].isCcs && IsNumber(sent, flight[j], i)
  }

  /**
   * So a flight sent whole, as dtls1_retransmit_outgoing_messages does on a working BIO, hands over
   * its messages once each of its records has arrived, in whatever order, early and late ones of
   * other flights among them.
   */
  lemma RetransmissionArrives(sent: seq<Msg>, flight: seq<DtlsSend.OutMsg>, rs: seq<DtlsSend.Sent>, rx: Rx, epoch: nat,
                              maxLen: nat, records: seq<seq<byte>>, n: nat)
    requires SizesOk(sent, maxLen) && FaithfulRx(sent, rx) && (forall b :: b in records ==> OnWire(sent, b))
    requires DtlsSend.FlightOk(flight) && DtlsSend.Chain(flight, DtlsSend.Cursor(0, 0), rs) == Some(DtlsSend.Cursor(|flight|, 0))
    requires forall r :: r in rs && r.kind == RT_HANDSHAKE ==> r.payload in records
    requires n <= FLIGHT && rx.readSeq + n <= |sent| && (epoch == 1 ==> n <= 1)
    requires forall i :: rx.readSeq <= i < rx.readSeq + n ==> HasNumber(sent, flight, i)
    ensures RingOk(rx)
    ensures var all := TakeAll(ReceiveAll(rx, epoch, maxLen, records), n);
            && all.Some? && |all.value| == n
            && forall j :: 0 <= j < n ==>
                 var i := rx.readSeq + j; all.value[j] == DtlsSend.Raw(sent[i].kind, i, sent[i].body)
  {
    hide DtlsSend.Chain, DtlsSend.FlightOk, IsNumber, Covered, FaithfulRx, OnWire, ReceiveAll, TakeAll, DtlsSend.Raw;
    forall i | rx.readSeq <= i < rx.readSeq + n ensures Covered(sent, records, i) {
      assert HasNumber(sent, flight, i);
      var j: nat :| j < |flight| && !flight[j].isCcs && IsNumber(sent, flight[j], i);
      FlightCovers(sent, flight, rs, records, j, i);
    }
    FlightDelivered(sent, rx, epoch, maxLen, records, n);
  }
}
