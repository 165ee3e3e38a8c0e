/**
 * d1_both.cc, sending: a flight of messages is cut into records that fit the MTU, packed
 * into datagrams, resumed after a failed write and rewound for retransmission.
 */
module DtlsSend {
  import opened Bits
  import opened Reassembly
  import opened DtlsReceive

  const RT_HEADER: nat := 13
  const MIN_MTU: nat := 228
  const SEQUENCE_END: nat := 0x1_0000_0000_0000

  // ---------------------------------------------------------------- messages

  /** The message as the transcript takes it and as the first fragment would carry it whole. */
  function Raw(kind: byte, seqNo: nat, body: seq<byte>): seq<byte>
    requires seqNo < U16 && |body| < U24
  {
    HeaderBytes(Header(kind, |body|, seqNo, 0, |body|)) + body
  }

  /** dtls1_init_message, the body, and the fix-up of dtls1_finish_message. */
  method BuildMessage(kind: byte, seqNo: nat, body: seq<byte>) returns (data: seq<byte>)
    requires seqNo < U16 && |body| < U24
    ensures data == Raw(kind, seqNo, body)
  {
    data := [kind] + U24Bytes(0) + [seqNo / 0x100, seqNo % 0x100] + U24Bytes(0) + U24Bytes(|body|) + body;
    var length := data[HM_HEADER - 3..HM_HEADER];
    assert length == U24Bytes(|body|);
    data := data[..1] + length + data[4..];
  }

  /** DTLS_OUTGOING_MESSAGE */
  datatype OutMsg = OutMsg(data: seq<byte>, epoch: nat, isCcs: bool)

  /** The checks seal_next_message makes before it cuts a message. */
  predicate SingleFragment(data: seq<byte>) {
    var c := ParseFragment(data);
    c.Some? && c.value.h.off == 0 && c.value.h.len == |c.value.body| && c.value.rest == []
  }

  function HeaderOf(m: OutMsg): (h: Header)
    requires SingleFragment(m.data)
    ensures HeaderFits(h)
  {
    ParseFragment(m.data).value.h
  }

  function BodyOf(m: OutMsg): (b: seq<byte>)
    requires SingleFragment(m.data)
    ensures |b| < U24
  {
    ParseFragment(m.data).value.body
  }

  // ---------------------------------------------------------------- the cursor

  /** outgoing_written and outgoing_offset. */
  datatype Cursor = Cursor(written: nat, offset: nat)

  /** A sealed record; `size` is its length in the datagram. */
  datatype Sent = Sent(epoch: nat, number: nat, kind: byte, payload: seq<byte>, size: nat)

  /** The header and bytes of the fragment [off, off + n) of a message. */
  function FragmentOf(h: Header, body: seq<byte>, off: nat, n: nat): (b: seq<byte>)
    requires HeaderFits(h) && off + n <= |body| < U24
    ensures |b| == HM_HEADER + n
  {
    HeaderBytes(Header(h.kind, h.len, h.seqNo, off, n)) + body[off..off + n]
  }

  ghost predicate FlightOk(flight: seq<OutMsg>) {
    forall m :: m in flight && !m.isCcs ==> SingleFragment(m.data)
  }

  predicate CursorOk(flight: seq<OutMsg>, c: Cursor)
    requires FlightOk(flight)
  {
    && c.written <= |flight|
    && (c.offset == 0 || (c.written < |flight| && !flight[c.written].isCcs && c.offset < |BodyOf(flight[c.written])|))
  }

  /**
   * Where the cursor stands once `r` is out, if `r` is a record that may be sent at `c`: the
   * ChangeCipherSpec, or the fragment that starts at the cursor and makes progress.
   */
  ghost function After(flight: seq<OutMsg>, c: Cursor, r: Sent): (d: Option<Cursor>)
    requires FlightOk(flight) && CursorOk(flight, c)
    ensures d.Some? ==> CursorOk(flight, d.value)
  {
    if c.written == |flight| || r.epoch != flight[c.written].epoch then None
    else if flight[c.written].isCcs then
      if r.kind == RT_CCS && r.payload == [1] then Some(Cursor(c.written + 1, 0)) else None
    else
      var m := flight[c.written];
      var n := |r.payload| - HM_HEADER;
      if && r.kind == RT_HANDSHAKE && 0 <= n && c.offset + n <= |BodyOf(m)|
         && r.payload == FragmentOf(HeaderOf(m), BodyOf(m), c.offset, n) && (n > 0 || BodyOf(m) == [])
      then
        Some(if c.offset + n == |BodyOf(m)| then Cursor(c.written + 1, 0) else Cursor(c.written, c.offset + n))
      else None
  }

  /** Where the cursor stands after sending `rs` one after the other. */
  ghost function Chain(flight: seq<OutMsg>, c: Cursor, rs: seq<Sent>): (d: Option<Cursor>)
    requires FlightOk(flight) && CursorOk(flight, c)
    ensures d.Some? ==> CursorOk(flight, d.value)
    decreases |rs|
  {
    if rs == [] then Some(c)
    else
      match After(flight, c, rs[0])
      case None => None
      case Some(d) => Chain(flight, d, rs[1..])
  }

  lemma {:induction false} ChainJoins(flight: seq<OutMsg>, c: Cursor, rs: seq<Sent>, ts: seq<Sent>)
    requires FlightOk(flight) && CursorOk(flight, c) && Chain(flight, c, rs).Some?
    ensures Chain(flight, c, rs + ts) == Chain(flight, Chain(flight, c, rs).value, ts)
    decreases |rs|
  {
    hide After, FlightOk, CursorOk;
    if rs == [] {
      assert rs + ts == ts;
    } else {
      ChainJoins(flight, After(flight, c, rs[0]).value, rs[1..], ts);
      assert (rs + ts)[0] == rs[0] && (rs + ts)[1..] == rs[1..] + ts;
    }
  }

  lemma ChainOne(flight: seq<OutMsg>, c: Cursor, r: Sent)
    requires FlightOk(flight) && CursorOk(flight, c)
    ensures Chain(flight, c, [r]) == After(flight, c, r)
  {
    hide After, FlightOk, CursorOk;
    assert [r][1..] == [];
  }

  // ---------------------------------------------------------------- what a chain says

  /** The body bytes sent for message `i`, in the order they were sent. */
  ghost function Gathered(flight: seq<OutMsg>, c: Cursor, rs: seq<Sent>, i: nat): seq<byte>
    requires FlightOk(flight) && CursorOk(flight, c) && Chain(flight, c, rs).Some?
    decreases |rs|
  {
    if rs == [] then []
    else
      var rest := Gathered(flight, After(flight, c, rs[0]).value, rs[1..], i);
      if c.written == i && !flight[i].isCcs then rs[0].payload[HM_HEADER..] + rest else rest
  }

  /** What is still to be sent of message `i` at the cursor. */
  ghost function Ahead(flight: seq<OutMsg>, c: Cursor, i: nat): seq<byte>
    requires FlightOk(flight) && CursorOk(flight, c) && i < |flight| && !flight[i].isCcs
  {
    if i < c.written then [] else if i == c.written then BodyOf(flight[i])[c.offset..] else BodyOf(flight[i])
  }

  lemma {:induction false} StepTiles(flight: seq<OutMsg>, c: Cursor, r: Sent, i: nat)
    requires FlightOk(flight) && CursorOk(flight, c) && After(flight, c, r).Some?
    requires i < |flight| && !flight[i].isCcs
    ensures var d := After(flight, c, r).value;
            Ahead(flight, c, i) ==
              (if c.written == i then r.payload[HM_HEADER..] else []) + Ahead(flight, d, i)
  {
    hide HeaderBytes, ParseFragment;
  }

  /**
   * Fragment tiling: the fragments sent for a message, joined in the order of sending, are
   * exactly the bytes between the two cursors; nothing is skipped, repeated or changed.
   */
  lemma {:induction false} FragmentsTile(flight: seq<OutMsg>, c: Cursor, rs: seq<Sent>, i: nat)
    requires FlightOk(flight) && CursorOk(flight, c) && Chain(flight, c, rs).Some?
    requires i < |flight| && !flight[i].isCcs
    ensures Ahead(flight, c, i) == Gathered(flight, c, rs, i) + Ahead(flight, Chain(flight, c, rs).value, i)
    decreases |rs|
  {
    hide After, FlightOk, CursorOk, Ahead;
    if rs != [] {
      StepTiles(flight, c, rs[0], i);
      FragmentsTile(flight, After(flight, c, rs[0]).value, rs[1..], i);
    }
  }

  /** A whole flight sent from its start carries every message body whole. */
  lemma WholeFlight(flight: seq<OutMsg>, rs: seq<Sent>, i: nat)
    requires FlightOk(flight) && Chain(flight, Cursor(0, 0), rs) == Some(Cursor(|flight|, 0))
    requires i < |flight| && !flight[i].isCcs
    ensures Gathered(flight, Cursor(0, 0), rs, i) == BodyOf(flight[i])
  {
    FragmentsTile(flight, Cursor(0, 0), rs, i);
    assert Ahead(flight, Cursor(0, 0), i) == BodyOf(flight[i]);
  }

  /** The records carry every message body of the flight whole, and nothing else under its number. */
  ghost predicate CarriesAll(flight: seq<OutMsg>, rs: seq<Sent>)
    requires FlightOk(flight)
  {
    && Chain(flight, Cursor(0, 0), rs).Some?
    && forall i :: 0 <= i < |flight| && !flight[i].isCcs ==> Gathered(flight, Cursor(0, 0), rs, i) == BodyOf(flight[i])
  }

  lemma AllCarried(flight: seq<OutMsg>, rs: seq<Sent>)
    requires FlightOk(flight) && Chain(flight, Cursor(0, 0), rs) == Some(Cursor(|flight|, 0))
    ensures CarriesAll(flight, rs)
  {
    hide Chain, Gathered;
    forall i | 0 <= i < |flight| && !flight[i].isCcs ensures Gathered(flight, Cursor(0, 0), rs, i) == BodyOf(flight[i]) {
      WholeFlight(flight, rs, i);
    }
  }

  /** One of the records is the fragment [off, off + n) of message `j`. */
  ghost predicate PieceSent(flight: seq<OutMsg>, rs: seq<Sent>, j: nat, off: nat, n: nat)
    requires FlightOk(flight) && j < |flight| && !flight[j].isCcs
  {
    && off + n <= |BodyOf(flight[j])|
    && exists r :: r in rs && r.kind == RT_HANDSHAKE && r.payload == FragmentOf(HeaderOf(flight[j]), BodyOf(flight[j]), off, n)
  }

  lemma PieceHere(flight: seq<OutMsg>, c: Cursor, rs: seq<Sent>)
    requires FlightOk(flight) && CursorOk(flight, c) && rs != [] && After(flight, c, rs[0]).Some?
    requires c.written < |flight| && !flight[c.written].isCcs
    ensures |rs[0].payload| >= HM_HEADER && PieceSent(flight, rs, c.written, c.offset, |rs[0].payload| - HM_HEADER)
    ensures var d := After(flight, c, rs[0]).value;
            var upTo := c.offset + |rs[0].payload| - HM_HEADER;
            if upTo == |BodyOf(flight[c.written])| then d == Cursor(c.written + 1, 0)
            else d == Cursor(c.written, upTo) && upTo > c.offset
  {
    hide HeaderBytes, ParseFragment, FragmentOf;
    assert rs[0] in rs;
  }

  lemma CcsHere(flight: seq<OutMsg>, c: Cursor, r: Sent)
    requires FlightOk(flight) && CursorOk(flight, c) && After(flight, c, r).Some?
    ensures c.written < |flight|
    ensures flight[c.written].isCcs ==> After(flight, c, r).value == Cursor(c.written + 1, 0)
  {
    hide HeaderBytes, ParseFragment, FragmentOf;
  }

  /** Between two cursors every byte of a message, and an empty message too, is in a fragment that was sent. */
  lemma {:induction false} ChainCovers(flight: seq<OutMsg>, c: Cursor, rs: seq<Sent>, j: nat, k: nat)
    requires FlightOk(flight) && CursorOk(flight, c) && Chain(flight, c, rs).Some?
    requires j < |flight| && !flight[j].isCcs && (c.written < j || (c.written == j && c.offset <= k))
    requires Chain(flight, c, rs).value.written > j && (k < |BodyOf(flight[j])| || (k == 0 && BodyOf(flight[j]) == []))
    ensures exists off: nat, n: nat :: PieceSent(flight, rs, j, off, n) && (k < |BodyOf(flight[j])| ==> off <= k < off + n)
    decreases |rs|
  {
    hide After, CursorOk, PieceSent;
    assert rs != [];
    CcsHere(flight, c, rs[0]);
    var d := After(flight, c, rs[0]).value;
    if !flight[c.written].isCcs { PieceHere(flight, c, rs); }
    if c.written < j || (d.written == j && d.offset <= k) {
      ChainCovers(flight, d, rs[1..], j, k);
      var off: nat, n: nat :| PieceSent(flight, rs[1..], j, off, n) && (k < |BodyOf(flight[j])| ==> off <= k < off + n);
      PieceStays(flight, rs, j, off, n);
    }
  }

  lemma PieceStays(flight: seq<OutMsg>, rs: seq<Sent>, j: nat, off: nat, n: nat)
    requires FlightOk(flight) && j < |flight| && !flight[j].isCcs && rs != [] && PieceSent(flight, rs[1..], j, off, n)
    ensures PieceSent(flight, rs, j, off, n)
  {
    hide FragmentOf;
  }

  /** A record that is a ChangeCipherSpec or a fragment of a message of the flight. */
  ghost predicate Honest(flight: seq<OutMsg>, r: Sent)
    requires FlightOk(flight)
  {
    || (r.kind == RT_CCS && r.payload == [1])
    || (r.kind == RT_HANDSHAKE && exists i: nat, off: nat, n: nat ::
          && i < |flight| && !flight[i].isCcs && off + n <= |BodyOf(flight[i])|
          && r.payload == FragmentOf(HeaderOf(flight[i]), BodyOf(flight[i]), off, n))
  }

  lemma StepHonest(flight: seq<OutMsg>, c: Cursor, r: Sent)
    requires FlightOk(flight) && CursorOk(flight, c) && After(flight, c, r).Some?
    ensures Honest(flight, r)
  {
    hide HeaderBytes, ParseFragment;
  }

  lemma {:induction false} ChainHonest(flight: seq<OutMsg>, c: Cursor, rs: seq<Sent>)
    requires FlightOk(flight) && CursorOk(flight, c) && Chain(flight, c, rs).Some?
    ensures forall r :: r in rs ==> Honest(flight, r)
    decreases |rs|
  {
    hide After, FlightOk, CursorOk, Honest;
    if rs != [] {
      StepHonest(flight, c, rs[0]);
      ChainHonest(flight, After(flight, c, rs[0]).value, rs[1..]);
    }
  }

  function TotalSize(rs: seq<Sent>): nat {
    if rs == [] then 0 else TotalSize(rs[..|rs| - 1]) + rs[|rs| - 1].size
  }

  // ---------------------------------------------------------------- the sender, in place

  /** Every write to come is taken. */
  ghost predicate Accepting(failures: seq<int>) {
    forall i :: 0 <= i < |failures| ==> failures[i] > 0
  }

  lemma AcceptingOn(failures: seq<int>)
    requires failures != [] && Accepting(failures)
    ensures failures[0] > 0 && Accepting(failures[1..])
  {
  }

  /** The write BIO: each write accepts the whole datagram or returns one of `failures`. */
  class Bio {
    var failures: seq<int>
    var datagrams: seq<seq<Sent>>

    method Write(packet: seq<Sent>) returns (ret: int)
      modifies this
      ensures ret > 0 ==> datagrams == old(datagrams) + [packet]
      ensures ret <= 0 ==> datagrams == old(datagrams)
      ensures ret == (if old(failures) == [] then 1 else if old(failures)[0] <= 0 then old(failures)[0] else 1)
      ensures failures == if old(failures) == [] then [] else old(failures)[1..]
    {
      if failures != [] {
        ret := failures[0];
        failures := failures[1..];
        if ret <= 0 {
          return;
        }
      }
      datagrams := datagrams + [packet];
      ret := 1;
    }
  }

  /** The AEAD limits and record sequence of one epoch. */
  datatype WriteState = WriteState(maxOverhead: nat, nonceLen: nat, sequence: nat)

  /** The epoch of the moment, its write state and the one of the epoch before. */
  datatype Keys = Keys(epoch: nat, current: WriteState, previous: WriteState)

  predicate UsesPrevious(k: Keys, m: OutMsg) {
    k.epoch >= 1 && m.epoch == k.epoch - 1
  }

  /** The write state a message of this epoch is sealed with. */
  function StateOf(k: Keys, usePrevious: bool): WriteState {
    if usePrevious then k.previous else k.current
  }

  /** The room seal_next_message asks for. */
  function Needs(k: Keys, m: OutMsg): nat {
    (if m.isCcs then 1 else HM_HEADER + 1) + RT_HEADER + StateOf(k, UsesPrevious(k, m)).maxOverhead
  }

  /** There are keys for the message. */
  predicate Known(k: Keys, m: OutMsg) {
    UsesPrevious(k, m) || m.epoch == k.epoch
  }

  /** No record of the message outgrows the 16-bit length field, in a datagram of `mtu` bytes. */
  predicate Fits(k: Keys, m: OutMsg, mtu: nat)
    requires m.isCcs || SingleFragment(m.data)
  {
    || mtu < U16 + RT_HEADER
    || (if m.isCcs then 1 else HM_HEADER + |BodyOf(m)|) + StateOf(k, UsesPrevious(k, m)).maxOverhead < U16
  }

  /** More records than the rest of the flight can be cut into. */
  ghost function Work(flight: seq<OutMsg>, c: Cursor): (n: nat)
    requires FlightOk(flight) && CursorOk(flight, c)
    ensures c.written < |flight| ==> n > 0
    decreases |flight| - c.written
  {
    if c.written == |flight| then 0
    else
      (if flight[c.written].isCcs then 1 else |BodyOf(flight[c.written])| + 1 - c.offset)
      + Work(flight, Cursor(c.written + 1, 0))
  }

  /** The rest of the flight can be sealed for datagrams of `mtu` bytes. */
  ghost predicate Sealable(flight: seq<OutMsg>, c: Cursor, k: Keys, mtu: nat)
    requires FlightOk(flight) && CursorOk(flight, c)
  {
    && (forall i :: c.written <= i < |flight| ==> Known(k, flight[i]) && Fits(k, flight[i], mtu) && Needs(k, flight[i]) <= mtu)
    && k.current.sequence + Work(flight, c) < SEQUENCE_END
    && k.previous.sequence + Work(flight, c) < SEQUENCE_END
  }

  /** The messages from `a` up to `b` can be sealed at all in datagrams of `mtu` bytes. */
  ghost predicate Passed(flight: seq<OutMsg>, a: nat, b: nat, k: Keys, mtu: nat)
    requires b <= |flight|
  {
    forall i :: a <= i < b ==> Known(k, flight[i]) && Needs(k, flight[i]) <= mtu
  }

  /** The same keys but for the record sequences. */
  predicate SameKeys(k: Keys, now: Keys) {
    && now.epoch == k.epoch
    && now.current.maxOverhead == k.current.maxOverhead && now.previous.maxOverhead == k.previous.maxOverhead
  }

  lemma OnePassed(flight: seq<OutMsg>, a: nat, b: nat, k: Keys, room: nat, mtu: nat)
    requires b < |flight| && Passed(flight, a, b, k, mtu) && room <= mtu
    requires Known(k, flight[b]) && Needs(k, flight[b]) <= room
    ensures Passed(flight, a, b + 1, k, mtu)
  {
  }

  lemma PassedThen(flight: seq<OutMsg>, a: nat, b: nat, c: nat, k: Keys, now: Keys, mtu: nat)
    requires b <= c <= |flight| && Passed(flight, a, b, k, mtu) && SameKeys(k, now)
    ensures Passed(flight, a, b, now, mtu) && (Passed(flight, b, c, now, mtu) ==> Passed(flight, a, c, now, mtu))
  {
  }

  /** The keys after one more record. */
  predicate OneSealed(was: Keys, now: Keys, usePrevious: bool) {
    now == if usePrevious then was.(previous := was.previous.(sequence := was.previous.sequence + 1))
           else was.(current := was.current.(sequence := was.current.sequence + 1))
  }

  lemma PassedNone(flight: seq<OutMsg>, a: nat, k: Keys, mtu: nat)
    requires a <= |flight|
    ensures Passed(flight, a, a, k, mtu)
  {
  }

  lemma KeysAlike(k: Keys, now: Keys, m: OutMsg, mtu: nat)
    requires SameKeys(k, now)
    ensures Known(k, m) == Known(now, m) && Needs(k, m) == Needs(now, m) && UsesPrevious(k, m) == UsesPrevious(now, m)
    ensures m.isCcs || SingleFragment(m.data) ==> Fits(k, m, mtu) == Fits(now, m, mtu)
  {
  }

  lemma FitsLess(k: Keys, m: OutMsg, room: nat, mtu: nat)
    requires (m.isCcs || SingleFragment(m.data)) && Fits(k, m, mtu) && room <= mtu
    ensures Fits(k, m, room)
  {
  }

  lemma WorkLess(flight: seq<OutMsg>, c: Cursor, r: Sent)
    requires FlightOk(flight) && CursorOk(flight, c) && After(flight, c, r).Some?
    ensures Work(flight, After(flight, c, r).value) < Work(flight, c)
  {
    hide HeaderBytes, ParseFragment, FragmentOf;
  }

  lemma StillSealable(flight: seq<OutMsg>, c: Cursor, r: Sent, k: Keys, now: Keys, usePrevious: bool, mtu: nat)
    requires FlightOk(flight) && CursorOk(flight, c) && After(flight, c, r).Some?
    requires Sealable(flight, c, k, mtu) && OneSealed(k, now, usePrevious)
    ensures Sealable(flight, After(flight, c, r).value, now, mtu)
  {
    WorkLess(flight, c, r);
    StepAdvances(flight, c, r);
    hide After, FlightOk, CursorOk, Work;
  }

  lemma {:induction false} WorkBound(flight: seq<OutMsg>, c: Cursor)
    requires FlightOk(flight) && CursorOk(flight, c)
    ensures Work(flight, c) <= (|flight| - c.written) * U24
    decreases |flight| - c.written
  {
    if c.written < |flight| {
      WorkBound(flight, Cursor(c.written + 1, 0));
      assert (|flight| - c.written) * U24 == (|flight| - c.written - 1) * U24 + U24;
    }
  }

  /**
   * A flight of the current and the previous epoch can be sealed for any MTU from the minimal one
   * up to the size of a record, at any AEAD overhead up to 202 bytes, as long as the record
   * sequences have seven times 2^24 numbers left.
   */
  lemma FlightSealable(flight: seq<OutMsg>, c: Cursor, k: Keys, mtu: nat)
    requires |flight| <= 7 && FlightOk(flight) && CursorOk(flight, c)
    requires forall i :: c.written <= i < |flight| ==> flight[i].epoch == k.epoch || flight[i].epoch == k.epoch - 1
    requires 228 <= mtu < 0x1_000D && k.current.maxOverhead <= 202 && k.previous.maxOverhead <= 202
    requires k.current.sequence + 7 * 0x100_0000 < 0x1_0000_0000_0000
    requires k.previous.sequence + 7 * 0x100_0000 < 0x1_0000_0000_0000
    ensures Sealable(flight, c, k, mtu)
  {
    WorkBound(flight, c);
    hide Work, ParseFragment;
  }

  lemma SealableHere(flight: seq<OutMsg>, c: Cursor, k: Keys, mtu: nat)
    requires FlightOk(flight) && CursorOk(flight, c) && c.written < |flight| && Sealable(flight, c, k, mtu)
    ensures var m := flight[c.written];
            Known(k, m) && (m.isCcs || SingleFragment(m.data)) && Fits(k, m, mtu) && Needs(k, m) <= mtu
    ensures k.current.sequence + 1 < SEQUENCE_END && k.previous.sequence + 1 < SEQUENCE_END
  {
    hide Fits, Needs;
  }

  datatype SealResult = SealError | NoProgress | PartlySealed | Sealed

  datatype FlightResult = Flushed | BioFailed | SealFailed | MtuTooSmall

  /** The sending half of DTLS1_STATE. */
  class Sender {
    var messages: seq<OutMsg>
    var written: nat
    var offset: nat
    var complete: bool
    var hasReply: bool
    var writeSeq: nat
    var wEpoch: nat
    var current: WriteState
    var previous: WriteState
    var transcript: seq<byte>

    ghost predicate Valid()
      reads this
    {
      && |messages| <= FLIGHT && writeSeq < U16
      && FlightOk(messages) && CursorOk(messages, At())
      && current.nonceLen <= current.maxOverhead && previous.nonceLen <= previous.maxOverhead
    }

    function At(): Cursor
      reads this
    {
      Cursor(written, offset)
    }

    constructor (state: WriteState)
      requires state.nonceLen <= state.maxOverhead
      ensures Valid() && messages == [] && transcript == [] && writeSeq == 0
    {
      messages, written, offset, complete, hasReply := [], 0, 0, false, false;
      writeSeq, wEpoch := 0, 0;
      current, previous := state, state;
      transcript := [];
    }

    /** dtls_clear_outgoing_messages */
    method Clear()
      modifies this`messages, this`written, this`offset, this`complete, this`hasReply
      ensures messages == [] && At() == Cursor(0, 0) && !complete && !hasReply
    {
      messages, written, offset, complete, hasReply := [], 0, 0, false, false;
    }

    /**
     * add_outgoing: a message joins the current flight, or starts a new one once the last has
     * been flushed.  Its bytes enter the transcript once, however often they are sent.
     */
    method AddOutgoing(isCcs: bool, data: seq<byte>) returns (ok: bool)
      requires Valid() && (isCcs || SingleFragment(data))
      modifies this
      ensures Valid() && wEpoch == old(wEpoch)
      ensures ok <==> old(complete) || |old(messages)| < FLIGHT
      ensures ok ==> messages == (if old(complete) then [] else old(messages)) + [OutMsg(data, wEpoch, isCcs)]
      ensures ok ==> transcript == old(transcript) + (if isCcs then [] else data)
      ensures ok ==> writeSeq == (if isCcs then old(writeSeq) else (old(writeSeq) + 1) % U16)
      ensures !ok ==> messages == old(messages) && transcript == old(transcript) && writeSeq == old(writeSeq)
      ensures At() == if old(complete) then Cursor(0, 0) else old(At())
    {
      hide SingleFragment;
      if complete {
        Clear();
      }
      if |messages| >= FLIGHT {
        return false;
      }
      if !isCcs {
        transcript := transcript + data;
        writeSeq := (writeSeq + 1) % U16;
      }
      messages := messages + [OutMsg(data, wEpoch, isCcs)];
      return true;
    }

    /** dtls1_set_write_state */
    method SetWriteState(state: WriteState)
      requires Valid() && state.nonceLen <= state.maxOverhead
      modifies this`wEpoch, this`current, this`previous
      ensures Valid() && wEpoch == (old(wEpoch) + 1) % U16 && previous == old(current)
      ensures current == state.(sequence := 0)
    {
      wEpoch := (wEpoch + 1) % U16;
      previous := current;
      current := state.(sequence := 0);
    }

    function Epochs(): Keys
      reads this`wEpoch, this`current, this`previous
    {
      Keys(wEpoch, current, previous)
    }

    function StateFor(usePrevious: bool): WriteState
      reads this`wEpoch, this`current, this`previous
    {
      StateOf(Epochs(), usePrevious)
    }

    /**
     * dtls_seal_record.  The AEAD adds its explicit nonce and at most its maximal overhead; it
     * fails only when the 48-bit record sequence is used up or the record is too long.
     */
    method SealRecord(kind: byte, payload: seq<byte>, usePrevious: bool, maxOut: nat) returns (ok: bool, r: Sent)
      requires Valid() && (usePrevious ==> wEpoch >= 1)
      requires RT_HEADER + |payload| + StateFor(usePrevious).maxOverhead <= maxOut
      modifies this`current, this`previous
      ensures Valid()
      ensures ok ==> r.kind == kind && r.payload == payload && r.size <= maxOut
                     && RT_HEADER + |payload| + StateFor(usePrevious).nonceLen <= r.size < RT_HEADER + U16
                     && r.epoch == (if usePrevious then wEpoch - 1 else wEpoch)
                     && r.number == old(StateFor(usePrevious)).sequence && r.number + 1 < SEQUENCE_END
                     && OneSealed(old(Epochs()), Epochs(), usePrevious)
      ensures !ok ==> old(StateFor(usePrevious)).sequence + 1 >= SEQUENCE_END
                      || |payload| + StateFor(usePrevious).maxOverhead >= U16
      ensures StateFor(usePrevious) == old(StateFor(usePrevious)).(sequence := StateFor(usePrevious).sequence)
      ensures StateFor(usePrevious).sequence ==
                if old(StateFor(usePrevious)).sequence + 1 >= SEQUENCE_END then 0 else old(StateFor(usePrevious)).sequence + 1
      ensures StateFor(!usePrevious) == old(StateFor(!usePrevious))
    {
      var state := StateFor(usePrevious);
      var extra: nat :| state.nonceLen <= extra <= state.maxOverhead;
      r := Sent(if usePrevious then wEpoch - 1 else wEpoch, state.sequence, kind, payload, RT_HEADER + |payload| + extra);
      var next := if state.sequence + 1 >= SEQUENCE_END then 0 else state.sequence + 1;
      if usePrevious {
        previous := state.(sequence := next);
      } else {
        current := state.(sequence := next);
      }
      return next != 0 && |payload| + extra < U16, r;
    }

    /** seal_next_message */
    method SealNextMessage(maxOut: nat) returns (res: SealResult, r: Sent)
      requires Valid() && written < |messages|
      modifies this`offset, this`current, this`previous
      ensures Valid()
      ensures current.maxOverhead == old(current.maxOverhead) && previous.maxOverhead == old(previous.maxOverhead)
      ensures SameKeys(old(Epochs()), Epochs())
      ensures res.SealError? || res.NoProgress? ==> offset == old(offset)
      ensures !Known(Epochs(), messages[written]) ==> res.SealError?
      ensures res.SealError? && Known(Epochs(), messages[written]) && Fits(Epochs(), messages[written], maxOut) ==>
                old(StateOf(Epochs(), UsesPrevious(Epochs(), messages[written]))).sequence + 1 >= SEQUENCE_END
      ensures res.NoProgress? ==> Epochs() == old(Epochs())
      ensures res.PartlySealed? || res.Sealed? ==>
                OneSealed(old(Epochs()), Epochs(), UsesPrevious(Epochs(), messages[written]))
      ensures res.NoProgress? ==> maxOut < Needs(Epochs(), messages[written])
      ensures maxOut < Needs(Epochs(), messages[written]) ==> res.NoProgress? || res.SealError?
      ensures res.PartlySealed? ==> After(messages, old(At()), r) == Some(At()) && offset > 0 && r.size <= maxOut
      ensures res.PartlySealed? ==> |r.payload| + Needs(Epochs(), messages[written]) == HM_HEADER + 1 + maxOut
      ensures res.Sealed? ==>
                After(messages, old(At()), r) == Some(Cursor(written + 1, 0)) && offset == 0 && r.size <= maxOut
    {
      hide FragmentOf, SingleFragment, HeaderOf, BodyOf;
      r := Sent(0, 0, 0, [], 0);
      var m := messages[written];
      var usePrevious := UsesPrevious(Epochs(), m);
      if !usePrevious && m.epoch != wEpoch {
        return SealError, r;
      }
      var state := StateFor(usePrevious);
      var overhead := RT_HEADER + state.maxOverhead;
      var ok;
      if m.isCcs {
        if maxOut < 1 + overhead {
          return NoProgress, r;
        }
        ok, r := SealRecord(RT_CCS, [1], usePrevious, maxOut);
        return if ok then Sealed else SealError, r;
      }
      // The message is a single whole fragment, and the cursor lies within it.
      assert SingleFragment(m.data) && offset <= |BodyOf(m)|;
      var h, body := HeaderOf(m), BodyOf(m);
      if maxOut < HM_HEADER + 1 + overhead {
        return NoProgress, r;
      }
      var todo := |body| - offset;
      if todo > maxOut - HM_HEADER - overhead {
        todo := maxOut - HM_HEADER - overhead;
      }
      // The fragment fits the space behind the record header and explicit nonce.
      assert HM_HEADER + todo <= maxOut - (RT_HEADER + state.nonceLen);
      var fragment := FragmentOf(h, body, offset, todo);
      ok, r := SealRecord(RT_HANDSHAKE, fragment, usePrevious, maxOut);
      if !ok {
        return SealError, r;
      }
      if todo == |body| - offset {
        offset := 0;
        return Sealed, r;
      }
      offset := offset + todo;
      return PartlySealed, r;
    }

    /** Nothing more of the flight fits behind `packet`: it is sent, or its next record needs more room. */
    ghost predicate Full(packet: seq<Sent>, maxOut: nat)
      reads this
    {
      written < |messages| ==>
        if offset == 0 then maxOut < TotalSize(packet) + Needs(Epochs(), messages[written])
        else packet != [] && var last := |packet| - 1;
             |packet[last].payload| + Needs(Epochs(), messages[written]) + TotalSize(packet[..last]) == HM_HEADER + 1 + maxOut
    }

    /** seal_next_packet: as much of the flight as fits `maxOut` bytes. */
    method SealNextPacket(maxOut: nat) returns (res: FlightResult, packet: seq<Sent>)
      requires Valid() && written < |messages|
      modifies this`written, this`offset, this`current, this`previous
      ensures Valid()
      ensures current.maxOverhead == old(current.maxOverhead) && previous.maxOverhead == old(previous.maxOverhead)
      ensures res.Flushed? ==> packet != [] && TotalSize(packet) <= maxOut
      ensures res.Flushed? ==> Chain(messages, old(At()), packet) == Some(At())
      ensures res.Flushed? ==> Full(packet, maxOut)
      ensures !res.BioFailed?
      ensures res.MtuTooSmall? ==> At() == old(At()) && maxOut < Needs(Epochs(), messages[written])
      ensures SameKeys(old(Epochs()), Epochs()) && old(written) <= written <= |messages|
      ensures Passed(messages, old(written), written, Epochs(), maxOut)
      ensures old(Sealable(messages, At(), Epochs(), maxOut)) ==>
                res.Flushed? && Sealable(messages, At(), Epochs(), maxOut)
    {
      hide After, FlightOk, CursorOk, Sealable, Passed, Needs, Known, Fits;
      packet := [];
      var room: nat := maxOut;
      ghost var from, sealable := At(), Sealable(messages, At(), Epochs(), maxOut);
      PassedNone(messages, written, Epochs(), maxOut);
      while written < |messages|
        invariant Valid() && written <= |messages|
        invariant current.maxOverhead == old(current.maxOverhead) && previous.maxOverhead == old(previous.maxOverhead)
        invariant Chain(messages, from, packet) == Some(At()) && TotalSize(packet) + room == maxOut
        invariant packet != [] ==> offset == 0
        invariant packet == [] ==> At() == from && room == maxOut
        invariant SameKeys(old(Epochs()), Epochs()) && old(written) <= written
        invariant Passed(messages, old(written), written, Epochs(), maxOut)
        invariant sealable ==> Sealable(messages, At(), Epochs(), maxOut)
        decreases |messages| - written
      {
        ghost var c, before, k := At(), packet, Epochs();
        if sealable { SealableHere(messages, c, k, maxOut); FitsLess(k, messages[written], room, maxOut); }
        var seal, r := SealNextMessage(room);
        PassedThen(messages, from.written, written, written, k, Epochs(), maxOut);
        KeysAlike(k, Epochs(), messages[written], room);
        if seal.SealError? {
          return SealFailed, packet;
        }
        if seal.NoProgress? {
          assert Full(packet, maxOut) || packet == [];
          assert sealable ==> packet != [];
          break;
        }
        ChainOne(messages, c, r);
        ChainJoins(messages, from, packet, [r]);
        if sealable { StillSealable(messages, c, r, k, Epochs(), UsesPrevious(k, messages[written]), maxOut); }
        assert (packet + [r])[..|packet|] == packet;
        packet := packet + [r];
        room := room - r.size;
        if seal.PartlySealed? {
          assert packet[..|packet| - 1] == before;
          assert Full(packet, maxOut);
          break;
        }
        OnePassed(messages, from.written, written, Epochs(), room + r.size, maxOut);
        written := written + 1;
      }
      if packet == [] {
        return MtuTooSmall, packet;
      }
      return Flushed, packet;
    }

    /** How much is left of the current message. */
    ghost function Left(): nat
      requires Valid()
      reads this
    {
      if written < |messages| && !messages[written].isCcs then |BodyOf(messages[written])| - offset else 0
    }

    /**
     * send_flight.  Every datagram the BIO took fits the MTU, and the cursor stands exactly
     * behind what the BIO took: a datagram it refused is sealed again next time.
     */
    method SendFlight(bio: Bio, mtu: nat, flushOk: bool) returns (res: FlightResult, ghost packets: seq<seq<Sent>>)
      requires Valid()
      modifies this`written, this`offset, this`current, this`previous, bio
      ensures Valid() && bio.datagrams == old(bio.datagrams) + packets
      ensures forall p :: p in packets ==> p != [] && TotalSize(p) <= mtu
      ensures !res.SealFailed? ==> Chain(messages, old(At()), Joined(packets)) == Some(At())
      ensures Chain(messages, old(At()), Joined(packets)).Some?
      ensures res.Flushed? ==> At() == Cursor(|messages|, 0)
      ensures res.MtuTooSmall? ==> written < |messages| && mtu < Needs(Epochs(), messages[written])
      ensures res.Flushed? ==> flushOk && Passed(messages, old(written), |messages|, Epochs(), mtu)
      ensures old(Sealable(messages, At(), Epochs(), mtu) && Accepting(bio.failures)) ==>
                At() == Cursor(|messages|, 0) && res == if flushOk then Flushed else BioFailed
    {
      hide After, FlightOk, CursorOk, Chain, Sealable, Passed, Needs, Known, Fits;
      ghost var from, keys := At(), Epochs();
      ghost var able := Sealable(messages, At(), Epochs(), mtu) && Accepting(bio.failures);
      CursorWithin(messages, At());
      PassedNone(messages, written, Epochs(), mtu);
      packets := [];
      ChainNone(messages, from);
      while written < |messages|
        invariant Valid() && bio.datagrams == old(bio.datagrams) + packets
        invariant forall p :: p in packets ==> p != [] && TotalSize(p) <= mtu
        invariant Chain(messages, from, Joined(packets)) == Some(At())
        invariant SameKeys(keys, Epochs()) && from.written <= written <= |messages|
        invariant Passed(messages, from.written, written, Epochs(), mtu)
        invariant able ==> Sealable(messages, At(), Epochs(), mtu) && Accepting(bio.failures)
        decreases |messages| - written, Left()
      {
        ghost var k := Epochs();
        var oldWritten, oldOffset := written, offset;
        ghost var c := At();
        var packet;
        res, packet := SealNextPacket(mtu);
        if !res.Flushed? {
          return;
        }
        ChainAdvances(messages, c, packet);
        PassedThen(messages, from.written, oldWritten, written, k, Epochs(), mtu);
        if offset > 0 { InsideMessage(messages, At()); }
        if able && bio.failures != [] { AcceptingOn(bio.failures); }
        var ret := bio.Write(packet);
        if ret <= 0 {
          written, offset := oldWritten, oldOffset;
          return BioFailed, packets;
        }
        JoinedOne(packets, packet);
        ChainJoins(messages, from, Joined(packets), packet);
        packets := packets + [packet];
      }
      CursorAtEnd(messages, At());
      return if flushOk then Flushed else BioFailed, packets;
    }

    /** dtls1_flush_flight */
    method FlushFlight(bio: Bio, mtu: nat, flushOk: bool) returns (res: FlightResult, ghost packets: seq<seq<Sent>>)
      requires Valid()
      modifies this`written, this`offset, this`current, this`previous, this`complete, bio
      ensures Valid() && complete && bio.datagrams == old(bio.datagrams) + packets
      ensures forall p :: p in packets ==> p != [] && TotalSize(p) <= mtu
      ensures Chain(messages, old(At()), Joined(packets)).Some?
      ensures !res.SealFailed? ==> Chain(messages, old(At()), Joined(packets)) == Some(At())
      ensures res.Flushed? ==> At() == Cursor(|messages|, 0)
      ensures res.Flushed? ==> flushOk && Passed(messages, old(written), |messages|, Epochs(), mtu)
      ensures old(Sealable(messages, At(), Epochs(), mtu) && Accepting(bio.failures)) ==>
                At() == Cursor(|messages|, 0) && res == if flushOk then Flushed else BioFailed
    {
      hide Chain, FlightOk, CursorOk, Sealable, Passed;
      complete := true;
      res, packets := SendFlight(bio, mtu, flushOk);
    }

    /** dtls1_retransmit_outgoing_messages: the whole flight again, under whatever MTU holds now. */
    method Retransmit(bio: Bio, mtu: nat, flushOk: bool) returns (res: FlightResult, ghost packets: seq<seq<Sent>>)
      requires Valid()
      modifies this`written, this`offset, this`current, this`previous, bio
      ensures Valid() && bio.datagrams == old(bio.datagrams) + packets
      ensures forall p :: p in packets ==> p != [] && TotalSize(p) <= mtu
      ensures Chain(messages, Cursor(0, 0), Joined(packets)).Some?
      ensures !res.SealFailed? ==> Chain(messages, Cursor(0, 0), Joined(packets)) == Some(At())
      ensures res.Flushed? ==> At() == Cursor(|messages|, 0)
      ensures res.Flushed? ==> flushOk && Passed(messages, 0, |messages|, Epochs(), mtu)
      ensures old(FlightOk(messages) && Sealable(messages, Cursor(0, 0), Epochs(), mtu) && Accepting(bio.failures)) ==>
                At() == Cursor(|messages|, 0) && res == if flushOk then Flushed else BioFailed
      ensures res.Flushed? ==> CarriesAll(messages, Joined(packets))
    {
      hide Chain, Sealable, Passed, CarriesAll;
      written, offset := 0, 0;
      res, packets := SendFlight(bio, mtu, flushOk);
      if res.Flushed? { AllCarried(messages, Joined(packets)); }
    }

    /** No AEAD with an overhead up to 202 bytes runs into the MTU, which is at least kMinMTU. */
    lemma MtuSuffices(mtu: nat, m: OutMsg)
      requires mtu >= MIN_MTU && current.maxOverhead <= 202 && previous.maxOverhead <= 202
      ensures Needs(Epochs(), m) <= mtu
    {
    }
  }

  /** The records of some datagrams, in order. */
  function Joined(packets: seq<seq<Sent>>): seq<Sent> {
    if packets == [] then [] else Joined(packets[..|packets| - 1]) + packets[|packets| - 1]
  }

  lemma JoinedOne(packets: seq<seq<Sent>>, packet: seq<Sent>)
    ensures Joined(packets + [packet]) == Joined(packets) + packet
  {
    assert (packets + [packet])[..|packets|] == packets;
  }

  lemma ChainNone(flight: seq<OutMsg>, c: Cursor)
    requires FlightOk(flight) && CursorOk(flight, c)
    ensures Chain(flight, c, []) == Some(c)
  {
  }

  lemma CursorWithin(flight: seq<OutMsg>, c: Cursor)
    requires FlightOk(flight) && CursorOk(flight, c)
    ensures c.written <= |flight|
  {
  }

  lemma CursorAtEnd(flight: seq<OutMsg>, c: Cursor)
    requires FlightOk(flight) && CursorOk(flight, c) && c.written >= |flight|
    ensures c == Cursor(|flight|, 0)
  {
  }

  lemma InsideMessage(flight: seq<OutMsg>, c: Cursor)
    requires FlightOk(flight) && CursorOk(flight, c) && c.offset > 0
    ensures c.written < |flight| && !flight[c.written].isCcs && c.offset < |BodyOf(flight[c.written])|
  {
  }

  predicate Further(c: Cursor, d: Cursor) {
    d.written > c.written || (d.written == c.written && d.offset > c.offset)
  }

  /** Every record moves the cursor forward. */
  lemma {:induction false} ChainAdvances(flight: seq<OutMsg>, c: Cursor, rs: seq<Sent>)
    requires FlightOk(flight) && CursorOk(flight, c) && Chain(flight, c, rs).Some? && rs != []
    ensures Further(c, Chain(flight, c, rs).value)
    decreases |rs|
  {
    hide FlightOk, CursorOk, After;
    StepAdvances(flight, c, rs[0]);
    if |rs| > 1 { ChainAdvances(flight, After(flight, c, rs[0]).value, rs[1..]); }
  }

  lemma StepAdvances(flight: seq<OutMsg>, c: Cursor, r: Sent)
    requires FlightOk(flight) && CursorOk(flight, c) && After(flight, c, r).Some?
    ensures Further(c, After(flight, c, r).value)
  {
    hide HeaderBytes, ParseFragment;
  }
}
