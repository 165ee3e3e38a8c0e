/**
 * The sender and the receiver of d1_both.cc themselves, at the two ends of a network that loses,
 * repeats and reorders the datagrams of the sender: any run of their operations.
 */
module DtlsRuns {
  import opened Bits
  import opened Reassembly
  import opened DtlsReceive
  import opened DtlsEndToEnd
  import DtlsSend

  /** One operation on either side. */
  datatype Op =
    | Send(kind: byte, body: seq<byte>)                 // init_message, the body, finish_message, add_message
    | SendCcs                                           // add_change_cipher_spec
    | SetWriteState(state: DtlsSend.WriteState)         // dtls1_set_write_state
    | Flush(mtu: nat, flushOk: bool)                    // dtls1_flush_flight
    | Retransmit(mtu: nat, flushOk: bool)               // the timer has fired
    | Forget                                            // dtls_clear_outgoing_messages
    | Deliver(i: nat, j: nat, nullCipher: bool, epoch: nat) // record `j` of datagram `i` arrives, again or for the first time
    | DeliverData(data: seq<byte>, nullCipher: bool, epoch: nat) // application data arrives, perhaps before its time
    | TakeCcs                                           // dtls1_open_change_cipher_spec
    | Take                                              // dtls1_get_message and dtls1_next_message

  // ---------------------------------------------------------------- the sender's account

  function Flat(raws: seq<seq<byte>>): seq<byte> {
    if raws == [] then [] else Flat(raws[..|raws| - 1]) + raws[|raws| - 1]
  }

  predicate BodiesOk(sent: seq<Msg>) {
    |sent| < U16 && forall m :: m in sent ==> |m.body| < U24
  }

  /**
   * The sender has queued `sent` so far: it numbers them from 0, its flight holds some of them
   * under their numbers, and its transcript is all of them as if unfragmented.
   */
  ghost predicate HasSent(sent: seq<Msg>, messages: seq<DtlsSend.OutMsg>, writeSeq: nat, transcript: seq<byte>) {
    && BodiesOk(sent) && writeSeq == |sent| && FlightOf(sent, messages)
    && transcript == Flat(Transcript(sent, |sent|))
  }

  /** The payload of every handshake record in the datagrams is in `net`. */
  ghost predicate InNet(net: set<seq<byte>>, datagrams: seq<seq<DtlsSend.Sent>>) {
    forall i, j :: 0 <= i < |datagrams| && 0 <= j < |datagrams[i]| && datagrams[i][j].kind != RT_CCS ==>
      datagrams[i][j].payload in net
  }

  lemma FlatOneMore(raws: seq<seq<byte>>, raw: seq<byte>)
    ensures Flat(raws + [raw]) == Flat(raws) + raw
  {
    assert (raws + [raw])[..|raws|] == raws;
  }

  /** One more message joins the flight, which may have been emptied before. */
  lemma SentOneMore(sent: seq<Msg>, m: Msg, messages: seq<DtlsSend.OutMsg>, rest: seq<DtlsSend.OutMsg>, o: DtlsSend.OutMsg,
                    transcript: seq<byte>)
    requires HasSent(sent, messages, |sent|, transcript) && BodiesOk(sent + [m])
    requires rest == messages || rest == []
    requires !o.isCcs && o.data == DtlsSend.Raw(m.kind, |sent|, m.body)
    ensures HasSent(sent + [m], rest + [o], |sent| + 1, transcript + o.data)
  {
    hide HeaderBytes;
    var more := sent + [m];
    TranscriptKeeps(sent, m, |sent|);
    FlatOneMore(Transcript(sent, |sent|), o.data);
    assert IsNumber(more, o, |sent|);
    forall x | x in rest + [o] && !x.isCcs ensures exists i :: IsNumber(more, x, i) {
      if x in rest {
        var i :| IsNumber(sent, x, i);
        assert IsNumber(more, x, i);
      }
    }
  }

  lemma CcsOneMore(sent: seq<Msg>, messages: seq<DtlsSend.OutMsg>, rest: seq<DtlsSend.OutMsg>, o: DtlsSend.OutMsg)
    requires FlightOf(sent, messages) && (rest == messages || rest == []) && o.isCcs
    ensures FlightOf(sent, rest + [o])
  {
  }

  lemma {:induction false} TranscriptGrows(sent: seq<Msg>, n: nat, k: nat)
    requires n <= k <= |sent| && BodiesOk(sent)
    ensures Flat(Transcript(sent, n)) <= Flat(Transcript(sent, k))
    decreases k
  {
    hide DtlsSend.Raw;
    if n < k {
      TranscriptGrows(sent, n, k - 1);
      FlatOneMore(Transcript(sent, k - 1), DtlsSend.Raw(sent[k - 1].kind, k - 1, sent[k - 1].body));
    }
  }

  lemma JoinedHas(packets: seq<seq<DtlsSend.Sent>>, i: nat, j: nat)
    requires i < |packets| && j < |packets[i]|
    ensures packets[i][j] in DtlsSend.Joined(packets)
    decreases |packets|
  {
    if i < |packets| - 1 { JoinedHas(packets[..|packets| - 1], i, j); }
  }

  /** What the network may deliver after the sender has put out more datagrams. */
  ghost function NetOf(net: set<seq<byte>>, rs: seq<DtlsSend.Sent>): set<seq<byte>> {
    net + set r | r in rs && r.kind != RT_CCS :: r.payload
  }

  /** The datagrams a flight leaves behind hold only pieces of the sender's messages. */
  lemma PutOut(w: World, maxLen: nat, flight: seq<DtlsSend.OutMsg>, c: DtlsSend.Cursor,
               datagrams: seq<seq<DtlsSend.Sent>>, packets: seq<seq<DtlsSend.Sent>>)
    requires Inv(w, maxLen) && FlightOf(w.sent, flight) && DtlsSend.FlightOk(flight) && DtlsSend.CursorOk(flight, c)
    requires DtlsSend.Chain(flight, c, DtlsSend.Joined(packets)).Some? && InNet(w.net, datagrams)
    ensures var net := NetOf(w.net, DtlsSend.Joined(packets));
            Inv(w.(net := net), maxLen) && InNet(net, datagrams + packets)
  {
    hide FaithfulRx, DtlsSend.Chain, DtlsSend.FlightOk, DtlsSend.CursorOk, FlightOf, OnWire, DtlsSend.Joined, Transcript;
    var rs := DtlsSend.Joined(packets);
    var net := NetOf(w.net, rs);
    forall record | record in net ensures OnWire(w.sent, record) {
      if record !in w.net {
        var r :| r in rs && r.kind != RT_CCS && r.payload == record;
        SentIsOnWire(w.sent, maxLen, flight, c, rs, r);
      }
    }
    forall i, j | 0 <= i < |datagrams + packets| && 0 <= j < |(datagrams + packets)[i]|
                  && (datagrams + packets)[i][j].kind != RT_CCS
      ensures (datagrams + packets)[i][j].payload in net
    {
      if i >= |datagrams| { JoinedHas(packets, i - |datagrams|, j); }
    }
  }

  // ---------------------------------------------------------------- single operations

  /** A message is built, numbered and queued. */
  method SendMessage(sender: DtlsSend.Sender, kind: byte, body: seq<byte>, ghost sent: seq<Msg>) returns (ok: bool, ghost more: seq<Msg>)
    requires sender.Valid() && HasSent(sent, sender.messages, sender.writeSeq, sender.transcript)
    requires |sent| + 1 < U16 && |body| < U24
    modifies sender
    ensures sender.Valid() && HasSent(more, sender.messages, sender.writeSeq, sender.transcript)
    ensures more == if ok then sent + [Msg(kind, body)] else sent
  {
    hide HasSent, DtlsSend.FlightOk, DtlsSend.CursorOk, DtlsSend.SingleFragment, DtlsSend.Raw;
    NumberIs(sent, sender.messages, sender.writeSeq, sender.transcript);
    more := sent + [Msg(kind, body)];
    BodiesMore(sent, Msg(kind, body));
    RawIsSingleFragment(more, |sent|);
    ghost var was, transcript := sender.messages, sender.transcript;
    var data := DtlsSend.BuildMessage(kind, sender.writeSeq, body);
    ok := sender.AddOutgoing(false, data);
    if ok {
      ghost var rest := sender.messages[..|sender.messages| - 1];
      assert sender.messages == rest + [sender.messages[|sender.messages| - 1]];
      SentOneMore(sent, Msg(kind, body), was, rest, sender.messages[|sender.messages| - 1], transcript);
    } else {
      more := sent;
    }
  }

  lemma NumberIs(sent: seq<Msg>, messages: seq<DtlsSend.OutMsg>, writeSeq: nat, transcript: seq<byte>)
    requires HasSent(sent, messages, writeSeq, transcript)
    ensures writeSeq == |sent| && BodiesOk(sent)
  {
  }

  lemma BodiesMore(sent: seq<Msg>, m: Msg)
    requires BodiesOk(sent) && |sent| + 1 < U16 && |m.body| < U24
    ensures BodiesOk(sent + [m])
  {
  }

  /** A ChangeCipherSpec joins the flight, and a cleared flight is empty; neither touches the transcript. */
  method SendOther(sender: DtlsSend.Sender, ccs: bool, ghost sent: seq<Msg>)
    requires sender.Valid() && HasSent(sent, sender.messages, sender.writeSeq, sender.transcript)
    modifies sender
    ensures sender.Valid() && HasSent(sent, sender.messages, sender.writeSeq, sender.transcript)
  {
    hide DtlsSend.SingleFragment, FlightOf, Transcript, Flat;
    ghost var was := sender.messages;
    if ccs {
      var ok := sender.AddOutgoing(true, []);
      assert sender.transcript == old(sender.transcript);
      if ok {
        ghost var rest := sender.messages[..|sender.messages| - 1];
        assert sender.messages == rest + [sender.messages[|sender.messages| - 1]];
        CcsOneMore(sent, was, rest, sender.messages[|sender.messages| - 1]);
      }
    } else {
      sender.Clear();
      NoFlight(sent);
    }
  }

  lemma NoFlight(sent: seq<Msg>)
    ensures FlightOf(sent, []) && DtlsSend.FlightOk([])
  {
  }

  /** The flight goes out from where it stands, or again from its start; `net` is what may arrive from then on. */
  method PutFlight(sender: DtlsSend.Sender, bio: DtlsSend.Bio, again: bool, mtu: nat, flushOk: bool, ghost w: World, maxLen: nat)
    returns (ghost net: set<seq<byte>>)
    requires sender.Valid() && Inv(w, maxLen) && InNet(w.net, bio.datagrams)
    requires HasSent(w.sent, sender.messages, sender.writeSeq, sender.transcript)
    modifies sender, bio
    ensures sender.Valid() && HasSent(w.sent, sender.messages, sender.writeSeq, sender.transcript)
    ensures Inv(w.(net := net), maxLen) && InNet(net, bio.datagrams)
  {
    hide HasSent, Inv, InNet, FlightOf, DtlsSend.FlightOk, DtlsSend.CursorOk, DtlsSend.Chain, DtlsSend.Joined, DtlsSend.TotalSize;
    ghost var c, flight, was := if again then DtlsSend.Cursor(0, 0) else sender.At(), sender.messages, bio.datagrams;
    StartOfFlight(flight);
    FlightIs(w.sent, sender.messages, sender.writeSeq, sender.transcript);
    var res;
    ghost var packets;
    if again {
      res, packets := sender.Retransmit(bio, mtu, flushOk);
    } else {
      res, packets := sender.FlushFlight(bio, mtu, flushOk);
    }
    net := NetOf(w.net, DtlsSend.Joined(packets));
    PutOut(w, maxLen, flight, c, was, packets);
  }

  lemma StartOfFlight(flight: seq<DtlsSend.OutMsg>)
    ensures DtlsSend.FlightOk(flight) ==> DtlsSend.CursorOk(flight, DtlsSend.Cursor(0, 0))
  {
  }

  lemma FlightIs(sent: seq<Msg>, messages: seq<DtlsSend.OutMsg>, writeSeq: nat, transcript: seq<byte>)
    requires HasSent(sent, messages, writeSeq, transcript)
    ensures FlightOf(sent, messages)
  {
  }

  /** A piece of a message that is seven ahead of the awaited one, or in epoch 1 of another than the awaited one. */
  ghost predicate Unwelcome(sent: seq<Msg>, awaited: nat, epoch: nat, record: seq<byte>) {
    |sent| < U16 && exists p: Piece ::
      && PieceOf(sent, p) && |sent[p.i].body| < U24 && record == Payload(sent, p)
      && (p.i == awaited + FLIGHT || (epoch == 1 && p.i != awaited))
  }

  /** The records a receiver must not be given. */
  ghost predicate Forbidden(sent: seq<Msg>, awaited: nat, epoch: nat, r: DtlsSend.Sent, nullCipher: bool) {
    || (r.kind == RT_APPLICATION_DATA && nullCipher)
    || (r.kind == RT_CCS && (!nullCipher || r.payload != [1]))
    || (r.kind == RT_HANDSHAKE && Unwelcome(sent, awaited, epoch, r.payload))
    || (r.kind != RT_APPLICATION_DATA && r.kind != RT_CCS && r.kind != RT_HANDSHAKE)
  }

  /**
   * A record of the network, or one of any other kind, arrives.  It is refused exactly if it is
   * forbidden; application data of the new epoch is discarded, and everything else is taken in.
   */
  method Arrive(receiver: Receiver, r: DtlsSend.Sent, nullCipher: bool, epoch: nat, maxLen: nat, ghost w: World)
    returns (ret: Opened, ghost next: World)
    requires receiver.Valid() && Inv(w, maxLen) && w.rx == receiver.View()
    requires r.kind == RT_HANDSHAKE ==> r.payload in w.net
    modifies receiver.Repr
    ensures receiver.Valid() && fresh(receiver.Repr - old(receiver.Repr))
    ensures next == w.(rx := receiver.View()) && Inv(next, maxLen)
    ensures ret.Refused? <==> Forbidden(w.sent, w.rx.readSeq, epoch, r, nullCipher)
    ensures ret.Discarded? <==> r.kind == RT_APPLICATION_DATA && !nullCipher
    ensures receiver.View().readSeq == w.rx.readSeq
    ensures receiver.View().ccs <==> w.rx.ccs || (r.kind == RT_CCS && ret.Success?)
  {
    hide Inv, HandleRecord, Receiver.Valid, Receiver.View, Unwelcome;
    ret := receiver.OpenHandshake(r.kind, r.payload, nullCipher, epoch, maxLen);
    next := w.(rx := receiver.View());
    if r.kind == RT_HANDSHAKE {
      ArriveKeeps(w, maxLen, r.payload, epoch);
      ArriveAnswer(w, maxLen, r.payload, epoch);
    } else {
      OtherKeeps(w, maxLen, receiver.View());
    }
  }

  lemma ArriveKeeps(w: World, maxLen: nat, record: seq<byte>, epoch: nat)
    requires Inv(w, maxLen) && record in w.net
    ensures RingOk(w.rx) && Inv(w.(rx := HandleRecord(w.rx, epoch, maxLen, record).rx), maxLen)
  {
    hide HandleRecord, FaithfulRx, OnWire, Transcript;
    var v := w.(epoch := epoch, failed := false);
    FaithfulRing(w.sent, w.rx);
    DeliverKeeps(v, maxLen, record);
  }

  /** An honest record is handled without error unless it is unwelcome. */
  lemma ArriveAnswer(w: World, maxLen: nat, record: seq<byte>, epoch: nat)
    requires Inv(w, maxLen) && record in w.net
    ensures RingOk(w.rx)
    ensures var r := HandleRecord(w.rx, epoch, maxLen, record);
            && r.rx.readSeq == w.rx.readSeq && r.rx.ccs == w.rx.ccs
            && (r.error.Some? <==> Unwelcome(w.sent, w.rx.readSeq, epoch, record))
  {
    hide HandleRecord, FaithfulRx, Transcript, Payload;
    FaithfulRing(w.sent, w.rx);
    HandledKeepsCcs(w.rx, epoch, maxLen, record);
    var p :| PieceOf(w.sent, p) && record == Payload(w.sent, p);
    PieceHandled(w.sent, w.rx, epoch, maxLen, p);
    forall q: Piece | PieceOf(w.sent, q) && |w.sent[q.i].body| < U24 && record == Payload(w.sent, q) ensures q.i == p.i {
      PayloadNumber(w.sent, p);
      PayloadNumber(w.sent, q);
    }
  }

  lemma {:induction false} HandledKeepsCcs(rx: Rx, epoch: nat, maxLen: nat, record: seq<byte>)
    requires RingOk(rx)
    ensures HandleRecord(rx, epoch, maxLen, record).rx.ccs == rx.ccs
    decreases |record|
  {
    hide Laid, Complete;
    var c := ParseFragment(record);
    if record != [] && c.Some? {
      HandledInRing(rx, epoch, maxLen, c.value.h, c.value.body);
      HandledKeepsCcs(HandleFragment(rx, epoch, maxLen, c.value.h, c.value.body).rx, epoch, maxLen, c.value.rest);
    }
  }

  /** A record says which message it is a piece of. */
  lemma PayloadNumber(sent: seq<Msg>, p: Piece)
    requires |sent| < U16 && PieceOf(sent, p) && |sent[p.i].body| < U24
    ensures ParseFragment(Payload(sent, p)).Some? && ParseFragment(Payload(sent, p)).value.h.seqNo == p.i
  {
    hide HeaderBytes, ParseFragment;
    ParsesBack(PieceHeader(sent, p), PieceBody(sent, p), []);
    assert HeaderBytes(PieceHeader(sent, p)) + PieceBody(sent, p) + [] == Payload(sent, p);
  }

  lemma OtherKeeps(w: World, maxLen: nat, rx: Rx)
    requires Inv(w, maxLen) && rx.slots == w.rx.slots && rx.readSeq == w.rx.readSeq
    ensures Inv(w.(rx := rx), maxLen)
  {
    hide OnWire, Transcript, Faithful;
  }

  /** The awaited message is taken if it is complete. */
  method TakeMessage(receiver: Receiver, maxLen: nat, taken: seq<seq<byte>>, ghost w: World) returns (now: seq<seq<byte>>, ghost next: World)
    requires receiver.Valid() && Inv(w, maxLen) && w.rx == receiver.View() && taken == w.taken
    modifies receiver
    ensures receiver.Valid() && receiver.Repr == old(receiver.Repr)
    ensures next == w.(rx := receiver.View(), taken := now) && Inv(next, maxLen)
  {
    hide Inv, Receiver.Valid, CurrentComplete, RawOf;
    var ok, kind, body, raw := receiver.GetMessage();
    now, next := taken, w;
    if ok {
      AwaitedTaken(w, maxLen);
      receiver.NextMessage();
      now := taken + [raw];
      next := w.(rx := receiver.View(), taken := now);
    }
  }

  lemma AwaitedTaken(w: World, maxLen: nat)
    requires Inv(w, maxLen) && RingOk(w.rx) && CurrentComplete(w.rx)
    ensures var raw := RawOf(w.rx.slots[w.rx.readSeq % FLIGHT].value);
            Inv(w.(rx := Taken(w.rx), taken := w.taken + [raw]), maxLen)
  {
    hide Inv, RawOf;
    InvKeepsFlag(w, maxLen);
    TakeKeeps(w.(failed := false), maxLen);
    InvKeepsFlag(Next(w.(failed := false), maxLen, Event.Take), maxLen);
  }

  /** The invariant does not depend on the epoch or on a failure. */
  lemma InvKeepsFlag(w: World, maxLen: nat)
    requires Inv(w, maxLen)
    ensures SizesOk(w.sent, maxLen)
    ensures forall failed: bool :: Inv(w.(failed := failed), maxLen)
  {
  }

  // ---------------------------------------------------------------- every run

  /**
   * Any run: the sender queues, sends, fails, rewinds and cuts anew as the MTU changes, across
   * changes of the epoch; the records it has put out arrive any number of times, in any order
   * or not at all.  The messages taken are the first ones sent, byte for byte the beginning of
   * the sender's own transcript.  A record is refused exactly if one was forbidden when it came.
   */
  method Exchange(sender: DtlsSend.Sender, receiver: Receiver, bio: DtlsSend.Bio, ops: seq<Op>, maxLen: nat)
    returns (taken: seq<seq<byte>>, refused: bool, ghost sent: seq<Msg>, ghost forbidden: bool)
    requires sender.Valid() && sender.messages == [] && sender.transcript == [] && sender.writeSeq == 0
    requires receiver.Valid() && receiver.View() == NoMessages && {sender, bio} !! receiver.Repr
    requires bio.datagrams == [] && maxLen < U24
    modifies sender, receiver, receiver.Repr, bio
    ensures |sent| < U16 && (forall m :: m in sent ==> |m.body| < U24) && |taken| <= |sent|
    ensures sender.Valid() && sender.writeSeq == |sent| && FlightOf(sent, sender.messages)
    ensures sender.transcript == Flat(Transcript(sent, |sent|))
    ensures taken == Transcript(sent, |taken|) && Flat(taken) <= sender.transcript
    ensures receiver.Valid() && RingOk(receiver.View()) && receiver.View().readSeq == |taken|
    ensures refused <==> forbidden
  {
    hide Inv, InNet, HasSent, Receiver.Valid, Receiver.View, DtlsSend.FlightOk, DtlsSend.CursorOk, Unwelcome;
    taken, refused, forbidden := [], false, false;
    ghost var w := Start;
    AtFirst(maxLen);
    for i := 0 to |ops|
      invariant sender.Valid() && receiver.Valid()
      invariant fresh(receiver.Repr - old(receiver.Repr)) && {sender, bio} !! receiver.Repr
      invariant HasSent(w.sent, sender.messages, sender.writeSeq, sender.transcript)
      invariant Inv(w, maxLen) && w.rx == receiver.View() && w.taken == taken
      invariant InNet(w.net, bio.datagrams)
      invariant refused <==> forbidden
    {
      match ops[i] {
        case Send(kind, body) =>
          NumberIs(w.sent, sender.messages, sender.writeSeq, sender.transcript);
          if sender.writeSeq + 1 < U16 && |body| <= maxLen {
            var ok;
            ghost var more;
            ok, more := SendMessage(sender, kind, body, w.sent);
            if ok { WriteStays(w, maxLen, Msg(kind, body)); }
            w := w.(sent := more);
          }
        case SendCcs =>
          SendOther(sender, true, w.sent);
        case Forget =>
          SendOther(sender, false, w.sent);
        case SetWriteState(state) =>
          if state.nonceLen <= state.maxOverhead {
            sender.SetWriteState(state);
          }
        case Flush(mtu, flushOk) =>
          ghost var net := PutFlight(sender, bio, false, mtu, flushOk, w, maxLen);
          w := w.(net := net);
        case Retransmit(mtu, flushOk) =>
          ghost var net := PutFlight(sender, bio, true, mtu, flushOk, w, maxLen);
          w := w.(net := net);
        case Deliver(m, n, nullCipher, epoch) =>
          if m < |bio.datagrams| && n < |bio.datagrams[m]| {
            InNetHas(w.net, bio.datagrams, m, n);
            var ret;
            forbidden := forbidden || Forbidden(w.sent, w.rx.readSeq, epoch, bio.datagrams[m][n], nullCipher);
            ret, w := Arrive(receiver, bio.datagrams[m][n], nullCipher, epoch, maxLen, w);
            refused := refused || ret.Refused?;
          }
        case DeliverData(data, nullCipher, epoch) =>
          forbidden := forbidden || nullCipher;
          var ret;
          ret, w := Arrive(receiver, DtlsSend.Sent(epoch, 0, RT_APPLICATION_DATA, data, 0), nullCipher, epoch, maxLen, w);
          refused := refused || ret.Refused?;
        case TakeCcs =>
          var ccs := receiver.TakeChangeCipherSpec();
          OtherKeeps(w, maxLen, receiver.View());
          w := w.(rx := receiver.View());
        case Take =>
          taken, w := TakeMessage(receiver, maxLen, taken, w);
      }
    }
    sent := w.sent;
    AtLast(w, maxLen, sender.messages, sender.writeSeq, sender.transcript);
  }

  lemma AtFirst(maxLen: nat)
    requires maxLen < U24
    ensures Inv(Start, maxLen) && HasSent([], [], 0, []) && InNet({}, [])
  {
    StartInv(maxLen);
  }

  lemma WriteStays(w: World, maxLen: nat, m: Msg)
    requires Inv(w, maxLen) && |w.sent| + 1 < U16 && |m.body| <= maxLen
    ensures Inv(w.(sent := w.sent + [m]), maxLen)
  {
    hide OnWire, Transcript;
    FaithfulRing(w.sent, w.rx);
    WriteKeeps(w, maxLen, m);
  }

  lemma InNetHas(net: set<seq<byte>>, datagrams: seq<seq<DtlsSend.Sent>>, i: nat, j: nat)
    requires InNet(net, datagrams) && i < |datagrams| && j < |datagrams[i]|
    ensures datagrams[i][j].kind == RT_CCS || datagrams[i][j].payload in net
  {
  }

  lemma AtLast(w: World, maxLen: nat, messages: seq<DtlsSend.OutMsg>, writeSeq: nat, transcript: seq<byte>)
    requires Inv(w, maxLen) && HasSent(w.sent, messages, writeSeq, transcript)
    ensures |w.taken| <= |w.sent| < U16 && (forall m :: m in w.sent ==> |m.body| < U24)
    ensures writeSeq == |w.sent| && FlightOf(w.sent, messages) && transcript == Flat(Transcript(w.sent, |w.sent|))
    ensures w.taken == Transcript(w.sent, |w.taken|) && Flat(w.taken) <= transcript
    ensures RingOk(w.rx) && w.rx.readSeq == |w.taken|
  {
    hide FlightOf, OnWire, Flat, Transcript;
    FaithfulRing(w.sent, w.rx);
    TranscriptGrows(w.sent, |w.taken|, |w.sent|);
  }
}
