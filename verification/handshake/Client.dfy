/**
 * handshake_client.cc, the TLS 1.2 path: the do_* states on one object, with the peer known
 * only through the wire.  Certificate checks, callbacks and asynchronous operations are choices.
 */
module Client {
  import opened Protocol

  /** What an operation outside the handshake code does: succeed, ask to be retried, or fail. */
  datatype Choice = Proceed | Retry | Refuse

  /** ssl_hs_wait_t.  `Refused` is a failure by choice; the other errors blame the peer. */
  datatype Wait = Ok | Flush | ReadMessage | ReadCcs | Pending | Error(reason: Reason)
  datatype Reason = Refused | UnexpectedMessage | UnexpectedRecord | WrongCipher | OldSessionCipher | BadMac | BadSignature | NoBuffer

  /** The transport: what each side has flushed and the other has not yet read. */
  class Wire {
    var toClient: seq<Item>
    var toServer: seq<Item>

    constructor ()
      ensures toClient == [] && toServer == []
    {
      toClient, toServer := [], [];
    }
  }

  datatype ClientState =
    | StartConnect | EnterEarlyData | ReadServerHello | ReadServerCertificate | ReadCertificateStatus
    | VerifyServerCertificate | ReadServerKeyExchange | ReadCertificateRequest | ReadServerHelloDone
    | SendClientCertificate | SendClientKeyExchange | SendClientCertificateVerify | SendClientFinished
    | FinishFlight | ReadSessionTicket | ProcessChangeCipherSpec | ReadServerFinished | FinishClientHandshake | Done

  function PointOf(s: ClientState, resumed: bool, ccsRead: bool): Point {
    match s
    case StartConnect => AtClientHello
    case EnterEarlyData => AtServerHello
    case ReadServerHello => AtServerHello
    case ReadServerCertificate => AtCertificate
    case ReadCertificateStatus => AtStatus
    case VerifyServerCertificate => AtKeyExchange
    case ReadServerKeyExchange => AtKeyExchange
    case ReadCertificateRequest => AtCertRequest
    case ReadServerHelloDone => AtHelloDone
    case SendClientCertificate => AtClientCert
    case SendClientKeyExchange => AtClientKey
    case SendClientCertificateVerify => AtVerify
    case SendClientFinished => AtClientCcs
    case FinishFlight => if resumed then AtEnd else AtTicket
    case ReadSessionTicket => AtTicket
    case ProcessChangeCipherSpec => if ccsRead then AtServerFinished else AtServerCcs
    case ReadServerFinished => AtServerFinished
    case FinishClientHandshake => AtEnd
    case Done => AtEnd
  }

  /** The order in which a client passes through its states. */
  function Order(s: ClientState, resumed: bool): nat {
    match s
    case StartConnect => 0 case EnterEarlyData => 1 case ReadServerHello => 2 case ReadServerCertificate => 3
    case ReadCertificateStatus => 4 case VerifyServerCertificate => 5 case ReadServerKeyExchange => 6
    case ReadCertificateRequest => 7 case ReadServerHelloDone => 8 case SendClientCertificate => 9
    case SendClientKeyExchange => 10 case SendClientCertificateVerify => 11
    case SendClientFinished => if resumed then 20 else 12
    case FinishFlight => if resumed then 21 else 13
    case ReadSessionTicket => 14 case ProcessChangeCipherSpec => 15 case ReadServerFinished => 16
    case FinishClientHandshake => 22 case Done => 23
  }

  predicate HelloRead(s: ClientState) {
    !s.StartConnect? && !s.EnterEarlyData? && !s.ReadServerHello?
  }

  predicate BeforeRequest(s: ClientState) {
    !HelloRead(s) || s.ReadServerCertificate? || s.ReadCertificateStatus? || s.VerifyServerCertificate?
    || s.ReadServerKeyExchange? || s.ReadCertificateRequest?
  }

  predicate RequestMatters(s: ClientState) {
    s.ReadServerHelloDone? || s.SendClientCertificate? || s.SendClientKeyExchange? || s.SendClientCertificateVerify?
  }

  predicate Finishing(s: ClientState) {
    s.SendClientFinished? || s.FinishFlight?
  }

  /** The states from the end of the client's second flight on, and those of an abbreviated handshake. */
  predicate LateState(s: ClientState) {
    Finishing(s) || s.ReadSessionTicket? || s.ProcessChangeCipherSpec? || s.ReadServerFinished?
    || s.FinishClientHandshake? || s.Done?
  }

  datatype Peeked = Nothing | BadRecord | Got(msg: Msg)

  /** get_message: the first message on the wire, which stays there until next_message. */
  function Peek(items: seq<Item>, opening: bool): Peeked {
    if items == [] then Nothing
    else
      match items[0]
      case ChangeCipher => BadRecord
      case Plain(m) => if opening then BadRecord else Got(m)
      case Sealed(m) => if opening then Got(m) else BadRecord
  }

  /** The first item of the script from a point on. */
  function First(p: Params, a: Point, t: seq<Msg>): Option<Entry>
    decreases 17 - Rank(p.resumed, a)
  {
    RankBound(p.resumed, a);
    if a.AtEnd? || EntryAt(p, a, t).Some? then EntryAt(p, a, t) else First(p, NextPoint(p.resumed, a), t)
  }

  lemma FirstHere(p: Params, a: Point, t: seq<Msg>)
    ensures EntryAt(p, a, t).Some? ==> First(p, a, t) == EntryAt(p, a, t)
    ensures !a.AtEnd? && EntryAt(p, a, t).None? ==> First(p, a, t) == First(p, NextPoint(p.resumed, a), t)
  {
  }

  lemma HelloHere(p: Params, t: seq<Msg>)
    ensures EntryAt(p, AtServerHello, t) == First(p, AtServerHello, t) == Some(Entry(true, Plain(ServerHello(p.hello))))
    ensures NextPoint(p.resumed, AtServerHello) == if p.resumed then AtTicket else AtCertificate
  {
  }

  /** What is on the way to a side starts with the first item of the script from its point on. */
  lemma {:induction false} FirstArrives(p: Params, fromServer: bool, a: Point, t: seq<Msg>, items: seq<Item>, b: Point, u: seq<Msg>)
    requires Path(p, fromServer, a, t, items, b, u)
    ensures items != [] ==> First(p, a, t) == Some(Entry(fromServer, items[0]))
    ensures items == [] ==> t == u && First(p, a, t) == First(p, b, u)
    decreases 17 - Rank(p.resumed, a)
  {
    hide EntryAt, Hashed, Rank, NextPoint;
    RankBound(p.resumed, a);
    if a != b && EntryAt(p, a, t).None? { FirstArrives(p, fromServer, NextPoint(p.resumed, a), t, items, b, u); }
  }

  lemma FirstLinked(p: Params, server: bool, a: Point, t: seq<Msg>, b: Point, u: seq<Msg>, toA: seq<Item>, toB: seq<Item>)
    requires Linked(p, server, a, t, b, u, toA, toB)
    ensures toA != [] ==> First(p, a, t) == Some(Entry(!server, toA[0]))
    ensures toA == [] && toB == [] ==> t == u && First(p, a, t) == First(p, b, u)
  {
    hide Path, First, Rest;
    if toB == [] && Path(p, !server, a, t, toA, b, u) {
      FirstArrives(p, !server, a, t, toA, b, u);
    } else {
      FirstArrives(p, server, b, u, toB, a, t);
    }
  }

  /** The state before the client's NewSessionTicket has been dealt with. */
  predicate TicketAhead(s: ClientState, resumed: bool) {
    s.ReadSessionTicket? || !LateState(s) || (Finishing(s) && !resumed)
  }

  /** The fields of SSL_HANDSHAKE and of the connection that the client's handshake works on. */
  datatype Fields = Fields(state: ClientState, ccsRead: bool, hasBuffer: bool, opening: bool, sealing: bool,
                           resumed: bool, cipher: Cipher, statusExpected: bool, ticketExpected: bool,
                           nextProto: bool, channelId: bool, certRequest: bool)

  const NewClient := Fields(StartConnect, false, true, false, false, false, Cipher(Rsa, true), false, false, false, false, false)

  function At(hs: Fields): Point {
    PointOf(hs.state, hs.resumed, hs.ccsRead)
  }

  /** The settlement is one this client can have with an honest server. */
  predicate Legal(cfg: ClientConfig, p: Params) {
    && p.offer == cfg.offer && p.clientCert == cfg.hasCertificate
    && p.hello.cipher in cfg.offer.ciphers && ValidCipher(p.hello.cipher)
    && (p.hello.cipher.kx == Ecdhe ==> p.keyExchange)
    && (p.keyExchange ==> p.hello.cipher.kx == Ecdhe || !p.hello.cipher.cert)
    && (p.resumed <==> cfg.offer.session != 0 && p.hello.session == cfg.offer.session)
    && (p.resumed ==> cfg.sessionCipher == p.hello.cipher && !p.hello.status && !p.certRequest)
    && (p.certRequest || p.hello.status ==> p.hello.cipher.cert) && (p.status ==> p.hello.status)
  }

  /** From the ServerHello on the client has adopted the settlement. */
  predicate Learned(p: Params, hs: Fields) {
    if HelloRead(hs.state) then
      && hs.resumed == p.resumed && hs.cipher == p.hello.cipher && hs.statusExpected == p.hello.status
      && hs.nextProto == p.hello.npn && hs.channelId == p.hello.channelId
      && (TicketAhead(hs.state, hs.resumed) ==> hs.ticketExpected == p.hello.ticket)
    else !hs.resumed
  }

  /** What the state tells about the other fields. */
  predicate Phase(p: Params, hs: Fields) {
    var s := hs.state;
    && (hs.resumed ==> LateState(s)) && (hs.ccsRead ==> s.ProcessChangeCipherSpec?)
    && (if BeforeRequest(s) then !hs.certRequest else RequestMatters(s) ==> hs.certRequest == p.certRequest)
    && (p.certRequest && p.clientCert && !LateState(s) ==> hs.hasBuffer)
    && (hs.opening ==> s.ReadServerFinished? || (hs.resumed && Finishing(s)) || s.FinishClientHandshake? || s.Done?)
    && (s.ReadServerFinished? ==> hs.opening)
    && (hs.sealing ==> LateState(s) && !s.SendClientFinished?)
    && (hs.sealing && hs.resumed ==> s.FinishFlight? || s.FinishClientHandshake? || s.Done?)
  }

  predicate Knows(cfg: ClientConfig, p: Params, hs: Fields) {
    Legal(cfg, p) && Learned(p, hs) && Phase(p, hs)
  }

  /** What the client adopts from a ServerHello. */
  function Settled(hs: Fields, hello: Hello, reused: bool): Fields {
    hs.(state := if reused then ReadSessionTicket else ReadServerCertificate,
        resumed := reused, cipher := hello.cipher,
        hasBuffer := hs.hasBuffer && !reused && hello.cipher.cert,
        statusExpected := hello.status, ticketExpected := hello.ticket,
        nextProto := hello.npn, channelId := hello.channelId)
  }

  /** An honest ServerHello passes the client's checks, and adopting it keeps what the client knows true. */
  lemma HelloIsLegal(cfg: ClientConfig, p: Params, hs: Fields)
    requires Knows(cfg, p, hs) && hs.state == ReadServerHello
    ensures p.hello.cipher in cfg.offer.ciphers && ValidCipher(p.hello.cipher) && !hs.opening && At(hs) == AtServerHello
    ensures p.resumed <==> cfg.offer.session != 0 && p.hello.session == cfg.offer.session
    ensures p.resumed ==> cfg.sessionCipher == p.hello.cipher
    ensures var next := Settled(hs, p.hello, p.resumed);
            Knows(cfg, p, next) && Onward(hs, next) && At(next) == NextPoint(p.resumed, AtServerHello)
  {
  }

  /** What holds in each state, and that its successor fits. */
  lemma CertificateFacts(cfg: ClientConfig, p: Params, hs: Fields)
    requires Knows(cfg, p, hs) && hs.state == ReadServerCertificate
    ensures At(hs) == AtCertificate && !hs.opening && hs.cipher == p.hello.cipher && !p.resumed
    ensures var next := hs.(state := ReadCertificateStatus);
            Knows(cfg, p, next) && Onward(hs, next) && At(next) == AtStatus
  {
  }

  /** The same before CertificateStatus. */
  lemma StatusFacts(cfg: ClientConfig, p: Params, hs: Fields)
    requires Knows(cfg, p, hs) && hs.state == ReadCertificateStatus
    ensures At(hs) == AtStatus && !hs.opening && hs.statusExpected == p.hello.status && (p.status ==> p.hello.status)
    ensures var next := hs.(state := VerifyServerCertificate);
            Knows(cfg, p, next) && Onward(hs, next) && At(next) == AtKeyExchange
  {
  }

  /** The same before the certificate is verified. */
  lemma VerifyFacts(cfg: ClientConfig, p: Params, hs: Fields)
    requires Knows(cfg, p, hs) && hs.state == VerifyServerCertificate
    ensures At(hs) == AtKeyExchange
    ensures var next := hs.(state := ReadServerKeyExchange);
            Knows(cfg, p, next) && Onward(hs, next) && At(next) == AtKeyExchange
  {
    hide Legal;
  }

  /** The same before ServerKeyExchange. */
  lemma KeyExchangeFacts(cfg: ClientConfig, p: Params, hs: Fields)
    requires Knows(cfg, p, hs) && hs.state == ReadServerKeyExchange
    ensures At(hs) == AtKeyExchange && !hs.opening && hs.cipher == p.hello.cipher
    ensures (p.hello.cipher.kx == Ecdhe ==> p.keyExchange) && (p.keyExchange ==> p.hello.cipher.kx != Rsa)
    ensures var next := hs.(state := ReadCertificateRequest);
            Knows(cfg, p, next) && Onward(hs, next) && At(next) == AtCertRequest
  {
  }

  /** The same before CertificateRequest. */
  lemma RequestFacts(cfg: ClientConfig, p: Params, hs: Fields)
    requires Knows(cfg, p, hs) && hs.state == ReadCertificateRequest
    ensures At(hs) == AtCertRequest && !hs.opening && hs.cipher == p.hello.cipher && (p.certRequest ==> hs.cipher.cert)
    ensures !p.certRequest ==> (var next := hs.(state := ReadServerHelloDone);
              Knows(cfg, p, next) && Onward(hs, next) && At(next) == AtHelloDone)
    ensures !p.certRequest ==> (var next := hs.(state := ReadServerHelloDone, hasBuffer := false);
              Knows(cfg, p, next) && Onward(hs, next) && At(next) == AtHelloDone)
    ensures p.certRequest ==> (var next := hs.(state := ReadServerHelloDone, certRequest := true);
              Knows(cfg, p, next) && Onward(hs, next) && At(next) == AtHelloDone)
  {
  }

  /** The same before ServerHelloDone. */
  lemma HelloDoneFacts(cfg: ClientConfig, p: Params, hs: Fields)
    requires Knows(cfg, p, hs) && hs.state == ReadServerHelloDone
    ensures At(hs) == AtHelloDone && !hs.opening
    ensures var next := hs.(state := SendClientCertificate);
            Knows(cfg, p, next) && Onward(hs, next) && At(next) == AtClientCert
  {
    hide Legal;
  }

  /** The same before the client's Certificate. */
  lemma ClientCertFacts(cfg: ClientConfig, p: Params, hs: Fields)
    requires Knows(cfg, p, hs) && hs.state == SendClientCertificate
    ensures At(hs) == AtClientCert && !hs.sealing && hs.certRequest == p.certRequest && p.clientCert == cfg.hasCertificate
    ensures var next := hs.(state := SendClientKeyExchange);
            Knows(cfg, p, next) && Onward(hs, next) && At(next) == AtClientKey
    ensures var next := hs.(state := SendClientKeyExchange, hasBuffer := hs.hasBuffer && cfg.hasCertificate);
            Knows(cfg, p, next) && Onward(hs, next) && At(next) == AtClientKey
  {
  }

  /** The same before ClientKeyExchange. */
  lemma ClientKeyFacts(cfg: ClientConfig, p: Params, hs: Fields)
    requires Knows(cfg, p, hs) && hs.state == SendClientKeyExchange
    ensures At(hs) == AtClientKey && !hs.sealing
    ensures var next := hs.(state := SendClientCertificateVerify);
            Knows(cfg, p, next) && Onward(hs, next) && At(next) == AtVerify
  {
    hide Legal;
  }

  /** The same before CertificateVerify. */
  lemma ClientVerifyFacts(cfg: ClientConfig, p: Params, hs: Fields)
    requires Knows(cfg, p, hs) && hs.state == SendClientCertificateVerify
    ensures At(hs) == AtVerify && !hs.sealing && hs.certRequest == p.certRequest && p.clientCert == cfg.hasCertificate
    ensures p.certRequest && p.clientCert ==> hs.hasBuffer
    ensures var next := hs.(state := SendClientFinished);
            Knows(cfg, p, next) && Onward(hs, next) && At(next) == AtClientCcs
    ensures var next := hs.(state := SendClientFinished, hasBuffer := false);
            Knows(cfg, p, next) && Onward(hs, next) && At(next) == AtClientCcs
  {
  }

  /** The same before the client's Finished. */
  lemma ClientFinishedFacts(cfg: ClientConfig, p: Params, hs: Fields)
    requires Knows(cfg, p, hs) && hs.state == SendClientFinished
    ensures At(hs) == AtClientCcs && hs.nextProto == p.hello.npn && hs.channelId == p.hello.channelId
            && hs.resumed == p.resumed
    ensures var next := hs.(state := FinishFlight, sealing := true);
            Knows(cfg, p, next) && Onward(hs, next) && At(next) == NextPoint(p.resumed, AtClientFinished)
  {
    hide Legal;
  }

  /** The same once the client's Finished is out. */
  lemma FinishFlightFacts(cfg: ClientConfig, p: Params, hs: Fields)
    requires Knows(cfg, p, hs) && hs.state == FinishFlight
    ensures var next := hs.(state := if hs.resumed then FinishClientHandshake else ReadSessionTicket);
            Knows(cfg, p, next) && Onward(hs, next) && At(next) == At(hs)
  {
    hide Legal;
  }

  /** The same before NewSessionTicket. */
  lemma TicketFacts(cfg: ClientConfig, p: Params, hs: Fields, expected: bool)
    requires Knows(cfg, p, hs) && hs.state == ReadSessionTicket
    ensures At(hs) == AtTicket && !hs.opening && hs.ticketExpected == p.hello.ticket
    ensures var next := hs.(state := ProcessChangeCipherSpec, ticketExpected := expected);
            Knows(cfg, p, next) && Onward(hs, next) && At(next) == AtServerCcs && !next.ccsRead
  {
    hide Legal;
  }

  /** The same before the server's ChangeCipherSpec. */
  lemma CcsFacts(cfg: ClientConfig, p: Params, hs: Fields)
    requires Knows(cfg, p, hs) && hs.state == ProcessChangeCipherSpec
    ensures !hs.ccsRead ==>
              At(hs) == AtServerCcs && Knows(cfg, p, hs.(ccsRead := true)) && At(hs.(ccsRead := true)) == AtServerFinished
  {
    hide Legal;
  }

  /** The same behind it. */
  lemma ProcessCcsFacts(cfg: ClientConfig, p: Params, hs: Fields)
    requires Knows(cfg, p, hs) && hs.state == ProcessChangeCipherSpec
    ensures hs.ccsRead ==> (var next := hs.(state := ReadServerFinished, opening := true, ccsRead := false);
              Knows(cfg, p, next) && Onward(hs, next) && At(next) == At(hs))
  {
    hide Legal;
  }

  /** The same before the server's Finished. */
  lemma ServerFinishedFacts(cfg: ClientConfig, p: Params, hs: Fields)
    requires Knows(cfg, p, hs) && hs.state == ReadServerFinished
    ensures At(hs) == AtServerFinished && hs.opening && hs.resumed == p.resumed
    ensures var next := hs.(state := if hs.resumed then SendClientFinished else FinishClientHandshake);
            Knows(cfg, p, next) && Onward(hs, next) && At(next) == NextPoint(p.resumed, AtServerFinished)
  {
    hide Legal;
  }

  /** The same at the end. */
  lemma DoneFacts(cfg: ClientConfig, p: Params, hs: Fields)
    requires Knows(cfg, p, hs) && hs.state == FinishClientHandshake
    ensures var next := hs.(state := Done); Knows(cfg, p, next) && Onward(hs, next) && At(next) == At(hs)
  {
    hide Legal;
  }

  /** Without a CertificateStatus, announced or not, something else from the server follows. */
  lemma StatusHere(p: Params, t: seq<Msg>)
    ensures p.status ==> First(p, AtStatus, t) == EntryAt(p, AtStatus, t) == Some(Entry(true, Plain(CertificateStatus)))
    ensures !p.status ==>
              exists m :: First(p, AtStatus, t) == Some(Entry(true, Plain(m))) && !m.CertificateStatus?
  {
    FirstHere(p, AtStatus, t);
    KeyExchangeHere(p, t);
  }

  /** Without a ServerKeyExchange something else from the server follows. */
  lemma KeyExchangeHere(p: Params, t: seq<Msg>)
    ensures p.keyExchange ==> First(p, AtKeyExchange, t) == EntryAt(p, AtKeyExchange, t) == Some(Entry(true, Plain(ServerKeyExchange)))
    ensures !p.keyExchange && p.certRequest ==> First(p, AtKeyExchange, t) == Some(Entry(true, Plain(CertificateRequest)))
    ensures !p.keyExchange && !p.certRequest ==> First(p, AtKeyExchange, t) == Some(Entry(true, Plain(ServerHelloDone)))
  {
    FirstHere(p, AtKeyExchange, t);
    RequestHere(p, t);
  }

  lemma RequestHere(p: Params, t: seq<Msg>)
    ensures First(p, AtCertRequest, t) == Some(Entry(true, Plain(if p.certRequest then CertificateRequest else ServerHelloDone)))
  {
    FirstHere(p, AtCertRequest, t);
    FirstHere(p, AtHelloDone, t);
  }

  /** The client at point `a`, its peer at `b`, with what is flushed and what is still in the two flights. */
  ghost predicate OnLine(p: Params, a: Point, t: seq<Msg>, b: Point, u: seq<Msg>,
                         toClient: seq<Item>, serverFlight: seq<Item>, toServer: seq<Item>, clientFlight: seq<Item>) {
    Linked(p, false, a, t, b, u, toClient + serverFlight, toServer + clientFlight)
  }

  /** What the client sends behind its ChangeCipherSpec. */
  lemma FinishPoints(p: Params)
    ensures NextPoint(p.resumed, AtNextProto) == AtChannelId && NextPoint(p.resumed, AtChannelId) == AtClientFinished
    ensures forall t :: EntryAt(p, AtNextProto, t) == When(p.hello.npn, false, Sealed(NextProto))
    ensures forall t :: EntryAt(p, AtChannelId, t) == When(p.hello.channelId, false, Sealed(ChannelId(t)))
    ensures forall t :: EntryAt(p, AtClientFinished, t) == Some(Entry(false, Sealed(Finished(false, t))))
  {
  }

  class ClientSide {
    const cfg: ClientConfig
    const wire: Wire
    var hs: Fields
    var wait: Wait
    var flight: seq<Item>
    var transcript: seq<Msg>

    constructor (cfg: ClientConfig, wire: Wire)
      ensures this.cfg == cfg && this.wire == wire && hs == NewClient && wait == Ok && flight == [] && transcript == []
    {
      this.cfg, this.wire := cfg, wire;
      hs, wait, flight, transcript := NewClient, Ok, [], [];
    }

    /** add_message: the message joins the flight and the transcript. */
    method AddMessage(m: Msg, ghost p: Params, ghost a: Point, ghost b: Point, ghost u: seq<Msg>, ghost f: seq<Item>)
      requires OnLine(p, a, transcript, b, u, wire.toClient, f, wire.toServer, flight) && !a.AtEnd?
      requires EntryAt(p, a, transcript) == Some(Entry(false, if hs.sealing then Sealed(m) else Plain(m)))
      modifies this`flight, this`transcript
      ensures transcript == old(transcript) + [m]
      ensures OnLine(p, NextPoint(p.resumed, a), transcript, b, u, wire.toClient, f, wire.toServer, flight)
    {
      hide Linked, EntryAt, NextPoint;
      var item := if hs.sealing then Sealed(m) else Plain(m);
      Send(p, false, a, transcript, b, u, wire.toClient + f, wire.toServer + flight);
      assert wire.toServer + flight + [item] == wire.toServer + (flight + [item]);
      flight := flight + [item];
      transcript := transcript + [m];
    }

    /** add_change_cipher_spec, for the change of the write keys. */
    method AddChangeCipherSpec(ghost p: Params, ghost b: Point, ghost u: seq<Msg>, ghost f: seq<Item>)
      requires OnLine(p, AtClientCcs, transcript, b, u, wire.toClient, f, wire.toServer, flight)
      modifies this`flight
      ensures OnLine(p, AtNextProto, transcript, b, u, wire.toClient, f, wire.toServer, flight)
    {
      hide Linked;
      Send(p, false, AtClientCcs, transcript, b, u, wire.toClient + f, wire.toServer + flight);
      assert wire.toServer + flight + [ChangeCipher] == wire.toServer + (flight + [ChangeCipher]);
      flight := flight + [ChangeCipher];
    }

    /** get_message: what is there starts the rest of the script. */
    method GetMessage(ghost p: Params, ghost a: Point, ghost b: Point, ghost u: seq<Msg>, ghost f: seq<Item>)
      returns (r: Peeked)
      requires OnLine(p, a, transcript, b, u, wire.toClient, f, wire.toServer, flight)
      ensures r == Peek(wire.toClient, hs.opening)
      ensures !r.Nothing? ==> First(p, a, transcript) == Some(Entry(true, wire.toClient[0]))
    {
      hide Linked, First;
      FirstLinked(p, false, a, transcript, b, u, wire.toClient + f, wire.toServer + flight);
      r := Peek(wire.toClient, hs.opening);
    }

    /** ssl_hash_message and next_message, for the message the script has here. */
    method TakeMessage(m: Msg, ghost p: Params, ghost a: Point, ghost b: Point, ghost u: seq<Msg>, ghost f: seq<Item>)
      requires OnLine(p, a, transcript, b, u, wire.toClient, f, wire.toServer, flight) && !a.AtEnd?
              && EntryAt(p, a, transcript).Some?
      requires wire.toClient != [] && wire.toClient[0] in {Plain(m), Sealed(m)}
      modifies this`transcript, wire`toClient
      ensures transcript == old(transcript) + [m]
              && OnLine(p, NextPoint(p.resumed, a), transcript, b, u, wire.toClient, f, wire.toServer, flight)
    {
      hide Linked, EntryAt, NextPoint;
      Receive(p, false, a, transcript, b, u, wire.toClient + f, wire.toServer + flight);
      assert (wire.toClient + f)[1..] == wire.toClient[1..] + f;
      transcript := transcript + [m];
      wire.toClient := wire.toClient[1..];
    }

    /** Passing a point where nothing comes. */
    lemma Pass(p: Params, a: Point, b: Point, u: seq<Msg>, f: seq<Item>)
      requires OnLine(p, a, transcript, b, u, wire.toClient, f, wire.toServer, flight) && !a.AtEnd?
              && EntryAt(p, a, transcript).None?
      ensures OnLine(p, NextPoint(p.resumed, a), transcript, b, u, wire.toClient, f, wire.toServer, flight)
    {
      hide Linked, EntryAt, NextPoint;
      Skip(p, false, a, transcript, b, u, wire.toClient + f, wire.toServer + flight);
    }

    // ---------------------------------------------------------------- the states

    /** do_start_connect */
    method DoStartConnect(ghost p: Params, ghost b: Point, ghost u: seq<Msg>, ghost f: seq<Item>) returns (ret: Wait)
      requires Knows(cfg, p, hs) && OnLine(p, At(hs), transcript, b, u, wire.toClient, f, wire.toServer, flight)
      requires hs.state == StartConnect
      modifies this, wire`toClient
      ensures Knows(cfg, p, hs)
      ensures OnLine(p, At(hs), transcript, b, u, wire.toClient, f, wire.toServer, flight)
      ensures wait == old(wait) && ret == Flush && Fair(old(hs), hs, ret)
      ensures Goes(ret)
      ensures !hs.state.ProcessChangeCipherSpec?
    {
      hide OnLine;
      AddMessage(ClientHello(cfg.offer), p, AtClientHello, b, u, f);
      hs := hs.(state := EnterEarlyData);
      return Flush;
    }

    /** do_enter_early_data, without early data. */
    method DoEnterEarlyData(ghost p: Params, ghost b: Point, ghost u: seq<Msg>, ghost f: seq<Item>) returns (ret: Wait)
      requires Knows(cfg, p, hs) && OnLine(p, At(hs), transcript, b, u, wire.toClient, f, wire.toServer, flight)
      requires hs.state == EnterEarlyData
      modifies this, wire`toClient
      ensures Knows(cfg, p, hs)
      ensures OnLine(p, At(hs), transcript, b, u, wire.toClient, f, wire.toServer, flight)
      ensures wait == old(wait) && ret == Ok && Fair(old(hs), hs, ret)
      ensures Goes(ret)
      ensures flight == old(flight) && (ret == ReadMessage ==> wire.toClient == [])
      ensures ret != ReadCcs && ret != ReadMessage && !hs.state.ProcessChangeCipherSpec?
    {
      hide OnLine;
      hs := hs.(state := ReadServerHello);
      return Ok;
    }

    /** do_read_server_hello */
    method DoReadServerHello(ghost p: Params, ghost b: Point, ghost u: seq<Msg>, ghost f: seq<Item>) returns (ret: Wait)
      requires Knows(cfg, p, hs) && OnLine(p, At(hs), transcript, b, u, wire.toClient, f, wire.toServer, flight)
      requires hs.state == ReadServerHello
      modifies this, wire`toClient
      ensures Knows(cfg, p, hs)
      ensures OnLine(p, At(hs), transcript, b, u, wire.toClient, f, wire.toServer, flight)
      ensures wait == old(wait) && Fair(old(hs), hs, ret)
      ensures Goes(ret)
      ensures flight == old(flight) && (ret == ReadMessage ==> wire.toClient == [])
      ensures ret != ReadCcs && !hs.state.ProcessChangeCipherSpec?
    {
      hide OnLine, First, EntryAt, NextPoint, Knows, Order;
      HelloHere(p, transcript);
      HelloIsLegal(cfg, p, hs);
      var r := GetMessage(p, AtServerHello, b, u, f);
      if r.Nothing? { return ReadMessage; }
      if r.BadRecord? { return Error(UnexpectedRecord); }
      if !r.msg.ServerHello? { return Error(UnexpectedMessage); }
      var hello := r.msg.hello;
      var reused := cfg.offer.session != 0 && hello.session == cfg.offer.session;
      if hello.cipher !in cfg.offer.ciphers || !ValidCipher(hello.cipher) { return Error(WrongCipher); }
      if reused && cfg.sessionCipher != hello.cipher { return Error(OldSessionCipher); }
      TakeMessage(r.msg, p, AtServerHello, b, u, f);
      hs := Settled(hs, hello, reused);
      return Ok;
    }

    /** do_read_server_certificate */
    method DoReadServerCertificate(choice: Choice, ghost p: Params, ghost b: Point, ghost u: seq<Msg>, ghost f: seq<Item>)
      returns (ret: Wait)
      requires Knows(cfg, p, hs) && OnLine(p, At(hs), transcript, b, u, wire.toClient, f, wire.toServer, flight)
      requires hs.state == ReadServerCertificate
      modifies this, wire`toClient
      ensures Knows(cfg, p, hs)
      ensures OnLine(p, At(hs), transcript, b, u, wire.toClient, f, wire.toServer, flight)
      ensures wait == old(wait) && Fair(old(hs), hs, ret)
      ensures choice == Proceed ==> Goes(ret)
      ensures flight == old(flight) && (ret == ReadMessage ==> wire.toClient == [])
      ensures ret != ReadCcs && !hs.state.ProcessChangeCipherSpec?
    {
      hide OnLine, First, Knows, Order, Onward, At, Index, Rank, Hashed;
      CertificateFacts(cfg, p, hs);
      FirstHere(p, AtCertificate, transcript);
      if !hs.cipher.cert {
        Pass(p, AtCertificate, b, u, f);
        hs := hs.(state := ReadCertificateStatus);
        return Ok;
      }
      var r := GetMessage(p, AtCertificate, b, u, f);
      if r.Nothing? { return ReadMessage; }
      if r.BadRecord? { return Error(UnexpectedRecord); }
      if !r.msg.Certificate? || r.msg.empty { return Error(UnexpectedMessage); }
      if choice == Refuse { return Error(Refused); }
      TakeMessage(r.msg, p, AtCertificate, b, u, f);
      hs := hs.(state := ReadCertificateStatus);
      return Ok;
    }

    /** do_read_certificate_status: the server may leave the message out after all. */
    method DoReadCertificateStatus(ghost p: Params, ghost b: Point, ghost u: seq<Msg>, ghost f: seq<Item>)
      returns (ret: Wait)
      requires Knows(cfg, p, hs) && OnLine(p, At(hs), transcript, b, u, wire.toClient, f, wire.toServer, flight)
      requires hs.state == ReadCertificateStatus
      modifies this, wire`toClient
      ensures Knows(cfg, p, hs)
      ensures OnLine(p, At(hs), transcript, b, u, wire.toClient, f, wire.toServer, flight)
      ensures wait == old(wait) && Fair(old(hs), hs, ret)
      ensures Goes(ret)
      ensures flight == old(flight) && (ret == ReadMessage ==> wire.toClient == [])
      ensures ret != ReadCcs && !hs.state.ProcessChangeCipherSpec?
    {
      hide OnLine, First, Knows, Order, Onward, At, Index, Rank, Hashed;
      StatusFacts(cfg, p, hs);
      StatusHere(p, transcript);
      if !hs.statusExpected {
        Pass(p, AtStatus, b, u, f);
        hs := hs.(state := VerifyServerCertificate);
        return Ok;
      }
      var r := GetMessage(p, AtStatus, b, u, f);
      if r.Nothing? { return ReadMessage; }
      if r.BadRecord? { return Error(UnexpectedRecord); }
      if !r.msg.CertificateStatus? {
        Pass(p, AtStatus, b, u, f);
        hs := hs.(state := VerifyServerCertificate);
        return Ok;
      }
      TakeMessage(r.msg, p, AtStatus, b, u, f);
      hs := hs.(state := VerifyServerCertificate);
      return Ok;
    }

    /** do_verify_server_certificate */
    method DoVerifyServerCertificate(choice: Choice, ghost p: Params, ghost b: Point, ghost u: seq<Msg>, ghost f: seq<Item>)
      returns (ret: Wait)
      requires Knows(cfg, p, hs) && OnLine(p, At(hs), transcript, b, u, wire.toClient, f, wire.toServer, flight)
      requires hs.state == VerifyServerCertificate
      modifies this, wire`toClient
      ensures Knows(cfg, p, hs)
      ensures OnLine(p, At(hs), transcript, b, u, wire.toClient, f, wire.toServer, flight)
      ensures wait == old(wait) && Fair(old(hs), hs, ret)
      ensures choice == Proceed ==> Goes(ret)
      ensures flight == old(flight) && (ret == ReadMessage ==> wire.toClient == [])
      ensures ret != ReadCcs && ret != ReadMessage && !hs.state.ProcessChangeCipherSpec?
    {
      hide OnLine, First, Knows, Order, Onward, At, Index, Rank, Hashed;
      VerifyFacts(cfg, p, hs);
      if hs.cipher.cert {
        if choice == Retry { return Pending; }
        if choice == Refuse { return Error(Refused); }
      }
      hs := hs.(state := ReadServerKeyExchange);
      return Ok;
    }

    /** do_read_server_key_exchange: PSK suites without ECDHE may leave the message out. */
    method DoReadServerKeyExchange(choice: Choice, ghost p: Params, ghost b: Point, ghost u: seq<Msg>, ghost f: seq<Item>)
      returns (ret: Wait)
      requires Knows(cfg, p, hs) && OnLine(p, At(hs), transcript, b, u, wire.toClient, f, wire.toServer, flight)
      requires hs.state == ReadServerKeyExchange
      modifies this, wire`toClient
      ensures Knows(cfg, p, hs)
      ensures OnLine(p, At(hs), transcript, b, u, wire.toClient, f, wire.toServer, flight)
      ensures wait == old(wait) && Fair(old(hs), hs, ret)
      ensures choice == Proceed ==> Goes(ret)
      ensures flight == old(flight) && (ret == ReadMessage ==> wire.toClient == [])
      ensures ret != ReadCcs && !hs.state.ProcessChangeCipherSpec?
    {
      hide OnLine, First, Knows, Order, Onward, At, Index, Rank, Hashed;
      KeyExchangeFacts(cfg, p, hs);
      KeyExchangeHere(p, transcript);
      var r := GetMessage(p, AtKeyExchange, b, u, f);
      if r.Nothing? { return ReadMessage; }
      if r.BadRecord? { return Error(UnexpectedRecord); }
      if !r.msg.ServerKeyExchange? {
        if hs.cipher.kx == Ecdhe { return Error(UnexpectedMessage); }
        Pass(p, AtKeyExchange, b, u, f);
        hs := hs.(state := ReadCertificateRequest);
        return Ok;
      }
      if hs.cipher.kx != Ecdhe && hs.cipher.kx != Psk { return Error(UnexpectedMessage); }
      if choice == Refuse { return Error(Refused); }
      TakeMessage(r.msg, p, AtKeyExchange, b, u, f);
      hs := hs.(state := ReadCertificateRequest);
      return Ok;
    }

    /** do_read_certificate_request */
    method DoReadCertificateRequest(ghost p: Params, ghost b: Point, ghost u: seq<Msg>, ghost f: seq<Item>)
      returns (ret: Wait)
      requires Knows(cfg, p, hs) && OnLine(p, At(hs), transcript, b, u, wire.toClient, f, wire.toServer, flight)
      requires hs.state == ReadCertificateRequest
      modifies this, wire`toClient
      ensures Knows(cfg, p, hs)
      ensures OnLine(p, At(hs), transcript, b, u, wire.toClient, f, wire.toServer, flight)
      ensures wait == old(wait) && Fair(old(hs), hs, ret)
      ensures Goes(ret)
      ensures flight == old(flight) && (ret == ReadMessage ==> wire.toClient == [])
      ensures ret != ReadCcs && !hs.state.ProcessChangeCipherSpec?
    {
      hide OnLine, First, Knows, Order, Onward, At, Index, Rank, Hashed;
      RequestFacts(cfg, p, hs);
      RequestHere(p, transcript);
      if !hs.cipher.cert {
        Pass(p, AtCertRequest, b, u, f);
        hs := hs.(state := ReadServerHelloDone);
        return Ok;
      }
      var r := GetMessage(p, AtCertRequest, b, u, f);
      if r.Nothing? { return ReadMessage; }
      if r.BadRecord? { return Error(UnexpectedRecord); }
      if r.msg.ServerHelloDone? {
        Pass(p, AtCertRequest, b, u, f);
        hs := hs.(state := ReadServerHelloDone, hasBuffer := false);
        return Ok;
      }
      if !r.msg.CertificateRequest? { return Error(UnexpectedMessage); }
      TakeMessage(r.msg, p, AtCertRequest, b, u, f);
      hs := hs.(state := ReadServerHelloDone, certRequest := true);
      return Ok;
    }

    /** do_read_server_hello_done */
    method DoReadServerHelloDone(ghost p: Params, ghost b: Point, ghost u: seq<Msg>, ghost f: seq<Item>)
      returns (ret: Wait)
      requires Knows(cfg, p, hs) && OnLine(p, At(hs), transcript, b, u, wire.toClient, f, wire.toServer, flight)
      requires hs.state == ReadServerHelloDone
      modifies this, wire`toClient
      ensures Knows(cfg, p, hs)
      ensures OnLine(p, At(hs), transcript, b, u, wire.toClient, f, wire.toServer, flight)
      ensures wait == old(wait) && Fair(old(hs), hs, ret)
      ensures Goes(ret)
      ensures flight == old(flight) && (ret == ReadMessage ==> wire.toClient == [])
      ensures ret != ReadCcs && !hs.state.ProcessChangeCipherSpec?
    {
      hide OnLine, First, Knows, Order, Onward, At, Index, Rank, Hashed;
      HelloDoneFacts(cfg, p, hs);
      FirstHere(p, AtHelloDone, transcript);
      var r := GetMessage(p, AtHelloDone, b, u, f);
      if r.Nothing? { return ReadMessage; }
      if r.BadRecord? { return Error(UnexpectedRecord); }
      if !r.msg.ServerHelloDone? { return Error(UnexpectedMessage); }
      TakeMessage(r.msg, p, AtHelloDone, b, u, f);
      hs := hs.(state := SendClientCertificate);
      return Ok;
    }

    /** do_send_client_certificate */
    method DoSendClientCertificate(choice: Choice, ghost p: Params, ghost b: Point, ghost u: seq<Msg>, ghost f: seq<Item>)
      returns (ret: Wait)
      requires Knows(cfg, p, hs) && OnLine(p, At(hs), transcript, b, u, wire.toClient, f, wire.toServer, flight)
      requires hs.state == SendClientCertificate
      modifies this, wire`toClient
      ensures Knows(cfg, p, hs)
      ensures OnLine(p, At(hs), transcript, b, u, wire.toClient, f, wire.toServer, flight)
      ensures wait == old(wait) && Fair(old(hs), hs, ret)
      ensures choice == Proceed ==> Goes(ret)
      ensures (ret == Ok ==> Sending(hs.state)) && ret != ReadMessage && ret != ReadCcs && ret != Flush
      ensures !hs.state.ProcessChangeCipherSpec?
      ensures ret == Pending ==> flight == old(flight)
    {
      hide OnLine, First, Knows, Order, Onward, At, Index, Rank, Hashed;
      ClientCertFacts(cfg, p, hs);
      if !hs.certRequest {
        Pass(p, AtClientCert, b, u, f);
        hs := hs.(state := SendClientKeyExchange);
        return Ok;
      }
      if choice == Retry { return Pending; }
      if choice == Refuse { return Error(Refused); }
      AddMessage(Certificate(!cfg.hasCertificate), p, AtClientCert, b, u, f);
      hs := hs.(state := SendClientKeyExchange, hasBuffer := hs.hasBuffer && cfg.hasCertificate);
      return Ok;
    }

    /** do_send_client_key_exchange */
    method DoSendClientKeyExchange(choice: Choice, ghost p: Params, ghost b: Point, ghost u: seq<Msg>, ghost f: seq<Item>)
      returns (ret: Wait)
      requires Knows(cfg, p, hs) && OnLine(p, At(hs), transcript, b, u, wire.toClient, f, wire.toServer, flight)
      requires hs.state == SendClientKeyExchange
      modifies this, wire`toClient
      ensures Knows(cfg, p, hs)
      ensures OnLine(p, At(hs), transcript, b, u, wire.toClient, f, wire.toServer, flight)
      ensures wait == old(wait) && Fair(old(hs), hs, ret)
      ensures choice == Proceed ==> Goes(ret)
      ensures (ret == Ok ==> Sending(hs.state)) && ret != ReadMessage && ret != ReadCcs && ret != Flush
      ensures !hs.state.ProcessChangeCipherSpec?
      ensures ret == Pending ==> flight == old(flight)
    {
      hide OnLine, First, Knows, Order, Onward, At, Index, Rank, Hashed;
      ClientKeyFacts(cfg, p, hs);
      if choice == Refuse { return Error(Refused); }
      AddMessage(ClientKeyExchange, p, AtClientKey, b, u, f);
      hs := hs.(state := SendClientCertificateVerify);
      return Ok;
    }

    /** do_send_client_certificate_verify: the signature covers the handshake so far, which must still be buffered. */
    method DoSendClientCertificateVerify(choice: Choice, ghost p: Params, ghost b: Point, ghost u: seq<Msg>, ghost f: seq<Item>)
      returns (ret: Wait)
      requires Knows(cfg, p, hs) && OnLine(p, At(hs), transcript, b, u, wire.toClient, f, wire.toServer, flight)
      requires hs.state == SendClientCertificateVerify
      modifies this, wire`toClient
      ensures Knows(cfg, p, hs)
      ensures OnLine(p, At(hs), transcript, b, u, wire.toClient, f, wire.toServer, flight)
      ensures wait == old(wait) && Fair(old(hs), hs, ret)
      ensures choice == Proceed ==> Goes(ret)
      ensures (ret == Ok ==> Sending(hs.state)) && ret != ReadMessage && ret != ReadCcs && ret != Flush
      ensures !hs.state.ProcessChangeCipherSpec?
      ensures ret == Pending ==> flight == old(flight)
    {
      hide OnLine, First, Knows, Order, Onward, At, Index, Rank, Hashed;
      ClientVerifyFacts(cfg, p, hs);
      if !hs.certRequest || !cfg.hasCertificate {
        Pass(p, AtVerify, b, u, f);
        hs := hs.(state := SendClientFinished);
        return Ok;
      }
      if choice == Retry { return Pending; }
      if choice == Refuse { return Error(Refused); }
      if !hs.hasBuffer { return Error(NoBuffer); }
      AddMessage(CertificateVerify(transcript), p, AtVerify, b, u, f);
      hs := hs.(state := SendClientFinished, hasBuffer := false);
      return Ok;
    }

    /** do_send_client_finished: everything that can ask for a retry comes before the first message. */
    method DoSendClientFinished(choice: Choice, ghost p: Params, ghost b: Point, ghost u: seq<Msg>, ghost f: seq<Item>)
      returns (ret: Wait)
      requires Knows(cfg, p, hs) && OnLine(p, At(hs), transcript, b, u, wire.toClient, f, wire.toServer, flight)
      requires hs.state == SendClientFinished
      modifies this, wire`toClient
      ensures Knows(cfg, p, hs)
      ensures OnLine(p, At(hs), transcript, b, u, wire.toClient, f, wire.toServer, flight)
      ensures wait == old(wait) && Fair(old(hs), hs, ret)
      ensures choice == Proceed ==> Goes(ret)
      ensures ret != Ok
      ensures ret != ReadMessage && ret != ReadCcs
      ensures !hs.state.ProcessChangeCipherSpec?
      ensures ret == Pending ==> flight == old(flight)
    {
      hide OnLine, First, Knows, Order, Onward, At, Index, Rank, Hashed, EntryAt, NextPoint;
      ClientFinishedFacts(cfg, p, hs);
      if hs.channelId {
        if choice == Refuse { return Error(Refused); }
        if choice == Retry { return Pending; }
      }
      SendFinished(p, b, u, f);
      hs := hs.(state := FinishFlight, sealing := true);
      return Flush;
    }

    /** ChangeCipherSpec, then NextProtocol, Channel ID and Finished under the new keys. */
    method SendFinished(ghost p: Params, ghost b: Point, ghost u: seq<Msg>, ghost f: seq<Item>)
      requires OnLine(p, AtClientCcs, transcript, b, u, wire.toClient, f, wire.toServer, flight)
              && hs.nextProto == p.hello.npn && hs.channelId == p.hello.channelId
      modifies this`flight, this`transcript, this`hs
      ensures OnLine(p, NextPoint(p.resumed, AtClientFinished), transcript, b, u, wire.toClient, f, wire.toServer, flight) && hs == old(hs).(sealing := true)
    {
      hide OnLine, EntryAt, NextPoint;
      FinishPoints(p);
      AddChangeCipherSpec(p, b, u, f);
      hs := hs.(sealing := true);
      if hs.nextProto {
        AddMessage(NextProto, p, AtNextProto, b, u, f);
      } else {
        Pass(p, AtNextProto, b, u, f);
      }
      if hs.channelId {
        AddMessage(ChannelId(transcript), p, AtChannelId, b, u, f);
      } else {
        Pass(p, AtChannelId, b, u, f);
      }
      AddMessage(Finished(false, transcript), p, AtClientFinished, b, u, f);
    }

    /** do_finish_flight, without False Start. */
    method DoFinishFlight(ghost p: Params, ghost b: Point, ghost u: seq<Msg>, ghost f: seq<Item>) returns (ret: Wait)
      requires Knows(cfg, p, hs) && OnLine(p, At(hs), transcript, b, u, wire.toClient, f, wire.toServer, flight)
      requires hs.state == FinishFlight
      modifies this, wire`toClient
      ensures Knows(cfg, p, hs)
      ensures OnLine(p, At(hs), transcript, b, u, wire.toClient, f, wire.toServer, flight)
      ensures wait == old(wait) && Fair(old(hs), hs, ret)
      ensures Goes(ret)
      ensures flight == old(flight) && (ret == ReadMessage ==> wire.toClient == [])
      ensures ret != ReadCcs && ret != ReadMessage && !hs.state.ProcessChangeCipherSpec?
    {
      hide OnLine, First, Knows, Order, Onward, At, Index, Rank, Hashed;
      FinishFlightFacts(cfg, p, hs);
      hs := hs.(state := if hs.resumed then FinishClientHandshake else ReadSessionTicket);
      return Ok;
    }

    /** do_read_session_ticket */
    method DoReadSessionTicket(ghost p: Params, ghost b: Point, ghost u: seq<Msg>, ghost f: seq<Item>)
      returns (ret: Wait)
      requires Knows(cfg, p, hs) && OnLine(p, At(hs), transcript, b, u, wire.toClient, f, wire.toServer, flight)
      requires hs.state == ReadSessionTicket
      modifies this, wire`toClient
      ensures Knows(cfg, p, hs)
      ensures OnLine(p, At(hs), transcript, b, u, wire.toClient, f, wire.toServer, flight)
      ensures wait == old(wait) && Fair(old(hs), hs, ret)
      ensures Goes(ret)
      ensures ret == ReadCcs ==> hs.state.ProcessChangeCipherSpec? && !hs.ccsRead
      ensures ret != Ok
      ensures flight == old(flight) && (ret == ReadMessage ==> wire.toClient == [])
      ensures ret == ReadCcs || ret == ReadMessage || ret.Error?
    {
      hide OnLine, First, Knows, Order, Onward, At, Index, Rank, Hashed;
      TicketFacts(cfg, p, hs, hs.ticketExpected);
      FirstHere(p, AtTicket, transcript);
      if !hs.ticketExpected {
        Pass(p, AtTicket, b, u, f);
        hs := hs.(state := ProcessChangeCipherSpec);
        return ReadCcs;
      }
      var r := GetMessage(p, AtTicket, b, u, f);
      if r.Nothing? { return ReadMessage; }
      if r.BadRecord? { return Error(UnexpectedRecord); }
      if !r.msg.NewSessionTicket? { return Error(UnexpectedMessage); }
      var expected := hs.ticketExpected && !r.msg.empty;
      TicketFacts(cfg, p, hs, expected);
      TakeMessage(r.msg, p, AtTicket, b, u, f);
      hs := hs.(state := ProcessChangeCipherSpec, ticketExpected := expected);
      return ReadCcs;
    }

    /** ssl_open_change_cipher_spec, while the handshake waits for it. */
    method OpenChangeCipherSpec(ghost p: Params, ghost b: Point, ghost u: seq<Msg>, ghost f: seq<Item>)
      returns (ret: Wait)
      requires Knows(cfg, p, hs) && OnLine(p, At(hs), transcript, b, u, wire.toClient, f, wire.toServer, flight)
      requires hs.state == ProcessChangeCipherSpec && !hs.ccsRead
      modifies this, wire`toClient
      ensures Knows(cfg, p, hs)
      ensures OnLine(p, At(hs), transcript, b, u, wire.toClient, f, wire.toServer, flight)
      ensures wait == old(wait) && NoBlame(ret)
      ensures ret in {Ok, ReadCcs}
      ensures if ret == Ok then hs == old(hs).(ccsRead := true) else hs == old(hs)
      ensures ret == ReadCcs ==> wire.toClient == []
      ensures flight == old(flight) && (ret == ReadMessage ==> wire.toClient == [])
    {
      hide OnLine, First, Knows, Order, Onward, At, Index, Rank, Hashed;
      CcsFacts(cfg, p, hs);
      if wire.toClient == [] { return ReadCcs; }
      CcsArrives(p, b, u, f);
      if wire.toClient[0] != ChangeCipher { return Error(UnexpectedRecord); }
      TakeChangeCipherSpec(p, b, u, f);
      hs := hs.(ccsRead := true);
      return Ok;
    }

    method TakeChangeCipherSpec(ghost p: Params, ghost b: Point, ghost u: seq<Msg>, ghost f: seq<Item>)
      requires OnLine(p, AtServerCcs, transcript, b, u, wire.toClient, f, wire.toServer, flight) && wire.toClient != []
      modifies wire`toClient
      ensures OnLine(p, AtServerFinished, transcript, b, u, wire.toClient, f, wire.toServer, flight)
    {
      hide Linked;
      CcsArrives(p, b, u, f);
      wire.toClient := wire.toClient[1..];
    }

    /** What is on the way when the server's ChangeCipherSpec is due. */
    lemma CcsArrives(p: Params, b: Point, u: seq<Msg>, f: seq<Item>)
      requires OnLine(p, AtServerCcs, transcript, b, u, wire.toClient, f, wire.toServer, flight) && wire.toClient != []
      ensures wire.toClient[0] == ChangeCipher
      ensures Linked(p, false, AtServerFinished, transcript, b, u, wire.toClient[1..] + f, wire.toServer + flight)
    {
      hide Linked;
      Receive(p, false, AtServerCcs, transcript, b, u, wire.toClient + f, wire.toServer + flight);
      assert (wire.toClient + f)[1..] == wire.toClient[1..] + f;
    }

    /** do_process_change_cipher_spec */
    method DoProcessChangeCipherSpec(ghost p: Params, ghost b: Point, ghost u: seq<Msg>, ghost f: seq<Item>)
      returns (ret: Wait)
      requires Knows(cfg, p, hs) && OnLine(p, At(hs), transcript, b, u, wire.toClient, f, wire.toServer, flight)
      requires hs.state == ProcessChangeCipherSpec && hs.ccsRead
      modifies this, wire`toClient
      ensures Knows(cfg, p, hs)
      ensures OnLine(p, At(hs), transcript, b, u, wire.toClient, f, wire.toServer, flight)
      ensures wait == old(wait) && ret == Ok && Fair(old(hs), hs, ret)
      ensures Goes(ret)
      ensures flight == old(flight) && (ret == ReadMessage ==> wire.toClient == [])
      ensures ret != ReadCcs && ret != ReadMessage && !hs.state.ProcessChangeCipherSpec?
    {
      hide OnLine, First, Knows, Order, Onward, At, Index, Rank, Hashed;
      ProcessCcsFacts(cfg, p, hs);
      hs := hs.(state := ReadServerFinished, opening := true, ccsRead := false);
      return Ok;
    }

    /** do_read_server_finished: the MAC covers exactly the client's transcript. */
    method DoReadServerFinished(ghost p: Params, ghost b: Point, ghost u: seq<Msg>, ghost f: seq<Item>)
      returns (ret: Wait)
      requires Knows(cfg, p, hs) && OnLine(p, At(hs), transcript, b, u, wire.toClient, f, wire.toServer, flight)
      requires hs.state == ReadServerFinished
      modifies this, wire`toClient
      ensures Knows(cfg, p, hs)
      ensures OnLine(p, At(hs), transcript, b, u, wire.toClient, f, wire.toServer, flight)
      ensures wait == old(wait) && Fair(old(hs), hs, ret)
      ensures Goes(ret)
      ensures flight == old(flight) && (ret == ReadMessage ==> wire.toClient == [])
      ensures ret != ReadCcs && !hs.state.ProcessChangeCipherSpec?
    {
      hide OnLine, First, Knows, Order, Onward, At, Index, Rank, Hashed;
      ServerFinishedFacts(cfg, p, hs);
      FirstHere(p, AtServerFinished, transcript);
      var r := GetMessage(p, AtServerFinished, b, u, f);
      if r.Nothing? { return ReadMessage; }
      if r.BadRecord? { return Error(UnexpectedRecord); }
      if !r.msg.Finished? { return Error(UnexpectedMessage); }
      if !r.msg.fromServer || r.msg.mac != transcript { return Error(BadMac); }
      TakeMessage(r.msg, p, AtServerFinished, b, u, f);
      hs := hs.(state := if hs.resumed then SendClientFinished else FinishClientHandshake);
      return Ok;
    }

    /** do_finish_client_handshake */
    method DoFinishClientHandshake(ghost p: Params, ghost b: Point, ghost u: seq<Msg>, ghost f: seq<Item>)
      returns (ret: Wait)
      requires Knows(cfg, p, hs) && OnLine(p, At(hs), transcript, b, u, wire.toClient, f, wire.toServer, flight)
      requires hs.state == FinishClientHandshake
      modifies this, wire`toClient
      ensures Knows(cfg, p, hs)
      ensures OnLine(p, At(hs), transcript, b, u, wire.toClient, f, wire.toServer, flight)
      ensures wait == old(wait) && Fair(old(hs), hs, ret)
      ensures Goes(ret)
      ensures flight == old(flight) && (ret == ReadMessage ==> wire.toClient == [])
      ensures ret != ReadCcs && ret != ReadMessage && !hs.state.ProcessChangeCipherSpec?
    {
      hide OnLine, First, Knows, Order, Onward, At, Index, Rank, Hashed;
      DoneFacts(cfg, p, hs);
      hs := hs.(state := Done);
      return Ok;
    }

    // ---------------------------------------------------------------- the driver

    /** The dispatch of ssl_client_handshake on a state other than Done. */
    method Step(choice: Choice, ghost p: Params, ghost b: Point, ghost u: seq<Msg>, ghost f: seq<Item>)
      returns (ret: Wait)
      requires Knows(cfg, p, hs)
      requires OnLine(p, At(hs), transcript, b, u, wire.toClient, f, wire.toServer, flight)
      requires hs.state != Done && (hs.state.ProcessChangeCipherSpec? ==> hs.ccsRead)
      requires flight == [] || Sending(hs.state)
      modifies this, wire`toClient
      ensures Knows(cfg, p, hs)
      ensures OnLine(p, At(hs), transcript, b, u, wire.toClient, f, wire.toServer, flight)
      ensures wait == old(wait) && Fair(old(hs), hs, ret)
      ensures choice == Proceed ==> Goes(ret)
      ensures ret == Ok || ret == Pending ==> flight == [] || Sending(hs.state)
      ensures ret == Ok ==> !hs.state.ProcessChangeCipherSpec?
      ensures ret == ReadCcs <==> (hs.state.ProcessChangeCipherSpec? && !hs.ccsRead)
      ensures ret == ReadMessage ==> wire.toClient == [] && Reading(hs.state)
      ensures ret == ReadMessage || ret == ReadCcs ==> flight == []
    {
      hide OnLine, Knows, At, Onward;
      match hs.state {
        case StartConnect => ret := DoStartConnect(p, b, u, f);
        case EnterEarlyData => ret := DoEnterEarlyData(p, b, u, f);
        case ReadServerHello => ret := DoReadServerHello(p, b, u, f);
        case ReadServerCertificate => ret := DoReadServerCertificate(choice, p, b, u, f);
        case ReadCertificateStatus => ret := DoReadCertificateStatus(p, b, u, f);
        case VerifyServerCertificate => ret := DoVerifyServerCertificate(choice, p, b, u, f);
        case ReadServerKeyExchange => ret := DoReadServerKeyExchange(choice, p, b, u, f);
        case ReadCertificateRequest => ret := DoReadCertificateRequest(p, b, u, f);
        case ReadServerHelloDone => ret := DoReadServerHelloDone(p, b, u, f);
        case SendClientCertificate => ret := DoSendClientCertificate(choice, p, b, u, f);
        case SendClientKeyExchange => ret := DoSendClientKeyExchange(choice, p, b, u, f);
        case SendClientCertificateVerify => ret := DoSendClientCertificateVerify(choice, p, b, u, f);
        case SendClientFinished => ret := DoSendClientFinished(choice, p, b, u, f);
        case FinishFlight => ret := DoFinishFlight(p, b, u, f);
        case ReadSessionTicket => ret := DoReadSessionTicket(p, b, u, f);
        case ProcessChangeCipherSpec => ret := DoProcessChangeCipherSpec(p, b, u, f);
        case ReadServerFinished => ret := DoReadServerFinished(p, b, u, f);
        case FinishClientHandshake => ret := DoFinishClientHandshake(p, b, u, f);
      }
    }

    /** Where ssl_run_handshake stands when it returns: done, failed, blocked on the peer, or waiting for an operation. */
    ghost predicate Paused()
      reads this, wire
    {
      && (wait.Ok? <==> hs.state == Done)
      && (wait.Flush? || flight == [] || Sending(hs.state) || wait.Error?)
      && (hs.state.ProcessChangeCipherSpec? && !wait.Error? ==> (wait.ReadCcs? <==> !hs.ccsRead))
      && (wait.ReadCcs? ==> hs.state.ProcessChangeCipherSpec?)
      && (wait.ReadMessage? ==> Reading(hs.state))
    }

    /** The client can do nothing before something arrives. */
    ghost predicate Blocked()
      reads this, wire
    {
      wire.toClient == [] && flight == [] && (wait.ReadMessage? || wait.ReadCcs?)
    }

    /**
     * One turn of ssl_run_handshake: resolve what the handshake waits for, then run states
     * until one has to wait.  `choices` are the outcomes of the operations.
     */
    method Run(choices: seq<Choice>, ghost p: Params, ghost b: Point, ghost u: seq<Msg>, ghost f: seq<Item>)
      requires Knows(cfg, p, hs)
      requires OnLine(p, At(hs), transcript, b, u, wire.toClient, f, wire.toServer, flight)
      requires Paused() || (hs == NewClient && wait.Ok? && flight == [])
      modifies this, wire
      ensures Knows(cfg, p, hs)
      ensures OnLine(p, At(hs), transcript, b, u, wire.toClient, f, wire.toServer, flight)
      ensures Paused() && (NoBlame(old(wait)) ==> NoBlame(wait))
      ensures choices == [] && !old(wait.Error?) ==> Goes(wait)
      ensures Goes(wait) ==> Onward(old(hs), hs) || (hs == old(hs) && (hs.state == Done || Blocked()))
      ensures old(wait.Flush?) || wire.toServer == old(wire.toServer)
    {
      hide OnLine, Knows, At, Onward, Order;
      if wait.Error? || hs.state == Done { return; }
      if wait.Flush? {
        FlushFlight(p, b, u, f);
      } else if wait.ReadCcs? {
        var r := OpenChangeCipherSpec(p, b, u, f);
        wait := r;
        if r != Ok { return; }
        OnwardAnyway(old(hs));
      }
      RunStates(choices, p, b, u, f);
    }

    /** The loop of ssl_client_handshake. */
    method RunStates(choices: seq<Choice>, ghost p: Params, ghost b: Point, ghost u: seq<Msg>, ghost f: seq<Item>)
      requires Knows(cfg, p, hs)
      requires OnLine(p, At(hs), transcript, b, u, wire.toClient, f, wire.toServer, flight)
      requires (hs.state.ProcessChangeCipherSpec? ==> hs.ccsRead) && (flight == [] || Sending(hs.state))
      modifies this, wire`toClient
      ensures Knows(cfg, p, hs)
      ensures OnLine(p, At(hs), transcript, b, u, wire.toClient, f, wire.toServer, flight)
      ensures Paused() && NoBlame(wait)
      ensures choices == [] ==> Goes(wait)
      ensures Onward(old(hs), hs) || (hs == old(hs) && (Blocked() || hs.state == Done || wait.Error? || wait.Pending?))
    {
      hide OnLine, Knows, At, Onward, Order;
      wait := Ok;
      ghost var start := hs;
      var i := 0;
      while hs.state != Done
        invariant Knows(cfg, p, hs) && wait == Ok
        invariant OnLine(p, At(hs), transcript, b, u, wire.toClient, f, wire.toServer, flight)
        invariant hs.state.ProcessChangeCipherSpec? ==> hs.ccsRead
        invariant flight == [] || Sending(hs.state)
        invariant hs == start || Onward(start, hs)
        decreases 24 - Order(hs.state, hs.resumed)
      {
        var choice := if i < |choices| then choices[i] else Proceed;
        i := i + 1;
        ghost var was := hs;
        var ret := Step(choice, p, b, u, f);
        OnwardAgain(start, was, hs);
        if ret != Ok {
          wait := ret;
          return;
        }
        OrderBelow(was, hs);
      }
    }

    /** flush_flight */
    method FlushFlight(ghost p: Params, ghost b: Point, ghost u: seq<Msg>, ghost f: seq<Item>)
      requires OnLine(p, At(hs), transcript, b, u, wire.toClient, f, wire.toServer, flight)
      modifies this`flight, wire`toServer
      ensures OnLine(p, At(hs), transcript, b, u, wire.toClient, f, wire.toServer, flight)
      ensures flight == [] && wire.toServer == old(wire.toServer) + old(flight)
    {
      hide Linked, At;
      assert wire.toServer + flight + [] == wire.toServer + flight;
      wire.toServer := wire.toServer + flight;
      flight := [];
    }
  }

  /** The order does not depend on the ChangeCipherSpec. */
  lemma OnwardAnyway(was: Fields)
    ensures forall now: Fields :: Onward(was.(ccsRead := true), now) ==> Onward(was, now)
  {
  }

  lemma OnwardAgain(first: Fields, was: Fields, now: Fields)
    ensures Onward(first, was) && Onward(was, now) ==> Onward(first, now)
  {
  }

  lemma OrderBelow(was: Fields, now: Fields)
    requires Onward(was, now)
    ensures Order(was.state, was.resumed) < Order(now.state, now.resumed) <= 23
  {
  }

  /** The states in which messages may wait to be flushed. */
  predicate Sending(s: ClientState) {
    s.SendClientKeyExchange? || s.SendClientCertificateVerify? || s.SendClientFinished?
  }

  /** The states that wait for the server. */
  predicate Reading(s: ClientState) {
    s.ReadServerHello? || s.ReadServerCertificate? || s.ReadCertificateStatus? || s.ReadServerKeyExchange?
    || s.ReadCertificateRequest? || s.ReadServerHelloDone? || s.ReadSessionTicket? || s.ReadServerFinished?
  }

  /** The handshake has moved to a later state. */
  predicate Onward(was: Fields, now: Fields) {
    Order(now.state, now.resumed) > Order(was.state, was.resumed)
  }

  /** A step that goes on moves to a later state, any other leaves the state alone; no error blames the peer. */
  predicate Fair(was: Fields, now: Fields, ret: Wait) {
    && NoBlame(ret) && (ret.Flush? ==> !now.state.Done?)
    && if ret.Ok? || ret.Flush? || ret.ReadCcs? then Onward(was, now) else now == was
  }

  /** Not an error for which the peer would be to blame. */
  predicate NoBlame(w: Wait) {
    w.Error? ==> w.reason == Refused
  }

  /** The handshake goes on, or waits for the peer. */
  predicate Goes(w: Wait) {
    !w.Error? && !w.Pending?
  }
}
