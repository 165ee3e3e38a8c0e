/**
 * handshake_server.cc, the TLS 1.2 path: the do_* states on one object, with the peer known
 * only through the wire.  Callbacks, certificate checks and asynchronous operations are choices.
 */
module Server {
  import opened Protocol
  import opened Client

  datatype ServerState =
    | StartAccept | ReadClientHello | SelectCertificate | SelectParameters | SendServerHello | SendServerCertificate
    | SendServerKeyExchange | SendServerHelloDone | ReadClientCertificate | VerifyClientCertificate
    | ReadClientKeyExchange | ReadClientCertificateVerify | ReadChangeCipherSpec | ProcessCipherChange
    | ReadNextProto | ReadChannelId | ReadClientFinished | SendServerFinished | FinishServerHandshake | Complete

  function PlaceOf(s: ServerState, ccsTaken: bool): Point {
    match s
    case StartAccept => AtClientHello
    case ReadClientHello => AtClientHello
    case SelectCertificate => AtClientHello
    case SelectParameters => AtClientHello
    case SendServerHello => AtServerHello
    case SendServerCertificate => AtCertificate
    case SendServerKeyExchange => AtKeyExchange
    case SendServerHelloDone => AtCertRequest
    case ReadClientCertificate => AtClientCert
    case VerifyClientCertificate => AtClientKey
    case ReadClientKeyExchange => AtClientKey
    case ReadClientCertificateVerify => AtVerify
    case ReadChangeCipherSpec => AtClientCcs
    case ProcessCipherChange => if ccsTaken then AtNextProto else AtClientCcs
    case ReadNextProto => AtNextProto
    case ReadChannelId => AtChannelId
    case ReadClientFinished => AtClientFinished
    case SendServerFinished => AtTicket
    case FinishServerHandshake => AtEnd
    case Complete => AtEnd
  }

  /** The order in which a server passes through its states. */
  function Turn(s: ServerState, resumed: bool): nat {
    match s
    case StartAccept => 0 case ReadClientHello => 1 case SelectCertificate => 2 case SelectParameters => 3
    case SendServerHello => 4 case SendServerCertificate => 5 case SendServerKeyExchange => 6
    case SendServerHelloDone => 7 case ReadClientCertificate => 8 case VerifyClientCertificate => 9
    case ReadClientKeyExchange => 10 case ReadClientCertificateVerify => 11 case ReadChangeCipherSpec => 12
    case ProcessCipherChange => 13 case ReadNextProto => 14 case ReadChannelId => 15 case ReadClientFinished => 16
    case SendServerFinished => if resumed then 5 else 17
    case FinishServerHandshake => 18 case Complete => 19
  }

  /** The states before the parameters are settled. */
  predicate Early(s: ServerState) {
    s.StartAccept? || s.ReadClientHello? || s.SelectCertificate? || s.SelectParameters?
  }

  /** The states in which records of the client come under its new keys. */
  predicate Protected(s: ServerState) {
    s.ReadNextProto? || s.ReadChannelId? || s.ReadClientFinished?
  }

  /** The states from the client's ChangeCipherSpec on. */
  predicate Closing(s: ServerState) {
    s.ReadChangeCipherSpec? || s.ProcessCipherChange? || Protected(s)
  }

  predicate Final(s: ServerState) {
    s.SendServerFinished? || s.FinishServerHandshake? || s.Complete?
  }

  /** The states in which messages may wait to be flushed. */
  predicate Queueing(s: ServerState) {
    s.SendServerCertificate? || s.SendServerKeyExchange? || s.SendServerHelloDone? || s.SendServerFinished?
  }

  /** The states that wait for a message of the client. */
  predicate Awaiting(s: ServerState) {
    s.ReadClientHello? || s.SelectCertificate? || s.SelectParameters? || s.ReadClientCertificate?
    || s.ReadClientKeyExchange? || s.ReadClientCertificateVerify? || Protected(s)
  }

  /** The fields of SSL_HANDSHAKE and of the connection that the server's handshake works on. */
  datatype Record = Record(state: ServerState, ccsTaken: bool, hasBuffer: bool, opening: bool, sealing: bool,
                           resumed: bool, cipher: Cipher, statusExpected: bool, ticketExpected: bool, nextProto: bool,
                           channelId: bool, certRequest: bool, serverParams: bool, peerCert: bool)

  const NewServer := Record(StartAccept, false, true, false, false, false, Cipher(Rsa, true),
                            false, false, false, false, false, false, false)

  function Place(hs: Record): Point {
    PlaceOf(hs.state, hs.ccsTaken)
  }

  /** The settlement is what this server makes of the offer. */
  predicate Lawful(cfg: ServerConfig, p: Params) {
    && p == Negotiated(ClientConfig(p.offer, Cipher(Rsa, true), p.clientCert), cfg)
    && ValidCipher(cfg.cipher) && cfg.cipher in p.offer.ciphers
  }

  /** The one thing between honest peers at which this server gives up by itself. */
  predicate Refuses(cfg: ServerConfig, p: Params) {
    p.certRequest && !p.clientCert && cfg.requiresCertificate
  }

  /** The states behind the client's Certificate. */
  predicate Satisfied(s: ServerState) {
    s.VerifyClientCertificate? || s.ReadClientKeyExchange? || s.ReadClientCertificateVerify? || Closing(s) || Final(s)
  }

  /** What the server has decided so far. */
  predicate Decided(cfg: ServerConfig, p: Params, hs: Record) {
    var s := hs.state;
    && (!s.StartAccept? && !s.ReadClientHello? ==> hs.nextProto == p.hello.npn)
    && (s.SelectCertificate? || s.SelectParameters? || s.SendServerHello? ==> hs.channelId == (p.offer.channelId && cfg.channelId))
    && (s.SelectParameters? ==> hs.cipher == p.hello.cipher)
    && (Early(s) ==> !hs.resumed)
    && (!Early(s) ==>
         && hs.resumed == p.resumed && hs.cipher == p.hello.cipher && hs.certRequest == p.certRequest
         && hs.ticketExpected == p.hello.ticket)
    && (!Early(s) && !s.SendServerHello? ==> hs.channelId == p.hello.channelId && hs.statusExpected == p.hello.status)
    && (s.SendServerKeyExchange? ==> hs.serverParams == p.keyExchange)
    && (s.VerifyClientCertificate? || s.ReadClientKeyExchange? || s.ReadClientCertificateVerify? ==>
         hs.peerCert == (p.certRequest && p.clientCert))
    && (Satisfied(s) ==> !Refuses(cfg, p))
  }

  /** What the state tells about keys, buffer and flow. */
  predicate Stage(p: Params, hs: Record) {
    var s := hs.state;
    && (hs.resumed ==> s.SendServerHello? || Closing(s) || Final(s))
    && (hs.ccsTaken ==> s.ProcessCipherChange?)
    && (p.certRequest && p.clientCert && !Closing(s) && !Final(s) ==> hs.hasBuffer)
    && (Protected(s) ==> hs.opening)
    && (hs.opening ==> Protected(s) || s.FinishServerHandshake? || s.Complete? || (s.SendServerFinished? && !hs.resumed))
    && (hs.sealing ==> s.FinishServerHandshake? || s.Complete? || (hs.resumed && Closing(s)))
  }

  predicate Holds(cfg: ServerConfig, p: Params, hs: Record) {
    Lawful(cfg, p) && Decided(cfg, p, hs) && Stage(p, hs)
  }

  /** The handshake has moved to a later state. */
  predicate Forward(was: Record, now: Record) {
    Turn(now.state, now.resumed) > Turn(was.state, was.resumed)
  }

  /** A step that goes on moves to a later state, any other leaves the state alone; no error blames the peer. */
  predicate Fine(was: Record, now: Record, ret: Wait) {
    && NoBlame(ret) && (ret.Flush? ==> !now.state.Complete?)
    && if ret.Ok? || ret.Flush? || ret.ReadCcs? then Forward(was, now) else now == was
  }

  /** The order does not depend on the ChangeCipherSpec. */
  lemma ForwardAnyway(was: Record)
    ensures forall now: Record :: Forward(was.(ccsTaken := true), now) ==> Forward(was, now)
  {
  }

  lemma ForwardAgain(first: Record, was: Record, now: Record)
    ensures Forward(first, was) && Forward(was, now) ==> Forward(first, now)
  {
  }

  lemma TurnBelow(was: Record, now: Record)
    requires Forward(was, now)
    ensures Turn(was.state, was.resumed) < Turn(now.state, now.resumed) <= 19
  {
  }

  /** The server at point `a`, its peer at `b`, with what is flushed and what is still in the two flights. */
  ghost predicate InLine(p: Params, a: Point, t: seq<Msg>, b: Point, u: seq<Msg>,
                         toServer: seq<Item>, clientFlight: seq<Item>, toClient: seq<Item>, serverFlight: seq<Item>) {
    Linked(p, true, a, t, b, u, toServer + clientFlight, toClient + serverFlight)
  }

  /** do_read_client_hello: what the parsed extensions settle. */
  function Greeted(cfg: ServerConfig, hs: Record, offer: Offer): Record {
    hs.(state := SelectCertificate, nextProto := offer.npn && cfg.npn, channelId := offer.channelId && cfg.channelId)
  }

  /** do_select_parameters: resumption, ticket and client certificate. */
  function Chosen(cfg: ServerConfig, hs: Record, offer: Offer): Record {
    var resumed := offer.session != 0 && cfg.resume && cfg.sessionCipher == hs.cipher;
    var request := !resumed && cfg.wantsCertificate && !(cfg.unlessChannelId && hs.channelId) && hs.cipher.cert;
    hs.(state := SendServerHello, resumed := resumed,
        ticketExpected := offer.ticket && if resumed then cfg.renew else cfg.tickets,
        certRequest := request, hasBuffer := hs.hasBuffer && request)
  }

  /** do_send_server_hello: Channel ID needs ECDHE, and the hash of the original handshake on resumption. */
  function Adjusted(cfg: ServerConfig, hs: Record, offer: Offer): Record {
    hs.(channelId := hs.channelId && hs.cipher.kx == Ecdhe && (hs.resumed ==> cfg.sessionHasHash),
        statusExpected := offer.status && cfg.stapling && !hs.resumed && hs.cipher.cert,
        state := if hs.resumed then SendServerFinished else SendServerCertificate)
  }

  /** The end of do_send_server_finished. */
  function AfterFinished(hs: Record): Record {
    hs.(state := if hs.resumed then ReadChangeCipherSpec else FinishServerHandshake)
  }

  function HelloOf(cfg: ServerConfig, hs: Record, offer: Offer): Hello {
    Hello(if hs.resumed then offer.session else cfg.freshSession, hs.cipher, hs.ticketExpected, hs.statusExpected,
          hs.nextProto, hs.channelId)
  }

  /** The script begins with the ClientHello. */
  lemma ClientHelloHere(p: Params, t: seq<Msg>)
    ensures EntryAt(p, AtClientHello, t) == First(p, AtClientHello, t) == Some(Entry(false, Plain(ClientHello(p.offer))))
  {
    FirstHere(p, AtClientHello, t);
  }

  /** What holds in each state, and that its successor fits. */
  lemma StartFacts(cfg: ServerConfig, p: Params, hs: Record)
    requires Holds(cfg, p, hs) && hs.state == StartAccept
    ensures Place(hs) == AtClientHello
    ensures var next := hs.(state := ReadClientHello);
            Holds(cfg, p, next) && Forward(hs, next) && Place(next) == AtClientHello
  {
    hide Lawful, Refuses;
  }

  /** The same before the ClientHello is looked at. */
  lemma ClientHelloFacts(cfg: ServerConfig, p: Params, hs: Record)
    requires Holds(cfg, p, hs) && hs.state == ReadClientHello
    ensures Place(hs) == AtClientHello && !hs.opening
    ensures var next := Greeted(cfg, hs, p.offer);
            Holds(cfg, p, next) && Forward(hs, next) && Place(next) == AtClientHello
  {
    hide Refuses;
  }

  /** The same before the cipher is chosen. */
  lemma SelectFacts(cfg: ServerConfig, p: Params, hs: Record)
    requires Holds(cfg, p, hs) && hs.state == SelectCertificate
    ensures Place(hs) == AtClientHello && !hs.opening && cfg.cipher in p.offer.ciphers
    ensures var next := hs.(state := SelectParameters, cipher := cfg.cipher);
            Holds(cfg, p, next) && Forward(hs, next) && Place(next) == AtClientHello
  {
    hide Refuses;
  }

  /** The same before the parameters are settled. */
  lemma ParameterFacts(cfg: ServerConfig, p: Params, hs: Record)
    requires Holds(cfg, p, hs) && hs.state == SelectParameters
    ensures Place(hs) == AtClientHello && !hs.opening && hs.cipher == cfg.cipher
    ensures var next := Chosen(cfg, hs, p.offer);
            Holds(cfg, p, next) && Forward(hs, next) && Place(next) == AtServerHello
  {
    hide Refuses;
  }

  /** The same before the ServerHello, which says what was negotiated. */
  lemma ServerHelloFacts(cfg: ServerConfig, p: Params, hs: Record)
    requires Holds(cfg, p, hs) && hs.state == SendServerHello
    ensures Place(hs) == AtServerHello && !hs.sealing && !hs.ccsTaken && hs.resumed == p.resumed
    ensures HelloOf(cfg, Adjusted(cfg, hs, p.offer), p.offer) == p.hello
  {
    hide Refuses;
  }

  /** The same after it. */
  lemma AdjustedFacts(cfg: ServerConfig, p: Params, hs: Record)
    requires Holds(cfg, p, hs) && hs.state == SendServerHello
    ensures var next := Adjusted(cfg, hs, p.offer);
            Holds(cfg, p, next) && Forward(hs, next) && Place(next) == NextPoint(p.resumed, AtServerHello)
    ensures Queueing(Adjusted(cfg, hs, p.offer).state) && !Adjusted(cfg, hs, p.offer).state.ProcessCipherChange?
  {
    ServerHelloFacts(cfg, p, hs);
    hide Lawful, Refuses;
  }

  /** The same before the server's Certificate. */
  lemma CertificatesFacts(cfg: ServerConfig, p: Params, hs: Record)
    requires Holds(cfg, p, hs) && hs.state == SendServerCertificate
    ensures Place(hs) == AtCertificate && !hs.sealing && hs.cipher == p.hello.cipher
            && hs.statusExpected == p.status && !p.resumed
    ensures p.status ==> p.hello.cipher.cert
    ensures var next := hs.(state := SendServerKeyExchange, serverParams := hs.cipher.kx == Ecdhe || (!hs.cipher.cert && cfg.pskHint));
            Holds(cfg, p, next) && Forward(hs, next) && Place(next) == AtKeyExchange
  {
    hide Refuses;
  }

  /** The same before ServerKeyExchange. */
  lemma ServerKeyFacts(cfg: ServerConfig, p: Params, hs: Record)
    requires Holds(cfg, p, hs) && hs.state == SendServerKeyExchange
    ensures Place(hs) == AtKeyExchange && !hs.sealing && hs.serverParams == p.keyExchange
    ensures var next := hs.(state := SendServerHelloDone);
            Holds(cfg, p, next) && Forward(hs, next) && Place(next) == AtCertRequest
    ensures var next := hs.(state := SendServerHelloDone, serverParams := false);
            Holds(cfg, p, next) && Forward(hs, next) && Place(next) == AtCertRequest
  {
    hide Lawful, Refuses;
  }

  /** The same before ServerHelloDone. */
  lemma DoneFlightFacts(cfg: ServerConfig, p: Params, hs: Record)
    requires Holds(cfg, p, hs) && hs.state == SendServerHelloDone
    ensures Place(hs) == AtCertRequest && !hs.sealing && hs.certRequest == p.certRequest
    ensures var next := hs.(state := ReadClientCertificate);
            Holds(cfg, p, next) && Forward(hs, next) && Place(next) == AtClientCert
  {
    hide Lawful, Refuses;
  }

  /** The same before the client's Certificate. */
  lemma PeerCertFacts(cfg: ServerConfig, p: Params, hs: Record)
    requires Holds(cfg, p, hs) && hs.state == ReadClientCertificate
    ensures Place(hs) == AtClientCert && !hs.opening && hs.certRequest == p.certRequest
    ensures !p.certRequest ==> (var next := hs.(state := VerifyClientCertificate, peerCert := false);
              Holds(cfg, p, next) && Forward(hs, next) && Place(next) == AtClientKey)
    ensures p.certRequest && !Refuses(cfg, p) ==> (var next := hs.(state := VerifyClientCertificate, peerCert := p.clientCert, hasBuffer := hs.hasBuffer && p.clientCert);
              Holds(cfg, p, next) && Forward(hs, next) && Place(next) == AtClientKey)
  {
    hide Lawful;
  }

  /** The same before it is verified. */
  lemma PeerVerifyFacts(cfg: ServerConfig, p: Params, hs: Record)
    requires Holds(cfg, p, hs) && hs.state == VerifyClientCertificate
    ensures Place(hs) == AtClientKey
    ensures var next := hs.(state := ReadClientKeyExchange);
            Holds(cfg, p, next) && Forward(hs, next) && Place(next) == AtClientKey
  {
    hide Lawful, Refuses;
  }

  /** The same before ClientKeyExchange. */
  lemma PeerKeyFacts(cfg: ServerConfig, p: Params, hs: Record)
    requires Holds(cfg, p, hs) && hs.state == ReadClientKeyExchange
    ensures Place(hs) == AtClientKey && !hs.opening
    ensures var next := hs.(state := ReadClientCertificateVerify);
            Holds(cfg, p, next) && Forward(hs, next) && Place(next) == AtVerify
  {
    hide Lawful, Refuses;
  }

  /** The same before CertificateVerify. */
  lemma SignatureFacts(cfg: ServerConfig, p: Params, hs: Record)
    requires Holds(cfg, p, hs) && hs.state == ReadClientCertificateVerify
    ensures Place(hs) == AtVerify && !hs.opening && hs.peerCert == (p.certRequest && p.clientCert)
    ensures p.certRequest && p.clientCert ==> hs.hasBuffer
    ensures var next := hs.(state := ReadChangeCipherSpec, hasBuffer := false);
            Holds(cfg, p, next) && Forward(hs, next) && Place(next) == AtClientCcs
  {
    hide Lawful, Refuses;
  }

  /** From the client's ChangeCipherSpec on all is decided. */
  lemma DecidedThen(cfg: ServerConfig, p: Params, was: Record, now: Record)
    requires Decided(cfg, p, was) && (Closing(was.state) || Final(was.state)) && (Closing(now.state) || Final(now.state))
    requires now == was.(state := now.state, ccsTaken := now.ccsTaken, opening := now.opening, sealing := now.sealing)
    ensures Decided(cfg, p, now)
    ensures was.resumed == p.resumed && was.nextProto == p.hello.npn && was.channelId == p.hello.channelId
  {
    hide Refuses;
  }

  /** The same before the client's ChangeCipherSpec is awaited. */
  lemma AwaitCcsFacts(cfg: ServerConfig, p: Params, hs: Record)
    requires Holds(cfg, p, hs) && hs.state == ReadChangeCipherSpec
    ensures !hs.ccsTaken && Place(hs) == AtClientCcs
    ensures var next := hs.(state := ProcessCipherChange);
            Holds(cfg, p, next) && Forward(hs, next) && Place(next) == AtClientCcs
  {
    hide Lawful, Refuses, Decided;
    var next := hs.(state := ProcessCipherChange);
    DecidedThen(cfg, p, hs, next);
  }

  /** The same around it. */
  lemma TakeCcsFacts(cfg: ServerConfig, p: Params, hs: Record)
    requires Holds(cfg, p, hs) && hs.state == ProcessCipherChange
    ensures !hs.ccsTaken ==>
              Place(hs) == AtClientCcs && Holds(cfg, p, hs.(ccsTaken := true)) && Place(hs.(ccsTaken := true)) == AtNextProto
    ensures hs.ccsTaken ==> (var next := hs.(state := ReadNextProto, opening := true, ccsTaken := false);
              Holds(cfg, p, next) && Forward(hs, next) && Place(next) == Place(hs))
  {
    hide Lawful, Refuses, Decided;
    if !hs.ccsTaken {
      DecidedThen(cfg, p, hs, hs.(ccsTaken := true));
    } else {
      DecidedThen(cfg, p, hs, hs.(state := ReadNextProto, opening := true, ccsTaken := false));
    }
  }

  /** The same before NextProtocol. */
  lemma NextProtoFacts(cfg: ServerConfig, p: Params, hs: Record)
    requires Holds(cfg, p, hs) && hs.state == ReadNextProto
    ensures Place(hs) == AtNextProto && hs.opening && hs.nextProto == p.hello.npn
    ensures var next := hs.(state := ReadChannelId);
            Holds(cfg, p, next) && Forward(hs, next) && Place(next) == AtChannelId
  {
    hide Lawful, Refuses, Decided;
    var next := hs.(state := ReadChannelId);
    DecidedThen(cfg, p, hs, next);
  }

  /** The same before Channel ID. */
  lemma ChannelIdFacts(cfg: ServerConfig, p: Params, hs: Record)
    requires Holds(cfg, p, hs) && hs.state == ReadChannelId
    ensures Place(hs) == AtChannelId && hs.opening && hs.channelId == p.hello.channelId
    ensures var next := hs.(state := ReadClientFinished);
            Holds(cfg, p, next) && Forward(hs, next) && Place(next) == AtClientFinished
  {
    hide Lawful, Refuses, Decided;
    var next := hs.(state := ReadClientFinished);
    DecidedThen(cfg, p, hs, next);
  }

  /** The same before the client's Finished. */
  lemma PeerFinishedFacts(cfg: ServerConfig, p: Params, hs: Record)
    requires Holds(cfg, p, hs) && hs.state == ReadClientFinished
    ensures Place(hs) == AtClientFinished && hs.opening && hs.resumed == p.resumed
    ensures var next := hs.(state := if hs.resumed then FinishServerHandshake else SendServerFinished);
            Holds(cfg, p, next) && Forward(hs, next) && Place(next) == NextPoint(p.resumed, AtClientFinished)
  {
    hide Lawful, Refuses, Decided;
    var next := hs.(state := if hs.resumed then FinishServerHandshake else SendServerFinished);
    DecidedThen(cfg, p, hs, next);
  }

  /** The same before the server's Finished. */
  lemma OwnFinishedFacts(cfg: ServerConfig, p: Params, hs: Record)
    requires Holds(cfg, p, hs) && hs.state == SendServerFinished
    ensures Place(hs) == AtTicket && !hs.sealing && hs.ticketExpected == p.hello.ticket && hs.resumed == p.resumed
  {
    hide Lawful, Refuses;
  }

  /** The same after it. */
  lemma AfterFinishedFacts(cfg: ServerConfig, p: Params, hs: Record)
    requires Holds(cfg, p, hs) && hs.state == SendServerFinished
    ensures var next := AfterFinished(hs.(sealing := true));
            Holds(cfg, p, next) && Forward(hs, next) && Place(next) == NextPoint(p.resumed, AtServerFinished)
            && !next.state.ProcessCipherChange? && !next.state.Complete?
  {
    hide Holds, Forward, Place, AfterFinished, NextPoint;
    if hs.resumed { FinishedFirst(cfg, p, hs); } else { FinishedLast(cfg, p, hs); }
  }

  lemma FinishedFirst(cfg: ServerConfig, p: Params, hs: Record)
    requires Holds(cfg, p, hs) && hs.state == SendServerFinished && hs.resumed
    ensures var next := AfterFinished(hs.(sealing := true));
            Holds(cfg, p, next) && Forward(hs, next) && Place(next) == NextPoint(p.resumed, AtServerFinished)
            && !next.state.ProcessCipherChange? && !next.state.Complete?
  {
    hide Lawful, Refuses, Decided;
    var next := AfterFinished(hs.(sealing := true));
    DecidedThen(cfg, p, hs, next);
  }

  lemma FinishedLast(cfg: ServerConfig, p: Params, hs: Record)
    requires Holds(cfg, p, hs) && hs.state == SendServerFinished && !hs.resumed
    ensures var next := AfterFinished(hs.(sealing := true));
            Holds(cfg, p, next) && Forward(hs, next) && Place(next) == NextPoint(p.resumed, AtServerFinished)
            && !next.state.ProcessCipherChange? && !next.state.Complete?
  {
    hide Lawful, Refuses, Decided;
    var next := AfterFinished(hs.(sealing := true));
    DecidedThen(cfg, p, hs, next);
  }

  /** The same at the end. */
  lemma CompleteFacts(cfg: ServerConfig, p: Params, hs: Record)
    requires Holds(cfg, p, hs) && hs.state == FinishServerHandshake
    ensures var next := hs.(state := Complete); Holds(cfg, p, next) && Forward(hs, next) && Place(next) == Place(hs)
  {
    hide Lawful, Refuses;
  }

  class ServerSide {
    const cfg: ServerConfig
    const wire: Wire
    var hs: Record
    var wait: Wait
    var flight: seq<Item>
    var transcript: seq<Msg>
    var offer: Offer

    constructor (cfg: ServerConfig, wire: Wire)
      ensures this.cfg == cfg && this.wire == wire && hs == NewServer && wait == Ok && flight == [] && transcript == []
    {
      this.cfg, this.wire := cfg, wire;
      hs, wait, flight, transcript := NewServer, Ok, [], [];
      offer := Offer(0, {}, false, false, false, false);
    }

    /** add_message: the message joins the flight and the transcript. */
    method AddMessage(m: Msg, ghost p: Params, ghost a: Point, ghost b: Point, ghost u: seq<Msg>, ghost f: seq<Item>)
      requires InLine(p, a, transcript, b, u, wire.toServer, f, wire.toClient, flight) && !a.AtEnd?
      requires EntryAt(p, a, transcript) == Some(Entry(true, if hs.sealing then Sealed(m) else Plain(m)))
      modifies this`flight, this`transcript
      ensures transcript == old(transcript) + [m]
      ensures InLine(p, NextPoint(p.resumed, a), transcript, b, u, wire.toServer, f, wire.toClient, flight)
    {
      hide Linked, EntryAt, NextPoint;
      var item := if hs.sealing then Sealed(m) else Plain(m);
      Send(p, true, a, transcript, b, u, wire.toServer + f, wire.toClient + flight);
      assert wire.toClient + flight + [item] == wire.toClient + (flight + [item]);
      flight := flight + [item];
      transcript := transcript + [m];
    }

    /** add_change_cipher_spec, for the change of the write keys. */
    method AddChangeCipherSpec(ghost p: Params, ghost b: Point, ghost u: seq<Msg>, ghost f: seq<Item>)
      requires InLine(p, AtServerCcs, transcript, b, u, wire.toServer, f, wire.toClient, flight)
      modifies this`flight
      ensures InLine(p, AtServerFinished, transcript, b, u, wire.toServer, f, wire.toClient, flight)
    {
      hide Linked;
      Send(p, true, AtServerCcs, transcript, b, u, wire.toServer + f, wire.toClient + flight);
      assert wire.toClient + flight + [ChangeCipher] == wire.toClient + (flight + [ChangeCipher]);
      flight := flight + [ChangeCipher];
    }

    /** get_message: what is there starts the rest of the script. */
    method GetMessage(ghost p: Params, ghost a: Point, ghost b: Point, ghost u: seq<Msg>, ghost f: seq<Item>)
      returns (r: Peeked)
      requires InLine(p, a, transcript, b, u, wire.toServer, f, wire.toClient, flight)
      ensures r == Peek(wire.toServer, hs.opening)
      ensures !r.Nothing? ==> First(p, a, transcript) == Some(Entry(false, wire.toServer[0]))
    {
      hide Linked, First;
      FirstLinked(p, true, a, transcript, b, u, wire.toServer + f, wire.toClient + flight);
      r := Peek(wire.toServer, hs.opening);
    }

    /** ssl_hash_message and next_message, for the message the script has here. */
    method TakeMessage(m: Msg, ghost p: Params, ghost a: Point, ghost b: Point, ghost u: seq<Msg>, ghost f: seq<Item>)
      requires InLine(p, a, transcript, b, u, wire.toServer, f, wire.toClient, flight)
      requires !a.AtEnd? && EntryAt(p, a, transcript).Some?
      requires wire.toServer != [] && wire.toServer[0] in {Plain(m), Sealed(m)}
      modifies this`transcript, wire`toServer
      ensures transcript == old(transcript) + [m]
      ensures InLine(p, NextPoint(p.resumed, a), transcript, b, u, wire.toServer, f, wire.toClient, flight)
    {
      hide Linked, EntryAt, NextPoint;
      Receive(p, true, a, transcript, b, u, wire.toServer + f, wire.toClient + flight);
      assert (wire.toServer + f)[1..] == wire.toServer[1..] + f;
      transcript := transcript + [m];
      wire.toServer := wire.toServer[1..];
    }

    /** Passing a point where nothing comes. */
    lemma Pass(p: Params, a: Point, b: Point, u: seq<Msg>, f: seq<Item>)
      requires InLine(p, a, transcript, b, u, wire.toServer, f, wire.toClient, flight)
      requires !a.AtEnd? && EntryAt(p, a, transcript).None?
      ensures InLine(p, NextPoint(p.resumed, a), transcript, b, u, wire.toServer, f, wire.toClient, flight)
    {
      hide Linked, EntryAt, NextPoint;
      Skip(p, true, a, transcript, b, u, wire.toServer + f, wire.toClient + flight);
    }

    // ---------------------------------------------------------------- the states

    /** do_start_accept */
    method DoStartAccept(ghost p: Params, ghost b: Point, ghost u: seq<Msg>, ghost f: seq<Item>) returns (ret: Wait)
      requires Holds(cfg, p, hs) && OfferKnown(p, hs, offer)
      requires InLine(p, Place(hs), transcript, b, u, wire.toServer, f, wire.toClient, flight)
      requires hs.state == StartAccept
      modifies this, wire`toServer
      ensures Holds(cfg, p, hs)
      ensures InLine(p, Place(hs), transcript, b, u, wire.toServer, f, wire.toClient, flight)
      ensures wait == old(wait) && Fine(old(hs), hs, ret)
      ensures Goes(ret)
      ensures OfferKnown(p, hs, offer)
      ensures flight == old(flight) && ret != Flush && ret != ReadMessage && ret != ReadCcs && !hs.state.ProcessCipherChange?
    {
      hide InLine, First, Holds, Turn, Forward, Place, Index, Rank, Hashed;
      StartFacts(cfg, p, hs);
      hs := hs.(state := ReadClientHello);
      return Ok;
    }

    /** do_read_client_hello: the message stays where it is until the parameters are settled. */
    method DoReadClientHello(choice: Choice, ghost p: Params, ghost b: Point, ghost u: seq<Msg>, ghost f: seq<Item>)
      returns (ret: Wait)
      requires Holds(cfg, p, hs) && OfferKnown(p, hs, offer)
      requires InLine(p, Place(hs), transcript, b, u, wire.toServer, f, wire.toClient, flight)
      requires hs.state == ReadClientHello
      modifies this, wire`toServer
      ensures Holds(cfg, p, hs)
      ensures InLine(p, Place(hs), transcript, b, u, wire.toServer, f, wire.toClient, flight)
      ensures wait == old(wait) && Fine(old(hs), hs, ret)
      ensures choice == Proceed ==> Goes(ret)
      ensures OfferKnown(p, hs, offer)
      ensures flight == old(flight) && ret != Flush && (ret == ReadMessage ==> wire.toServer == [])
      ensures ret != ReadCcs && !hs.state.ProcessCipherChange?
    {
      hide InLine, First, EntryAt, NextPoint, Holds, Turn, Forward, Place, Index, Rank, Hashed;
      ClientHelloFacts(cfg, p, hs);
      ClientHelloHere(p, transcript);
      var r := GetMessage(p, AtClientHello, b, u, f);
      if r.Nothing? { return ReadMessage; }
      if r.BadRecord? { return Error(UnexpectedRecord); }
      if !r.msg.ClientHello? { return Error(UnexpectedMessage); }
      if choice == Retry { return Pending; }
      if choice == Refuse { return Error(Refused); }
      offer := r.msg.offer;
      hs := Greeted(cfg, hs, offer);
      return Ok;
    }

    /** do_select_certificate */
    method DoSelectCertificate(choice: Choice, ghost p: Params, ghost b: Point, ghost u: seq<Msg>, ghost f: seq<Item>)
      returns (ret: Wait)
      requires Holds(cfg, p, hs) && OfferKnown(p, hs, offer)
      requires InLine(p, Place(hs), transcript, b, u, wire.toServer, f, wire.toClient, flight)
      requires hs.state == SelectCertificate
      modifies this, wire`toServer
      ensures Holds(cfg, p, hs)
      ensures InLine(p, Place(hs), transcript, b, u, wire.toServer, f, wire.toClient, flight)
      ensures wait == old(wait) && Fine(old(hs), hs, ret)
      ensures choice == Proceed ==> Goes(ret)
      ensures OfferKnown(p, hs, offer)
      ensures flight == old(flight) && ret != Flush && (ret == ReadMessage ==> wire.toServer == [])
      ensures ret != ReadCcs && !hs.state.ProcessCipherChange?
    {
      hide InLine, First, EntryAt, NextPoint, Holds, Turn, Forward, Place, Index, Rank, Hashed;
      SelectFacts(cfg, p, hs);
      ClientHelloHere(p, transcript);
      var r := GetMessage(p, AtClientHello, b, u, f);
      if r.Nothing? { return ReadMessage; }
      if r.BadRecord? { return Error(UnexpectedRecord); }
      if choice == Retry { return Pending; }
      if choice == Refuse { return Error(Refused); }
      if cfg.cipher !in r.msg.offer.ciphers { return Error(WrongCipher); }
      hs := hs.(state := SelectParameters, cipher := cfg.cipher);
      return Ok;
    }

    /** do_select_parameters */
    method DoSelectParameters(choice: Choice, ghost p: Params, ghost b: Point, ghost u: seq<Msg>, ghost f: seq<Item>)
      returns (ret: Wait)
      requires Holds(cfg, p, hs) && OfferKnown(p, hs, offer)
      requires InLine(p, Place(hs), transcript, b, u, wire.toServer, f, wire.toClient, flight)
      requires hs.state == SelectParameters
      modifies this, wire`toServer
      ensures Holds(cfg, p, hs)
      ensures InLine(p, Place(hs), transcript, b, u, wire.toServer, f, wire.toClient, flight)
      ensures wait == old(wait) && Fine(old(hs), hs, ret)
      ensures choice == Proceed ==> Goes(ret)
      ensures OfferKnown(p, hs, offer)
      ensures flight == old(flight) && ret != Flush && (ret == ReadMessage ==> wire.toServer == [])
      ensures ret != ReadCcs && !hs.state.ProcessCipherChange?
    {
      hide InLine, First, Holds, Turn, Forward, Place, Index, Rank, Hashed;
      ParameterFacts(cfg, p, hs);
      ClientHelloHere(p, transcript);
      var r := GetMessage(p, AtClientHello, b, u, f);
      if r.Nothing? { return ReadMessage; }
      if r.BadRecord? { return Error(UnexpectedRecord); }
      if choice == Retry { return Pending; }
      if choice == Refuse { return Error(Refused); }
      TakeMessage(r.msg, p, AtClientHello, b, u, f);
      hs := Chosen(cfg, hs, r.msg.offer);
      return Ok;
    }

    /** do_send_server_hello */
    method DoSendServerHello(ghost p: Params, ghost b: Point, ghost u: seq<Msg>, ghost f: seq<Item>) returns (ret: Wait)
      requires Holds(cfg, p, hs) && OfferKnown(p, hs, offer)
      requires InLine(p, Place(hs), transcript, b, u, wire.toServer, f, wire.toClient, flight)
      requires hs.state == SendServerHello
      modifies this, wire`toServer
      ensures Holds(cfg, p, hs)
      ensures InLine(p, Place(hs), transcript, b, u, wire.toServer, f, wire.toClient, flight)
      ensures wait == old(wait) && Fine(old(hs), hs, ret)
      ensures Goes(ret)
      ensures OfferKnown(p, hs, offer)
      ensures (ret == Ok ==> Queueing(hs.state)) && ret != ReadMessage && ret != ReadCcs && ret != Flush
      ensures !hs.state.ProcessCipherChange? && (ret == Pending ==> flight == old(flight))
    {
      hide *;
      ServerHelloFacts(cfg, p, hs);
      AdjustedFacts(cfg, p, hs);
      HelloHere(p, transcript);
      var next := Adjusted(cfg, hs, offer);
      OfferStays(p, hs, next, offer);
      FineAfter(hs, next);
      AddMessage(ServerHello(HelloOf(cfg, next, offer)), p, AtServerHello, b, u, f);
      hs := next;
      return Ok;
    }

    /** do_send_server_certificate */
    method DoSendServerCertificate(choice: Choice, ghost p: Params, ghost b: Point, ghost u: seq<Msg>, ghost f: seq<Item>)
      returns (ret: Wait)
      requires Holds(cfg, p, hs) && OfferKnown(p, hs, offer)
      requires InLine(p, Place(hs), transcript, b, u, wire.toServer, f, wire.toClient, flight)
      requires hs.state == SendServerCertificate
      modifies this, wire`toServer
      ensures Holds(cfg, p, hs)
      ensures InLine(p, Place(hs), transcript, b, u, wire.toServer, f, wire.toClient, flight)
      ensures wait == old(wait) && Fine(old(hs), hs, ret)
      ensures choice == Proceed ==> Goes(ret)
      ensures OfferKnown(p, hs, offer)
      ensures (ret == Ok ==> Queueing(hs.state)) && ret != ReadMessage && ret != ReadCcs && ret != Flush
      ensures !hs.state.ProcessCipherChange? && (ret == Pending ==> flight == old(flight))
    {
      hide InLine, First, Holds, Turn, Forward, Place, Index, Rank, Hashed;
      CertificatesFacts(cfg, p, hs);
      if hs.cipher.cert {
        if choice == Refuse { return Error(Refused); }
        SendCertificates(p, b, u, f);
      } else {
        Pass(p, AtCertificate, b, u, f);
        Pass(p, AtStatus, b, u, f);
      }
      hs := hs.(state := SendServerKeyExchange, serverParams := hs.cipher.kx == Ecdhe || (!hs.cipher.cert && cfg.pskHint));
      return Ok;
    }

    /** The Certificate, and the stapled response if one was promised. */
    method SendCertificates(ghost p: Params, ghost b: Point, ghost u: seq<Msg>, ghost f: seq<Item>)
      requires InLine(p, AtCertificate, transcript, b, u, wire.toServer, f, wire.toClient, flight)
      requires !hs.sealing && p.hello.cipher.cert && hs.statusExpected == p.status
      modifies this`flight, this`transcript
      ensures InLine(p, AtKeyExchange, transcript, b, u, wire.toServer, f, wire.toClient, flight)
    {
      hide InLine;
      AddMessage(Certificate(false), p, AtCertificate, b, u, f);
      if hs.statusExpected {
        AddMessage(CertificateStatus, p, AtStatus, b, u, f);
      } else {
        Pass(p, AtStatus, b, u, f);
      }
    }

    /** do_send_server_key_exchange */
    method DoSendServerKeyExchange(choice: Choice, ghost p: Params, ghost b: Point, ghost u: seq<Msg>, ghost f: seq<Item>)
      returns (ret: Wait)
      requires Holds(cfg, p, hs) && OfferKnown(p, hs, offer)
      requires InLine(p, Place(hs), transcript, b, u, wire.toServer, f, wire.toClient, flight)
      requires hs.state == SendServerKeyExchange
      modifies this, wire`toServer
      ensures Holds(cfg, p, hs)
      ensures InLine(p, Place(hs), transcript, b, u, wire.toServer, f, wire.toClient, flight)
      ensures wait == old(wait) && Fine(old(hs), hs, ret)
      ensures choice == Proceed ==> Goes(ret)
      ensures OfferKnown(p, hs, offer)
      ensures (ret == Ok ==> Queueing(hs.state)) && ret != ReadMessage && ret != ReadCcs && ret != Flush
      ensures !hs.state.ProcessCipherChange? && (ret == Pending ==> flight == old(flight))
    {
      hide InLine, First, Holds, Turn, Forward, Place, Index, Rank, Hashed;
      ServerKeyFacts(cfg, p, hs);
      if !hs.serverParams {
        Pass(p, AtKeyExchange, b, u, f);
        hs := hs.(state := SendServerHelloDone);
        return Ok;
      }
      if choice == Retry { return Pending; }
      if choice == Refuse { return Error(Refused); }
      AddMessage(ServerKeyExchange, p, AtKeyExchange, b, u, f);
      hs := hs.(state := SendServerHelloDone, serverParams := false);
      return Ok;
    }

    /** do_send_server_hello_done */
    method DoSendServerHelloDone(ghost p: Params, ghost b: Point, ghost u: seq<Msg>, ghost f: seq<Item>)
      returns (ret: Wait)
      requires Holds(cfg, p, hs) && OfferKnown(p, hs, offer)
      requires InLine(p, Place(hs), transcript, b, u, wire.toServer, f, wire.toClient, flight)
      requires hs.state == SendServerHelloDone
      modifies this, wire`toServer
      ensures Holds(cfg, p, hs)
      ensures InLine(p, Place(hs), transcript, b, u, wire.toServer, f, wire.toClient, flight)
      ensures wait == old(wait) && Fine(old(hs), hs, ret)
      ensures Goes(ret)
      ensures OfferKnown(p, hs, offer)
      ensures ret != Ok && ret != ReadMessage && ret != ReadCcs && !hs.state.ProcessCipherChange?
      ensures ret == Pending ==> flight == old(flight)
    {
      hide InLine, First, Holds, Turn, Forward, Place, Index, Rank, Hashed;
      DoneFlightFacts(cfg, p, hs);
      if hs.certRequest {
        AddMessage(CertificateRequest, p, AtCertRequest, b, u, f);
      } else {
        Pass(p, AtCertRequest, b, u, f);
      }
      AddMessage(ServerHelloDone, p, AtHelloDone, b, u, f);
      hs := hs.(state := ReadClientCertificate);
      return Flush;
    }

    /** do_read_client_certificate */
    method DoReadClientCertificate(choice: Choice, ghost p: Params, ghost b: Point, ghost u: seq<Msg>, ghost f: seq<Item>)
      returns (ret: Wait)
      requires Holds(cfg, p, hs) && OfferKnown(p, hs, offer)
      requires InLine(p, Place(hs), transcript, b, u, wire.toServer, f, wire.toClient, flight)
      requires hs.state == ReadClientCertificate
      modifies this, wire`toServer
      ensures Holds(cfg, p, hs)
      ensures InLine(p, Place(hs), transcript, b, u, wire.toServer, f, wire.toClient, flight)
      ensures wait == old(wait) && Fine(old(hs), hs, ret)
      ensures choice == Proceed ==> Goes(ret) || (Refuses(cfg, p) && ret.Error?)
      ensures OfferKnown(p, hs, offer)
      ensures flight == old(flight) && ret != Flush && (ret == ReadMessage ==> wire.toServer == [])
      ensures ret != ReadCcs && !hs.state.ProcessCipherChange?
    {
      hide InLine, First, Holds, Turn, Forward, Place, Index, Rank, Hashed;
      PeerCertFacts(cfg, p, hs);
      FirstHere(p, AtClientCert, transcript);
      if !hs.certRequest {
        Pass(p, AtClientCert, b, u, f);
        hs := hs.(state := VerifyClientCertificate, peerCert := false);
        return Ok;
      }
      var r := GetMessage(p, AtClientCert, b, u, f);
      if r.Nothing? { return ReadMessage; }
      if r.BadRecord? { return Error(UnexpectedRecord); }
      if !r.msg.Certificate? { return Error(UnexpectedMessage); }
      if choice == Refuse || (r.msg.empty && cfg.requiresCertificate) { return Error(Refused); }
      TakeMessage(r.msg, p, AtClientCert, b, u, f);
      hs := hs.(state := VerifyClientCertificate, peerCert := !r.msg.empty, hasBuffer := hs.hasBuffer && !r.msg.empty);
      return Ok;
    }

    /** do_verify_client_certificate */
    method DoVerifyClientCertificate(choice: Choice, ghost p: Params, ghost b: Point, ghost u: seq<Msg>, ghost f: seq<Item>)
      returns (ret: Wait)
      requires Holds(cfg, p, hs) && OfferKnown(p, hs, offer)
      requires InLine(p, Place(hs), transcript, b, u, wire.toServer, f, wire.toClient, flight)
      requires hs.state == VerifyClientCertificate
      modifies this, wire`toServer
      ensures Holds(cfg, p, hs)
      ensures InLine(p, Place(hs), transcript, b, u, wire.toServer, f, wire.toClient, flight)
      ensures wait == old(wait) && Fine(old(hs), hs, ret)
      ensures choice == Proceed ==> Goes(ret)
      ensures OfferKnown(p, hs, offer)
      ensures flight == old(flight) && ret != Flush && ret != ReadMessage && ret != ReadCcs && !hs.state.ProcessCipherChange?
    {
      hide InLine, First, Holds, Turn, Forward, Place, Index, Rank, Hashed;
      PeerVerifyFacts(cfg, p, hs);
      if hs.peerCert {
        if choice == Retry { return Pending; }
        if choice == Refuse { return Error(Refused); }
      }
      hs := hs.(state := ReadClientKeyExchange);
      return Ok;
    }

    /** do_read_client_key_exchange: the message is hashed only after any asynchronous decryption. */
    method DoReadClientKeyExchange(choice: Choice, ghost p: Params, ghost b: Point, ghost u: seq<Msg>, ghost f: seq<Item>)
      returns (ret: Wait)
      requires Holds(cfg, p, hs) && OfferKnown(p, hs, offer)
      requires InLine(p, Place(hs), transcript, b, u, wire.toServer, f, wire.toClient, flight)
      requires hs.state == ReadClientKeyExchange
      modifies this, wire`toServer
      ensures Holds(cfg, p, hs)
      ensures InLine(p, Place(hs), transcript, b, u, wire.toServer, f, wire.toClient, flight)
      ensures wait == old(wait) && Fine(old(hs), hs, ret)
      ensures choice == Proceed ==> Goes(ret)
      ensures OfferKnown(p, hs, offer)
      ensures flight == old(flight) && ret != Flush && (ret == ReadMessage ==> wire.toServer == [])
      ensures ret != ReadCcs && !hs.state.ProcessCipherChange?
    {
      hide InLine, First, Holds, Turn, Forward, Place, Index, Rank, Hashed;
      PeerKeyFacts(cfg, p, hs);
      FirstHere(p, AtClientKey, transcript);
      var r := GetMessage(p, AtClientKey, b, u, f);
      if r.Nothing? { return ReadMessage; }
      if r.BadRecord? { return Error(UnexpectedRecord); }
      if !r.msg.ClientKeyExchange? { return Error(UnexpectedMessage); }
      if choice == Retry { return Pending; }
      if choice == Refuse { return Error(Refused); }
      TakeMessage(r.msg, p, AtClientKey, b, u, f);
      hs := hs.(state := ReadClientCertificateVerify);
      return Ok;
    }

    /** do_read_client_certificate_verify: the signature covers exactly the server's transcript. */
    method DoReadClientCertificateVerify(choice: Choice, ghost p: Params, ghost b: Point, ghost u: seq<Msg>, ghost f: seq<Item>)
      returns (ret: Wait)
      requires Holds(cfg, p, hs) && OfferKnown(p, hs, offer)
      requires InLine(p, Place(hs), transcript, b, u, wire.toServer, f, wire.toClient, flight)
      requires hs.state == ReadClientCertificateVerify
      modifies this, wire`toServer
      ensures Holds(cfg, p, hs)
      ensures InLine(p, Place(hs), transcript, b, u, wire.toServer, f, wire.toClient, flight)
      ensures wait == old(wait) && Fine(old(hs), hs, ret)
      ensures choice == Proceed ==> Goes(ret)
      ensures OfferKnown(p, hs, offer)
      ensures flight == old(flight) && ret != Flush && (ret == ReadMessage ==> wire.toServer == [])
      ensures ret != ReadCcs && !hs.state.ProcessCipherChange?
    {
      hide InLine, First, Holds, Turn, Forward, Place, Index, Rank, Hashed;
      SignatureFacts(cfg, p, hs);
      FirstHere(p, AtVerify, transcript);
      if !hs.peerCert {
        Pass(p, AtVerify, b, u, f);
        hs := hs.(state := ReadChangeCipherSpec, hasBuffer := false);
        return Ok;
      }
      var r := GetMessage(p, AtVerify, b, u, f);
      if r.Nothing? { return ReadMessage; }
      if r.BadRecord? { return Error(UnexpectedRecord); }
      if !r.msg.CertificateVerify? { return Error(UnexpectedMessage); }
      if !hs.hasBuffer { return Error(NoBuffer); }
      if r.msg.signed != transcript { return Error(BadSignature); }
      if choice == Refuse { return Error(Refused); }
      TakeMessage(r.msg, p, AtVerify, b, u, f);
      hs := hs.(state := ReadChangeCipherSpec, hasBuffer := false);
      return Ok;
    }

    /** do_read_change_cipher_spec */
    method DoReadChangeCipherSpec(ghost p: Params, ghost b: Point, ghost u: seq<Msg>, ghost f: seq<Item>)
      returns (ret: Wait)
      requires Holds(cfg, p, hs) && OfferKnown(p, hs, offer)
      requires InLine(p, Place(hs), transcript, b, u, wire.toServer, f, wire.toClient, flight)
      requires hs.state == ReadChangeCipherSpec
      modifies this, wire`toServer
      ensures Holds(cfg, p, hs)
      ensures InLine(p, Place(hs), transcript, b, u, wire.toServer, f, wire.toClient, flight)
      ensures wait == old(wait) && Fine(old(hs), hs, ret)
      ensures Goes(ret)
      ensures OfferKnown(p, hs, offer)
      ensures flight == old(flight) && ret == ReadCcs && hs.state.ProcessCipherChange? && !hs.ccsTaken
    {
      hide InLine, First, Holds, Turn, Forward, Place, Index, Rank, Hashed;
      AwaitCcsFacts(cfg, p, hs);
      hs := hs.(state := ProcessCipherChange);
      return ReadCcs;
    }

    /** ssl_open_change_cipher_spec, while the handshake waits for it. */
    method OpenChangeCipherSpec(ghost p: Params, ghost b: Point, ghost u: seq<Msg>, ghost f: seq<Item>)
      returns (ret: Wait)
      requires Holds(cfg, p, hs)
      requires InLine(p, Place(hs), transcript, b, u, wire.toServer, f, wire.toClient, flight)
      requires hs.state == ProcessCipherChange && !hs.ccsTaken
      modifies this, wire`toServer
      ensures Holds(cfg, p, hs)
      ensures InLine(p, Place(hs), transcript, b, u, wire.toServer, f, wire.toClient, flight)
      ensures wait == old(wait) && NoBlame(ret) && flight == old(flight) && offer == old(offer)
      ensures ret in {Ok, ReadCcs}
      ensures if ret == Ok then hs == old(hs).(ccsTaken := true) else hs == old(hs)
      ensures ret == ReadCcs ==> wire.toServer == []
    {
      hide InLine, First, Holds, Turn, Forward, Place, Index, Rank, Hashed;
      TakeCcsFacts(cfg, p, hs);
      if wire.toServer == [] { return ReadCcs; }
      CcsArrives(p, b, u, f);
      if wire.toServer[0] != ChangeCipher { return Error(UnexpectedRecord); }
      TakeChangeCipherSpec(p, b, u, f);
      hs := hs.(ccsTaken := true);
      return Ok;
    }

    method TakeChangeCipherSpec(ghost p: Params, ghost b: Point, ghost u: seq<Msg>, ghost f: seq<Item>)
      requires InLine(p, AtClientCcs, transcript, b, u, wire.toServer, f, wire.toClient, flight) && wire.toServer != []
      modifies wire`toServer
      ensures InLine(p, AtNextProto, transcript, b, u, wire.toServer, f, wire.toClient, flight)
    {
      hide Linked;
      CcsArrives(p, b, u, f);
      wire.toServer := wire.toServer[1..];
    }

    /** What is on the way when the client's ChangeCipherSpec is due. */
    lemma CcsArrives(p: Params, b: Point, u: seq<Msg>, f: seq<Item>)
      requires InLine(p, AtClientCcs, transcript, b, u, wire.toServer, f, wire.toClient, flight) && wire.toServer != []
      ensures wire.toServer[0] == ChangeCipher
      ensures Linked(p, true, AtNextProto, transcript, b, u, wire.toServer[1..] + f, wire.toClient + flight)
    {
      hide Linked;
      Receive(p, true, AtClientCcs, transcript, b, u, wire.toServer + f, wire.toClient + flight);
      assert (wire.toServer + f)[1..] == wire.toServer[1..] + f;
    }

    /** do_process_change_cipher_spec */
    method DoProcessChangeCipherSpec(ghost p: Params, ghost b: Point, ghost u: seq<Msg>, ghost f: seq<Item>)
      returns (ret: Wait)
      requires Holds(cfg, p, hs) && OfferKnown(p, hs, offer)
      requires InLine(p, Place(hs), transcript, b, u, wire.toServer, f, wire.toClient, flight)
      requires hs.state == ProcessCipherChange && hs.ccsTaken
      modifies this, wire`toServer
      ensures Holds(cfg, p, hs)
      ensures InLine(p, Place(hs), transcript, b, u, wire.toServer, f, wire.toClient, flight)
      ensures wait == old(wait) && Fine(old(hs), hs, ret)
      ensures Goes(ret)
      ensures OfferKnown(p, hs, offer)
      ensures flight == old(flight) && ret != Flush && ret != ReadMessage && ret != ReadCcs && !hs.state.ProcessCipherChange?
    {
      hide InLine, First, Holds, Turn, Forward, Place, Index, Rank, Hashed;
      TakeCcsFacts(cfg, p, hs);
      hs := hs.(state := ReadNextProto, opening := true, ccsTaken := false);
      return Ok;
    }

    /** do_read_next_proto */
    method DoReadNextProto(ghost p: Params, ghost b: Point, ghost u: seq<Msg>, ghost f: seq<Item>) returns (ret: Wait)
      requires Holds(cfg, p, hs) && OfferKnown(p, hs, offer)
      requires InLine(p, Place(hs), transcript, b, u, wire.toServer, f, wire.toClient, flight)
      requires hs.state == ReadNextProto
      modifies this, wire`toServer
      ensures Holds(cfg, p, hs)
      ensures InLine(p, Place(hs), transcript, b, u, wire.toServer, f, wire.toClient, flight)
      ensures wait == old(wait) && Fine(old(hs), hs, ret)
      ensures Goes(ret)
      ensures OfferKnown(p, hs, offer)
      ensures flight == old(flight) && ret != Flush && (ret == ReadMessage ==> wire.toServer == [])
      ensures ret != ReadCcs && !hs.state.ProcessCipherChange?
    {
      hide InLine, First, Holds, Turn, Forward, Place, Index, Rank, Hashed;
      NextProtoFacts(cfg, p, hs);
      FirstHere(p, AtNextProto, transcript);
      if !hs.nextProto {
        Pass(p, AtNextProto, b, u, f);
        hs := hs.(state := ReadChannelId);
        return Ok;
      }
      var r := GetMessage(p, AtNextProto, b, u, f);
      if r.Nothing? { return ReadMessage; }
      if r.BadRecord? { return Error(UnexpectedRecord); }
      if !r.msg.NextProto? { return Error(UnexpectedMessage); }
      TakeMessage(r.msg, p, AtNextProto, b, u, f);
      hs := hs.(state := ReadChannelId);
      return Ok;
    }

    /** do_read_channel_id: the signature covers exactly the server's transcript. */
    method DoReadChannelId(ghost p: Params, ghost b: Point, ghost u: seq<Msg>, ghost f: seq<Item>) returns (ret: Wait)
      requires Holds(cfg, p, hs) && OfferKnown(p, hs, offer)
      requires InLine(p, Place(hs), transcript, b, u, wire.toServer, f, wire.toClient, flight)
      requires hs.state == ReadChannelId
      modifies this, wire`toServer
      ensures Holds(cfg, p, hs)
      ensures InLine(p, Place(hs), transcript, b, u, wire.toServer, f, wire.toClient, flight)
      ensures wait == old(wait) && Fine(old(hs), hs, ret)
      ensures Goes(ret)
      ensures OfferKnown(p, hs, offer)
      ensures flight == old(flight) && ret != Flush && (ret == ReadMessage ==> wire.toServer == [])
      ensures ret != ReadCcs && !hs.state.ProcessCipherChange?
    {
      hide InLine, First, Holds, Turn, Forward, Place, Index, Rank, Hashed;
      ChannelIdFacts(cfg, p, hs);
      FirstHere(p, AtChannelId, transcript);
      if !hs.channelId {
        Pass(p, AtChannelId, b, u, f);
        hs := hs.(state := ReadClientFinished);
        return Ok;
      }
      var r := GetMessage(p, AtChannelId, b, u, f);
      if r.Nothing? { return ReadMessage; }
      if r.BadRecord? { return Error(UnexpectedRecord); }
      if !r.msg.ChannelId? { return Error(UnexpectedMessage); }
      if r.msg.signed != transcript { return Error(BadSignature); }
      TakeMessage(r.msg, p, AtChannelId, b, u, f);
      hs := hs.(state := ReadClientFinished);
      return Ok;
    }

    /** do_read_client_finished: the MAC covers exactly the server's transcript. */
    method DoReadClientFinished(ghost p: Params, ghost b: Point, ghost u: seq<Msg>, ghost f: seq<Item>)
      returns (ret: Wait)
      requires Holds(cfg, p, hs) && OfferKnown(p, hs, offer)
      requires InLine(p, Place(hs), transcript, b, u, wire.toServer, f, wire.toClient, flight)
      requires hs.state == ReadClientFinished
      modifies this, wire`toServer
      ensures Holds(cfg, p, hs)
      ensures InLine(p, Place(hs), transcript, b, u, wire.toServer, f, wire.toClient, flight)
      ensures wait == old(wait) && Fine(old(hs), hs, ret)
      ensures Goes(ret)
      ensures OfferKnown(p, hs, offer)
      ensures flight == old(flight) && ret != Flush && (ret == ReadMessage ==> wire.toServer == [])
      ensures ret != ReadCcs && !hs.state.ProcessCipherChange?
    {
      hide InLine, First, Holds, Turn, Forward, Place, Index, Rank, Hashed;
      PeerFinishedFacts(cfg, p, hs);
      FirstHere(p, AtClientFinished, transcript);
      var r := GetMessage(p, AtClientFinished, b, u, f);
      if r.Nothing? { return ReadMessage; }
      if r.BadRecord? { return Error(UnexpectedRecord); }
      if !r.msg.Finished? { return Error(UnexpectedMessage); }
      if r.msg.fromServer || r.msg.mac != transcript { return Error(BadMac); }
      TakeMessage(r.msg, p, AtClientFinished, b, u, f);
      hs := hs.(state := if hs.resumed then FinishServerHandshake else SendServerFinished);
      return Ok;
    }

    /** do_send_server_finished */
    method DoSendServerFinished(ghost p: Params, ghost b: Point, ghost u: seq<Msg>, ghost f: seq<Item>)
      returns (ret: Wait)
      requires Holds(cfg, p, hs) && OfferKnown(p, hs, offer)
      requires InLine(p, Place(hs), transcript, b, u, wire.toServer, f, wire.toClient, flight)
      requires hs.state == SendServerFinished && p.emptyTicket == cfg.emptyTicket
      modifies this, wire`toServer
      ensures Holds(cfg, p, hs)
      ensures InLine(p, Place(hs), transcript, b, u, wire.toServer, f, wire.toClient, flight)
      ensures wait == old(wait) && Fine(old(hs), hs, ret)
      ensures Goes(ret)
      ensures OfferKnown(p, hs, offer)
      ensures ret == Flush && !hs.state.ProcessCipherChange?
    {
      hide *;
      OwnFinishedFacts(cfg, p, hs);
      AfterFinishedFacts(cfg, p, hs);
      ghost var next := AfterFinished(hs.(sealing := true));
      OfferStays(p, hs, next, offer);
      FineAfter(hs, next);
      SendFinished(p, b, u, f);
      hs := AfterFinished(hs);
      return Flush;
    }

    /** NewSessionTicket, ChangeCipherSpec, and Finished under the new keys. */
    method SendFinished(ghost p: Params, ghost b: Point, ghost u: seq<Msg>, ghost f: seq<Item>)
      requires InLine(p, AtTicket, transcript, b, u, wire.toServer, f, wire.toClient, flight)
      requires !hs.sealing && hs.ticketExpected == p.hello.ticket && p.emptyTicket == cfg.emptyTicket
      modifies this`flight, this`transcript, this`hs
      ensures InLine(p, NextPoint(p.resumed, AtServerFinished), transcript, b, u, wire.toServer, f, wire.toClient, flight)
      ensures hs == old(hs).(sealing := true)
    {
      hide InLine;
      if hs.ticketExpected {
        AddMessage(NewSessionTicket(cfg.emptyTicket), p, AtTicket, b, u, f);
      } else {
        Pass(p, AtTicket, b, u, f);
      }
      AddChangeCipherSpec(p, b, u, f);
      hs := hs.(sealing := true);
      AddMessage(Finished(true, transcript), p, AtServerFinished, b, u, f);
    }

    /** do_finish_server_handshake */
    method DoFinishServerHandshake(ghost p: Params, ghost b: Point, ghost u: seq<Msg>, ghost f: seq<Item>)
      returns (ret: Wait)
      requires Holds(cfg, p, hs) && OfferKnown(p, hs, offer)
      requires InLine(p, Place(hs), transcript, b, u, wire.toServer, f, wire.toClient, flight)
      requires hs.state == FinishServerHandshake
      modifies this, wire`toServer
      ensures Holds(cfg, p, hs)
      ensures InLine(p, Place(hs), transcript, b, u, wire.toServer, f, wire.toClient, flight)
      ensures wait == old(wait) && Fine(old(hs), hs, ret)
      ensures Goes(ret)
      ensures OfferKnown(p, hs, offer)
      ensures flight == old(flight) && ret != Flush && ret != ReadMessage && ret != ReadCcs && !hs.state.ProcessCipherChange?
    {
      hide InLine, First, Holds, Turn, Forward, Place, Index, Rank, Hashed;
      CompleteFacts(cfg, p, hs);
      hs := hs.(state := Complete);
      return Ok;
    }

    // ---------------------------------------------------------------- the driver

    /** The dispatch of ssl_server_handshake on a state other than Complete. */
    method Step(choice: Choice, ghost p: Params, ghost b: Point, ghost u: seq<Msg>, ghost f: seq<Item>)
      returns (ret: Wait)
      requires Holds(cfg, p, hs) && OfferKnown(p, hs, offer)
      requires InLine(p, Place(hs), transcript, b, u, wire.toServer, f, wire.toClient, flight)
      requires hs.state != Complete && (hs.state.ProcessCipherChange? ==> hs.ccsTaken)
      requires flight == [] || Queueing(hs.state)
      modifies this, wire`toServer
      ensures Holds(cfg, p, hs)
      ensures InLine(p, Place(hs), transcript, b, u, wire.toServer, f, wire.toClient, flight)
      ensures wait == old(wait) && Fine(old(hs), hs, ret)
      ensures choice == Proceed ==> Goes(ret) || (Refuses(cfg, p) && ret.Error?)
      ensures OfferKnown(p, hs, offer)
      ensures ret == Ok || ret == Pending ==> flight == [] || Queueing(hs.state)
      ensures ret == Ok ==> !hs.state.ProcessCipherChange?
      ensures ret == ReadCcs <==> (hs.state.ProcessCipherChange? && !hs.ccsTaken)
      ensures ret == ReadMessage ==> wire.toServer == [] && Awaiting(hs.state)
      ensures ret == ReadMessage || ret == ReadCcs ==> flight == []
    {
      hide InLine, Holds, Place, Forward, OfferKnown;
      EmptyTicketAgrees(cfg, p, hs);
      match hs.state {
        case StartAccept => ret := DoStartAccept(p, b, u, f);
        case ReadClientHello => ret := DoReadClientHello(choice, p, b, u, f);
        case SelectCertificate => ret := DoSelectCertificate(choice, p, b, u, f);
        case SelectParameters => ret := DoSelectParameters(choice, p, b, u, f);
        case SendServerHello => ret := DoSendServerHello(p, b, u, f);
        case SendServerCertificate => ret := DoSendServerCertificate(choice, p, b, u, f);
        case SendServerKeyExchange => ret := DoSendServerKeyExchange(choice, p, b, u, f);
        case SendServerHelloDone => ret := DoSendServerHelloDone(p, b, u, f);
        case ReadClientCertificate => ret := DoReadClientCertificate(choice, p, b, u, f);
        case VerifyClientCertificate => ret := DoVerifyClientCertificate(choice, p, b, u, f);
        case ReadClientKeyExchange => ret := DoReadClientKeyExchange(choice, p, b, u, f);
        case ReadClientCertificateVerify => ret := DoReadClientCertificateVerify(choice, p, b, u, f);
        case ReadChangeCipherSpec => ret := DoReadChangeCipherSpec(p, b, u, f);
        case ProcessCipherChange => ret := DoProcessChangeCipherSpec(p, b, u, f);
        case ReadNextProto => ret := DoReadNextProto(p, b, u, f);
        case ReadChannelId => ret := DoReadChannelId(p, b, u, f);
        case ReadClientFinished => ret := DoReadClientFinished(p, b, u, f);
        case SendServerFinished => ret := DoSendServerFinished(p, b, u, f);
        case FinishServerHandshake => ret := DoFinishServerHandshake(p, b, u, f);
      }
    }

    /** Where ssl_run_handshake stands when it returns: done, failed, blocked on the peer, or waiting for an operation. */
    ghost predicate Paused()
      reads this, wire
    {
      && (wait.Ok? <==> hs.state == Complete)
      && (wait.Flush? || flight == [] || Queueing(hs.state) || wait.Error?)
      && (hs.state.ProcessCipherChange? && !wait.Error? ==> (wait.ReadCcs? <==> !hs.ccsTaken))
      && (wait.ReadCcs? ==> hs.state.ProcessCipherChange?)
      && (wait.ReadMessage? ==> Awaiting(hs.state))
    }

    /** The server can do nothing before something arrives. */
    ghost predicate Blocked()
      reads this, wire
    {
      wire.toServer == [] && flight == [] && (wait.ReadMessage? || wait.ReadCcs?)
    }

    /**
     * One turn of ssl_run_handshake: resolve what the handshake waits for, then run states
     * until one has to wait.  `choices` are the outcomes of the operations.
     */
    method Run(choices: seq<Choice>, ghost p: Params, ghost b: Point, ghost u: seq<Msg>, ghost f: seq<Item>)
      requires Holds(cfg, p, hs) && OfferKnown(p, hs, offer)
      requires InLine(p, Place(hs), transcript, b, u, wire.toServer, f, wire.toClient, flight)
      requires Paused() || (hs == NewServer && wait.Ok? && flight == [])
      modifies this, wire
      ensures Holds(cfg, p, hs)
      ensures InLine(p, Place(hs), transcript, b, u, wire.toServer, f, wire.toClient, flight)
      ensures OfferKnown(p, hs, offer)
      ensures Paused() && (NoBlame(old(wait)) ==> NoBlame(wait))
      ensures choices == [] && !old(wait.Error?) ==> Goes(wait) || (Refuses(cfg, p) && wait.Error?)
      ensures Goes(wait) ==> Forward(old(hs), hs) || (hs == old(hs) && (hs.state == Complete || Blocked()))
      ensures old(wait.Flush?) || wire.toClient == old(wire.toClient)
    {
      hide InLine, Holds, Place, OfferKnown, Forward, Turn, Refuses;
      if wait.Error? || hs.state == Complete { return; }
      if wait.Flush? {
        FlushFlight(p, b, u, f);
      } else if wait.ReadCcs? {
        OfferAnyway(p, hs, offer);
        var r := OpenChangeCipherSpec(p, b, u, f);
        wait := r;
        if r != Ok { return; }
        ForwardAnyway(old(hs));
      }
      RunStates(choices, p, b, u, f);
    }

    /** The loop of ssl_server_handshake. */
    method RunStates(choices: seq<Choice>, ghost p: Params, ghost b: Point, ghost u: seq<Msg>, ghost f: seq<Item>)
      requires Holds(cfg, p, hs) && OfferKnown(p, hs, offer)
      requires InLine(p, Place(hs), transcript, b, u, wire.toServer, f, wire.toClient, flight)
      requires (hs.state.ProcessCipherChange? ==> hs.ccsTaken) && (flight == [] || Queueing(hs.state))
      modifies this, wire`toServer
      ensures Holds(cfg, p, hs)
      ensures InLine(p, Place(hs), transcript, b, u, wire.toServer, f, wire.toClient, flight)
      ensures OfferKnown(p, hs, offer)
      ensures Paused() && NoBlame(wait)
      ensures choices == [] ==> Goes(wait) || (Refuses(cfg, p) && wait.Error?)
      ensures Forward(old(hs), hs) || (hs == old(hs) && (Blocked() || hs.state == Complete || wait.Error? || wait.Pending?))
    {
      hide InLine, Holds, Place, Forward, Turn, OfferKnown, Refuses;
      wait := Ok;
      ghost var start := hs;
      var i := 0;
      while hs.state != Complete
        invariant Holds(cfg, p, hs) && wait == Ok && OfferKnown(p, hs, offer)
        invariant InLine(p, Place(hs), transcript, b, u, wire.toServer, f, wire.toClient, flight)
        invariant hs.state.ProcessCipherChange? ==> hs.ccsTaken
        invariant flight == [] || Queueing(hs.state)
        invariant hs == start || Forward(start, hs)
        decreases 20 - Turn(hs.state, hs.resumed)
      {
        var choice := if i < |choices| then choices[i] else Proceed;
        i := i + 1;
        ghost var was := hs;
        var ret := Step(choice, p, b, u, f);
        ForwardAgain(start, was, hs);
        if ret != Ok {
          wait := ret;
          return;
        }
        TurnBelow(was, hs);
      }
    }

    /** flush_flight */
    method FlushFlight(ghost p: Params, ghost b: Point, ghost u: seq<Msg>, ghost f: seq<Item>)
      requires InLine(p, Place(hs), transcript, b, u, wire.toServer, f, wire.toClient, flight)
      modifies this`flight, wire`toClient
      ensures InLine(p, Place(hs), transcript, b, u, wire.toServer, f, wire.toClient, flight)
      ensures flight == [] && wire.toClient == old(wire.toClient) + old(flight)
    {
      hide Linked, Place;
      assert wire.toClient + flight + [] == wire.toClient + flight;
      wire.toClient := wire.toClient + flight;
      flight := [];
    }
  }

  lemma EmptyTicketAgrees(cfg: ServerConfig, p: Params, hs: Record)
    requires Holds(cfg, p, hs)
    ensures p.emptyTicket == cfg.emptyTicket
  {
  }

  /** The offer does not depend on the ChangeCipherSpec. */
  lemma OfferAnyway(p: Params, hs: Record, offer: Offer)
    ensures OfferKnown(p, hs.(ccsTaken := true), offer) == OfferKnown(p, hs, offer)
  {
  }

  lemma FineAfter(was: Record, now: Record)
    requires Forward(was, now)
    ensures (!now.state.Complete? ==> Fine(was, now, Flush)) && Fine(was, now, Ok) && Goes(Flush) && Goes(Ok)
  {
  }

  lemma OfferStays(p: Params, was: Record, now: Record, offer: Offer)
    requires OfferKnown(p, was, offer) && !was.state.StartAccept? && !was.state.ReadClientHello?
    ensures OfferKnown(p, now, offer) && offer == p.offer
  {
  }

  /** From the moment the ClientHello has been read its offer is remembered. */
  predicate OfferKnown(p: Params, hs: Record, offer: Offer) {
    hs.state.StartAccept? || hs.state.ReadClientHello? || offer == p.offer
  }
}
