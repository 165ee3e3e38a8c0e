/**
 * The TLS 1.2 client and server together, over two FIFO channels: every run of the two state
 * machines, with any number of retries and any outcome of the operations outside them.
 */
module Handshake {
  import opened Protocol
  import opened Client
  import opened Server

  // ---------------------------------------------------------------- at the start

  /** The negotiated parameters are ones both sides can accept. */
  lemma StartIsLegal(cc: ClientConfig, sc: ServerConfig)
    requires Consistent(cc, sc)
    ensures var p := Negotiated(cc, sc); Knows(cc, p, NewClient) && Holds(sc, p, NewServer)
  {
    hide Phase, Stage;
    var p := Negotiated(cc, sc);
    assert p == Negotiated(ClientConfig(p.offer, Cipher(Rsa, true), p.clientCert), sc);
    FreshStages(cc, sc, p);
  }

  lemma FreshStages(cc: ClientConfig, sc: ServerConfig, p: Params)
    ensures Phase(p, NewClient) && Stage(p, NewServer)
  {
  }

  lemma StartIsLinked(p: Params)
    ensures OnLine(p, At(NewClient), [], Place(NewServer), [], [], [], [], [])
  {
    hide Path, Rest;
    PathHere(p, true, AtClientHello, [], [], []);
  }

  // ---------------------------------------------------------------- the two views of the channels

  lemma ServersView(p: Params, a: Point, t: seq<Msg>, b: Point, u: seq<Msg>,
                    toClient: seq<Item>, serverFlight: seq<Item>, toServer: seq<Item>, clientFlight: seq<Item>)
    ensures OnLine(p, a, t, b, u, toClient, serverFlight, toServer, clientFlight)
       <==> InLine(p, b, u, a, t, toServer, clientFlight, toClient, serverFlight)
  {
    hide Linked;
    if OnLine(p, a, t, b, u, toClient, serverFlight, toServer, clientFlight) {
      LinkedSwaps(p, false, a, t, b, u, toClient + serverFlight, toServer + clientFlight);
    }
    if InLine(p, b, u, a, t, toServer, clientFlight, toClient, serverFlight) {
      LinkedSwaps(p, true, b, u, a, t, toServer + clientFlight, toClient + serverFlight);
    }
  }

  // ---------------------------------------------------------------- nobody waits for nothing

  /** The side whose turn it is at a point. */
  predicate ServersTurn(a: Point) {
    1 <= Index(a) <= 6 || 14 <= Index(a) <= 16
  }

  lemma EntryIsOfTurn(p: Params, a: Point, t: seq<Msg>)
    requires !a.AtEnd?
    ensures EntryAt(p, a, t).Some? ==> EntryAt(p, a, t).value.fromServer == ServersTurn(a)
    ensures EntryAt(p, a, t).None? ==>
              !NextPoint(p.resumed, a).AtEnd? && ServersTurn(NextPoint(p.resumed, a)) == ServersTurn(a)
  {
  }

  /** Optional messages left out do not change whose turn it is. */
  lemma {:induction false} FirstIsOfTurn(p: Params, a: Point, t: seq<Msg>)
    requires !a.AtEnd?
    ensures First(p, a, t).Some? && First(p, a, t).value.fromServer == ServersTurn(a)
    decreases 17 - Rank(p.resumed, a)
  {
    hide First, EntryAt, ServersTurn, NextPoint, Rank;
    RankBound(p.resumed, a);
    RankBound(p.resumed, NextPoint(p.resumed, a));
    FirstHere(p, a, t);
    EntryIsOfTurn(p, a, t);
    if EntryAt(p, a, t).None? { FirstIsOfTurn(p, NextPoint(p.resumed, a), t); }
  }

  /** A side waits only where it is the other's turn. */
  lemma WaitsForTheOther(c: Fields, s: Record)
    ensures Reading(c.state) || (c.state.ProcessChangeCipherSpec? && !c.ccsRead) ==> !At(c).AtEnd? && ServersTurn(At(c))
    ensures Awaiting(s.state) || (s.state.ProcessCipherChange? && !s.ccsTaken) ==> !Place(s).AtEnd? && !ServersTurn(Place(s))
  {
  }

  lemma NothingAtEnd(p: Params, t: seq<Msg>)
    ensures First(p, AtEnd, t).None? && Rest(p, AtEnd, t) == t
  {
  }

  /** At the end of the script nothing is on the way any more, and the transcript is the whole script. */
  lemma EndIsWhole(p: Params, server: bool, t: seq<Msg>, b: Point, u: seq<Msg>, toA: seq<Item>, toB: seq<Item>)
    requires Linked(p, server, AtEnd, t, b, u, toA, toB)
    ensures t == Script(p) && toA == []
    ensures b == AtEnd ==> u == t && toB == []
  {
    hide Path, First, Rest;
    NothingAtEnd(p, t);
    NothingAtEnd(p, u);
    FirstLinked(p, server, AtEnd, t, b, u, toA, toB);
    if b == AtEnd {
      LinkedSwaps(p, server, AtEnd, t, b, u, toA, toB);
      FirstLinked(p, !server, AtEnd, u, AtEnd, t, toB, toA);
    }
  }

  /** One of the sides stands still: it is done, or it waits and nothing has arrived. */
  predicate ClientStill(hs: Fields, toClient: seq<Item>) {
    hs.state.Done? || (toClient == [] && (Reading(hs.state) || (hs.state.ProcessChangeCipherSpec? && !hs.ccsRead)))
  }

  predicate ServerStill(hs: Record, toServer: seq<Item>) {
    hs.state.Complete? || (toServer == [] && (Awaiting(hs.state) || (hs.state.ProcessCipherChange? && !hs.ccsTaken)))
  }

  /** There is no deadlock: when both sides stand still with empty flights, both are done. */
  lemma StillMeansDone(p: Params, c: Fields, t: seq<Msg>, s: Record, u: seq<Msg>, toClient: seq<Item>, toServer: seq<Item>)
    requires Linked(p, false, At(c), t, Place(s), u, toClient, toServer)
    requires ClientStill(c, toClient) && ServerStill(s, toServer)
    ensures c.state.Done? && s.state.Complete?
  {
    hide Linked, First, Rest, ServersTurn, Reading, Awaiting;
    WaitsForTheOther(c, s);
    NothingAtEnd(p, t);
    NothingAtEnd(p, u);
    if !c.state.Done? { FirstIsOfTurn(p, At(c), t); }
    if !s.state.Complete? { FirstIsOfTurn(p, Place(s), u); }
    FirstLinked(p, false, At(c), t, Place(s), u, toClient, toServer);
    LinkedSwaps(p, false, At(c), t, Place(s), u, toClient, toServer);
    FirstLinked(p, true, Place(s), u, At(c), t, toServer, toClient);
  }

  // ---------------------------------------------------------------- every run

  /** One turn of ssl_run_handshake on either side, with the outcomes of the operations in it. */
  datatype Call = ClientRuns(choices: seq<Choice>) | ServerRuns(choices: seq<Choice>)

  /** Each side knows what was negotiated, and the channels hold exactly what one has sent ahead of the other. */
  ghost predicate Together(p: Params, client: ClientSide, server: ServerSide)
    reads client, server, client.wire
  {
    && client.wire == server.wire
    && Knows(client.cfg, p, client.hs) && Holds(server.cfg, p, server.hs) && OfferKnown(p, server.hs, server.offer)
    && OnLine(p, At(client.hs), client.transcript, Place(server.hs), server.transcript,
              client.wire.toClient, server.flight, client.wire.toServer, client.flight)
  }

  /** Between calls: started and paused, or not yet started. */
  ghost predicate Between(client: ClientSide, server: ServerSide)
    reads client, server, client.wire, server.wire
  {
    && (client.Paused() || (client.hs == NewClient && client.wait.Ok? && client.flight == []))
    && (server.Paused() || (server.hs == NewServer && server.wait.Ok? && server.flight == []))
  }

  lemma NoStepBack(c: Fields, s: Record)
    ensures !Onward(c, c) && !Forward(s, s)
  {
  }

  /** Two peers with configurations that fit each other. */
  method Start(cc: ClientConfig, sc: ServerConfig) returns (client: ClientSide, server: ServerSide)
    requires Consistent(cc, sc)
    ensures fresh(client) && fresh(server) && fresh(client.wire) && client.cfg == cc && server.cfg == sc
    ensures Together(Negotiated(cc, sc), client, server) && Between(client, server)
    ensures client.wait == Ok && server.wait == Ok
  {
    hide Knows, Holds, OnLine, At, Place;
    var wire := new Wire();
    client := new ClientSide(cc, wire);
    server := new ServerSide(sc, wire);
    StartIsLegal(cc, sc);
    StartIsLinked(Negotiated(cc, sc));
  }

  /** The client's turn. */
  method RunClient(client: ClientSide, server: ServerSide, choices: seq<Choice>, ghost p: Params)
    requires Together(p, client, server) && Between(client, server)
    modifies client, client.wire
    ensures Together(p, client, server)
    ensures Between(client, server)
    ensures NoBlame(old(client.wait)) ==> NoBlame(client.wait)
    ensures choices == [] && !old(client.wait.Error?) ==> Goes(client.wait)
    ensures Goes(client.wait) ==>
              Onward(old(client.hs), client.hs) || (client.hs == old(client.hs) && ClientStill(client.hs, client.wire.toClient))
    ensures old(client.wait.Flush?) || client.wire.toServer == old(client.wire.toServer)
    ensures Goes(client.wait) && client.hs == old(client.hs) ==> !client.wait.Flush?
  {
    hide Knows, Holds, OnLine, At, Place, Onward, OfferKnown, Reading;
    NoStepBack(client.hs, server.hs);
    client.Run(choices, p, Place(server.hs), server.transcript, server.flight);
  }

  /** The server's turn. */
  method RunServer(client: ClientSide, server: ServerSide, choices: seq<Choice>, ghost p: Params)
    requires Together(p, client, server) && Between(client, server)
    modifies server, server.wire
    ensures Together(p, client, server)
    ensures Between(client, server)
    ensures NoBlame(old(server.wait)) ==> NoBlame(server.wait)
    ensures choices == [] && !old(server.wait.Error?) ==> Goes(server.wait) || (Refuses(server.cfg, p) && server.wait.Error?)
    ensures Goes(server.wait) ==>
              Forward(old(server.hs), server.hs) || (server.hs == old(server.hs) && ServerStill(server.hs, server.wire.toServer))
    ensures old(server.wait.Flush?) || server.wire.toClient == old(server.wire.toClient)
    ensures Goes(server.wait) && server.hs == old(server.hs) ==> !server.wait.Flush?
  {
    hide Knows, Holds, OnLine, InLine, At, Place, Forward, OfferKnown, Awaiting, Refuses;
    ServersView(p, At(client.hs), client.transcript, Place(server.hs), server.transcript,
                client.wire.toClient, server.flight, client.wire.toServer, client.flight);
    NoStepBack(client.hs, server.hs);
    server.Run(choices, p, At(client.hs), client.transcript, client.flight);
    ServersView(p, At(client.hs), client.transcript, Place(server.hs), server.transcript,
                client.wire.toClient, server.flight, client.wire.toServer, client.flight);
  }

  /**
   * Any schedule of calls, with any outcomes: no side ever blames the other for an
   * unexpected message, a MAC or a signature, and what a finished side has hashed is the
   * whole script.
   */
  method Converse(client: ClientSide, server: ServerSide, schedule: seq<Call>, ghost p: Params)
    requires Together(p, client, server) && Between(client, server)
    requires NoBlame(client.wait) && NoBlame(server.wait)
    modifies client, server, client.wire
    ensures Together(p, client, server)
    ensures Between(client, server)
    ensures NoBlame(client.wait) && NoBlame(server.wait)
    ensures client.hs.state.Done? ==> client.transcript == Script(p)
    ensures server.hs.state.Complete? ==> server.transcript == Script(p) && !Refuses(server.cfg, p)
    ensures client.hs.state.Done? && server.hs.state.Complete? ==>
              client.wire.toClient == [] && client.wire.toServer == []
              && client.hs.cipher == server.hs.cipher && client.hs.resumed == server.hs.resumed
    ensures !(client.Blocked() && server.Blocked())
  {
    hide Knows, Holds, OnLine, At, Place, OfferKnown, Script, Refuses;
    var i := 0;
    while i < |schedule|
      invariant 0 <= i <= |schedule|
      invariant Together(p, client, server)
      invariant Between(client, server)
      invariant NoBlame(client.wait) && NoBlame(server.wait)
    {
      match schedule[i] {
        case ClientRuns(choices) => RunClient(client, server, choices, p);
        case ServerRuns(choices) => RunServer(client, server, choices, p);
      }
      i := i + 1;
    }
    Outcome(p, client, server);
  }

  /** A finished side has hashed the whole script; when both have finished, the channels are empty. */
  lemma DoneIsWhole(p: Params, c: Fields, t: seq<Msg>, s: Record, u: seq<Msg>,
                    toClient: seq<Item>, serverFlight: seq<Item>, toServer: seq<Item>, clientFlight: seq<Item>)
    requires OnLine(p, At(c), t, Place(s), u, toClient, serverFlight, toServer, clientFlight)
    ensures c.state.Done? ==> t == Script(p)
    ensures s.state.Complete? ==> u == Script(p)
    ensures c.state.Done? && s.state.Complete? ==>
              toClient == [] && toServer == [] && serverFlight == [] && clientFlight == []
  {
    hide Linked, Script;
    LinkedSwaps(p, false, At(c), t, Place(s), u, toClient + serverFlight, toServer + clientFlight);
    if c.state.Done? { EndIsWhole(p, false, t, Place(s), u, toClient + serverFlight, toServer + clientFlight); }
    if s.state.Complete? { EndIsWhole(p, true, u, At(c), t, toServer + clientFlight, toClient + serverFlight); }
  }

  /** The cipher suite and whether a session is resumed, as both sides have them at the end. */
  lemma SameParameters(cc: ClientConfig, sc: ServerConfig, p: Params, c: Fields, s: Record)
    requires Knows(cc, p, c) && Holds(sc, p, s)
    ensures c.state.Done? ==> c.cipher == p.hello.cipher && c.resumed == p.resumed
    ensures s.state.Complete? ==> s.cipher == p.hello.cipher && s.resumed == p.resumed
  {
    hide Legal, Lawful, Phase, Stage, Refuses;
  }

  lemma CompleteIsSatisfied(sc: ServerConfig, p: Params, s: Record)
    requires Holds(sc, p, s) && s.state.Complete?
    ensures !Refuses(sc, p)
  {
    hide Lawful, Refuses, Stage;
  }

  lemma FlightsEmpty(p: Params, c: Fields, t: seq<Msg>, s: Record, u: seq<Msg>, toClient: seq<Item>, toServer: seq<Item>)
    requires OnLine(p, At(c), t, Place(s), u, toClient, [], toServer, [])
    ensures Linked(p, false, At(c), t, Place(s), u, toClient, toServer)
  {
    hide Linked, At, Place;
    assert toClient + [] == toClient && toServer + [] == toServer;
  }

  /** What a state between calls looks like when a side is done, and that the sides never both wait. */
  lemma Outcome(p: Params, client: ClientSide, server: ServerSide)
    requires Together(p, client, server) && Between(client, server)
    ensures client.hs.state.Done? ==> client.transcript == Script(p)
    ensures server.hs.state.Complete? ==> server.transcript == Script(p) && !Refuses(server.cfg, p)
    ensures client.hs.state.Done? && server.hs.state.Complete? ==>
              client.wire.toClient == [] && client.wire.toServer == []
              && client.hs.cipher == server.hs.cipher && client.hs.resumed == server.hs.resumed
    ensures !(client.Blocked() && server.Blocked())
  {
    hide Knows, Holds, OnLine, At, Place, OfferKnown, Script, Refuses, Reading, Awaiting;
    DoneIsWhole(p, client.hs, client.transcript, server.hs, server.transcript,
                client.wire.toClient, server.flight, client.wire.toServer, client.flight);
    if server.hs.state.Complete? { CompleteIsSatisfied(server.cfg, p, server.hs); }
    SameParameters(client.cfg, server.cfg, p, client.hs, server.hs);
    if client.Blocked() && server.Blocked() {
      FlightsEmpty(p, client.hs, client.transcript, server.hs, server.transcript, [], []);
      StillMeansDone(p, client.hs, client.transcript, server.hs, server.transcript, [], []);
    }
  }

  /** What is left to do on a side. */
  function ClientLeft(hs: Fields, wait: Wait): nat {
    2 * (if Order(hs.state, hs.resumed) <= 24 then 24 - Order(hs.state, hs.resumed) else 0) + if wait.Flush? then 1 else 0
  }

  function ServerLeft(hs: Record, wait: Wait): nat {
    2 * (if Turn(hs.state, hs.resumed) <= 20 then 20 - Turn(hs.state, hs.resumed) else 0) + if wait.Flush? then 1 else 0
  }

  lemma LeftLess(was: Fields, now: Fields, wasWait: Wait, wait: Wait)
    ensures Onward(was, now) ==> ClientLeft(now, wait) < ClientLeft(was, wasWait)
    ensures now == was && !wait.Flush? ==> ClientLeft(now, wait) <= ClientLeft(was, wasWait)
    ensures now == was && !wait.Flush? && wasWait.Flush? ==> ClientLeft(now, wait) < ClientLeft(was, wasWait)
  {
    assert Onward(was, now) ==> Order(was.state, was.resumed) < Order(now.state, now.resumed) <= 23 by {
      hide Order;
      if Onward(was, now) { OrderBelow(was, now); }
    }
    hide Order;
  }

  lemma ServerLeftLess(was: Record, now: Record, wasWait: Wait, wait: Wait)
    ensures Forward(was, now) ==> ServerLeft(now, wait) < ServerLeft(was, wasWait)
    ensures now == was && !wait.Flush? ==> ServerLeft(now, wait) <= ServerLeft(was, wasWait)
    ensures now == was && !wait.Flush? && wasWait.Flush? ==> ServerLeft(now, wait) < ServerLeft(was, wasWait)
  {
    assert Forward(was, now) ==> Turn(was.state, was.resumed) < Turn(now.state, now.resumed) <= 19 by {
      hide Turn;
      if Forward(was, now) { TurnBelow(was, now); }
    }
    hide Turn;
  }

  /**
   * From any point of any run at which nothing has failed, calls in which every operation
   * succeeds bring the handshake to its end on both sides, unless the server insists on a
   * certificate that the client does not have; then they never do.
   */
  method Conclude(client: ClientSide, server: ServerSide, ghost p: Params)
    requires Together(p, client, server) && Between(client, server)
    requires !client.wait.Error? && !server.wait.Error?
    modifies client, server, client.wire
    ensures Together(p, client, server) && Between(client, server)
    ensures client.hs.state.Done? && server.hs.state.Complete? <==> !Refuses(server.cfg, p)
    ensures NoBlame(client.wait) && NoBlame(server.wait)
  {
    hide Knows, Holds, OnLine, At, Place, OfferKnown, Script, Refuses, Onward, Forward, ClientStill,
         ServerStill, ClientLeft, ServerLeft;
    while !(client.hs.state.Done? && server.hs.state.Complete?) && !server.wait.Error?
      invariant Together(p, client, server)
      invariant Between(client, server)
      invariant !client.wait.Error? && NoBlame(server.wait) && (!Refuses(server.cfg, p) ==> !server.wait.Error?)
      decreases ClientLeft(client.hs, client.wait) + ServerLeft(server.hs, server.wait)
    {
      ghost var c, s, cw, sw := client.hs, server.hs, client.wait, server.wait;
      RunClient(client, server, [], p);
      RunServer(client, server, [], p);
      if server.wait.Error? { break; }
      LeftLess(c, client.hs, cw, client.wait);
      ServerLeftLess(s, server.hs, sw, server.wait);
      if client.hs == c && server.hs == s && !cw.Flush? && !sw.Flush? {
        NoStepBack(c, s);
        Stuck(p, client, server);
      }
    }
    Outcome(p, client, server);
  }

  lemma Stuck(p: Params, client: ClientSide, server: ServerSide)
    requires Together(p, client, server) && Between(client, server)
    requires ClientStill(client.hs, client.wire.toClient) && ServerStill(server.hs, client.wire.toServer)
    requires Goes(client.wait) && !client.wait.Flush? && Goes(server.wait) && !server.wait.Flush?
    ensures client.hs.state.Done? && server.hs.state.Complete?
  {
    hide Knows, Holds, OnLine, At, Place, OfferKnown, ClientStill, ServerStill, Sending, Queueing, Linked;
    StillIsIdle(client.hs, server.hs, client.wire.toClient, client.wire.toServer);
    FlightsEmpty(p, client.hs, client.transcript, server.hs, server.transcript, client.wire.toClient, client.wire.toServer);
    StillMeansDone(p, client.hs, client.transcript, server.hs, server.transcript, client.wire.toClient, client.wire.toServer);
  }

  lemma StillIsIdle(c: Fields, s: Record, toClient: seq<Item>, toServer: seq<Item>)
    requires ClientStill(c, toClient) && ServerStill(s, toServer)
    ensures !Sending(c.state) && !Queueing(s.state) && c != NewClient && s != NewServer
  {
  }

  // ---------------------------------------------------------------- what is sent, from the configurations alone

  datatype Kind =
    | Greeting | Cert | NoCert | Status | ServerKey | Request | HelloDone | ClientKey | Verify | Proto | Id | Ticket | Finish

  function KindOf(m: Msg): Kind {
    match m
    case ClientHello(_) => Greeting
    case ServerHello(_) => Greeting
    case Certificate(empty) => if empty then NoCert else Cert
    case CertificateStatus => Status
    case ServerKeyExchange => ServerKey
    case CertificateRequest => Request
    case ServerHelloDone => HelloDone
    case ClientKeyExchange => ClientKey
    case CertificateVerify(_) => Verify
    case NextProto => Proto
    case ChannelId(_) => Id
    case NewSessionTicket(_) => Ticket
    case Finished(_, _) => Finish
  }

  /** How many messages of a kind there are. */
  function Count(t: seq<Msg>, k: Kind): nat {
    if t == [] then 0 else Count(t[..|t| - 1], k) + if KindOf(t[|t| - 1]) == k then 1 else 0
  }

  lemma {:induction false} CountJoins(t: seq<Msg>, u: seq<Msg>, k: Kind)
    ensures Count(t + u, k) == Count(t, k) + Count(u, k)
    decreases |u|
  {
    if u == [] {
      assert t + u == t;
    } else {
      CountJoins(t, u[..|u| - 1], k);
      assert (t + u)[..|t + u| - 1] == t + u[..|u| - 1];
    }
  }

  lemma CountOne(m: Msg, k: Kind)
    ensures Count([m], k) == if KindOf(m) == k then 1 else 0
  {
    assert Count([m][..0], k) == 0;
  }

  lemma CountMaybe(t: seq<Msg>, present: bool, m: Msg, k: Kind)
    ensures Count(t + Maybe(present, m), k) == Count(t, k) + if present && KindOf(m) == k then 1 else 0
  {
    CountJoins(t, Maybe(present, m), k);
    CountOne(m, k);
  }

  lemma CountMore(t: seq<Msg>, m: Msg, k: Kind)
    ensures Count(t + [m], k) == Count(t, k) + if KindOf(m) == k then 1 else 0
  {
    CountJoins(t, [m], k);
    CountOne(m, k);
  }

  /** One for a message that is sent. */
  function If(sent: bool): nat {
    if sent then 1 else 0
  }

  /**
   * Which messages the two configurations call for, each once: the client certificate is asked for
   * by SSL_VERIFY_PEER, in a full handshake with certificates, unless Channel ID is to stand in for
   * it; a ticket is issued in a full handshake and renewed in an abbreviated one; Channel ID needs
   * ECDHE and, for a resumed session, the hash of its handshake.
   */
  predicate AsConfigured(cc: ClientConfig, sc: ServerConfig, t: seq<Msg>) {
    var resumed := cc.offer.session != 0 && sc.resume && sc.sessionCipher == sc.cipher;
    var bothIds := cc.offer.channelId && sc.channelId;
    var asked := !resumed && sc.wantsCertificate && sc.cipher.cert && !(sc.unlessChannelId && bothIds);
    var ticket := cc.offer.ticket && if resumed then sc.renew else sc.tickets;
    var status := cc.offer.status && sc.stapling && !resumed && sc.cipher.cert;
    var id := bothIds && sc.cipher.kx == Ecdhe && (resumed ==> sc.sessionHasHash);
    var session := if resumed then cc.offer.session else sc.freshSession;
    && |t| > 2 && t[0] == ClientHello(cc.offer)
    && t[1] == ServerHello(Hello(session, sc.cipher, ticket, status, cc.offer.npn && sc.npn, id))
    && (t[2] == Certificate(false) <==> !resumed && sc.cipher.cert)
    && Count(t, Greeting) == 2
    && Count(t, Cert) == If(!resumed && sc.cipher.cert) + If(asked && cc.hasCertificate)
    && Count(t, NoCert) == If(asked && !cc.hasCertificate)
    && Count(t, Status) == If(status)
    && Count(t, ServerKey) == If(!resumed && (sc.cipher.kx == Ecdhe || (!sc.cipher.cert && sc.pskHint)))
    && Count(t, Request) == If(asked)
    && Count(t, HelloDone) == Count(t, ClientKey) == If(!resumed)
    && Count(t, Verify) == If(asked && cc.hasCertificate)
    && Count(t, Proto) == If(cc.offer.npn && sc.npn)
    && Count(t, Id) == If(id)
    && Count(t, Ticket) == If(ticket) && (ticket ==> NewSessionTicket(sc.emptyTicket) in t)
    && Count(t, Finish) == 2 && t[|t| - 1].Finished? && t[|t| - 1].fromServer == !resumed
  }

  /** The server gives up for want of a certificate it asked for and requires. */
  predicate WantsInVain(cc: ClientConfig, sc: ServerConfig) {
    && sc.requiresCertificate && !cc.hasCertificate
    && sc.wantsCertificate && sc.cipher.cert && !(sc.unlessChannelId && cc.offer.channelId && sc.channelId)
    && !(cc.offer.session != 0 && sc.resume && sc.sessionCipher == sc.cipher)
  }

  lemma FinishCounts(p: Params, t: seq<Msg>, k: Kind)
    ensures Count(WithClientFinish(p, t), k) ==
              Count(t, k) + If(p.hello.npn && k == Proto) + If(p.hello.channelId && k == Id) + If(k == Finish)
    ensures Count(WithServerFinish(p, t), k) == Count(t, k) + If(p.hello.ticket && k == Ticket) + If(k == Finish)
    ensures t <= WithClientFinish(p, t) && t <= WithServerFinish(p, t)
    ensures |WithClientFinish(p, t)| > |t| && |WithServerFinish(p, t)| > |t|
    ensures p.hello.ticket ==> NewSessionTicket(p.emptyTicket) in WithServerFinish(p, t)
  {
    hide Count, Maybe;
    var named := t + Maybe(p.hello.npn, NextProto);
    var bound := named + Maybe(p.hello.channelId, ChannelId(named));
    CountMaybe(t, p.hello.npn, NextProto, k);
    CountMaybe(named, p.hello.channelId, ChannelId(named), k);
    CountMore(bound, Finished(false, bound), k);
    var renewed := t + Maybe(p.hello.ticket, NewSessionTicket(p.emptyTicket));
    CountMaybe(t, p.hello.ticket, NewSessionTicket(p.emptyTicket), k);
    CountMore(renewed, Finished(true, renewed), k);
    if p.hello.ticket { MaybeHas(t, NewSessionTicket(p.emptyTicket)); }
  }

  lemma MaybeHas(t: seq<Msg>, m: Msg)
    ensures m in t + Maybe(true, m)
  {
  }

  lemma FlightCounts(p: Params, t: seq<Msg>, k: Kind)
    ensures Count(t + ServerFlight(p), k) ==
              Count(t, k) + If(p.hello.cipher.cert && k == Cert) + If(p.status && k == Status)
              + If(p.keyExchange && k == ServerKey) + If(p.certRequest && k == Request) + If(k == HelloDone)
  {
    hide Count, Maybe;
    var t1 := t + Maybe(p.hello.cipher.cert, Certificate(false));
    var t2 := t1 + Maybe(p.status, CertificateStatus);
    var t3 := t2 + Maybe(p.keyExchange, ServerKeyExchange);
    var t4 := t3 + Maybe(p.certRequest, CertificateRequest);
    CountMaybe(t, p.hello.cipher.cert, Certificate(false), k);
    CountMaybe(t1, p.status, CertificateStatus, k);
    CountMaybe(t2, p.keyExchange, ServerKeyExchange, k);
    CountMaybe(t3, p.certRequest, CertificateRequest, k);
    CountMore(t4, ServerHelloDone, k);
    assert t4 + [ServerHelloDone] == t + ServerFlight(p);
  }

  lemma HelloCounts(p: Params, k: Kind)
    ensures Count([ClientHello(p.offer), ServerHello(p.hello)], k) == if k == Greeting then 2 else 0
  {
    CountOne(ClientHello(p.offer), k);
    CountMore([ClientHello(p.offer)], ServerHello(p.hello), k);
    assert [ClientHello(p.offer)] + [ServerHello(p.hello)] == [ClientHello(p.offer), ServerHello(p.hello)];
  }

  lemma AbbreviatedCounts(p: Params, k: Kind)
    ensures Count(AbbreviatedHandshake(p), k) ==
              (if k == Greeting then 2 else 0) + If(p.hello.npn && k == Proto) + If(p.hello.channelId && k == Id)
              + If(p.hello.ticket && k == Ticket) + If(k == Finish) + If(k == Finish)
  {
    hide Count, WithClientFinish, WithServerFinish;
    var hellos := [ClientHello(p.offer), ServerHello(p.hello)];
    HelloCounts(p, k);
    FinishCounts(p, hellos, k);
    FinishCounts(p, WithServerFinish(p, hellos), k);
  }

  lemma FullCounts(p: Params, k: Kind)
    ensures Count(FullHandshake(p), k) ==
              (if k == Greeting then 2 else 0) + If(p.hello.npn && k == Proto) + If(p.hello.channelId && k == Id)
              + If(p.hello.ticket && k == Ticket) + If(k == Finish) + If(k == Finish)
              + If(p.hello.cipher.cert && k == Cert) + If(p.status && k == Status)
              + If(p.keyExchange && k == ServerKey) + If(p.certRequest && k == Request) + If(k == HelloDone)
              + If(p.certRequest && k == if p.clientCert then Cert else NoCert) + If(k == ClientKey)
              + If(p.certRequest && p.clientCert && k == Verify)
  {
    hide Count, WithClientFinish, WithServerFinish, ServerFlight, Maybe;
    var hellos := [ClientHello(p.offer), ServerHello(p.hello)];
    HelloCounts(p, k);
    FlightCounts(p, hellos, k);
    var t := hellos + ServerFlight(p);
    CountMaybe(t, p.certRequest, Certificate(!p.clientCert), k);
    var u := t + Maybe(p.certRequest, Certificate(!p.clientCert));
    CountMore(u, ClientKeyExchange, k);
    var keys := u + [ClientKeyExchange];
    CountMaybe(keys, p.certRequest && p.clientCert, CertificateVerify(keys), k);
    var signed := keys + Maybe(p.certRequest && p.clientCert, CertificateVerify(keys));
    FinishCounts(p, signed, k);
    FinishCounts(p, WithClientFinish(p, signed), k);
  }

  lemma AbbreviatedEnds(p: Params)
    ensures var t := AbbreviatedHandshake(p);
            && |t| > 2 && t[0] == ClientHello(p.offer) && t[1] == ServerHello(p.hello) && t[2] != Certificate(false)
            && t[|t| - 1].Finished? && !t[|t| - 1].fromServer
            && (p.hello.ticket ==> NewSessionTicket(p.emptyTicket) in t)
  {
    hide Count;
    FinishCounts(p, [ClientHello(p.offer), ServerHello(p.hello)], Finish);
    FinishCounts(p, WithServerFinish(p, [ClientHello(p.offer), ServerHello(p.hello)]), Finish);
  }

  lemma FullEnds(p: Params)
    ensures var t := FullHandshake(p);
            && |t| > 2 && t[0] == ClientHello(p.offer) && t[1] == ServerHello(p.hello)
            && (t[2] == Certificate(false) <==> p.hello.cipher.cert)
            && t[|t| - 1].Finished? && t[|t| - 1].fromServer
            && (p.hello.ticket ==> NewSessionTicket(p.emptyTicket) in t)
  {
    hide Count, WithClientFinish;
    var t := [ClientHello(p.offer), ServerHello(p.hello)] + ServerFlight(p);
    assert |t| > 2 && t[0] == ClientHello(p.offer) && t[1] == ServerHello(p.hello);
    assert t[2] == Certificate(false) <==> p.hello.cipher.cert;
    var keys := t + Maybe(p.certRequest, Certificate(!p.clientCert)) + [ClientKeyExchange];
    var signed := keys + Maybe(p.certRequest && p.clientCert, CertificateVerify(keys));
    FinishCounts(p, signed, Finish);
    FinishCounts(p, WithClientFinish(p, signed), Finish);
    assert t <= keys <= signed;
  }

  /** How many messages of a kind the settlement calls for. */
  function Expected(p: Params, k: Kind): nat {
    var full := !p.resumed;
    match k
    case Greeting => 2
    case Cert => If(full && p.hello.cipher.cert) + If(full && p.certRequest && p.clientCert)
    case NoCert => If(full && p.certRequest && !p.clientCert)
    case Status => If(full && p.status)
    case ServerKey => If(full && p.keyExchange)
    case Request => If(full && p.certRequest)
    case HelloDone => If(full)
    case ClientKey => If(full)
    case Verify => If(full && p.certRequest && p.clientCert)
    case Proto => If(p.hello.npn)
    case Id => If(p.hello.channelId)
    case Ticket => If(p.hello.ticket)
    case Finish => 2
  }

  lemma ScriptCounts(p: Params, k: Kind)
    ensures Count(Script(p), k) == Expected(p, k)
  {
    hide Script, Count, AbbreviatedHandshake, FullHandshake;
    ScriptIsTheFlow(p);
    if p.resumed { AbbreviatedCounts(p, k); } else { FullCounts(p, k); }
  }

  lemma ScriptEnds(p: Params)
    ensures var t := Script(p);
            && |t| > 2 && t[0] == ClientHello(p.offer) && t[1] == ServerHello(p.hello)
            && (t[2] == Certificate(false) <==> !p.resumed && p.hello.cipher.cert)
            && t[|t| - 1].Finished? && t[|t| - 1].fromServer == !p.resumed
            && (p.hello.ticket ==> NewSessionTicket(p.emptyTicket) in t)
  {
    hide Script, AbbreviatedHandshake, FullHandshake;
    ScriptIsTheFlow(p);
    if p.resumed { AbbreviatedEnds(p); } else { FullEnds(p); }
  }

  /** The whole script of two configurations holds exactly the messages they call for. */
  lemma ScriptIsAsConfigured(cc: ClientConfig, sc: ServerConfig)
    ensures AsConfigured(cc, sc, Script(Negotiated(cc, sc)))
  {
    hide Script, Count;
    var p := Negotiated(cc, sc);
    ScriptEnds(p);
    ScriptCounts(p, Greeting);
    ScriptCounts(p, Cert);
    ScriptCounts(p, NoCert);
    ScriptCounts(p, Status);
    ScriptCounts(p, ServerKey);
    ScriptCounts(p, Request);
    ScriptCounts(p, HelloDone);
    ScriptCounts(p, ClientKey);
    ScriptCounts(p, Verify);
    ScriptCounts(p, Proto);
    ScriptCounts(p, Id);
    ScriptCounts(p, Ticket);
    ScriptCounts(p, Finish);
  }

  lemma RefusesInVain(cc: ClientConfig, sc: ServerConfig)
    ensures Refuses(sc, Negotiated(cc, sc)) <==> WantsInVain(cc, sc)
  {
  }

  /**
   * The whole story: two peers that fit each other, any schedule of calls with any outcomes,
   * and then calls in which every operation succeeds.
   */
  method Connect(cc: ClientConfig, sc: ServerConfig, schedule: seq<Call>)
    returns (client: ClientSide, server: ServerSide)
    requires Consistent(cc, sc)
    ensures fresh(client) && fresh(server)
    ensures NoBlame(client.wait) && NoBlame(server.wait)
    ensures var p := Negotiated(cc, sc);
            client.hs.state.Done? && server.hs.state.Complete? ==>
              client.transcript == server.transcript == if p.resumed then AbbreviatedHandshake(p) else FullHandshake(p)
    ensures client.hs.state.Done? && server.hs.state.Complete? ==> AsConfigured(cc, sc, client.transcript)
    ensures (client.hs.state.Done? && server.hs.state.Complete?)
         || client.wait == Error(Refused) || server.wait == Error(Refused) || WantsInVain(cc, sc)
    ensures WantsInVain(cc, sc) ==> !server.hs.state.Complete?
  {
    hide Script, Refuses, Negotiated, AbbreviatedHandshake, FullHandshake, Together, Between, AsConfigured, WantsInVain;
    ghost var p := Negotiated(cc, sc);
    client, server := Start(cc, sc);
    Converse(client, server, schedule, p);
    if !client.wait.Error? && !server.wait.Error? { Conclude(client, server, p); }
    Outcome(p, client, server);
    ScriptIsTheFlow(p);
    ScriptIsAsConfigured(cc, sc);
    RefusesInVain(cc, sc);
  }
}
