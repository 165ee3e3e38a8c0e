/**
 * The TLS 1.2 handshake as a single script (RFC 5246, section 7.3, and RFC 5077, section 3.1):
 * at every point at most one message or ChangeCipherSpec, from a known side.
 */
module Protocol {

  datatype Kx = Rsa | Ecdhe | Psk

  /** The parts of a cipher suite the handshake depends on; without certificates it is a PSK suite. */
  datatype Cipher = Cipher(kx: Kx, cert: bool)

  predicate ValidCipher(c: Cipher) {
    if c.cert then c.kx != Psk else c.kx != Rsa
  }

  /** What a ClientHello offers.  A session id of 0 stands for none. */
  datatype Offer = Offer(session: nat, ciphers: set<Cipher>, ticket: bool, status: bool, npn: bool, channelId: bool)

  /** What a ServerHello settles. */
  datatype Hello = Hello(session: nat, cipher: Cipher, ticket: bool, status: bool, npn: bool, channelId: bool)

  /**
   * Handshake messages.  Signatures and MACs are represented by what they cover: the
   * messages hashed before them.
   */
  datatype Msg =
    | ClientHello(offer: Offer)
    | ServerHello(hello: Hello)
    | Certificate(empty: bool)
    | CertificateStatus
    | ServerKeyExchange
    | CertificateRequest
    | ServerHelloDone
    | ClientKeyExchange
    | CertificateVerify(signed: seq<Msg>)
    | NextProto
    | ChannelId(signed: seq<Msg>)
    | NewSessionTicket(empty: bool)
    | Finished(fromServer: bool, mac: seq<Msg>)

  /** A record on the wire: a message under the null cipher or the new keys, or a ChangeCipherSpec. */
  datatype Item = Plain(m: Msg) | Sealed(m: Msg) | ChangeCipher

  /** The client's configuration and the session it may offer. */
  datatype ClientConfig = ClientConfig(offer: Offer, sessionCipher: Cipher, hasCertificate: bool)

  /** The server's configuration; `freshSession` is the id of a new session, if it gets one. */
  datatype ServerConfig = ServerConfig(
    cipher: Cipher, resume: bool, sessionCipher: Cipher, sessionHasHash: bool, freshSession: nat,
    tickets: bool, renew: bool, emptyTicket: bool, stapling: bool, npn: bool, channelId: bool, pskHint: bool,
    wantsCertificate: bool, unlessChannelId: bool, requiresCertificate: bool)

  /**
   * Everything the two sides settle on; `status` tells whether the server really sends the
   * CertificateStatus its ServerHello announces.
   */
  datatype Params = Params(offer: Offer, hello: Hello, resumed: bool, status: bool, keyExchange: bool,
                           certRequest: bool, clientCert: bool, emptyTicket: bool)

  // ---------------------------------------------------------------- negotiation

  /** do_select_parameters: the server finds the offered session, with the cipher now chosen. */
  predicate Resumes(cc: ClientConfig, sc: ServerConfig) {
    cc.offer.session != 0 && sc.resume && sc.sessionCipher == sc.cipher
  }

  function UsesChannelId(cc: ClientConfig, sc: ServerConfig): bool {
    && cc.offer.channelId && sc.channelId && sc.cipher.kx == Ecdhe
    && (Resumes(cc, sc) ==> sc.sessionHasHash)
  }

  function Negotiated(cc: ClientConfig, sc: ServerConfig): Params {
    var resumed := Resumes(cc, sc);
    var status := cc.offer.status && sc.stapling && !resumed && sc.cipher.cert;
    Params(
      cc.offer,
      Hello(if resumed then cc.offer.session else sc.freshSession, sc.cipher,
            cc.offer.ticket && if resumed then sc.renew else sc.tickets,
            status,
            cc.offer.npn && sc.npn,
            UsesChannelId(cc, sc)),
      resumed,
      status,
      sc.cipher.kx == Ecdhe || (!sc.cipher.cert && sc.pskHint),
      !resumed && sc.wantsCertificate && sc.cipher.cert && !(sc.unlessChannelId && cc.offer.channelId && sc.channelId),
      cc.hasCertificate,
      sc.emptyTicket)
  }

  /**
   * The configurations two honest peers may have: the server knows the cipher of the offered
   * session as the client does, and a new session id is not the offered one.
   */
  predicate Consistent(cc: ClientConfig, sc: ServerConfig) {
    && ValidCipher(sc.cipher) && sc.cipher in cc.offer.ciphers
    && (Resumes(cc, sc) ==> cc.sessionCipher == sc.sessionCipher)
    && (cc.offer.session != 0 ==> sc.freshSession != cc.offer.session)
  }

  // ---------------------------------------------------------------- the script

  /** The points of the protocol, named after the message that may come there. */
  datatype Point =
    | AtClientHello | AtServerHello | AtCertificate | AtStatus | AtKeyExchange | AtCertRequest | AtHelloDone
    | AtClientCert | AtClientKey | AtVerify | AtClientCcs | AtNextProto | AtChannelId | AtClientFinished
    | AtTicket | AtServerCcs | AtServerFinished | AtEnd

  function Index(pt: Point): (n: nat)
    ensures n <= 17
  {
    match pt
    case AtClientHello => 0 case AtServerHello => 1 case AtCertificate => 2 case AtStatus => 3
    case AtKeyExchange => 4 case AtCertRequest => 5 case AtHelloDone => 6 case AtClientCert => 7
    case AtClientKey => 8 case AtVerify => 9 case AtClientCcs => 10 case AtNextProto => 11
    case AtChannelId => 12 case AtClientFinished => 13 case AtTicket => 14 case AtServerCcs => 15
    case AtServerFinished => 16 case AtEnd => 17
  }

  /** In an abbreviated handshake the server finishes first. */
  function Rank(resumed: bool, pt: Point): nat {
    if !resumed then Index(pt)
    else if Index(pt) <= 1 then Index(pt)
    else if 14 <= Index(pt) <= 16 then Index(pt) - 12
    else if pt.AtEnd? then 17
    else Index(pt) + 3
  }

  function NextPoint(resumed: bool, pt: Point): (q: Point)
    ensures !pt.AtEnd? ==> Rank(resumed, q) > Rank(resumed, pt)
  {
    match pt
    case AtClientHello => AtServerHello
    case AtServerHello => if resumed then AtTicket else AtCertificate
    case AtCertificate => AtStatus
    case AtStatus => AtKeyExchange
    case AtKeyExchange => AtCertRequest
    case AtCertRequest => AtHelloDone
    case AtHelloDone => AtClientCert
    case AtClientCert => AtClientKey
    case AtClientKey => AtVerify
    case AtVerify => AtClientCcs
    case AtClientCcs => AtNextProto
    case AtNextProto => AtChannelId
    case AtChannelId => AtClientFinished
    case AtClientFinished => if resumed then AtEnd else AtTicket
    case AtTicket => AtServerCcs
    case AtServerCcs => AtServerFinished
    case AtServerFinished => if resumed then AtClientCcs else AtEnd
    case AtEnd => AtEnd
  }

  datatype Option<+T> = None | Some(value: T)

  /** An item and the side that sends it. */
  datatype Entry = Entry(fromServer: bool, item: Item)

  /** What comes at a point, after the messages `t`; None if an optional message is left out. */
  function EntryAt(p: Params, pt: Point, t: seq<Msg>): Option<Entry> {
    match pt
    case AtClientHello => Some(Entry(false, Plain(ClientHello(p.offer))))
    case AtServerHello => Some(Entry(true, Plain(ServerHello(p.hello))))
    case AtCertificate => When(p.hello.cipher.cert, true, Plain(Certificate(false)))
    case AtStatus => When(p.status, true, Plain(CertificateStatus))
    case AtKeyExchange => When(p.keyExchange, true, Plain(ServerKeyExchange))
    case AtCertRequest => When(p.certRequest, true, Plain(CertificateRequest))
    case AtHelloDone => Some(Entry(true, Plain(ServerHelloDone)))
    case AtClientCert => When(p.certRequest, false, Plain(Certificate(!p.clientCert)))
    case AtClientKey => Some(Entry(false, Plain(ClientKeyExchange)))
    case AtVerify => When(p.certRequest && p.clientCert, false, Plain(CertificateVerify(t)))
    case AtClientCcs => Some(Entry(false, ChangeCipher))
    case AtNextProto => When(p.hello.npn, false, Sealed(NextProto))
    case AtChannelId => When(p.hello.channelId, false, Sealed(ChannelId(t)))
    case AtClientFinished => Some(Entry(false, Sealed(Finished(false, t))))
    case AtTicket => When(p.hello.ticket, true, Plain(NewSessionTicket(p.emptyTicket)))
    case AtServerCcs => Some(Entry(true, ChangeCipher))
    case AtServerFinished => Some(Entry(true, Sealed(Finished(true, t))))
    case AtEnd => None
  }

  function When(present: bool, fromServer: bool, item: Item): Option<Entry> {
    if present then Some(Entry(fromServer, item)) else None
  }

  /** The messages after an item: a ChangeCipherSpec is not part of the transcript. */
  function Hashed(t: seq<Msg>, i: Item): seq<Msg> {
    if i.ChangeCipher? then t else t + [i.m]
  }

  // ---------------------------------------------------------------- two sides on one script

  /** From point `a` the items, all from one side, lead along the script to point `b`. */
  ghost predicate Path(p: Params, fromServer: bool, a: Point, t: seq<Msg>, items: seq<Item>, b: Point, u: seq<Msg>)
    decreases 17 - Rank(p.resumed, a)
  {
    if a == b then items == [] && t == u
    else if a.AtEnd? then false
    else
      match EntryAt(p, a, t)
      case None => Path(p, fromServer, NextPoint(p.resumed, a), t, items, b, u)
      case Some(e) =>
        && e.fromServer == fromServer && items != [] && items[0] == e.item
        && Path(p, fromServer, NextPoint(p.resumed, a), Hashed(t, e.item), items[1..], b, u)
  }

  /** The transcript at the end of the script, for a side that stands at `a` with transcript `t`. */
  function Rest(p: Params, a: Point, t: seq<Msg>): seq<Msg>
    decreases 17 - Rank(p.resumed, a)
  {
    RankBound(p.resumed, a);
    RankBound(p.resumed, NextPoint(p.resumed, a));
    if a.AtEnd? then t
    else
      match EntryAt(p, a, t)
      case None => Rest(p, NextPoint(p.resumed, a), t)
      case Some(e) => Rest(p, NextPoint(p.resumed, a), Hashed(t, e.item))
  }

  /** The whole handshake. */
  function Script(p: Params): seq<Msg> {
    Rest(p, AtClientHello, [])
  }

  /**
   * The sides stand at `a` and `b` of the script with transcripts `t` and `u`: one of them is
   * ahead by exactly the items still on the way, and nothing is on the way in the other
   * direction.  `server` tells whether the first side is the server.
   */
  ghost predicate Linked(p: Params, server: bool, a: Point, t: seq<Msg>, b: Point, u: seq<Msg>, toA: seq<Item>, toB: seq<Item>) {
    && Rest(p, a, t) == Rest(p, b, u) == Script(p)
    && (|| (toB == [] && Path(p, !server, a, t, toA, b, u))
        || (toA == [] && Path(p, server, b, u, toB, a, t)))
  }

  lemma RestOn(p: Params, a: Point, t: seq<Msg>)
    requires !a.AtEnd?
    ensures EntryAt(p, a, t).None? ==> Rest(p, a, t) == Rest(p, NextPoint(p.resumed, a), t)
    ensures EntryAt(p, a, t).Some? ==> Rest(p, a, t) == Rest(p, NextPoint(p.resumed, a), Hashed(t, EntryAt(p, a, t).value.item))
  {
  }

  lemma LinkedSwaps(p: Params, server: bool, a: Point, t: seq<Msg>, b: Point, u: seq<Msg>, toA: seq<Item>, toB: seq<Item>)
    requires Linked(p, server, a, t, b, u, toA, toB)
    ensures Linked(p, !server, b, u, a, t, toB, toA)
  {
    hide Path, Rest;
  }

  lemma RankBound(resumed: bool, pt: Point)
    ensures Rank(resumed, pt) <= 17
  {
  }

  lemma PathHere(p: Params, fromServer: bool, a: Point, t: seq<Msg>, items: seq<Item>, u: seq<Msg>)
    ensures Path(p, fromServer, a, t, items, a, u) <==> items == [] && t == u
  {
  }

  lemma PathOn(p: Params, fromServer: bool, a: Point, t: seq<Msg>, items: seq<Item>, b: Point, u: seq<Msg>)
    requires a != b && !a.AtEnd?
    ensures EntryAt(p, a, t).None? ==>
              Path(p, fromServer, a, t, items, b, u) == Path(p, fromServer, NextPoint(p.resumed, a), t, items, b, u)
    ensures var e := EntryAt(p, a, t); e.Some? ==>
              (Path(p, fromServer, a, t, items, b, u) <==>
                 && e.value.fromServer == fromServer && items != [] && items[0] == e.value.item
                 && Path(p, fromServer, NextPoint(p.resumed, a), Hashed(t, e.value.item), items[1..], b, u))
  {
    hide EntryAt, Hashed, NextPoint;
  }

  /** Moving the far end of a path past a point where nothing comes. */
  lemma {:induction false} PathSkips(p: Params, fromServer: bool, a: Point, t: seq<Msg>, items: seq<Item>, b: Point, u: seq<Msg>)
    requires Path(p, fromServer, a, t, items, b, u) && !b.AtEnd? && EntryAt(p, b, u).None?
    ensures Path(p, fromServer, a, t, items, NextPoint(p.resumed, b), u)
    decreases 17 - Rank(p.resumed, a)
  {
    hide EntryAt, Hashed, Rank, NextPoint, Path;
    var c := NextPoint(p.resumed, b);
    RankBound(p.resumed, b);
    NoReturn(p, fromServer, a, t, items, b, u);
    PathHere(p, fromServer, a, t, items, u);
    PathHere(p, fromServer, c, t, items, u);
    EndIsLast(p.resumed, a, c);
    PathOn(p, fromServer, a, t, items, c, u);
    if a != b {
      PathOn(p, fromServer, a, t, items, b, u);
      var e := EntryAt(p, a, t);
      if e.None? {
        PathSkips(p, fromServer, NextPoint(p.resumed, a), t, items, b, u);
      } else {
        PathSkips(p, fromServer, NextPoint(p.resumed, a), Hashed(t, e.value.item), items[1..], b, u);
      }
    }
  }

  lemma EndIsLast(resumed: bool, a: Point, c: Point)
    requires Rank(resumed, a) < Rank(resumed, c)
    ensures !a.AtEnd?
  {
  }

  /** Moving the far end of a path past an item. */
  lemma {:induction false} PathSends(p: Params, fromServer: bool, a: Point, t: seq<Msg>, items: seq<Item>, b: Point, u: seq<Msg>)
    requires Path(p, fromServer, a, t, items, b, u) && !b.AtEnd?
    requires EntryAt(p, b, u).Some? && EntryAt(p, b, u).value.fromServer == fromServer
    ensures var i := EntryAt(p, b, u).value.item;
            Path(p, fromServer, a, t, items + [i], NextPoint(p.resumed, b), Hashed(u, i))
    decreases 17 - Rank(p.resumed, a)
  {
    hide EntryAt, Hashed, Rank, NextPoint, Path;
    var i := EntryAt(p, b, u).value.item;
    var c := NextPoint(p.resumed, b);
    RankBound(p.resumed, b);
    NoReturn(p, fromServer, a, t, items, b, u);
    PathHere(p, fromServer, a, t, items, u);
    PathHere(p, fromServer, c, Hashed(u, i), [], Hashed(u, i));
    EndIsLast(p.resumed, a, c);
    PathOn(p, fromServer, a, t, items + [i], c, Hashed(u, i));
    if a != b {
      PathOn(p, fromServer, a, t, items, b, u);
      var e := EntryAt(p, a, t);
      if e.None? {
        PathSends(p, fromServer, NextPoint(p.resumed, a), t, items, b, u);
      } else {
        PathSends(p, fromServer, NextPoint(p.resumed, a), Hashed(t, e.value.item), items[1..], b, u);
        assert (items + [i])[1..] == items[1..] + [i];
      }
    } else {
      assert (items + [i])[1..] == [];
    }
  }

  /** A path only goes forward. */
  lemma {:induction false} NoReturn(p: Params, fromServer: bool, a: Point, t: seq<Msg>, items: seq<Item>, b: Point, u: seq<Msg>)
    requires Path(p, fromServer, a, t, items, b, u)
    ensures Rank(p.resumed, a) <= Rank(p.resumed, b)
    decreases 17 - Rank(p.resumed, a)
  {
    hide EntryAt, Hashed, Rank, NextPoint;
    RankBound(p.resumed, a);
    if a != b {
      var e := EntryAt(p, a, t);
      if e.None? {
        NoReturn(p, fromServer, NextPoint(p.resumed, a), t, items, b, u);
      } else {
        NoReturn(p, fromServer, NextPoint(p.resumed, a), Hashed(t, e.value.item), items[1..], b, u);
      }
    }
  }

  /** A side may pass a point where nothing comes. */
  lemma Skip(p: Params, server: bool, a: Point, t: seq<Msg>, b: Point, u: seq<Msg>, toA: seq<Item>, toB: seq<Item>)
    requires Linked(p, server, a, t, b, u, toA, toB) && !a.AtEnd? && EntryAt(p, a, t).None?
    ensures Linked(p, server, NextPoint(p.resumed, a), t, b, u, toA, toB)
  {
    hide EntryAt, NextPoint, Rank, Rest, Path, Hashed;
    RestOn(p, a, t);
    PathHere(p, !server, a, t, toA, u);
    PathHere(p, server, a, u, toB, t);
    if toA == [] && Path(p, server, b, u, toB, a, t) {
      PathSkips(p, server, b, u, toB, a, t);
    } else if a == b {
      PathSkips(p, server, b, u, [], a, t);
    } else {
      PathOn(p, !server, a, t, toA, b, u);
    }
  }

  /** A side whose turn it is sends the item of the script. */
  lemma Send(p: Params, server: bool, a: Point, t: seq<Msg>, b: Point, u: seq<Msg>, toA: seq<Item>, toB: seq<Item>)
    requires Linked(p, server, a, t, b, u, toA, toB) && !a.AtEnd?
    requires EntryAt(p, a, t).Some? && EntryAt(p, a, t).value.fromServer == server
    ensures toA == []
    ensures var i := EntryAt(p, a, t).value.item;
            Linked(p, server, NextPoint(p.resumed, a), Hashed(t, i), b, u, toA, toB + [i])
  {
    hide EntryAt, Hashed, NextPoint, Rank, Rest, Path;
    RestOn(p, a, t);
    PathHere(p, !server, a, t, toA, u);
    PathHere(p, server, a, u, toB, t);
    if a != b { PathOn(p, !server, a, t, toA, b, u); }
    PathSends(p, server, b, u, toB, a, t);
  }

  /** What is on the way to a side that is to receive is the item of the script. */
  lemma Receive(p: Params, server: bool, a: Point, t: seq<Msg>, b: Point, u: seq<Msg>, toA: seq<Item>, toB: seq<Item>)
    requires Linked(p, server, a, t, b, u, toA, toB) && !a.AtEnd? && toA != []
    requires EntryAt(p, a, t).Some?
    ensures var e := EntryAt(p, a, t).value;
            && e.fromServer != server && toA[0] == e.item
            && Linked(p, server, NextPoint(p.resumed, a), Hashed(t, e.item), b, u, toA[1..], toB)
  {
    hide EntryAt, Hashed, Rest;
    RestOn(p, a, t);
  }

  // ---------------------------------------------------------------- the script spelled out

  function Maybe(present: bool, m: Msg): seq<Msg> {
    if present then [m] else []
  }

  function ServerFlight(p: Params): seq<Msg> {
    Maybe(p.hello.cipher.cert, Certificate(false)) + Maybe(p.status, CertificateStatus)
    + Maybe(p.keyExchange, ServerKeyExchange) + Maybe(p.certRequest, CertificateRequest) + [ServerHelloDone]
  }

  /** RFC 5246, figure 1, with the messages of RFC 5077 (section 3.1), RFC 6066, NPN and Channel ID. */
  function FullHandshake(p: Params): seq<Msg> {
    var hellos := [ClientHello(p.offer), ServerHello(p.hello)];
    var keys := hellos + ServerFlight(p) + Maybe(p.certRequest, Certificate(!p.clientCert)) + [ClientKeyExchange];
    var signed := keys + Maybe(p.certRequest && p.clientCert, CertificateVerify(keys));
    WithServerFinish(p, WithClientFinish(p, signed))
  }

  /** RFC 5246, figure 2: the server finishes first. */
  function AbbreviatedHandshake(p: Params): seq<Msg> {
    WithClientFinish(p, WithServerFinish(p, [ClientHello(p.offer), ServerHello(p.hello)]))
  }

  function WithClientFinish(p: Params, t: seq<Msg>): seq<Msg> {
    var named := t + Maybe(p.hello.npn, NextProto);
    var bound := named + Maybe(p.hello.channelId, ChannelId(named));
    bound + [Finished(false, bound)]
  }

  function WithServerFinish(p: Params, t: seq<Msg>): seq<Msg> {
    var renewed := t + Maybe(p.hello.ticket, NewSessionTicket(p.emptyTicket));
    renewed + [Finished(true, renewed)]
  }

  /** The script is the message flow of the standard. */
  lemma ScriptIsTheFlow(p: Params)
    ensures Script(p) == if p.resumed then AbbreviatedHandshake(p) else FullHandshake(p)
  {
    hide Rest, WithClientFinish, WithServerFinish, Maybe;
    var t := [ClientHello(p.offer), ServerHello(p.hello)];
    HellosFirst(p);
    if p.resumed {
      ServerFinishes(p, t);
      ClientFinishes(p, WithServerFinish(p, t));
      RestAtEnd(p, AbbreviatedHandshake(p));
    } else {
      ServerSpeaks(p, t);
      var keys := t + ServerFlight(p) + Maybe(p.certRequest, Certificate(!p.clientCert)) + [ClientKeyExchange];
      ClientAnswers(p, t + ServerFlight(p));
      var signed := keys + Maybe(p.certRequest && p.clientCert, CertificateVerify(keys));
      ClientFinishes(p, signed);
      ServerFinishes(p, WithClientFinish(p, signed));
      RestAtEnd(p, FullHandshake(p));
    }
  }

  lemma HellosFirst(p: Params)
    ensures Script(p) == Rest(p, if p.resumed then AtTicket else AtCertificate, [ClientHello(p.offer), ServerHello(p.hello)])
  {
    hide Rest;
    var t := [ClientHello(p.offer)];
    RestOn(p, AtClientHello, []);
    RestOn(p, AtServerHello, t);
    assert [] + t == t && t + [ServerHello(p.hello)] == [ClientHello(p.offer), ServerHello(p.hello)];
  }

  lemma RestAtEnd(p: Params, t: seq<Msg>)
    ensures Rest(p, AtEnd, t) == t
  {
  }

  /** One optional message of the script. */
  lemma RestMaybe(p: Params, a: Point, t: seq<Msg>, present: bool, m: Msg)
    requires !a.AtEnd?
    requires if present then EntryAt(p, a, t).Some?
            && EntryAt(p, a, t).value.item in {Plain(m), Sealed(m)} else EntryAt(p, a, t).None?
    ensures Rest(p, a, t) == Rest(p, NextPoint(p.resumed, a), t + Maybe(present, m))
  {
    hide Rest, EntryAt;
    RestOn(p, a, t);
    assert !present ==> t + Maybe(present, m) == t;
  }

  lemma ServerSpeaks(p: Params, t: seq<Msg>)
    requires !p.resumed
    ensures Rest(p, AtCertificate, t) == Rest(p, AtClientCert, t + ServerFlight(p))
  {
    hide Rest, Maybe;
    var t1 := t + Maybe(p.hello.cipher.cert, Certificate(false));
    var t2 := t1 + Maybe(p.status, CertificateStatus);
    var t3 := t2 + Maybe(p.keyExchange, ServerKeyExchange);
    var t4 := t3 + Maybe(p.certRequest, CertificateRequest);
    RestMaybe(p, AtCertificate, t, p.hello.cipher.cert, Certificate(false));
    RestMaybe(p, AtStatus, t1, p.status, CertificateStatus);
    RestMaybe(p, AtKeyExchange, t2, p.keyExchange, ServerKeyExchange);
    RestMaybe(p, AtCertRequest, t3, p.certRequest, CertificateRequest);
    RestOn(p, AtHelloDone, t4);
    assert t4 + [ServerHelloDone] == t + ServerFlight(p);
  }

  lemma ClientAnswers(p: Params, t: seq<Msg>)
    requires !p.resumed
    ensures var keys := t + Maybe(p.certRequest, Certificate(!p.clientCert)) + [ClientKeyExchange];
            Rest(p, AtClientCert, t) == Rest(p, AtClientCcs, keys + Maybe(p.certRequest && p.clientCert, CertificateVerify(keys)))
  {
    hide Rest, Maybe;
    var t1 := t + Maybe(p.certRequest, Certificate(!p.clientCert));
    var keys := t1 + [ClientKeyExchange];
    RestMaybe(p, AtClientCert, t, p.certRequest, Certificate(!p.clientCert));
    RestOn(p, AtClientKey, t1);
    RestMaybe(p, AtVerify, keys, p.certRequest && p.clientCert, CertificateVerify(keys));
  }

  lemma ClientFinishes(p: Params, t: seq<Msg>)
    ensures Rest(p, AtClientCcs, t) == Rest(p, NextPoint(p.resumed, AtClientFinished), WithClientFinish(p, t))
  {
    hide Rest, Maybe;
    var named := t + Maybe(p.hello.npn, NextProto);
    var bound := named + Maybe(p.hello.channelId, ChannelId(named));
    RestOn(p, AtClientCcs, t);
    RestMaybe(p, AtNextProto, t, p.hello.npn, NextProto);
    RestMaybe(p, AtChannelId, named, p.hello.channelId, ChannelId(named));
    RestOn(p, AtClientFinished, bound);
  }

  lemma ServerFinishes(p: Params, t: seq<Msg>)
    ensures Rest(p, AtTicket, t) == Rest(p, NextPoint(p.resumed, AtServerFinished), WithServerFinish(p, t))
  {
    hide Rest, Maybe;
    var renewed := t + Maybe(p.hello.ticket, NewSessionTicket(p.emptyTicket));
    RestMaybe(p, AtTicket, t, p.hello.ticket, NewSessionTicket(p.emptyTicket));
    RestOn(p, AtServerCcs, renewed);
    RestOn(p, AtServerFinished, renewed);
  }
}
