/**
 * ssl_asn1.cc: what an SSL_SESSION looks like in DER, and what the parser accepts.
 * The serializer and the parser of `SessionCodec` are proved against these functions.
 */
module Session {
  import opened Bits
  import opened Bytes
  import opened Der

  /** The serialized fields of SSL_SESSION.  Pointer and length pairs are optional byte strings. */
  datatype Session = Session(
    head: Head,
    certs: seq<seq<byte>>,
    sidCtx: seq<byte>,
    verifyResult: int,
    pskIdentity: Option<seq<byte>>,
    ticketHint: nat,
    ticket: Option<seq<byte>>,
    peerSha256: Option<seq<byte>>,
    handshakeHash: seq<byte>,
    sctList: Option<seq<byte>>,
    ocspResponse: Option<seq<byte>>,
    extendedMasterSecret: bool,
    groupId: nat,
    ticketAgeAdd: Option<nat>,
    isServer: bool,
    peerSignatureAlgorithm: nat,
    maxEarlyData: nat,
    authTimeout: nat,
    earlyAlpn: Option<seq<byte>>)

  /** The fields that are always serialized.  `cipher` is the two-byte value of the cipher. */
  datatype Head = Head(sslVersion: nat, cipher: nat, sessionId: seq<byte>, masterKey: seq<byte>, time: nat, timeout: nat)

  /** The configuration: the cipher suites compiled in, and whether the X.509 method takes the certificates, which may be none. */
  datatype Config = Config(ciphers: set<nat>, takesCerts: seq<seq<byte>> -> bool)

  const LONG_MAX: nat := 0x7FFF_FFFF_FFFF_FFFF
  const LONG_MIN: int := -0x8000_0000_0000_0000
  const U32_MAX: nat := 0xFFFF_FFFF
  const U16_MAX: nat := 0xFFFF
  const MAX_SESSION_ID: nat := 32
  const MAX_MASTER_KEY: nat := 48
  const MAX_SID_CTX: nat := 32
  const MAX_MD_SIZE: nat := 64
  const SHA256_SIZE: nat := 32

  /** ssl_protocol_version_from_wire: SSL 3.0, TLS 1.0 to 1.2, a TLS 1.3 draft, DTLS 1.0 and 1.2. */
  predicate KnownVersion(v: nat) {
    v == 0x0300 || v == 0x0301 || v == 0x0302 || v == 0x0303 || v == 0x7F17 || v == 0xFEFF || v == 0xFEFD
  }

  /** Identifier byte of the explicitly tagged field `n`. */
  function Context(n: nat): (t: byte)
    requires n < 0x1F
    ensures t % 0x20 == n
  {
    0xA0 + n
  }

  // ---------------------------------------------------------------- optional fields in a row

  /** An optional field: its identifier byte and its contents, if present. */
  datatype Piece = Piece(tag: byte, contents: Option<seq<byte>>)

  function PieceBytes(p: Piece): seq<byte> {
    if p.contents.Some? then Tlv(p.tag, p.contents.value) else []
  }

  function Flat(ps: seq<Piece>): seq<byte> {
    if ps == [] then [] else PieceBytes(ps[0]) + Flat(ps[1..])
  }

  /** Reading the fields with these tags in order, each at most once, up to the end. */
  function Split(b: seq<byte>, tags: seq<byte>): Option<seq<Option<seq<byte>>>>
    decreases |tags|
  {
    if tags == [] then if b == [] then Some([]) else None
    else
      match GetOptional(b, tags[0])
      case Fail => None
      case Got(c, rest) =>
        match Split(rest, tags[1..])
        case None => None
        case Some(cs) => Some([c] + cs)
  }

  predicate PieceOk(p: Piece) {
    p.tag % 0x20 != 0x1F && (p.contents.Some? ==> |p.contents.value| <= MAX_CONTENTS)
  }

  ghost predicate Ascending(ps: seq<Piece>) {
    && (forall i, j :: 0 <= i < j < |ps| ==> ps[i].tag < ps[j].tag)
    && (forall i :: 0 <= i < |ps| ==> PieceOk(ps[i]))
  }

  function Tags(ps: seq<Piece>): (t: seq<byte>)
    ensures |t| == |ps| && forall i :: 0 <= i < |ps| ==> t[i] == ps[i].tag
  {
    seq(|ps|, i requires 0 <= i < |ps| => ps[i].tag)
  }

  function Contents(ps: seq<Piece>): (c: seq<Option<seq<byte>>>)
    ensures |c| == |ps| && forall i :: 0 <= i < |ps| ==> c[i] == ps[i].contents
  {
    seq(|ps|, i requires 0 <= i < |ps| => ps[i].contents)
  }

  /** What follows a field starts with a larger tag. */
  lemma {:induction false} FlatBeyond(ps: seq<Piece>, tag: byte)
    requires Ascending(ps) && forall i :: 0 <= i < |ps| ==> tag < ps[i].tag
    ensures Flat(ps) == [] || (Flat(ps)[0] > tag && Flat(ps)[0] % 0x20 != 0x1F)
    decreases |ps|
  {
    hide Tlv;
    if ps != [] {
      if ps[0].contents.None? {
        FlatBeyond(ps[1..], tag);
        assert Flat(ps) == Flat(ps[1..]);
      }
    }
  }

  lemma PieceRead(p: Piece, rest: seq<byte>)
    requires PieceOk(p) && (rest == [] || (rest[0] > p.tag && rest[0] % 0x20 != 0x1F))
    ensures GetOptional(PieceBytes(p) + rest, p.tag) == Got(p.contents, rest)
  {
    hide GetAsn1, Peek, Tlv;
    if p.contents.Some? {
      TlvReads(p.tag, p.contents.value, rest);
    } else {
      OtherTag(rest, p.tag);
      assert PieceBytes(p) + rest == rest;
    }
  }

  /** Fields written in ascending order of their tags are read back, absent ones as absent. */
  lemma {:induction false} SplitFlat(ps: seq<Piece>)
    requires Ascending(ps)
    ensures Split(Flat(ps), Tags(ps)) == Some(Contents(ps))
    decreases |ps|
  {
    hide GetOptional, PieceBytes;
    if ps != [] {
      FlatBeyond(ps[1..], ps[0].tag);
      PieceRead(ps[0], Flat(ps[1..]));
      SplitFlat(ps[1..]);
      assert Tags(ps)[1..] == Tags(ps[1..]) && [Contents(ps)[0]] + Contents(ps[1..]) == Contents(ps);
    }
  }

  // ---------------------------------------------------------------- the serialized session

  function U16Bytes(n: nat): seq<byte> {
    [n / 0x100 % 0x100, n % 0x100]
  }

  function U32Bytes(n: nat): seq<byte> {
    U16Bytes(n / 0x1_0000) + U16Bytes(n)
  }

  function HeadBytes(h: Head, forTicket: bool): seq<byte> {
    EncUint(1) + EncUint(h.sslVersion) + EncOctets(U16Bytes(h.cipher))
    + EncOctets(if forTicket then [] else h.sessionId) + EncOctets(h.masterKey)
    + Tlv(Context(1), EncUint(h.time)) + Tlv(Context(2), EncUint(h.timeout))
  }

  function Joined(certs: seq<seq<byte>>): seq<byte> {
    if certs == [] then [] else certs[0] + Joined(certs[1..])
  }

  /** A negative value is converted to a large unsigned one. */
  function AsUnsigned(v: int): nat
    requires LONG_MIN <= v <= LONG_MAX
  {
    if v < 0 then v + TWO_64 else v
  }

  function When(present: bool, contents: seq<byte>): Option<seq<byte>> {
    if present then Some(contents) else None
  }

  function Octets(x: Option<seq<byte>>): Option<seq<byte>> {
    if x.Some? then Some(EncOctets(x.value)) else None
  }

  /** What the C types of the fields guarantee. */
  predicate InRange(s: Session) {
    && s.head.sslVersion <= U16_MAX && s.head.cipher <= U16_MAX
    && |s.head.sessionId| <= MAX_SESSION_ID && |s.head.masterKey| <= MAX_MASTER_KEY
    && s.head.time < TWO_64 && s.head.timeout <= U32_MAX
    && |s.sidCtx| <= MAX_SID_CTX && LONG_MIN <= s.verifyResult <= LONG_MAX
    && (s.pskIdentity.Some? ==> 0 !in s.pskIdentity.value)
    && s.ticketHint <= U32_MAX
    && (s.peerSha256.Some? ==> |s.peerSha256.value| == SHA256_SIZE)
    && |s.handshakeHash| <= MAX_MD_SIZE && s.groupId <= U16_MAX
    && (s.ticketAgeAdd.Some? ==> s.ticketAgeAdd.value <= U32_MAX)
    && s.peerSignatureAlgorithm <= U16_MAX && s.maxEarlyData <= U32_MAX && s.authTimeout <= U32_MAX
  }

  /** The optional fields SSL_SESSION_to_bytes_full writes, in order; hostName is never written. */
  function Pieces(s: Session, forTicket: bool): (ps: seq<Piece>)
    requires InRange(s)
    ensures |ps| == 20
  {
    PeerPieces(s, forTicket) + StatePieces(s)
  }

  function PeerPieces(s: Session, forTicket: bool): (ps: seq<Piece>)
    requires InRange(s)
    ensures |ps| == 10
  {
    [ Piece(Context(3), When(s.certs != [] && s.peerSha256.None?, if s.certs == [] then [] else s.certs[0])),
      Piece(Context(4), Some(EncOctets(s.sidCtx))),
      Piece(Context(5), When(s.verifyResult != 0, EncUint(AsUnsigned(s.verifyResult)))),
      Piece(Context(6), None),
      Piece(Context(8), Octets(s.pskIdentity)),
      Piece(Context(9), When(s.ticketHint > 0, EncUint(s.ticketHint))),
      Piece(Context(10), if forTicket then None else Octets(s.ticket)),
      Piece(Context(13), Octets(s.peerSha256)),
      Piece(Context(14), When(s.handshakeHash != [], EncOctets(s.handshakeHash))),
      Piece(Context(15), Octets(s.sctList)) ]
  }

  function StatePieces(s: Session): (ps: seq<Piece>)
    requires InRange(s)
    ensures |ps| == 10
  {
    [ Piece(Context(16), Octets(s.ocspResponse)),
      Piece(Context(17), When(s.extendedMasterSecret, EncBool(true))),
      Piece(Context(18), When(s.groupId > 0, EncUint(s.groupId))),
      Piece(Context(19), When(s.peerSha256.None? && |s.certs| >= 2, if s.certs == [] then [] else Joined(s.certs[1..]))),
      Piece(Context(21), When(s.ticketAgeAdd.Some?, EncOctets(U32Bytes(if s.ticketAgeAdd.Some? then s.ticketAgeAdd.value else 0)))),
      Piece(Context(22), When(!s.isServer, EncBool(false))),
      Piece(Context(23), When(s.peerSignatureAlgorithm != 0, EncUint(s.peerSignatureAlgorithm))),
      Piece(Context(24), When(s.maxEarlyData != 0, EncUint(s.maxEarlyData))),
      Piece(Context(25), When(s.head.timeout != s.authTimeout, EncUint(s.authTimeout))),
      Piece(Context(26), Octets(s.earlyAlpn)) ]
  }

  const FIELD_TAGS: seq<byte> :=
    [0xA3, 0xA4, 0xA5, 0xA6, 0xA8, 0xA9, 0xAA, 0xAD, 0xAE, 0xAF, 0xB0, 0xB1, 0xB2, 0xB3, 0xB5, 0xB6, 0xB7, 0xB8, 0xB9, 0xBA]

  function Body(s: Session, forTicket: bool): seq<byte>
    requires InRange(s)
  {
    HeadBytes(s.head, forTicket) + Flat(Pieces(s, forTicket))
  }

  /** SSL_SESSION_to_bytes_full fails only when a length exceeds what CBB_flush can write. */
  function ToBytesFull(s: Session, forTicket: bool): Option<seq<byte>>
    requires InRange(s)
  {
    var body := Body(s, forTicket);
    if |body| <= MAX_CONTENTS then Some(Tlv(SEQUENCE, body)) else None
  }

  const NOT_RESUMABLE: seq<byte> := [0x4E, 0x4F, 0x54, 0x20, 0x52, 0x45, 0x53, 0x55, 0x4D, 0x41, 0x42, 0x4C, 0x45]

  /** SSL_SESSION_to_bytes */
  function ToBytes(s: Session, notResumable: bool): Option<seq<byte>>
    requires InRange(s)
  {
    if notResumable then Some(NOT_RESUMABLE) else ToBytesFull(s, false)
  }

  // ---------------------------------------------------------------- parsing

  /** Version to timeout.  Bytes behind the INTEGERs of time and timeout are ignored. */
  function GetHead(b: seq<byte>, ciphers: set<nat>): Read<Head> {
    match GetUint(b)
    case Fail => Fail
    case Got(version, b) =>
    match GetUint(b)
    case Fail => Fail
    case Got(sslVersion, b) =>
    if version != 1 || sslVersion > U16_MAX || !KnownVersion(sslVersion) then Fail else
    match GetAsn1(b, OCTET_STRING)
    case Fail => Fail
    case Got(cipher, b) =>
    if |cipher| != 2 || BigEndian(cipher) !in ciphers then Fail else
    match GetAsn1(b, OCTET_STRING)
    case Fail => Fail
    case Got(sessionId, b) =>
    match GetAsn1(b, OCTET_STRING)
    case Fail => Fail
    case Got(masterKey, b) =>
    if |sessionId| > MAX_SESSION_ID || |masterKey| > MAX_MASTER_KEY then Fail else
    match GetTimes(b)
    case Fail => Fail
    case Got((time, timeout), b) => Got(Head(sslVersion, BigEndian(cipher), sessionId, masterKey, time, timeout), b)
  }

  function GetTimes(b: seq<byte>): Read<(nat, nat)> {
    match GetAsn1(b, Context(1))
    case Fail => Fail
    case Got(c1, b) =>
    match GetAsn1(b, Context(2))
    case Fail => Fail
    case Got(c2, b) =>
    match (GetUint(c1), GetUint(c2))
    case (Got(time, _), Got(timeout, _)) => if timeout > U32_MAX then Fail else Got((time, timeout), b)
    case _ => Fail
  }

  /** The one element of this type that makes up the contents of an explicit tag. */
  function Only(c: seq<byte>, tag: byte): Option<seq<byte>> {
    match GetAsn1(c, tag)
    case Fail => None
    case Got(x, rest) => if rest == [] then Some(x) else None
  }

  /** An optional OCTET STRING; None for a decoding error. */
  function OctetsOf(v: Option<seq<byte>>): Option<Option<seq<byte>>> {
    match v
    case None => Some(None)
    case Some(c) => if Only(c, OCTET_STRING).Some? then Some(Only(c, OCTET_STRING)) else None
  }

  predicate OctetsOk(v: Option<seq<byte>>, max: nat) {
    OctetsOf(v).Some? && (OctetsOf(v).value.Some? ==> |OctetsOf(v).value.value| <= max)
  }

  function BytesOf(v: Option<seq<byte>>): seq<byte>
    requires OctetsOf(v).Some?
  {
    if OctetsOf(v).value.Some? then OctetsOf(v).value.value else []
  }

  /** CBS_stow: an empty string is stored as a null pointer. */
  function Stowed(v: Option<seq<byte>>): Option<seq<byte>>
    requires OctetsOf(v).Some?
  {
    if BytesOf(v) == [] then None else Some(BytesOf(v))
  }

  /** An optional INTEGER of at most `max`, with a default. */
  function UintOf(v: Option<seq<byte>>, max: nat, absent: nat): Option<nat> {
    match v
    case None => Some(absent)
    case Some(c) =>
      match GetUint(c)
      case Fail => None
      case Got(n, rest) => if rest == [] && n <= max then Some(n) else None
  }

  function BoolOf(v: Option<seq<byte>>, absent: bool): Option<bool> {
    match v
    case None => Some(absent)
    case Some(c) =>
      match Only(c, BOOLEAN)
      case None => None
      case Some(x) => if x == [0] then Some(false) else if x == [0xFF] then Some(true) else None
  }

  /** The certificates of a chain: one DER element after the other. */
  function Elements(b: seq<byte>): Option<seq<seq<byte>>> {
    if b == [] then Some([])
    else
      match GetElement(b)
      case None => None
      case Some(e) =>
        match Elements(e.rest)
        case None => None
        case Some(es) => Some([e.whole] + es)
  }

  /** The peer certificate followed by the rest of the chain. */
  function CertsOf(peer: Option<seq<byte>>, chain: Option<seq<byte>>): Option<seq<seq<byte>>> {
    if peer == Some([]) || chain == Some([]) || (chain.Some? && peer.None?) then None
    else if peer.None? then Some([])
    else
      match Elements(if chain.Some? then chain.value else [])
      case None => None
      case Some(es) => Some([peer.value] + es)
  }

  /** The value of four big-endian bytes. */
  function AgeAddOf(v: Option<seq<byte>>): Option<Option<nat>> {
    match OctetsOf(v)
    case None => None
    case Some(None) => Some(None)
    case Some(Some(x)) => if |x| == 4 then Some(Some(BigEndian(x))) else None
  }

  type Values = v: seq<Option<seq<byte>>> | |v| == 20 witness seq(20, _ => None)

  /** Whether the optional fields decode. */
  predicate Acceptable(h: Head, v: Values, config: Config) {
    && CertsOf(v[0], v[13]).Some? && config.takesCerts(CertsOf(v[0], v[13]).value)
    && OctetsOk(v[1], MAX_SID_CTX)
    && UintOf(v[2], LONG_MAX, 0).Some?
    && OctetsOf(v[4]).Some? && 0 !in BytesOf(v[4])
    && UintOf(v[5], U32_MAX, 0).Some?
    && OctetsOf(v[6]).Some?
    && OctetsOf(v[7]).Some? && (v[7].Some? ==> |BytesOf(v[7])| == SHA256_SIZE)
    && OctetsOk(v[8], MAX_MD_SIZE)
    && OctetsOf(v[9]).Some? && OctetsOf(v[10]).Some?
    && BoolOf(v[11], false).Some?
    && UintOf(v[12], U16_MAX, 0).Some?
    && AgeAddOf(v[14]).Some?
    && BoolOf(v[15], true).Some?
    && UintOf(v[16], U16_MAX, 0).Some?
    && UintOf(v[17], U32_MAX, 0).Some?
    && UintOf(v[18], U32_MAX, h.timeout).Some?
    && OctetsOf(v[19]).Some?
  }

  function Built(h: Head, v: Values, config: Config): Session
    requires Acceptable(h, v, config)
  {
    Session(h, CertsOf(v[0], v[13]).value, BytesOf(v[1]), UintOf(v[2], LONG_MAX, 0).value,
            OctetsOf(v[4]).value, UintOf(v[5], U32_MAX, 0).value, Stowed(v[6]), OctetsOf(v[7]).value,
            BytesOf(v[8]), OctetsOf(v[9]).value, OctetsOf(v[10]).value, BoolOf(v[11], false).value,
            UintOf(v[12], U16_MAX, 0).value, AgeAddOf(v[14]).value, BoolOf(v[15], true).value,
            UintOf(v[16], U16_MAX, 0).value, UintOf(v[17], U32_MAX, 0).value,
            UintOf(v[18], U32_MAX, h.timeout).value, Stowed(v[19]))
  }

  function Interpret(h: Head, v: Values, config: Config): Option<Session> {
    if Acceptable(h, v, config) then Some(Built(h, v, config)) else None
  }

  lemma {:induction false} SplitLength(b: seq<byte>, tags: seq<byte>)
    ensures Split(b, tags).Some? ==> |Split(b, tags).value| == |tags|
    decreases |tags|
  {
    if tags != [] && GetOptional(b, tags[0]).Got? { SplitLength(GetOptional(b, tags[0]).rest, tags[1..]); }
  }

  /** The contents of the outer SEQUENCE. */
  function ParseBody(b: seq<byte>, config: Config): Option<Session> {
    match GetHead(b, config.ciphers)
    case Fail => None
    case Got(h, rest) =>
      SplitLength(rest, FIELD_TAGS);
      match Split(rest, FIELD_TAGS)
      case None => None
      case Some(v) => Interpret(h, v, config)
  }

  /** SSL_SESSION_from_bytes */
  function FromBytes(b: seq<byte>, config: Config): Option<Session> {
    match GetAsn1(b, SEQUENCE)
    case Fail => None
    case Got(body, rest) => if rest == [] then ParseBody(body, config) else None
  }
}
