/** ssl_asn1.cc: the serializer appends to a CBB, the parser advances a CBS. */
module SessionCodec {
  import opened Bits
  import opened Bytes
  import opened Der
  import opened Bytestring
  import opened Session

  // ================================================================ serializing

  lemma FlatOne(ps: seq<Piece>, k: nat)
    requires k < |ps|
    ensures Flat(ps[..k + 1]) == Flat(ps[..k]) + PieceBytes(ps[k])
  {
    FlatJoin(ps[..k], [ps[k]]);
    assert ps[..k] + [ps[k]] == ps[..k + 1];
    assert [ps[k]][1..] == [] && PieceBytes(ps[k]) + [] == PieceBytes(ps[k]);
  }

  lemma {:induction false} FlatJoin(ps: seq<Piece>, qs: seq<Piece>)
    ensures Flat(ps + qs) == Flat(ps) + Flat(qs)
    decreases |ps|
  {
    hide PieceBytes;
    if ps == [] {
      assert ps + qs == qs;
    } else {
      FlatJoin(ps[1..], qs);
      assert (ps + qs)[1..] == ps[1..] + qs;
    }
  }

  /** The session element holds the first `k` of these fields behind `start`. */
  ghost predicate Holds(cbb: Cbb, start: seq<byte>, ps: seq<Piece>, k: nat)
    reads cbb
  {
    k <= |ps| && cbb.data == start + Flat(ps[..k])
  }

  /** A field that is present: CBB_add_asn1 with its tag, around an element. */
  method AddField(cbb: Cbb, tag: byte, contents: seq<byte>, ghost start: seq<byte>, ghost ps: seq<Piece>, ghost k: nat)
    returns (ok: bool)
    requires k < |ps| && Holds(cbb, start, ps, k) && ps[k] == Piece(tag, Some(contents))
    modifies cbb
    ensures ok ==> Holds(cbb, start, ps, k + 1)
    ensures !ok ==> |contents| > MAX_CONTENTS
  {
    hide Flat, Tlv;
    FlatOne(ps, k);
    ok := cbb.AddAsn1(tag, contents);
  }

  /** A field that is absent adds nothing. */
  lemma SkipField(cbb: Cbb, start: seq<byte>, ps: seq<Piece>, k: nat)
    requires k < |ps| && Holds(cbb, start, ps, k) && ps[k].contents.None?
    ensures Holds(cbb, start, ps, k + 1)
  {
    hide Flat;
    FlatOne(ps, k);
    assert Flat(ps[..k]) + [] == Flat(ps[..k]);
  }

  method Octet(b: seq<byte>) returns (ok: bool, data: seq<byte>)
    ensures ok ==> data == EncOctets(b)
    ensures !ok ==> |b| > MAX_CONTENTS
  {
    var child := new Cbb();
    ok := child.AddOctets(b);
    data := child.data;
  }

  method Uint(n: nat) returns (data: seq<byte>)
    requires n < TWO_64
    ensures data == EncUint(n)
  {
    var child := new Cbb();
    var ok := child.AddUint64(n);
    data := child.data;
  }

  /** An optional OCTET STRING under its tag. */
  method AddOctetField(cbb: Cbb, tag: byte, x: Option<seq<byte>>, ghost start: seq<byte>, ghost ps: seq<Piece>, ghost k: nat)
    returns (ok: bool)
    requires k < |ps| && Holds(cbb, start, ps, k) && ps[k] == Piece(tag, Octets(x))
    modifies cbb
    ensures ok ==> Holds(cbb, start, ps, k + 1)
    ensures !ok ==> x.Some? && |EncOctets(x.value)| > MAX_CONTENTS
  {
    hide Flat, Tlv;
    if x.None? {
      SkipField(cbb, start, ps, k);
      return true;
    }
    var data;
    ok, data := Octet(x.value);
    if ok {
      ok := AddField(cbb, tag, data, start, ps, k);
    }
  }

  /** An INTEGER under its tag, left out when it has its default. */
  method AddUintField(cbb: Cbb, tag: byte, present: bool, n: nat, ghost start: seq<byte>, ghost ps: seq<Piece>, ghost k: nat)
    requires k < |ps| && Holds(cbb, start, ps, k) && n < TWO_64 && ps[k] == Piece(tag, When(present, EncUint(n)))
    modifies cbb
    ensures Holds(cbb, start, ps, k + 1)
  {
    hide Flat, EncUint;
    if present {
      var data := Uint(n);
      UintIsShort(n);
      var ok := AddField(cbb, tag, data, start, ps, k);
    } else {
      SkipField(cbb, start, ps, k);
    }
  }

  lemma UintIsShort(n: nat)
    requires n < TWO_64
    ensures |EncUint(n)| <= MAX_CONTENTS
  {
    MinimalShort(n);
  }

  /** The fields that are always written. */
  method WriteHead(h: Head, forTicket: bool) returns (cbb: Cbb)
    requires h.sslVersion <= U16_MAX && h.time < TWO_64 && h.timeout <= U32_MAX
    requires |h.sessionId| <= MAX_SESSION_ID && |h.masterKey| <= MAX_MASTER_KEY
    ensures fresh(cbb) && cbb.data == HeadBytes(h, forTicket)
  {
    hide EncUint, Tlv, Context;
    UintIsShort(h.time);
    UintIsShort(h.timeout);
    cbb := new Cbb();
    var ok := cbb.AddUint64(1);
    ok := cbb.AddUint64(h.sslVersion);
    ok := cbb.AddOctets(U16Bytes(h.cipher));
    ok := cbb.AddOctets(if forTicket then [] else h.sessionId);
    ok := cbb.AddOctets(h.masterKey);
    var time := Uint(h.time);
    ok := cbb.AddAsn1(Context(1), time);
    var timeout := Uint(h.timeout);
    ok := cbb.AddAsn1(Context(2), timeout);
  }

  /** The first ten fields one by one, with the defaults spelled out. */
  lemma PeerPieceAt(s: Session, forTicket: bool)
    requires InRange(s)
    ensures var ps := PeerPieces(s, forTicket);
            && (if s.certs != []
                    && s.peerSha256.None? then ps[0] == Piece(Context(3), Some(s.certs[0])) else ps[0].contents.None?)
            && ps[1] == Piece(Context(4), Octets(Some(s.sidCtx)))
            && ps[2] == Piece(Context(5), When(s.verifyResult != 0, EncUint(AsUnsigned(s.verifyResult))))
            && ps[3].contents.None?
            && ps[4] == Piece(Context(8), Octets(s.pskIdentity))
            && ps[5] == Piece(Context(9), When(s.ticketHint > 0, EncUint(s.ticketHint)))
            && ps[6] == Piece(Context(10), Octets(if forTicket then None else s.ticket))
            && ps[7] == Piece(Context(13), Octets(s.peerSha256))
            && ps[8] == Piece(Context(14), Octets(if s.handshakeHash == [] then None else Some(s.handshakeHash)))
            && ps[9] == Piece(Context(15), Octets(s.sctList))
  {
    hide EncUint, EncOctets, AsUnsigned, Context;
  }

  lemma StatePieceAt(s: Session)
    requires InRange(s)
    ensures var ps := StatePieces(s);
            && ps[0] == Piece(Context(16), Octets(s.ocspResponse))
            && ps[1] == Piece(Context(17), When(s.extendedMasterSecret, EncBool(true)))
            && ps[2] == Piece(Context(18), When(s.groupId > 0, EncUint(s.groupId)))
            && (if s.peerSha256.None? && |s.certs| >= 2 then ps[3] == Piece(Context(19), Some(Joined(s.certs[1..])))
                else ps[3].contents.None?)
            && ps[4] == Piece(Context(21), Octets(if s.ticketAgeAdd.Some? then Some(U32Bytes(s.ticketAgeAdd.value)) else None))
            && ps[5] == Piece(Context(22), When(!s.isServer, EncBool(false)))
            && ps[6] == Piece(Context(23), When(s.peerSignatureAlgorithm != 0, EncUint(s.peerSignatureAlgorithm)))
            && ps[7] == Piece(Context(24), When(s.maxEarlyData != 0, EncUint(s.maxEarlyData)))
            && ps[8] == Piece(Context(25), When(s.head.timeout != s.authTimeout, EncUint(s.authTimeout)))
            && ps[9] == Piece(Context(26), Octets(s.earlyAlpn))
  {
    hide EncUint, EncOctets, EncBool, Context, U32Bytes, Joined;
  }

  /** The first ten optional fields, from peer to signedCertTimestampList. */
  method WritePeerFields(cbb: Cbb, s: Session, forTicket: bool) returns (ok: bool)
    requires InRange(s)
    modifies cbb
    ensures ok ==> cbb.data == old(cbb.data) + Flat(PeerPieces(s, forTicket))
    ensures !ok ==> exists i :: 0 <= i < 10 && TooLong(PeerPieces(s, forTicket)[i])
  {
    hide Flat, PeerPieces;
    ghost var ps, start := PeerPieces(s, forTicket), cbb.data;
    NothingYet(cbb, ps);
    ok := WriteIdentity(cbb, s, forTicket, start, ps);
    if !ok { return; }
    ok := WriteTicket(cbb, s, forTicket, start, ps);
    assert ps[..10] == ps;
  }

  method WriteIdentity(cbb: Cbb, s: Session, forTicket: bool, ghost start: seq<byte>, ghost ps: seq<Piece>)
    returns (ok: bool)
    requires InRange(s) && ps == PeerPieces(s, forTicket) && Holds(cbb, start, ps, 0)
    modifies cbb
    ensures ok ==> Holds(cbb, start, ps, 5)
    ensures !ok ==> exists i :: 0 <= i < 10 && TooLong(ps[i])
  {
    hide Flat, EncUint, EncOctets, Context, PeerPieces, Holds, When;
    PeerPieceAt(s, forTicket);
    if s.certs != [] && s.peerSha256.None? {
      ok := AddField(cbb, Context(3), s.certs[0], start, ps, 0);
      if !ok {
        assert TooLong(ps[0]);
        return;
      }
    } else {
      SkipField(cbb, start, ps, 0);
    }
    ok := AddOctetField(cbb, Context(4), Some(s.sidCtx), start, ps, 1);
    if !ok {
      assert TooLong(ps[1]);
      return;
    }
    AddUintField(cbb, Context(5), s.verifyResult != 0, AsUnsigned(s.verifyResult), start, ps, 2);
    SkipField(cbb, start, ps, 3);
    ok := AddOctetField(cbb, Context(8), s.pskIdentity, start, ps, 4);
    if !ok { assert TooLong(ps[4]); }
  }

  method WriteTicket(cbb: Cbb, s: Session, forTicket: bool, ghost start: seq<byte>, ghost ps: seq<Piece>)
    returns (ok: bool)
    requires InRange(s) && ps == PeerPieces(s, forTicket) && Holds(cbb, start, ps, 5)
    modifies cbb
    ensures ok ==> Holds(cbb, start, ps, 10)
    ensures !ok ==> exists i :: 0 <= i < 10 && TooLong(ps[i])
  {
    hide Flat, EncUint, EncOctets, Context, PeerPieces, Holds, When;
    PeerPieceAt(s, forTicket);
    AddUintField(cbb, Context(9), s.ticketHint > 0, s.ticketHint, start, ps, 5);
    ok := AddOctetField(cbb, Context(10), if forTicket then None else s.ticket, start, ps, 6);
    if !ok {
      assert TooLong(ps[6]);
      return;
    }
    ok := AddOctetField(cbb, Context(13), s.peerSha256, start, ps, 7);
    if !ok {
      assert TooLong(ps[7]);
      return;
    }
    ok := AddOctetField(cbb, Context(14), if s.handshakeHash == [] then None else Some(s.handshakeHash), start, ps, 8);
    if !ok {
      assert TooLong(ps[8]);
      return;
    }
    ok := AddOctetField(cbb, Context(15), s.sctList, start, ps, 9);
    if !ok { assert TooLong(ps[9]); }
  }

  predicate TooLong(p: Piece) {
    p.contents.Some? && |p.contents.value| > MAX_CONTENTS
  }

  lemma NothingYet(cbb: Cbb, ps: seq<Piece>)
    ensures Holds(cbb, cbb.data, ps, 0)
  {
  }

  /** The certificates behind the leaf, one after the other. */
  method JoinCerts(certs: seq<seq<byte>>) returns (b: seq<byte>)
    ensures b == Joined(certs)
  {
    b := [];
    for i := 0 to |certs|
      invariant b + Joined(certs[i..]) == Joined(certs)
    {
      assert certs[i..][1..] == certs[i + 1..];
      b := b + certs[i];
    }
    assert certs[|certs|..] == [] && b + [] == b;
  }

  /** The last ten optional fields, from ocspResponse to earlyALPN. */
  method WriteStateFields(cbb: Cbb, s: Session) returns (ok: bool)
    requires InRange(s)
    modifies cbb
    ensures ok ==> cbb.data == old(cbb.data) + Flat(StatePieces(s))
    ensures !ok ==> exists i :: 0 <= i < 10 && TooLong(StatePieces(s)[i])
  {
    hide Flat, StatePieces;
    ghost var ps, start := StatePieces(s), cbb.data;
    NothingYet(cbb, ps);
    ok := WriteChain(cbb, s, start, ps);
    if !ok { return; }
    ok := WriteLimits(cbb, s, start, ps);
    assert ps[..10] == ps;
  }

  method WriteChain(cbb: Cbb, s: Session, ghost start: seq<byte>, ghost ps: seq<Piece>) returns (ok: bool)
    requires InRange(s) && ps == StatePieces(s) && Holds(cbb, start, ps, 0)
    modifies cbb
    ensures ok ==> Holds(cbb, start, ps, 5)
    ensures !ok ==> exists i :: 0 <= i < 10 && TooLong(ps[i])
  {
    hide Flat, EncUint, EncOctets, EncBool, Context, StatePieces, Holds, When;
    StatePieceAt(s);
    ok := AddOctetField(cbb, Context(16), s.ocspResponse, start, ps, 0);
    if !ok {
      assert TooLong(ps[0]);
      return;
    }
    AddBoolField(cbb, Context(17), s.extendedMasterSecret, true, start, ps, 1);
    AddUintField(cbb, Context(18), s.groupId > 0, s.groupId, start, ps, 2);
    if s.peerSha256.None? && |s.certs| >= 2 {
      var chain := JoinCerts(s.certs[1..]);
      ok := AddField(cbb, Context(19), chain, start, ps, 3);
      if !ok {
        assert TooLong(ps[3]);
        return;
      }
    } else {
      SkipField(cbb, start, ps, 3);
    }
    ok := AddOctetField(cbb, Context(21), if s.ticketAgeAdd.Some? then Some(U32Bytes(s.ticketAgeAdd.value)) else None, start, ps, 4);
    if !ok { assert TooLong(ps[4]); }
  }

  method WriteLimits(cbb: Cbb, s: Session, ghost start: seq<byte>, ghost ps: seq<Piece>) returns (ok: bool)
    requires InRange(s) && ps == StatePieces(s) && Holds(cbb, start, ps, 5)
    modifies cbb
    ensures ok ==> Holds(cbb, start, ps, 10)
    ensures !ok ==> exists i :: 0 <= i < 10 && TooLong(ps[i])
  {
    hide Flat, EncUint, EncOctets, EncBool, Context, StatePieces, Holds, When;
    StatePieceAt(s);
    AddBoolField(cbb, Context(22), !s.isServer, false, start, ps, 5);
    AddUintField(cbb, Context(23), s.peerSignatureAlgorithm != 0, s.peerSignatureAlgorithm, start, ps, 6);
    AddUintField(cbb, Context(24), s.maxEarlyData != 0, s.maxEarlyData, start, ps, 7);
    AddUintField(cbb, Context(25), s.head.timeout != s.authTimeout, s.authTimeout, start, ps, 8);
    ok := AddOctetField(cbb, Context(26), s.earlyAlpn, start, ps, 9);
    if !ok { assert TooLong(ps[9]); }
  }

  /** A BOOLEAN under its tag, left out when it has its default. */
  method AddBoolField(cbb: Cbb, tag: byte, present: bool, v: bool, ghost start: seq<byte>, ghost ps: seq<Piece>, ghost k: nat)
    requires k < |ps| && Holds(cbb, start, ps, k) && ps[k] == Piece(tag, When(present, EncBool(v)))
    modifies cbb
    ensures Holds(cbb, start, ps, k + 1)
  {
    hide Flat;
    if present {
      var child := new Cbb();
      var ok := child.AddBool(v);
      assert child.data == EncBool(v);
      ok := AddField(cbb, tag, child.data, start, ps, k);
    } else {
      SkipField(cbb, start, ps, k);
    }
  }

  /** SSL_SESSION_to_bytes_full */
  method Serialize(s: Session, forTicket: bool) returns (r: Option<seq<byte>>)
    requires InRange(s)
    ensures r == ToBytesFull(s, forTicket)
  {
    hide Flat, Tlv, HeadBytes, PeerPieces, StatePieces;
    HeadFits(s);
    var session := WriteHead(s.head, forTicket);
    FlatJoin(PeerPieces(s, forTicket), StatePieces(s));
    var ok := WritePeerFields(session, s, forTicket);
    if !ok {
      var i :| 0 <= i < 10 && TooLong(PeerPieces(s, forTicket)[i]);
      FieldTooLong(s, forTicket, i);
      return None;
    }
    ok := WriteStateFields(session, s);
    if !ok {
      var i :| 0 <= i < 10 && TooLong(StatePieces(s)[i]);
      FieldTooLong(s, forTicket, 10 + i);
      return None;
    }
    var cbb := new Cbb();
    ok := cbb.AddAsn1(SEQUENCE, session.data);
    assert session.data == Body(s, forTicket);
    assert [] + Tlv(SEQUENCE, session.data) == Tlv(SEQUENCE, session.data);
    return if ok then Some(cbb.data) else None;
  }

  lemma HeadFits(s: Session)
    requires InRange(s)
    ensures s.head.sslVersion <= U16_MAX && s.head.time < TWO_64 && s.head.timeout <= U32_MAX
    ensures |s.head.sessionId| <= MAX_SESSION_ID && |s.head.masterKey| <= MAX_MASTER_KEY
  {
  }

  /** A field that is too long makes the whole session too long. */
  lemma FieldTooLong(s: Session, forTicket: bool, i: nat)
    requires InRange(s) && i < 20 && TooLong(Pieces(s, forTicket)[i])
    ensures |Body(s, forTicket)| > MAX_CONTENTS
  {
    hide Flat, HeadBytes, Pieces;
    SomeFieldTooLong(Pieces(s, forTicket), i);
  }

  lemma {:induction false} SomeFieldTooLong(ps: seq<Piece>, i: nat)
    requires i < |ps| && TooLong(ps[i])
    ensures |Flat(ps)| > MAX_CONTENTS
    decreases |ps|
  {
    hide Tlv;
    if i > 0 { SomeFieldTooLong(ps[1..], i - 1); }
  }

  // ================================================================ parsing

  /** The fields read so far are the first ones of any successful reading of `b`. */
  ghost predicate Along(b: seq<byte>, vals: seq<Option<seq<byte>>>, rest: seq<byte>) {
    && |vals| <= |FIELD_TAGS|
    && Split(b, FIELD_TAGS) ==
         match Split(rest, FIELD_TAGS[|vals|..])
         case None => None
         case Some(cs) => Some(vals + cs)
  }

  lemma AlongStart(b: seq<byte>)
    ensures Along(b, [], b)
  {
    assert FIELD_TAGS[0..] == FIELD_TAGS;
    var r := Split(b, FIELD_TAGS);
    if r.Some? { assert [] + r.value == r.value; }
  }

  lemma AlongStep(b: seq<byte>, vals: seq<Option<seq<byte>>>, rest: seq<byte>)
    requires Along(b, vals, rest) && |vals| < |FIELD_TAGS|
    ensures var r := GetOptional(rest, FIELD_TAGS[|vals|]);
            && (r.Got? ==> Along(b, vals + [r.value], r.rest))
            && (r.Fail? ==> Split(b, FIELD_TAGS).None?)
  {
    hide GetOptional;
    var k := |vals|;
    var r := GetOptional(rest, FIELD_TAGS[k]);
    assert FIELD_TAGS[k..][0] == FIELD_TAGS[k] && FIELD_TAGS[k..][1..] == FIELD_TAGS[k + 1..];
    if r.Got? {
      var cs := Split(r.rest, FIELD_TAGS[k + 1..]);
      if cs.Some? { assert vals + ([r.value] + cs.value) == (vals + [r.value]) + cs.value; }
    }
  }

  /** What the optional fields in `b` amount to. */
  ghost function Outcome(b: seq<byte>, h: Head, config: Config): Option<Session> {
    match Split(b, FIELD_TAGS)
    case None => None
    case Some(v) => if |v| == 20 then Interpret(h, v, config) else None
  }

  /** No session comes of these bytes: they do not split into fields, or the fields are not acceptable. */
  ghost predicate Rejects(b: seq<byte>, h: Head, config: Config) {
    Outcome(b, h, config).None?
  }

  /** The check of field number `k`, the last of `vals`. */
  ghost predicate FieldOk(h: Head, vals: seq<Option<seq<byte>>>, config: Config)
    requires 0 < |vals| <= 20
  {
    var k, v := |vals| - 1, vals[|vals| - 1];
    match k
    case 0 => v != Some([])
    case 1 => OctetsOk(v, MAX_SID_CTX)
    case 2 => UintOf(v, LONG_MAX, 0).Some?
    case 4 => OctetsOf(v).Some? && 0 !in BytesOf(v)
    case 5 => UintOf(v, U32_MAX, 0).Some?
    case 6 => OctetsOf(v).Some?
    case 7 => OctetsOf(v).Some? && (v.Some? ==> |BytesOf(v)| == SHA256_SIZE)
    case 8 => OctetsOk(v, MAX_MD_SIZE)
    case 9 => OctetsOf(v).Some?
    case 10 => OctetsOf(v).Some?
    case 11 => BoolOf(v, false).Some?
    case 12 => UintOf(v, U16_MAX, 0).Some?
    case 13 => CertsOf(vals[0], v).Some? && config.takesCerts(CertsOf(vals[0], v).value)
    case 14 => AgeAddOf(v).Some?
    case 15 => BoolOf(v, true).Some?
    case 16 => UintOf(v, U16_MAX, 0).Some?
    case 17 => UintOf(v, U32_MAX, 0).Some?
    case 18 => UintOf(v, U32_MAX, h.timeout).Some?
    case 19 => OctetsOf(v).Some?
    case _ => true
  }

  lemma AcceptableFields(h: Head, v: Values, k: nat, config: Config)
    requires Acceptable(h, v, config) && k < 20
    ensures FieldOk(h, v[..k + 1], config)
  {
    hide OctetsOf, OctetsOk, UintOf, BoolOf, AgeAddOf, BytesOf;
    assert v[..k + 1][k] == v[k] && v[..k + 1][0] == v[0];
  }

  /** A field that cannot be read or fails its check leaves no session. */
  lemma FieldFails(b: seq<byte>, h: Head, vals: seq<Option<seq<byte>>>, rest: seq<byte>, config: Config)
    requires Along(b, vals, rest) && |vals| < 20
    requires var r := GetOptional(rest, FIELD_TAGS[|vals|]); r.Got? ==> !FieldOk(h, vals + [r.value], config)
    ensures Rejects(b, h, config)
  {
    hide GetOptional, FieldOk, Acceptable, Split;
    AlongStep(b, vals, rest);
    var all := Split(b, FIELD_TAGS);
    if GetOptional(rest, FIELD_TAGS[|vals|]).Got? && all.Some? && |all.value| == 20 && Acceptable(h, all.value, config) {
      PrefixRead(b, vals, rest);
      AcceptableFields(h, all.value, |vals|, config);
    }
  }

  lemma PrefixRead(b: seq<byte>, vals: seq<Option<seq<byte>>>, rest: seq<byte>)
    requires Along(b, vals, rest) && |vals| < 20 && GetOptional(rest, FIELD_TAGS[|vals|]).Got?
    requires Split(b, FIELD_TAGS).Some? && |Split(b, FIELD_TAGS).value| == 20
    ensures Split(b, FIELD_TAGS).value[..|vals| + 1] == vals + [GetOptional(rest, FIELD_TAGS[|vals|]).value]
  {
    hide GetOptional, Split;
    AlongStep(b, vals, rest);
  }

  /** CBS_get_optional_asn1_octet_string, and the helpers of ssl_asn1.cc built on it. */
  method ParseOctets(cbs: Cbs, tag: byte) returns (ok: bool, x: Option<seq<byte>>)
    modifies cbs
    ensures var r := GetOptional(old(cbs.data), tag);
            && (ok <==> r.Got? && OctetsOf(r.value).Some?)
            && (ok ==> x == OctetsOf(r.value).value && cbs.data == r.rest)
  {
    hide GetOptional, GetAsn1;
    var contents;
    x := None;
    ok, contents := cbs.GetOptionalTagged(tag);
    if !ok || contents.None? {
      return;
    }
    var child := new Cbs(contents.value);
    var value;
    ok, value := child.GetTagged(OCTET_STRING);
    return ok && child.data == [], Some(value);
  }

  /** SSL_SESSION_parse_long, SSL_SESSION_parse_u32 and SSL_SESSION_parse_u16. */
  method ParseUint(cbs: Cbs, tag: byte, max: nat, absent: nat) returns (ok: bool, n: nat)
    modifies cbs
    ensures var r := GetOptional(old(cbs.data), tag);
            && (ok <==> r.Got? && UintOf(r.value, max, absent).Some?)
            && (ok ==> n == UintOf(r.value, max, absent).value && cbs.data == r.rest)
  {
    hide GetOptional, GetUint;
    var contents;
    n := absent;
    ok, contents := cbs.GetOptionalTagged(tag);
    if !ok || contents.None? {
      return;
    }
    var child := new Cbs(contents.value);
    ok, n := child.GetUint64();
    return ok && child.data == [] && n <= max, n;
  }

  /** CBS_get_optional_asn1_bool */
  method ParseBool(cbs: Cbs, tag: byte, absent: bool) returns (ok: bool, v: bool)
    modifies cbs
    ensures var r := GetOptional(old(cbs.data), tag);
            && (ok <==> r.Got? && BoolOf(r.value, absent).Some?)
            && (ok ==> v == BoolOf(r.value, absent).value && cbs.data == r.rest)
  {
    hide GetOptional, GetAsn1;
    var contents;
    v := absent;
    ok, contents := cbs.GetOptionalTagged(tag);
    if !ok || contents.None? {
      return;
    }
    var child := new Cbs(contents.value);
    var child2;
    ok, child2 := child.GetTagged(BOOLEAN);
    if !ok || |child2| != 1 || child.data != [] {
      return false, v;
    }
    return child2[0] == 0 || child2[0] == 0xFF, child2[0] == 0xFF;
  }

  /** The loop over the certificate chain. */
  method ParseChain(b: seq<byte>) returns (ok: bool, certs: seq<seq<byte>>)
    ensures (ok <==> Elements(b).Some?) && (ok ==> certs == Elements(b).value)
  {
    hide GetElement;
    var cbs := new Cbs(b);
    certs := [];
    AllAhead(b);
    while cbs.data != []
      invariant Elements(b) == Prepend(certs, Elements(cbs.data))
      decreases |cbs.data|
    {
      var e;
      ok, e := cbs.GetAnyElement();
      if !ok {
        return;
      }
      PrependOne(certs, e.whole, Elements(e.rest));
      certs := certs + [e.whole];
    }
    assert certs + [] == certs;
    return true, certs;
  }

  function Prepend(front: seq<seq<byte>>, r: Option<seq<seq<byte>>>): Option<seq<seq<byte>>> {
    if r.Some? then Some(front + r.value) else None
  }

  lemma AllAhead(b: seq<byte>)
    ensures Elements(b) == Prepend([], Elements(b))
  {
    var r := Elements(b);
    if r.Some? { assert [] + r.value == r.value; }
  }

  lemma PrependOne(front: seq<seq<byte>>, c: seq<byte>, r: Option<seq<seq<byte>>>)
    ensures Prepend(front, Prepend([c], r)) == Prepend(front + [c], r)
  {
    if r.Some? { assert front + ([c] + r.value) == front + [c] + r.value; }
  }

  /** The mandatory fields. */
  method ParseHead(cbs: Cbs, ciphers: set<nat>) returns (ok: bool, h: Head)
    modifies cbs
    ensures var r := GetHead(old(cbs.data), ciphers); (ok <==> r.Got?) && (ok ==> h == r.value && cbs.data == r.rest)
  {
    hide GetUint, GetAsn1, GetTimes, KnownVersion, BigEndian;
    h := Head(0, 0, [], [], 0, 0);
    var version, sslVersion, cipher, sessionId, masterKey, time, timeout;
    ok, version := cbs.GetUint64();
    if !ok || version != 1 { return false, h; }
    ok, sslVersion := cbs.GetUint64();
    if !ok || sslVersion > U16_MAX || !KnownVersion(sslVersion) { return false, h; }
    ok, cipher := cbs.GetTagged(OCTET_STRING);
    if !ok || |cipher| != 2 { return false, h; }
    var value := Number(cipher);
    if value !in ciphers { return false, h; }
    ok, sessionId := cbs.GetTagged(OCTET_STRING);
    if !ok || |sessionId| > MAX_SESSION_ID { return false, h; }
    ok, masterKey := cbs.GetTagged(OCTET_STRING);
    if !ok || |masterKey| > MAX_MASTER_KEY { return false, h; }
    ok, time, timeout := ParseTimes(cbs);
    h := Head(sslVersion, value, sessionId, masterKey, time, timeout);
  }

  method ParseTimes(cbs: Cbs) returns (ok: bool, time: nat, timeout: nat)
    modifies cbs
    ensures var r := GetTimes(old(cbs.data)); (ok <==> r.Got?) && (ok ==> (time, timeout) == r.value && cbs.data == r.rest)
  {
    hide GetUint, GetAsn1;
    time, timeout := 0, 0;
    var contents;
    ok, contents := cbs.GetTagged(Context(1));
    if !ok { return; }
    var child := new Cbs(contents);
    ok, time := child.GetUint64();
    if !ok { return; }
    ok, contents := cbs.GetTagged(Context(2));
    if !ok { return; }
    child := new Cbs(contents);
    ok, timeout := child.GetUint64();
    ok := ok && timeout <= U32_MAX;
  }

  /** One more field was read and passed its check. */
  lemma FieldRead(b: seq<byte>, vals: seq<Option<seq<byte>>>, rest: seq<byte>, tag: byte) returns (more: seq<Option<seq<byte>>>)
    requires Along(b, vals, rest) && |vals| < 20 && FIELD_TAGS[|vals|] == tag && GetOptional(rest, tag).Got?
    ensures more == vals + [GetOptional(rest, tag).value] && Along(b, more, GetOptional(rest, tag).rest)
  {
    hide GetOptional;
    AlongStep(b, vals, rest);
    more := vals + [GetOptional(rest, tag).value];
  }

  /** A field was read but fails its check. */
  lemma CheckFails(b: seq<byte>, h: Head, vals: seq<Option<seq<byte>>>, rest: seq<byte>, config: Config)
    requires Along(b, vals, rest) && 0 < |vals| <= 20 && !FieldOk(h, vals, config)
    ensures Rejects(b, h, config)
  {
    hide FieldOk, Acceptable, Split;
    var all := Split(b, FIELD_TAGS);
    if all.Some? && |all.value| == 20 && Acceptable(h, all.value, config) {
      FirstAre(b, vals, rest);
      AcceptableFields(h, all.value, |vals| - 1, config);
    }
  }

  lemma FirstAre(b: seq<byte>, vals: seq<Option<seq<byte>>>, rest: seq<byte>)
    requires Along(b, vals, rest) && Split(b, FIELD_TAGS).Some?
    ensures |vals| <= |Split(b, FIELD_TAGS).value| && Split(b, FIELD_TAGS).value[..|vals|] == vals
  {
    hide Split;
  }

  /** The next optional OCTET STRING of the sequence. */
  method NextOctets(cbs: Cbs, tag: byte, ghost b: seq<byte>, ghost h: Head, ghost vals: seq<Option<seq<byte>>>, ghost config: Config)
    returns (ok: bool, x: Option<seq<byte>>, ghost more: seq<Option<seq<byte>>>)
    requires Along(b, vals, cbs.data) && |vals| in {1, 4, 6, 7, 8, 9, 10, 14, 19} && tag == FIELD_TAGS[|vals|]
    modifies cbs
    ensures ok ==>
              |more| == |vals| + 1 && more == vals + [more[|vals|]] && Along(b, more, cbs.data) && OctetsOf(more[|vals|]) == Some(x)
    ensures !ok ==> Rejects(b, h, config)
  {
    hide GetOptional, Along, Rejects, OctetsOf, FieldOk;
    ghost var rest := cbs.data;
    more := vals;
    ok, x := ParseOctets(cbs, tag);
    if ok {
      more := FieldRead(b, vals, rest, tag);
    } else {
      ghost var r := GetOptional(rest, tag);
      if r.Got? { OctetsChecked(h, vals, r.value, config); }
      FieldFails(b, h, vals, rest, config);
    }
  }

  lemma OctetsChecked(h: Head, vals: seq<Option<seq<byte>>>, v: Option<seq<byte>>, config: Config)
    requires |vals| in {1, 4, 6, 7, 8, 9, 10, 14, 19} && OctetsOf(v).None?
    ensures !FieldOk(h, vals + [v], config)
  {
    hide OctetsOf;
  }

  /** The default and the limit of the INTEGER field number `k`. */
  function Limit(k: nat): nat {
    if k == 2 then LONG_MAX else if k == 12 || k == 16 then U16_MAX else U32_MAX
  }

  function Default(k: nat, h: Head): nat {
    if k == 18 then h.timeout else 0
  }

  /** The next optional INTEGER of the sequence. */
  method NextUint(cbs: Cbs, tag: byte, max: nat, absent: nat,
                  ghost b: seq<byte>, ghost h: Head, ghost vals: seq<Option<seq<byte>>>, ghost config: Config)
    returns (ok: bool, n: nat, ghost more: seq<Option<seq<byte>>>)
    requires Along(b, vals, cbs.data) && |vals| in {2, 5, 12, 16, 17, 18} && tag == FIELD_TAGS[|vals|]
    requires max == Limit(|vals|) && absent == Default(|vals|, h)
    modifies cbs
    ensures ok ==> |more| == |vals| + 1 && more == vals + [more[|vals|]] && Along(b, more, cbs.data)
                   && UintOf(more[|vals|], max, absent) == Some(n)
    ensures !ok ==> Rejects(b, h, config)
  {
    hide GetOptional, Along, Rejects, UintOf, FieldOk;
    ghost var rest := cbs.data;
    more := vals;
    ok, n := ParseUint(cbs, tag, max, absent);
    if ok {
      more := FieldRead(b, vals, rest, tag);
    } else {
      ghost var r := GetOptional(rest, tag);
      if r.Got? { UintChecked(h, vals, r.value, config); }
      FieldFails(b, h, vals, rest, config);
    }
  }

  lemma UintChecked(h: Head, vals: seq<Option<seq<byte>>>, v: Option<seq<byte>>, config: Config)
    requires |vals| in {2, 5, 12, 16, 17, 18} && UintOf(v, Limit(|vals|), Default(|vals|, h)).None?
    ensures !FieldOk(h, vals + [v], config)
  {
    hide UintOf;
  }

  /** The next optional BOOLEAN of the sequence. */
  method NextBool(cbs: Cbs, tag: byte, absent: bool, ghost b: seq<byte>, ghost h: Head, ghost vals: seq<Option<seq<byte>>>, ghost config: Config)
    returns (ok: bool, v: bool, ghost more: seq<Option<seq<byte>>>)
    requires Along(b, vals, cbs.data) && |vals| in {11, 15} && tag == FIELD_TAGS[|vals|] && (absent <==> |vals| == 15)
    modifies cbs
    ensures ok ==> |more| == |vals| + 1 && more == vals + [more[|vals|]] && Along(b, more, cbs.data)
                   && BoolOf(more[|vals|], absent) == Some(v)
    ensures !ok ==> Rejects(b, h, config)
  {
    hide GetOptional, Along, Rejects, BoolOf, FieldOk;
    ghost var rest := cbs.data;
    more := vals;
    ok, v := ParseBool(cbs, tag, absent);
    if ok {
      more := FieldRead(b, vals, rest, tag);
    } else {
      ghost var r := GetOptional(rest, tag);
      if r.Got? { BoolChecked(h, vals, r.value, config); }
      FieldFails(b, h, vals, rest, config);
    }
  }

  lemma BoolChecked(h: Head, vals: seq<Option<seq<byte>>>, v: Option<seq<byte>>, config: Config)
    requires |vals| in {11, 15} && BoolOf(v, |vals| == 15).None?
    ensures !FieldOk(h, vals + [v], config)
  {
    hide BoolOf;
  }

  /** The next optional element of the sequence, whatever it contains. */
  method NextAny(cbs: Cbs, tag: byte, ghost b: seq<byte>, ghost h: Head, ghost vals: seq<Option<seq<byte>>>, ghost config: Config)
    returns (ok: bool, x: Option<seq<byte>>, ghost more: seq<Option<seq<byte>>>)
    requires Along(b, vals, cbs.data) && |vals| < 20 && tag == FIELD_TAGS[|vals|]
    modifies cbs
    ensures ok ==> more == vals + [x] && Along(b, more, cbs.data)
    ensures !ok ==> Rejects(b, h, config)
  {
    hide GetOptional, Along, Rejects, FieldOk;
    ghost var rest := cbs.data;
    more := vals;
    ok, x := cbs.GetOptionalTagged(tag);
    if ok {
      more := FieldRead(b, vals, rest, tag);
    } else {
      FieldFails(b, h, vals, rest, config);
    }
  }

  /** What the first five optional fields say. */
  datatype Peer = Peer(cert: Option<seq<byte>>, sidCtx: seq<byte>, verify: nat, psk: Option<seq<byte>>)

  ghost predicate PeerRead(p: Peer, vals: seq<Option<seq<byte>>>) {
    && |vals| >= 5 && p.cert == vals[0] && p.cert != Some([])
    && OctetsOk(vals[1], MAX_SID_CTX) && p.sidCtx == BytesOf(vals[1])
    && UintOf(vals[2], LONG_MAX, 0) == Some(p.verify)
    && OctetsOf(vals[4]) == Some(p.psk) && 0 !in BytesOf(vals[4])
  }

  /** The checks of single fields beyond their decoding. */
  lemma EmptyPeer(h: Head, vals: seq<Option<seq<byte>>>, config: Config)
    requires vals == [Some([])]
    ensures !FieldOk(h, vals, config)
  {
  }

  lemma BadOctets(h: Head, vals: seq<Option<seq<byte>>>, x: seq<byte>, config: Config)
    requires |vals| in {2, 5, 8, 9} && OctetsOf(vals[|vals| - 1]) == Some(Some(x))
    requires if |vals| == 2 then |x| > MAX_SID_CTX else if |vals| == 5 then 0 in x
             else if |vals| == 8 then |x| != SHA256_SIZE else |x| > MAX_MD_SIZE
    ensures !FieldOk(h, vals, config)
  {
    hide OctetsOf;
    PresentIsSome(vals[|vals| - 1]);
  }

  /** Fields peer to pskIdentity; the historical hostName is read and dropped. */
  method ParsePeer(cbs: Cbs, h: Head, config: Config) returns (ok: bool, p: Peer, ghost vals: seq<Option<seq<byte>>>)
    modifies cbs
    ensures !ok ==> Rejects(old(cbs.data), h, config)
    ensures ok ==> |vals| == 5 && Along(old(cbs.data), vals, cbs.data) && PeerRead(p, vals)
  {
    hide GetOptional, Along, Rejects, OctetsOf, UintOf, FieldOk;
    ghost var b := cbs.data;
    var cert, sidCtx, verify, psk;
    p := Peer(None, [], 0, None);
    ok, cert, sidCtx, vals := ParseCert(cbs, h, config);
    if !ok { return; }
    ok, verify, psk, vals := ParseIdentity(cbs, h, config, b, vals);
    p := Peer(cert, sidCtx, verify, psk);
  }

  method ParseCert(cbs: Cbs, h: Head, config: Config)
    returns (ok: bool, cert: Option<seq<byte>>, sidCtx: seq<byte>, ghost vals: seq<Option<seq<byte>>>)
    modifies cbs
    ensures !ok ==> Rejects(old(cbs.data), h, config)
    ensures ok ==> |vals| == 2 && Along(old(cbs.data), vals, cbs.data) && cert == vals[0] && cert != Some([])
    ensures ok ==> OctetsOk(vals[1], MAX_SID_CTX) && sidCtx == BytesOf(vals[1])
  {
    hide GetOptional, Along, Rejects, OctetsOf, FieldOk;
    ghost var b := cbs.data;
    AlongStart(b);
    sidCtx := [];
    ok, cert, vals := NextAny(cbs, Context(3), b, h, [], config);
    if !ok { return; }
    if cert == Some([]) {
      EmptyPeer(h, vals, config);
      CheckFails(b, h, vals, cbs.data, config);
      return false, cert, sidCtx, vals;
    }
    var x;
    ok, x, vals := NextOctets(cbs, Context(4), b, h, vals, config);
    if !ok { return; }
    if x.Some? && |x.value| > MAX_SID_CTX {
      BadOctets(h, vals, x.value, config);
      CheckFails(b, h, vals, cbs.data, config);
      return false, cert, sidCtx, vals;
    }
    sidCtx := if x.Some? then x.value else [];
  }

  method ParseIdentity(cbs: Cbs, h: Head, config: Config, ghost b: seq<byte>, ghost before: seq<Option<seq<byte>>>)
    returns (ok: bool, verify: nat, psk: Option<seq<byte>>, ghost vals: seq<Option<seq<byte>>>)
    requires |before| == 2 && Along(b, before, cbs.data)
    modifies cbs
    ensures !ok ==> Rejects(b, h, config)
    ensures ok ==> |vals| == 5 && before == vals[..2] && Along(b, vals, cbs.data)
    ensures ok ==> UintOf(vals[2], LONG_MAX, 0) == Some(verify)
    ensures ok ==> OctetsOf(vals[4]) == Some(psk) && 0 !in BytesOf(vals[4])
  {
    hide GetOptional, Along, Rejects, OctetsOf, UintOf, FieldOk;
    verify, psk := 0, None;
    var unused;
    ok, verify, vals := NextUint(cbs, Context(5), LONG_MAX, 0, b, h, before, config);
    if !ok { return; }
    ok, unused, vals := NextAny(cbs, Context(6), b, h, vals, config);
    if !ok { return; }
    ok, psk, vals := NextOctets(cbs, Context(8), b, h, vals, config);
    if ok && psk.Some? && 0 in psk.value {
      BadOctets(h, vals, psk.value, config);
      CheckFails(b, h, vals, cbs.data, config);
      ok := false;
    }
  }

  /** CBS_stow keeps nothing of an empty string. */
  function Stow(x: Option<seq<byte>>): Option<seq<byte>> {
    if x == Some([]) then None else x
  }

  lemma PresentIsSome(v: Option<seq<byte>>)
    ensures OctetsOf(v).Some? ==> (OctetsOf(v).value.Some? <==> v.Some?)
  {
    hide Only;
  }

  /** Fields ticketLifetimeHint and ticket. */
  method ParseTicket(cbs: Cbs, h: Head, config: Config, ghost b: seq<byte>, ghost before: seq<Option<seq<byte>>>)
    returns (ok: bool, hint: nat, ticket: Option<seq<byte>>, ghost vals: seq<Option<seq<byte>>>)
    requires |before| == 5 && Along(b, before, cbs.data)
    modifies cbs
    ensures !ok ==> Rejects(b, h, config)
    ensures ok ==> |vals| == 7 && before == vals[..5] && Along(b, vals, cbs.data)
    ensures ok ==> UintOf(vals[5], U32_MAX, 0) == Some(hint)
    ensures ok ==> OctetsOf(vals[6]).Some? && Stowed(vals[6]) == ticket
  {
    hide GetOptional, Along, Rejects, OctetsOf, UintOf, FieldOk;
    ticket := None;
    ok, hint, vals := NextUint(cbs, Context(9), U32_MAX, 0, b, h, before, config);
    if !ok { return; }
    ok, ticket, vals := NextOctets(cbs, Context(10), b, h, vals, config);
    ticket := Stow(ticket);
  }

  /** Fields peerSHA256 to signedCertTimestampList. */
  method ParseHashes(cbs: Cbs, h: Head, config: Config, ghost b: seq<byte>, ghost before: seq<Option<seq<byte>>>)
    returns (ok: bool, sha256: Option<seq<byte>>, hash: seq<byte>, sct: Option<seq<byte>>, ghost vals: seq<Option<seq<byte>>>)
    requires |before| == 7 && Along(b, before, cbs.data)
    modifies cbs
    ensures !ok ==> Rejects(b, h, config)
    ensures ok ==> |vals| == 10 && before == vals[..7] && Along(b, vals, cbs.data)
    ensures ok ==> OctetsOf(vals[7]) == Some(sha256) && (vals[7].Some? ==> |BytesOf(vals[7])| == SHA256_SIZE)
    ensures ok ==> OctetsOk(vals[8], MAX_MD_SIZE) && BytesOf(vals[8]) == hash && OctetsOf(vals[9]) == Some(sct)
  {
    hide GetOptional, Along, Rejects, OctetsOf, FieldOk;
    sha256, hash, sct := None, [], None;
    ok, sha256, vals := NextOctets(cbs, Context(13), b, h, before, config);
    if !ok { return; }
    if sha256.Some? && |sha256.value| != SHA256_SIZE {
      BadOctets(h, vals, sha256.value, config);
      CheckFails(b, h, vals, cbs.data, config);
      return false, sha256, hash, sct, vals;
    }
    PresentIsSome(vals[7]);
    var x;
    ok, x, vals := NextOctets(cbs, Context(14), b, h, vals, config);
    if !ok { return; }
    if x.Some? && |x.value| > MAX_MD_SIZE {
      BadOctets(h, vals, x.value, config);
      CheckFails(b, h, vals, cbs.data, config);
      return false, sha256, hash, sct, vals;
    }
    hash := if x.Some? then x.value else [];
    ok, sct, vals := NextOctets(cbs, Context(15), b, h, vals, config);
  }

  /** Fields ocspResponse to groupID. */
  method ParseKeyFields(cbs: Cbs, h: Head, config: Config, ghost b: seq<byte>, ghost before: seq<Option<seq<byte>>>)
    returns (ok: bool, ocsp: Option<seq<byte>>, ems: bool, group: nat, ghost vals: seq<Option<seq<byte>>>)
    requires |before| == 10 && Along(b, before, cbs.data)
    modifies cbs
    ensures !ok ==> Rejects(b, h, config)
    ensures ok ==> |vals| == 13 && before == vals[..10] && Along(b, vals, cbs.data)
    ensures ok ==> OctetsOf(vals[10]) == Some(ocsp) && BoolOf(vals[11], false) == Some(ems)
    ensures ok ==> UintOf(vals[12], U16_MAX, 0) == Some(group)
  {
    hide GetOptional, Along, Rejects, OctetsOf, UintOf, BoolOf, FieldOk;
    ocsp, ems, group := None, false, 0;
    ok, ocsp, vals := NextOctets(cbs, Context(16), b, h, before, config);
    if !ok { return; }
    ok, ems, vals := NextBool(cbs, Context(17), false, b, h, vals, config);
    if !ok { return; }
    ok, group, vals := NextUint(cbs, Context(18), U16_MAX, 0, b, h, vals, config);
  }

  /** Field certChain, with the peer certificate read before. */
  method ParseCerts(cbs: Cbs, h: Head, config: Config, peer: Option<seq<byte>>, ghost b: seq<byte>, ghost before: seq<Option<seq<byte>>>)
    returns (ok: bool, certs: seq<seq<byte>>, ghost vals: seq<Option<seq<byte>>>)
    requires |before| == 13 && Along(b, before, cbs.data) && before[0] == peer && peer != Some([])
    modifies cbs
    ensures !ok ==> Rejects(b, h, config)
    ensures ok ==> |vals| == 14 && before == vals[..13] && Along(b, vals, cbs.data)
    ensures ok ==> CertsOf(vals[0], vals[13]) == Some(certs) && config.takesCerts(certs)
  {
    hide GetOptional, Along, Rejects, Elements, FieldOk;
    certs := [];
    var chain;
    ok, chain, vals := NextAny(cbs, Context(19), b, h, before, config);
    if !ok { return; }
    var bad := chain == Some([]) || (chain.Some? && peer.None?);
    if !bad && peer.Some? {
      var read, rest := ParseChain(if chain.Some? then chain.value else []);
      certs := [peer.value] + rest;
      bad := !read;
    }
    bad := bad || !config.takesCerts(certs);
    if bad {
      BadCerts(h, vals, config);
      CheckFails(b, h, vals, cbs.data, config);
      ok := false;
    }
  }

  lemma BadCerts(h: Head, vals: seq<Option<seq<byte>>>, config: Config)
    requires |vals| == 14
    requires var certs := CertsOf(vals[0], vals[13]); certs.None? || !config.takesCerts(certs.value)
    ensures !FieldOk(h, vals, config)
  {
    hide CertsOf;
  }

  /** Fields ticketAgeAdd to peerSignatureAlgorithm. */
  method ParseRole(cbs: Cbs, h: Head, config: Config, ghost b: seq<byte>, ghost before: seq<Option<seq<byte>>>)
    returns (ok: bool, ageAdd: Option<nat>, isServer: bool, algorithm: nat, ghost vals: seq<Option<seq<byte>>>)
    requires |before| == 14 && Along(b, before, cbs.data)
    modifies cbs
    ensures !ok ==> Rejects(b, h, config)
    ensures ok ==> |vals| == 17 && before == vals[..14] && Along(b, vals, cbs.data)
    ensures ok ==> AgeAddOf(vals[14]) == Some(ageAdd) && BoolOf(vals[15], true) == Some(isServer)
    ensures ok ==> UintOf(vals[16], U16_MAX, 0) == Some(algorithm)
  {
    hide GetOptional, Along, Rejects, OctetsOf, UintOf, BoolOf, FieldOk;
    ageAdd, isServer, algorithm := None, true, 0;
    var x;
    ok, x, vals := NextOctets(cbs, Context(21), b, h, before, config);
    if !ok { return; }
    if x.Some? {
      if |x.value| != 4 {
        BadAge(h, vals, config);
        CheckFails(b, h, vals, cbs.data, config);
        return false, ageAdd, isServer, algorithm, vals;
      }
      var n := Number(x.value);
      ageAdd := Some(n);
    }
    ok, isServer, vals := NextBool(cbs, Context(22), true, b, h, vals, config);
    if !ok { return; }
    ok, algorithm, vals := NextUint(cbs, Context(23), U16_MAX, 0, b, h, vals, config);
  }

  lemma BadAge(h: Head, vals: seq<Option<seq<byte>>>, config: Config)
    requires |vals| == 15 && AgeAddOf(vals[14]).None?
    ensures !FieldOk(h, vals, config)
  {
    hide AgeAddOf;
  }

  /** Fields ticketMaxEarlyData to earlyALPN, and the end of the sequence. */
  method ParseLimits(cbs: Cbs, h: Head, config: Config, ghost b: seq<byte>, ghost before: seq<Option<seq<byte>>>)
    returns (ok: bool, maxEarlyData: nat, authTimeout: nat, alpn: Option<seq<byte>>, ghost vals: seq<Option<seq<byte>>>)
    requires |before| == 17 && Along(b, before, cbs.data)
    modifies cbs
    ensures !ok ==> Rejects(b, h, config)
    ensures ok ==> |vals| == 20 && before == vals[..17] && Split(b, FIELD_TAGS) == Some(vals)
    ensures ok ==>
              UintOf(vals[17], U32_MAX, 0) == Some(maxEarlyData) && UintOf(vals[18], U32_MAX, h.timeout) == Some(authTimeout)
    ensures ok ==> OctetsOf(vals[19]).Some? && Stowed(vals[19]) == alpn
  {
    hide GetOptional, Along, Rejects, OctetsOf, UintOf, FieldOk, Split;
    maxEarlyData, authTimeout, alpn := 0, 0, None;
    ok, maxEarlyData, vals := NextUint(cbs, Context(24), U32_MAX, 0, b, h, before, config);
    if !ok { return; }
    ok, authTimeout, vals := NextUint(cbs, Context(25), U32_MAX, h.timeout, b, h, vals, config);
    if !ok { return; }
    ok, alpn, vals := NextOctets(cbs, Context(26), b, h, vals, config);
    if !ok { return; }
    AtTheEnd(b, h, vals, cbs.data, config);
    alpn := Stow(alpn);
    ok := cbs.data == [];
  }

  /** After the last field nothing may follow. */
  lemma AtTheEnd(b: seq<byte>, h: Head, vals: seq<Option<seq<byte>>>, rest: seq<byte>, config: Config)
    requires Along(b, vals, rest) && |vals| == 20
    ensures rest == [] ==> Split(b, FIELD_TAGS) == Some(vals)
    ensures rest != [] ==> Rejects(b, h, config)
  {
    assert FIELD_TAGS[20..] == [] && vals + [] == vals;
  }

  /** The optional fields, in order. */
  method ParseFields(cbs: Cbs, h: Head, config: Config) returns (r: Option<Session>)
    modifies cbs
    ensures r == Outcome(old(cbs.data), h, config)
  {
    hide GetOptional, Along, OctetsOf, OctetsOk, BytesOf, Stowed, UintOf, BoolOf, AgeAddOf, CertsOf, Split,
         PeerRead, Outcome;
    ghost var b := cbs.data;
    var ok, p;
    ghost var vals;
    ok, p, vals := ParsePeer(cbs, h, config);
    if !ok { return None; }
    ghost var first := vals;
    PeerFacts(p, first);
    var hint, ticket;
    ghost var before := vals;
    ok, hint, ticket, vals := ParseTicket(cbs, h, config, b, vals);
    if !ok { return None; }
    StillFirst(first, before, vals);
    var sha256, hash, sct;
    before := vals;
    ok, sha256, hash, sct, vals := ParseHashes(cbs, h, config, b, vals);
    if !ok { return None; }
    StillFirst(first, before, vals);
    var ocsp, ems, group;
    before := vals;
    ok, ocsp, ems, group, vals := ParseKeyFields(cbs, h, config, b, vals);
    if !ok { return None; }
    StillFirst(first, before, vals);
    var certs;
    before := vals;
    ok, certs, vals := ParseCerts(cbs, h, config, p.cert, b, vals);
    if !ok { return None; }
    StillFirst(first, before, vals);
    var ageAdd, isServer, algorithm;
    before := vals;
    ok, ageAdd, isServer, algorithm, vals := ParseRole(cbs, h, config, b, vals);
    if !ok { return None; }
    StillFirst(first, before, vals);
    var maxEarlyData, authTimeout, alpn;
    before := vals;
    ok, maxEarlyData, authTimeout, alpn, vals := ParseLimits(cbs, h, config, b, vals);
    if !ok { return None; }
    StillFirst(first, before, vals);
    SameFields(first, vals);
    r := Some(Session(h, certs, p.sidCtx, p.verify, p.psk, hint, ticket, sha256, hash, sct, ocsp, ems, group,
                      ageAdd, isServer, algorithm, maxEarlyData, authTimeout, alpn));
    Assembled(b, h, vals, config, r.value);
  }

  /** A session whose fields are what the values say is the outcome. */
  lemma Assembled(b: seq<byte>, h: Head, v: Values, config: Config, s: Session)
    requires Split(b, FIELD_TAGS) == Some(v) && s.head == h
    requires CertsOf(v[0], v[13]) == Some(s.certs) && config.takesCerts(s.certs)
    requires OctetsOk(v[1], MAX_SID_CTX) && s.sidCtx == BytesOf(v[1])
    requires UintOf(v[2], LONG_MAX, 0).Some? && UintOf(v[2], LONG_MAX, 0).value == s.verifyResult
    requires OctetsOf(v[4]) == Some(s.pskIdentity) && 0 !in BytesOf(v[4])
    requires UintOf(v[5], U32_MAX, 0) == Some(s.ticketHint)
    requires OctetsOf(v[6]).Some? && Stowed(v[6]) == s.ticket
    requires OctetsOf(v[7]) == Some(s.peerSha256) && (v[7].Some? ==> |BytesOf(v[7])| == SHA256_SIZE)
    requires OctetsOk(v[8], MAX_MD_SIZE) && BytesOf(v[8]) == s.handshakeHash
    requires OctetsOf(v[9]) == Some(s.sctList) && OctetsOf(v[10]) == Some(s.ocspResponse)
    requires BoolOf(v[11], false) == Some(s.extendedMasterSecret) && UintOf(v[12], U16_MAX, 0) == Some(s.groupId)
    requires AgeAddOf(v[14]) == Some(s.ticketAgeAdd) && BoolOf(v[15], true) == Some(s.isServer)
    requires UintOf(v[16], U16_MAX, 0) == Some(s.peerSignatureAlgorithm) && UintOf(v[17], U32_MAX, 0) == Some(s.maxEarlyData)
    requires UintOf(v[18], U32_MAX, h.timeout) == Some(s.authTimeout)
    requires OctetsOf(v[19]).Some? && Stowed(v[19]) == s.earlyAlpn
    ensures Outcome(b, h, config) == Some(s)
  {
    hide OctetsOf, BytesOf, Stowed, UintOf, BoolOf, AgeAddOf, CertsOf, Split;
  }

  lemma StillFirst(first: seq<Option<seq<byte>>>, before: seq<Option<seq<byte>>>, vals: seq<Option<seq<byte>>>)
    requires 5 <= |before| <= |vals| && before == vals[..|before|] && first == before[..5]
    ensures first == vals[..5]
  {
  }

  lemma SameFields(first: seq<Option<seq<byte>>>, vals: seq<Option<seq<byte>>>)
    requires |first| == 5 && |vals| == 20 && first == vals[..5]
    ensures first[0] == vals[0] && first[1] == vals[1] && first[2] == vals[2] && first[4] == vals[4]
  {
  }

  lemma PeerFacts(p: Peer, vals: seq<Option<seq<byte>>>)
    requires PeerRead(p, vals)
    ensures |vals| >= 5 && p.cert == vals[0] && p.cert != Some([])
    ensures OctetsOk(vals[1], MAX_SID_CTX) && p.sidCtx == BytesOf(vals[1]) && UintOf(vals[2], LONG_MAX, 0) == Some(p.verify)
    ensures OctetsOf(vals[4]) == Some(p.psk) && 0 !in BytesOf(vals[4])
  {
  }

  /** SSL_SESSION_parse and SSL_SESSION_from_bytes */
  method Deserialize(data: seq<byte>, config: Config) returns (r: Option<Session>)
    ensures r == FromBytes(data, config)
  {
    hide GetAsn1, GetHead, Split, Interpret;
    var cbs := new Cbs(data);
    var ok, body := cbs.GetTagged(SEQUENCE);
    if !ok {
      return None;
    }
    var session := new Cbs(body);
    var h;
    ok, h := ParseHead(session, config.ciphers);
    if !ok {
      return None;
    }
    SplitLength(session.data, FIELD_TAGS);
    r := ParseFields(session, h, config);
    if cbs.data != [] {
      return None;
    }
  }
}
