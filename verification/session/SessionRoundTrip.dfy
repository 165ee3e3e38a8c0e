/** SSL_SESSION_from_bytes of SSL_SESSION_to_bytes. */
module SessionRoundTrip {
  import opened Bits
  import opened Bytes
  import opened Der
  import opened Session

  // ---------------------------------------------------------------- certificates as DER elements

  /** The bytes are one DER element and nothing more. */
  predicate SingleElement(b: seq<byte>) {
    GetElement(b).Some? && GetElement(b).value.rest == []
  }

  lemma {:induction false} Base128Local(b: seq<byte>, v: nat, t: seq<byte>)
    requires Base128(b, v).Some?
    ensures Base128(b + t, v) == Some((Base128(b, v).value.0, Base128(b, v).value.1 + t))
    decreases |b|
  {
    var w := 0x80 * v + b[0] % 0x80;
    assert (b + t)[1..] == b[1..] + t;
    if b[0] >= 0x80 { Base128Local(b[1..], w, t); }
  }

  lemma TagLocal(b: seq<byte>, t: seq<byte>)
    requires ParseTag(b).Some?
    ensures ParseTag(b + t) == Some((ParseTag(b).value.0, ParseTag(b).value.1 + t))
  {
    hide Base128;
    assert (b + t)[1..] == b[1..] + t;
    if b[0] % 0x20 == 0x1F { Base128Local(b[1..], 0, t); }
  }

  /** Reading an element does not depend on what follows it. */
  lemma ElementLocal(b: seq<byte>, t: seq<byte>)
    requires GetElement(b).Some?
    ensures GetElement(b + t) == Some(GetElement(b).value.(rest := GetElement(b).value.rest + t))
  {
    hide ParseTag, BigEndian, Shl;
    TagLocal(b, t);
    var r1 := ParseTag(b).value.1;
    var start := |b| - |r1| + 1;
    if r1[0] < 0x80 {
      CutLocal(b, t, ParseTag(b).value.0, start, r1[0]);
    } else {
      var n := r1[0] - 0x80;
      assert (r1 + t)[1..1 + n] == r1[1..1 + n];
      CutLocal(b, t, ParseTag(b).value.0, start + n, BigEndian(r1[1..1 + n]));
    }
  }

  lemma CutLocal(b: seq<byte>, t: seq<byte>, tag: Tag, start: nat, len: nat)
    requires 0 < start && start + len <= |b|
    ensures CutElement(b + t, tag, start, len) == Some(CutElement(b, tag, start, len).value.(rest := b[start + len..] + t))
    ensures CutElement(b, tag, start, len).value.rest == b[start + len..]
  {
    assert (b + t)[start..start + len] == b[start..start + len];
    assert (b + t)[..start + len] == b[..start + len];
    assert (b + t)[start + len..] == b[start + len..] + t;
  }

  lemma {:induction false} Base128Prefix(b: seq<byte>, v: nat, m: nat)
    requires Base128(b, v).Some? && |b| - |Base128(b, v).value.1| <= m <= |b|
    ensures Base128(b[..m], v) == Some((Base128(b, v).value.0, b[..m][|b| - |Base128(b, v).value.1|..]))
    decreases |b|
  {
    var w := 0x80 * v + b[0] % 0x80;
    assert b[..m][1..] == b[1..][..m - 1];
    if b[0] >= 0x80 {
      Base128Prefix(b[1..], w, m - 1);
      var k := |b| - |Base128(b, v).value.1|;
      assert b[1..][..m - 1][k - 1..] == b[..m][k..];
    }
  }

  lemma TagPrefix(b: seq<byte>, m: nat)
    requires ParseTag(b).Some? && |b| - |ParseTag(b).value.1| <= m <= |b|
    ensures ParseTag(b[..m]) == Some((ParseTag(b).value.0, b[..m][|b| - |ParseTag(b).value.1|..]))
    ensures ParseTag(b).value.1 == b[|b| - |ParseTag(b).value.1|..]
  {
    assert b[..m][1..] == b[1..][..m - 1];
    var k := |b| - |ParseTag(b).value.1|;
    if b[0] % 0x20 == 0x1F {
      Base128Prefix(b[1..], 0, m - 1);
      Base128Suffix(b[1..], 0);
      assert b[1..][..m - 1][k - 1..] == b[..m][k..];
    }
  }

  lemma {:induction false} Base128Suffix(b: seq<byte>, v: nat)
    requires Base128(b, v).Some?
    ensures Base128(b, v).value.1 == b[|b| - |Base128(b, v).value.1|..]
    decreases |b|
  {
    var w := 0x80 * v + b[0] % 0x80;
    if b[0] >= 0x80 { Base128Suffix(b[1..], w); }
  }

  lemma PartOfPart(b: seq<byte>, k: nat, m: nat, n: nat)
    requires k + 1 + n <= m <= |b|
    ensures b[k..m][1..1 + n] == b[k + 1..k + 1 + n]
  {
    var c := b[k..m];
    assert |c| == m - k && forall i :: 0 <= i < |c| ==> c[i] == b[k + i];
  }

  /** The bytes of an element that was read are a single element. */
  lemma WholeIsSingle(b: seq<byte>)
    requires GetElement(b).Some?
    ensures SingleElement(GetElement(b).value.whole)
  {
    hide ParseTag, BigEndian, Shl;
    var e := GetElement(b).value;
    var m := |e.whole|;
    assert e.whole == b[..m];
    TagPrefix(b, m);
    var r1 := ParseTag(b).value.1;
    var k := |b| - |r1|;
    var w1 := b[..m][k..];
    assert r1 == b[k..] && w1 == b[k..m] && k < m;
    assert w1[0] == r1[0];
    assert ParseTag(e.whole) == Some((ParseTag(b).value.0, w1)) && |e.whole| - |w1| == k;
    if r1[0] >= 0x80 {
      var n := r1[0] - 0x80;
      assert k + 1 + n <= m;
      PartOfPart(b, k, m, n);
      PartOfPart(b, k, |b|, n);
      assert b[k..|b|] == r1 && w1[1..1 + n] == r1[1..1 + n];
    }
  }

  lemma {:induction false} ElementsOfSingles(certs: seq<seq<byte>>)
    requires forall c :: c in certs ==> SingleElement(c)
    ensures Elements(Joined(certs)) == Some(certs)
  {
    hide GetElement;
    if certs != [] {
      var c := certs[0];
      assert c in certs;
      ElementsOfSingles(certs[1..]);
      ElementLocal(c, Joined(certs[1..]));
      SingleWhole(c);
      assert [] + Joined(certs[1..]) == Joined(certs[1..]) && [c] + certs[1..] == certs;
    }
  }

  lemma SingleWhole(c: seq<byte>)
    requires SingleElement(c)
    ensures GetElement(c).value.whole == c && c != []
  {
    assert GetElement(c).value.whole + [] == c;
  }

  lemma {:induction false} ElementsAreSingles(b: seq<byte>)
    requires Elements(b).Some?
    ensures forall c :: c in Elements(b).value ==> SingleElement(c)
    decreases |b|
  {
    hide GetElement;
    if b != [] {
      WholeIsSingle(b);
      ElementsAreSingles(GetElement(b).value.rest);
    }
  }

  // ---------------------------------------------------------------- single fields

  lemma OctetsRead(x: seq<byte>)
    requires |EncOctets(x)| <= MAX_CONTENTS
    ensures OctetsOf(Some(EncOctets(x))) == Some(Some(x)) && BytesOf(Some(EncOctets(x))) == x
  {
    hide GetAsn1, Tlv;
    TlvReads(OCTET_STRING, x, []);
    assert EncOctets(x) + [] == EncOctets(x);
  }

  lemma UintRead(n: nat, max: nat, absent: nat)
    requires n < TWO_64
    ensures UintOf(Some(EncUint(n)), max, absent) == if n <= max then Some(n) else None
  {
    hide EncUint, GetUint;
    UintReads(n, []);
    assert EncUint(n) + [] == EncUint(n);
  }

  lemma BoolRead(v: bool, absent: bool)
    ensures BoolOf(Some(EncBool(v)), absent) == Some(v)
  {
    hide GetAsn1, Tlv;
    TlvReads(BOOLEAN, [if v then 0xFF else 0], []);
    assert EncBool(v) + [] == EncBool(v);
  }

  lemma U32Read(n: nat)
    requires n <= U32_MAX
    ensures BigEndian(U32Bytes(n)) == n && |U32Bytes(n)| == 4
  {
    hide BigEndian;
    NumberOf(U32Bytes(n));
  }

  lemma U16Read(n: nat)
    requires n <= U16_MAX
    ensures BigEndian(U16Bytes(n)) == n
  {
    hide BigEndian;
    NumberOf(U16Bytes(n));
  }

  lemma ShortOctets(x: seq<byte>)
    requires |x| <= 64
    ensures |EncOctets(x)| <= MAX_CONTENTS
  {
  }

  lemma {:induction false} FlatLonger(ps: seq<Piece>, i: nat)
    requires i < |ps| && ps[i].contents.Some?
    ensures |ps[i].contents.value| <= |Flat(ps)|
    decreases |ps|
  {
    hide Tlv;
    if i > 0 { FlatLonger(ps[1..], i - 1); }
  }

  // ---------------------------------------------------------------- the head

  lemma TimesRead(time: nat, timeout: nat, t: seq<byte>)
    requires time < TWO_64 && timeout <= U32_MAX
    ensures GetTimes(Tlv(Context(1), EncUint(time)) + Tlv(Context(2), EncUint(timeout)) + t) == Got((time, timeout), t)
  {
    hide Tlv, GetAsn1, GetUint, EncUint, Context;
    var c1, c2 := EncUint(time), EncUint(timeout);
    ShortUint(time);
    ShortUint(timeout);
    UintReads(time, []);
    UintReads(timeout, []);
    assert c1 + [] == c1 && c2 + [] == c2;
    TlvReads(Context(1), c1, Tlv(Context(2), c2) + t);
    TlvReads(Context(2), c2, t);
    assert Tlv(Context(1), c1) + Tlv(Context(2), c2) + t == Tlv(Context(1), c1) + (Tlv(Context(2), c2) + t);
  }

  lemma ShortUint(n: nat)
    requires n < TWO_64
    ensures |EncUint(n)| <= 20
  {
    MinimalShort(n);
  }

  /** The head as it was written, if the version and the cipher are known; otherwise an error. */
  lemma HeadReads(h: Head, forTicket: bool, t: seq<byte>, ciphers: set<nat>)
    requires h.sslVersion <= U16_MAX && h.cipher <= U16_MAX && h.time < TWO_64 && h.timeout <= U32_MAX
    requires |h.sessionId| <= MAX_SESSION_ID && |h.masterKey| <= MAX_MASTER_KEY
    ensures GetHead(HeadBytes(h, forTicket) + t, ciphers) ==
              if KnownVersion(h.sslVersion) && h.cipher in ciphers
              then Got(h.(sessionId := if forTicket then [] else h.sessionId), t) else Fail
  {
    hide Tlv, GetAsn1, GetUint, EncUint, GetTimes, KnownVersion, U16Bytes, Context;
    var id := if forTicket then [] else h.sessionId;
    var times := Tlv(Context(1), EncUint(h.time)) + Tlv(Context(2), EncUint(h.timeout)) + t;
    var b5 := EncOctets(h.masterKey) + times;
    var b4 := EncOctets(id) + b5;
    var b3 := EncOctets(U16Bytes(h.cipher)) + b4;
    var b2 := EncUint(h.sslVersion) + b3;
    assert HeadBytes(h, forTicket) + t == EncUint(1) + b2;
    UintReads(1, b2);
    UintReads(h.sslVersion, b3);
    CipherSize(h.cipher);
    TlvReads(OCTET_STRING, U16Bytes(h.cipher), b4);
    TlvReads(OCTET_STRING, id, b5);
    TlvReads(OCTET_STRING, h.masterKey, times);
    TimesRead(h.time, h.timeout, t);
    U16Read(h.cipher);
  }

  lemma CipherSize(c: nat)
    ensures |U16Bytes(c)| == 2
  {
  }

  // ---------------------------------------------------------------- the round trip

  /** What a session becomes: certificates give way to their hash, empty buffers to null pointers. */
  function Normal(s: Session, forTicket: bool): Session {
    s.(head := s.head.(sessionId := if forTicket then [] else s.head.sessionId),
       certs := if s.peerSha256.Some? then [] else s.certs,
       ticket := if forTicket || s.ticket == Some([]) then None else s.ticket,
       earlyAlpn := if s.earlyAlpn == Some([]) then None else s.earlyAlpn)
  }

  /** The certificates survive: the first is not empty, the others are single DER elements, all are accepted. */
  predicate CertsSurvive(s: Session, config: Config) {
    if s.peerSha256.Some? || s.certs == [] then config.takesCerts([])
    else s.certs[0] != [] && (forall c :: c in s.certs[1..] ==> SingleElement(c)) && config.takesCerts(s.certs)
  }

  /** A session that a caller can expect back. */
  predicate Restorable(s: Session, config: Config) {
    KnownVersion(s.head.sslVersion) && s.head.cipher in config.ciphers && s.verifyResult >= 0 && CertsSurvive(s, config)
  }

  lemma PiecesAscend(s: Session, forTicket: bool)
    requires InRange(s) && |Flat(Pieces(s, forTicket))| <= MAX_CONTENTS
    ensures Ascending(Pieces(s, forTicket)) && Tags(Pieces(s, forTicket)) == FIELD_TAGS
  {
    hide Flat, PeerPieces, StatePieces;
    var ps := Pieces(s, forTicket);
    TagsInOrder(s, forTicket);
    forall i | 0 <= i < |ps| ensures PieceOk(ps[i]) {
      if ps[i].contents.Some? { FlatLonger(ps, i); }
    }
  }

  lemma TagsInOrder(s: Session, forTicket: bool)
    requires InRange(s)
    ensures Tags(Pieces(s, forTicket)) == FIELD_TAGS
    ensures forall i :: 0 <= i < 20 ==> Pieces(s, forTicket)[i].tag == FIELD_TAGS[i]
    ensures forall i, j :: 0 <= i < j < 20 ==> FIELD_TAGS[i] < FIELD_TAGS[j]
    ensures forall i :: 0 <= i < 20 ==> FIELD_TAGS[i] % 0x20 != 0x1F
  {
    hide EncUint, EncOctets, EncBool, AsUnsigned, Joined, Octets, When, InRange, PeerPieces, StatePieces;
    PeerTags(s, forTicket);
    StateTags(s);
  }

  lemma PeerTags(s: Session, forTicket: bool)
    requires InRange(s)
    ensures forall i :: 0 <= i < 10 ==> PeerPieces(s, forTicket)[i].tag == FIELD_TAGS[i]
  {
    hide EncUint, EncOctets, EncBool, AsUnsigned, Joined, Octets, When, InRange;
  }

  lemma StateTags(s: Session)
    requires InRange(s)
    ensures forall i :: 0 <= i < 10 ==> StatePieces(s)[i].tag == FIELD_TAGS[10 + i]
  {
    hide EncUint, EncOctets, EncBool, AsUnsigned, Joined, Octets, When, InRange;
  }

  /** The certificates read from their two fields. */
  lemma CertsRead(s: Session, config: Config, forTicket: bool)
    requires InRange(s)
    ensures var v := Contents(Pieces(s, forTicket));
            var certs := CertsOf(v[0], v[13]);
            && (s.peerSha256.Some? || s.certs == [] ==> v[0].None? && certs == Some([]))
            && (s.peerSha256.None? && s.certs != [] ==>
                  && v[0].Some?
                  && (s.certs[0] != [] && (forall c :: c in s.certs[1..] ==> SingleElement(c)) <==> certs == Some(s.certs)))
  {
    hide Elements, SingleElement, EncUint, EncOctets, EncBool, AsUnsigned;
    if s.peerSha256.None? && s.certs != [] {
      var rest := s.certs[1..];
      assert s.certs == [s.certs[0]] + rest;
      if forall c :: c in rest ==> SingleElement(c) {
        ElementsOfSingles(rest);
        if rest != [] { JoinedNonEmpty(rest); }
      }
      ChainRead(s, config, forTicket, rest);
    }
  }

  lemma JoinedNonEmpty(certs: seq<seq<byte>>)
    requires certs != [] && forall c :: c in certs ==> SingleElement(c)
    ensures Joined(certs) != []
  {
    hide GetElement;
    assert certs[0] in certs;
    SingleWhole(certs[0]);
  }

  lemma ChainRead(s: Session, config: Config, forTicket: bool, rest: seq<seq<byte>>)
    requires InRange(s) && s.peerSha256.None? && s.certs != [] && rest == s.certs[1..]
    ensures var v := Contents(Pieces(s, forTicket));
            CertsOf(v[0], v[13]) == Some(s.certs) ==> s.certs[0] != [] && forall c :: c in rest ==> SingleElement(c)
  {
    hide Elements, SingleElement, EncUint, EncOctets, EncBool, AsUnsigned;
    var v := Contents(Pieces(s, forTicket));
    if CertsOf(v[0], v[13]) == Some(s.certs) {
      var chain := if v[13].Some? then v[13].value else [];
      ElementsAreSingles(chain);
      assert Elements(chain).value == rest by {
        assert ([s.certs[0]] + Elements(chain).value)[1..] == Elements(chain).value;
      }
    }
  }

  lemma WhenUint(n: nat, max: nat, present: bool, absent: nat)
    requires n <= max < TWO_64
    ensures UintOf(When(present, EncUint(n)), max, absent) == Some(if present then n else absent)
  {
    hide EncUint, GetUint, UintOf;
    if present { UintRead(n, max, absent); } else { AbsentUint(max, absent); }
  }

  lemma AbsentUint(max: nat, absent: nat)
    ensures UintOf(None, max, absent) == Some(absent)
  {
  }

  lemma WhenBool(present: bool, v: bool, absent: bool)
    ensures BoolOf(When(present, EncBool(v)), absent) == Some(if present then v else absent)
  {
    hide EncBool, Only;
    if present { BoolRead(v, absent); }
  }

  lemma OctetsBack(x: Option<seq<byte>>)
    requires x.Some? ==> |EncOctets(x.value)| <= MAX_CONTENTS
    ensures OctetsOf(Octets(x)) == Some(x)
    ensures BytesOf(Octets(x)) == if x.Some? then x.value else []
  {
    hide EncOctets, Only;
    if x.Some? { OctetsRead(x.value); }
  }

  lemma WhenOctets(present: bool, x: seq<byte>)
    requires |x| <= 64
    ensures OctetsOf(When(present, EncOctets(x))) == Some(When(present, x))
    ensures BytesOf(When(present, EncOctets(x))) == if present then x else []
  {
    hide EncOctets, Only;
    ShortOctets(x);
    if present { OctetsRead(x); }
  }

  lemma AgeAddBack(x: Option<nat>)
    requires x.Some? ==> x.value <= U32_MAX
    ensures AgeAddOf(When(x.Some?, EncOctets(U32Bytes(if x.Some? then x.value else 0)))) == Some(x)
  {
    hide EncOctets, U32Bytes, BigEndian, OctetsOf;
    U32Read(0);
    if x.Some? { U32Read(x.value); }
    WhenOctets(x.Some?, U32Bytes(if x.Some? then x.value else 0));
  }

  /** Field `i` of the session, as long as the serialization fits. */
  lemma PieceFits(s: Session, forTicket: bool, i: nat)
    requires InRange(s) && |Flat(Pieces(s, forTicket))| <= MAX_CONTENTS && i < 20
    ensures var c := Pieces(s, forTicket)[i].contents; c.Some? ==> |c.value| <= MAX_CONTENTS
  {
    hide Flat, Pieces;
    if Pieces(s, forTicket)[i].contents.Some? { FlatLonger(Pieces(s, forTicket), i); }
  }

  /** The contents of the first ten fields, by position. */
  lemma PeerSlots(s: Session, forTicket: bool)
    requires InRange(s)
    ensures var v := Contents(Pieces(s, forTicket));
            && v[1] == When(true, EncOctets(s.sidCtx))
            && v[2] == When(s.verifyResult != 0, EncUint(AsUnsigned(s.verifyResult)))
            && v[4] == Octets(s.pskIdentity)
            && v[5] == When(s.ticketHint > 0, EncUint(s.ticketHint))
            && v[6] == (if forTicket then None else Octets(s.ticket))
            && v[7] == Octets(s.peerSha256)
            && v[8] == When(s.handshakeHash != [], EncOctets(s.handshakeHash))
            && v[9] == Octets(s.sctList)
  {
    hide EncUint, EncOctets, AsUnsigned, Octets, Context, InRange, StatePieces;
    var ps := PeerPieces(s, forTicket);
    forall i | 0 <= i < 10 ensures Contents(Pieces(s, forTicket))[i] == ps[i].contents {
      assert Pieces(s, forTicket)[i] == ps[i];
    }
  }

  /** The contents of the last ten fields, by position. */
  lemma StateSlots(s: Session, forTicket: bool)
    requires InRange(s)
    ensures var v := Contents(Pieces(s, forTicket));
            && v[10] == Octets(s.ocspResponse)
            && v[11] == When(s.extendedMasterSecret, EncBool(true))
            && v[12] == When(s.groupId > 0, EncUint(s.groupId))
            && v[14] == When(s.ticketAgeAdd.Some?, EncOctets(U32Bytes(if s.ticketAgeAdd.Some? then s.ticketAgeAdd.value else 0)))
            && v[15] == When(!s.isServer, EncBool(false))
            && v[16] == When(s.peerSignatureAlgorithm != 0, EncUint(s.peerSignatureAlgorithm))
            && v[17] == When(s.maxEarlyData != 0, EncUint(s.maxEarlyData))
            && v[18] == When(s.head.timeout != s.authTimeout, EncUint(s.authTimeout))
            && v[19] == Octets(s.earlyAlpn)
  {
    hide EncUint, EncOctets, EncBool, Joined, Octets, U32Bytes, When, Context, InRange, PeerPieces;
    var ps := StatePieces(s);
    forall i | 0 <= i < 10 ensures Contents(Pieces(s, forTicket))[10 + i] == ps[i].contents {
      assert Pieces(s, forTicket)[10 + i] == ps[i];
    }
  }

  lemma OctetsFit(s: Session, forTicket: bool)
    requires InRange(s) && |Flat(Pieces(s, forTicket))| <= MAX_CONTENTS
    ensures s.pskIdentity.Some? ==> |EncOctets(s.pskIdentity.value)| <= MAX_CONTENTS
    ensures s.ticket.Some? && !forTicket ==> |EncOctets(s.ticket.value)| <= MAX_CONTENTS
    ensures s.peerSha256.Some? ==> |EncOctets(s.peerSha256.value)| <= MAX_CONTENTS
    ensures s.sctList.Some? ==> |EncOctets(s.sctList.value)| <= MAX_CONTENTS
    ensures s.ocspResponse.Some? ==> |EncOctets(s.ocspResponse.value)| <= MAX_CONTENTS
    ensures s.earlyAlpn.Some? ==> |EncOctets(s.earlyAlpn.value)| <= MAX_CONTENTS
  {
    hide Flat, EncOctets, Pieces, Tlv;
    PeerSlots(s, forTicket);
    StateSlots(s, forTicket);
    PieceFits(s, forTicket, 4); PieceFits(s, forTicket, 6); PieceFits(s, forTicket, 7);
    PieceFits(s, forTicket, 9); PieceFits(s, forTicket, 10); PieceFits(s, forTicket, 19);
  }

  /** The byte strings come back. */
  lemma StringsRead(s: Session, forTicket: bool)
    requires InRange(s) && |Flat(Pieces(s, forTicket))| <= MAX_CONTENTS
    ensures var v := Contents(Pieces(s, forTicket));
            && OctetsOf(v[1]) == Some(Some(s.sidCtx)) && BytesOf(v[1]) == s.sidCtx
            && OctetsOf(v[4]) == Some(s.pskIdentity)
                    && BytesOf(v[4]) == (if s.pskIdentity.Some? then s.pskIdentity.value else [])
            && OctetsOf(v[6]).Some? && Stowed(v[6]) == Normal(s, forTicket).ticket
            && OctetsOf(v[7]) == Some(s.peerSha256) && (v[7].Some? ==> |BytesOf(v[7])| == SHA256_SIZE)
            && OctetsOk(v[8], MAX_MD_SIZE) && BytesOf(v[8]) == s.handshakeHash
            && OctetsOf(v[9]) == Some(s.sctList) && OctetsOf(v[10]) == Some(s.ocspResponse)
            && OctetsOf(v[19]).Some? && Stowed(v[19]) == Normal(s, forTicket).earlyAlpn
  {
    hide Flat, EncUint, EncOctets, EncBool, Pieces, Contents, Only, OctetsOf, BytesOf, Stowed, Octets, InRange;
    PeerStringsRead(s, forTicket);
    PeerSlots(s, forTicket);
    StateSlots(s, forTicket);
    OctetsFit(s, forTicket);
    OctetsBack(s.sctList);
    OctetsBack(s.ocspResponse);
    StowedBack(s.earlyAlpn);
  }

  lemma PeerStringsRead(s: Session, forTicket: bool)
    requires InRange(s) && |Flat(Pieces(s, forTicket))| <= MAX_CONTENTS
    ensures var v := Contents(Pieces(s, forTicket));
            && OctetsOf(v[4]) == Some(s.pskIdentity)
                    && BytesOf(v[4]) == (if s.pskIdentity.Some? then s.pskIdentity.value else [])
            && OctetsOf(v[6]).Some? && Stowed(v[6]) == Normal(s, forTicket).ticket
            && OctetsOf(v[7]) == Some(s.peerSha256) && (v[7].Some? ==> |BytesOf(v[7])| == SHA256_SIZE)
            && OctetsOf(v[1]) == Some(Some(s.sidCtx)) && BytesOf(v[1]) == s.sidCtx
            && OctetsOk(v[8], MAX_MD_SIZE) && BytesOf(v[8]) == s.handshakeHash
  {
    hide Flat, Pieces, Contents, OctetsOf, OctetsOk, BytesOf, Stowed, InRange;
    BoundedRead(s, forTicket);
    IdentityRead(s, forTicket);
    TicketRead(s, forTicket);
  }

  lemma IdentityRead(s: Session, forTicket: bool)
    requires InRange(s) && |Flat(Pieces(s, forTicket))| <= MAX_CONTENTS
    ensures var v := Contents(Pieces(s, forTicket));
            && OctetsOf(v[4]) == Some(s.pskIdentity)
                    && BytesOf(v[4]) == (if s.pskIdentity.Some? then s.pskIdentity.value else [])
            && OctetsOf(v[7]) == Some(s.peerSha256) && (v[7].Some? ==> |BytesOf(v[7])| == SHA256_SIZE)
  {
    hide Flat, EncUint, EncOctets, Pieces, Contents, Only, OctetsOf, BytesOf, InRange, Octets, When;
    StringSizes(s);
    PeerSlots(s, forTicket);
    OctetsFit(s, forTicket);
    OctetsBack(s.pskIdentity);
    OctetsBack(s.peerSha256);
  }

  lemma TicketRead(s: Session, forTicket: bool)
    requires InRange(s) && |Flat(Pieces(s, forTicket))| <= MAX_CONTENTS
    ensures var v := Contents(Pieces(s, forTicket));
            OctetsOf(v[6]).Some? && Stowed(v[6]) == Normal(s, forTicket).ticket
  {
    hide Flat, EncUint, EncOctets, Pieces, Contents, Only, OctetsOf, BytesOf, Stowed, InRange, Octets, When;
    NothingWritten();
    PeerSlots(s, forTicket);
    OctetsFit(s, forTicket);
    StowedBack(if forTicket then None else s.ticket);
  }

  lemma BoundedRead(s: Session, forTicket: bool)
    requires InRange(s)
    ensures var v := Contents(Pieces(s, forTicket));
            && OctetsOf(v[1]) == Some(Some(s.sidCtx)) && BytesOf(v[1]) == s.sidCtx
            && OctetsOk(v[8], MAX_MD_SIZE) && BytesOf(v[8]) == s.handshakeHash
  {
    hide EncUint, EncOctets, EncBool, Pieces, Contents, Only, OctetsOf, BytesOf, Stowed, InRange, Octets, When;
    StringSizes(s);
    PeerSlots(s, forTicket);
    WhenOctets(true, s.sidCtx);
    WhenOctets(s.handshakeHash != [], s.handshakeHash);
  }

  lemma StringSizes(s: Session)
    requires InRange(s)
    ensures |s.sidCtx| <= MAX_SID_CTX && |s.handshakeHash| <= MAX_MD_SIZE
    ensures s.peerSha256.Some? ==> |s.peerSha256.value| == SHA256_SIZE
    ensures When(true, s.sidCtx) == Some(s.sidCtx) && (Octets(s.peerSha256).Some? <==> s.peerSha256.Some?)
    ensures var hash := When(s.handshakeHash != [], s.handshakeHash); hash.Some? ==> |hash.value| <= MAX_MD_SIZE
  {
    hide EncOctets;
  }

  lemma NothingWritten()
    ensures Octets(None) == None
  {
  }

  lemma StowedBack(x: Option<seq<byte>>)
    requires x.Some? ==> |EncOctets(x.value)| <= MAX_CONTENTS
    ensures OctetsOf(Octets(x)).Some? && Stowed(Octets(x)) == if x == Some([]) then None else x
  {
    hide EncOctets, Octets, OctetsOf, BytesOf;
    OctetsBack(x);
  }

  /** The numbers and flags come back; a negative verification result does not. */
  lemma NumbersRead(s: Session, forTicket: bool)
    requires InRange(s)
    ensures var v := Contents(Pieces(s, forTicket));
            && UintOf(v[2], LONG_MAX, 0) == (if s.verifyResult >= 0 then Some(s.verifyResult) else None)
            && UintOf(v[5], U32_MAX, 0) == Some(s.ticketHint)
            && BoolOf(v[11], false) == Some(s.extendedMasterSecret)
            && UintOf(v[12], U16_MAX, 0) == Some(s.groupId)
            && AgeAddOf(v[14]) == Some(s.ticketAgeAdd)
            && BoolOf(v[15], true) == Some(s.isServer)
            && UintOf(v[16], U16_MAX, 0) == Some(s.peerSignatureAlgorithm)
            && UintOf(v[17], U32_MAX, 0) == Some(s.maxEarlyData)
            && UintOf(v[18], U32_MAX, s.head.timeout) == Some(s.authTimeout)
  {
    hide EncUint, EncOctets, EncBool, Pieces, Contents, U32Bytes, UintOf, BoolOf, AgeAddOf;
    PeerSlots(s, forTicket);
    StateSlots(s, forTicket);
    if s.verifyResult >= 0 {
      WhenUint(s.verifyResult, LONG_MAX, s.verifyResult != 0, 0);
    } else {
      UintRead(AsUnsigned(s.verifyResult), LONG_MAX, 0);
    }
    WhenUint(s.ticketHint, U32_MAX, s.ticketHint > 0, 0);
    WhenBool(s.extendedMasterSecret, true, false);
    WhenUint(s.groupId, U16_MAX, s.groupId > 0, 0);
    AgeAddBack(s.ticketAgeAdd);
    WhenBool(!s.isServer, false, true);
    WhenUint(s.peerSignatureAlgorithm, U16_MAX, s.peerSignatureAlgorithm != 0, 0);
    WhenUint(s.maxEarlyData, U32_MAX, s.maxEarlyData != 0, 0);
    WhenUint(s.authTimeout, U32_MAX, s.head.timeout != s.authTimeout, s.head.timeout);
  }

  /** The optional fields are interpreted as the session they were written from. */
  lemma FieldsRead(s: Session, forTicket: bool, config: Config)
    requires InRange(s) && |Flat(Pieces(s, forTicket))| <= MAX_CONTENTS
    ensures var v := Contents(Pieces(s, forTicket));
            var h := Normal(s, forTicket).head;
            Interpret(h, v, config) == Some(Normal(s, forTicket)) <==> s.verifyResult >= 0 && CertsSurvive(s, config)
  {
    hide Flat, Pieces, UintOf, BoolOf, AgeAddOf, OctetsOf, BytesOf, Stowed, CertsOf, SingleElement;
    StringsRead(s, forTicket);
    NumbersRead(s, forTicket);
    CertsRead(s, config, forTicket);
  }

  /**
   * The round trip: the bytes of a session parse back to the session, up to the documented
   * changes of `Normal`, exactly when its version and cipher are known, its verification
   * result is not negative and its certificates are what the format can carry.
   */
  lemma SessionRoundTrips(s: Session, forTicket: bool, config: Config)
    requires InRange(s) && ToBytesFull(s, forTicket).Some?
    ensures FromBytes(ToBytesFull(s, forTicket).value, config) == Some(Normal(s, forTicket)) <==> Restorable(s, config)
  {
    hide Flat, Pieces, Tlv, HeadBytes, GetHead, GetAsn1, Split, Interpret, Contents, Tags, CertsSurvive,
         KnownVersion, InRange;
    var ps := Pieces(s, forTicket);
    var body := Body(s, forTicket);
    TlvReads(SEQUENCE, body, []);
    assert Tlv(SEQUENCE, body) + [] == Tlv(SEQUENCE, body);
    HeadInRange(s);
    HeadReads(s.head, forTicket, Flat(ps), config.ciphers);
    PiecesAscend(s, forTicket);
    SplitFlat(ps);
    FieldsRead(s, forTicket, config);
  }

  lemma HeadInRange(s: Session)
    requires InRange(s)
    ensures var h := s.head;
            && h.sslVersion <= U16_MAX && h.cipher <= U16_MAX && h.time < TWO_64 && h.timeout <= U32_MAX
            && |h.sessionId| <= MAX_SESSION_ID && |h.masterKey| <= MAX_MASTER_KEY
  {
  }

  /** The placeholder for a session that must not be resumed is never parsed as a session. */
  lemma PlaceholderRejected(s: Session, config: Config)
    requires InRange(s)
    ensures ToBytes(s, true).Some? && FromBytes(ToBytes(s, true).value, config).None?
  {
    hide GetElement;
    ElementTag(NOT_RESUMABLE);
  }

  lemma ElementTag(b: seq<byte>)
    ensures GetElement(b).Some? ==> ParseTag(b).Some? && GetElement(b).value.tag == ParseTag(b).value.0
  {
    hide ParseTag, BigEndian, Shl;
  }
}
