/** What SSL_SESSION_from_bytes makes of any bytes it accepts. */
module SessionInput {
  import opened Bits
  import opened Bytes
  import opened Der
  import opened Session
  import opened SessionRoundTrip

  // ---------------------------------------------------------------- DER has one form only

  /** An element that is read, under a low tag number, is the element as it would be written. */
  lemma ElementIsTlv(b: seq<byte>)
    requires GetElement(b).Some? && b[0] % 0x20 != 0x1F && |GetElement(b).value.contents| <= MAX_CONTENTS
    ensures var e := GetElement(b).value; e.whole == Tlv(b[0], e.contents) && e.tag == Low(b[0])
  {
    hide BigEndian, Shl, LenBytes;
    var e, r1 := GetElement(b).value, b[1..];
    if r1[0] < 0x80 {
      ShortLen(r1[0]);
      assert b[..2] == [b[0]] + [r1[0]];
      assert e.whole == b[..2] + e.contents;
    } else {
      var n := r1[0] - 0x80;
      LengthIsMinimal(r1[1..1 + n]);
      assert [0x80 + n] + r1[1..1 + n] == b[1..2 + n];
      assert e.whole == [b[0]] + b[1..2 + n] + e.contents;
    }
  }

  lemma LengthIsMinimal(l: seq<byte>)
    requires 1 <= |l| <= 4 && 0x80 <= BigEndian(l) <= MAX_CONTENTS && BigEndian(l) >= Shl(1, 8 * (|l| - 1))
    ensures LenBytes(BigEndian(l)) == [0x80 + |l|] + l
  {
    hide BigEndian, Shl, LenBytes;
    var n := BigEndian(l);
    var k := |LenBytes(n)| - 1;
    LenReads(n);
    ByteWeights();
    Below(l);
    Below(LenBytes(n)[1..]);
    assert k == |l|;
    BigEndianInjective(l, LenBytes(n)[1..]);
    assert LenBytes(n) == [LenBytes(n)[0]] + LenBytes(n)[1..];
  }

  lemma Below(l: seq<byte>)
    requires 1 <= |l| <= 4
    ensures |l| == 1 ==> BigEndian(l) < 0x100
    ensures |l| == 2 ==> BigEndian(l) < 0x1_0000
    ensures |l| == 3 ==> BigEndian(l) < 0x100_0000
  {
    hide BigEndian, Shl;
    BigEndianBelow(l);
    ByteWeights();
  }

  lemma {:induction false} MinimalOf(m: seq<byte>)
    requires m != [] && (|m| > 1 ==> m[0] > 0)
    ensures Minimal(BigEndian(m)) == m
    ensures m[0] > 0 ==> BigEndian(m) > 0
    decreases |m|
  {
    var k := |m| - 1;
    BigEndianNone();
    assert m[..k + 1] == m;
    BigEndianStep(m, k);
    if k > 0 {
      MinimalOf(m[..k]);
    } else {
      assert m[..0] == [];
    }
    assert m == m[..k] + [m[k]];
  }

  /** Only the minimal contents of a nonnegative INTEGER are accepted: no padding and no negative number. */
  lemma UintIsMinimal(c: seq<byte>)
    ensures UintValue(c).Some? ==> c == UintContents(UintValue(c).value)
  {
    if UintValue(c).Some? {
      if c[0] == 0 && |c| > 1 {
        BigEndianJoin([0], c[1..]);
        ZeroByte();
        ShlZero(8 * |c[1..]|);
        assert c == [0] + c[1..];
        MinimalOf(c[1..]);
      } else {
        MinimalOf(c);
      }
    }
  }

  /** A BOOLEAN is 0 or 0xFF. */
  lemma BooleansAccepted(x: seq<byte>, absent: bool)
    requires |x| <= MAX_CONTENTS
    ensures BoolOf(Some(Tlv(BOOLEAN, x)), absent) == if x == [0] then Some(false) else if x == [0xFF] then Some(true) else None
  {
    hide GetAsn1, Tlv;
    TlvReads(BOOLEAN, x, []);
    assert Tlv(BOOLEAN, x) + [] == Tlv(BOOLEAN, x);
  }

  // ---------------------------------------------------------------- what is never a session

  /** No version but 1 is accepted. */
  lemma OtherVersionsRefused(version: nat, rest: seq<byte>, config: Config)
    requires version < TWO_64 && version != 1 && |EncUint(version) + rest| <= MAX_CONTENTS
    ensures FromBytes(Tlv(SEQUENCE, EncUint(version) + rest), config).None?
  {
    hide GetAsn1, Tlv, EncUint, Split, Interpret;
    var body := EncUint(version) + rest;
    TlvReads(SEQUENCE, body, []);
    assert Tlv(SEQUENCE, body) + [] == Tlv(SEQUENCE, body);
    UintReads(version, rest);
    FirstIsVersion(body, config.ciphers);
  }

  lemma FirstIsVersion(b: seq<byte>, ciphers: set<nat>)
    ensures GetHead(b, ciphers).Got? ==> GetUint(b).Got? && GetUint(b).value == 1
  {
    hide GetUint, GetAsn1, GetTimes, KnownVersion, BigEndian;
  }

  /** Nothing may follow a session. */
  lemma TrailingBytesRefused(s: Session, forTicket: bool, t: seq<byte>, config: Config)
    requires InRange(s) && ToBytesFull(s, forTicket).Some? && t != []
    ensures FromBytes(ToBytesFull(s, forTicket).value + t, config).None?
  {
    hide GetAsn1, Tlv, Body, ParseBody;
    TlvReads(SEQUENCE, Body(s, forTicket), t);
  }

  // ---------------------------------------------------------------- what is a session

  lemma ShortNumber(b: seq<byte>)
    ensures |b| == 2 ==> BigEndian(b) <= U16_MAX
    ensures |b| == 4 ==> BigEndian(b) <= U32_MAX
  {
    BigEndianBelow(b);
    Weights();
  }

  lemma Uint64(b: seq<byte>)
    ensures GetUint(b).Got? ==> GetUint(b).value < TWO_64
  {
    hide GetAsn1;
  }

  /** The mandatory fields of an accepted session are in range, its version and cipher known. */
  lemma HeadAccepted(b: seq<byte>, ciphers: set<nat>)
    requires GetHead(b, ciphers).Got?
    ensures var h := GetHead(b, ciphers).value;
            && KnownVersion(h.sslVersion) && h.cipher in ciphers && h.sslVersion <= U16_MAX && h.cipher <= U16_MAX
            && |h.sessionId| <= MAX_SESSION_ID && |h.masterKey| <= MAX_MASTER_KEY && h.time < TWO_64 && h.timeout <= U32_MAX
  {
    hide GetUint, GetAsn1, GetTimes, KnownVersion, BigEndian;
    forall c: seq<byte> | |c| == 2 ensures BigEndian(c) <= U16_MAX { ShortNumber(c); }
    forall x: seq<byte> ensures GetTimes(x).Got? ==> GetTimes(x).value.0 < TWO_64 && GetTimes(x).value.1 <= U32_MAX { TimesAccepted(x); }
  }

  lemma TimesAccepted(b: seq<byte>)
    ensures GetTimes(b).Got? ==> GetTimes(b).value.0 < TWO_64 && GetTimes(b).value.1 <= U32_MAX
  {
    hide GetUint, GetAsn1;
    forall c: seq<byte> ensures GetUint(c).Got? ==> GetUint(c).value < TWO_64 { Uint64(c); }
  }

  lemma AgeAccepted(v: Option<seq<byte>>)
    ensures AgeAddOf(v).Some? && AgeAddOf(v).value.Some? ==> AgeAddOf(v).value.value <= U32_MAX
  {
    hide OctetsOf, BigEndian;
    forall c: seq<byte> | |c| == 4 ensures BigEndian(c) <= U32_MAX { ShortNumber(c); }
  }

  lemma UintAccepted(v: Option<seq<byte>>, max: nat, absent: nat)
    requires absent <= max
    ensures UintOf(v, max, absent).Some? ==> UintOf(v, max, absent).value <= max
  {
    hide GetUint;
  }

  /** The certificates that are found: the first is not empty, and the others are single elements. */
  lemma CertsAccepted(peer: Option<seq<byte>>, chain: Option<seq<byte>>)
    requires CertsOf(peer, chain).Some?
    ensures var certs := CertsOf(peer, chain).value;
            certs == [] || (certs[0] != [] && forall c :: c in certs[1..] ==> SingleElement(c))
  {
    hide Elements, SingleElement;
    var rest := if chain.Some? then chain.value else [];
    if Elements(rest).Some? { ElementsAreSingles(rest); }
  }

  lemma AbsentOctets()
    ensures OctetsOf(None) == Some(None)
  {
  }

  lemma FieldsAccepted(h: Head, v: Values, config: Config)
    requires Acceptable(h, v, config) && h.timeout <= U32_MAX
    ensures var s := Built(h, v, config);
            && |s.sidCtx| <= MAX_SID_CTX && 0 <= s.verifyResult <= LONG_MAX
            && (s.pskIdentity.Some? ==> 0 !in s.pskIdentity.value)
            && s.ticketHint <= U32_MAX && (s.peerSha256.Some? ==> |s.peerSha256.value| == SHA256_SIZE)
            && |s.handshakeHash| <= MAX_MD_SIZE && s.groupId <= U16_MAX
            && (s.ticketAgeAdd.Some? ==> s.ticketAgeAdd.value <= U32_MAX)
            && s.peerSignatureAlgorithm <= U16_MAX && s.maxEarlyData <= U32_MAX && s.authTimeout <= U32_MAX
            && s.ticket != Some([]) && s.earlyAlpn != Some([])
            && config.takesCerts(s.certs)
            && (s.certs == [] || (s.certs[0] != [] && forall c :: c in s.certs[1..] ==> SingleElement(c)))
  {
    hide OctetsOf, UintOf, BoolOf, AgeAddOf, CertsOf, SingleElement;
    AbsentOctets();
    UintAccepted(v[2], LONG_MAX, 0);
    UintAccepted(v[5], U32_MAX, 0);
    UintAccepted(v[12], U16_MAX, 0);
    AgeAccepted(v[14]);
    UintAccepted(v[16], U16_MAX, 0);
    UintAccepted(v[17], U32_MAX, 0);
    UintAccepted(v[18], U32_MAX, h.timeout);
    CertsAccepted(v[0], v[13]);
  }

  /** Whatever the bytes, an accepted session is within its C types and could have been written by this library. */
  lemma AcceptedInRange(b: seq<byte>, config: Config)
    requires FromBytes(b, config).Some?
    ensures var s := FromBytes(b, config).value;
            && InRange(s) && s.verifyResult >= 0 && KnownVersion(s.head.sslVersion) && s.head.cipher in config.ciphers
            && s.ticket != Some([]) && s.earlyAlpn != Some([]) && config.takesCerts(s.certs)
            && (s.certs == [] || (s.certs[0] != [] && forall c :: c in s.certs[1..] ==> SingleElement(c)))
  {
    hide GetHead, GetAsn1, Split, Acceptable, Built, KnownVersion, SingleElement;
    var body := GetAsn1(b, SEQUENCE).value;
    HeadAccepted(body, config.ciphers);
    var h, rest := GetHead(body, config.ciphers).value, GetHead(body, config.ciphers).rest;
    SplitLength(rest, FIELD_TAGS);
    var v: Values := Split(rest, FIELD_TAGS).value;
    FieldsAccepted(h, v, config);
    HeadOfBuilt(h, v, config);
  }

  lemma HeadOfBuilt(h: Head, v: Values, config: Config)
    requires Acceptable(h, v, config)
    ensures Built(h, v, config).head == h
  {
    hide OctetsOf, UintOf, BoolOf, AgeAddOf, CertsOf;
  }

  /**
   * Any accepted session, written and parsed again, is the same session, up to the certificates
   * beside a hash of the first one, which are not written; and it is accepted again exactly if the
   * method takes what certificates are left.
   */
  lemma ParsedAgain(b: seq<byte>, config: Config)
    requires FromBytes(b, config).Some? && InRange(FromBytes(b, config).value)
    requires ToBytesFull(FromBytes(b, config).value, false).Some?
    ensures var s := FromBytes(b, config).value;
            var again := s.(certs := if s.peerSha256.Some? then [] else s.certs);
            FromBytes(ToBytesFull(s, false).value, config) == Some(again) <==> config.takesCerts(again.certs)
  {
    hide FromBytes, ToBytesFull, KnownVersion, SingleElement, InRange;
    AcceptedInRange(b, config);
    SessionRoundTrips(FromBytes(b, config).value, false, config);
  }
}
