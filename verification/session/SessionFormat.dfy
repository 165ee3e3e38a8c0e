/**
 * The bytes of a serialized session, as the ASN.1 definition in ssl_asn1.cc numbers the fields
 * and ITU-T X.690 encodes them.
 */
module SessionFormat {
  import opened Bits
  import opened Bytes
  import opened Der
  import opened Session

  /** The identifier bytes of the universal types: BOOLEAN 1, INTEGER 2, OCTET STRING 4, SEQUENCE 16, constructed. */
  lemma IdentifierBytes(n: nat, b: seq<byte>, v: bool)
    ensures EncUint(n)[0] == 0x02 && EncOctets(b)[0] == 0x04 && EncBool(v)[0] == 0x01 && Tlv(SEQUENCE, b)[0] == 0x30
  {
    hide LenBytes;
  }

  lemma SmallUint(n: byte)
    requires n < 0x80
    ensures EncUint(n) == [0x02, 0x01, n]
  {
    assert Minimal(n) == [n];
  }

  /** Lengths below 128 take one byte, others one for their size; a set first bit of an INTEGER is padded. */
  lemma DocumentedElements(long: seq<byte>)
    requires |long| == 435
    ensures EncUint(127) == [0x02, 0x01, 0x7F] && EncUint(128) == [0x02, 0x02, 0x00, 0x80]
    ensures EncUint(256) == [0x02, 0x02, 0x01, 0x00] && EncUint(0x0303) == [0x02, 0x02, 0x03, 0x03]
    ensures EncBool(true) == [0x01, 0x01, 0xFF] && EncBool(false) == [0x01, 0x01, 0x00]
    ensures EncOctets([0xC0, 0x2F]) == [0x04, 0x02, 0xC0, 0x2F]
    ensures EncOctets(long) == [0x04, 0x82, 0x01, 0xB3] + long
  {
    SmallUint(127);
    assert Minimal(1) == [1] && Minimal(3) == [3];
    assert Minimal(128) == [128] && UintContents(128) == [0, 128];
    assert Minimal(256) == [1, 0] && Minimal(0x0303) == [3, 3];
  }

  /** SSL 3.0 and TLS 1.0 to 1.2, one draft of TLS 1.3, and the complements of 1.0 and 1.2 for DTLS. */
  lemma KnownVersions(v: nat)
    ensures KnownVersion(v) <==> 0x0300 <= v <= 0x0303 || v == 0x7F17 || v == 0xFFFF - 0x0100 || v == 0xFFFF - 0x0102
  {
  }

  /** The placeholder for a session that must not be resumed is a text. */
  lemma Placeholder()
    ensures var text := "NOT RESUMABLE";
            |NOT_RESUMABLE| == |text| && forall i :: 0 <= i < |text| ==> NOT_RESUMABLE[i] == text[i] as int
  {
  }

  // ---------------------------------------------------------------- whole sessions

  lemma OctetPiece(tag: byte, x: byte)
    ensures PieceBytes(Piece(tag, Some(EncOctets([x])))) == [tag, 0x03, 0x04, 0x01, x]
  {
    assert EncOctets([x]) == [0x04, 0x01, x];
  }

  lemma UintPiece(tag: byte, n: byte)
    requires n < 0x80
    ensures PieceBytes(Piece(tag, Some(EncUint(n)))) == [tag, 0x03, 0x02, 0x01, n]
  {
    SmallUint(n);
  }

  /** A session with every field but the certificate hash. */
  const FullSession: Session :=
    Session(Head(0x0303, 0xC02F, [0xA1], [0xB2], 3, 4), [[0x30, 0x00], [0x05, 0x00]], [0xC3], 5, Some([0xD4]), 6,
            Some([0xE5]), None, [0xF6], Some([0x17]), Some([0x28]), true, 7, Some(0x01020304), false, 8, 9, 10, Some([0x39]))

  /** Version, protocol, cipher, id, master key, time [1] and timeout [2]; in a ticket the id is empty. */
  lemma DocumentedHead()
    ensures HeadBytes(FullSession.head, false) ==
              [0x02, 0x01, 0x01] + [0x02, 0x02, 0x03, 0x03] + [0x04, 0x02, 0xC0, 0x2F] + [0x04, 0x01, 0xA1] + [0x04, 0x01, 0xB2]
              + [0xA1, 0x03, 0x02, 0x01, 0x03] + [0xA2, 0x03, 0x02, 0x01, 0x04]
    ensures HeadBytes(FullSession.head, true) ==
              [0x02, 0x01, 0x01] + [0x02, 0x02, 0x03, 0x03] + [0x04, 0x02, 0xC0, 0x2F] + [0x04, 0x00] + [0x04, 0x01, 0xB2]
              + [0xA1, 0x03, 0x02, 0x01, 0x03] + [0xA2, 0x03, 0x02, 0x01, 0x04]
  {
    SmallUint(1);
    SmallUint(3);
    SmallUint(4);
    DocumentedElements(seq(435, _ => 0));
    hide EncUint;
    assert EncOctets([0xA1]) == [0x04, 0x01, 0xA1] && EncOctets([0xB2]) == [0x04, 0x01, 0xB2] && EncOctets([]) == [0x04, 0x00];
    assert Tlv(Context(1), EncUint(3)) == [0xA1, 0x03, 0x02, 0x01, 0x03];
    assert Tlv(Context(2), EncUint(4)) == [0xA2, 0x03, 0x02, 0x01, 0x04];
  }

  /**
   * peer [3], sessionIDContext [4], verifyResult [5], hostName [6], pskIdentity [8],
   * ticketLifetimeHint [9], ticket [10], peerSHA256 [13], originalHandshakeHash [14] and
   * signedCertTimestampList [15], in this order; the ticket is not part of a ticket.
   */
  lemma DocumentedPeerFields(s: Session)
    requires s == FullSession
    ensures InRange(s)
    ensures PeerPieces(s, false) ==
              [ Piece(0xA3, Some([0x30, 0x00])), Piece(0xA4, Some(EncOctets([0xC3]))), Piece(0xA5, Some(EncUint(5))),
                Piece(0xA6, None), Piece(0xA8, Some(EncOctets([0xD4]))), Piece(0xA9, Some(EncUint(6))),
                Piece(0xAA, Some(EncOctets([0xE5]))), Piece(0xAD, None), Piece(0xAE, Some(EncOctets([0xF6]))),
                Piece(0xAF, Some(EncOctets([0x17]))) ]
    ensures PeerPieces(s, true) == PeerPieces(s, false)[6 := Piece(0xAA, None)]
  {
    hide EncOctets, EncUint;
  }

  /**
   * ocspResponse [16], extendedMasterSecret [17], groupID [18], certChain [19], ticketAgeAdd [21],
   * isServer [22], peerSignatureAlgorithm [23], ticketMaxEarlyData [24], authTimeout [25] and
   * earlyALPN [26].
   */
  lemma DocumentedStateFields(s: Session)
    requires s == FullSession
    ensures InRange(s)
    ensures StatePieces(s) ==
              [ Piece(0xB0, Some(EncOctets([0x28]))), Piece(0xB1, Some(EncBool(true))), Piece(0xB2, Some(EncUint(7))),
                Piece(0xB3, Some([0x05, 0x00])), Piece(0xB5, Some(EncOctets([1, 2, 3, 4]))), Piece(0xB6, Some(EncBool(false))),
                Piece(0xB7, Some(EncUint(8))), Piece(0xB8, Some(EncUint(9))), Piece(0xB9, Some(EncUint(10))),
                Piece(0xBA, Some(EncOctets([0x39]))) ]
  {
    hide EncOctets, EncUint, EncBool;
    assert Joined(s.certs[1..]) == [0x05, 0x00] by { assert s.certs[1..] == [[0x05, 0x00]] && s.certs[1..][1..] == []; }
    assert U32Bytes(0x01020304) == [1, 2, 3, 4];
  }

  lemma BoolPiece(tag: byte, v: bool)
    ensures PieceBytes(Piece(tag, Some(EncBool(v)))) == [tag, 0x03, 0x01, 0x01, if v then 0xFF else 0x00]
  {
    assert EncBool(v) == [0x01, 0x01, if v then 0xFF else 0x00];
  }

  lemma HashPiece(hash: seq<byte>, contents: seq<byte>)
    requires |hash| == 32 && contents == [0x04, 0x20] + hash
    ensures PieceBytes(Piece(0xAD, Some(contents))) == [0xAD, 0x22, 0x04, 0x20] + hash
  {
    assert LenBytes(0x22) == [0x22];
    assert [0xAD] + [0x22] + ([0x04, 0x20] + hash) == [0xAD, 0x22, 0x04, 0x20] + hash;
  }

  /** With a hash of the peer's certificate neither it nor the chain is written. */
  lemma HashInsteadOfCerts(s: Session, hash: seq<byte>, forTicket: bool)
    requires InRange(s) && s.peerSha256 == Some(hash)
    ensures var ps := Pieces(s, forTicket);
            ps[0].contents.None? && ps[13].contents.None? && PieceBytes(ps[7]) == [0xAD, 0x22, 0x04, 0x20] + hash
  {
    hide EncUint, EncBool, U16Bytes, U32Bytes, Joined;
    assert EncOctets(hash) == [0x04, 0x20] + hash;
    HashPiece(hash, EncOctets(hash));
  }

  /** A session of which nothing is out of the ordinary has no optional field but its id context. */
  lemma DefaultsLeftOut(s: Session, forTicket: bool)
    requires InRange(s) && s.certs == [] && s.verifyResult == 0 && s.pskIdentity.None? && s.ticketHint == 0
    requires s.ticket.None? && s.peerSha256.None? && s.handshakeHash == [] && s.sctList.None? && s.ocspResponse.None?
    requires !s.extendedMasterSecret && s.groupId == 0 && s.ticketAgeAdd.None? && s.isServer
    requires s.peerSignatureAlgorithm == 0 && s.maxEarlyData == 0 && s.authTimeout == s.head.timeout && s.earlyAlpn.None?
    ensures forall i :: 0 <= i < 20 ==> (Pieces(s, forTicket)[i].contents.Some? <==> i == 1)
  {
    hide EncOctets, EncUint, EncBool;
  }
}
