/**
 * The TLS write path: s3_pkt.cc (application data and alerts), s3_both.cc (handshake
 * flights) and the write buffer.  Sealed bytes wait in two places, the write buffer and
 * the pending flight, while the transport accepts as much as it likes at a time.
 */
module WritePath {
  import opened Bits
  import opened SslBuffer

  const RT_CCS: byte := 20
  const RT_ALERT: byte := 21
  const RT_HANDSHAKE: byte := 22
  const RT_APP: byte := 23
  const MAX_PLAIN: nat := 16384
  const INT_MAX: nat := 0x7FFF_FFFF

  /** A sealed record: what went in and the bytes that came out. */
  datatype Rec = Rec(kind: byte, plain: seq<byte>, cipher: seq<byte>)

  /** All sealed bytes in the order of sealing. */
  ghost function Ciphers(rs: seq<Rec>): seq<byte> {
    if rs == [] then [] else Ciphers(rs[..|rs| - 1]) + rs[|rs| - 1].cipher
  }

  /** The plaintext sealed in records of one kind. */
  ghost function PlainOf(rs: seq<Rec>, kind: byte): seq<byte> {
    if rs == [] then []
    else PlainOf(rs[..|rs| - 1], kind) + if rs[|rs| - 1].kind == kind then rs[|rs| - 1].plain else []
  }

  /** Records have been added behind `rs`, none with more than `max` bytes. */
  ghost predicate Grown(rs: seq<Rec>, more: seq<Rec>, max: nat) {
    rs <= more && forall i :: |rs| <= i < |more| ==> |more[i].plain| <= max
  }

  lemma GrownThen(rs: seq<Rec>, more: seq<Rec>, most: seq<Rec>, max: nat)
    ensures Grown(rs, more, max) && Grown(more, most, max) ==> Grown(rs, most, max)
  {
  }

  lemma {:induction false} PlainGrows(rs: seq<Rec>, more: seq<Rec>, kind: byte)
    requires rs <= more
    ensures PlainOf(rs, kind) <= PlainOf(more, kind)
    decreases |more|
  {
    if |rs| < |more| {
      PlainGrows(rs, more[..|more| - 1], kind);
    } else {
      assert rs == more;
    }
  }

  lemma GrownPlain(rs: seq<Rec>, more: seq<Rec>, max: nat, kind: byte)
    requires Grown(rs, more, max)
    ensures PlainOf(rs, kind) <= PlainOf(more, kind)
  {
    PlainGrows(rs, more, kind);
  }

  /** Nothing but plaintext of one kind has been sealed between the two. */
  ghost predicate OnlyOf(kind: byte, rs: seq<Rec>, more: seq<Rec>) {
    forall k :: k != kind ==> PlainOf(more, k) == PlainOf(rs, k)
  }

  lemma OnlyThen(kind: byte, rs: seq<Rec>, more: seq<Rec>, most: seq<Rec>)
    ensures OnlyOf(kind, rs, more) && OnlyOf(kind, more, most) ==> OnlyOf(kind, rs, most)
  {
    hide PlainOf;
  }

  lemma OneMore(rs: seq<Rec>, r: Rec)
    ensures Ciphers(rs + [r]) == Ciphers(rs) + r.cipher
    ensures forall kind :: PlainOf(rs + [r], kind) == PlainOf(rs, kind) + if r.kind == kind then r.plain else []
  {
    assert (rs + [r])[..|rs|] == rs;
  }

  /** The number of records a message of `len` bytes takes. */
  function Pieces(len: nat, max: nat): (n: nat)
    requires max > 0
    ensures n > 0
  {
    if len <= max then 1 else 1 + Pieces(len - max, max)
  }

  lemma OneAfter(n: nat, size: nat)
    ensures (n + 1) * size == n * size + size
  {
  }

  lemma Regroup(a: seq<byte>, b: seq<byte>, c: seq<byte>, d: seq<byte>)
    ensures a + b + c + d == a + b + (c + d)
  {
  }

  class Writer {
    const buffer: Buffer
    const bio: Transport
    const overhead: nat
    const sealable: bool
    var hasFlight: bool
    var flight: seq<byte>
    var flightOffset: nat
    var wnum: nat
    var pending: bool
    var pendTot: nat
    var pendRet: nat
    var pendKind: byte
    var pendBuf: nat
    var maxFragment: nat
    var partialWrite: bool
    var movingBuffer: bool
    var closed: bool
    ghost var records: seq<Rec>

    /** Sealed and not yet accepted bytes of the pending flight. */
    ghost function FlightRest(): seq<byte>
      requires flightOffset <= |flight|
      reads this`hasFlight, this`flight, this`flightOffset
    {
      if hasFlight then flight[flightOffset..] else []
    }

    /** Plaintext of this kind that is sealed but not yet reported to the caller of do_ssl3_write. */
    function Waiting(kind: byte): nat
      reads this`pending, this`pendKind, this`pendRet
    {
      if pending && pendKind == kind then pendRet else 0
    }

    /** Application bytes that are sealed but not yet reported to the application. */
    function InProgress(): nat
      reads this`wnum, this`pending, this`pendKind, this`pendRet
    {
      wnum + Waiting(RT_APP)
    }

    ghost function Sealed(kind: byte): seq<byte>
      reads this`records
    {
      PlainOf(records, kind)
    }

    /**
     * Conservation: all sealed bytes, in seal order, are what the transport accepted, then the
     * write buffer, then the rest of the pending flight.
     */
    ghost predicate Conserved()
      requires buffer.Valid() && flightOffset <= |flight|
      reads this`records, this`hasFlight, this`flight, this`flightOffset, buffer, buffer.buf, bio
    {
      Ciphers(records) == bio.accepted + buffer.Contents() + FlightRest()
    }

    ghost predicate Valid()
      reads this, buffer, buffer.buf, bio
    {
      && buffer.Valid()
      && flightOffset <= |flight| && (!hasFlight ==> flight == [])
      && 0 < maxFragment <= MAX_PLAIN && 0 < overhead
      && (pending ==> 0 < pendRet == pendTot)
      && (pending ==> pendRet <= |Sealed(pendKind)|)
      && InProgress() <= |Sealed(RT_APP)|
      && Conserved()
    }

    constructor (bio: Transport, maxFragment: nat, overhead: nat, sealable: bool)
      requires 0 < maxFragment <= MAX_PLAIN && 0 < overhead && bio.accepted == []
      ensures Valid() && fresh(buffer) && this.bio == bio && records == [] && InProgress() == 0 && !closed && !partialWrite
      ensures this.maxFragment == maxFragment && this.overhead == overhead && buffer.buf == null
      ensures sealable && maxFragment + overhead <= MAX_CAP ==> Idle()
    {
      buffer := new Buffer();
      this.bio := bio;
      this.maxFragment := maxFragment;
      this.overhead := overhead;
      this.sealable := sealable;
      hasFlight, flight, flightOffset := false, [], 0;
      wnum, pending, pendTot, pendRet, pendKind, pendBuf := 0, false, 0, 0, 0, 0;
      partialWrite, movingBuffer, closed := false, false, false;
      records := [];
    }

    /**
     * tls_seal_record: at least one byte and at most `overhead` more than the plaintext, or a
     * failure, which `sealable` excludes.
     */
    method Seal(plain: seq<byte>) returns (ok: bool, cipher: seq<byte>)
      requires 0 < overhead
      ensures ok ==> 0 < |cipher| <= |plain| + overhead
      ensures sealable ==> ok
    {
      ok := *;
      ok := ok || sealable;
      var least: seq<byte> := [0];
      assert 0 < |least| <= |plain| + overhead;
      cipher :| 0 < |cipher| <= |plain| + overhead;
    }

    /** Nothing waits, and a record of full size can be sealed. */
    predicate Idle()
      reads this`pending, this`hasFlight, this`maxFragment, buffer
    {
      !pending && buffer.size == 0 && !hasFlight && sealable && maxFragment + overhead <= MAX_CAP
    }

    /** The transport takes everything, and a record of full size fits behind the rest of the flight. */
    predicate Open()
      reads this`hasFlight, this`flight, this`flightOffset, this`maxFragment, bio
    {
      && sealable && bio.limits == []
      && (if hasFlight then |flight| - flightOffset else 0) + maxFragment + overhead <= MAX_CAP
    }

    /** Nothing is in the way of writing the bytes from `tot` on of `len` bytes at address `at`. */
    predicate Able(tot: nat, len: nat, at: nat)
      reads this, buffer, bio
    {
      && Open() && !closed
      && if pending then
           tot < len && pendKind == RT_APP && pendTot <= ChunkAt(tot, len) && (movingBuffer || pendBuf == at + tot)
         else buffer.size == 0
    }

    /** The bytes the first record of the loop reports: the pending ones, or a new record's. */
    function FirstChunk(tot: nat, len: nat): nat
      reads this`pending, this`pendRet, this`maxFragment
    {
      if pending then pendRet else ChunkAt(tot, len)
    }

    /** A record is pending, and the retry does not offer it where it was. */
    predicate Elsewhere(at: nat)
      reads this`pending, this`movingBuffer, this`pendBuf
    {
      pending && !movingBuffer && pendBuf != at
    }

    /** The size of the record at byte `tot` of `len` bytes. */
    function ChunkAt(tot: nat, len: nat): nat
      reads this`maxFragment
    {
      if tot >= len then 0 else if len - tot > maxFragment then maxFragment else len - tot
    }

    // ---------------------------------------------------------------- handshake flights

    /** add_record_to_flight */
    method AddRecordToFlight(kind: byte, data: seq<byte>) returns (ok: bool)
      requires Valid() && flightOffset == 0
      modifies this`hasFlight, this`flight, this`records
      ensures Valid() && flightOffset == 0
      ensures ok ==> exists c :: records == old(records) + [Rec(kind, data, c)]
      ensures !ok ==> records == old(records)
      ensures hasFlight && (sealable ==> ok)
      ensures |flight| <= |old(flight)| + if ok then |data| + overhead else 0
    {
      hide PlainOf, Ciphers, Buffer.Valid, Buffer.Contents;
      hasFlight := true;
      var cipher;
      ok, cipher := Seal(data);
      if ok {
        OneMore(records, Rec(kind, data, cipher));
        ghost var rest := FlightRest();
        Regroup(bio.accepted, buffer.Contents(), rest, cipher);
        flight := flight + cipher;
        assert FlightRest() == rest + cipher;
        records := records + [Rec(kind, data, cipher)];
      }
    }

    /** ssl3_add_message: the message in records of at most maxFragment bytes, at least one. */
    method AddMessage(msg: seq<byte>) returns (ok: bool)
      requires Valid() && flightOffset == 0
      modifies this`hasFlight, this`flight, this`records
      ensures Valid() && flightOffset == 0
      ensures ok ==> Sealed(RT_HANDSHAKE) == old(Sealed(RT_HANDSHAKE)) + msg && |records| > |old(records)|
      ensures Grown(old(records), records, maxFragment)
      ensures OnlyOf(RT_HANDSHAKE, old(records), records)
      ensures !ok ==> exists k :: 0 <= k <= |msg| && Sealed(RT_HANDSHAKE) == old(Sealed(RT_HANDSHAKE)) + msg[..k]
      ensures hasFlight && (sealable ==> ok)
      ensures ok ==> |records| == |old(records)| + Pieces(|msg|, maxFragment)
      ensures ok ==> |flight| <= |old(flight)| + |msg| + Pieces(|msg|, maxFragment) * overhead
    {
      hide PlainOf, Ciphers, Buffer.Valid, Buffer.Contents, Conserved, InPieces, Pieces;
      ghost var was := records;
      var rest := msg;
      var more := true;
      PiecesFirst(|records|, |flight|, |msg|);
      while more
        invariant Valid() && flightOffset == 0
        invariant |rest| <= |msg| && rest == msg[|msg| - |rest|..]
        invariant Sealed(RT_HANDSHAKE) == old(Sealed(RT_HANDSHAKE)) + msg[..|msg| - |rest|]
        invariant OnlyOf(RT_HANDSHAKE, was, records)
        invariant Grown(was, records, maxFragment) && (!more ==> rest == [] && |records| > |old(records)| && hasFlight)
        invariant InPieces(|was|, |old(flight)|, |msg|, |records|, |flight|, more, |rest|)
        decreases more, |rest|
      {
        var n := if |rest| < maxFragment then |rest| else maxFragment;
        var chunk := rest[..n];
        ghost var before, k, size := records, |msg| - |rest|, |flight|;
        rest := rest[n..];
        ok := AddRecordToFlight(RT_HANDSHAKE, chunk);
        if !ok {
          return false;
        }
        ghost var c :| records == before + [Rec(RT_HANDSHAKE, chunk, c)];
        OneMore(before, Rec(RT_HANDSHAKE, chunk, c));
        assert OnlyOf(RT_HANDSHAKE, before, records) && Grown(before, records, maxFragment);
        OnlyThen(RT_HANDSHAKE, was, before, records);
        GrownThen(was, before, records, maxFragment);
        assert msg[..k] + chunk == msg[..k + n];
        more := rest != [];
        OnePiece(|was|, |old(flight)|, |msg|, |before|, size, |chunk| + |rest|, |flight|);
      }
      PiecesDone(|was|, |old(flight)|, |msg|, |records|, |flight|);
      assert msg[..|msg|] == msg;
      return true;
    }

    /**
     * How far a message of `len` bytes is in the flight, against the number of records and bytes
     * before it; `rest` bytes are still to come, if there is one more record.
     */
    predicate InPieces(records: nat, flight: nat, len: nat, recordsNow: nat, flightNow: nat, more: bool, rest: nat)
      requires 0 < maxFragment
      reads this`maxFragment
    {
      && recordsNow >= records && (if more then rest <= len else rest == 0)
      && recordsNow + (if more then Pieces(rest, maxFragment) else 0) == records + Pieces(len, maxFragment)
      && flightNow <= flight + len - rest + (recordsNow - records) * overhead
    }

    lemma PiecesFirst(records: nat, flight: nat, len: nat)
      requires 0 < maxFragment
      ensures InPieces(records, flight, len, records, flight, true, len)
    {
    }

    lemma OnePiece(records: nat, flight: nat, len: nat, recordsNow: nat, flightNow: nat, rest: nat, flightThen: nat)
      requires 0 < maxFragment && InPieces(records, flight, len, recordsNow, flightNow, true, rest)
      requires flightThen <= flightNow + (if rest < maxFragment then rest else maxFragment) + overhead
      ensures InPieces(records, flight, len, recordsNow + 1, flightThen, rest > maxFragment,
                       if rest > maxFragment then rest - maxFragment else 0)
    {
      OneAfter(recordsNow - records, overhead);
    }

    lemma PiecesDone(records: nat, flight: nat, len: nat, recordsNow: nat, flightNow: nat)
      requires 0 < maxFragment && InPieces(records, flight, len, recordsNow, flightNow, false, 0)
      ensures recordsNow == records + Pieces(len, maxFragment)
      ensures flightNow <= flight + len + Pieces(len, maxFragment) * overhead
    {
    }

    /** The write loop of ssl3_flush_flight. */
    method WriteFlight() returns (ret: int)
      requires Valid() && hasFlight && buffer.Contents() == []
      modifies this`flightOffset, bio
      ensures Valid() && ret <= 1 && (ret == 1 ==> flightOffset == |flight|)
      ensures old(bio.limits) == [] ==> ret == 1 && bio.limits == []
    {
      hide PlainOf, Ciphers, Buffer.Valid, Buffer.Contents;
      ghost var all := bio.accepted + FlightRest();
      EmptyBetween(bio.accepted, FlightRest());
      ret := 1;
      while flightOffset < |flight| && ret > 0
        invariant flightOffset <= |flight| && bio.accepted + FlightRest() == all
        invariant old(bio.limits) == [] ==> bio.limits == [] && ret > 0
        decreases |flight| - flightOffset, ret
      {
        ghost var front, rest := bio.accepted, FlightRest();
        ret := bio.Write(flight[flightOffset..]);
        Moved(front, rest, if ret > 0 then ret else 0);
        if ret > 0 {
          flightOffset := flightOffset + ret;
          assert rest[ret..] == FlightRest() && bio.accepted == front + rest[..ret];
        }
      }
      EmptyBetween(bio.accepted, FlightRest());
      return if ret > 0 then 1 else ret;
    }

    /** ssl3_flush_flight; `flushed` is what BIO_flush returns. */
    method FlushFlight(flushed: bool) returns (ret: int)
      requires Valid()
      modifies this`hasFlight, this`flight, this`flightOffset, buffer, bio
      ensures Valid() && (buffer.buf == null || buffer.buf == old(buffer.buf))
      ensures ret == 1 ==> !hasFlight && (old(hasFlight) ==> bio.accepted == Ciphers(records))
      ensures old(flightOffset) == 0 && ret == 1 ==> flightOffset == 0
      ensures ret <= 1 && (ret <= 0 ==> hasFlight && flight == old(flight))
      ensures !old(hasFlight) ==> ret == 1 && bio.accepted == old(bio.accepted) && bio.limits == old(bio.limits)
      ensures old(buffer.size) == 0 || (old(hasFlight) && ret == 1) ==> buffer.size == 0
      ensures old(hasFlight) && (closed || |old(flight)| > 0x7FFF_FFFF) ==>
                ret == -1 && bio.accepted == old(bio.accepted) && flightOffset == old(flightOffset)
      ensures old(hasFlight && !closed && |flight| <= 0x7FFF_FFFF && bio.limits == []) ==>
                bio.limits == [] && bio.accepted == Ciphers(records) && ret == if flushed then 1 else -1
    {
      hide PlainOf, Ciphers, Buffer.Valid, Buffer.Contents;
      if !hasFlight {
        return 1;
      }
      if closed || |flight| > INT_MAX {
        return -1;
      }
      if buffer.size != 0 {
        ret := FlushBuffer();
        if ret <= 0 {
          return ret;
        }
      }
      ret := WriteFlight();
      if ret <= 0 {
        return ret;
      }
      if !flushed {
        return -1;
      }
      hasFlight, flight, flightOffset := false, [], 0;
      return 1;
    }

    /** ssl_write_buffer_flush */
    method FlushBuffer() returns (ret: int)
      requires Valid()
      modifies buffer, bio
      ensures Valid() && (buffer.buf == null || buffer.buf == old(buffer.buf))
      ensures ret <= 1 && (ret == 1 ==> buffer.Contents() == [])
      ensures old(bio.limits) == [] ==> ret == 1 && bio.limits == []
      ensures old(buffer.size) > 0 ==> FirstWrite(old(buffer.size), old(bio.limits), ret, bio.limits)
    {
      hide PlainOf, Ciphers, Buffer.Valid, Buffer.Contents;
      ghost var front := bio.accepted + buffer.Contents();
      ret := buffer.Flush(bio);
      assert bio.accepted + buffer.Contents() == front;
    }

    // ---------------------------------------------------------------- records of application data and alerts

    /** ssl3_write_pending; `at` is the address of the caller's data. */
    method WritePending(kind: byte, len: nat, at: nat) returns (ret: int)
      requires Valid() && pending
      modifies this`pending, buffer, bio
      ensures Valid() && (buffer.buf == null || buffer.buf == old(buffer.buf))
      ensures ret > 0 ==> !pending && ret == pendRet <= len && kind == pendKind && buffer.Contents() == []
      ensures ret <= 0 ==> pending
      ensures BadRetry(kind, len, at) ==> ret == -1
      ensures old(bio.limits) == [] ==> bio.limits == [] && (ret > 0 || BadRetry(kind, len, at))
      ensures !BadRetry(kind, len, at) && old(buffer.size) > 0 ==>
                FirstWrite(old(buffer.size), old(bio.limits), if ret > 0 then 1 else ret, bio.limits)
    {
      hide PlainOf, Ciphers, Buffer.Valid, Buffer.Contents;
      if pendTot > len || (!movingBuffer && pendBuf != at) || pendKind != kind {
        return -1;
      }
      ret := FlushBuffer();
      if ret <= 0 {
        return ret;
      }
      pending := false;
      return pendRet;
    }

    /** The retry that ssl3_write_pending refuses. */
    predicate BadRetry(kind: byte, len: nat, at: nat)
      reads this
    {
      pendTot > len || (!movingBuffer && pendBuf != at) || pendKind != kind
    }

    /**
     * do_ssl3_write.  A positive result reports the pending record, or seals and sends a new one;
     * otherwise nothing changed, or the new record is sealed and waits to be reported.
     */
    method DoWrite(kind: byte, data: seq<byte>, at: nat) returns (ret: int)
      requires Valid()
      modifies this`pending, this`pendTot, this`pendRet, this`pendKind, this`pendBuf, this`records,
               this`hasFlight, this`flight, this`flightOffset, buffer, buffer.buf, bio
      ensures Valid() && (buffer.buf == null || buffer.buf == old(buffer.buf) || fresh(buffer.buf))
      ensures ret > 0 ==> !pending && ret <= |data|
      ensures old(pending) ==> records == old(records) && flightOffset == old(flightOffset)
      ensures old(pending) && ret > 0 ==> old(pendKind) == kind && ret == old(pendRet)
      ensures old(pending) && ret <= 0 ==> pending && pendRet == old(pendRet) && pendKind == old(pendKind)
      ensures !old(pending) && ret > 0 ==> ret == |data|
      ensures !old(pending) && ret <= 0 && records != old(records) ==> pending && pendKind == kind && pendRet == |data|
      ensures !old(pending) && ret <= 0 && records == old(records) ==> !pending
      ensures !old(pending) && ret > 0 ==> records != old(records)
      ensures records != old(records) ==> exists c :: records == old(records) + [Rec(kind, data, c)]
      ensures old(pending) && old(bio.limits) == [] && !old(BadRetry(kind, |data|, at)) ==> ret > 0
      ensures old(pending) && (pendKind != kind || pendTot > |data| || (!movingBuffer && pendBuf != at)) ==> ret == -1
      ensures old(pending) ==> pendKind == old(pendKind) && pendTot == old(pendTot) && pendBuf == old(pendBuf)
      ensures old(Idle()) && 0 < |data| <= maxFragment ==> AfterOne(old(bio.limits), ret) && (ret > 0 ==> Idle())
      ensures old(bio.limits) == [] ==> bio.limits == []
      ensures old(Open() && (if pending then !BadRetry(kind, |data|, at) else buffer.size == 0)) && 0 < |data| <= maxFragment ==>
                ret > 0 && Open() && buffer.size == 0
      ensures ret > 0 ==> buffer.size == 0 && (hasFlight ==> old(hasFlight && pending))
      ensures old(!pending && buffer.size == 0) && data == [] ==>
                ret == 0 && !pending && buffer.size == 0 && hasFlight == old(hasFlight)
      ensures old(!pending) && (|data| > 16384 || old(buffer.size) > 0) ==> ret == -1 && records == old(records)
      ensures old(!pending) && data != [] && |data| + overhead + old(if hasFlight then |flight| - flightOffset else 0) > MAX_CAP ==>
                ret == -1 && records == old(records)
    {
      hide PlainOf, Ciphers, Buffer.Valid, Buffer.Contents;
      if pending {
        ret := WritePending(kind, |data|, at);
        return;
      }
      if |data| > MAX_PLAIN || buffer.size > 0 {
        return -1;
      }
      if data == [] {
        return 0;
      }
      var ok := SealIntoBuffer(kind, data, at);
      if !ok {
        return -1;
      }
      ret := WritePending(kind, |data|, at);
    }

    /** From an idle writer one record goes out or is refused as the next limit of the transport says. */
    predicate AfterOne(limits: seq<int>, ret: int)
      reads this, bio
    {
      limits != [] ==>
        && (limits[0] <= 0 ==> ret <= 0)
        && (limits[0] >= maxFragment + overhead ==> ret > 0 && bio.limits == limits[1..])
    }

    /** The sealing half of do_ssl3_write: the rest of the flight goes into the buffer first. */
    method SealIntoBuffer(kind: byte, data: seq<byte>, at: nat) returns (ok: bool)
      requires Valid() && !pending && data != [] && buffer.size == 0
      modifies this`pending, this`pendTot, this`pendRet, this`pendKind, this`pendBuf, this`records,
               this`hasFlight, this`flight, this`flightOffset, buffer, buffer.buf
      ensures Valid() && (buffer.buf == null || buffer.buf == old(buffer.buf) || fresh(buffer.buf))
      ensures ok ==> pending && pendTot == |data| && pendKind == kind && pendBuf == at && !hasFlight
      ensures ok ==> exists c :: records == old(records) + [Rec(kind, data, c)]
      ensures !ok ==> records == old(records) && !pending
      ensures old(Idle()) && |data| <= maxFragment ==> ok && 0 < buffer.size <= maxFragment + overhead
      ensures old(Open()) && |data| <= maxFragment ==> ok
      ensures |data| + overhead + old(if hasFlight then |flight| - flightOffset else 0) > MAX_CAP ==> !ok
    {
      hide PlainOf, Ciphers, Buffer.Valid, Buffer.Contents;
      var flightLen := if hasFlight then |flight| - flightOffset else 0;
      var maxOut := |data| + overhead + flightLen;
      ok := buffer.EnsureCap(maxOut);
      if !ok {
        return;
      }
      MoveFlight();
      var cipher;
      ok, cipher := Seal(data);
      if !ok {
        return;
      }
      Store(kind, data, cipher, at);
    }

    /** The pending flight becomes the start of the write buffer. */
    method MoveFlight()
      requires Valid() && !pending && buffer.size == 0 && |FlightRest()| <= buffer.cap
      modifies this`hasFlight, this`flight, this`flightOffset, buffer, buffer.buf
      ensures Valid() && buffer.buf == old(buffer.buf) && !hasFlight && flightOffset == 0
      ensures buffer.cap == old(buffer.cap) && buffer.size == |old(FlightRest())|
    {
      hide PlainOf, Ciphers, Buffer.Contents, Buffer.Valid;
      if hasFlight {
        ghost var rest := FlightRest();
        assert buffer.Contents() == [];
        Shift(bio.accepted, rest);
        buffer.Append(flight[flightOffset..]);
        assert buffer.Contents() == rest;
        hasFlight, flight, flightOffset := false, [], 0;
      } else {
        flightOffset := 0;
      }
    }

    /** The sealed record goes behind what is in the buffer, and the arguments are remembered. */
    method Store(kind: byte, data: seq<byte>, cipher: seq<byte>, at: nat)
      requires Valid() && !pending && !hasFlight && data != [] && |cipher| <= buffer.cap - buffer.size
      modifies this`pending, this`pendTot, this`pendRet, this`pendKind, this`pendBuf, this`records, buffer, buffer.buf
      ensures Valid() && buffer.buf == old(buffer.buf) && buffer.size == old(buffer.size) + |cipher|
      ensures records == old(records) + [Rec(kind, data, cipher)]
      ensures pending && pendTot == |data| && pendKind == kind && pendBuf == at
    {
      hide PlainOf, Ciphers, Buffer.Contents, Buffer.Valid;
      OneMore(records, Rec(kind, data, cipher));
      ghost var was := buffer.Contents();
      buffer.Append(cipher);
      Assoc(bio.accepted, was, cipher);
      records := records + [Rec(kind, data, cipher)];
      pendTot, pendRet, pendKind, pendBuf := |data|, |data|, kind, at;
      pending := true;
      assert FlightRest() == [];
    }

    // ---------------------------------------------------------------- application data

    /** Application bytes the application has been told were written. */
    ghost function Reported(): seq<byte>
      requires InProgress() <= |Sealed(RT_APP)|
      reads this
    {
      Sealed(RT_APP)[..|Sealed(RT_APP)| - InProgress()]
    }

    /** `data` starts with the bytes that are sealed but not yet reported. */
    ghost predicate ContinuesWith(data: seq<byte>)
      requires InProgress() <= |Sealed(RT_APP)|
      reads this
    {
      InProgress() <= |data| && Sealed(RT_APP) == Reported() + data[..InProgress()]
    }

    /** The first `k` bytes of `data` are sealed, behind `before`. */
    ghost predicate Along(before: seq<byte>, data: seq<byte>, k: nat)
      reads this`records
    {
      k <= |data| && Sealed(RT_APP) == before + data[..k]
    }

    /**
     * From byte `tot` on, with nothing waiting, the transport takes whole records up to its first
     * refusal, and that comes before the end of the data.
     */
    ghost predicate InFragments(tot: nat, len: nat)
      reads this`pending, this`hasFlight, this`maxFragment, this`partialWrite, this`closed, buffer, bio
    {
      Idle() && !partialWrite && !closed && FullRecords(bio.limits, tot, len, maxFragment, overhead)
    }

    lemma NextIsFull(tot: nat, len: nat)
      ensures InFragments(tot, len) ==>
                Idle() && !partialWrite && !closed && tot < len && FullRecords(bio.limits, tot, len, maxFragment, overhead)
    {
      hide Idle, Steady;
    }

    /** What one record does to the progress: a refusal leaves it, a full record moves it by its size. */
    lemma OneOut(limits: seq<int>, ret: int, tot: nat, nw: nat, len: nat)
      requires FullRecords(limits, tot, len, maxFragment, overhead) && AfterOne(limits, ret)
      requires !partialWrite && !closed && (ret > 0 ==> Idle() && ret == nw)
      requires 0 < maxFragment && tot < len && nw == if len - tot > maxFragment then maxFragment else len - tot
      ensures ret <= 0 ==> Progress(limits, maxFragment) == 0
      ensures ret > 0 ==> ret == nw < len - tot && InFragments(tot + nw, len)
                          && nw + Progress(bio.limits, maxFragment) == Progress(limits, maxFragment)
    {
      hide Idle;
    }

    /** One record of ssl3_write_app_data: a new one, or the report of the pending one. */
    method WriteChunk(data: seq<byte>, at: nat, tot: nat, nw: nat, ghost before: seq<byte>) returns (ret: int)
      requires Valid() && tot + nw <= |data| && nw <= maxFragment && tot + Waiting(RT_APP) <= |Sealed(RT_APP)|
      modifies this`pending, this`pendTot, this`pendRet, this`pendKind, this`pendBuf, this`records,
               this`hasFlight, this`flight, this`flightOffset, buffer, buffer.buf, bio
      ensures Valid() && (buffer.buf == null || buffer.buf == old(buffer.buf) || fresh(buffer.buf))
      ensures ret <= nw && tot + (if ret > 0 then ret else Waiting(RT_APP)) <= |Sealed(RT_APP)|
      ensures ret > 0 ==> !pending
      ensures |Sealed(RT_APP)| - (if ret > 0 then ret else Waiting(RT_APP)) == old(|Sealed(RT_APP)| - Waiting(RT_APP))
      ensures nw < old(Waiting(RT_APP)) ==> ret == -1 && records == old(records) && Waiting(RT_APP) == old(Waiting(RT_APP))
      ensures old(Idle()) && 0 < nw ==> AfterOne(old(bio.limits), ret) && (ret > 0 ==> Idle() && ret == nw)
      ensures Grown(old(records), records, maxFragment)
      ensures old(Along(before, data, tot + Waiting(RT_APP))) ==>
                Along(before, data, tot + if ret > 0 then ret else Waiting(RT_APP))
      ensures OnlyOf(RT_APP, old(records), records)
      ensures old(Elsewhere(at + tot)) ==>
                ret == -1 && records == old(records) && Waiting(RT_APP) == old(Waiting(RT_APP))
      ensures old(Able(tot, tot + nw, at)) && 0 < nw ==> ret > 0 && Open() && buffer.size == 0
      ensures ret > 0 ==> ret == if old(pending) then old(pendRet) else nw
      ensures ret > 0 ==> buffer.size == 0 && (hasFlight ==> old(hasFlight && pending))
      ensures old(!pending && buffer.size == 0) && nw == 0 ==>
                ret == 0 && !pending && buffer.size == 0 && hasFlight == old(hasFlight)
    {
      hide PlainOf, Ciphers, Buffer.Valid, Buffer.Contents, Conserved;
      ghost var was := records;
      var chunk := data[tot..tot + nw];
      ret := DoWrite(RT_APP, chunk, at + tot);
      if records != was {
        ghost var c :| records == was + [Rec(RT_APP, chunk, c)];
        OneMore(was, Rec(RT_APP, chunk, c));
        NextChunk(before, data, tot, nw);
      }
    }

    /**
     * ssl3_write_app_data on `data` at address `at`.  If the caller retries with the same bytes,
     * every byte is sealed once: what has been sealed is what was reported before, then the
     * bytes now reported, or else those in progress.  A call that fails leaves what counts as
     * reported alone if and only if the write side is closed or the data is at least as long as
     * the progress remembered.
     */
    method WriteAppData(data: seq<byte>, at: nat) returns (ret: int)
      requires Valid()
      modifies this`wnum, this`pending, this`pendTot, this`pendRet, this`pendKind, this`pendBuf, this`records,
               this`hasFlight, this`flight, this`flightOffset, buffer, buffer.buf, bio
      ensures Valid() && (buffer.buf == null || buffer.buf == old(buffer.buf) || fresh(buffer.buf))
      ensures ret <= |data| && Grown(old(records), records, maxFragment)
      ensures ret > 0 && !partialWrite ==> ret == |data|
      ensures ret > 0 ==> InProgress() == 0
      ensures old(ContinuesWith(data)) ==>
                && InProgress() <= |data|
                && Sealed(RT_APP) == old(Reported()) + data[..if ret > 0 then ret else InProgress()]
      ensures closed ==> ret == -1 && records == old(records) && InProgress() == old(InProgress())
      ensures ret > 0 ==> |Reported()| == |old(Reported())| + ret
      ensures ret <= 0 ==> (Reported() == old(Reported()) <==> closed || old(wnum) <= |data|)
      ensures |data| < old(wnum) && !closed ==> ret == -1 && records == old(records) && InProgress() == old(Waiting(RT_APP))
      ensures old(wnum) <= |data| < old(InProgress()) && !closed ==>
                ret == -1 && records == old(records) && InProgress() == old(InProgress())
      ensures old(InFragments(wnum, |data|)) ==> ret <= 0 && wnum == old(wnum) + Progress(old(bio.limits), maxFragment)
      ensures old(Able(wnum, |data|, at)) && old(wnum) < |data| ==> ret > 0
      ensures ret > 0 && partialWrite ==> ret == old(wnum) + old(FirstChunk(wnum, |data|))
      ensures !closed && old(Elsewhere(at + wnum)) && old(wnum) <= |data| ==>
                ret == -1 && records == old(records) && InProgress() == old(InProgress())
      ensures ret > 0 ==> buffer.size == 0 && (hasFlight ==> old(hasFlight && pending))
      ensures old(!pending && buffer.size == 0) && !closed && old(wnum) == |data| ==>
                ret == 0 && !pending && buffer.size == 0 && hasFlight == old(hasFlight)
      ensures OnlyOf(RT_APP, old(records), records)
    {
      hide PlainOf, Ciphers, Buffer.Valid, Buffer.Contents, Conserved, InFragments, Progress, Grown, OnlyOf;
      ghost var before, retry := Reported(), ContinuesWith(data);
      GrownAtFirst();
      NextIsFull(wnum, |data|);
      assert retry ==> Along(before, data, InProgress());
      if closed {
        return -1;
      }
      var tot := wnum;
      Remember(0);
      if |data| < tot {
        return -1;
      }
      ret := Resume(data, at, tot, before);
    }

    /** The rest of ssl3_write_app_data, when the data is as long as the progress `from` remembered. */
    method Resume(data: seq<byte>, at: nat, from: nat, ghost before: seq<byte>) returns (ret: int)
      requires Valid() && wnum == 0 && from <= |data| && from + Waiting(RT_APP) <= |Sealed(RT_APP)|
      requires before == Sealed(RT_APP)[..|Sealed(RT_APP)| - Waiting(RT_APP) - from]
      modifies this`wnum, this`pending, this`pendTot, this`pendRet, this`pendKind, this`pendBuf, this`records,
               this`hasFlight, this`flight, this`flightOffset, buffer, buffer.buf, bio
      ensures Valid() && (buffer.buf == null || buffer.buf == old(buffer.buf) || fresh(buffer.buf))
      ensures ret <= |data| && (ret > 0 && !partialWrite ==> ret == |data|) && (ret > 0 ==> InProgress() == 0)
      ensures Grown(old(records), records, maxFragment) && OnlyOf(RT_APP, old(records), records)
      ensures |Reported()| == |before| + (if ret > 0 then ret else 0) && before <= Reported()
      ensures old(Along(before, data, from + Waiting(RT_APP))) ==> Along(before, data, if ret > 0 then ret else InProgress())
      ensures |data| < from + old(Waiting(RT_APP)) ==>
                ret == -1 && records == old(records) && InProgress() == from + old(Waiting(RT_APP))
      ensures old(InFragments(from, |data|)) ==> ret <= 0 && wnum == from + Progress(old(bio.limits), maxFragment)
      ensures old(Able(from, |data|, at)) && from < |data| ==> ret > 0
      ensures ret > 0 && partialWrite ==> ret == from + old(FirstChunk(from, |data|))
      ensures old(Elsewhere(at + from)) ==>
                ret == -1 && records == old(records) && InProgress() == from + old(Waiting(RT_APP))
      ensures ret > 0 ==> buffer.size == 0 && (hasFlight ==> old(hasFlight && pending))
      ensures old(!pending && buffer.size == 0) && from == |data| ==>
                ret == 0 && !pending && buffer.size == 0 && hasFlight == old(hasFlight)
    {
      hide PlainOf, Ciphers, Buffer.Valid, Buffer.Contents, Conserved, InFragments, Progress, Grown, OnlyOf, Opening, Stopped,
           Stands, Along, Able, FirstChunk;
      ghost var a := Opening(data, at, from, before);
      OpeningMeans(data, at, from, before);
      ret := WriteChunks(data, at, from, before);
      if ret > 0 { StandsMeans(a, data, at, before, ret); } else { StoppedMeans(a, data, before, wnum, ret); }
    }

    lemma GrownAtFirst()
      ensures Grown(records, records, maxFragment) && OnlyOf(RT_APP, records, records)
    {
    }

    lemma OpeningMeans(data: seq<byte>, at: nat, from: nat, before: seq<byte>)
      ensures var a := Opening(data, at, from, before);
              && a.records == records && a.from == from && a.waiting == Waiting(RT_APP)
              && a.reported == |Sealed(RT_APP)| - Waiting(RT_APP) - from
              && a.along == Along(before, data, from + Waiting(RT_APP))
              && a.steady == InFragments(from, |data|) && a.goal == from + Progress(bio.limits, maxFragment)
              && a.able == Able(from, |data|, at) && a.elsewhere == Elsewhere(at + from)
    {
    }

    lemma StandsMeans(a: Account, data: seq<byte>, at: nat, before: seq<byte>, tot: nat)
      requires Stands(a, data, at, before, tot)
      ensures PlainOf(a.records, RT_APP) <= Sealed(RT_APP) && |Sealed(RT_APP)| - Waiting(RT_APP) - tot == a.reported
      ensures Grown(a.records, records, maxFragment) && OnlyOf(RT_APP, a.records, records)
      ensures a.along ==> Along(before, data, tot + Waiting(RT_APP))
      ensures |data| < a.from + a.waiting ==> tot == a.from && records == a.records && Waiting(RT_APP) == a.waiting
    {
      hide PlainOf, Grown, OnlyOf, Along;
      GrownPlain(a.records, records, maxFragment, RT_APP);
    }

    lemma StoppedMeans(a: Account, data: seq<byte>, before: seq<byte>, tot: nat, ret: int)
      requires Stopped(a, data, before, tot, ret)
      ensures PlainOf(a.records, RT_APP) <= Sealed(RT_APP) && |Sealed(RT_APP)| - Waiting(RT_APP) - tot == a.reported
      ensures tot + Waiting(RT_APP) <= |Sealed(RT_APP)|
      ensures Grown(a.records, records, maxFragment) && OnlyOf(RT_APP, a.records, records)
      ensures a.along ==> Along(before, data, tot + Waiting(RT_APP))
      ensures |data| < a.from + a.waiting ==>
                ret == -1 && tot == a.from && records == a.records && Waiting(RT_APP) == a.waiting
      ensures a.steady ==> tot == a.goal
      ensures a.elsewhere ==> ret == -1 && tot == a.from && records == a.records && Waiting(RT_APP) == a.waiting
    {
      hide PlainOf, Grown, OnlyOf, Along;
      GrownPlain(a.records, records, maxFragment, RT_APP);
    }

    /** The account of the loop that starts now, from byte `from` on. */
    ghost function Opening(data: seq<byte>, at: nat, from: nat, before: seq<byte>): Account
      reads this, buffer, bio
    {
      Account(records, from, |Sealed(RT_APP)| - Waiting(RT_APP) - from, Waiting(RT_APP),
              Along(before, data, from + Waiting(RT_APP)), InFragments(from, |data|),
              from + Progress(bio.limits, maxFragment), Able(from, |data|, at),
              Elsewhere(at + from))
    }

    /** How the loop stands at byte `tot`, against its account. */
    ghost predicate Stands(a: Account, data: seq<byte>, at: nat, before: seq<byte>, tot: nat)
      reads this, buffer, bio
    {
      && |Sealed(RT_APP)| - Waiting(RT_APP) - tot == a.reported >= 0
      && Grown(a.records, records, maxFragment) && OnlyOf(RT_APP, a.records, records)
      && (a.along ==> Along(before, data, tot + Waiting(RT_APP)))
      && (|data| < a.from + a.waiting ==> tot == a.from && records == a.records && Waiting(RT_APP) == a.waiting)
      && (a.steady ==> InFragments(tot, |data|) && tot + Progress(bio.limits, maxFragment) == a.goal)
      && (a.able ==> Able(tot, |data|, at))
      && (a.elsewhere ==> Elsewhere(at + tot) && tot == a.from && records == a.records && Waiting(RT_APP) == a.waiting)
    }

    lemma StandsAtFirst(data: seq<byte>, at: nat, from: nat, before: seq<byte>)
      requires from + Waiting(RT_APP) <= |Sealed(RT_APP)|
      ensures Stands(Opening(data, at, from, before), data, at, before, from)
    {
      hide PlainOf, InFragments, Progress, Along;
    }

    /** One turn of the loop keeps the account. */
    method WriteTurn(data: seq<byte>, at: nat, tot: nat, nw: nat, ghost a: Account, ghost before: seq<byte>) returns (ret: int)
      requires Valid() && Stands(a, data, at, before, tot) && tot <= |data|
      requires nw == if |data| - tot > maxFragment then maxFragment else |data| - tot
      modifies this`pending, this`pendTot, this`pendRet, this`pendKind, this`pendBuf, this`records,
               this`hasFlight, this`flight, this`flightOffset, buffer, buffer.buf, bio
      ensures Valid() && (buffer.buf == null || buffer.buf == old(buffer.buf) || fresh(buffer.buf))
      ensures ret <= nw && (ret > 0 ==> !pending)
      ensures ret > 0 ==> Stands(a, data, at, before, tot + ret)
      ensures ret <= 0 ==> Stopped(a, data, before, tot, ret)
      ensures a.steady && ret > 0 ==> ret < |data| - tot && !partialWrite
      ensures a.able && tot < |data| ==> ret > 0
      ensures a.elsewhere ==> ret <= 0
      ensures ret > 0 ==> ret == if old(pending) then old(pendRet) else nw
      ensures old(Elsewhere(at + tot)) ==>
                ret == -1 && records == old(records) && Waiting(RT_APP) == old(Waiting(RT_APP))
      ensures ret > 0 ==> buffer.size == 0 && (hasFlight ==> old(hasFlight && pending))
      ensures old(!pending && buffer.size == 0) && tot == |data| ==>
                ret == 0 && !pending && buffer.size == 0 && hasFlight == old(hasFlight)
    {
      hide PlainOf, Ciphers, Buffer.Valid, Buffer.Contents, Conserved, Along, InFragments, AfterOne, Idle, Steady, Progress,
           OnlyOf, Grown, Open, BadRetry;
      ghost var prior, limits := records, bio.limits;
      NextIsFull(tot, |data|);
      ret := WriteChunk(data, at, tot, nw, before);
      OnlyThen(RT_APP, a.records, prior, records);
      GrownThen(a.records, prior, records, maxFragment);
      if a.steady { OneOut(limits, ret, tot, nw, |data|); }
    }

    /** How the loop ends at byte `tot` when a record is refused. */
    ghost predicate Stopped(a: Account, data: seq<byte>, before: seq<byte>, tot: nat, ret: int)
      reads this`records, this`pending, this`pendKind, this`pendRet, this`maxFragment
    {
      && |Sealed(RT_APP)| - Waiting(RT_APP) - tot == a.reported >= 0
      && Grown(a.records, records, maxFragment) && OnlyOf(RT_APP, a.records, records)
      && (a.along ==> Along(before, data, tot + Waiting(RT_APP)))
      && (|data| < a.from + a.waiting ==> ret == -1 && tot == a.from && records == a.records && Waiting(RT_APP) == a.waiting)
      && (a.steady ==> tot == a.goal)
      && (a.elsewhere ==> ret == -1 && tot == a.from && records == a.records && Waiting(RT_APP) == a.waiting)
    }

    /** How far the bytes offered have got is remembered for the retry. */
    method Remember(tot: nat)
      requires Valid() && tot + Waiting(RT_APP) <= |Sealed(RT_APP)|
      modifies this`wnum
      ensures Valid() && wnum == tot
    {
      hide PlainOf, Ciphers, Buffer.Valid, Buffer.Contents;
      wnum := tot;
    }

    /** The loop of ssl3_write_app_data, from `from` on. */
    method WriteChunks(data: seq<byte>, at: nat, from: nat, ghost before: seq<byte>) returns (ret: int)
      requires Valid() && wnum == 0 && from <= |data| && from + Waiting(RT_APP) <= |Sealed(RT_APP)|
      modifies this`wnum, this`pending, this`pendTot, this`pendRet, this`pendKind, this`pendBuf, this`records,
               this`hasFlight, this`flight, this`flightOffset, buffer, buffer.buf, bio
      ensures Valid() && (buffer.buf == null || buffer.buf == old(buffer.buf) || fresh(buffer.buf))
      ensures ret <= |data| && (ret > 0 ==> InProgress() == 0)
      ensures ret > 0 && !partialWrite ==> ret == |data|
      ensures ret <= 0 ==> Stopped(old(Opening(data, at, from, before)), data, before, wnum, ret)
      ensures ret > 0 ==>
                Stands(old(Opening(data, at, from, before)), data, at, before, ret) && !old(Opening(data, at, from, before)).steady
      ensures ret > 0 ==> !old(Elsewhere(at + from))
      ensures old(Able(from, |data|, at)) && from < |data| ==> ret > 0
      ensures ret > 0 && partialWrite ==> ret == from + old(FirstChunk(from, |data|))
      ensures ret > 0 ==> buffer.size == 0 && (hasFlight ==> old(hasFlight && pending))
      ensures old(!pending && buffer.size == 0) && from == |data| ==>
                ret == 0 && !pending && buffer.size == 0 && hasFlight == old(hasFlight)
    {
      hide Stands, Stopped, PlainOf, Buffer.Valid, Buffer.Contents, Conserved, Opening, InFragments, Able, Elsewhere, Grown,
           OnlyOf, FlightRest;
      StandsAtFirst(data, at, from, before);
      ghost var a := Opening(data, at, from, before);
      OpeningMeans(data, at, from, before);
      ghost var first := FirstChunk(from, |data|);
      var tot, n := from, |data| - from;
      while true
        invariant Valid() && wnum == 0 && tot <= |data| && n == |data| - tot
        invariant buffer.buf == null || buffer.buf == old(buffer.buf) || fresh(buffer.buf)
        invariant Stands(a, data, at, before, tot)
        invariant tot == from || (n > 0 && !partialWrite)
        invariant tot == from ==> FirstChunk(from, |data|) == first && pending == old(pending)
        invariant tot == from ==> buffer.size == old(buffer.size) && hasFlight == old(hasFlight)
        invariant hasFlight ==> old(hasFlight) && (tot == from || old(pending))
        invariant tot > from ==> buffer.size == 0
        decreases n
      {
        var nw := if n > maxFragment then maxFragment else n;
        ret := WriteTurn(data, at, tot, nw, a, before);
        if ret <= 0 {
          StoppedMeans(a, data, before, tot, ret);
          Remember(tot);
          return;
        }
        if ret == n || partialWrite {
          return tot + ret;
        }
        n := n - ret;
        tot := tot + ret;
      }
    }
  }

  /**
   * What ssl3_write_app_data starts from: the records so far, the first byte to send, the number
   * of bytes reported before, those of the pending record, whether the data continues what is
   * sealed, whether and where the transport's refusals are known, whether nothing is in the way, and whether
   * the pending record is not where it was.
   */
  datatype Account = Account(records: seq<Rec>, from: nat, reported: int, waiting: nat, along: bool, steady: bool, goal: nat, able: bool,
                             elsewhere: bool)

  predicate FullRecords(limits: seq<int>, tot: nat, len: nat, fragment: nat, overhead: nat) {
    Steady(limits, fragment + overhead) && tot + Progress(limits, fragment) < len
  }

  /** The transport takes `enough` at a time until it refuses. */
  predicate Steady(limits: seq<int>, enough: nat) {
    limits != [] && (limits[0] <= 0 || (limits[0] >= enough && Steady(limits[1..], enough)))
  }

  /** The application bytes of the full records the transport takes before it refuses. */
  function Progress(limits: seq<int>, fragment: nat): nat {
    if limits == [] || limits[0] <= 0 then 0 else fragment + Progress(limits[1..], fragment)
  }

  lemma EmptyBetween(front: seq<byte>, rest: seq<byte>)
    ensures front + [] + rest == front + rest
  {
  }

  lemma Shift(front: seq<byte>, rest: seq<byte>)
    ensures front + [] + rest == front + rest + [] && [] + rest == rest
  {
  }

  lemma NextChunk(before: seq<byte>, data: seq<byte>, tot: nat, nw: nat)
    requires tot + nw <= |data|
    ensures before + data[..tot] + data[tot..tot + nw] == before + data[..tot + nw]
  {
    assert data[..tot] + data[tot..tot + nw] == data[..tot + nw];
  }

  lemma Assoc(a: seq<byte>, b: seq<byte>, c: seq<byte>)
    ensures a + b + c == a + (b + c)
  {
  }
}
