/**
 * dtls_open_record (dtls_record.cc) and dtls1_set_read_state (dtls_method.cc): which records
 * a connection accepts over a whole run, with epoch changes.
 */
module DtlsRecord {
  import opened Bits
  import opened Bytes
  import opened Replay

  // ---------------------------------------------------------------- runs of the read side

  /** `accepted` lists the numbers recorded so far, oldest first. */
  datatype ReadSide = ReadSide(epoch: nat, window: Window, accepted: seq<nat>)

  /** A record arrives, authentic if the AEAD opens it to a plaintext of legal size. */
  datatype Event = Arrive(n: nat, authentic: bool) | NextEpoch

  const Start := ReadSide(0, Window(0, 0), [])

  predicate Accepts(st: ReadSide, n: nat, authentic: bool) {
    EpochOf(n) == st.epoch && !Discards(st.window, n) && authentic
  }

  function Step(st: ReadSide, e: Event): ReadSide {
    match e
    case Arrive(n, authentic) =>
      if Accepts(st, n, authentic) then ReadSide(st.epoch, Recorded(st.window, n), st.accepted + [n]) else st
    case NextEpoch => ReadSide((st.epoch + 1) % EPOCHS, Window(0, 0), st.accepted)
  }

  function Run(es: seq<Event>): ReadSide {
    if es == [] then Start else Step(Run(es[..|es| - 1]), es[|es| - 1])
  }

  function EpochChanges(es: seq<Event>): nat {
    if es == [] then 0 else EpochChanges(es[..|es| - 1]) + if es[|es| - 1].NextEpoch? then 1 else 0
  }

  /** The numbers accepted in the current epoch. */
  function Current(st: ReadSide): set<nat> {
    set n | n in st.accepted && EpochOf(n) == st.epoch
  }

  ghost predicate NoRepeats(s: seq<nat>) {
    forall i, j :: 0 <= i < j < |s| ==> s[i] != s[j]
  }

  ghost predicate Sound(st: ReadSide) {
    && Tracks(st.window, Current(st))
    && NoRepeats(st.accepted)
    && forall n :: n in st.accepted ==> EpochOf(n) <= st.epoch
  }

  /** Every step without a wrap of the 16-bit epoch keeps the invariant. */
  lemma StepSound(st: ReadSide, e: Event)
    requires Sound(st) && (e.NextEpoch? ==> st.epoch + 1 < EPOCHS)
    ensures Sound(Step(st, e))
  {
    hide Discards, Recorded, Tracks;
    var next := Step(st, e);
    match e {
      case Arrive(n, authentic) =>
        if Accepts(st, n, authentic) {
          DiscardsSeenOrStale(st.window, Current(st), n);
          RecordedTracks(st.window, Current(st), n);
          assert Current(next) == Current(st) + {n};
          assert n !in st.accepted;
        }
      case NextEpoch =>
        EmptyTracks();
        assert Current(next) == {};
    }
  }

  lemma {:induction false} RunSound(es: seq<Event>)
    requires EpochChanges(es) < EPOCHS
    ensures Sound(Run(es)) && Run(es).epoch == EpochChanges(es)
  {
    hide Sound;
    if es == [] {
      StartSound();
    } else {
      RunSound(es[..|es| - 1]);
      StepSound(Run(es[..|es| - 1]), es[|es| - 1]);
    }
  }

  lemma StartSound()
    ensures Sound(Start)
  {
    EmptyTracks();
    assert Current(Start) == {};
  }

  /** Over every run whose epoch does not wrap, no record number is accepted twice. */
  lemma AcceptedOnce(es: seq<Event>, i: nat, j: nat)
    requires EpochChanges(es) < EPOCHS && i < j < |Run(es).accepted|
    ensures Run(es).accepted[i] != Run(es).accepted[j]
  {
    hide Run;
    RunSound(es);
  }

  /**
   * An authentic record of the current epoch is accepted exactly when it is new and less
   * than 64 behind every record accepted in this epoch.
   */
  lemma AcceptedWhenFresh(es: seq<Event>, n: nat)
    requires EpochChanges(es) < EPOCHS && EpochOf(n) == Run(es).epoch
    ensures Accepts(Run(es), n, true) <==>
              n !in Run(es).accepted && forall m :: m in Current(Run(es)) ==> m < n + 64
  {
    hide Run, Discards;
    RunSound(es);
    DiscardsSeenOrStale(Run(es).window, Current(Run(es)), n);
  }

  lemma RunOne(es: seq<Event>, e: Event)
    ensures Run(es + [e]) == Step(Run(es), e)
    ensures EpochChanges(es + [e]) == EpochChanges(es) + if e.NextEpoch? then 1 else 0
  {
    assert (es + [e])[..|es|] == es;
  }

  lemma {:induction false} AllChanges(k: nat, es: seq<Event>)
    ensures EpochChanges(es + seq(k, _ => NextEpoch)) == EpochChanges(es) + k
    ensures var st := Run(es + seq(k, _ => NextEpoch));
            && st.accepted == Run(es).accepted
            && (Run(es).epoch < EPOCHS ==> st.epoch == (Run(es).epoch + k) % EPOCHS)
            && (k > 0 ==> st.window == Window(0, 0))
  {
    hide Run, EpochChanges;
    var more := es + seq(k, _ => NextEpoch);
    if k == 0 {
      assert more == es;
    } else {
      AllChanges(k - 1, es);
      var less := es + seq(k - 1, _ => NextEpoch);
      RunOne(less, NextEpoch);
      assert more == less + [NextEpoch];
    }
  }

  /** After 2^16 epoch changes the epoch repeats, and a record can be accepted again. */
  lemma WrapForgets(k: nat) returns (es: seq<Event>)
    requires k >= EPOCHS
    ensures EpochChanges(es) == k && !NoRepeats(Run(es).accepted)
  {
    hide Run, EpochChanges, Discards;
    var before := seq(k - EPOCHS, _ => NextEpoch);
    AllChanges(k - EPOCHS, []);
    NothingRun();
    assert [] + before == before;
    var epoch := Run(before).epoch;
    var n := epoch * PER_EPOCH;
    EmptyTracks();
    DiscardsSeenOrStale(Window(0, 0), {}, n);
    RunOne(before, Arrive(n, true));
    var first := before + [Arrive(n, true)];
    AllChanges(EPOCHS, first);
    var second := first + seq(EPOCHS, _ => NextEpoch);
    RunOne(second, Arrive(n, true));
    es := second + [Arrive(n, true)];
    assert Run(es).accepted == [n, n];
    assert Run(es).accepted[0] == Run(es).accepted[1];
  }

  /** Runs with `k` epoch changes never accept a record twice exactly when the epoch cannot wrap. */
  lemma NoRepeatsUnlessWrapped(k: nat)
    ensures (forall es | EpochChanges(es) == k :: NoRepeats(Run(es).accepted)) <==> k < 0x1_0000
  {
    hide Run, EpochChanges;
    if k < EPOCHS {
      forall es | EpochChanges(es) == k ensures NoRepeats(Run(es).accepted) { RunSound(es); }
    } else {
      var es := WrapForgets(k);
    }
  }

  lemma NothingRun()
    ensures Run([]) == Start && EpochChanges([]) == 0
  {
  }

  // ---------------------------------------------------------------- dtls_open_record

  const MAX_ENCRYPTED: nat := 16704
  const MAX_PLAIN: nat := 16384
  const VERSION_MAJOR: nat := 0xFE

  /** The parts of a record, and how many bytes of the packet it took. */
  datatype Record = Record(kind: byte, version: nat, sequence: seq<byte>, body: seq<byte>, size: nat)
  datatype Parsed = Malformed | Parsed(record: Record)

  function ParseRecord(b: seq<byte>): (p: Parsed)
    ensures p.Parsed? ==> |p.record.sequence| == 8 && 13 <= p.record.size <= |b|
    ensures p.Parsed? ==> p.record.body == b[13..p.record.size]
  {
    if |b| < 13 then Malformed
    else
      var n := 256 * (b[11] as nat) + b[12];
      if |b| < 13 + n || n > MAX_ENCRYPTED then Malformed
      else Parsed(Record(b[0], 256 * (b[1] as nat) + b[2], b[3..11], b[13..13 + n], 13 + n))
  }

  /** ssl_open_record_t, with the record's type and plaintext when there is one. */
  datatype Outcome = CloseNotify | Partial | Discard | TooLong | Opened(kind: byte, plain: seq<byte>)

  /** What the AEAD makes of a record body; None when it does not authenticate. */
  datatype Aead = Bad | Good(plain: seq<byte>)

  predicate VersionOk(nullCipher: bool, version: nat, record: Record) {
    if nullCipher then record.version / 256 == VERSION_MAJOR else record.version == version
  }

  /** Whether the record is opened: well formed, right version, right epoch, no replay, authentic. */
  predicate IsOpened(st: ReadSide, nullCipher: bool, version: nat, b: seq<byte>, aead: Aead) {
    var p := ParseRecord(b);
    && p.Parsed?
    && VersionOk(nullCipher, version, p.record)
    && EpochOf(BigEndian(p.record.sequence)) == st.epoch
    && !Discards(st.window, BigEndian(p.record.sequence))
    && aead.Good? && |aead.plain| <= MAX_PLAIN
  }

  class RecordReader {
    var closed: bool
    var rEpoch: nat
    const bitmap: Bitmap
    ghost var accepted: seq<nat>

    ghost predicate Valid()
      reads this
    {
      rEpoch < EPOCHS
    }

    ghost function View(): ReadSide
      reads this, bitmap
    {
      ReadSide(rEpoch, bitmap.Value(), accepted)
    }

    constructor ()
      ensures Valid() && View() == Start && fresh(bitmap) && !closed
    {
      closed := false;
      rEpoch := 0;
      accepted := [];
      bitmap := new Bitmap();
    }

    /**
     * dtls_open_record.  The read side takes exactly the step of an arriving record, and the
     * plaintext is handed out exactly when that step accepts it.
     */
    method OpenRecord(b: seq<byte>, nullCipher: bool, version: nat, aead: Aead) returns (ret: Outcome, consumed: nat)
      requires Valid()
      modifies this, bitmap
      ensures Valid() && closed == old(closed) && consumed <= |b|
      ensures ret.Opened? <==> !closed && IsOpened(old(View()), nullCipher, version, b, aead)
      ensures ret.Opened? ==> ret.kind == ParseRecord(b).record.kind && ret.plain == aead.plain
      ensures View() == if ret.Opened? then Step(old(View()), Arrive(BigEndian(ParseRecord(b).record.sequence), true))
                        else old(View())
      ensures ret.Partial? <==> !closed && b == []
      ensures ret.CloseNotify? <==> closed
      ensures ret.Discard? || ret.Opened? || ret.TooLong? ==>
                consumed == if ParseRecord(b).Parsed? && (ret.Discard? ==> VersionOk(nullCipher, version, ParseRecord(b).record))
                            then ParseRecord(b).record.size else |b|
    {
      hide Discards, Recorded, BigEndian;
      consumed := 0;
      if closed {
        return CloseNotify, consumed;
      }
      if b == [] {
        return Partial, consumed;
      }
      var p := ParseRecord(b);
      if p.Malformed? {
        return Discard, |b|;
      }
      var record := p.record;
      if !VersionOk(nullCipher, version, record) {
        return Discard, |b|;
      }
      consumed := record.size;
      var epoch := 256 * (record.sequence[0] as nat) + record.sequence[1];
      EpochBytes(record.sequence);
      if epoch != rEpoch {
        return Discard, consumed;
      }
      var discard := bitmap.ShouldDiscard(record.sequence);
      if discard || aead.Bad? {
        return Discard, consumed;
      }
      if |aead.plain| > MAX_PLAIN {
        return TooLong, consumed;
      }
      bitmap.Record(record.sequence);
      accepted := accepted + [BigEndian(record.sequence)];
      return Opened(record.kind, aead.plain), consumed;
    }

    /** dtls1_set_read_state; `leftover` is dtls_has_unprocessed_handshake_data. */
    method SetReadState(leftover: bool) returns (ok: bool)
      requires Valid()
      modifies this, bitmap
      ensures Valid() && closed == old(closed) && ok == !leftover
      ensures View() == if ok then Step(old(View()), NextEpoch) else old(View())
    {
      if leftover {
        return false;
      }
      rEpoch := (rEpoch + 1) % EPOCHS;
      bitmap.Reset();
      return true;
    }
  }
}
