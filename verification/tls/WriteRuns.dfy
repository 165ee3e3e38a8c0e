/** Whole runs of the write path: any order of calls, any partial writes and failures. */
module WriteRuns {
  import opened Bits
  import opened SslBuffer
  import opened WritePath

  /**
   * A call into the write path.  `Write` offers the next `len` bytes of the application's stream
   * at some address; the application repeats what it has not been told was written.
   * `Shutdown` closes the write side.
   */
  datatype Op =
    | Write(len: nat, at: nat)
    | Message(body: seq<byte>)
    | Record(kind: byte, data: seq<byte>)
    | Flush(flushed: bool)
    | Alert(data: seq<byte>, at: nat)
    | Shutdown

  /** What the application offers: up to `len` bytes behind those it has been told were written. */
  function Offered(stream: seq<byte>, told: nat, len: nat): seq<byte>
    requires told <= |stream|
  {
    stream[told..if told + len <= |stream| then told + len else |stream|]
  }

  /** The application data `sealed` is the stream up to what was reported and the `progress` made since. */
  ghost predicate Exact(stream: seq<byte>, told: nat, sealed: seq<byte>, progress: nat) {
    told + progress <= |stream| && sealed == stream[..told + progress]
  }

  /**
   * Runs `ops`, all of them, whatever their lengths and outcomes.  Throughout, the sealed bytes
   * are the accepted bytes followed by the write buffer and the rest of the flight (`Valid`).
   * `lost` counts the bytes that count as reported though the application was not told.  As long
   * as it is zero the application data sealed is exactly the stream up to what was reported and
   * what is in progress, every byte once and none skipped; and it is zero if and only if no
   * write on the open connection was shorter than the progress remembered.
   */
  method Drive(w: Writer, stream: seq<byte>, ops: seq<Op>) returns (told: nat, ghost lost: nat, ghost short: bool)
    requires w.Valid() && w.records == [] && w.InProgress() == 0
    modifies w, w.buffer, w.buffer.buf, w.bio
    ensures w.Valid() && told <= |stream|
    ensures |w.Sealed(RT_APP)| == told + lost + w.InProgress()
    ensures Exact(stream, told, w.Sealed(RT_APP), w.InProgress()) <==> lost == 0
    ensures lost == 0 <==> !short
    ensures Ciphers(w.records) == w.bio.accepted + w.buffer.Contents() + w.FlightRest()
  {
    hide PlainOf, Ciphers, Buffer.Valid, Buffer.Contents, Writer.Conserved, Exact;
    NothingSealed();
    ExactAtFirst(stream);
    told, lost, short := 0, 0, false;
    for i := 0 to |ops|
      invariant w.Valid() && told <= |stream|
      invariant w.buffer.buf == null || w.buffer.buf == old(w.buffer.buf) || fresh(w.buffer.buf)
      invariant |w.Reported()| == told + lost
      invariant lost == 0 ==> Exact(stream, told, w.Sealed(RT_APP), w.InProgress())
      invariant lost == 0 <==> !short
    {
      match ops[i] {
        case Write(len, at) =>
          ghost var forgot;
          short := short || (!w.closed && |Offered(stream, told, len)| < w.wnum);
          told, forgot := Offer(w, stream, told, len, at);
          lost := lost + forgot;
        case Message(body) =>
          AddMessage(w, body);
        case Record(kind, data) =>
          if w.flightOffset == 0 && kind != RT_APP {
            AddOther(w, kind, data);
          }
        case Flush(flushed) =>
          var ret := w.FlushFlight(flushed);
        case Alert(data, at) =>
          WriteAlert(w, data, at);
        case Shutdown =>
          Close(w);
      }
    }
    ConservedMeans(w);
    if lost > 0 { NotExact(stream, told, w.Sealed(RT_APP), w.InProgress()); }
  }

  lemma ConservedMeans(w: Writer)
    requires w.Valid()
    ensures Ciphers(w.records) == w.bio.accepted + w.buffer.Contents() + w.FlightRest()
  {
    hide Ciphers, Buffer.Valid, Buffer.Contents, PlainOf;
  }

  lemma ExactAtFirst(stream: seq<byte>)
    ensures Exact(stream, 0, [], 0)
  {
  }

  lemma NotExact(stream: seq<byte>, told: nat, sealed: seq<byte>, progress: nat)
    requires |sealed| != told + progress
    ensures !Exact(stream, told, sealed, progress)
  {
  }

  /** ssl3_add_message, which needs a flight of which nothing has been written. */
  method AddMessage(w: Writer, body: seq<byte>)
    requires w.Valid()
    modifies w`hasFlight, w`flight, w`records
    ensures w.Valid() && w.Sealed(RT_APP) == old(w.Sealed(RT_APP))
  {
    hide PlainOf, Ciphers, Buffer.Valid, Buffer.Contents, Writer.Conserved;
    if w.flightOffset == 0 {
      var ok := w.AddMessage(body);
    }
  }

  /** SSL_shutdown closes the write side. */
  method Close(w: Writer)
    requires w.Valid()
    modifies w`closed
    ensures w.Valid() && w.closed
  {
    hide PlainOf, Ciphers, Buffer.Valid, Buffer.Contents;
    w.closed := true;
  }

  /**
   * One SSL_write of what the application has not been told was written.  The account stays
   * exact unless the data is shorter than the progress remembered; then that progress is
   * forgotten: it counts as reported though the application was told nothing.
   */
  method Offer(w: Writer, stream: seq<byte>, told: nat, len: nat, at: nat) returns (more: nat, ghost forgot: nat)
    requires w.Valid() && told <= |stream|
    modifies w, w.buffer, w.buffer.buf, w.bio
    ensures w.Valid() && told <= more <= |stream|
    ensures w.buffer.buf == null || w.buffer.buf == old(w.buffer.buf) || fresh(w.buffer.buf)
    ensures forgot == old(if !w.closed && |Offered(stream, told, len)| < w.wnum then w.wnum else 0)
    ensures |w.Reported()| == |old(w.Reported())| + (more - told) + forgot
    ensures old(Exact(stream, told, w.Sealed(RT_APP), w.InProgress())) && forgot == 0 ==>
              Exact(stream, more, w.Sealed(RT_APP), w.InProgress())
    ensures old(w.Able(w.wnum, |Offered(stream, told, len)|, at) && w.wnum < |Offered(stream, told, len)|) ==> more > told
    ensures more > told && !w.partialWrite ==> more == told + |Offered(stream, told, len)|
  {
    hide PlainOf, Ciphers, Buffer.Valid, Buffer.Contents, Writer.Conserved, Writer.Able, Writer.InFragments,
         Writer.FirstChunk, Grown, OnlyOf, Offered;
    var data := Offered(stream, told, len);
    forgot := if !w.closed && |data| < w.wnum then w.wnum else 0;
    ghost var k, exact := w.InProgress(), Exact(stream, told, w.Sealed(RT_APP), w.InProgress());
    OfferedIs(stream, told, len, k);
    assert exact ==> w.Reported() == stream[..told];
    var ret := w.WriteAppData(data, at);
    more := if ret > 0 then told + ret else told;
    ghost var j := if ret > 0 then ret else w.InProgress();
    OfferedIs(stream, told, len, j);
  }

  lemma OfferedIs(stream: seq<byte>, told: nat, len: nat, k: nat)
    requires told <= |stream|
    ensures k <= |Offered(stream, told, len)| ==>
              told + k <= |stream| && stream[..told + k] == stream[..told] + Offered(stream, told, len)[..k]
  {
  }

  method AddOther(w: Writer, kind: byte, data: seq<byte>)
    requires w.Valid() && w.flightOffset == 0 && kind != RT_APP
    modifies w`hasFlight, w`flight, w`records
    ensures w.Valid() && w.Sealed(RT_APP) == old(w.Sealed(RT_APP))
  {
    hide PlainOf, Ciphers, Buffer.Valid, Buffer.Contents, Writer.Conserved;
    ghost var was := w.records;
    var ok := w.AddRecordToFlight(kind, data);
    if ok {
      ghost var c :| w.records == was + [Rec(kind, data, c)];
      OneMore(was, Rec(kind, data, c));
    }
  }

  /** ssl3_dispatch_alert */
  method WriteAlert(w: Writer, data: seq<byte>, at: nat)
    requires w.Valid()
    modifies w, w.buffer, w.buffer.buf, w.bio
    ensures w.Valid() && w.Sealed(RT_APP) == old(w.Sealed(RT_APP)) && w.InProgress() == old(w.InProgress())
    ensures w.buffer.buf == null || w.buffer.buf == old(w.buffer.buf) || fresh(w.buffer.buf)
  {
    hide PlainOf, Ciphers, Buffer.Valid, Buffer.Contents, Writer.Conserved;
    ghost var was := w.records;
    var ret := w.DoWrite(RT_ALERT, data, at);
    if w.records != was {
      ghost var c :| w.records == was + [Rec(RT_ALERT, data, c)];
      OneMore(was, Rec(RT_ALERT, data, c));
    }
  }

  // ---------------------------------------------------------------- completion

  /** The messages one after the other. */
  function Joined(msgs: seq<seq<byte>>): seq<byte> {
    if msgs == [] then [] else Joined(msgs[..|msgs| - 1]) + msgs[|msgs| - 1]
  }

  /** At most this much do the messages take in a flight. */
  function FlightSize(msgs: seq<seq<byte>>, max: nat, overhead: nat): nat
    requires max > 0
  {
    if msgs == [] then 0
    else
      var last := |msgs[|msgs| - 1]|;
      FlightSize(msgs[..|msgs| - 1], max, overhead) + last + Pieces(last, max) * overhead
  }

  lemma OneMessage(msgs: seq<seq<byte>>, i: nat, max: nat, overhead: nat)
    requires i < |msgs| && max > 0
    ensures Joined(msgs[..i + 1]) == Joined(msgs[..i]) + msgs[i]
    ensures FlightSize(msgs[..i + 1], max, overhead) ==
              FlightSize(msgs[..i], max, overhead) + |msgs[i]| + Pieces(|msgs[i]|, max) * overhead
  {
    assert msgs[..i + 1][..i] == msgs[..i];
  }

  /** Any number of messages, queued on an open connection that can seal them. */
  method AddMessages(w: Writer, msgs: seq<seq<byte>>)
    requires w.Valid() && w.sealable && w.flightOffset == 0
    modifies w`hasFlight, w`flight, w`records
    ensures w.Valid() && w.flightOffset == 0 && w.Sealed(RT_HANDSHAKE) == old(w.Sealed(RT_HANDSHAKE)) + Joined(msgs)
    ensures w.Sealed(RT_APP) == old(w.Sealed(RT_APP))
    ensures |w.flight| <= |old(w.flight)| + FlightSize(msgs, w.maxFragment, w.overhead)
    ensures msgs != [] ==> w.hasFlight
  {
    hide PlainOf, Ciphers, Buffer.Valid, Buffer.Contents, Writer.Conserved, Pieces, Joined, FlightSize;
    ghost var before, size := w.Sealed(RT_HANDSHAKE), |w.flight|;
    NoMessages(msgs, w.maxFragment, w.overhead);
    for i := 0 to |msgs|
      invariant w.Valid() && w.flightOffset == 0 && (i > 0 ==> w.hasFlight)
      invariant w.Sealed(RT_HANDSHAKE) == before + Joined(msgs[..i]) && w.Sealed(RT_APP) == old(w.Sealed(RT_APP))
      invariant |w.flight| <= size + FlightSize(msgs[..i], w.maxFragment, w.overhead)
    {
      OneMessage(msgs, i, w.maxFragment, w.overhead);
      var ok := w.AddMessage(msgs[i]);
      Behind(before, Joined(msgs[..i]), msgs[i]);
    }
    assert msgs[..|msgs|] == msgs;
  }

  lemma NoMessages(msgs: seq<seq<byte>>, max: nat, overhead: nat)
    requires max > 0
    ensures Joined(msgs[..0]) == [] && FlightSize(msgs[..0], max, overhead) == 0
  {
  }

  lemma Behind(a: seq<byte>, b: seq<byte>, c: seq<byte>)
    ensures a + b + c == a + (b + c)
  {
  }

  /**
   * On an open connection whose transport takes what it is given, a flight of any messages and
   * then the application's stream get through: every call succeeds, and what the transport has
   * accepted is all that was sealed, the messages and the whole stream.
   */
  method Complete(w: Writer, msgs: seq<seq<byte>>, stream: seq<byte>, at: nat) returns (flushed: int, written: int)
    requires w.Valid() && w.Idle() && !w.closed && !w.partialWrite && w.bio.limits == []
    requires w.records == [] && w.InProgress() == 0 && w.flight == [] && w.flightOffset == 0
    requires FlightSize(msgs, w.maxFragment, w.overhead) <= INT_MAX
    modifies w, w.buffer, w.buffer.buf, w.bio
    ensures w.Valid() && flushed == 1 && written == |stream|
    ensures w.Sealed(RT_HANDSHAKE) == Joined(msgs) && w.Sealed(RT_APP) == stream && w.InProgress() == 0
    ensures w.bio.accepted == Ciphers(w.records)
  {
    hide PlainOf, Ciphers, Buffer.Valid, Buffer.Contents, Writer.Conserved, Pieces, Joined, FlightSize;
    NothingSealed();
    AddMessages(w, msgs);
    flushed := w.FlushFlight(true);
    written := WriteStream(w, stream, at);
  }

  method WriteStream(w: Writer, stream: seq<byte>, at: nat) returns (ret: int)
    requires w.Valid() && w.Idle() && !w.closed && !w.partialWrite && w.bio.limits == []
    requires w.Sealed(RT_APP) == [] && w.wnum == 0
    modifies w, w.buffer, w.buffer.buf, w.bio
    ensures w.Valid() && ret == |stream| && w.Sealed(RT_APP) == stream && w.InProgress() == 0
    ensures w.Sealed(RT_HANDSHAKE) == old(w.Sealed(RT_HANDSHAKE)) && w.bio.accepted == Ciphers(w.records)
  {
    hide PlainOf, Ciphers, Buffer.Valid, Buffer.Contents, Writer.Conserved, Grown, Writer.InFragments, Writer.FirstChunk;
    assert w.Reported() == [] && w.ContinuesWith(stream);
    ret := w.WriteAppData(stream, at);
    AllAccepted(w);
  }

  lemma AllAccepted(w: Writer)
    requires w.Valid() && w.buffer.size == 0 && !w.hasFlight
    ensures w.bio.accepted == Ciphers(w.records)
  {
  }

  lemma NothingSealed()
    ensures forall kind :: PlainOf([], kind) == []
  {
  }

  /** A retry shorter than the progress remembered fails and forgets that progress. */
  method ShortRetryForgets(w: Writer, data: seq<byte>, short: nat, at: nat) returns (ret: int)
    requires w.Valid() && !w.closed && short < w.wnum && w.ContinuesWith(data)
    modifies w, w.buffer, w.buffer.buf, w.bio
    ensures w.Valid() && ret == -1 && w.Reported() == old(w.Reported()) + data[..old(w.wnum)]
  {
    hide PlainOf, Ciphers, Buffer.Valid, Buffer.Contents, Writer.Conserved;
    ghost var before, done, k := w.Reported(), w.wnum, w.InProgress();
    ret := w.WriteAppData(data[..short], at);
    assert data[..k] == data[..done] + data[done..k];
    assert before + data[..k] == before + data[..done] + data[done..k];
  }

  /**
   * Such progress does arise: on a fresh connection the transport takes the first of two records
   * and refuses the second; a retry with nothing then fails too, and yet a byte counts as reported.
   */
  method ProgressForgotten() returns (w: Writer, first: int, second: int)
    ensures fresh(w) && w.Valid() && first <= 0 && second == -1
    ensures |w.Reported()| == 1
  {
    hide PlainOf, Ciphers, Buffer.Valid, Buffer.Contents, Writer.Conserved;
    var bio := new Transport([6, 0]);
    w := new Writer(bio, 1, 5, true);
    NothingSealed();
    assert [6, 0][1..] == [0];
    assert Steady([0], 6) && Progress([0], 1) == 0;
    assert w.InFragments(w.wnum, 2);
    first := w.WriteAppData([1, 2], 0);
    assert w.wnum == 1;
    second := w.WriteAppData([], 0);
  }
}
