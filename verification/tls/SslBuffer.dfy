/** ssl_buffer.cc: a byte buffer consumed from the front, and the transport it is flushed to. */
module SslBuffer {
  import opened Bits

  const ALIGN_PAYLOAD: nat := 8
  const MAX_CAP: nat := 0xFFFF

  /** The write BIO: `limits` bounds what the next writes accept; a limit of zero or less is a failure. */
  class Transport {
    var limits: seq<int>
    var accepted: seq<byte>

    constructor (limits: seq<int>)
      ensures accepted == [] && this.limits == limits
    {
      this.limits := limits;
      accepted := [];
    }

    /** BIO_write: fails or accepts a nonempty prefix. */
    method Write(data: seq<byte>) returns (ret: int)
      requires data != []
      modifies this
      ensures ret <= |data|
      ensures accepted == old(accepted) + data[..if ret > 0 then ret else 0]
      ensures old(limits) == [] ==> ret == |data| && limits == []
      ensures old(limits) != [] ==> ret == (if old(limits)[0] < |data| then old(limits)[0] else |data|)
      ensures old(limits) != [] ==> limits == old(limits)[1..]
    {
      ret := |data|;
      if limits != [] {
        if limits[0] < ret {
          ret := limits[0];
        }
        limits := limits[1..];
      }
      accepted := accepted + data[..if ret > 0 then ret else 0];
    }
  }

  /** SSLBuffer */
  class Buffer {
    var buf: array?<byte>
    var offset: nat
    var size: nat
    var cap: nat

    ghost predicate Valid()
      reads this
    {
      && size <= cap <= MAX_CAP
      && (if buf == null then offset == 0 && cap == 0 else offset + cap <= buf.Length)
    }

    ghost function Contents(): (s: seq<byte>)
      requires Valid()
      reads this, buf
      ensures |s| == size
    {
      if buf == null then [] else buf[offset..offset + size]
    }

    constructor ()
      ensures Valid() && Contents() == [] && buf == null
    {
      buf, offset, size, cap := null, 0, 0, 0;
    }

    method Clear()
      modifies this
      ensures Valid() && Contents() == [] && buf == null
    {
      buf, offset, size, cap := null, 0, 0, 0;
    }

    /** EnsureCap: room for `newCap` bytes in all; the contents stay. */
    method EnsureCap(newCap: nat) returns (ok: bool)
      requires Valid()
      modifies this
      ensures Valid() && Contents() == old(Contents()) && (buf == old(buf) || fresh(buf))
      ensures ok <==> newCap <= 0xFFFF
      ensures ok ==> cap >= newCap
    {
      if newCap > MAX_CAP {
        return false;
      }
      if cap >= newCap {
        return true;
      }
      var newBuf := new byte[newCap + ALIGN_PAYLOAD - 1];
      // The offset that aligns the record body depends on the address of the allocation.
      var newOffset: nat :| newOffset < ALIGN_PAYLOAD;
      if buf != null {
        forall i | 0 <= i < size {
          newBuf[newOffset + i] := buf[offset + i];
        }
      }
      assert newBuf[newOffset..newOffset + size] == Contents();
      buf, offset, cap := newBuf, newOffset, newCap;
      return true;
    }

    /** memcpy to remaining().data() followed by DidWrite. */
    method Append(data: seq<byte>)
      requires Valid() && |data| <= cap - size
      modifies this, buf
      ensures Valid() && Contents() == old(Contents()) + data
      ensures buf == old(buf) && cap == old(cap)
    {
      if buf != null {
        forall i | 0 <= i < |data| {
          buf[offset + size + i] := data[i];
        }
        size := size + |data|;
        assert Contents() == old(Contents()) + data;
      }
    }

    /** Consume */
    method Consume(len: nat)
      requires Valid() && len <= size
      modifies this
      ensures Valid() && Contents() == old(Contents())[len..] && buf == old(buf)
    {
      if buf != null {
        offset := offset + len;
      }
      size := size - len;
      cap := cap - len;
    }

    /** DiscardConsumed */
    method DiscardConsumed()
      requires Valid()
      modifies this
      ensures Valid() && Contents() == old(Contents()) && (size == 0 ==> buf == null)
      ensures buf == null || buf == old(buf)
    {
      if size == 0 {
        Clear();
      }
    }

    /** tls_write_buffer_flush: what leaves the front of the buffer is what the transport accepts. */
    method Flush(bio: Transport) returns (ret: int)
      requires Valid()
      modifies this, bio
      ensures Valid() && (buf == null || buf == old(buf))
      ensures bio.accepted + Contents() == old(bio.accepted) + old(Contents())
      ensures ret <= 1 && (ret == 1 ==> Contents() == [])
      ensures old(bio.limits) == [] ==> ret == 1 && bio.limits == []
      ensures old(size) > 0 ==> FirstWrite(old(size), old(bio.limits), ret, bio.limits)
    {
      ghost var all, whole, limits := bio.accepted + Contents(), size, bio.limits;
      while size != 0
        invariant Valid() && buf == old(buf)
        invariant bio.accepted + Contents() == all
        invariant old(bio.limits) == [] ==> bio.limits == []
        invariant InFlush(whole, limits, size, bio.limits)
        decreases size
      {
        ghost var front, rest := bio.accepted, Contents();
        var data := buf[offset..offset + size];
        assert data == rest;
        hide Contents;
        var n := bio.Write(data);
        Moved(front, rest, if n > 0 then n else 0);
        if n <= 0 {
          return n;
        }
        Consume(n);
        assert bio.accepted == front + rest[..n] && Contents() == rest[n..];
      }
      Clear();
      return 1;
    }
  }

  /** What the first write of a flush of `size` bytes settles: a refusal ends it, and so does taking everything. */
  predicate FirstWrite(size: nat, limits: seq<int>, ret: int, left: seq<int>) {
    limits != [] ==>
      && (limits[0] <= 0 ==> ret == limits[0] && left == limits[1..])
      && (limits[0] >= size ==> ret == 1 && left == limits[1..])
  }

  /** A flush before its first write, after a first write that took a part, or at its end. */
  predicate InFlush(size: nat, limits: seq<int>, now: nat, left: seq<int>) {
    || (now == size && left == limits)
    || limits == []
    || 0 < limits[0] < size
    || (now == 0 && FirstWrite(size, limits, 1, left))
  }

  lemma Moved(front: seq<byte>, rest: seq<byte>, n: nat)
    requires n <= |rest|
    ensures front + rest[..n] + rest[n..] == front + rest
    ensures n == 0 ==> front + rest[..n] == front
  {
  }
}
