/** Byte strings as big-endian numbers. */
module Bytes {
  import opened Bits

  /** The number a big-endian byte string denotes. */
  function BigEndian(b: seq<byte>): nat {
    if b == [] then 0 else 256 * BigEndian(b[..|b| - 1]) + b[|b| - 1]
  }

  lemma {:induction false} BigEndianBelow(b: seq<byte>)
    ensures BigEndian(b) < Shl(1, 8 * |b|)
  {
    if b != [] {
      BigEndianBelow(b[..|b| - 1]);
      ShlShl(1, 8 * (|b| - 1), 8);
      ShlByEight(Shl(1, 8 * (|b| - 1)));
    }
  }

  lemma BigEndianStep(b: seq<byte>, k: nat)
    requires k < |b|
    ensures BigEndian(b[..k + 1]) == 256 * BigEndian(b[..k]) + b[k]
  {
    assert b[..k + 1][..k] == b[..k];
  }

  lemma BigEndianNone()
    ensures BigEndian([]) == 0
  {
  }

  /** Different byte strings of one length are different numbers. */
  lemma {:induction false} BigEndianInjective(a: seq<byte>, b: seq<byte>)
    requires |a| == |b| && BigEndian(a) == BigEndian(b)
    ensures a == b
  {
    if a != [] {
      var n := |a| - 1;
      BigEndianInjective(a[..n], b[..n]);
      assert a == a[..n] + [a[n]] && b == b[..n] + [b[n]];
    }
  }

  /** Splitting a byte string splits its number. */
  lemma {:induction false} BigEndianJoin(a: seq<byte>, b: seq<byte>)
    ensures BigEndian(a + b) == Shl(BigEndian(a), 8 * |b|) + BigEndian(b)
  {
    if b == [] {
      assert a + b == a;
    } else {
      var n := |b| - 1;
      BigEndianJoin(a, b[..n]);
      assert (a + b)[..|a + b| - 1] == a + b[..n];
      ShlShl(BigEndian(a), 8 * n, 8);
      ShlByEight(Shl(BigEndian(a), 8 * n));
    }
  }
}
