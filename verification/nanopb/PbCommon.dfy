/** pb_common.c: the iterator over the fields of a message. */
module PbCommon {
  import opened Schema

  // ---------------------------------------------------------------- where a field lies

  /** A later member of a oneof lies where the member before it lies. */
  predicate SharesUnion(fs: seq<Field>, k: nat)
    requires 0 < k < |fs|
  {
    fs[k - 1].rule.Oneof? && fs[k].rule.Oneof? && fs[k].dataOffset == UNION_MEMBER
  }

  /** The bytes a static field occupies in the struct. */
  function Extent(f: Field): nat {
    if f.rule.Repeated? then f.dataSize * f.arraySize else f.dataSize
  }

  /** The offset of the data of field `k` in the struct. */
  function DataAt(fs: seq<Field>, k: nat): int
    requires k < |fs|
  {
    if k == 0 then fs[0].dataOffset
    else if SharesUnion(fs, k) then DataAt(fs, k - 1)
    else DataAt(fs, k - 1) + Extent(fs[k - 1]) + fs[k].dataOffset
  }

  /** The offset of the has_, _count or which_ member of field `k`. */
  function SizeAt(fs: seq<Field>, k: nat): int
    requires k < |fs|
  {
    if k > 0 && SharesUnion(fs, k) then SizeAt(fs, k - 1) else DataAt(fs, k) + fs[k].sizeOffset
  }

  /** All members of a oneof have one offset, and one which_ field beside it: those of its first member. */
  lemma {:induction false} UnionMembersCoincide(fs: seq<Field>, j: nat, k: nat)
    requires j <= k < |fs| && forall i :: j < i <= k ==> SharesUnion(fs, i)
    ensures DataAt(fs, k) == DataAt(fs, j) && SizeAt(fs, k) == SizeAt(fs, j)
    ensures j == 0 || !SharesUnion(fs, j) ==> SizeAt(fs, k) - DataAt(fs, k) == fs[j].sizeOffset
    decreases k
  {
    if j < k { UnionMembersCoincide(fs, j, k - 1); }
  }

  /** The last member of the union field `j` is in; `j` itself if it is in none. */
  function LastMember(fs: seq<Field>, j: nat): (e: nat)
    requires j < |fs|
    ensures j <= e < |fs| && forall i :: j < i <= e ==> SharesUnion(fs, i)
    ensures e + 1 < |fs| ==> !SharesUnion(fs, e + 1)
    decreases |fs| - j
  {
    if j + 1 < |fs| && SharesUnion(fs, j + 1) then LastMember(fs, j + 1) else j
  }

  /** The field behind the union of field `j` leaves room for `j`, by its distance from the last member. */
  predicate UnionHasRoom(fs: seq<Field>, j: nat)
    requires j < |fs|
  {
    var e := LastMember(fs, j);
    e + 1 < |fs| ==> Extent(fs[j]) <= Extent(fs[e]) + fs[e + 1].dataOffset
  }

  lemma {:induction false} DataAscends(fs: seq<Field>, j: nat, k: nat)
    requires j <= k < |fs|
    ensures DataAt(fs, j) <= DataAt(fs, k)
    decreases k
  {
    if j < k {
      DataAscends(fs, j, k - 1);
      ExtentPositive(fs[k - 1]);
    }
  }

  /**
   * Fields that share no union lie after one another: always behind a field outside a oneof,
   * and behind a member of a oneof if the field after the oneof leaves room for that member;
   * for that field itself the condition is exact.
   */
  lemma FieldsDisjoint(fs: seq<Field>, j: nat, k: nat)
    requires j < |fs| && LastMember(fs, j) < k < |fs|
    ensures UnionHasRoom(fs, j) ==> DataAt(fs, j) + Extent(fs[j]) <= DataAt(fs, k)
    ensures k == LastMember(fs, j) + 1 ==> (UnionHasRoom(fs, j) <==> DataAt(fs, j) + Extent(fs[j]) <= DataAt(fs, k))
    ensures !fs[j].rule.Oneof? ==> UnionHasRoom(fs, j)
  {
    var e := LastMember(fs, j);
    UnionMembersCoincide(fs, j, e);
    DataAscends(fs, e + 1, k);
  }

  lemma ExtentPositive(f: Field)
    ensures Extent(f) >= 0
  {
  }

  lemma RequiredPrefix(fs: seq<Field>, k: nat)
    requires k < |fs|
    ensures RequiredCount(fs[..k + 1]) == RequiredCount(fs[..k]) + if fs[k].rule.Required? then 1 else 0
  {
    assert fs[..k + 1][..k] == fs[..k];
  }

  // ---------------------------------------------------------------- the iterator

  /** pb_field_iter_t.  Offsets are relative to dest_struct. */
  class FieldIter {
    const start: seq<Field>
    var pos: nat
    var pData: int
    var pSize: int
    var requiredFieldIndex: nat

    /** The iterator is where a walk from the first field to `pos` would have brought it. */
    ghost predicate Valid()
      reads this
    {
      if start == [] then pos == 0 && requiredFieldIndex == 0
      else
        && pos < |start|
        && pData == DataAt(start, pos)
        && pSize == SizeAt(start, pos)
        && requiredFieldIndex == RequiredCount(start[..pos])
    }

    /** The tag `pos` points to; an empty message has only its terminator, with tag 0. */
    function Tag(): nat
      requires Valid()
      reads this
    {
      if start == [] then 0 else start[pos].tag
    }

    /** pb_field_iter_begin */
    constructor Begin(fields: seq<Field>)
      ensures start == fields && pos == 0 && Valid()
    {
      start := fields;
      pos := 0;
      requiredFieldIndex := 0;
      pData := if fields == [] then 0 else fields[0].dataOffset;
      pSize := if fields == [] then 0 else fields[0].dataOffset + fields[0].sizeOffset;
    }

    /** pb_field_iter_begin on the same message, to start over. */
    method Restart()
      modifies this
      ensures Valid() && pos == 0
    {
      pos := 0;
      requiredFieldIndex := 0;
      if start != [] {
        pData := start[0].dataOffset;
        pSize := pData + start[0].sizeOffset;
      }
    }

    /** pb_field_iter_next */
    method Next() returns (more: bool)
      requires Valid()
      modifies this
      ensures Valid()
      ensures more == (old(pos) + 1 < |start|)
      ensures pos == if old(pos) + 1 < |start| then old(pos) + 1 else 0
    {
      if start == [] {
        return false;
      }
      var prev := start[pos];
      pos := pos + 1;
      if pos == |start| {
        Restart();
        return false;
      }
      RequiredPrefix(start, pos - 1);
      var prevSize := prev.dataSize;
      if prev.rule.Oneof? && start[pos].rule.Oneof? && start[pos].dataOffset == UNION_MEMBER {
        return true;
      } else if prev.rule.Repeated? {
        prevSize := prevSize * prev.arraySize;
      }
      if prev.rule.Required? {
        requiredFieldIndex := requiredFieldIndex + 1;
      }
      pData := pData + prevSize + start[pos].dataOffset;
      pSize := pData + start[pos].sizeOffset;
      return true;
    }

    /**
     * pb_field_iter_find: from any position, succeeds exactly when some field has the tag and
     * then stands on such a field, in the state a walk from the start would give.
     */
    method Find(tag: nat) returns (found: bool)
      requires Valid()
      modifies this
      ensures Valid()
      ensures start != [] ==> (found <==> exists k :: 0 <= k < |start| && start[k].tag == tag)
      ensures start == [] ==> (found <==> tag == 0)
      ensures found ==> Tag() == tag
      ensures !found ==> pos == old(pos)
    {
      var first := pos;
      ghost var n := if start == [] then 1 else |start|;
      ghost var steps := 0;
      while true
        invariant Valid() && 0 <= steps < n
        invariant pos == if first + steps < n then first + steps else first + steps - n
        invariant start != [] ==> forall k :: 0 <= k < |start| && Visited(k, first, steps, n) ==> start[k].tag != tag
        invariant start == [] ==> first == 0
        decreases n - steps
      {
        var here := if start == [] then 0 else start[pos].tag;
        if here == tag {
          return true;
        }
        var _ := Next();
        steps := steps + 1;
        if pos == first {
          return false;
        }
      }
    }
  }

  /** Whether position `k` is among the `steps` positions from `first` on, cyclically. */
  ghost predicate Visited(k: int, first: nat, steps: nat, n: nat) {
    first <= k < first + steps || first <= k + n < first + steps
  }
}
