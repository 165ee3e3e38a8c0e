/** Required fields: when pb_decode_noinit accepts a message, in terms of the keys it met. */
module Required {
  import opened Bits
  import opened Schema
  import opened Varint
  import opened Wire

  /** The tags of known fields that the loop of pb_decode_noinit meets before it ends. */
  function Met(fs: seq<Field>, b: seq<byte>, s: Struct): set<nat>
    decreases |b|
  {
    if b == [] then {}
    else
      match DecVarint32(b)
      case Err => {}
      case Ok(key, rest) =>
        if key == 0 then {}
        else
          match FindField(fs, key / 8)
          case Some(k) =>
            (match DecField(fs[k], key % 8, rest, s)
             case Err => {}
             case Ok(s', rest') => {key / 8} + Met(fs, rest', s'))
          case None =>
            match SkipField(key % 8, rest)
            case Err => {}
            case Ok(_, rest') => Met(fs, rest', s)
  }

  /** The indices of the required fields with these tags that fields_seen has room for. */
  ghost predicate Marks(fs: seq<Field>, tags: set<nat>, seen: set<nat>, seen': set<nat>) {
    && seen <= seen'
    && (forall k :: 0 <= k < |fs| && fs[k].tag in tags ==> MarkSeen(fs, k, seen') == seen')
    && (forall i :: i in seen' && i !in seen ==> exists k :: 0 <= k < |fs| && IndexOf(fs, k, i) && fs[k].tag in tags)
  }

  /** Field `k` is the required field number `i`. */
  predicate IndexOf(fs: seq<Field>, k: nat, i: nat)
    requires k < |fs|
  {
    fs[k].rule.Required? && RequiredCount(fs[..k]) == i
  }

  lemma MarkMet(fs: seq<Field>, k: nat, tags: set<nat>, seen: set<nat>, seen': set<nat>)
    requires k < |fs| && FindField(fs, fs[k].tag) == Some(k) && DistinctTags(fs)
    requires Marks(fs, tags, MarkSeen(fs, k, seen), seen')
    ensures Marks(fs, {fs[k].tag} + tags, seen, seen')
  {
    hide RequiredCount, FindField;
    var mid := MarkSeen(fs, k, seen);
    forall j | 0 <= j < |fs| && fs[j].tag in {fs[k].tag} + tags ensures MarkSeen(fs, j, seen') == seen' {
      if fs[j].tag == fs[k].tag { assert j == k; }
    }
    forall i | i in seen' && i !in seen
      ensures exists j :: 0 <= j < |fs| && IndexOf(fs, j, i) && fs[j].tag in {fs[k].tag} + tags
    {
      if i in mid {
        assert IndexOf(fs, k, i);
      } else {
        var j :| 0 <= j < |fs| && IndexOf(fs, j, i) && fs[j].tag in tags;
        assert fs[j].tag in {fs[k].tag} + tags;
      }
    }
  }

  lemma {:induction false} LoopMarks(fs: seq<Field>, b: seq<byte>, st: Progress)
    requires DistinctTags(fs) && DecodeLoop(fs, b, st).Ok?
    ensures Marks(fs, Met(fs, b, st.s), st.seen, DecodeLoop(fs, b, st).value.seen)
    decreases |b|
  {
    hide DecField, DecVarint32, FindField, SkipField, MarkSeen, DistinctTags, Marks;
    if b == [] || DecVarint32(b).value == 0 {
      NothingMet(fs, st.seen);
    } else {
      var key, rest := DecVarint32(b).value, DecVarint32(b).rest;
      var found := FindField(fs, key / 8);
      if found.Some? {
        var k := found.value;
        var p := DecField(fs[k], key % 8, rest, st.s);
        var next := Progress(p.value, MarkSeen(fs, k, st.seen));
        LoopMarks(fs, p.rest, next);
        assert fs[k].tag == key / 8;
        MarkMet(fs, k, Met(fs, p.rest, p.value), st.seen, DecodeLoop(fs, b, st).value.seen);
      } else {
        LoopMarks(fs, SkipField(key % 8, rest).rest, st);
      }
    }
  }

  lemma NothingMet(fs: seq<Field>, seen: set<nat>)
    ensures Marks(fs, {}, seen, seen)
  {
  }

  lemma {:induction false} PrefixCount(fs: seq<Field>, j: nat, k: nat)
    requires j <= k <= |fs|
    ensures RequiredCount(fs[..j]) <= RequiredCount(fs[..k])
    ensures j < k && fs[j].rule.Required? ==> RequiredCount(fs[..j]) < RequiredCount(fs[..k])
    decreases k
  {
    if j < k {
      PrefixCount(fs, j, k - 1);
      assert fs[..k][..k - 1] == fs[..k - 1];
    }
  }

  /** Required fields are numbered without gaps. */
  lemma {:induction false} HasField(fs: seq<Field>, i: nat) returns (k: nat)
    requires i < RequiredCount(fs)
    ensures k < |fs| && IndexOf(fs, k, i)
    decreases |fs|
  {
    var n := |fs| - 1;
    if fs[n].rule.Required? && RequiredCount(fs[..n]) == i {
      k := n;
    } else {
      k := HasField(fs[..n], i);
      assert fs[..n][..k] == fs[..k];
    }
  }

  /** Field `k` is required and among the first PB_MAX_REQUIRED_FIELDS such fields. */
  predicate Checked(fs: seq<Field>, k: nat)
    requires k < |fs|
  {
    fs[k].rule.Required? && RequiredCount(fs[..k]) < 64
  }

  /** The check of fields_seen passes exactly when every checked field was met. */
  lemma SeenIsMet(fs: seq<Field>, tags: set<nat>, seen: set<nat>)
    requires DistinctTags(fs) && Marks(fs, tags, {}, seen)
    ensures AllRequiredSeen(fs, seen) ==> forall k :: 0 <= k < |fs| && Checked(fs, k) ==> fs[k].tag in tags
    ensures (forall k :: 0 <= k < |fs| && Checked(fs, k) ==> fs[k].tag in tags) ==> AllRequiredSeen(fs, seen)
  {
    hide RequiredCount;
    assert fs[..|fs|] == fs;
    if AllRequiredSeen(fs, seen) {
      forall k | 0 <= k < |fs| && Checked(fs, k) ensures fs[k].tag in tags {
        PrefixCount(fs, k, |fs|);
        var i := RequiredCount(fs[..k]);
        assert 0 <= i < Min(RequiredCount(fs), MAX_REQUIRED);
        assert i in seen;
        var j :| 0 <= j < |fs| && IndexOf(fs, j, i) && fs[j].tag in tags;
        if j < k { PrefixCount(fs, j, k); } else { PrefixCount(fs, k, j); }
      }
    }
    if forall k :: 0 <= k < |fs| && Checked(fs, k) ==> fs[k].tag in tags {
      forall i | 0 <= i < Min(RequiredCount(fs), MAX_REQUIRED) ensures i in seen {
        var k := HasField(fs, i);
        assert Checked(fs, k);
        assert MarkSeen(fs, k, seen) == seen;
      }
    }
  }

  /**
   * pb_decode_noinit succeeds exactly when its loop gets through the bytes and the tag of
   * each of the first 64 required fields was met.  Later required fields are not checked.
   */
  lemma RequiredFieldsChecked(fs: seq<Field>, b: seq<byte>, s: Struct)
    requires DistinctTags(fs)
    ensures DecodeNoInit(fs, b, s).Ok? <==>
              && DecodeLoop(fs, b, Progress(s, {})).Ok?
              && forall k :: 0 <= k < |fs| && Checked(fs, k) ==> fs[k].tag in Met(fs, b, s)
  {
    hide DecodeLoop, Met, AllRequiredSeen, DistinctTags, Marks, Checked;
    var p := DecodeLoop(fs, b, Progress(s, {}));
    if p.Ok? {
      LoopMarks(fs, b, Progress(s, {}));
      SeenIsMet(fs, Met(fs, b, s), p.value.seen);
    }
  }

  /** With at most 64 required fields, an accepted message had them all. */
  lemma AllRequiredMet(fs: seq<Field>, b: seq<byte>, s: Struct)
    requires DistinctTags(fs) && RequiredCount(fs) <= 64 && DecodeNoInit(fs, b, s).Ok?
    ensures forall f :: f in fs && f.rule.Required? ==> f.tag in Met(fs, b, s)
  {
    hide DecodeNoInit, Met, RequiredCount, DecodeLoop;
    RequiredFieldsChecked(fs, b, s);
    assert fs[..|fs|] == fs;
    forall f | f in fs && f.rule.Required? ensures f.tag in Met(fs, b, s) {
      var k :| 0 <= k < |fs| && fs[k] == f;
      PrefixCount(fs, k, |fs|);
      assert Checked(fs, k);
    }
  }
}
