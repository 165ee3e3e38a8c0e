/** ssl3_choose_cipher (handshake_server.cc): the server's choice among the client's ciphers. */
module CipherChoice {

  datatype Option<+T> = None | Some(value: T)

  /** SSL_CIPHER: its id, its version range, and whether the configuration supports its key exchange and authentication. */
  datatype Cipher = Cipher(id: nat, minVersion: nat, maxVersion: nat, mkey: bool, auth: bool)

  /** ssl_cipher_preference_list_st: flag 1 says "not the last element of its group". */
  datatype Preference = Preference(ciphers: seq<Cipher>, inGroup: seq<bool>)

  predicate Supported(c: Cipher, version: nat) {
    c.minVersion <= version <= c.maxVersion && c.mkey && c.auth
  }

  /** sk_SSL_CIPHER_find: the first position of the cipher. */
  function IndexIn(s: seq<Cipher>, c: Cipher): (r: Option<nat>)
    ensures r.None? <==> c !in s
    ensures r.Some? ==> r.value < |s| && s[r.value] == c && c !in s[..r.value]
  {
    if s == [] then None
    else if s[0] == c then Some(0)
    else
      match IndexIn(s[1..], c)
      case None => None
      case Some(k) => Some(k + 1)
  }

  // ---------------------------------------------------------------- groups

  /** Where the group of position `i` starts. */
  function GroupStart(inGroup: seq<bool>, i: nat): (g: nat)
    requires i < |inGroup|
    ensures g <= i
  {
    if i == 0 || !inGroup[i - 1] then i else GroupStart(inGroup, i - 1)
  }

  /** Both parties can use the cipher. */
  predicate Usable(c: Cipher, allow: seq<Cipher>, version: nat) {
    Supported(c, version) && c in allow
  }

  /**
   * `c` is right under server preference: some server group has a usable cipher, no earlier
   * group has one, and `c` is the one of that group the client likes best.
   */
  ghost predicate BestOfFirstGroup(server: Preference, client: seq<Cipher>, version: nat, c: Cipher)
    requires |server.ciphers| == |server.inGroup|
  {
    exists i ::
      && 0 <= i < |server.ciphers| && server.ciphers[i] == c && Usable(c, client, version)
      && forall j :: 0 <= j < |server.ciphers| && Usable(server.ciphers[j], client, version) ==>
           && GroupStart(server.inGroup, j) >= GroupStart(server.inGroup, i)
           && (GroupStart(server.inGroup, j) == GroupStart(server.inGroup, i) ==>
                 IndexIn(client, c).value <= IndexIn(client, server.ciphers[j]).value)
  }

  /** `c` is the first of the client's ciphers that both parties can use. */
  ghost predicate FirstOfClient(client: seq<Cipher>, server: seq<Cipher>, version: nat, c: Cipher) {
    exists i ::
      && 0 <= i < |client| && client[i] == c && Usable(c, server, version)
      && forall j :: 0 <= j < i ==> !Usable(client[j], server, version)
  }

  lemma {:induction false} GroupsInOrder(inGroup: seq<bool>, j: nat, i: nat)
    requires j <= i < |inGroup|
    ensures GroupStart(inGroup, j) <= GroupStart(inGroup, i)
    ensures j < i && !inGroup[i - 1] ==> GroupStart(inGroup, j) < GroupStart(inGroup, i)
    decreases i
  {
    if j < i { GroupsInOrder(inGroup, j, i - 1); }
  }

  // ---------------------------------------------------------------- the loop

  /** `c` is the client's favourite among the usable ciphers of the group that starts at `start`, below `i`. */
  ghost predicate BestSoFar(prio: seq<Cipher>, inGroup: seq<bool>, allow: seq<Cipher>, version: nat, i: nat, start: nat, min: nat)
    requires |inGroup| == |prio| && i <= |prio| && min < |allow|
  {
    && (exists j :: 0 <= j < i && GroupStart(inGroup, j) == start && prio[j] == allow[min]
            && Usable(prio[j], allow, version))
    && IndexIn(allow, allow[min]) == Some(min)
    && forall j :: 0 <= j < i && Usable(prio[j], allow, version) ==>
         GroupStart(inGroup, j) == start && min <= IndexIn(allow, prio[j]).value
  }

  ghost predicate NoneUsable(prio: seq<Cipher>, allow: seq<Cipher>, version: nat, i: nat)
    requires i <= |prio|
  {
    forall j :: 0 <= j < i ==> !Usable(prio[j], allow, version)
  }

  /** The best of the current group is the answer when the group ends at `i`. */
  lemma GroupEnds(prio: seq<Cipher>, inGroup: seq<bool>, allow: seq<Cipher>, version: nat, i: nat, min: nat)
    requires |inGroup| == |prio| && i < |prio| && min < |allow| && !inGroup[i]
    requires BestSoFar(prio, inGroup, allow, version, i + 1, GroupStart(inGroup, i), min)
    ensures BestOfFirstGroup(Preference(prio, inGroup), allow, version, allow[min])
  {
    hide IndexIn, GroupStart;
    var start := GroupStart(inGroup, i);
    var k :| 0 <= k < i + 1 && GroupStart(inGroup, k) == start && prio[k] == allow[min] && Usable(prio[k], allow, version);
    forall j | 0 <= j < |prio| && Usable(prio[j], allow, version)
      ensures GroupStart(inGroup, j) >= start
      ensures GroupStart(inGroup, j) == start ==> min <= IndexIn(allow, prio[j]).value
    {
      if j > i {
        GroupsInOrder(inGroup, i + 1, j);
        GroupsInOrder(inGroup, i, i + 1);
      }
    }
  }

  /** Taking cipher `i` into the account of its group. */
  lemma OneMoreCipher(prio: seq<Cipher>, inGroup: seq<bool>, allow: seq<Cipher>, version: nat, i: nat, old_: Option<nat>, min: nat)
    requires |inGroup| == |prio| && i < |prio| && min < |allow|
    requires match old_
             case None => NoneUsable(prio, allow, version, i)
             case Some(m) => m < |allow| && BestSoFar(prio, inGroup, allow, version, i, GroupStart(inGroup, i), m)
    requires Usable(prio[i], allow, version)
    requires var k := IndexIn(allow, prio[i]).value; min == if old_.Some? && old_.value < k then old_.value else k
    ensures BestSoFar(prio, inGroup, allow, version, i + 1, GroupStart(inGroup, i), min)
  {
    hide IndexIn, GroupStart;
  }

  predicate Flag(inGroup: Option<seq<bool>>, i: nat)
    requires inGroup.Some? ==> i < |inGroup.value|
  {
    inGroup.Some? && inGroup.value[i]
  }

  /** The groups that a missing flag array stands for: every cipher by itself. */
  function Groups(inGroup: Option<seq<bool>>, n: nat): (g: seq<bool>)
    requires inGroup.Some? ==> |inGroup.value| == n
    ensures |g| == n
  {
    if inGroup.Some? then inGroup.value else seq(n, _ => false)
  }

  /** The last group of the list is closed. */
  predicate Closed(inGroup: Option<seq<bool>>) {
    inGroup.Some? && inGroup.value != [] ==> !inGroup.value[|inGroup.value| - 1]
  }

  /** The loop of ssl3_choose_cipher. */
  method Scan(prio: seq<Cipher>, inGroup: Option<seq<bool>>, allow: seq<Cipher>, version: nat)
    returns (r: Option<Cipher>)
    requires inGroup.Some? ==> |inGroup.value| == |prio|
    ensures r.Some? ==> BestOfFirstGroup(Preference(prio, Groups(inGroup, |prio|)), allow, version, r.value)
    ensures r.None? <==> NoneSelectable(prio, Groups(inGroup, |prio|), allow, version)
  {
    hide IndexIn, GroupStart, Groups, Usable, BestSoFar, BestOfFirstGroup;
    ghost var groups := Groups(inGroup, |prio|);
    var groupMin: int := -1;
    for i := 0 to |prio|
      invariant -1 <= groupMin < |allow|
      invariant groupMin == -1 ==> NoneUsable(prio, allow, version, i)
      invariant groupMin != -1 ==>
        i > 0 && groups[i - 1] && BestSoFar(prio, groups, allow, version, i, GroupStart(groups, i - 1), groupMin)
    {
      FlagOfGroups(inGroup, |prio|, i);
      if i > 0 {
        SameGroup(groups, i);
        FlagOfGroups(inGroup, |prio|, i - 1);
      }
      var c := prio[i];
      var found := IndexIn(allow, c);
      UsableAt(c, allow, version);
      if Supported(c, version) && found.Some? {
        var cipherIndex := found.value;
        ghost var before := if groupMin == -1 then None else Some(groupMin as nat);
        OneMoreCipher(prio, groups, allow, version, i, before, if groupMin != -1 && groupMin < cipherIndex then groupMin else cipherIndex);
        if Flag(inGroup, i) {
          if groupMin == -1 || groupMin > cipherIndex {
            groupMin := cipherIndex;
          }
        } else {
          if groupMin != -1 && groupMin < cipherIndex {
            cipherIndex := groupMin;
          }
          GroupEnds(prio, groups, allow, version, i, cipherIndex);
          SomeUsable(prio, groups, allow, version, i, GroupStart(groups, i), cipherIndex);
          return Some(allow[cipherIndex]);
        }
      } else if groupMin != -1 {
        OneLess(prio, groups, allow, version, i, groupMin);
      }
      if inGroup.Some? && !inGroup.value[i] && groupMin != -1 {
        GroupEnds(prio, groups, allow, version, i, groupMin);
        SomeUsable(prio, groups, allow, version, i, GroupStart(groups, i), groupMin);
        return Some(allow[groupMin]);
      }
    }
    if groupMin != -1 { LastGroupOpen(prio, groups, allow, version, groupMin); }
    return None;
  }

  /** The group of position `j` has a last element. */
  ghost predicate GroupCloses(inGroup: seq<bool>, j: nat) {
    exists e :: j <= e < |inGroup| && !inGroup[e]
  }

  /** Every usable cipher is in a group that is never closed. */
  ghost predicate NoneSelectable(prio: seq<Cipher>, inGroup: seq<bool>, allow: seq<Cipher>, version: nat) {
    forall j :: 0 <= j < |prio| && Usable(prio[j], allow, version) ==> !GroupCloses(inGroup, j)
  }

  lemma SomeUsable(prio: seq<Cipher>, inGroup: seq<bool>, allow: seq<Cipher>, version: nat, i: nat, start: nat, min: nat)
    requires |inGroup| == |prio| && i < |prio| && min < |allow| && !inGroup[i]
    requires BestSoFar(prio, inGroup, allow, version, i + 1, start, min)
    ensures !NoneSelectable(prio, inGroup, allow, version)
  {
    hide IndexIn, GroupStart, Usable;
    var j :| 0 <= j < i + 1 && GroupStart(inGroup, j) == start && prio[j] == allow[min] && Usable(prio[j], allow, version);
    assert GroupCloses(inGroup, j);
  }

  lemma LastGroupOpen(prio: seq<Cipher>, inGroup: seq<bool>, allow: seq<Cipher>, version: nat, min: nat)
    requires |inGroup| == |prio| > 0 && min < |allow| && inGroup[|prio| - 1]
    requires BestSoFar(prio, inGroup, allow, version, |prio|, GroupStart(inGroup, |prio| - 1), min)
    ensures NoneSelectable(prio, inGroup, allow, version)
  {
    hide IndexIn, GroupStart, Usable;
    var n := |prio| - 1;
    forall j | 0 <= j < |prio| && Usable(prio[j], allow, version) ensures !GroupCloses(inGroup, j) {
      forall e | j <= e < |prio| ensures inGroup[e] {
        if e < n {
          GroupsInOrder(inGroup, j, e);
          GroupsInOrder(inGroup, e, e + 1);
          GroupsInOrder(inGroup, e + 1, n);
        }
      }
    }
  }

  /** In a closed list every group closes, so only the absence of a common cipher leaves none. */
  lemma NoneCommon(prio: seq<Cipher>, inGroup: Option<seq<bool>>, allow: seq<Cipher>, version: nat)
    requires (inGroup.Some? ==> |inGroup.value| == |prio|) && Closed(inGroup)
    ensures NoneSelectable(prio, Groups(inGroup, |prio|), allow, version) <==>
              forall c :: c in prio && c in allow ==> !Supported(c, version)
  {
    var groups := Groups(inGroup, |prio|);
    forall j | 0 <= j < |prio| ensures GroupCloses(groups, j) { assert !groups[|prio| - 1]; }
    if NoneSelectable(prio, groups, allow, version) {
      forall c | c in prio && c in allow ensures !Supported(c, version) {
        var j :| 0 <= j < |prio| && prio[j] == c;
        assert !Usable(prio[j], allow, version);
      }
    }
  }

  lemma FlagOfGroups(inGroup: Option<seq<bool>>, n: nat, i: nat)
    requires (inGroup.Some? ==> |inGroup.value| == n) && i < n
    ensures Groups(inGroup, n)[i] == Flag(inGroup, i)
  {
  }

  lemma SameGroup(inGroup: seq<bool>, i: nat)
    requires 0 < i < |inGroup|
    ensures inGroup[i - 1] ==> GroupStart(inGroup, i) == GroupStart(inGroup, i - 1)
  {
  }

  lemma UsableAt(c: Cipher, allow: seq<Cipher>, version: nat)
    ensures Usable(c, allow, version) <==> Supported(c, version) && IndexIn(allow, c).Some?
  {
  }

  lemma OneLess(prio: seq<Cipher>, inGroup: seq<bool>, allow: seq<Cipher>, version: nat, i: nat, min: nat)
    requires |inGroup| == |prio| && i < |prio| && min < |allow| && !Usable(prio[i], allow, version)
    requires BestSoFar(prio, inGroup, allow, version, i, GroupStart(inGroup, i), min)
    ensures BestSoFar(prio, inGroup, allow, version, i + 1, GroupStart(inGroup, i), min)
  {
    hide IndexIn, GroupStart, Usable;
  }

  /** ssl3_choose_cipher */
  method ChooseCipher(serverFirst: bool, client: seq<Cipher>, server: seq<Cipher>, inGroup: Option<seq<bool>>, version: nat)
    returns (r: Option<Cipher>)
    requires inGroup.Some? ==> |inGroup.value| == |server|
    ensures serverFirst && r.Some? ==> BestOfFirstGroup(Preference(server, Groups(inGroup, |server|)), client, version, r.value)
    ensures !serverFirst && r.Some? ==> FirstOfClient(client, server, version, r.value)
    ensures serverFirst ==> (r.None? <==> NoneSelectable(server, Groups(inGroup, |server|), client, version))
    ensures Closed(inGroup) || !serverFirst ==>
              (r.None? <==> forall c :: c in client && c in server ==> !Supported(c, version))
  {
    hide BestOfFirstGroup, Groups;
    if serverFirst {
      r := Scan(server, inGroup, client, version);
      if Closed(inGroup) { NoneCommon(server, inGroup, client, version); }
    } else {
      r := Scan(client, None, server, version);
      NoneCommon(client, None, server, version);
      if r.Some? { Singletons(client, server, version, r.value); }
    }
  }

  /** Without groups the best of the first group is simply the first usable cipher. */
  lemma Singletons(prio: seq<Cipher>, allow: seq<Cipher>, version: nat, c: Cipher)
    requires BestOfFirstGroup(Preference(prio, Groups(None, |prio|)), allow, version, c)
    ensures FirstOfClient(prio, allow, version, c)
  {
    hide IndexIn;
    var groups := Groups(None, |prio|);
    var i :|
      && 0 <= i < |prio| && prio[i] == c && Usable(c, allow, version)
      && forall j :: 0 <= j < |prio| && Usable(prio[j], allow, version) ==>
           && GroupStart(groups, j) >= GroupStart(groups, i)
           && (GroupStart(groups, j) == GroupStart(groups, i) ==> IndexIn(allow, c).value <= IndexIn(allow, prio[j]).value);
    assert forall j :: 0 <= j < |prio| ==> GroupStart(groups, j) == j;
  }
}
