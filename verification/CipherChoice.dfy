/** How the server picks a cipher suite from its own and the client's preferences. */
module CipherChoice {
  import opened Wire
  import opened Bits

  datatype Cipher = Cipher(id: nat, minVersion: nat, maxVersion: nat, mkey: nat, auth: nat)

  /** What the configuration allows: the version, and masks of key exchanges and authentications. */
  datatype Limits = Limits(version: nat, maskK: nat, maskA: nat)

  predicate Compatible(l: Limits, c: Cipher) {
    && c.minVersion <= l.version <= c.maxVersion
    && And(c.mkey, l.maskK, 32) != 0
    && And(c.auth, l.maskA, 32) != 0
  }

  /** The first index of c in s, |s| if there is none. */
  function IndexOf(s: seq<Cipher>, c: Cipher): (k: nat)
    ensures k <= |s|
    ensures k < |s| ==> s[k] == c
    ensures forall j :: 0 <= j < k ==> s[j] != c
  {
    if s == [] || s[0] == c then 0
    else
      var k := 1 + IndexOf(s[1..], c);
      assert forall j :: 1 <= j < k ==> s[j] == s[1..][j - 1];
      k
  }

  /** Entry i of prio may be used: it is compatible, and on the other side's list. */
  predicate Acceptable(l: Limits, prio: seq<Cipher>, allow: seq<Cipher>, i: nat)
    requires i < |prio|
  {
    Compatible(l, prio[i]) && IndexOf(allow, prio[i]) < |allow|
  }

  // ----- equal-preference groups: a set flag ties an entry to the one after it

  ghost predicate Tied(flags: seq<bool>, i: nat, j: nat)
    requires j <= |flags|
  {
    forall k :: i <= k < j ==> flags[k]
  }

  ghost predicate SameGroup(flags: seq<bool>, i: nat, j: nat)
    requires i < |flags| && j < |flags|
  {
    Tied(flags, i, j) && Tied(flags, j, i)
  }

  /** The group of entry i has a last member. */
  ghost predicate Closed(flags: seq<bool>, i: nat) {
    !Tied(flags, i, |flags|)
  }

  /**
   * Entry i is the server's choice: acceptable, in the first group that has an acceptable entry, and of
   * those in its group the one the client lists first.
   */
  ghost predicate Best(l: Limits, prio: seq<Cipher>, flags: seq<bool>, allow: seq<Cipher>, i: nat)
    requires |flags| == |prio|
  {
    && i < |prio| && Acceptable(l, prio, allow, i)
    && forall j :: 0 <= j < |prio| && Acceptable(l, prio, allow, j) ==>
         && (j < i ==> SameGroup(flags, j, i))
         && (SameGroup(flags, i, j) ==> IndexOf(allow, prio[i]) <= IndexOf(allow, prio[j]))
  }

  /** There is at most one such cipher. */
  lemma BestIsUnique(l: Limits, prio: seq<Cipher>, flags: seq<bool>, allow: seq<Cipher>, i: nat, j: nat)
    requires |flags| == |prio| && Best(l, prio, flags, allow, i) && Best(l, prio, flags, allow, j)
    ensures prio[i] == prio[j]
  {
  }

  /** What has been found in entries before i: the least client index in the group still open. */
  ghost predicate Found(l: Limits, prio: seq<Cipher>, flags: seq<bool>, allow: seq<Cipher>, i: nat, groupMin: int)
    requires |flags| == |prio| && i <= |prio|
  {
    if groupMin == -1 then forall j :: 0 <= j < i ==> !Acceptable(l, prio, allow, j)
    else
      && 0 <= groupMin < |allow|
      && (forall j :: 0 <= j < i && Acceptable(l, prio, allow, j) ==>
            Tied(flags, j, i) && groupMin <= IndexOf(allow, prio[j]))
      && exists j :: 0 <= j < i && Acceptable(l, prio, allow, j) && IndexOf(allow, prio[j]) == groupMin
  }

  /** r is the best entry if some acceptable entry is in a closed group, and nothing otherwise. */
  ghost predicate Chosen(l: Limits, prio: seq<Cipher>, flags: seq<bool>, allow: seq<Cipher>, r: Option<Cipher>)
    requires |flags| == |prio|
  {
    match r
    case Some(c) => exists i :: 0 <= i < |prio| && Best(l, prio, flags, allow, i) && Closed(flags, i) && prio[i] == c
    case None => forall i :: 0 <= i < |prio| && Acceptable(l, prio, allow, i) ==> !Closed(flags, i)
  }

  /** Leaving a group at entry i with a match in it. */
  lemma LeavesGroup(l: Limits, prio: seq<Cipher>, flags: seq<bool>, allow: seq<Cipher>, i: nat, least: nat, w: nat)
    requires |flags| == |prio| && i < |prio| && !flags[i] && least < |allow|
    requires w <= i && Acceptable(l, prio, allow, w) && IndexOf(allow, prio[w]) == least
    requires forall j :: 0 <= j <= i && Acceptable(l, prio, allow, j) ==>
               Tied(flags, j, i) && least <= IndexOf(allow, prio[j])
    ensures Chosen(l, prio, flags, allow, Some(allow[least]))
  {
  }

  /** The single pass over prio with the running minimum of the open group. */
  method ChooseFrom(l: Limits, prio: seq<Cipher>, inGroupFlags: Option<seq<bool>>, allow: seq<Cipher>)
    returns (r: Option<Cipher>)
    requires inGroupFlags.Some? ==> |inGroupFlags.value| == |prio|
    ensures inGroupFlags.Some? ==> Chosen(l, prio, inGroupFlags.value, allow, r)
    ensures inGroupFlags.None? ==> Chosen(l, prio, seq(|prio|, _ => false), allow, r)
  {
    hide IndexOf, Compatible;
    ghost var flags := if inGroupFlags.Some? then inGroupFlags.value else seq(|prio|, _ => false);
    var groupMin := -1;
    for i := 0 to |prio|
      invariant Found(l, prio, flags, allow, i, groupMin)
      invariant inGroupFlags.None? ==> groupMin == -1
    {
      var c := prio[i];
      if Compatible(l, c) && IndexOf(allow, c) < |allow| {
        var cipherIndex := IndexOf(allow, c);
        if inGroupFlags.Some? && inGroupFlags.value[i] {
          if groupMin == -1 || groupMin > cipherIndex {
            groupMin := cipherIndex;
            assert Acceptable(l, prio, allow, i);
          }
        } else {
          ghost var w := i;
          if groupMin != -1 && groupMin < cipherIndex {
            w :| 0 <= w < i && Acceptable(l, prio, allow, w) && IndexOf(allow, prio[w]) == groupMin;
            cipherIndex := groupMin;
          }
          LeavesGroup(l, prio, flags, allow, i, cipherIndex, w);
          return Some(allow[cipherIndex]);
        }
      }
      if inGroupFlags.Some? && !inGroupFlags.value[i] && groupMin != -1 {
        ghost var w :| 0 <= w < i && Acceptable(l, prio, allow, w) && IndexOf(allow, prio[w]) == groupMin;
        LeavesGroup(l, prio, flags, allow, i, groupMin, w);
        return Some(allow[groupMin]);
      }
    }
    return None;
  }

  /** The last entry of the server's list ends its group. */
  ghost predicate EndsGroups(flags: seq<bool>) {
    flags == [] || !flags[|flags| - 1]
  }

  /**
   * clientPref is None when the client's list cannot be parsed. By server preference the choice is the
   * best entry of the server's list; otherwise it is the first acceptable of the client's.
   */
  method ChooseCipher(l: Limits, clientPref: Option<seq<Cipher>>, server: seq<Cipher>, flags: seq<bool>,
                      serverPreference: bool)
    returns (r: Option<Cipher>)
    requires |flags| == |server| && EndsGroups(flags)
    ensures clientPref.None? ==> r == None
    ensures clientPref.Some? && serverPreference ==>
              match r
              case Some(c) =>
                exists i :: 0 <= i < |server| && Best(l, server, flags, clientPref.value, i) && server[i] == c
              case None => forall i :: 0 <= i < |server| ==> !Acceptable(l, server, clientPref.value, i)
    ensures clientPref.Some? && !serverPreference ==>
              match r
              case Some(c) =>
                exists i :: 0 <= i < |clientPref.value| && Acceptable(l, clientPref.value, server, i)
                            && clientPref.value[i] == c
                            && forall j :: 0 <= j < i ==> !Acceptable(l, clientPref.value, server, j)
              case None => forall i :: 0 <= i < |clientPref.value| ==> !Acceptable(l, clientPref.value, server, i)
  {
    hide IndexOf, Compatible;
    if clientPref.None? {
      return None;
    }
    var client := clientPref.value;
    if serverPreference {
      r := ChooseFrom(l, server, Some(flags), client);
      assert forall i :: 0 <= i < |server| ==> Closed(flags, i);
    } else {
      r := ChooseFrom(l, client, None, server);
      ClientOrder(l, client, server, r);
    }
  }

  /** Without groups, the best entry is the first acceptable one. */
  lemma ClientOrder(l: Limits, prio: seq<Cipher>, allow: seq<Cipher>, r: Option<Cipher>)
    requires Chosen(l, prio, seq(|prio|, _ => false), allow, r)
    ensures match r
            case Some(c) =>
              exists i :: 0 <= i < |prio| && Acceptable(l, prio, allow, i) && prio[i] == c
                          && forall j :: 0 <= j < i ==> !Acceptable(l, prio, allow, j)
            case None => forall i :: 0 <= i < |prio| ==> !Acceptable(l, prio, allow, i)
  {
    hide IndexOf, Compatible;
    var flags := seq(|prio|, _ => false);
    match r
    case None =>
      forall i | 0 <= i < |prio|
        ensures !Acceptable(l, prio, allow, i)
      {
        assert !flags[i] && Closed(flags, i);
      }
    case Some(c) =>
      var i :| 0 <= i < |prio| && Best(l, prio, flags, allow, i) && Closed(flags, i) && prio[i] == c;
      forall j | 0 <= j < i
        ensures !Acceptable(l, prio, allow, j)
      {
        assert !flags[j] && !SameGroup(flags, j, i);
      }
  }
}
