/** How a server picks a cipher: one pass over the preferred list, with groups of equally
    preferred ciphers among which the client's order decides. */
module CipherChoice {
  import opened Wrappers

  datatype Cipher = Cipher(id: nat, minVersion: nat, maxVersion: nat, keyExchange: bv32, auth: bv32)

  /** What the connection supports. */
  datatype Config = Config(version: nat, keyExchange: bv32, auth: bv32)

  predicate Usable(c: Cipher, config: Config) {
    && c.minVersion <= config.version <= c.maxVersion
    && c.keyExchange & config.keyExchange != 0 && c.auth & config.auth != 0
  }

  /** A server preference list; a cipher whose flag is set is in one group with the next. */
  datatype Preferences = Preferences(ciphers: seq<Cipher>, inGroup: seq<bool>)

  // ----- the specification

  /** The last place of the group of place `i`, if the group is closed. */
  function GroupEnd(inGroup: seq<bool>, i: nat): (end: nat)
    requires i <= |inGroup|
    ensures i <= end <= |inGroup|
    ensures forall k :: i <= k < end ==> inGroup[k]
    ensures end < |inGroup| ==> !inGroup[end]
    decreases |inGroup| - i
  {
    if i == |inGroup| || !inGroup[i] then i else GroupEnd(inGroup, i + 1)
  }

  /** The first place of a cipher in a list. */
  function Place(list: seq<Cipher>, c: Cipher): (k: nat)
    ensures k <= |list| && (k < |list| <==> c in list)
    ensures k < |list| ==> list[k] == c
    ensures forall j :: 0 <= j < k ==> list[j] != c
  {
    if list == [] || list[0] == c then 0 else 1 + Place(list[1..], c)
  }

  ghost predicate Match(prio: seq<Cipher>, allow: seq<Cipher>, config: Config, i: nat)
    requires i < |prio|
  {
    Usable(prio[i], config) && prio[i] in allow
  }

  /** Place `i` holds a usable shared cipher, in a group that is closed. */
  ghost predicate Candidate(prio: seq<Cipher>, inGroup: seq<bool>, allow: seq<Cipher>, config: Config, i: nat)
    requires |inGroup| == |prio|
  {
    i < |prio| && Match(prio, allow, config, i) && GroupEnd(inGroup, i) < |prio|
  }

  /** Place `i` holds the best candidate: none is in an earlier group, and none of its group is
      earlier in the other list. */
  ghost predicate Best(prio: seq<Cipher>, inGroup: seq<bool>, allow: seq<Cipher>, config: Config, i: nat)
    requires |inGroup| == |prio|
  {
    && Candidate(prio, inGroup, allow, config, i)
    && forall j :: 0 <= j < |prio| && Candidate(prio, inGroup, allow, config, j) ==>
        && GroupEnd(inGroup, i) <= GroupEnd(inGroup, j)
        && (GroupEnd(inGroup, i) == GroupEnd(inGroup, j) ==> Place(allow, prio[i]) <= Place(allow, prio[j]))
  }

  /** The best cipher is unique. */
  lemma BestUnique(prio: seq<Cipher>, inGroup: seq<bool>, allow: seq<Cipher>, config: Config, i: nat, j: nat)
    requires |inGroup| == |prio|
    requires Best(prio, inGroup, allow, config, i) && Best(prio, inGroup, allow, config, j)
    ensures prio[i] == prio[j]
  {
    assert allow[Place(allow, prio[i])] == allow[Place(allow, prio[j])];
  }

  /** It is in both lists, and of a version, key exchange and authentication that are supported. */
  lemma BestIsShared(prio: seq<Cipher>, inGroup: seq<bool>, allow: seq<Cipher>, config: Config, i: nat)
    requires |inGroup| == |prio| && Best(prio, inGroup, allow, config, i)
    ensures i < |prio| && prio[i] in prio && prio[i] in allow && Supported(prio[i], config)
  {
  }

  ghost predicate Supported(c: Cipher, config: Config) {
    && c.minVersion <= config.version && config.version <= c.maxVersion
    && (c.keyExchange & config.keyExchange) != 0 && (c.auth & config.auth) != 0
  }

  lemma {:induction false} GroupEndOf(inGroup: seq<bool>, i: nat, j: nat)
    requires i <= j <= |inGroup|
    ensures GroupEnd(inGroup, i) >= j ==> GroupEnd(inGroup, i) == GroupEnd(inGroup, j)
    ensures GroupEnd(inGroup, i) < j ==> GroupEnd(inGroup, i) < GroupEnd(inGroup, j) || j == |inGroup|
    decreases j - i
  {
    if i < j && inGroup[i] {
      GroupEndOf(inGroup, i + 1, j);
    }
  }

  // ----- the algorithm

  /** Places before `i` have been looked at: all matches among them are in the group of place `i`,
      and `best` is the one earliest in the other list, at its place `groupMin`. */
  ghost predicate LookedAt(prio: seq<Cipher>, inGroup: seq<bool>, allow: seq<Cipher>, config: Config,
                           i: nat, groupMin: int, best: nat)
    requires |inGroup| == |prio|
  {
    && i <= |prio| && -1 <= groupMin < |allow|
    && (forall j :: 0 <= j < i && Match(prio, allow, config, j) ==>
          GroupEnd(inGroup, j) >= i && groupMin != -1 && groupMin <= Place(allow, prio[j]))
    && (groupMin != -1 ==>
          best < i && Match(prio, allow, config, best) && Place(allow, prio[best]) == groupMin)
  }

  /** At the end of a group the best match in it is the best of all. */
  lemma LeavingGroup(prio: seq<Cipher>, inGroup: seq<bool>, allow: seq<Cipher>, config: Config,
                     i: nat, groupMin: int, best: nat, best': nat)
    requires |inGroup| == |prio| && i < |prio| && !inGroup[i]
    requires LookedAt(prio, inGroup, allow, config, i, groupMin, best)
    requires
      if Match(prio, allow, config, i) && (groupMin == -1 || groupMin >= Place(allow, prio[i])) then best' == i
      else groupMin != -1 && best' == best
    ensures best' < |prio| && Best(prio, inGroup, allow, config, best') && prio[best'] in allow
  {
    hide Usable;
    GroupsUpTo(inGroup, i);
    forall j | 0 <= j < |prio| && Candidate(prio, inGroup, allow, config, j)
      ensures GroupEnd(inGroup, best') <= GroupEnd(inGroup, j)
      ensures GroupEnd(inGroup, best') == GroupEnd(inGroup, j) ==> Place(allow, prio[best']) <= Place(allow, prio[j])
    {
      assert Match(prio, allow, config, j);
    }
  }

  /** Within a group, or past a group without a match, the search goes on. */
  lemma GoingOn(prio: seq<Cipher>, inGroup: seq<bool>, allow: seq<Cipher>, config: Config,
                i: nat, groupMin: int, best: nat, groupMin': int, best': nat)
    requires |inGroup| == |prio| && i < |prio| && LookedAt(prio, inGroup, allow, config, i, groupMin, best)
    requires
      if Match(prio, allow, config, i) then
        inGroup[i] && if groupMin == -1 || groupMin > Place(allow, prio[i])
                      then groupMin' == Place(allow, prio[i]) && best' == i
                      else groupMin' == groupMin && best' == best
      else groupMin' == groupMin && best' == best && (inGroup[i] || groupMin == -1)
    ensures LookedAt(prio, inGroup, allow, config, i + 1, groupMin', best')
  {
    hide Usable;
    GroupsUpTo(inGroup, i);
  }

  /** ssl3_choose_cipher.  Groups of a server's list are closed; where one is not, its ciphers are
      never chosen. */
  method ChooseCipher(clientPref: Option<seq<Cipher>>, serverPref: Preferences, preferServer: bool, config: Config)
    returns (choice: Option<Cipher>)
    requires |serverPref.inGroup| == |serverPref.ciphers|
    ensures clientPref.None? ==> choice == None
    ensures clientPref.Some? ==>
      var prio := if preferServer then serverPref.ciphers else clientPref.value;
      var inGroup := if preferServer then serverPref.inGroup else Singletons(|prio|);
      var allow := if preferServer then clientPref.value else serverPref.ciphers;
      if choice.Some?
      then exists i :: 0 <= i < |prio| && Best(prio, inGroup, allow, config, i) && choice.value == prio[i]
      else forall i :: 0 <= i < |prio| ==> !Candidate(prio, inGroup, allow, config, i)
    ensures choice.Some? ==>
      var c := choice.value;
      clientPref.Some? && c in clientPref.value && c in serverPref.ciphers && Supported(c, config)
  {
    hide Best, Usable, Supported;
    if clientPref.None? {
      return None;
    }
    var prio, allow, flags;
    if preferServer {
      prio, flags, allow := serverPref.ciphers, Some(serverPref.inGroup), clientPref.value;
    } else {
      prio, flags, allow := clientPref.value, None, serverPref.ciphers;
    }
    ghost var inGroup := if flags.Some? then flags.value else Singletons(|prio|);
    var groupMin: int := -1;
    ghost var best := 0;
    var i := 0;
    while i < |prio|
      invariant LookedAt(prio, inGroup, allow, config, i, groupMin, best)
    {
      var c := prio[i];
      ghost var groupMin', best' := groupMin, best;
      if Usable(c, config) && c in allow {
        var index := Place(allow, c);
        if flags.Some? && flags.value[i] {
          if groupMin == -1 || groupMin > index {
            groupMin, best := index, i;
          }
        } else {
          if groupMin != -1 && groupMin < index {
            index := groupMin;
          } else {
            best := i;
          }
          LeavingGroup(prio, inGroup, allow, config, i, groupMin, best', best);
          BestIsShared(prio, inGroup, allow, config, best);
          return Some(allow[index]);
        }
      }
      if flags.Some? && !flags.value[i] && groupMin != -1 {
        LeavingGroup(prio, inGroup, allow, config, i, groupMin, best, best);
        BestIsShared(prio, inGroup, allow, config, best);
        return Some(allow[groupMin]);
      }
      GoingOn(prio, inGroup, allow, config, i, groupMin', best', groupMin, best);
      i := i + 1;
    }
    return None;
  }

  function Singletons(n: nat): seq<bool> {
    seq(n, _ => false)
  }

  /** Groups before and after place `i`. */
  lemma GroupsUpTo(inGroup: seq<bool>, i: nat)
    requires i < |inGroup|
    ensures forall j :: 0 <= j <= i && GroupEnd(inGroup, j) >= i ==> GroupEnd(inGroup, j) == GroupEnd(inGroup, i)
    ensures forall j :: i < j < |inGroup| && GroupEnd(inGroup, i) == i ==> GroupEnd(inGroup, j) > i
    ensures inGroup[i] ==> forall j :: 0 <= j <= i && GroupEnd(inGroup, j) >= i ==> GroupEnd(inGroup, j) >= i + 1
  {
    forall j | 0 <= j <= i
      ensures GroupEnd(inGroup, j) >= i ==> GroupEnd(inGroup, j) == GroupEnd(inGroup, i)
    {
      GroupEndOf(inGroup, j, i);
    }
  }

  // ----- what it means

  /** Without server preference the client's first usable shared cipher is chosen. */
  lemma ClientFirst(prio: seq<Cipher>, allow: seq<Cipher>, config: Config, i: nat)
    requires Best(prio, Singletons(|prio|), allow, config, i)
    ensures forall j :: 0 <= j < i ==> !Match(prio, allow, config, j)
  {
    forall j | 0 <= j < i
      ensures !Match(prio, allow, config, j)
    {
      assert GroupEnd(Singletons(|prio|), j) == j && GroupEnd(Singletons(|prio|), i) == i;
      if Match(prio, allow, config, j) {
        assert Candidate(prio, Singletons(|prio|), allow, config, j);
      }
    }
  }

  /** When the last group is closed every usable shared cipher is a candidate, so there is a
      choice exactly when there is one. */
  lemma ClosedCandidates(prio: seq<Cipher>, inGroup: seq<bool>, allow: seq<Cipher>, config: Config, i: nat)
    requires |inGroup| == |prio| && i < |prio| && !inGroup[|prio| - 1]
    ensures Candidate(prio, inGroup, allow, config, i) <==> Match(prio, allow, config, i)
  {
  }
}
