/** The server's choice of a cipher, with groups of equal preference (ssl3_choose_cipher in handshake_server.cc). */
module CipherChoice {
  import opened Bytes

  datatype Cipher = Cipher(id: nat, minVersion: nat, maxVersion: nat, mkey: bv32, auth: bv32)

  /** What the version and the server's configuration allow. */
  datatype Config = Config(version: nat, maskK: bv32, maskA: bv32)

  /** A preference list; inGroup[i] says that i is not the last of its group (in_group_flags). */
  datatype Prefs = Prefs(ciphers: seq<Cipher>, inGroup: Option<seq<bool>>)

  predicate Usable(c: Cipher, config: Config) {
    && c.minVersion <= config.version <= c.maxVersion
    && (c.mkey & config.maskK) != 0 && (c.auth & config.maskA) != 0
  }

  ghost predicate PrefsOk(p: Prefs) {
    p.inGroup.Some? ==> |p.inGroup.value| == |p.ciphers|
  }

  predicate Continues(p: Prefs, i: nat)
    requires PrefsOk(p) && i < |p.ciphers|
  {
    p.inGroup.Some? && p.inGroup.value[i]
  }

  /** Usable and on the other side's list. */
  predicate Acceptable(p: Prefs, allow: seq<Cipher>, config: Config, i: nat)
    requires i < |p.ciphers|
  {
    Usable(p.ciphers[i], config) && p.ciphers[i] in allow
  }

  /** No group ends between i and j. */
  ghost predicate SameGroup(p: Prefs, i: nat, j: nat)
    requires PrefsOk(p) && i < |p.ciphers| && j < |p.ciphers|
  {
    forall k: nat | (i <= k < j) || (j <= k < i) :: Continues(p, k)
  }

  /** The group of i has an end. */
  ghost predicate Ends(p: Prefs, i: nat)
    requires PrefsOk(p) && i < |p.ciphers|
  {
    exists e: nat | i <= e < |p.ciphers| :: SameGroup(p, i, e) && !Continues(p, e)
  }

  /** How the other side ranks a cipher: its first position there. */
  function Rank(allow: seq<Cipher>, c: Cipher): (r: nat)
    requires c in allow
    ensures r < |allow| && allow[r] == c && c !in allow[..r]
  {
    if allow[0] == c then 0
    else
      var r := Rank(allow[1..], c);
      assert allow[..r + 1] == [allow[0]] + allow[1..][..r];
      r + 1
  }

  /** i is in the first group that has an acceptable cipher, and of those the other side ranks it highest. */
  ghost predicate Best(p: Prefs, allow: seq<Cipher>, config: Config, i: nat)
    requires PrefsOk(p)
  {
    && i < |p.ciphers| && Acceptable(p, allow, config, i) && Ends(p, i)
    && (forall j: nat | j < i && Acceptable(p, allow, config, j) :: SameGroup(p, i, j))
    && forall j: nat | j < |p.ciphers| && SameGroup(p, i, j) && Acceptable(p, allow, config, j) ::
         Rank(allow, p.ciphers[i]) <= Rank(allow, p.ciphers[j])
  }

  /** The choice the comment on equal-preference groups describes. */
  ghost predicate Chosen(p: Prefs, allow: seq<Cipher>, config: Config, r: Option<Cipher>)
    requires PrefsOk(p)
  {
    match r
    case Some(c) => exists i: nat :: Best(p, allow, config, i) && p.ciphers[i] == c
    case None => forall i: nat | i < |p.ciphers| && Acceptable(p, allow, config, i) :: !Ends(p, i)
  }

  /** That description leaves no choice. */
  lemma ChoiceIsUnique(p: Prefs, allow: seq<Cipher>, config: Config, r: Option<Cipher>, q: Option<Cipher>)
    requires PrefsOk(p) && Chosen(p, allow, config, r) && Chosen(p, allow, config, q)
    ensures r == q
  {
    if r.Some? && q.Some? {
      var i: nat :| Best(p, allow, config, i) && p.ciphers[i] == r.value;
      var j: nat :| Best(p, allow, config, j) && p.ciphers[j] == q.value;
      assert SameGroup(p, i, j) && SameGroup(p, j, i);
      assert Rank(allow, r.value) == Rank(allow, q.value);
    }
  }

  /** sk_SSL_CIPHER_find. */
  method Find(allow: seq<Cipher>, c: Cipher) returns (index: Option<nat>)
    ensures index == if c in allow then Some(Rank(allow, c)) else None
  {
    var i := 0;
    while i < |allow|
      invariant i <= |allow| && c !in allow[..i]
    {
      if allow[i] == c {
        RankIs(allow, c, i);
        return Some(i);
      }
      assert allow[..i + 1] == allow[..i] + [allow[i]];
      i := i + 1;
    }
    assert allow[..i] == allow;
    return None;
  }

  lemma RankIs(allow: seq<Cipher>, c: Cipher, i: nat)
    requires i < |allow| && allow[i] == c && c !in allow[..i]
    ensures Rank(allow, c) == i
  {
    var r := Rank(allow, c);
    assert allow[r] == c && c !in allow[..r];
  }

  /** Before position i: nothing acceptable before the group at start, and groupMin the best of the group so far. */
  ghost predicate Scanned(p: Prefs, allow: seq<Cipher>, config: Config, start: nat, i: nat, groupMin: int)
    requires PrefsOk(p)
  {
    && start <= i <= |p.ciphers| && -1 <= groupMin < |allow|
    && (forall j: nat | j < start :: !Acceptable(p, allow, config, j))
    && (start > 0 ==> !Continues(p, start - 1))
    && (forall k: nat | start <= k < i :: Continues(p, k))
    && (forall j: nat | start <= j < i && Acceptable(p, allow, config, j) ::
          0 <= groupMin <= Rank(allow, p.ciphers[j]))
    && (groupMin >= 0 ==> exists j: nat | start <= j < i ::
          Acceptable(p, allow, config, j) && Rank(allow, p.ciphers[j]) == groupMin)
  }

  /** At the end e of a group, the smallest rank found in it is the choice. */
  lemma GroupDecides(p: Prefs, allow: seq<Cipher>, config: Config, start: nat, e: nat, i: nat)
    requires PrefsOk(p) && start <= i <= e < |p.ciphers| && !Continues(p, e) && Acceptable(p, allow, config, i)
    requires forall j: nat | j < start :: !Acceptable(p, allow, config, j)
    requires start > 0 ==> !Continues(p, start - 1)
    requires forall k: nat | start <= k < e :: Continues(p, k)
    requires forall j: nat | start <= j <= e && Acceptable(p, allow, config, j) ::
               Rank(allow, p.ciphers[i]) <= Rank(allow, p.ciphers[j])
    ensures Chosen(p, allow, config, Some(p.ciphers[i]))
  {
    assert SameGroup(p, i, e) && Ends(p, i);
    assert Best(p, allow, config, i);
  }

  /** The smallest rank so far, with one more cipher of the group. */
  function Smaller(groupMin: int, index: Option<nat>): int {
    if index.Some? && (groupMin == -1 || groupMin > index.value) then index.value else groupMin
  }

  /** What sk_SSL_CIPHER_find gives for a usable cipher. */
  ghost function Found(p: Prefs, allow: seq<Cipher>, config: Config, i: nat): Option<nat>
    requires i < |p.ciphers|
  {
    if Acceptable(p, allow, config, i) then Some(Rank(allow, p.ciphers[i])) else None
  }

  lemma ScanOn(p: Prefs, allow: seq<Cipher>, config: Config, start: nat, i: nat, groupMin: int)
    requires PrefsOk(p) && i < |p.ciphers| && Scanned(p, allow, config, start, i, groupMin) && Continues(p, i)
    ensures Scanned(p, allow, config, start, i + 1, Smaller(groupMin, Found(p, allow, config, i)))
  {
    var best := BestSoFar(p, allow, config, start, i, groupMin);
  }

  /** The cipher that the smallest rank so far is about. */
  lemma BestSoFar(p: Prefs, allow: seq<Cipher>, config: Config, start: nat, i: nat, groupMin: int) returns (best: nat)
    requires PrefsOk(p) && i < |p.ciphers| && Scanned(p, allow, config, start, i, groupMin)
    ensures start <= best <= i
    ensures var m := Smaller(groupMin, Found(p, allow, config, i));
            m != -1 ==> Acceptable(p, allow, config, best) && Rank(allow, p.ciphers[best]) == m
  {
    best := i;
    if groupMin != -1 && Smaller(groupMin, Found(p, allow, config, i)) == groupMin {
      best :| start <= best < i && Acceptable(p, allow, config, best) && Rank(allow, p.ciphers[best]) == groupMin;
    }
  }

  lemma ScanPast(p: Prefs, allow: seq<Cipher>, config: Config, start: nat, i: nat, groupMin: int)
    requires PrefsOk(p) && i < |p.ciphers| && Scanned(p, allow, config, start, i, groupMin) && !Continues(p, i)
    ensures var m := Smaller(groupMin, Found(p, allow, config, i));
            if m == -1 then Scanned(p, allow, config, i + 1, i + 1, -1)
            else m < |allow| && Chosen(p, allow, config, Some(allow[m]))
  {
    var best := BestSoFar(p, allow, config, start, i, groupMin);
    if Smaller(groupMin, Found(p, allow, config, i)) != -1 { GroupDecides(p, allow, config, start, i, best); }
  }

  /** Without groups there is no minimum to remember. */
  lemma NoGroups(p: Prefs, allow: seq<Cipher>, config: Config, start: nat, i: nat, groupMin: int)
    requires PrefsOk(p) && Scanned(p, allow, config, start, i, groupMin) && p.inGroup == None
    ensures groupMin == -1
  {
    assert start == i || Continues(p, start);
  }

  /** The loop of ssl3_choose_cipher. */
  method Choose(p: Prefs, allow: seq<Cipher>, config: Config) returns (r: Option<Cipher>)
    requires PrefsOk(p)
    ensures Chosen(p, allow, config, r)
  {
    var groupMin := -1;
    ghost var start := 0;
    var i := 0;
    while i < |p.ciphers|
      invariant Scanned(p, allow, config, start, i, groupMin)
    {
      var c := p.ciphers[i];
      var found := None;
      if Usable(c, config) {
        found := Find(allow, c);
      }
      if p.inGroup == None { NoGroups(p, allow, config, start, i, groupMin); }
      if Continues(p, i) {
        ScanOn(p, allow, config, start, i, groupMin);
      } else {
        ScanPast(p, allow, config, start, i, groupMin);
      }
      if found.Some? {
        var cipherIndex := found.value;
        if Continues(p, i) {
          if groupMin == -1 || groupMin > cipherIndex {
            groupMin := cipherIndex;
          }
        } else {
          if groupMin != -1 && groupMin < cipherIndex {
            cipherIndex := groupMin;
          }
          return Some(allow[cipherIndex]);
        }
      }
      if p.inGroup.Some? && !Continues(p, i) && groupMin != -1 {
        return Some(allow[groupMin]);
      }
      if !Continues(p, i) { start := i + 1; }
      i := i + 1;
    }
    OpenGroup(p, start);
    return None;
  }

  /** A group that runs to the end of the list without a 0 flag does not end. */
  lemma OpenGroup(p: Prefs, start: nat)
    requires PrefsOk(p) && start <= |p.ciphers| && forall k: nat | start <= k < |p.ciphers| :: Continues(p, k)
    ensures forall i: nat | start <= i < |p.ciphers| :: !Ends(p, i)
  {
  }

  /** Well-formed lists, whose last flag is 0: there is a choice exactly when something is acceptable. */
  lemma NullExactlyWhenNothingShared(p: Prefs, allow: seq<Cipher>, config: Config, r: Option<Cipher>)
    requires PrefsOk(p) && Chosen(p, allow, config, r)
    requires p.ciphers != [] ==> !Continues(p, |p.ciphers| - 1)
    ensures r == None <==> forall i: nat | i < |p.ciphers| :: !Acceptable(p, allow, config, i)
  {
    forall i: nat | i < |p.ciphers| ensures Ends(p, i) { NextEnd(p, i); }
    if r.Some? {
      var i: nat :| Best(p, allow, config, i) && p.ciphers[i] == r.value;
      assert Acceptable(p, allow, config, i);
    }
  }

  lemma {:induction false} NextEnd(p: Prefs, i: nat)
    requires PrefsOk(p) && i < |p.ciphers| && !Continues(p, |p.ciphers| - 1)
    ensures Ends(p, i)
    decreases |p.ciphers| - i
  {
    if Continues(p, i) {
      NextEnd(p, i + 1);
      var e: nat :| i + 1 <= e < |p.ciphers| && SameGroup(p, i + 1, e) && !Continues(p, e);
      assert SameGroup(p, i, e);
    } else {
      assert SameGroup(p, i, i);
    }
  }

  // A group that the list does not end is never left, so nothing in it is chosen.

  /** Some version and configuration allow the cipher. */
  predicate Usual(c: Cipher) { c.minVersion <= c.maxVersion && c.mkey != 0 && c.auth != 0 }

  /** Every cipher that could ever be chosen stands in some group that ends. */
  ghost predicate AllReachable(p: Prefs)
    requires PrefsOk(p)
  {
    forall i: nat | i < |p.ciphers| && Usual(p.ciphers[i]) :: Reachable(p, p.ciphers[i])
  }

  ghost predicate Reachable(p: Prefs, c: Cipher)
    requires PrefsOk(p)
  {
    exists j: nat | j < |p.ciphers| :: p.ciphers[j] == c && Ends(p, j)
  }

  /** Null only when nothing is acceptable. */
  ghost predicate NullIsRight(p: Prefs, allow: seq<Cipher>, config: Config)
    requires PrefsOk(p)
  {
    Chosen(p, allow, config, None) ==> forall i: nat | i < |p.ciphers| :: !Acceptable(p, allow, config, i)
  }

  lemma AndItself(x: bv32, y: bv32)
    requires x == y && x != 0
    ensures x & y != 0
  {
  }

  lemma UsualIsAllowed(c: Cipher, config: Config)
    requires Usual(c) && config.version == c.minVersion && config.maskK == c.mkey && config.maskA == c.auth
    ensures Usable(c, config)
  {
    AndItself(c.mkey, config.maskK);
    AndItself(c.auth, config.maskA);
  }

  lemma AllowedIsUsual(c: Cipher, config: Config)
    ensures Usable(c, config) ==> Usual(c)
  {
    assert c.mkey == 0 ==> c.mkey & config.maskK == 0;
    assert c.auth == 0 ==> c.auth & config.maskA == 0;
  }

  /** For any client and configuration, null means that nothing is shared, exactly when no cipher is out of reach. */
  lemma NullIsRightExactly(p: Prefs)
    requires PrefsOk(p)
    ensures (forall allow: seq<Cipher>, config: Config :: NullIsRight(p, allow, config)) <==> AllReachable(p)
  {
    if AllReachable(p) {
      forall allow: seq<Cipher>, config: Config ensures NullIsRight(p, allow, config) {
        if Chosen(p, allow, config, None) {
          forall i: nat | i < |p.ciphers| ensures !Acceptable(p, allow, config, i) {
            AllowedIsUsual(p.ciphers[i], config);
            assert Usual(p.ciphers[i]) ==> Reachable(p, p.ciphers[i]);
          }
        }
      }
    } else {
      var i: nat :| i < |p.ciphers| && Usual(p.ciphers[i]) && !Reachable(p, p.ciphers[i]);
      var c := p.ciphers[i];
      var config := Config(c.minVersion, c.mkey, c.auth);
      UsualIsAllowed(c, config);
      assert Acceptable(p, [c], config, i);
      assert Chosen(p, [c], config, None);
      assert !NullIsRight(p, [c], config);
    }
  }

  /** One cipher, shared and acceptable, in a group that is not ended: null. */
  lemma OpenGroupIsIgnored()
    ensures var c := Cipher(1, 0, 0, 1, 1);
            var p, config := Prefs([c], Some([true])), Config(0, 1, 1);
            Acceptable(p, [c], config, 0) && Chosen(p, [c], config, None)
  {
    var c := Cipher(1, 0, 0, 1, 1);
    UsualIsAllowed(c, Config(0, 1, 1));
    assert !Ends(Prefs([c], Some([true])), 0);
  }

  /** Without groups the first acceptable cipher is chosen: the client's, when its preferences come first. */
  lemma FirstAcceptable(p: Prefs, allow: seq<Cipher>, config: Config, r: Option<Cipher>)
    requires p.inGroup == None && Chosen(p, allow, config, r)
    ensures match r
            case None => forall j: nat | j < |p.ciphers| :: !Acceptable(p, allow, config, j)
            case Some(c) => exists i: nat | i < |p.ciphers| && p.ciphers[i] == c ::
                              && Acceptable(p, allow, config, i)
                              && forall j: nat | j < i :: !Acceptable(p, allow, config, j)
  {
    if r.Some? {
      var i: nat :| Best(p, allow, config, i) && p.ciphers[i] == r.value;
      forall j: nat | j < i ensures !Acceptable(p, allow, config, j) {
        assert SameGroup(p, i, j) ==> Continues(p, j);
      }
    } else {
      forall j: nat | j < |p.ciphers| ensures !Acceptable(p, allow, config, j) {
        assert SameGroup(p, j, j) && Ends(p, j);
      }
    }
  }

  /** ssl3_choose_cipher: which list sets the priority, and which is only consulted. */
  method ChooseCipher(client: Option<seq<Cipher>>, server: Prefs, serverPreference: bool, config: Config)
      returns (r: Option<Cipher>)
    requires PrefsOk(server)
    ensures client == None ==> r == None
    ensures client.Some? && serverPreference ==> Chosen(server, client.value, config, r)
    ensures client.Some? && !serverPreference ==> Chosen(Prefs(client.value, None), server.ciphers, config, r)
  {
    if client == None {
      return None;
    }
    if serverPreference {
      r := Choose(server, client.value, config);
    } else {
      r := Choose(Prefs(client.value, None), server.ciphers, config);
    }
  }
}
