/** The deadline sets are indexes of the session table, and what a sweep does to both. */
module StoreIndexes {
  import opened Types
  import opened Messages
  import opened TrieSpec
  import opened TrieRuns
  import opened StoreSpec

  /** A will that was left behind at a disconnection and is still to be sent. */
  predicate Pending(st: Store, c: Text) {
    c in st.sessions && st.sessions[c].willKey.Some? && st.sessions[c].lastWill.Some?
  }

  /** The client of this session is connected: it has no deadline. */
  predicate Connected(st: Store, c: Text) {
    c in st.sessions && st.sessions[c].removeKey.None?
  }

  ghost predicate SessionOk(c: Text, s: SessionState) {
    && (s.removeKey.Some? ==> s.removeKey.value.clientId == c)
    && (s.willKey.Some? ==> s.willKey.value.clientId == c)
    && (s.willKey.Some? ==> s.removeKey.Some? && s.willKey.value.timeout <= s.removeKey.value.timeout)
    && (s.removeKey.Some? && s.lastWill.Some? ==> s.willKey.Some?)
  }

  /** A deadline is in the one set exactly when a session holds it, and in the other exactly when a
      session holds it and its will is still to be sent. */
  ghost predicate Indexed(st: Store) {
    && (forall c | c in st.sessions :: SessionOk(c, st.sessions[c]))
    && (forall k :: k in st.removeTimeouts <==>
                    k.clientId in st.sessions && st.sessions[k.clientId].removeKey == Some(k))
    && (forall k :: k in st.willTimeouts <==>
                    Pending(st, k.clientId) && st.sessions[k.clientId].willKey == Some(k))
  }

  // ----- the wills -----

  predicate WillDue(st: Store, c: Text, now: nat) {
    Pending(st, c) && st.sessions[c].willKey.value.timeout < now
  }

  /** The wills that are collected: one for each session whose will is due, and no other. */
  ghost predicate CollectsDue(st: Store, now: nat, wills: seq<(Text, LastWill)>) {
    && (forall i, j | 0 <= i < j < |wills| :: wills[i].0 != wills[j].0)
    && (forall c, w :: (c, w) in wills <==> WillDue(st, c, now) && st.sessions[c].lastWill == Some(w))
  }

  ghost function AfterWills(st: Store, now: nat): Store {
    st.(sessions := map c | c in st.sessions ::
                      if WillDue(st, c, now) then st.sessions[c].(lastWill := None) else st.sessions[c],
        willTimeouts := set k | k in st.willTimeouts && k.timeout >= now)
  }

  lemma NothingDue(keys: set<TimeoutKey>, now: nat)
    requires !Due(keys, now)
    ensures forall k <- keys :: k.timeout >= now
  {
    if keys != {} {
      forall k | k in keys ensures k.timeout >= now {
        assert IsFirst(First(keys), keys);
      }
    }
  }

  lemma TakeWillIndexed(st: Store, now: nat)
    requires Indexed(st) && Due(st.willTimeouts, now)
    ensures var c := First(st.willTimeouts).clientId;
            && WillDue(st, c, now)
            && TakeWill(st) == (st.(sessions := st.sessions[c := st.sessions[c].(lastWill := None)],
                                    willTimeouts := st.willTimeouts - {First(st.willTimeouts)}),
                                [(c, st.sessions[c].lastWill.value)])
            && Indexed(TakeWill(st).0)
            && (forall d :: WillDue(TakeWill(st).0, d, now) <==> WillDue(st, d, now) && d != c)
  {
    var k := First(st.willTimeouts);
    assert IsFirst(k, st.willTimeouts);
  }

  lemma AfterWillsNone(st: Store, now: nat)
    requires Indexed(st) && !Due(st.willTimeouts, now)
    ensures AfterWills(st, now) == st && forall c :: !WillDue(st, c, now)
  {
    NothingDue(st.willTimeouts, now);
    forall c ensures !WillDue(st, c, now) {
      if Pending(st, c) {
        assert st.sessions[c].willKey.value in st.willTimeouts;
      }
    }
    assert AfterWills(st, now).sessions == st.sessions;
    assert AfterWills(st, now).willTimeouts == st.willTimeouts;
  }

  lemma AfterWillsStep(st: Store, now: nat)
    requires Indexed(st) && Due(st.willTimeouts, now)
    ensures AfterWills(TakeWill(st).0, now) == AfterWills(st, now)
  {
    TakeWillIndexed(st, now);
    assert AfterWills(TakeWill(st).0, now).sessions == AfterWills(st, now).sessions;
    assert AfterWills(TakeWill(st).0, now).willTimeouts == AfterWills(st, now).willTimeouts;
  }

  lemma CollectsStep(st: Store, now: nat, wills: seq<(Text, LastWill)>)
    requires Indexed(st) && Due(st.willTimeouts, now) && CollectsDue(TakeWill(st).0, now, wills)
    ensures CollectsDue(st, now, TakeWill(st).1 + wills)
  {
    TakeWillIndexed(st, now);
    assert forall i | 0 <= i < |wills| :: wills[i] in wills;
  }

  /** The sweep over the wills, at once. */
  lemma {:induction false} SweepWillsExact(st: Store, now: nat)
    requires Indexed(st)
    ensures SweepWills(st, now).0 == AfterWills(st, now)
    ensures CollectsDue(st, now, SweepWills(st, now).1)
    ensures Indexed(SweepWills(st, now).0)
    decreases |st.willTimeouts|
  {
    if !Due(st.willTimeouts, now) {
      AfterWillsNone(st, now);
    } else {
      TakeWillIndexed(st, now);
      AfterWillsStep(st, now);
      SweepWillsExact(TakeWill(st).0, now);
      CollectsStep(st, now, SweepWills(TakeWill(st).0, now).1);
    }
  }

  /** The deadline of a will, where there is one. */
  function WillTimeout(st: Store, c: Text): nat {
    if Pending(st, c) then st.sessions[c].willKey.value.timeout else 0
  }

  /** They are collected in the order of their deadlines. */
  lemma {:induction false} WillsInOrder(st: Store, now: nat)
    requires Indexed(st)
    ensures var wills := SweepWills(st, now).1;
      forall i, j | 0 <= i < j < |wills| :: WillTimeout(st, wills[i].0) <= WillTimeout(st, wills[j].0)
    decreases |st.willTimeouts|
  {
    if Due(st.willTimeouts, now) {
      var (st', will) := TakeWill(st);
      var (all, rest) := (SweepWills(st, now).1, SweepWills(st', now).1);
      assert all == will + rest;
      TakeWillIndexed(st, now);
      hide Indexed, TakeWill, SweepWills, WillTimeout;
      WillsInOrder(st', now);
      forall i, j | 0 <= i < j < |all| ensures WillTimeout(st, all[i].0) <= WillTimeout(st, all[j].0) {
        assert all[j] == rest[j - 1];
        LaterWill(st, now, rest[j - 1]);
        if i > 0 {
          assert all[i] == rest[i - 1];
          LaterWill(st, now, rest[i - 1]);
        }
      }
    }
  }

  lemma LaterWill(st: Store, now: nat, will: (Text, LastWill))
    requires Indexed(st) && Due(st.willTimeouts, now) && will in SweepWills(TakeWill(st).0, now).1
    ensures WillTimeout(TakeWill(st).0, will.0) == WillTimeout(st, will.0) >= WillTimeout(st, First(st.willTimeouts).clientId)
  {
    hide Indexed, SweepWills;
    TakeWillIndexed(st, now);
    SweepWillsExact(TakeWill(st).0, now);
    hide TakeWill;
    var (c, w) := will;
    assert (c, w) in SweepWills(TakeWill(st).0, now).1;
    FirstIsLeast(st, c);
  }

  lemma FirstIsLeast(st: Store, c: Text)
    requires Indexed(st) && st.willTimeouts != {} && Pending(st, c)
    ensures First(st.willTimeouts).timeout <= WillTimeout(st, c)
    ensures WillTimeout(st, First(st.willTimeouts).clientId) == First(st.willTimeouts).timeout
  {
    var k := First(st.willTimeouts);
    assert IsFirst(k, st.willTimeouts);
    assert st.sessions[c].willKey.value in st.willTimeouts;
  }

  // ----- the sessions that have expired -----

  predicate HasExpired(st: Store, c: Text, now: nat) {
    c in st.sessions && st.sessions[c].removeKey.Some? && st.sessions[c].removeKey.value.timeout < now
  }

  function Expired(st: Store, now: nat): set<Text> {
    set c | c in st.sessions && HasExpired(st, c, now)
  }

  function WithoutClients(subs: Subs, gone: set<Text>): Subs {
    map k | k in subs && k.client !in gone :: subs[k]
  }

  /** The sessions, deadlines and count after the sweep. */
  ghost predicate HasSwept(st: Store, st': Store, now: nat) {
    && st'.sessions == (map c | c in st.sessions && !HasExpired(st, c, now) :: st.sessions[c])
    && st'.removeTimeouts == (set k | k in st.removeTimeouts && k.timeout >= now)
    && st'.willTimeouts == (set k | k in st.willTimeouts && !HasExpired(st, k.clientId, now))
    && st'.expired == st.expired + |Expired(st, now)|
  }

  lemma ExpireIndexed(st: Store, now: nat)
    requires Indexed(st) && Due(st.removeTimeouts, now)
    ensures var k := First(st.removeTimeouts);
            var st' := Expire(st, k);
            && HasExpired(st, k.clientId, now)
            && st'.sessions == st.sessions - {k.clientId}
            && st'.removeTimeouts == st.removeTimeouts - {k}
            && st'.willTimeouts == (set w | w in st.willTimeouts && w.clientId != k.clientId)
            && st'.expired == st.expired + 1
            && Indexed(st')
  {
    var k := First(st.removeTimeouts);
    assert IsFirst(k, st.removeTimeouts);
    var st' := Expire(st, k);
    assert st'.willTimeouts == (set w | w in st.willTimeouts && w.clientId != k.clientId);
  }

  lemma HasSweptNone(st: Store, now: nat)
    requires Indexed(st) && !Due(st.removeTimeouts, now)
    ensures HasSwept(st, st, now) && Expired(st, now) == {}
  {
    NothingDue(st.removeTimeouts, now);
    forall c ensures !HasExpired(st, c, now) {
      if c in st.sessions && st.sessions[c].removeKey.Some? {
        assert st.sessions[c].removeKey.value in st.removeTimeouts;
      }
    }
  }

  lemma HasSweptStep(st: Store, st': Store, st'': Store, k: TimeoutKey, now: nat)
    requires Indexed(st) && k in st.removeTimeouts && k.timeout < now
    requires st'.sessions == st.sessions - {k.clientId} && st'.removeTimeouts == st.removeTimeouts - {k}
    requires st'.willTimeouts == (set w | w in st.willTimeouts && w.clientId != k.clientId)
    requires st'.expired == st.expired + 1
    requires HasSwept(st', st'', now)
    ensures HasSwept(st, st'', now) && Expired(st, now) == Expired(st', now) + {k.clientId}
  {
    var c := k.clientId;
    ExpiredStep(st, st', k, now);
    assert st''.sessions == (map d | d in st.sessions && !HasExpired(st, d, now) :: st.sessions[d]);
    assert st''.removeTimeouts == (set d | d in st.removeTimeouts && d.timeout >= now);
    assert st''.willTimeouts == (set d | d in st.willTimeouts && !HasExpired(st, d.clientId, now));
  }

  lemma ExpiredStep(st: Store, st': Store, k: TimeoutKey, now: nat)
    requires Indexed(st) && k in st.removeTimeouts && k.timeout < now
    requires st'.sessions == st.sessions - {k.clientId}
    ensures Expired(st, now) == Expired(st', now) + {k.clientId} && k.clientId !in Expired(st', now)
    ensures forall d | d != k.clientId :: HasExpired(st, d, now) <==> HasExpired(st', d, now)
  {
  }

  lemma WithoutClientsStep(subs: Subs, c: Text, gone: set<Text>)
    ensures WithoutClients(WithoutClient(subs, c), gone) == WithoutClients(subs, gone + {c})
    ensures WithoutClients(subs, {}) == subs
  {
  }

  /** The sweep over the expired sessions, at once: they are gone from the table, from the deadlines
      and from the trie, and nothing else is. */
  lemma {:induction false} SweepRemovalsExact(st: Store, now: nat, subs: Subs, retained: Retained)
    requires Indexed(st) && Sound(st.trie, subs, retained)
    ensures HasSwept(st, SweepRemovals(st, now), now)
    ensures Indexed(SweepRemovals(st, now))
    ensures Sound(SweepRemovals(st, now).trie, WithoutClients(subs, Expired(st, now)), retained)
    decreases |st.removeTimeouts|
  {
    if !Due(st.removeTimeouts, now) {
      HasSweptNone(st, now);
      WithoutClientsStep(subs, [], {});
    } else {
      var k := First(st.removeTimeouts);
      ExpireIndexed(st, now);
      ExpireShrinks(st, k);
      UnsubscribeAllSound(st.trie, subs, retained, k.clientId, AnOrder(st.trie.trees.Keys));
      SweepRemovalsExact(Expire(st, k), now, WithoutClient(subs, k.clientId), retained);
      HasSweptStep(st, Expire(st, k), SweepRemovals(st, now), k, now);
      WithoutClientsStep(subs, k.clientId, Expired(Expire(st, k), now));
    }
  }

  // ----- the sweep as a whole -----

  /** No will is lost to the expiry of its session: its deadline is no later, and it goes first. */
  lemma NoWillLost(st: Store, now: nat, c: Text)
    requires Indexed(st) && HasExpired(st, c, now) && st.sessions[c].lastWill.Some?
    ensures (c, st.sessions[c].lastWill.value) in SweepWills(st, now).1
  {
    SweepWillsExact(st, now);
    assert WillDue(st, c, now);
  }

  /** A connected client keeps its session and its will through every sweep. */
  lemma LiveIsSpared(st: Store, now: nat, c: Text)
    requires Indexed(st) && Connected(st, c)
    ensures forall w :: (c, w) !in SweepWills(st, now).1
    ensures c in AfterWills(st, now).sessions && !HasExpired(AfterWills(st, now), c, now)
    ensures AfterWills(st, now).sessions[c] == st.sessions[c]
  {
    SweepWillsExact(st, now);
    assert !WillDue(st, c, now);
  }

  /** After a sweep no deadline is in the past. */
  lemma SweptIsCurrent(st: Store, now: nat, subs: Subs, retained: Retained)
    requires Indexed(st) && Sound(st.trie, subs, retained)
    ensures forall k <- Swept(st, now).removeTimeouts :: k.timeout >= now
    ensures forall k <- Swept(st, now).willTimeouts :: k.timeout >= now
    ensures Swept(st, now).sessions.Keys == st.sessions.Keys - Expired(st, now)
    ensures Swept(st, now).expired == st.expired + |Expired(st, now)|
    ensures Indexed(Swept(st, now))
    ensures Sound(Swept(st, now).trie, WithoutClients(subs, Expired(st, now)), retained)
  {
    SweepWillsExact(st, now);
    var st' := AfterWills(st, now);
    assert forall c :: HasExpired(st', c, now) <==> HasExpired(st, c, now);
    assert Expired(st', now) == Expired(st, now);
    SweepRemovalsExact(st', now, subs, retained);
  }

  /** What a sweep leaves of one session. */
  lemma SweptSession(st: Store, now: nat, subs: Subs, retained: Retained, c: Text)
    requires Indexed(st) && Sound(st.trie, subs, retained)
    ensures c in Swept(st, now).sessions <==> c in st.sessions && !HasExpired(st, c, now)
    ensures c in Swept(st, now).sessions ==>
              Swept(st, now).sessions[c] ==
              if WillDue(st, c, now) then st.sessions[c].(lastWill := None) else st.sessions[c]
  {
    SweepWillsExact(st, now);
    SweepRemovalsExact(AfterWills(st, now), now, subs, retained);
    hide SweepWills, SweepRemovals, CollectsDue, Indexed, Sound;
  }

  // ----- when the indexes do not survive -----

  /** A disconnection keeps the indexes if and only if the client was connected, or the deadlines it
      sets are the ones that are there: after a second disconnection without a connection between
      them, the deadlines of the first stay behind and belong to no session. */
  lemma DisconnectKeepsIndexesIff(st: Store, c: Text, expiry: u32, now: nat)
    requires Indexed(st) && c in st.sessions
    ensures var s := st.sessions[c];
            Indexed(DisconnectSession(st, c, expiry, now)) <==>
            || Connected(st, c)
            || (s.removeKey == Some(TimeoutKey(c, now + expiry * SECOND)) &&
                (s.lastWill.Some? ==> s.willKey == Some(WillDeadline(c, s.lastWill.value, expiry, now))))
  {
    var s := st.sessions[c];
    var st' := DisconnectSession(st, c, expiry, now);
    if !Connected(st, c) {
      assert s.removeKey.value in st'.removeTimeouts;
      if s.lastWill.Some? {
        assert s.willKey.value in st'.willTimeouts;
      }
      if Indexed(st') {
        assert st'.sessions[c].removeKey == s.removeKey;
      }
    }
  }
}
