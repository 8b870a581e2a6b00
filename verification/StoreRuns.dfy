/** Runs of the session store: clients come and go, subscribe, publish; deadlines pass. What every
    such run keeps. */
module StoreRuns {
  import opened Types
  import opened Messages
  import opened FilterUtil
  import opened TreeSpec
  import opened TrieSpec
  import opened TrieMatching
  import opened TrieRuns
  import opened StoreSpec
  import opened StoreIndexes
  import T = TextTables

  datatype Event =
    | Connect(client: Text, cleanStart: bool, will: Option<LastWill>)
    | Disconnect(client: Text, expiry: u32, now: nat)
    | Sweep(now: nat, picks: seq<Picks>)
    | Subscribe(client: Text, filter: Filter, item: FilterItem, msgs: seq<Message>, now: nat)
    | Unsubscribe(client: Text, filter: Filter)
    | Deliver(msgs: seq<Message>, picks: seq<Picks>, now: nat)
    | Retain(msg: Message)
    | UseQueues(client: Text, queue: seq<Message>, inflight: seq<Publish>)

  type Ledger = multiset<(Text, LastWill)>

  /** The store, the tables its trie shows, and the same by the texts that clients sent; the will that
      each client gave at its last connection; and three ledgers: the wills left behind at a
      disconnection, those that were sent, and those that a later connection called off. */
  datatype System = System(
    store: Store,
    subs: Subs,
    retained: Retained,
    texts: T.Texts,
    given: map<Text, Option<LastWill>>,
    armed: Ledger,
    fired: Ledger,
    cancelled: Ledger)

  const START: System := System(NO_STORE, map[], map[], T.NO_TEXTS, map[], multiset{}, multiset{}, multiset{})

  /** Connections and disconnections of a client alternate, and only a connected client subscribes. */
  ghost predicate Possible(sys: System, e: Event) {
    match e
    case Connect(_, _, _) => true
    case Disconnect(c, _, _) => Connected(sys.store, c)
    case Sweep(now, picks) => |picks| == |SweepWills(sys.store, now).1|
    case Subscribe(c, _, _, _, _) => Connected(sys.store, c)
    case Unsubscribe(c, _) => Connected(sys.store, c)
    case Deliver(msgs, picks, _) => |picks| == |msgs|
    case Retain(_) => true
    case UseQueues(c, _, _) => Connected(sys.store, c)
  }

  /** The will that a client gave at its last connection. */
  function Given(sys: System, c: Text): Option<LastWill> {
    if c in sys.given then sys.given[c] else None
  }

  function One(c: Text, will: Option<LastWill>): Ledger {
    if will.Some? then multiset{(c, will.value)} else multiset{}
  }

  ghost function StepStore(sys: System, e: Event): Store
    requires Possible(sys, e)
  {
    match e
    case Connect(c, clean, will) => CreateSession(sys.store, c, clean, will).1
    case Disconnect(c, expiry, now) => DisconnectSession(sys.store, c, expiry, now)
    case Sweep(now, picks) => UpdateSessions(sys.store, now, picks)
    case Subscribe(c, filter, item, msgs, now) => SubscribeSession(sys.store, c, filter, item, msgs, now)
    case Unsubscribe(c, filter) => UnsubscribeSession(sys.store, c, filter)
    case Deliver(msgs, picks, now) => DeliverAll(sys.store, msgs, picks, now)
    case Retain(msg) => UpdateRetained(sys.store, msg)
    case UseQueues(c, queue, inflight) =>
      sys.store.(sessions := sys.store.sessions[c := sys.store.sessions[c].(queue := queue, inflight := inflight)])
  }

  ghost function StepSubs(sys: System, e: Event): Subs {
    match e
    case Connect(c, clean, _) => if clean then WithoutClient(sys.subs, c) else sys.subs
    case Sweep(now, _) => WithoutClients(sys.subs, Expired(sys.store, now))
    case Subscribe(c, filter, item, _, _) => sys.subs[SubKey(filter.shareName, PathOf(filter.path), c) := item]
    case Unsubscribe(c, filter) => sys.subs - {SubKey(filter.shareName, PathOf(filter.path), c)}
    case _ => sys.subs
  }

  function WithoutTexts(texts: T.Texts, gone: set<Text>): T.Texts {
    texts.(subs := map k | k in texts.subs && k.client !in gone :: texts.subs[k])
  }

  ghost function StepTexts(sys: System, e: Event): T.Texts {
    match e
    case Connect(c, clean, _) => if clean then WithoutTexts(sys.texts, {c}) else sys.texts
    case Sweep(now, _) => WithoutTexts(sys.texts, Expired(sys.store, now))
    case Subscribe(c, filter, item, _, _) => T.ApplyText(sys.texts, T.Subscribe(filter, c, item))
    case Unsubscribe(c, filter) => T.ApplyText(sys.texts, T.Unsubscribe(filter, c))
    case Retain(m) => T.ApplyText(sys.texts, T.SetRetainedMessage(m.topic, if m.payload == [] then None else Some(m)))
    case _ => sys.texts
  }

  ghost function Step(sys: System, e: Event): System
    requires Possible(sys, e)
  {
    System(
      StepStore(sys, e),
      StepSubs(sys, e),
      if e.Retain? then
        RetainedAfter(sys.retained, Split(e.msg.topic), if e.msg.payload == [] then None else Some(e.msg))
      else sys.retained,
      StepTexts(sys, e),
      if e.Connect? then sys.given[e.client := e.will] else sys.given,
      sys.armed + (if e.Disconnect? then One(e.client, Given(sys, e.client)) else multiset{}),
      sys.fired + (if e.Sweep? then multiset(SweepWills(sys.store, e.now).1) else multiset{}),
      sys.cancelled +
        (if e.Connect? && Pending(sys.store, e.client) then One(e.client, Given(sys, e.client)) else multiset{}))
  }

  /** Whether a will is still to be sent. */
  function Left(st: Store, c: Text, w: LastWill): nat {
    if Pending(st, c) && st.sessions[c].lastWill == Some(w) then 1 else 0
  }

  /** Every will left behind was sent once, was called off, or is still pending. */
  ghost predicate Balanced(sys: System) {
    forall c, w :: sys.armed[(c, w)] == sys.fired[(c, w)] + sys.cancelled[(c, w)] + Left(sys.store, c, w)
  }

  /** A session holds the will given at the last connection, until that is sent; as long as its client
      is connected it holds it. */
  ghost predicate HoldsGiven(sys: System) {
    forall c | c in sys.store.sessions ::
      && (sys.store.sessions[c].lastWill.Some? ==> sys.store.sessions[c].lastWill == Given(sys, c))
      && (Connected(sys.store, c) ==> sys.store.sessions[c].lastWill == Given(sys, c))
  }

  /** The deadlines are indexes of the sessions, the trie shows the subscriptions and every
      subscriber has a session, sessions hold their wills, and the ledgers balance. */
  ghost predicate Consistent(sys: System) {
    && Indexed(sys.store)
    && Sound(sys.store.trie, sys.subs, sys.retained)
    && T.Written(sys.texts, sys.subs, sys.retained)
    && (forall k <- sys.subs :: k.client in sys.store.sessions)
    && HoldsGiven(sys)
    && Balanced(sys)
  }

  lemma StartConsistent()
    ensures Consistent(START)
  {
    NothingShows();
  }

  // ----- the tables of texts -----

  lemma WithoutWritten(texts: T.Texts, subs: Subs, retained: Retained, gone: set<Text>)
    requires T.Written(texts, subs, retained)
    ensures T.Written(WithoutTexts(texts, gone), WithoutClients(subs, gone), retained)
  {
    hide PathOf;
    forall k: T.TextKey
      ensures Lookup(WithoutClients(subs, gone), T.KeyOf(k)) == Lookup(WithoutTexts(texts, gone).subs, k)
    {
      assert Lookup(subs, T.KeyOf(k)) == Lookup(texts.subs, k);
    }
  }

  lemma StepWritten(sys: System, e: Event)
    requires T.Written(sys.texts, sys.subs, sys.retained) && Possible(sys, e)
    ensures var sys' := Step(sys, e); T.Written(sys'.texts, sys'.subs, sys'.retained)
  {
    hide StepStore, T.Written, PathOf;
    match e
    case Connect(c, clean, _) =>
      if clean {
        WithoutWritten(sys.texts, sys.subs, sys.retained, {c});
        assert WithoutClients(sys.subs, {c}) == WithoutClient(sys.subs, c);
      }
    case Sweep(now, _) => WithoutWritten(sys.texts, sys.subs, sys.retained, Expired(sys.store, now));
    case Subscribe(c, filter, item, _, _) => T.OpWritten(sys.texts, sys.subs, sys.retained, T.Subscribe(filter, c, item));
    case Unsubscribe(c, filter) => T.OpWritten(sys.texts, sys.subs, sys.retained, T.Unsubscribe(filter, c));
    case Retain(m) =>
      T.OpWritten(sys.texts, sys.subs, sys.retained, T.SetRetainedMessage(m.topic, if m.payload == [] then None else Some(m)));
    case _ =>
  }

  // ----- each kind of event -----

  lemma ConnectIndexed(st: Store, c: Text, clean: bool, will: Option<LastWill>)
    requires Indexed(st)
    ensures var st' := CreateSession(st, c, clean, will).1;
            && Indexed(st') && Connected(st', c) && !Pending(st', c)
            && st'.sessions.Keys == st.sessions.Keys + {c} && st'.sessions[c].lastWill == will
            && forall d | d != c :: (d in st.sessions ==> st'.sessions[d] == st.sessions[d])
  {
    if !clean && c in st.sessions {
      ResumeIndexed(st, c, will);
    } else {
      var st' := if clean then RemoveSession(st, c) else st;
      DropIndexed(st, c);
      NewIndexed(st', c, will);
    }
  }

  lemma ResumeIndexed(st: Store, c: Text, will: Option<LastWill>)
    requires Indexed(st) && c in st.sessions
    ensures Indexed(ResumeSession(st, c, will))
    ensures Connected(ResumeSession(st, c, will), c) && !Pending(ResumeSession(st, c, will), c)
  {
  }

  lemma DropIndexed(st: Store, c: Text)
    requires Indexed(st)
    ensures Indexed(RemoveSession(st, c)) && c !in RemoveSession(st, c).sessions
  {
  }

  lemma NewIndexed(st: Store, c: Text, will: Option<LastWill>)
    requires Indexed(st) && c !in st.sessions
    ensures Indexed(st.(sessions := st.sessions[c := NewSession(will)]))
  {
  }

  lemma ConnectPending(st: Store, c: Text, clean: bool, will: Option<LastWill>)
    requires Indexed(st)
    ensures forall d | d != c :: Pending(CreateSession(st, c, clean, will).1, d) <==> Pending(st, d)
  {
    hide CreateSession, Indexed;
    ConnectIndexed(st, c, clean, will);
  }

  lemma ConnectSound(sys: System, c: Text, clean: bool, will: Option<LastWill>)
    requires Sound(sys.store.trie, sys.subs, sys.retained)
    ensures Sound(CreateSession(sys.store, c, clean, will).1.trie,
                  if clean then WithoutClient(sys.subs, c) else sys.subs, sys.retained)
  {
    if clean {
      UnsubscribeAllSound(sys.store.trie, sys.subs, sys.retained, c, AnOrder(sys.store.trie.trees.Keys));
    }
  }

  lemma ConnectConsistent(sys: System, c: Text, clean: bool, will: Option<LastWill>)
    requires Consistent(sys)
    ensures Consistent(Step(sys, Connect(c, clean, will)))
  {
    hide Sound, Indexed, CreateSession, Pending, T.Written, WithoutTexts, WithoutClient;
    var e := Connect(c, clean, will);
    ConnectIndexed(sys.store, c, clean, will);
    ConnectSound(sys, c, clean, will);
    StepWritten(sys, e);
    ConnectBalanced(sys, c, clean, will);
    ConnectHoldsGiven(sys, c, clean, will);
    WithoutClientLess(sys.subs, c);
    hide Balanced, HoldsGiven, Connected;
  }

  lemma WithoutClientLess(subs: Subs, c: Text)
    ensures WithoutClient(subs, c).Keys <= subs.Keys
  {
  }

  lemma ConnectBalanced(sys: System, c: Text, clean: bool, will: Option<LastWill>)
    requires Indexed(sys.store) && HoldsGiven(sys) && Balanced(sys)
    ensures Balanced(Step(sys, Connect(c, clean, will)))
  {
    hide Indexed, CreateSession, StepTexts, StepSubs, One, HoldsGiven, Left;
    var sys' := Step(sys, Connect(c, clean, will));
    forall d, w ensures sys'.armed[(d, w)] == sys'.fired[(d, w)] + sys'.cancelled[(d, w)] + Left(sys'.store, d, w) {
      OneCounts(c, Given(sys, c), d, w);
      ConnectLeaves(sys, c, clean, will, d, w);
      assert sys.armed[(d, w)] == sys.fired[(d, w)] + sys.cancelled[(d, w)] + Left(sys.store, d, w);
    }
  }

  lemma ConnectLeaves(sys: System, c: Text, clean: bool, will: Option<LastWill>, d: Text, w: LastWill)
    requires Indexed(sys.store) && HoldsGiven(sys)
    ensures Left(CreateSession(sys.store, c, clean, will).1, d, w) == if d == c then 0 else Left(sys.store, d, w)
    ensures Left(sys.store, c, w) == if Pending(sys.store, c) && Given(sys, c) == Some(w) then 1 else 0
  {
    hide Indexed, CreateSession;
    ConnectIndexed(sys.store, c, clean, will);
    ConnectPending(sys.store, c, clean, will);
  }

  lemma ConnectHoldsGiven(sys: System, c: Text, clean: bool, will: Option<LastWill>)
    requires Indexed(sys.store) && HoldsGiven(sys)
    ensures HoldsGiven(Step(sys, Connect(c, clean, will)))
  {
    hide Indexed, CreateSession, StepTexts, StepSubs, One;
    ConnectIndexed(sys.store, c, clean, will);
  }

  lemma OneCounts(c: Text, will: Option<LastWill>, d: Text, w: LastWill)
    ensures One(c, will)[(d, w)] == if d == c && will == Some(w) then 1 else 0
  {
  }

  lemma DisconnectIndexed(st: Store, c: Text, expiry: u32, now: nat)
    requires Indexed(st) && Connected(st, c)
    ensures var st' := DisconnectSession(st, c, expiry, now);
            && Indexed(st') && st'.sessions.Keys == st.sessions.Keys
            && (Pending(st', c) <==> st.sessions[c].lastWill.Some?)
            && st'.sessions[c].lastWill == st.sessions[c].lastWill && !Connected(st', c)
            && forall d | d != c :: (d in st.sessions ==> st'.sessions[d] == st.sessions[d])
  {
    assert st.sessions[c].willKey.None?;
  }

  lemma DisconnectConsistent(sys: System, c: Text, expiry: u32, now: nat)
    requires Consistent(sys) && Connected(sys.store, c)
    ensures Consistent(Step(sys, Disconnect(c, expiry, now)))
  {
    hide Sound, T.Written, Balanced, HoldsGiven;
    DisconnectIndexed(sys.store, c, expiry, now);
    StepWritten(sys, Disconnect(c, expiry, now));
    DisconnectBalanced(sys, c, expiry, now);
    DisconnectHoldsGiven(sys, c, expiry, now);
    hide Indexed;
  }

  lemma DisconnectBalanced(sys: System, c: Text, expiry: u32, now: nat)
    requires Indexed(sys.store) && HoldsGiven(sys) && Balanced(sys) && Connected(sys.store, c)
    ensures Balanced(Step(sys, Disconnect(c, expiry, now)))
  {
    hide Indexed, StepTexts, StepSubs, One, DisconnectSession, HoldsGiven, Left;
    var sys' := Step(sys, Disconnect(c, expiry, now));
    forall d, w ensures sys'.armed[(d, w)] == sys'.fired[(d, w)] + sys'.cancelled[(d, w)] + Left(sys'.store, d, w) {
      OneCounts(c, Given(sys, c), d, w);
      DisconnectLeaves(sys, c, expiry, now, d, w);
      assert sys.armed[(d, w)] == sys.fired[(d, w)] + sys.cancelled[(d, w)] + Left(sys.store, d, w);
    }
  }

  lemma DisconnectLeaves(sys: System, c: Text, expiry: u32, now: nat, d: Text, w: LastWill)
    requires Indexed(sys.store) && HoldsGiven(sys) && Connected(sys.store, c)
    ensures Left(DisconnectSession(sys.store, c, expiry, now), d, w) ==
            Left(sys.store, d, w) + if d == c && Given(sys, c) == Some(w) then 1 else 0
  {
    DisconnectIndexed(sys.store, c, expiry, now);
    assert !Pending(sys.store, c);
    hide Indexed;
  }

  lemma DisconnectHoldsGiven(sys: System, c: Text, expiry: u32, now: nat)
    requires Indexed(sys.store) && HoldsGiven(sys) && Connected(sys.store, c)
    ensures HoldsGiven(Step(sys, Disconnect(c, expiry, now)))
  {
    hide Indexed, StepTexts, StepSubs, One, DisconnectSession;
    DisconnectIndexed(sys.store, c, expiry, now);
  }

  /** Only queues differ. */
  ghost predicate SameButQueues(a: map<Text, SessionState>, b: map<Text, SessionState>) {
    && a.Keys == b.Keys
    && forall c | c in a :: a[c].(queue := b[c].queue, inflight := b[c].inflight) == b[c]
  }

  lemma SameButQueuesIndexed(st: Store, st': Store)
    requires Indexed(st) && SameButQueues(st.sessions, st'.sessions)
    requires st'.willTimeouts == st.willTimeouts && st'.removeTimeouts == st.removeTimeouts
    ensures Indexed(st') && forall c :: Pending(st', c) <==> Pending(st, c)
  {
  }

  lemma {:induction false} DeliveredAllSame(states: map<Text, SessionState>, f: Forest, msgs: seq<Message>,
                                            picks: seq<Picks>, now: nat)
    requires |picks| == |msgs|
    ensures SameButQueues(states, DeliveredAll(states, f, msgs, picks, now))
  {
    if msgs != [] {
      DeliveredAllSame(states, f, msgs[..|msgs| - 1], picks[..|msgs| - 1], now);
    }
  }

  lemma {:induction false} OnceEach(wills: seq<(Text, LastWill)>, c: Text, w: LastWill)
    requires forall i, j | 0 <= i < j < |wills| :: wills[i].0 != wills[j].0
    ensures multiset(wills)[(c, w)] == if (c, w) in wills then 1 else 0
  {
    if wills != [] {
      var n := |wills| - 1;
      OnceEach(wills[..n], c, w);
      assert wills == wills[..n] + [wills[n]];
    }
  }

  /** A session whose will was due has none after the sweep; the others keep theirs. */
  lemma SweepBalanced(sys: System, now: nat)
    requires Indexed(sys.store) && Sound(sys.store.trie, sys.subs, sys.retained) && Balanced(sys)
    ensures Balanced(AfterSweep(sys, now))
  {
    var sys' := AfterSweep(sys, now);
    hide Swept, SweepWills, Indexed, Sound, Left;
    forall c, w ensures sys'.armed[(c, w)] == sys'.fired[(c, w)] + sys'.cancelled[(c, w)] + Left(sys'.store, c, w) {
      SweptAt(sys, now, c, w);
      assert sys.armed[(c, w)] == sys.fired[(c, w)] + sys.cancelled[(c, w)] + Left(sys.store, c, w);
    }
  }

  /** After the sweep, before the wills are delivered. */
  ghost function AfterSweep(sys: System, now: nat): System {
    sys.(store := Swept(sys.store, now), fired := sys.fired + multiset(SweepWills(sys.store, now).1))
  }

  lemma SweptAt(sys: System, now: nat, c: Text, w: LastWill)
    requires Indexed(sys.store) && Sound(sys.store.trie, sys.subs, sys.retained)
    ensures multiset(SweepWills(sys.store, now).1)[(c, w)] == if WillDue(sys.store, c, now) then Left(sys.store, c, w) else 0
    ensures Left(Swept(sys.store, now), c, w) == if WillDue(sys.store, c, now) then 0 else Left(sys.store, c, w)
  {
    SweepWillsExact(sys.store, now);
    OnceEach(SweepWills(sys.store, now).1, c, w);
    SweptSession(sys.store, now, sys.subs, sys.retained, c);
    assert HasExpired(sys.store, c, now) && Pending(sys.store, c) ==> WillDue(sys.store, c, now);
    hide SweepWills, Swept, Sound, Indexed;
  }

  /** The sweep and its deliveries leave the wills that are not due. */
  lemma SweptHoldsGiven(sys: System, now: nat)
    requires Indexed(sys.store) && Sound(sys.store.trie, sys.subs, sys.retained) && HoldsGiven(sys)
    ensures HoldsGiven(AfterSweep(sys, now))
  {
    hide Swept, SweepWills, Sound, Indexed;
    var sys' := AfterSweep(sys, now);
    forall c | c in sys'.store.sessions
      ensures sys'.store.sessions[c].lastWill.Some? ==> sys'.store.sessions[c].lastWill == Given(sys', c)
      ensures Connected(sys'.store, c) ==> sys'.store.sessions[c].lastWill == Given(sys', c)
    {
      SweptSession(sys.store, now, sys.subs, sys.retained, c);
      NotDueConnected(sys.store, now, c);
    }
  }

  lemma NotDueConnected(st: Store, now: nat, c: Text)
    requires Indexed(st)
    ensures WillDue(st, c, now) ==> !Connected(st, c)
  {
  }

  lemma SameButQueuesHolds(sys: System, sys': System)
    requires HoldsGiven(sys) && Balanced(sys) && SameButQueues(sys.store.sessions, sys'.store.sessions)
    requires sys'.given == sys.given
    requires sys'.armed == sys.armed && sys'.fired == sys.fired && sys'.cancelled == sys.cancelled
    ensures HoldsGiven(sys') && Balanced(sys')
  {
  }

  lemma SweepConsistent(sys: System, now: nat, picks: seq<Picks>)
    requires Consistent(sys) && |picks| == |SweepWills(sys.store, now).1|
    ensures Consistent(Step(sys, Sweep(now, picks)))
  {
    hide Indexed, Sound, T.Written, SweepWills, HoldsGiven, Balanced, DeliveredAll, WithoutTexts;
    var st, sys' := Swept(sys.store, now), Step(sys, Sweep(now, picks));
    SweepKeepsWills(sys, now, picks);
    SweptIsCurrent(sys.store, now, sys.subs, sys.retained);
    DeliveredAllSame(st.sessions, st.trie.trees, WillMessages(SweepWills(sys.store, now).1, now), picks, now);
    SameButQueuesIndexed(st, sys'.store);
    StepWritten(sys, Sweep(now, picks));
    hide Swept, SameButQueues;
  }

  lemma SweepKeepsWills(sys: System, now: nat, picks: seq<Picks>)
    requires Indexed(sys.store) && Sound(sys.store.trie, sys.subs, sys.retained) && Balanced(sys) && HoldsGiven(sys)
    requires |picks| == |SweepWills(sys.store, now).1|
    ensures Balanced(Step(sys, Sweep(now, picks))) && HoldsGiven(Step(sys, Sweep(now, picks)))
  {
    var st := Swept(sys.store, now);
    hide Indexed, Sound, SweepWills, DeliveredAll, Swept, StepTexts, StepSubs, SameButQueues, HoldsGiven, Balanced;
    SweepBalanced(sys, now);
    SweptHoldsGiven(sys, now);
    DeliveredAllSame(st.sessions, st.trie.trees, WillMessages(SweepWills(sys.store, now).1, now), picks, now);
    SameButQueuesHolds(AfterSweep(sys, now), Step(sys, Sweep(now, picks)));
  }

  lemma QueuesConsistent(sys: System, sys': System)
    requires Consistent(sys) && SameButQueues(sys.store.sessions, sys'.store.sessions)
    requires sys'.store.willTimeouts == sys.store.willTimeouts && sys'.store.removeTimeouts == sys.store.removeTimeouts
    requires sys'.armed == sys.armed && sys'.fired == sys.fired && sys'.cancelled == sys.cancelled
    requires sys'.given == sys.given
    requires Sound(sys'.store.trie, sys'.subs, sys'.retained) && T.Written(sys'.texts, sys'.subs, sys'.retained)
    requires forall k <- sys'.subs :: k.client in sys.store.sessions
    ensures Consistent(sys')
  {
    hide Sound, T.Written;
    SameButQueuesIndexed(sys.store, sys'.store);
    SameButQueuesHolds(sys, sys');
  }

  lemma SubscribeConsistent(sys: System, c: Text, filter: Filter, item: FilterItem, msgs: seq<Message>, now: nat)
    requires Consistent(sys) && Connected(sys.store, c)
    ensures Consistent(Step(sys, Event.Subscribe(c, filter, item, msgs, now)))
  {
    hide Sound, Indexed, Balanced, HoldsGiven, T.Written, Subscribing;
    var e := Event.Subscribe(c, filter, item, msgs, now);
    SubscribeSound(sys.store.trie, sys.subs, sys.retained, filter.shareName, PathOf(filter.path), c, item);
    StepWritten(sys, e);
    QueuesConsistent(sys, Step(sys, e));
  }

  lemma UnsubscribeConsistent(sys: System, c: Text, filter: Filter)
    requires Consistent(sys) && Connected(sys.store, c)
    ensures Consistent(Step(sys, Event.Unsubscribe(c, filter)))
  {
    hide Sound, Indexed, Balanced, HoldsGiven, T.Written, Unsubscribing, PathOf;
    var e := Event.Unsubscribe(c, filter);
    UnsubscribeSound(sys.store.trie, sys.subs, sys.retained, filter.shareName, PathOf(filter.path), c);
    StepWritten(sys, e);
    QueuesConsistent(sys, Step(sys, e));
  }

  lemma RetainConsistent(sys: System, msg: Message)
    requires Consistent(sys)
    ensures Consistent(Step(sys, Retain(msg)))
  {
    hide Sound, Indexed, Balanced, HoldsGiven, T.Written, Retaining;
    SetRetainedSound(sys.store.trie, sys.subs, sys.retained, Split(msg.topic),
                     if msg.payload == [] then None else Some(msg));
    StepWritten(sys, Retain(msg));
    QueuesConsistent(sys, Step(sys, Retain(msg)));
  }

  /** Events that change queues alone. */
  lemma UntouchedConsistent(sys: System, e: Event)
    requires Consistent(sys) && Possible(sys, e) && (e.Deliver? || e.UseQueues?)
    requires SameButQueues(sys.store.sessions, StepStore(sys, e).sessions)
    ensures Consistent(Step(sys, e))
  {
    hide Sound, Indexed, Balanced, HoldsGiven, T.Written, SameButQueues, DeliveredAll;
    StepWritten(sys, e);
    QueuesConsistent(sys, Step(sys, e));
  }

  // ----- every run -----

  lemma StepConsistent(sys: System, e: Event)
    requires Consistent(sys) && Possible(sys, e)
    ensures Consistent(Step(sys, e))
  {
    match e
    case Connect(c, clean, will) => ConnectConsistent(sys, c, clean, will);
    case Disconnect(c, expiry, now) => DisconnectConsistent(sys, c, expiry, now);
    case Sweep(now, picks) => SweepConsistent(sys, now, picks);
    case Subscribe(c, filter, item, msgs, now) => SubscribeConsistent(sys, c, filter, item, msgs, now);
    case Unsubscribe(c, filter) => UnsubscribeConsistent(sys, c, filter);
    case Deliver(msgs, picks, now) =>
      DeliveredAllSame(sys.store.sessions, sys.store.trie.trees, msgs, picks, now);
      UntouchedConsistent(sys, e);
    case Retain(msg) => RetainConsistent(sys, msg);
    case UseQueues(_, _, _) => UntouchedConsistent(sys, e);
  }

  /** A run, state by state. */
  ghost predicate IsRun(states: seq<System>, events: seq<Event>) {
    && |states| == |events| + 1
    && states[0] == START
    && forall i | 0 <= i < |events| :: Possible(states[i], events[i]) && states[i + 1] == Step(states[i], events[i])
  }

  /** Every state of every run is consistent. */
  lemma {:induction false} RunConsistent(states: seq<System>, events: seq<Event>, n: nat)
    requires IsRun(states, events) && n < |states|
    ensures Consistent(states[n])
  {
    if n == 0 {
      StartConsistent();
    } else {
      RunConsistent(states, events, n - 1);
      StepConsistent(states[n - 1], events[n - 1]);
    }
  }

  /** A connected client stays connected until it disconnects, and meanwhile no will of it is sent. */
  lemma LiveStep(sys: System, e: Event, c: Text, w: LastWill)
    requires Consistent(sys) && Possible(sys, e) && Connected(sys.store, c)
    requires !(e.Disconnect? && e.client == c)
    ensures Connected(Step(sys, e).store, c) && Step(sys, e).fired[(c, w)] == sys.fired[(c, w)]
  {
    hide Indexed, Sound, CreateSession, DisconnectSession, UpdateSessions, DeliveredAll, SweepWills, StepTexts, StepSubs;
    match e
    case Connect(d, clean, will) => ConnectIndexed(sys.store, d, clean, will);
    case Disconnect(d, expiry, now) => DisconnectIndexed(sys.store, d, expiry, now);
    case Sweep(now, picks) =>
      LiveSweep(sys, now, picks, c, w);
    case Deliver(msgs, picks, now) =>
      DeliveredAllSame(sys.store.sessions, sys.store.trie.trees, msgs, picks, now);
    case _ =>
  }

  lemma LiveSweep(sys: System, now: nat, picks: seq<Picks>, c: Text, w: LastWill)
    requires Indexed(sys.store) && Sound(sys.store.trie, sys.subs, sys.retained) && Connected(sys.store, c)
    requires |picks| == |SweepWills(sys.store, now).1|
    ensures Connected(UpdateSessions(sys.store, now, picks), c) && multiset(SweepWills(sys.store, now).1)[(c, w)] == 0
  {
    SweptAt(sys, now, c, w);
    assert !WillDue(sys.store, c, now);
    SweptSession(sys.store, now, sys.subs, sys.retained, c);
    hide SweepWills, Swept, DeliveredAll, Sound, Indexed;
    var st := Swept(sys.store, now);
    DeliveredAllSame(st.sessions, st.trie.trees, WillMessages(SweepWills(sys.store, now).1, now), picks, now);
  }

  lemma {:induction false} NoWillWhileConnected(states: seq<System>, events: seq<Event>, from: nat, to: nat, c: Text,
                                                w: LastWill)
    requires IsRun(states, events) && from <= to < |states|
    requires Connected(states[from].store, c)
    requires forall i | from <= i < to :: !(events[i].Disconnect? && events[i].client == c)
    ensures Connected(states[to].store, c) && states[to].fired[(c, w)] == states[from].fired[(c, w)]
  {
    hide Consistent, Step;
    if from < to {
      NoWillWhileConnected(states, events, from, to - 1, c, w);
      RunConsistent(states, events, to - 1);
      LiveStep(states[to - 1], events[to - 1], c, w);
    }
  }

  /** A connection before the deadline calls the will off: it is not sent until the client has
      disconnected again. */
  lemma ReconnectCancels(states: seq<System>, events: seq<Event>, at: nat, to: nat, c: Text, w: LastWill)
    requires IsRun(states, events) && at < to < |states|
    requires events[at].Connect? && events[at].client == c
    requires forall i | at < i < to :: !(events[i].Disconnect? && events[i].client == c)
    ensures states[to].fired[(c, w)] == states[at].fired[(c, w)]
  {
    hide Indexed, Sound, T.Written, HoldsGiven, Balanced, CreateSession, StepTexts, StepSubs;
    RunConsistent(states, events, at);
    ConnectIndexed(states[at].store, c, events[at].cleanStart, events[at].will);
    NoWillWhileConnected(states, events, at + 1, to, c, w);
  }

  /** The will of the last connection of a client in part of a run. */
  function WillGiven(events: seq<Event>, c: Text): Option<LastWill> {
    if events == [] then None
    else
      var last := events[|events| - 1];
      if last.Connect? && last.client == c then last.will else WillGiven(events[..|events| - 1], c)
  }

  /** How often a client disconnected, in part of a run, from a connection that it had opened with a will. */
  function DisconnectionsWith(events: seq<Event>, c: Text, w: LastWill): nat {
    if events == [] then 0
    else
      var (before, last) := (events[..|events| - 1], events[|events| - 1]);
      DisconnectionsWith(before, c, w) +
      if last.Disconnect? && last.client == c && WillGiven(before, c) == Some(w) then 1 else 0
  }

  lemma {:induction false} ArmedExact(states: seq<System>, events: seq<Event>, n: nat, c: Text, w: LastWill)
    requires IsRun(states, events) && n <= |events|
    ensures states[n].armed[(c, w)] == DisconnectionsWith(events[..n], c, w)
    ensures Given(states[n], c) == WillGiven(events[..n], c)
  {
    hide Step;
    if n > 0 {
      ArmedExact(states, events, n - 1, c, w);
      assert events[..n][..n - 1] == events[..n - 1] && events[..n][n - 1] == events[n - 1];
      ArmedStep(states[n - 1], events[n - 1], c, w);
    }
  }

  lemma ArmedStep(sys: System, e: Event, c: Text, w: LastWill)
    requires Possible(sys, e)
    ensures Step(sys, e).armed[(c, w)] ==
            sys.armed[(c, w)] + if e.Disconnect? && e.client == c && Given(sys, c) == Some(w) then 1 else 0
    ensures Given(Step(sys, e), c) == if e.Connect? && e.client == c then e.will else Given(sys, c)
  {
    hide StepStore, StepTexts, StepSubs, SweepWills;
  }

  /** Over every run: of the disconnections of a client from connections that it opened with a will,
      each had that will sent, had it called off by the next connection, or has it still pending. */
  lemma WillsAccountedFor(states: seq<System>, events: seq<Event>, c: Text, w: LastWill)
    requires IsRun(states, events)
    ensures var sys := states[|events|];
      DisconnectionsWith(events, c, w) ==
      sys.fired[(c, w)] + sys.cancelled[(c, w)] + Left(sys.store, c, w)
  {
    assert |states| == |events| + 1 && events[..|events|] == events;
    hide IsRun, Indexed, Sound, T.Written, HoldsGiven, Left, DisconnectionsWith;
    RunConsistent(states, events, |events|);
    ArmedExact(states, events, |events|, c, w);
  }
}
