/** The way of a will: from the CONNECT that brought it, over the disconnection and the deadline, into
    the queues of those who subscribed to its topic (libs/service/src/storage.rs:190-326). */
module Wills {
  import opened Types
  import opened Messages
  import opened TrieSpec
  import opened TrieMatching
  import R = TrieRuns
  import opened StoreSpec
  import opened StoreIndexes
  import opened StoreRuns
  import opened Delivery
  import T = TextTables

  // ----- from the deadline to the queues -----

  /** A message that is a will, sent now: everything the will says, and nothing else. */
  predicate IsWill(m: Message, w: LastWill, now: nat) {
    && m.fromClientId == None && m.fromUid == None && m.createdAt == now
    && m.topic == w.topic && m.payload == w.payload && m.qos == w.qos && m.retain == w.retain
    && m.properties == PublishProperties(
         w.properties.payloadFormatIndicator,
         w.properties.messageExpiryInterval,
         None,
         w.properties.responseTopic,
         w.properties.correlationData,
         w.properties.userProperties,
         [],
         w.properties.contentType)
  }

  ghost predicate AreWills(msgs: seq<Message>, wills: seq<(Text, LastWill)>, now: nat) {
    |msgs| == |wills| && forall i | 0 <= i < |msgs| :: IsWill(msgs[i], wills[i].1, now)
  }

  /** What a sweep delivers are the wills it collected, one message each. */
  lemma SweepDelivers(st: Store, now: nat, picks: seq<Picks>) returns (msgs: seq<Message>)
    requires |picks| == |SweepWills(st, now).1|
    ensures AreWills(msgs, SweepWills(st, now).1, now)
    ensures msgs == WillMessages(SweepWills(st, now).1, now)
    ensures UpdateSessions(st, now, picks) == DeliverAll(Swept(st, now), msgs, picks, now)
  {
    msgs := WillMessages(SweepWills(st, now).1, now);
  }

  /** The members that the share groups picked for the wills of a sweep. */
  ghost predicate PicksForWills(st: Store, now: nat, picks: seq<Picks>) {
    PicksForAll(Swept(st, now).trie.trees, WillMessages(SweepWills(st, now).1, now), picks, now)
  }

  /** What a sweep adds to the queue of a session that stays: for each will that was due its part, as
      the texts of the subscriptions have it that are left after the sweep. */
  lemma SweepExact(sys: System, now: nat, picks: seq<Picks>, d: Text) returns (msgs: seq<Message>, parts: seq<seq<Message>>)
    requires Consistent(sys) && PicksForWills(sys.store, now, picks)
    requires d in sys.store.sessions && !HasExpired(sys.store, d, now)
    ensures AreWills(msgs, SweepWills(sys.store, now).1, now) && |parts| == |msgs| == |picks|
    ensures forall i | 0 <= i < |parts| ::
              Part(parts[i], WithoutTexts(sys.texts, Expired(sys.store, now)), msgs[i], picks[i], now, d)
    ensures d in UpdateSessions(sys.store, now, picks).sessions
    ensures UpdateSessions(sys.store, now, picks).sessions[d].queue == sys.store.sessions[d].queue + Joined(parts)
  {
    var gone := Expired(sys.store, now);
    msgs := SweepDelivers(sys.store, now, picks);
    SweptIsCurrent(sys.store, now, sys.subs, sys.retained);
    SweptSession(sys.store, now, sys.subs, sys.retained, d);
    WithoutWritten(sys.texts, sys.subs, sys.retained, gone);
    hide SweepWills, Swept, UpdateSessions, Part, R.Sound, T.Written, Indexed, WithoutTexts, WillMessages;
    parts := DeliverExact(Swept(sys.store, now), WithoutTexts(sys.texts, gone), WithoutClients(sys.subs, gone),
                          sys.retained, msgs, picks, now, d);
  }

  lemma {:induction false} InJoined(parts: seq<seq<Message>>, m: Message)
    ensures m in Joined(parts) <==> exists i :: 0 <= i < |parts| && m in parts[i]
  {
    if parts != [] {
      var n := |parts| - 1;
      InJoined(parts[..n], m);
      if i :| 0 <= i < |parts| && m in parts[i] {
        assert i < n ==> m in parts[..n][i];
      }
    }
  }

  /** A copy of a will in a queue. */
  predicate WillCopy(m: Message, w: LastWill, now: nat) {
    && m.topic == w.topic && m.payload == w.payload && m.createdAt == now
    && m.properties.messageExpiryInterval == w.properties.messageExpiryInterval
    && m.properties.userProperties == w.properties.userProperties
    && m.properties.contentType == w.properties.contentType
    && m.properties.responseTopic == w.properties.responseTopic
    && m.properties.correlationData == w.properties.correlationData
    && m.properties.payloadFormatIndicator == w.properties.payloadFormatIndicator
    && m.properties.topicAlias == None
  }

  /** What a sweep added to the queue of a session. */
  ghost function Added(sys: System, now: nat, picks: seq<Picks>, d: Text): seq<Message>
    requires |picks| == |SweepWills(sys.store, now).1| && d in sys.store.sessions
  {
    var after := UpdateSessions(sys.store, now, picks).sessions;
    if d in after && sys.store.sessions[d].queue <= after[d].queue then after[d].queue[|sys.store.sessions[d].queue|..]
    else []
  }

  lemma AddedExact(sys: System, now: nat, picks: seq<Picks>, d: Text) returns (msgs: seq<Message>, parts: seq<seq<Message>>)
    requires Consistent(sys) && PicksForWills(sys.store, now, picks)
    requires d in sys.store.sessions && !HasExpired(sys.store, d, now)
    ensures AreWills(msgs, SweepWills(sys.store, now).1, now) && |parts| == |msgs| == |picks|
    ensures forall i | 0 <= i < |parts| ::
              Part(parts[i], WithoutTexts(sys.texts, Expired(sys.store, now)), msgs[i], picks[i], now, d)
    ensures d in UpdateSessions(sys.store, now, picks).sessions
    ensures UpdateSessions(sys.store, now, picks).sessions[d].queue == sys.store.sessions[d].queue + Added(sys, now, picks, d)
    ensures forall m :: m in Added(sys, now, picks, d) <==> exists i :: 0 <= i < |parts| && m in parts[i]
  {
    msgs, parts := SweepExact(sys, now, picks, d);
    assert Added(sys, now, picks, d) == Joined(parts);
    forall m ensures m in Joined(parts) <==> exists i :: 0 <= i < |parts| && m in parts[i] {
      InJoined(parts, m);
    }
    hide Part, UpdateSessions, SweepWills, Consistent, AreWills;
  }

  /** A will that is due reaches every session that stays and has a plain subscription to its topic,
      unless it is to expire at once. */
  lemma DueWillArrives(sys: System, now: nat, picks: seq<Picks>, c: Text, w: LastWill, d: Text, filter: Text)
    returns (copy: Message)
    requires Consistent(sys) && PicksForWills(sys.store, now, picks)
    requires WillDue(sys.store, c, now) && sys.store.sessions[c].lastWill == Some(w)
    requires d in sys.store.sessions && !HasExpired(sys.store, d, now)
    requires T.TextKey(None, filter, d) in sys.texts.subs && T.LiveText(filter, w.topic)
    requires w.properties.messageExpiryInterval != Some(0)
    ensures copy in Added(sys, now, picks, d) && WillCopy(copy, w, now)
  {
    hide T.LiveText, Added, UpdateSessions, R.Sound, T.Written, HoldsGiven, Balanced;
    var msgs, parts := AddedExact(sys, now, picks, d);
    SweepWillsExact(sys.store, now);
    hide SweepWills, Indexed;
    var wills := SweepWills(sys.store, now).1;
    var i :| 0 <= i < |wills| && wills[i] == (c, w);
    var texts := WithoutTexts(sys.texts, Expired(sys.store, now));
    WillHasPart(texts, msgs[i], w, now, picks[i], d, filter, parts[i]);
    copy := parts[i][0];
  }

  lemma WillHasPart(texts: T.Texts, m: Message, w: LastWill, now: nat, picks: Picks, d: Text, filter: Text, part: seq<Message>)
    requires IsWill(m, w, now) && Part(part, texts, m, picks, now, d) && w.properties.messageExpiryInterval != Some(0)
    requires T.TextKey(None, filter, d) in texts.subs && T.LiveText(filter, w.topic)
    ensures part != [] && WillCopy(part[0], w, now)
  {
    hide T.LiveText;
    assert WantsPlain(texts, m, d);
    assert part[0] in part;
  }

  /** And nothing else is added: whatever is, is a copy of a will that was due. */
  lemma OnlyDueWillsArrive(sys: System, now: nat, picks: seq<Picks>, d: Text, m: Message) returns (c: Text, w: LastWill)
    requires Consistent(sys) && PicksForWills(sys.store, now, picks)
    requires d in sys.store.sessions && !HasExpired(sys.store, d, now) && m in Added(sys, now, picks, d)
    ensures WillDue(sys.store, c, now) && sys.store.sessions[c].lastWill == Some(w) && WillCopy(m, w, now)
  {
    hide Added, UpdateSessions, R.Sound, T.Written, HoldsGiven, Balanced;
    var msgs, parts := AddedExact(sys, now, picks, d);
    SweepWillsExact(sys.store, now);
    hide SweepWills, Indexed;
    var wills := SweepWills(sys.store, now).1;
    var i :| 0 <= i < |parts| && m in parts[i];
    assert Part(parts[i], WithoutTexts(sys.texts, Expired(sys.store, now)), msgs[i], picks[i], now, d);
    assert CopyOf(m, msgs[i], now) && wills[i] in wills;
    c, w := wills[i].0, wills[i].1;
  }

  /** A sweep sends wills and retains none of them, whatever they ask for: after it the retained
      messages are those that were there. */
  lemma WillsAreNotRetained(sys: System, now: nat, picks: seq<Picks>)
    requires Consistent(sys) && |picks| == |SweepWills(sys.store, now).1|
    ensures var sys' := Step(sys, Sweep(now, picks));
      && T.Written(sys'.texts, sys'.subs, sys'.retained) && R.Sound(sys'.store.trie, sys'.subs, sys'.retained)
      && sys'.texts.retained == sys.texts.retained
  {
    hide R.Sound, T.Written, Indexed, Balanced, HoldsGiven;
    SweepConsistent(sys, now, picks);
  }

  // ----- while a client is away -----

  predicate Of(e: Event, c: Text) {
    (e.Connect? || e.Disconnect?) && e.client == c
  }

  /** A session that waits for its client keeps everything but its will, which may be sent, and its
      queue, which may grow. */
  ghost predicate Waits(before: SessionState, after: SessionState) {
    && before.queue <= after.queue && after.inflight == before.inflight
    && after.willKey == before.willKey && after.removeKey == before.removeKey
  }

  lemma QueuesGrow(states: map<Text, SessionState>, f: Forest, msgs: seq<Message>, picks: seq<Picks>, now: nat, c: Text)
    requires |picks| == |msgs| && c in states
    ensures c in DeliveredAll(states, f, msgs, picks, now)
    ensures Waits(states[c], DeliveredAll(states, f, msgs, picks, now)[c])
    ensures DeliveredAll(states, f, msgs, picks, now)[c].lastWill == states[c].lastWill
    decreases |msgs|
  {
    if msgs != [] {
      var n := |msgs| - 1;
      QueuesGrow(states, f, msgs[..n], picks[..n], now, c);
    }
  }

  /** Until its session expires, nothing but a sweep after the deadline of its will changes more. */
  lemma AwayStep(sys: System, e: Event, c: Text)
    requires Consistent(sys) && Possible(sys, e) && !Of(e, c)
    requires c in sys.store.sessions && !Connected(sys.store, c)
    requires e.Sweep? ==> !HasExpired(sys.store, c, e.now)
    ensures c in Step(sys, e).store.sessions && Waits(sys.store.sessions[c], Step(sys, e).store.sessions[c])
    ensures Step(sys, e).store.sessions[c].lastWill ==
            if e.Sweep? && WillDue(sys.store, c, e.now) then None else sys.store.sessions[c].lastWill
  {
    hide R.Sound, T.Written, HoldsGiven, Balanced, CreateSession, DeliveredAll, StepTexts, StepSubs, Swept, SweepWills;
    match e
    case Connect(d, clean, will) => ConnectIndexed(sys.store, d, clean, will);
    case Disconnect(d, expiry, now) => DisconnectIndexed(sys.store, d, expiry, now);
    case Sweep(now, picks) =>
      SweptSession(sys.store, now, sys.subs, sys.retained, c);
      var st := Swept(sys.store, now);
      QueuesGrow(st.sessions, st.trie.trees, WillMessages(SweepWills(sys.store, now).1, now), picks, now, c);
    case Deliver(msgs, picks, now) => QueuesGrow(sys.store.sessions, sys.store.trie.trees, msgs, picks, now, c);
    case _ =>
  }

  /** Part of a run in which a client neither connects nor disconnects, and no sweep is later than a
      time. */
  ghost predicate Quiet(states: seq<System>, events: seq<Event>, from: nat, to: nat, c: Text, latest: nat) {
    && IsRun(states, events) && from <= to < |states|
    && forall i | from <= i < to :: !Of(events[i], c) && (events[i].Sweep? ==> events[i].now <= latest)
  }

  lemma {:induction false} Waiting(states: seq<System>, events: seq<Event>, from: nat, to: nat, c: Text, latest: nat)
    requires Quiet(states, events, from, to, c, latest) && c in states[from].store.sessions
    requires var s := states[from].store.sessions[c]; s.removeKey.Some? && latest <= s.removeKey.value.timeout
    ensures c in states[to].store.sessions
    ensures var (s, s') := (states[from].store.sessions[c], states[to].store.sessions[c]);
      Waits(s, s') && (s.willKey.Some? && latest <= s.willKey.value.timeout ==> s'.lastWill == s.lastWill)
  {
    hide IsRun, Step, StoreRuns.Possible, Consistent, Of;
    QuietIsRun(states, events, from, to, c, latest);
    if from < to {
      QuietShorter(states, events, from, to, c, latest);
      Waiting(states, events, from, to - 1, c, latest);
      QuietStep(states, events, from, to, c, latest);
      WaitingStep(states[from].store.sessions[c], states[to - 1], events[to - 1], c, latest);
    }
  }

  lemma QuietShorter(states: seq<System>, events: seq<Event>, from: nat, to: nat, c: Text, latest: nat)
    requires Quiet(states, events, from, to, c, latest) && from < to
    ensures Quiet(states, events, from, to - 1, c, latest)
    ensures !Of(events[to - 1], c) && (events[to - 1].Sweep? ==> events[to - 1].now <= latest)
  {
    hide IsRun, Of;
  }

  lemma QuietStep(states: seq<System>, events: seq<Event>, from: nat, to: nat, c: Text, latest: nat)
    requires Quiet(states, events, from, to, c, latest) && from < to
    ensures var (sys, e) := (states[to - 1], events[to - 1]);
      Consistent(sys) && StoreRuns.Possible(sys, e) && states[to] == Step(sys, e)
  {
    hide Step, StoreRuns.Possible, Consistent, Of;
    QuietIsRun(states, events, from, to, c, latest);
    RunStep(states, events, to - 1);
    RunConsistent(states, events, to - 1);
  }

  lemma QuietIsRun(states: seq<System>, events: seq<Event>, from: nat, to: nat, c: Text, latest: nat)
    requires Quiet(states, events, from, to, c, latest)
    ensures IsRun(states, events) && |states| == |events| + 1 && to <= |events|
  {
    hide Step, StoreRuns.Possible;
  }

  /** One more step of a session that has been waiting. */
  lemma WaitingStep(was: SessionState, sys: System, e: Event, c: Text, latest: nat)
    requires Consistent(sys) && StoreRuns.Possible(sys, e) && !Of(e, c) && (e.Sweep? ==> e.now <= latest)
    requires was.removeKey.Some? && latest <= was.removeKey.value.timeout
    requires c in sys.store.sessions && Waits(was, sys.store.sessions[c])
    ensures c in Step(sys, e).store.sessions && Waits(was, Step(sys, e).store.sessions[c])
    ensures was.willKey.Some? && latest <= was.willKey.value.timeout ==>
              Step(sys, e).store.sessions[c].lastWill == sys.store.sessions[c].lastWill
  {
    hide Consistent, Step, StoreRuns.Possible, Of;
    AwayStep(sys, e, c);
  }

  lemma RunStep(states: seq<System>, events: seq<Event>, i: nat)
    requires IsRun(states, events) && i < |events|
    ensures StoreRuns.Possible(states[i], events[i]) && states[i + 1] == Step(states[i], events[i])
  {
  }

  // ----- from CONNECT to the sweep -----

  lemma {:induction false} StillGiven(states: seq<System>, events: seq<Event>, from: nat, to: nat, c: Text)
    requires IsRun(states, events) && from <= to < |states|
    requires forall i | from <= i < to :: !Of(events[i], c)
    ensures Given(states[to], c) == Given(states[from], c)
  {
    hide Step;
    if from < to {
      StillGiven(states, events, from, to - 1, c);
      GivenStep(states[to - 1], events[to - 1], c);
    }
  }

  lemma GivenStep(sys: System, e: Event, c: Text)
    requires StoreRuns.Possible(sys, e)
    ensures Given(Step(sys, e), c) == if e.Connect? && e.client == c then e.will else Given(sys, c)
  {
    hide StepStore, StepTexts, StepSubs, SweepWills;
  }

  /** When a will is to be sent: after its own delay, but no later than the session expires. */
  function DeadlineOf(w: LastWill, expiry: u32, at: nat): nat {
    var delay := match w.delayInterval case Some(seconds) => seconds case None => 0;
    at + 1_000_000_000 * if delay <= expiry then delay else expiry
  }

  /** One connection of a client with a will: it connects, some time later disconnects, and some time
      after that there is a sweep, before which no other came later than the deadline. */
  ghost predicate OneConnection(states: seq<System>, events: seq<Event>, i: nat, j: nat, k: nat, c: Text, w: LastWill) {
    && IsRun(states, events) && i < j < k < |events|
    && events[i].Connect? && events[i].client == c && events[i].will == Some(w)
    && events[j].Disconnect? && events[j].client == c
    && events[k].Sweep?
    && (forall m | i < m < j :: !Of(events[m], c))
    && Quiet(states, events, j + 1, k, c, DeadlineOf(w, events[j].expiry, events[j].now))
  }

  /** After it has disconnected, the client's session holds the will and the deadline. */
  lemma WillLeftBehind(states: seq<System>, events: seq<Event>, i: nat, j: nat, k: nat, c: Text, w: LastWill)
    requires OneConnection(states, events, i, j, k, c, w)
    ensures c in states[j + 1].store.sessions
    ensures var s := states[j + 1].store.sessions[c];
      && s.lastWill == Some(w)
      && s.willKey.Some? && s.willKey.value.timeout == DeadlineOf(w, events[j].expiry, events[j].now)
      && s.removeKey.Some? && s.removeKey.value.timeout == events[j].now + events[j].expiry * 1_000_000_000
  {
    RunStep(states, events, i);
    RunStep(states, events, j);
    RunConsistent(states, events, i);
    RunConsistent(states, events, j);
    hide IsRun, StoreRuns.Possible, Indexed, R.Sound, T.Written, Balanced, StepTexts, StepSubs, CreateSession, Quiet;
    ConnectIndexed(states[i].store, c, events[i].cleanStart, Some(w));
    NoWillWhileConnected(states, events, i + 1, j, c, w);
    StillGiven(states, events, i + 1, j, c);
    GivenStep(states[i], events[i], c);
    DisconnectLeavesWill(states[j], c, events[j].expiry, events[j].now, w);
  }

  lemma DisconnectLeavesWill(sys: System, c: Text, expiry: u32, now: nat, w: LastWill)
    requires HoldsGiven(sys) && Connected(sys.store, c) && Given(sys, c) == Some(w)
    ensures var st := DisconnectSession(sys.store, c, expiry, now);
      && c in st.sessions && st.sessions[c].lastWill == Some(w)
      && st.sessions[c].willKey.Some? && st.sessions[c].willKey.value.timeout == DeadlineOf(w, expiry, now)
      && st.sessions[c].removeKey.Some? && st.sessions[c].removeKey.value.timeout == now + expiry * 1_000_000_000
  {
  }

  /** A will is sent by a sweep if and only if its deadline has passed; then it is the will that the
      client gave when it connected, and no other of that client is. */
  lemma WillIsSentIff(states: seq<System>, events: seq<Event>, i: nat, j: nat, k: nat, c: Text, w: LastWill)
    requires OneConnection(states, events, i, j, k, c, w)
    ensures var sent := SweepWills(states[k].store, events[k].now).1;
      && ((c, w) in sent <==> DeadlineOf(w, events[j].expiry, events[j].now) < events[k].now)
      && forall w' | (c, w') in sent :: w' == w
  {
    WillLeftBehind(states, events, i, j, k, c, w);
    hide OneConnection;
    Waiting(states, events, j + 1, k, c, DeadlineOf(w, events[j].expiry, events[j].now));
    RunConsistent(states, events, k);
    SweepWillsExact(states[k].store, events[k].now);
    hide Indexed, R.Sound, T.Written, Balanced, HoldsGiven, SweepWills, Step;
  }

  // ----- sessions -----

  /** A client that comes back without a clean start, before its session has expired, is told that the
      session is present and finds what was queued and in flight when it left, and behind that what
      was queued in the meantime. */
  lemma ResumesWhatItLeft(states: seq<System>, events: seq<Event>, j: nat, k: nat, c: Text)
    requires IsRun(states, events) && j < k < |events|
    requires events[j].Disconnect? && events[j].client == c
    requires events[k].Connect? && events[k].client == c && !events[k].cleanStart
    requires Quiet(states, events, j + 1, k, c, events[j].now + events[j].expiry * 1_000_000_000)
    ensures c in states[j].store.sessions && c in states[k].store.sessions && c in states[k + 1].store.sessions
    ensures CreateSession(states[k].store, c, false, events[k].will).0
    ensures var (left, waiting, found) :=
              (states[j].store.sessions[c], states[k].store.sessions[c], states[k + 1].store.sessions[c]);
      && left.queue <= waiting.queue == found.queue && left.inflight == found.inflight
      && found.lastWill == events[k].will
  {
    RunStep(states, events, j);
    RunStep(states, events, k);
    hide IsRun, R.Sound, T.Written, Balanced, HoldsGiven, StepTexts, StepSubs, Quiet, Indexed, Consistent;
    Waiting(states, events, j + 1, k, c, events[j].now + events[j].expiry * 1_000_000_000);
  }

  /** A client that starts clean, or has no session, is told so and finds nothing. */
  lemma StartsWithNothing(sys: System, c: Text, clean: bool, will: Option<LastWill>)
    requires Consistent(sys) && (clean || c !in sys.store.sessions)
    ensures var sys' := Step(sys, Connect(c, clean, will));
      && !CreateSession(sys.store, c, clean, will).0
      && c in sys'.store.sessions
      && sys'.store.sessions[c].queue == [] && sys'.store.sessions[c].inflight == []
      && sys'.store.sessions[c].lastWill == will
      && forall k <- sys'.texts.subs :: k.client != c
  {
    hide Indexed, R.Sound, Balanced, HoldsGiven;
    if !clean {
      forall k | k in sys.texts.subs ensures k.client != c {
        assert Lookup(sys.subs, T.KeyOf(k)) == Lookup(sys.texts.subs, k);
      }
    }
  }
}
