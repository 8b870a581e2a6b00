/** The session store (libs/service/src/storage.rs): sessions and trie updated in place, each
    operation tied to the function of module StoreSpec that says what it makes of the store. */
module Storage {
  import opened Types
  import opened Seqs
  import opened Messages
  import opened FilterUtil
  import opened TreeSpec
  import opened TreeShape
  import opened TreeMatch
  import opened TrieSpec
  import opened TrieMatching
  import opened TrieRuns
  import opened StoreSpec
  import Trie

  class Session {
    var queue: seq<Message>
    var lastWill: Option<LastWill>
    var inflight: seq<Publish>
    var willKey: Option<TimeoutKey>
    var removeKey: Option<TimeoutKey>

    constructor (will: Option<LastWill>)
      ensures State() == NewSession(will)
    {
      queue, lastWill, inflight, willKey, removeKey := [], will, [], None, None;
    }

    ghost function State(): SessionState
      reads this
    {
      SessionState(queue, lastWill, inflight, willKey, removeKey)
    }

    /** One copy of a message, for all the items it matched together. */
    method AddMessage(msg: Message, items: seq<FilterItem>, now: nat)
      modifies this`queue
      ensures queue == old(queue) + Copies(msg, items, now)
    {
      if items == [] {
        return;
      }
      var qos, retainAsPublished, ids := items[0].qos, items[0].retainAsPublished, OptionSeq(items[0].id);
      assert items[..1] == [items[0]] && items[..1][..0] == [];
      for i := 1 to |items|
        invariant queue == old(queue) && qos == MaxQos(items[..i]) && ids == Ids(items[..i])
        invariant retainAsPublished == AllAsPublished(items[..i])
      {
        OneMoreItem(items, i);
        qos := qos.Max(items[i].qos);
        retainAsPublished := retainAsPublished && items[i].retainAsPublished;
        ids := ids + OptionSeq(items[i].id);
      }
      assert items[..|items|] == items;
      var copy := Message(None, None, now, msg.topic, msg.qos.Min(qos), msg.payload, false,
                          msg.properties.(subscriptionIdentifiers := ids));
      if retainAsPublished {
        copy := copy.(retain := msg.retain);
      }
      assert copy == Copy(msg, items, now);
      queue := queue + [copy];
    }

    /** The oldest messages of the queue. */
    method NextMessages(limit: Option<nat>) returns (messages: seq<Message>)
      modifies this`queue
      ensures messages == old(queue)[..Batch(old(queue), limit)]
      ensures queue == old(queue)[Batch(old(queue), limit)..]
    {
      var left := if limit.Some? then limit.value else USIZE_MAX;
      messages := [];
      ghost var n := Batch(queue, limit);
      if left > 0 {
        while queue != []
          invariant left > 0
          invariant |messages| <= n && messages == old(queue)[..|messages|] && queue == old(queue)[|messages|..]
          invariant left == (if limit.Some? then limit.value else USIZE_MAX) - |messages|
          decreases |queue|
        {
          messages := messages + [queue[0]];
          queue := queue[1..];
          left := left - 1;
          if left == 0 {
            break;
          }
        }
      }
    }

    /** Retained messages for a new subscription. */
    method AddRetained(c: Text, item: FilterItem, messages: seq<Message>, now: nat)
      modifies this`queue
      ensures queue == old(queue) + RetainedCopies(messages, item, c, now)
    {
      for i := 0 to |messages|
        invariant queue == old(queue) + RetainedCopies(messages[..i], item, c, now)
      {
        assert messages[..i + 1][..i] == messages[..i];
        var m := messages[i];
        if !m.IsExpired(now) && !(item.noLocal && m.fromClientId == Some(c)) {
          AddMessage(m, [item], now);
        }
      }
      assert messages[..|messages|] == messages;
    }

    method AddInflight(publish: Publish)
      modifies this`inflight
      ensures inflight == old(inflight) + [publish]
    {
      inflight := inflight + [publish];
    }

    /** The oldest in-flight packet if it has this identifier, taken out if asked. */
    method GetInflight(id: NonZeroU16, remove: bool) returns (publish: Option<Publish>)
      modifies this`inflight
      ensures publish == FrontInflight(old(inflight), id)
      ensures inflight == if remove && publish.Some? then old(inflight)[1..] else old(inflight)
    {
      publish := if inflight != [] && inflight[0].packetId == Some(id) then Some(inflight[0]) else None;
      if remove && publish.Some? {
        inflight := inflight[1..];
      }
    }
  }

  class Storage {
    var sessions: map<Text, Session>
    var filterTree: Trie.Trie
    var willTimeouts: set<TimeoutKey>
    var removeTimeouts: set<TimeoutKey>
    var clientsExpired: nat

    /** The sessions are apart from one another and from the trie. */
    ghost predicate Valid()
      reads this, filterTree`R, filterTree`roots, filterTree.R.repr - {filterTree}
    {
      Apart() && filterTree.Valid() && None in filterTree.R.trees
    }

    ghost predicate Apart()
      reads this, filterTree`R
    {
      && this !in filterTree.R.repr
      && (forall c | c in sessions :: sessions[c] !in filterTree.R.repr)
      && (forall c, d | c in sessions && d in sessions && c != d :: sessions[c] != sessions[d])
    }

    ghost function SessionStates(): map<Text, SessionState>
      reads this`sessions, sessions.Values
    {
      map c | c in sessions :: sessions[c].State()
    }

    ghost function View(): Store
      reads this, sessions.Values, filterTree
    {
      Store(SessionStates(), filterTree.State(), willTimeouts, removeTimeouts, clientsExpired)
    }

    constructor ()
      ensures Valid() && View() == NO_STORE
    {
      sessions, willTimeouts, removeTimeouts, clientsExpired := map[], {}, {}, 0;
      filterTree := new Trie.Trie();
    }

    /** Every client that matched gets its copy. */
    method FanOutQueues(msg: Message, matched: map<Text, seq<FilterItem>>, local: bool, now: nat)
      requires Valid()
      modifies sessions.Values`queue
      ensures forall c | c in sessions ::
                sessions[c].queue == old(sessions[c].queue) + Copies(msg, Sent(msg, matched, local, c), now)
    {
      hide Trie.Trie.Valid;
      var todo := matched.Keys;
      while todo != {}
        invariant todo <= matched.Keys
        invariant forall c | c in sessions ::
                    sessions[c].queue == old(sessions[c].queue) +
                                         if c in todo then [] else Copies(msg, Sent(msg, matched, local, c), now)
        decreases todo
      {
        var c :| c in todo;
        var items := if local then Local(matched[c], msg, c) else matched[c];
        if c in sessions {
          sessions[c].AddMessage(msg, items, now);
        }
        todo := todo - {c};
      }
    }

    method FanOut(msg: Message, matched: map<Text, seq<FilterItem>>, local: bool, now: nat)
      requires Valid()
      modifies sessions.Values`queue
      ensures SessionStates() == FannedOut(old(SessionStates()), msg, matched, local, now)
    {
      hide Trie.Trie.Valid;
      FanOutQueues(msg, matched, local, now);
    }

    method FanOutTwice(msg: Message, matched: map<Text, seq<FilterItem>>, shared: map<Text, seq<FilterItem>>, now: nat)
      requires Valid()
      modifies sessions.Values`queue
      ensures SessionStates() == FannedOut(FannedOut(old(SessionStates()), msg, matched, true, now), msg, shared, false, now)
    {
      hide Trie.Trie.Valid;
      FanOut(msg, matched, true, now);
      FanOut(msg, shared, false, now);
    }

    method DeliverMatched(msg: Message, shared: map<Text, seq<FilterItem>>, ghost picks: Picks, now: nat)
      requires Valid() && !msg.IsExpired(now)
      requires ListsShared(filterTree.R.trees, Split(msg.topic), picks, shared)
      modifies sessions.Values`queue
      ensures SessionStates() == DeliveredTo(old(SessionStates()), filterTree.R.trees, msg, picks, now)
    {
      hide Trie.Trie.Valid;
      var matched := filterTree.Matches(msg.topic);
      FannedTwice(SessionStates(), filterTree.R.trees, msg, matched, shared, picks, now);
      FanOutTwice(msg, matched, shared, now);
    }

    method DeliverUnexpired(msg: Message, now: nat) returns (ghost picks: Picks)
      requires Valid() && !msg.IsExpired(now)
      modifies sessions.Values`queue
      ensures PicksFor(filterTree.R.trees, msg, picks, now)
      ensures SessionStates() == DeliveredTo(old(SessionStates()), filterTree.R.trees, msg, picks, now)
    {
      hide Trie.Trie.Valid;
      var shared;
      shared, picks := filterTree.MatchesShared(msg.topic);
      DeliverMatched(msg, shared, picks, now);
    }

    method DeliverMessage(msg: Message, now: nat) returns (ghost picks: Picks)
      requires Valid()
      modifies sessions.Values`queue
      ensures PicksFor(filterTree.R.trees, msg, picks, now)
      ensures SessionStates() == DeliveredTo(old(SessionStates()), filterTree.R.trees, msg, picks, now)
    {
      hide Trie.Trie.Valid;
      if msg.IsExpired(now) {
        picks := [];
      } else {
        picks := DeliverUnexpired(msg, now);
      }
    }

    method Deliver(msgs: seq<Message>, now: nat) returns (ghost picks: seq<Picks>)
      requires Valid()
      modifies sessions.Values`queue
      ensures PicksForAll(filterTree.R.trees, msgs, picks, now)
      ensures SessionStates() == DeliveredAll(old(SessionStates()), filterTree.R.trees, msgs, picks, now)
    {
      hide Trie.Trie.Valid;
      picks := [];
      ghost var before := SessionStates();
      for i := 0 to |msgs|
        invariant PicksForAll(filterTree.R.trees, msgs[..i], picks, now)
        invariant SessionStates() == DeliveredAll(before, filterTree.R.trees, msgs[..i], picks, now)
      {
        ghost var pick := DeliverMessage(msgs[i], now);
        assert msgs[..i + 1][..i] == msgs[..i] && (picks + [pick])[..i] == picks;
        picks := picks + [pick];
      }
      assert msgs[..|msgs|] == msgs;
    }

    method UpdateRetainedMessage(msg: Message)
      requires Valid()
      modifies filterTree.R.repr
      ensures Valid() && fresh(filterTree.R.repr - old(filterTree.R.repr))
      ensures View() == UpdateRetained(old(View()), msg)
    {
      hide Trie.Trie.Valid;
      var previous := filterTree.SetRetainedMessage(msg.topic, if msg.payload != [] then Some(msg) else None);
    }

    /** Writes the will and the deadlines of one session. */
    method SetDeadlines(c: Text, will: Option<LastWill>, willKey: Option<TimeoutKey>, removeKey: Option<TimeoutKey>)
      requires Apart() && c in sessions
      modifies sessions[c]
      ensures SessionStates() == old(SessionStates())[c :=
                old(SessionStates()[c]).(lastWill := will, willKey := willKey, removeKey := removeKey)]
    {
      var session := sessions[c];
      session.lastWill, session.willKey, session.removeKey := will, willKey, removeKey;
    }

    method DropSession(c: Text)
      requires Apart()
      modifies this`sessions, this`willTimeouts, this`removeTimeouts
      ensures Apart() && sessions == old(sessions) - {c} && View() == StoreSpec.DropSession(old(View()), c)
    {
      if c in sessions {
        var session := sessions[c];
        sessions := sessions - {c};
        willTimeouts := Without(willTimeouts, session.willKey);
        removeTimeouts := Without(removeTimeouts, session.removeKey);
      }
    }

    /** Removes a client from the trie. */
    method Forget(c: Text)
      requires Valid()
      modifies filterTree.R.repr
      ensures Valid() && fresh(filterTree.R.repr - old(filterTree.R.repr))
      ensures View() == old(View()).(trie := WithoutClientTrie(old(View()).trie, c))
    {
      hide Trie.Trie.Valid;
      ghost var trie := filterTree.State();
      ghost var order := filterTree.UnsubscribeAll(c);
      ForgottenInAnyOrder(trie, c, order);
    }

    static lemma ForgottenInAnyOrder(trie: TrieState, c: Text, order: seq<Option<Text>>)
      requires Taken(trie.trees.Keys, {}, order)
      ensures UnsubscribingAll(trie, c, order) == WithoutClientTrie(trie, c)
      ensures RemoveRoots(trie.trees, c, order).Keys == trie.trees.Keys
    {
      OrderDoesNotMatter(trie, c, order, AnOrder(trie.trees.Keys));
      RemoveRootsAt(trie.trees, c, order);
    }

    method RemoveSession(c: Text)
      requires Valid()
      modifies this`sessions, this`willTimeouts, this`removeTimeouts, filterTree.R.repr
      ensures Valid() && fresh(filterTree.R.repr - old(filterTree.R.repr)) && sessions == old(sessions) - {c}
      ensures View() == StoreSpec.RemoveSession(old(View()), c)
    {
      hide Trie.Trie.Valid;
      ghost var before := View();
      DropSession(c);
      ghost var dropped := View();
      Forget(c);
      Composed(before, dropped, View(), c);
    }

    static lemma Composed(before: Store, dropped: Store, after: Store, c: Text)
      requires dropped == StoreSpec.DropSession(before, c) && after == dropped.(trie := WithoutClientTrie(dropped.trie, c))
      ensures after == StoreSpec.RemoveSession(before, c)
    {
    }

    /** The deadlines of a session whose client has gone. */
    method SetDisconnected(c: Text, expiry: u32, now: nat)
      requires Apart() && c in sessions
      modifies this`willTimeouts, this`removeTimeouts, sessions[c]
      ensures View() == StoreSpec.DisconnectSession(old(View()), c, expiry, now)
    {
      var session := sessions[c];
      var willKey := None;
      if session.lastWill.Some? {
        willKey := Some(WillDeadline(c, session.lastWill.value, expiry, now));
      }
      var removeKey := TimeoutKey(c, now + expiry * SECOND);
      SetDeadlines(c, session.lastWill, if willKey.Some? then willKey else session.willKey, Some(removeKey));
      willTimeouts := With(willTimeouts, willKey);
      removeTimeouts := removeTimeouts + {removeKey};
    }

    method DisconnectSession(c: Text, expiry: u32, now: nat)
      requires Valid()
      modifies this`willTimeouts, this`removeTimeouts, sessions.Values
      ensures Valid() && View() == StoreSpec.DisconnectSession(old(View()), c, expiry, now)
    {
      hide Trie.Trie.Valid;
      if c in sessions {
        SetDisconnected(c, expiry, now);
      }
    }

    method InsertSession(c: Text, will: Option<LastWill>)
      requires Apart()
      modifies this`sessions
      ensures Apart() && c in sessions && fresh(sessions[c]) && sessions == old(sessions)[c := sessions[c]]
      ensures View() == old(View()).(sessions := old(View()).sessions[c := NewSession(will)])
    {
      var session := new Session(will);
      sessions := sessions[c := session];
    }

    method Resume(c: Text, will: Option<LastWill>)
      requires Apart() && c in sessions
      modifies this`willTimeouts, this`removeTimeouts, sessions[c]
      ensures Apart() && View() == ResumeSession(old(View()), c, will)
    {
      var session := sessions[c];
      var willKey, removeKey := session.willKey, session.removeKey;
      SetDeadlines(c, will, None, None);
      willTimeouts := Without(willTimeouts, willKey);
      removeTimeouts := Without(removeTimeouts, removeKey);
    }

    method CreateSession(c: Text, cleanStart: bool, will: Option<LastWill>) returns (present: bool)
      requires Valid()
      modifies this`sessions, this`willTimeouts, this`removeTimeouts, filterTree.R.repr, sessions.Values
      ensures Valid() && fresh(filterTree.R.repr - old(filterTree.R.repr)) && c in sessions
      ensures (present, View()) == StoreSpec.CreateSession(old(View()), c, cleanStart, will)
    {
      hide Trie.Trie.Valid;
      present := !cleanStart && c in sessions;
      if present {
        Resume(c, will);
      } else {
        if cleanStart {
          RemoveSession(c);
        }
        InsertSession(c, will);
      }
    }

    /** The earliest of some deadlines, if it has passed. */
    method FirstDue(keys: set<TimeoutKey>, now: nat) returns (due: Option<TimeoutKey>)
      ensures due == if Due(keys, now) then Some(First(keys)) else None
    {
      due := None;
      if keys != {} {
        FirstExists(keys);
        var k :| IsFirst(k, keys);
        FirstUnique(k, keys);
        if k.timeout < now {
          due := Some(k);
        }
      }
    }

    method TakeDueWill(k: TimeoutKey) returns (will: seq<(Text, LastWill)>)
      requires Apart() && willTimeouts != {} && k == First(willTimeouts)
      modifies this`willTimeouts, sessions.Values
      ensures Apart() && (View(), will) == TakeWill(old(View()))
    {
      willTimeouts := willTimeouts - {k};
      will := [];
      if k.clientId in sessions {
        var session := sessions[k.clientId];
        if session.lastWill.Some? {
          will := [(k.clientId, session.lastWill.value)];
          SetDeadlines(k.clientId, None, session.willKey, session.removeKey);
        }
      }
    }

    /** One step of the sweep over the wills. */
    method SweepWill(now: nat) returns (more: bool, will: seq<(Text, LastWill)>)
      requires Apart()
      modifies this`willTimeouts, sessions.Values
      ensures Apart() && more == Due(old(willTimeouts), now)
      ensures more ==> |willTimeouts| < |old(willTimeouts)| && (View(), will) == TakeWill(old(View()))
      ensures !more ==> View() == old(View()) && will == []
    {
      var due := FirstDue(willTimeouts, now);
      more, will := due.Some?, [];
      if more {
        will := TakeDueWill(due.value);
      }
    }

    method SweepDueWills(now: nat) returns (wills: seq<(Text, LastWill)>)
      requires Apart()
      modifies this`willTimeouts, sessions.Values
      ensures Apart() && (View(), wills) == SweepWills(old(View()), now)
    {
      wills := [];
      ghost var all := SweepWills(View(), now);
      var more := true;
      while more
        invariant Apart() && (more || !Due(willTimeouts, now))
        invariant all.0 == SweepWills(View(), now).0 && all.1 == wills + SweepWills(View(), now).1
        decreases more, |willTimeouts|
      {
        ghost var before := View();
        var will;
        more, will := SweepWill(now);
        if more {
          SweepWillsStep(before, now, wills);
        }
        wills := wills + will;
      }
      assert wills + [] == wills;
    }

    method CountExpired(k: TimeoutKey)
      requires Apart()
      modifies this`removeTimeouts, this`clientsExpired
      ensures Apart() && View() == old(View()).(removeTimeouts := old(removeTimeouts) - {k}, expired := old(clientsExpired) + 1)
    {
      removeTimeouts := removeTimeouts - {k};
      clientsExpired := clientsExpired + 1;
    }

    method ExpireSession(k: TimeoutKey)
      requires Valid()
      modifies this`sessions, this`willTimeouts, this`removeTimeouts, this`clientsExpired, filterTree.R.repr
      ensures Valid() && fresh(filterTree.R.repr - old(filterTree.R.repr)) && sessions == old(sessions) - {k.clientId}
      ensures View() == Expire(old(View()), k)
    {
      hide Trie.Trie.Valid;
      RemoveSession(k.clientId);
      CountExpired(k);
    }

    /** One step of the sweep over the expired sessions. */
    method SweepRemoval(now: nat) returns (more: bool)
      requires Valid()
      modifies this`sessions, this`willTimeouts, this`removeTimeouts, this`clientsExpired, filterTree.R.repr
      ensures Valid() && fresh(filterTree.R.repr - old(filterTree.R.repr)) && more == Due(old(removeTimeouts), now)
      ensures forall c | c in sessions :: c in old(sessions) && sessions[c] == old(sessions)[c]
      ensures more ==> |removeTimeouts| < |old(removeTimeouts)| && View() == Expire(old(View()), First(old(removeTimeouts)))
      ensures !more ==> View() == old(View())
    {
      hide Trie.Trie.Valid;
      var due := FirstDue(removeTimeouts, now);
      more := due.Some?;
      if more {
        ExpireShrinks(View(), due.value);
        ExpireSession(due.value);
      }
    }

    method SweepDueRemovals(now: nat)
      requires Valid()
      modifies this`sessions, this`willTimeouts, this`removeTimeouts, this`clientsExpired, filterTree.R.repr
      ensures Valid() && fresh(filterTree.R.repr - old(filterTree.R.repr))
      ensures forall c | c in sessions :: c in old(sessions) && sessions[c] == old(sessions)[c]
      ensures View() == SweepRemovals(old(View()), now)
    {
      hide Trie.Trie.Valid;
      ghost var end := SweepRemovals(View(), now);
      var more := true;
      while more
        invariant Valid() && (more || !Due(removeTimeouts, now))
        invariant fresh(filterTree.R.repr - old(filterTree.R.repr))
        invariant forall c | c in sessions :: c in old(sessions) && sessions[c] == old(sessions)[c]
        invariant end == SweepRemovals(View(), now)
        decreases more, |removeTimeouts|
      {
        ghost var before := View();
        more := SweepRemoval(now);
        if more {
          SweepRemovalsStep(before, now);
        }
      }
    }

    method UpdateSessions(now: nat) returns (ghost picks: seq<Picks>)
      requires Valid()
      modifies this`sessions, this`willTimeouts, this`removeTimeouts, this`clientsExpired, filterTree.R.repr,
               sessions.Values
      ensures Valid() && fresh(filterTree.R.repr - old(filterTree.R.repr))
      ensures |picks| == |SweepWills(old(View()), now).1| && View() == StoreSpec.UpdateSessions(old(View()), now, picks)
      ensures PicksForAll(View().trie.trees, WillMessages(SweepWills(old(View()), now).1, now), picks, now)
    {
      hide Trie.Trie.Valid;
      var wills := Sweep(now);
      picks := Deliver(WillMessages(wills, now), now);
    }

    method Sweep(now: nat) returns (wills: seq<(Text, LastWill)>)
      requires Valid()
      modifies this`sessions, this`willTimeouts, this`removeTimeouts, this`clientsExpired, filterTree.R.repr,
               sessions.Values
      ensures Valid() && fresh(filterTree.R.repr - old(filterTree.R.repr))
      ensures forall c | c in sessions :: c in old(sessions) && sessions[c] == old(sessions)[c]
      ensures wills == SweepWills(old(View()), now).1 && View() == Swept(old(View()), now)
    {
      hide Trie.Trie.Valid;
      wills := SweepDueWills(now);
      SweepDueRemovals(now);
    }

    method Subscribe(c: Text, filter: Filter, item: FilterItem, now: nat)
      returns (ghost msgs: seq<Message>, ghost topics: seq<Topic>)
      requires Valid()
      modifies filterTree.R.repr, sessions.Values
      ensures Valid() && fresh(filterTree.R.repr - old(filterTree.R.repr))
      ensures View() == SubscribeSession(old(View()), c, filter, item, msgs, now)
      ensures SendsRetained(old(View()), c, filter, item) ==>
                var t := TreeOf(View().trie.trees, None); Lists(t, msgs, topics, RetainedWalk(t, PathOf(filter.path)))
    {
      hide Trie.Trie.Valid;
      var send := AddSubscription(c, filter, item);
      msgs, topics := [], [];
      if send {
        msgs, topics := SendMatching(c, filter, item, now);
      }
    }

    method AddSubscription(c: Text, filter: Filter, item: FilterItem) returns (send: bool)
      requires Valid()
      modifies filterTree.R.repr
      ensures Valid() && fresh(filterTree.R.repr - old(filterTree.R.repr))
      ensures View() == old(View()).(trie := Subscribing(old(View()).trie, filter.shareName, PathOf(filter.path), c, item))
      ensures send <==> SendsRetained(old(View()), c, filter, item)
    {
      hide Trie.Trie.Valid;
      ghost var trie := filterTree.State();
      var previous := filterTree.Subscribe(filter, c, item);
      assert None in Subscribing(trie, filter.shareName, PathOf(filter.path), c, item).trees;
      send := filter.shareName.None? &&
              (item.retainHandling == OnEverySubscribe || (item.retainHandling == OnNewSubscribe && previous.None?));
    }

    method SendRetained(c: Text, item: FilterItem, messages: seq<Message>, now: nat)
      requires Valid()
      modifies sessions.Values`queue
      ensures SessionStates() ==
              if c in sessions then
                old(SessionStates())[c := Queued(old(SessionStates())[c], RetainedCopies(messages, item, c, now))]
              else old(SessionStates())
    {
      hide Trie.Trie.Valid;
      if c in sessions {
        sessions[c].AddRetained(c, item, messages, now);
      }
    }

    /** The retained messages that match a filter, for a client that has just subscribed to it. */
    method SendMatching(c: Text, filter: Filter, item: FilterItem, now: nat)
      returns (ghost msgs: seq<Message>, ghost topics: seq<Topic>)
      requires Valid()
      modifies sessions.Values`queue
      ensures var t := TreeOf(filterTree.R.trees, None); Lists(t, msgs, topics, RetainedWalk(t, PathOf(filter.path)))
      ensures SessionStates() ==
              if c in sessions then
                old(SessionStates())[c := Queued(old(SessionStates())[c], RetainedCopies(msgs, item, c, now))]
              else old(SessionStates())
    {
      hide Trie.Trie.Valid, TreeMatch.RetainedWalk, TreeMatch.Lists, RetainedCopies;
      var messages;
      messages, topics := filterTree.MatchesRetainedMessages(filter.path);
      msgs := messages;
      SendRetained(c, item, messages, now);
    }

    method Unsubscribe(c: Text, filter: Filter) returns (existed: bool)
      requires Valid()
      modifies filterTree.R.repr
      ensures Valid() && fresh(filterTree.R.repr - old(filterTree.R.repr))
      ensures View() == UnsubscribeSession(old(View()), c, filter)
      ensures existed <==> ItemAt(old(View()).trie, filter.shareName, PathOf(filter.path), c).Some?
    {
      hide Trie.Trie.Valid;
      var removed := filterTree.Unsubscribe(filter, c);
      existed := removed.Some?;
    }
  }

  /** The items under which a client is sent a message. */
  function Sent(msg: Message, matched: map<Text, seq<FilterItem>>, local: bool, c: Text): seq<FilterItem> {
    if local then Local(Listed(matched, c), msg, c) else Listed(matched, c)
  }

  function FannedOut(states: map<Text, SessionState>, msg: Message, matched: map<Text, seq<FilterItem>>, local: bool,
                     now: nat): map<Text, SessionState> {
    map c | c in states :: Queued(states[c], Copies(msg, Sent(msg, matched, local, c), now))
  }

  lemma QueuedTwice(s: SessionState, a: seq<Message>, b: seq<Message>)
    ensures Queued(Queued(s, a), b) == Queued(s, a + b)
  {
    assert s.queue + a + b == s.queue + (a + b);
  }

  lemma ListedItems(matched: map<Text, seq<FilterItem>>, c: Text, items: seq<FilterItem>)
    requires Lookup(matched, c) == NonEmpty(items)
    ensures Listed(matched, c) == items
  {
  }

  lemma FannedAt(s: SessionState, f: Forest, msg: Message, matched: map<Text, seq<FilterItem>>,
                 shared: map<Text, seq<FilterItem>>, picks: Picks, now: nat, c: Text)
    requires Lookup(matched, c) == NonEmpty(Collected(TreeOf(f, None), Split(msg.topic), c))
    requires Lookup(shared, c) == NonEmpty(SharedItems(f, Split(msg.topic), picks, c))
    ensures Queued(Queued(s, Copies(msg, Sent(msg, matched, true, c), now)), Copies(msg, Sent(msg, shared, false, c), now))
            == Queued(s, Fanned(f, msg, picks, now, c))
  {
    ListedItems(matched, c, Collected(TreeOf(f, None), Split(msg.topic), c));
    ListedItems(shared, c, SharedItems(f, Split(msg.topic), picks, c));
    QueuedTwice(s, Copies(msg, Sent(msg, matched, true, c), now), Copies(msg, Sent(msg, shared, false, c), now));
  }

  lemma FannedTwice(states: map<Text, SessionState>, f: Forest, msg: Message, matched: map<Text, seq<FilterItem>>,
                    shared: map<Text, seq<FilterItem>>, picks: Picks, now: nat)
    requires !msg.IsExpired(now)
    requires forall c :: Lookup(matched, c) == NonEmpty(Collected(TreeOf(f, None), Split(msg.topic), c))
    requires forall c :: Lookup(shared, c) == NonEmpty(SharedItems(f, Split(msg.topic), picks, c))
    ensures FannedOut(FannedOut(states, msg, matched, true, now), msg, shared, false, now) ==
            DeliveredTo(states, f, msg, picks, now)
  {
    forall c | c in states
      ensures Queued(Queued(states[c], Copies(msg, Sent(msg, matched, true, c), now)),
                     Copies(msg, Sent(msg, shared, false, c), now))
              == Queued(states[c], Fanned(f, msg, picks, now, c))
    {
      assert Lookup(matched, c) == NonEmpty(Collected(TreeOf(f, None), Split(msg.topic), c));
      assert Lookup(shared, c) == NonEmpty(SharedItems(f, Split(msg.topic), picks, c));
      FannedAt(states[c], f, msg, matched, shared, picks, now, c);
    }
    MapsAgree(states, f, msg, matched, shared, picks, now);
  }

  lemma MapsAgree(states: map<Text, SessionState>, f: Forest, msg: Message, matched: map<Text, seq<FilterItem>>,
                  shared: map<Text, seq<FilterItem>>, picks: Picks, now: nat)
    requires !msg.IsExpired(now)
    requires forall c | c in states ::
               Queued(Queued(states[c], Copies(msg, Sent(msg, matched, true, c), now)),
                      Copies(msg, Sent(msg, shared, false, c), now))
               == Queued(states[c], Fanned(f, msg, picks, now, c))
    ensures FannedOut(FannedOut(states, msg, matched, true, now), msg, shared, false, now) ==
            DeliveredTo(states, f, msg, picks, now)
  {
  }
}
