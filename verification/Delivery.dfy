/** What a delivery puts into the queue of a session, told by the texts that clients sent and the
    fields of messages (libs/service/src/storage.rs:131-157). */
module Delivery {
  import opened Types
  import opened Seqs
  import opened Messages
  import opened FilterUtil
  import opened TreeSpec
  import opened TreeMatch
  import opened TrieSpec
  import opened TrieMatching
  import opened TrieRuns
  import opened StoreSpec
  import opened FanOut
  import T = TextTables

  /** Its interval has run out, in nanoseconds since it was made. */
  predicate RunOut(msg: Message, now: nat) {
    match msg.properties.messageExpiryInterval
    case None => false
    case Some(seconds) => msg.createdAt + seconds * 1_000_000_000 <= now
  }

  /** A copy that was made of a message for a session: from nobody, made now, and else the same but
      for what depends on the subscriptions. */
  predicate CopyOf(copy: Message, msg: Message, now: nat) {
    && copy.fromClientId == None && copy.fromUid == None && copy.createdAt == now
    && copy.topic == msg.topic && copy.payload == msg.payload
    && copy.properties == msg.properties.(subscriptionIdentifiers := copy.properties.subscriptionIdentifiers)
    && copy.qos.ToNat() <= msg.qos.ToNat()
    && (copy.retain ==> msg.retain)
  }

  /** A client has a plain subscription whose filter matches, and it may get this message back. */
  ghost predicate WantsPlain(texts: T.Texts, msg: Message, c: Text) {
    exists filter ::
      && T.TextKey(None, filter, c) in texts.subs && T.LiveText(filter, msg.topic)
      && !(texts.subs[T.TextKey(None, filter, c)].noLocal && msg.fromClientId == Some(c))
  }

  /** A share group has picked a client. */
  ghost predicate Picked(picks: Picks, c: Text) {
    exists g :: (g, c) in picks
  }

  /** What one message is worth to one client: at most one copy for its plain subscriptions and one
      for the share groups that picked it, and nothing once the message has run out. */
  ghost predicate Part(part: seq<Message>, texts: T.Texts, msg: Message, picks: Picks, now: nat, c: Text) {
    && |part| == (if RunOut(msg, now) then 0
                  else (if WantsPlain(texts, msg, c) then 1 else 0) + if Picked(picks, c) then 1 else 0)
    && forall m <- part :: CopyOf(m, msg, now)
  }

  function Joined(parts: seq<seq<Message>>): seq<Message> {
    if parts == [] then [] else Joined(parts[..|parts| - 1]) + parts[|parts| - 1]
  }

  // ----- one message -----

  lemma MatchesText(texts: T.Texts, subs: Subs, retained: Retained, g: Option<Text>, topic: Text, c: Text, item: FilterItem)
    requires T.Written(texts, subs, retained)
    ensures Matches(subs, g, Split(topic), c, item) <==>
            exists filter :: T.TextKey(g, filter, c) in texts.subs && T.LiveText(filter, topic) &&
                             texts.subs[T.TextKey(g, filter, c)] == item
  {
    hide LiveMatch, T.LiveText;
    if Matches(subs, g, Split(topic), c, item) {
      var p :| SubKey(g, p, c) in subs && LiveMatch(p, Split(topic)) && subs[SubKey(g, p, c)] == item;
      var k: T.TextKey :| T.KeyOf(k) == SubKey(g, p, c);
      T.LiveTextExact(k.filter, topic);
      assert Lookup(subs, T.KeyOf(k)) == Lookup(texts.subs, k);
      assert k == T.TextKey(g, k.filter, c);
    }
    if filter :| T.TextKey(g, filter, c) in texts.subs && T.LiveText(filter, topic) &&
                 texts.subs[T.TextKey(g, filter, c)] == item {
      var k := T.TextKey(g, filter, c);
      assert Lookup(subs, T.KeyOf(k)) == Lookup(texts.subs, k);
      T.LiveTextExact(filter, topic);
    }
  }

  lemma PlainWanted(st: Store, texts: T.Texts, subs: Subs, retained: Retained, msg: Message, c: Text)
    requires Sound(st.trie, subs, retained) && T.Written(texts, subs, retained)
    ensures PlainItems(st, msg, c) != [] <==> WantsPlain(texts, msg, c)
  {
    hide T.Written, Sound, T.LiveText, PlainItems, Matches;
    var items := PlainItems(st, msg, c);
    if items != [] {
      PlainItemsExact(st, subs, retained, msg, c, items[0]);
      MatchesText(texts, subs, retained, None, msg.topic, c, items[0]);
      assert items[0] in items;
    }
    if filter :|
      && T.TextKey(None, filter, c) in texts.subs && T.LiveText(filter, msg.topic)
      && !(texts.subs[T.TextKey(None, filter, c)].noLocal && msg.fromClientId == Some(c))
    {
      var item := texts.subs[T.TextKey(None, filter, c)];
      PlainItemsExact(st, subs, retained, msg, c, item);
      MatchesText(texts, subs, retained, None, msg.topic, c, item);
    }
  }

  lemma SharedWanted(st: Store, subs: Subs, retained: Retained, topic: Topic, picks: Picks, c: Text)
    requires Sound(st.trie, subs, retained) && |topic| > 0 && ValidPicks(st.trie.trees, topic, picks)
    ensures SharedItems(st.trie.trees, topic, picks, c) != [] <==> Picked(picks, c)
  {
    hide Sound, ValidPicks, SharedItems, Matches;
    var items := SharedItems(st.trie.trees, topic, picks, c);
    if items != [] {
      SharedItemsExact(st, subs, retained, topic, picks, c, items[0]);
      assert items[0] in items;
    }
    if g :| (g, c) in picks {
      OneMemberPerGroup(st, subs, retained, topic, picks, g);
      var item :| Matches(subs, Some(g), topic, c, item);
      SharedItemsExact(st, subs, retained, topic, picks, c, item);
    }
  }

  lemma CopiesOf(msg: Message, items: seq<FilterItem>, now: nat)
    ensures |Copies(msg, items, now)| == if items == [] then 0 else 1
    ensures forall m <- Copies(msg, items, now) :: CopyOf(m, msg, now)
  {
    if items != [] {
      CopyExact(msg, items, now);
    }
  }

  lemma FannedIsPart(st: Store, texts: T.Texts, subs: Subs, retained: Retained, msg: Message, picks: Picks, now: nat, c: Text)
    requires Sound(st.trie, subs, retained) && T.Written(texts, subs, retained)
    requires PicksFor(st.trie.trees, msg, picks, now)
    ensures Part(if msg.IsExpired(now) then [] else Fanned(st.trie.trees, msg, picks, now, c), texts, msg, picks, now, c)
  {
    hide Sound, T.Written, WantsPlain, Copies, CopyOf, ValidPicks, SharedItems;
    if !msg.IsExpired(now) {
      PlainWanted(st, texts, subs, retained, msg, c);
      SharedWanted(st, subs, retained, Split(msg.topic), picks, c);
      CopiesOf(msg, PlainItems(st, msg, c), now);
      CopiesOf(msg, SharedItems(st.trie.trees, Split(msg.topic), picks, c), now);
    }
  }

  // ----- all of them -----

  /** What a list of messages adds to the queue of a client: the part of each, in order. */
  lemma {:induction false} DeliverExact(st: Store, texts: T.Texts, subs: Subs, retained: Retained, msgs: seq<Message>,
                                        picks: seq<Picks>, now: nat, c: Text) returns (parts: seq<seq<Message>>)
    requires Sound(st.trie, subs, retained) && T.Written(texts, subs, retained)
    requires PicksForAll(st.trie.trees, msgs, picks, now) && c in st.sessions
    ensures |parts| == |msgs| && forall i | 0 <= i < |parts| :: Part(parts[i], texts, msgs[i], picks[i], now, c)
    ensures c in DeliverAll(st, msgs, picks, now).sessions
    ensures DeliverAll(st, msgs, picks, now).sessions[c] == Queued(st.sessions[c], Joined(parts))
  {
    hide Sound, T.Written, Part, PicksFor, Fanned;
    parts := [];
    EmptyJoin(st.sessions[c].queue);
    if msgs != [] {
      var n := |msgs| - 1;
      parts := DeliverExact(st, texts, subs, retained, msgs[..n], picks[..n], now, c);
      var part := if msgs[n].IsExpired(now) then [] else Fanned(st.trie.trees, msgs[n], picks[n], now, c);
      FannedIsPart(st, texts, subs, retained, msgs[n], picks[n], now, c);
      var queue := st.sessions[c].queue;
      Associative(queue, Joined(parts), part);
      EmptyJoin(queue + Joined(parts));
      assert (parts + [part])[..n] == parts;
      parts := parts + [part];
    }
  }

  // ----- how long a copy lives -----

  /** The interval of a copy counts from its delivery, so a copy lives as long as its message if and only
      if it has no interval or was delivered at the instant at which the message was made. */
  lemma CopyLivesIff(msg: Message, copy: Message, now: nat)
    requires CopyOf(copy, msg, now)
    ensures forall t: nat :: RunOut(copy, t) <==>
              copy.properties.messageExpiryInterval.Some? &&
              now + msg.properties.messageExpiryInterval.value * 1_000_000_000 <= t
    ensures (forall t: nat :: RunOut(copy, t) <==> RunOut(msg, t)) <==>
            msg.properties.messageExpiryInterval.None? || msg.createdAt == now
  {
    if msg.properties.messageExpiryInterval.Some? && msg.createdAt != now {
      var life := msg.properties.messageExpiryInterval.value * 1_000_000_000;
      var first: nat := life + if msg.createdAt < now then msg.createdAt else now;
      assert RunOut(copy, first) != RunOut(msg, first);
    }
  }

  // ----- share groups -----

  /** A share group with a member whose filter matches has picked one client, and that client has such
      a filter; the other groups have picked nobody. */
  lemma PickedText(st: Store, texts: T.Texts, subs: Subs, retained: Retained, topic: Text, picks: Picks, g: Text)
    requires Sound(st.trie, subs, retained) && T.Written(texts, subs, retained)
    requires ValidPicks(st.trie.trees, Split(topic), picks)
    ensures (exists k <- texts.subs :: k.share == Some(g) && T.LiveText(k.filter, topic)) <==> exists c :: (g, c) in picks
    ensures forall c :: (g, c) in picks ==>
              exists filter :: T.TextKey(Some(g), filter, c) in texts.subs && T.LiveText(filter, topic)
    ensures forall c, d :: (g, c) in picks && (g, d) in picks ==> c == d
  {
    hide Sound, T.Written, ValidPicks, Matches, T.LiveText;
    OneMemberPerGroup(st, subs, retained, Split(topic), picks, g);
    forall c | (g, c) in picks
      ensures exists filter :: T.TextKey(Some(g), filter, c) in texts.subs && T.LiveText(filter, topic)
    {
      var item :| Matches(subs, Some(g), Split(topic), c, item);
      MatchesText(texts, subs, retained, Some(g), topic, c, item);
    }
    if k :| k in texts.subs && k.share == Some(g) && T.LiveText(k.filter, topic) {
      assert k == T.TextKey(Some(g), k.filter, k.client);
      MatchesText(texts, subs, retained, Some(g), topic, k.client, texts.subs[k]);
    }
  }

  // ----- retained messages for a new subscription -----

  /** The copy of a retained message that one subscription asks for. */
  predicate RetainedCopy(copy: Message, msg: Message, item: FilterItem, now: nat) {
    && CopyOf(copy, msg, now)
    && copy.qos == (if item.qos.ToNat() < msg.qos.ToNat() then item.qos else msg.qos)
    && copy.retain == (item.retainAsPublished && msg.retain)
    && copy.properties.subscriptionIdentifiers == (match item.id case Some(id) => [id] case None => [])
  }

  /** It has not run out, and is not the client's own where that is not wanted. */
  predicate Sendable(msg: Message, item: FilterItem, c: Text, now: nat) {
    !RunOut(msg, now) && !(item.noLocal && msg.fromClientId == Some(c))
  }

  /** One copy of each message that can be sent, in order, and of no other. */
  ghost predicate Selects(origin: seq<nat>, sent: seq<Message>, msgs: seq<Message>, item: FilterItem, c: Text, now: nat) {
    && |origin| == |sent|
    && (forall i, j | 0 <= i < j < |origin| :: origin[i] < origin[j])
    && (forall i | 0 <= i < |origin| :: origin[i] < |msgs| && RetainedCopy(sent[i], msgs[origin[i]], item, now))
    && (forall j | 0 <= j < |msgs| :: j in origin <==> Sendable(msgs[j], item, c, now))
  }

  lemma OneCopy(msg: Message, item: FilterItem, now: nat)
    ensures RetainedCopy(Copy(msg, [item], now), msg, item, now)
  {
    assert [item][..0] == [] && Ids([]) == [];
    EmptyJoin(OptionSeq(item.id));
    CopyExact(msg, [item], now);
  }

  lemma {:induction false} RetainedSelects(msgs: seq<Message>, item: FilterItem, c: Text, now: nat) returns (origin: seq<nat>)
    ensures Selects(origin, RetainedCopies(msgs, item, c, now), msgs, item, c, now)
  {
    hide RetainedCopy, Copy, Selects, Sendable;
    origin := [];
    if msgs == [] {
      NothingSelected(item, c, now);
    } else {
      var n := |msgs| - 1;
      origin := RetainedSelects(msgs[..n], item, c, now);
      OneCopy(msgs[n], item, now);
      assert RetainedCopies(msgs, item, c, now) == RetainedCopies(msgs[..n], item, c, now) +
             if Sendable(msgs[n], item, c, now) then [Copy(msgs[n], [item], now)] else [] by { SendableIff(msgs[n], item, c, now); }
      OneMoreSelected(origin, RetainedCopies(msgs[..n], item, c, now), msgs, Copy(msgs[n], [item], now), item, c, now);
      EmptyJoin(RetainedCopies(msgs[..n], item, c, now));
      if Sendable(msgs[n], item, c, now) {
        origin := origin + [n];
      }
    }
  }

  lemma SendableIff(msg: Message, item: FilterItem, c: Text, now: nat)
    ensures Sendable(msg, item, c, now) <==> !(msg.IsExpired(now) || (item.noLocal && msg.fromClientId == Some(c)))
  {
  }

  lemma NothingSelected(item: FilterItem, c: Text, now: nat)
    ensures Selects([], RetainedCopies([], item, c, now), [], item, c, now)
  {
  }

  lemma OneMoreSelected(origin: seq<nat>, sent: seq<Message>, msgs: seq<Message>, copy: Message, item: FilterItem, c: Text,
                        now: nat)
    requires msgs != [] && Selects(origin, sent, msgs[..|msgs| - 1], item, c, now)
    requires RetainedCopy(copy, msgs[|msgs| - 1], item, now)
    ensures var n := |msgs| - 1;
      if Sendable(msgs[n], item, c, now) then Selects(origin + [n], sent + [copy], msgs, item, c, now)
      else Selects(origin, sent, msgs, item, c, now)
  {
    hide RetainedCopy, Sendable;
    var n := |msgs| - 1;
    assert forall j | 0 <= j < n :: msgs[..n][j] == msgs[j];
    assert forall i | 0 <= i < |origin| :: origin[i] < n;
    assert n !in origin;
  }

  /** A subscription asks for the retained messages: never in a share group, and otherwise each time,
      or when the client had none to this filter, as its retain handling says. */
  predicate Asks(texts: T.Texts, c: Text, filter: Filter, item: FilterItem) {
    && filter.shareName == None
    && match item.retainHandling
       case OnEverySubscribe => true
       case OnNewSubscribe => T.TextKey(None, filter.path, c) !in texts.subs
       case Never => false
  }

  /** What a subscription sends to the client: a copy of each retained message whose topic the filter
      matches and that can be sent, once and of no other; nothing if it does not ask. */
  lemma SubscribeSends(st: Store, texts: T.Texts, subs: Subs, retained: Retained, c: Text, filter: Filter,
                       item: FilterItem, msgs: seq<Message>, topics: seq<Topic>, now: nat)
    returns (sent: seq<Message>, origin: seq<nat>)
    requires Sound(st.trie, subs, retained) && T.Written(texts, subs, retained) && c in st.sessions
    requires SendsRetained(st, c, filter, item) ==>
               var t := TreeOf(SubscribeSession(st, c, filter, item, msgs, now).trie.trees, None);
               Lists(t, msgs, topics, RetainedWalk(t, PathOf(filter.path)))
    ensures var st' := SubscribeSession(st, c, filter, item, msgs, now);
      && st'.sessions.Keys == st.sessions.Keys
      && (forall d | d in st.sessions && d != c :: st'.sessions[d] == st.sessions[d])
      && st'.sessions[c] == Queued(st.sessions[c], sent)
    ensures !Asks(texts, c, filter, item) ==> sent == []
    ensures Asks(texts, c, filter, item) ==>
              T.FindsAll(texts, filter.path, msgs, topics) && Selects(origin, sent, msgs, item, c, now)
  {
    hide Sound, T.Written, Selects, Lists, RetainedWalk, Subscribing, PathOf, T.FindsAll, ItemAt;
    AsksIff(st, texts, subs, retained, c, filter, item);
    origin, sent := [], [];
    EmptyJoin(st.sessions[c].queue);
    if Asks(texts, c, filter, item) {
      FoundBySubscribing(st, texts, subs, retained, c, filter, item, msgs, topics);
      origin := RetainedSelects(msgs, item, c, now);
      sent := RetainedCopies(msgs, item, c, now);
    }
  }

  lemma AsksIff(st: Store, texts: T.Texts, subs: Subs, retained: Retained, c: Text, filter: Filter, item: FilterItem)
    requires Sound(st.trie, subs, retained) && T.Written(texts, subs, retained)
    ensures SendsRetained(st, c, filter, item) <==> Asks(texts, c, filter, item)
  {
    hide Sound, ItemAt, PathOf;
    LookUpsExact(st.trie, subs, retained, None, PathOf(filter.path), c, []);
    assert Lookup(subs, T.KeyOf(T.TextKey(None, filter.path, c))) == Lookup(texts.subs, T.TextKey(None, filter.path, c));
  }

  lemma FoundBySubscribing(st: Store, texts: T.Texts, subs: Subs, retained: Retained, c: Text, filter: Filter,
                           item: FilterItem, msgs: seq<Message>, topics: seq<Topic>)
    requires Sound(st.trie, subs, retained) && T.Written(texts, subs, retained) && filter.shareName == None
    requires var t := TreeOf(Subscribing(st.trie, None, PathOf(filter.path), c, item).trees, None);
             Lists(t, msgs, topics, RetainedWalk(t, PathOf(filter.path)))
    ensures T.FindsAll(texts, filter.path, msgs, topics)
  {
    var p := PathOf(filter.path);
    assert p != [];
    hide Sound, T.Written, Lists, RetainedWalk, Subscribing, PathOf, T.FindsAll;
    SubscribeSound(st.trie, subs, retained, None, p, c, item);
    var op := T.Subscribe(filter, c, item);
    T.OpWritten(texts, subs, retained, op);
    FoundAfter(Subscribing(st.trie, None, p, c, item), T.ApplyText(texts, op), subs[SubKey(None, p, c) := item], retained,
               filter.path, msgs, topics);
    SameRetained(texts, T.ApplyText(texts, op), filter.path, msgs, topics);
  }

  lemma FoundAfter(t: TrieState, texts: T.Texts, subs: Subs, retained: Retained, filter: Text, msgs: seq<Message>,
                   topics: seq<Topic>)
    requires Sound(t, subs, retained) && T.Written(texts, subs, retained)
    requires Lists(TreeOf(t.trees, None), msgs, topics, RetainedWalk(TreeOf(t.trees, None), PathOf(filter)))
    ensures T.FindsAll(texts, filter, msgs, topics)
  {
    assert TreeOf(t.trees, None) == t.trees[None];
    T.ListedTexts(t.trees, texts, subs, retained, filter, msgs, topics);
    hide T.FindsAll, T.Written, Shows, Lists, RetainedWalk;
  }

  lemma SameRetained(texts: T.Texts, texts': T.Texts, filter: Text, msgs: seq<Message>, topics: seq<Topic>)
    requires T.FindsAll(texts', filter, msgs, topics) && texts'.retained == texts.retained
    ensures T.FindsAll(texts, filter, msgs, topics)
  {
    hide T.RetainedText;
    forall i | 0 <= i < |msgs| ensures T.FoundSome(texts, filter, topics[i], msgs[i]) {
      assert T.FoundSome(texts', filter, topics[i], msgs[i]);
      var topic :| T.Found(texts', filter, topic, topics[i], msgs[i]);
      assert T.Found(texts, filter, topic, topics[i], msgs[i]);
    }
    forall topic | topic in texts.retained && T.RetainedText(filter, topic)
      ensures exists i :: 0 <= i < |msgs| && T.Found(texts, filter, topic, topics[i], msgs[i])
    {
      var i :| 0 <= i < |msgs| && T.Found(texts', filter, topic, topics[i], msgs[i]);
      assert T.Found(texts, filter, topic, topics[i], msgs[i]);
    }
  }
}
