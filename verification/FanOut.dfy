/** Who gets a message, and what: delivery from the subscriptions to the queues. */
module FanOut {
  import opened Types
  import opened Messages
  import opened Seqs
  import opened TreeSpec
  import opened TreeShape
  import opened FilterUtil
  import opened TreeMatch
  import opened TrieSpec
  import opened TrieMatching
  import opened TrieRuns
  import opened StoreSpec

  // ----- a copy -----

  /** A copy comes from nobody and is made now. It has the message's topic, payload and properties; the highest quality of service of the
      items, but no higher than the message's; the items' identifiers; and the message's retain flag
      only if every item asks for it. */
  lemma CopyExact(msg: Message, items: seq<FilterItem>, now: nat)
    requires items != []
    ensures var copy := Copy(msg, items, now);
            && copy.fromClientId == None && copy.fromUid == None && copy.createdAt == now
            && copy.topic == msg.topic && copy.payload == msg.payload
            && copy.properties.(subscriptionIdentifiers := []) == msg.properties.(subscriptionIdentifiers := [])
            && (copy.retain <==> msg.retain && forall item <- items :: item.retainAsPublished)
            && copy.qos.ToNat() <= msg.qos.ToNat()
            && (copy.qos == msg.qos || exists item <- items :: item.qos == copy.qos)
            && (forall item <- items :: item.qos.ToNat() <= copy.qos.ToNat() || copy.qos == msg.qos)
    ensures forall id: NonZeroUsize ::
              multiset(Copy(msg, items, now).properties.subscriptionIdentifiers)[id] ==
              |set i | 0 <= i < |items| && items[i].id == Some(id)|
  {
    MaxQosExact(items);
    forall id: NonZeroUsize
      ensures multiset(Copy(msg, items, now).properties.subscriptionIdentifiers)[id] ==
              |set i | 0 <= i < |items| && items[i].id == Some(id)|
    {
      IdsExact(items, id);
    }
  }

  // ----- the items -----

  /** An item of a client, in one share group or in none, whose filter matches a topic. */
  ghost predicate Matches(subs: Subs, g: Option<Text>, topic: Topic, c: Text, item: FilterItem) {
    exists p :: SubKey(g, p, c) in subs && LiveMatch(p, topic) && subs[SubKey(g, p, c)] == item
  }

  lemma MatchedItemsExact(subs: Subs, g: Option<Text>, topic: Topic, c: Text, item: FilterItem)
    requires |topic| > 0
    ensures item in MatchedItems(subs, g, topic, c) <==> Matches(subs, g, topic, c, item)
  {
    MatchedExact(subs, g, topic, c);
    var items, ps := MatchedItems(subs, g, topic, c), Matched(subs, g, topic, c);
    if item in items {
      var i :| 0 <= i < |items| && items[i] == item;
      assert ps[i] in ps;
    }
    if Matches(subs, g, topic, c, item) {
      var p :| SubKey(g, p, c) in subs && LiveMatch(p, topic) && subs[SubKey(g, p, c)] == item;
      assert p in ps;
      var i :| 0 <= i < |ps| && ps[i] == p;
      assert items[i] == item;
    }
  }

  /** The items under which a client gets its plain copy. */
  function PlainItems(st: Store, msg: Message, c: Text): seq<FilterItem> {
    Local(Collected(TreeOf(st.trie.trees, None), Split(msg.topic), c), msg, c)
  }

  lemma PlainItemsExact(st: Store, subs: Subs, retained: Retained, msg: Message, c: Text, item: FilterItem)
    requires Sound(st.trie, subs, retained)
    ensures item in PlainItems(st, msg, c) <==>
            Matches(subs, None, Split(msg.topic), c, item) && !(item.noLocal && msg.fromClientId == Some(c))
  {
    CollectedIsMatched(st.trie.trees, subs, retained, None, Split(msg.topic), c);
    LocalExact(Collected(TreeOf(st.trie.trees, None), Split(msg.topic), c), msg, c);
    MatchedItemsExact(subs, None, Split(msg.topic), c, item);
  }

  lemma {:induction false} SharedItemsExact(st: Store, subs: Subs, retained: Retained, topic: Topic, picks: Picks,
                                            c: Text, item: FilterItem)
    requires Sound(st.trie, subs, retained) && |topic| > 0
    ensures item in SharedItems(st.trie.trees, topic, picks, c) <==>
            exists g :: (g, c) in picks && Matches(subs, Some(g), topic, c, item)
  {
    if picks != [] {
      var rest := picks[..|picks| - 1];
      var (g, d) := picks[|picks| - 1];
      assert picks == rest + [(g, d)];
      SharedItemsExact(st, subs, retained, topic, rest, c, item);
      CollectedIsMatched(st.trie.trees, subs, retained, Some(g), topic, c);
      MatchedItemsExact(subs, Some(g), topic, c, item);
      if item in SharedItems(st.trie.trees, topic, picks, c) && item !in SharedItems(st.trie.trees, topic, rest, c) {
        assert (g, c) in picks;
      }
    }
  }

  // ----- how often an identifier comes -----

  /** An item that has this identifier and may go to a client. */
  predicate Carries(item: FilterItem, id: NonZeroUsize, msg: Message, c: Text, local: bool) {
    item.id == Some(id) && (local ==> !(item.noLocal && msg.fromClientId == Some(c)))
  }

  /** The subscriptions of a client, in one share group or in none, to some filters, that do. */
  function Carrying(subs: Subs, g: Option<Text>, ps: seq<Path>, c: Text, id: NonZeroUsize, msg: Message, local: bool)
    : set<SubKey>
  {
    set k <- subs.Keys | k.share == g && k.client == c && k.path in ps && Carries(subs[k], id, msg, c, local)
  }

  function Going(items: seq<FilterItem>, msg: Message, c: Text, local: bool): seq<FilterItem> {
    if local then Local(items, msg, c) else items
  }

  lemma GoingMore(items: seq<FilterItem>, msg: Message, c: Text, local: bool, id: NonZeroUsize)
    requires items != []
    ensures var n := |items| - 1;
            multiset(Ids(Going(items, msg, c, local)))[id] ==
            multiset(Ids(Going(items[..n], msg, c, local)))[id] + if Carries(items[n], id, msg, c, local) then 1 else 0
  {
    var n := |items| - 1;
    var before, after := Going(items[..n], msg, c, local), Going(items, msg, c, local);
    if after == before + [items[n]] {
      assert after[..|after| - 1] == before;
    }
    assert after == before || after == before + [items[n]];
  }

  lemma CarryingMore(subs: Subs, g: Option<Text>, ps: seq<Path>, c: Text, id: NonZeroUsize, msg: Message, local: bool)
    requires ps != [] && Distinct(ps) && SubKey(g, ps[|ps| - 1], c) in subs
    ensures var n := |ps| - 1;
            |Carrying(subs, g, ps, c, id, msg, local)| ==
            |Carrying(subs, g, ps[..n], c, id, msg, local)| +
            if Carries(subs[SubKey(g, ps[n], c)], id, msg, c, local) then 1 else 0
  {
    var n := |ps| - 1;
    var last := SubKey(g, ps[n], c);
    var before, after := Carrying(subs, g, ps[..n], c, id, msg, local), Carrying(subs, g, ps, c, id, msg, local);
    forall p ensures p in ps <==> p in ps[..n] || p == ps[n] {
      assert ps == ps[..n] + [ps[n]];
    }
    assert last !in before;
    OneMoreElement(before, after, last, Carries(subs[last], id, msg, c, local));
  }

  lemma {:induction false} IdsCounted(subs: Subs, g: Option<Text>, ps: seq<Path>, items: seq<FilterItem>, c: Text,
                                      id: NonZeroUsize, msg: Message, local: bool)
    requires Distinct(ps) && |items| == |ps|
    requires forall i | 0 <= i < |ps| :: SubKey(g, ps[i], c) in subs && items[i] == subs[SubKey(g, ps[i], c)]
    ensures multiset(Ids(Going(items, msg, c, local)))[id] == |Carrying(subs, g, ps, c, id, msg, local)|
  {
    if ps == [] {
      assert Carrying(subs, g, [], c, id, msg, local) == {};
    } else {
      var n := |ps| - 1;
      IdsCounted(subs, g, ps[..n], items[..n], c, id, msg, local);
      GoingMore(items, msg, c, local, id);
      CarryingMore(subs, g, ps, c, id, msg, local);
    }
  }

  lemma CollectedIdsCounted(f: Forest, subs: Subs, retained: Retained, g: Option<Text>, topic: Topic, c: Text,
                            id: NonZeroUsize, msg: Message, local: bool)
    requires Shows(f, subs, retained) && |topic| > 0
    ensures multiset(Ids(Going(Collected(TreeOf(f, g), topic, c), msg, c, local)))[id] ==
            |set k <- subs.Keys | k.share == g && k.client == c && LiveMatch(k.path, topic) &&
                                  Carries(subs[k], id, msg, c, local)|
  {
    var ps := Matched(subs, g, topic, c);
    CollectedIsMatched(f, subs, retained, g, topic, c);
    MatchedExact(subs, g, topic, c);
    IdsCounted(subs, g, ps, MatchedItems(subs, g, topic, c), c, id, msg, local);
    assert Carrying(subs, g, ps, c, id, msg, local) ==
           set k <- subs.Keys | k.share == g && k.client == c && LiveMatch(k.path, topic) &&
                                Carries(subs[k], id, msg, c, local) by {
      forall k | k in subs && k.share == g && k.client == c ensures k.path in ps <==> LiveMatch(k.path, topic) {
        assert k == SubKey(g, k.path, c);
      }
    }
  }

  /** In the plain copy an identifier comes as often as the client has subscriptions with it that
      match the topic and may go back to the sender. */
  lemma PlainIdsExact(st: Store, subs: Subs, retained: Retained, msg: Message, c: Text, now: nat, id: NonZeroUsize)
    requires Sound(st.trie, subs, retained) && PlainItems(st, msg, c) != []
    ensures multiset(Copy(msg, PlainItems(st, msg, c), now).properties.subscriptionIdentifiers)[id] ==
            |set k <- subs.Keys | k.share == None && k.client == c && LiveMatch(k.path, Split(msg.topic)) &&
                                  Carries(subs[k], id, msg, c, true)|
  {
    CollectedIdsCounted(st.trie.trees, subs, retained, None, Split(msg.topic), c, id, msg, true);
  }

  function SharedKeys(subs: Subs, topic: Topic, picks: Picks, c: Text, id: NonZeroUsize): set<SubKey> {
    set k <- subs.Keys | k.share.Some? && (k.share.value, c) in picks && k.client == c && LiveMatch(k.path, topic) &&
                         subs[k].id == Some(id)
  }

  lemma {:induction false} IdsConcat(a: seq<FilterItem>, b: seq<FilterItem>)
    ensures Ids(a + b) == Ids(a) + Ids(b)
  {
    if b == [] {
      EmptyJoin(a);
    } else {
      var n := |b| - 1;
      assert (a + b)[..|a + b| - 1] == a + b[..n];
      IdsConcat(a, b[..n]);
      Associative(Ids(a), Ids(b[..n]), OptionSeq(b[n].id));
    }
  }

  lemma {:induction false} SharedIdsCounted(f: Forest, subs: Subs, retained: Retained, topic: Topic, picks: Picks,
                                            c: Text, id: NonZeroUsize, msg: Message)
    requires Shows(f, subs, retained) && |topic| > 0
    requires forall i, j | 0 <= i < j < |picks| :: picks[i].0 != picks[j].0
    ensures multiset(Ids(SharedItems(f, topic, picks, c)))[id] == |SharedKeys(subs, topic, picks, c, id)|
  {
    if picks == [] {
      assert SharedKeys(subs, topic, picks, c, id) == {};
    } else {
      hide SharedKeys, SharedItems, Ids, Collected, Shows, LiveMatch;
      var rest := picks[..|picks| - 1];
      var (g, d) := picks[|picks| - 1];
      assert picks == rest + [(g, d)];
      SharedIdsCounted(f, subs, retained, topic, rest, c, id, msg);
      LastPickIds(f, topic, rest, g, d, c, id);
      if d == c {
        CollectedIdsCounted(f, subs, retained, Some(g), topic, c, id, msg, false);
        SharedKeysMore(subs, topic, rest, g, c, id, msg);
      } else {
        SharedKeysSame(subs, topic, rest, g, d, c, id);
        NoIds();
      }
    }
  }

  lemma LastPickIds(f: Forest, topic: Topic, rest: Picks, g: Text, d: Text, c: Text, id: NonZeroUsize)
    requires |topic| > 0
    ensures multiset(Ids(SharedItems(f, topic, rest + [(g, d)], c)))[id] ==
            multiset(Ids(SharedItems(f, topic, rest, c)))[id] +
            multiset(Ids(if d == c then Collected(TreeOf(f, Some(g)), topic, c) else []))[id]
  {
    assert (rest + [(g, d)])[..|rest|] == rest;
    IdsConcat(SharedItems(f, topic, rest, c), if d == c then Collected(TreeOf(f, Some(g)), topic, c) else []);
  }

  lemma NoIds()
    ensures Ids([]) == []
  {
  }

  lemma SharedKeysSame(subs: Subs, topic: Topic, rest: Picks, g: Text, d: Text, c: Text, id: NonZeroUsize)
    requires d != c
    ensures SharedKeys(subs, topic, rest + [(g, d)], c, id) == SharedKeys(subs, topic, rest, c, id)
  {
  }

  lemma SharedKeysMore(subs: Subs, topic: Topic, rest: Picks, g: Text, c: Text, id: NonZeroUsize, msg: Message)
    requires forall i | 0 <= i < |rest| :: rest[i].0 != g
    ensures |SharedKeys(subs, topic, rest + [(g, c)], c, id)| ==
            |SharedKeys(subs, topic, rest, c, id)| +
            |set k <- subs.Keys | k.share == Some(g) && k.client == c && LiveMatch(k.path, topic) &&
                                  Carries(subs[k], id, msg, c, false)|
  {
    var more := set k <- subs.Keys | k.share == Some(g) && k.client == c && LiveMatch(k.path, topic) &&
                                     Carries(subs[k], id, msg, c, false);
    assert SharedKeys(subs, topic, rest + [(g, c)], c, id) == SharedKeys(subs, topic, rest, c, id) + more;
    assert SharedKeys(subs, topic, rest, c, id) !! more;
  }

  /** In the shared copy an identifier comes as often as the groups that picked the client hold
      subscriptions of it with that identifier that match the topic. */
  lemma SharedIdsExact(st: Store, subs: Subs, retained: Retained, msg: Message, picks: Picks, c: Text, now: nat,
                       id: NonZeroUsize)
    requires Sound(st.trie, subs, retained) && ValidPicks(st.trie.trees, Split(msg.topic), picks)
    requires SharedItems(st.trie.trees, Split(msg.topic), picks, c) != []
    ensures multiset(Copy(msg, SharedItems(st.trie.trees, Split(msg.topic), picks, c), now)
                       .properties.subscriptionIdentifiers)[id] ==
            |SharedKeys(subs, Split(msg.topic), picks, c, id)|
  {
    SharedIdsCounted(st.trie.trees, subs, retained, Split(msg.topic), picks, c, id, msg);
  }

  // ----- the whole of a delivery -----

  /** One message that has not expired adds to each session at most one plain copy and at most one
      shared copy, in this order, and changes nothing else. */
  lemma DeliverOneExact(st: Store, msg: Message, picks: Picks, now: nat, c: Text)
    requires !msg.IsExpired(now) && c in st.sessions
    ensures var st' := DeliverAll(st, [msg], [picks], now);
            && st'.(sessions := st.sessions) == st
            && st'.sessions.Keys == st.sessions.Keys
            && st'.sessions[c].(queue := st.sessions[c].queue) == st.sessions[c]
            && st'.sessions[c].queue == st.sessions[c].queue + Copies(msg, PlainItems(st, msg, c), now) +
                                        Copies(msg, SharedItems(st.trie.trees, Split(msg.topic), picks, c), now)
  {
    assert [msg][..0] == [] && [picks][..0] == [];
    assert DeliveredAll(st.sessions, st.trie.trees, [], [], now) == st.sessions;
    var q, a := st.sessions[c].queue, Copies(msg, PlainItems(st, msg, c), now);
    var b := Copies(msg, SharedItems(st.trie.trees, Split(msg.topic), picks, c), now);
    assert q + (a + b) == q + a + b;
  }

  /** An expired message goes nowhere. */
  lemma ExpiredIsDropped(st: Store, msg: Message, picks: Picks, now: nat)
    requires msg.IsExpired(now)
    ensures DeliverAll(st, [msg], [picks], now) == st
  {
    assert [msg][..0] == [] && [picks][..0] == [];
    assert DeliveredAll(st.sessions, st.trie.trees, [], [], now) == st.sessions;
  }

  lemma PickedOnce(f: Forest, topic: Topic, picks: Picks, g: Text)
    requires |topic| > 0 && ValidPicks(f, topic, picks)
    ensures forall c, d :: (g, c) in picks && (g, d) in picks ==> c == d
  {
    forall c, d | (g, c) in picks && (g, d) in picks ensures c == d {
      var i :| 0 <= i < |picks| && picks[i] == (g, c);
      var j :| 0 <= j < |picks| && picks[j] == (g, d);
      assert i == j;
    }
  }

  /** Every share group with a match sends the message to exactly one of its members that match, and
      the other groups to nobody. */
  lemma OneMemberPerGroup(st: Store, subs: Subs, retained: Retained, topic: Topic, picks: Picks, g: Text)
    requires Sound(st.trie, subs, retained) && |topic| > 0 && ValidPicks(st.trie.trees, topic, picks)
    ensures (exists c, item :: Matches(subs, Some(g), topic, c, item)) <==> (exists c :: (g, c) in picks)
    ensures forall c :: (g, c) in picks ==> exists item :: Matches(subs, Some(g), topic, c, item)
    ensures forall c, d :: (g, c) in picks && (g, d) in picks ==> c == d
  {
    hide Collected, LiveMatch;
    forall c | (g, c) in picks ensures exists item :: Matches(subs, Some(g), topic, c, item) {
      var i :| 0 <= i < |picks| && picks[i] == (g, c);
      CollectedIsMatched(st.trie.trees, subs, retained, Some(g), topic, c);
      var items := MatchedItems(subs, Some(g), topic, c);
      assert items[0] in items;
      MatchedItemsExact(subs, Some(g), topic, c, items[0]);
    }
    if c, item :| Matches(subs, Some(g), topic, c, item) {
      MatchedItemsExact(subs, Some(g), topic, c, item);
      CollectedIsMatched(st.trie.trees, subs, retained, Some(g), topic, c);
      var i :| 0 <= i < |picks| && picks[i].0 == g;
      assert (g, picks[i].1) in picks;
    }
    PickedOnce(st.trie.trees, topic, picks, g);
  }
}
