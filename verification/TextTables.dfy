/** Subscribing, retaining and matching on texts: what a client finds, in terms of the texts that
    clients sent and not of the paths of the trie (libs/service/src/trie.rs, filter_util.rs). */
module TextTables {
  import opened Types
  import opened Seqs
  import opened Messages
  import opened FilterUtil
  import opened TreeSpec
  import opened TreeShape
  import opened TreeMatch
  import opened TrieSpec
  import opened TrieMatching
  import opened TrieRuns

  // ----- matching -----

  const PLUS_LEVEL: Text := [0x2b]  // "+"
  const HASH_LEVEL: Text := [0x23]  // "#"

  /** One level of a filter stands for a level of a topic. */
  predicate StandsFor(pattern: Text, level: Text) {
    pattern == PLUS_LEVEL || (pattern == level && pattern != HASH_LEVEL)
  }

  /** A filter matches a published topic: level by level, "#" at the end for one or more. */
  predicate LiveText(filter: Text, topic: Text) {
    var (f, t) := (Split(filter), Split(topic));
    && |f| <= |t|
    && (forall i | 0 <= i < |f| - 1 :: StandsFor(f[i], t[i]))
    && (f[|f| - 1] == HASH_LEVEL || (|f| == |t| && StandsFor(f[|f| - 1], t[|f| - 1])))
  }

  /** A filter matches a retained topic: level by level up to the first "#", which stands for what is
      left, and that may be nothing. */
  predicate RetainedText(filter: Text, topic: Text) {
    var (f, t) := (Split(filter), Split(topic));
    || (|f| == |t| && forall i | 0 <= i < |f| :: StandsFor(f[i], t[i]))
    || (exists k | 0 <= k < |f| :: f[k] == HASH_LEVEL && k <= |t| && forall i | 0 <= i < k :: StandsFor(f[i], t[i]))
  }

  lemma SegmentStandsFor(pattern: Text, level: Text)
    ensures Covers(SegmentOf(pattern), level) <==> StandsFor(pattern, level)
    ensures SegmentOf(pattern) == Hash <==> pattern == HASH_LEVEL
  {
  }

  lemma LiveTextExact(filter: Text, topic: Text)
    ensures LiveMatch(PathOf(filter), Split(topic)) <==> LiveText(filter, topic)
  {
    var f, t := Split(filter), Split(topic);
    forall i | 0 <= i < |f| && i < |t| ensures Covers(PathOf(filter)[i], t[i]) <==> StandsFor(f[i], t[i]) {
      SegmentStandsFor(f[i], t[i]);
    }
    SegmentStandsFor(f[|f| - 1], []);
  }

  lemma RetainedTextExact(filter: Text, topic: Text)
    ensures RetainedMatch(PathOf(filter), Split(topic)) <==> RetainedText(filter, topic)
  {
    var f, t, p := Split(filter), Split(topic), PathOf(filter);
    forall i | 0 <= i < |f| ensures p[i] == Hash <==> f[i] == HASH_LEVEL {
      SegmentStandsFor(f[i], []);
    }
    forall i | 0 <= i < |f| && i < |t| ensures Covers(p[i], t[i]) <==> StandsFor(f[i], t[i]) {
      SegmentStandsFor(f[i], t[i]);
    }
    var h := HashAt(p);
    assert forall i | 0 <= i < h :: p[..h][i] == p[i];
    assert forall i | 0 <= i < h :: f[i] != HASH_LEVEL;
    if h < |f| {
      assert f[h] == HASH_LEVEL;
    }
  }

  // ----- the tables of texts -----

  datatype TextKey = TextKey(share: Option<Text>, filter: Text, client: Text)

  /** Subscriptions by the text of the filter, and retained messages by the text of the topic. */
  datatype Texts = Texts(subs: map<TextKey, FilterItem>, retained: map<Text, Message>)

  function KeyOf(k: TextKey): SubKey {
    SubKey(k.share, PathOf(k.filter), k.client)
  }

  /** The tables of the trie are those of the texts. */
  ghost predicate Written(texts: Texts, subs: Subs, retained: Retained) {
    && (forall k: TextKey :: Lookup(subs, KeyOf(k)) == Lookup(texts.subs, k))
    && (forall k <- subs :: exists t: TextKey :: KeyOf(t) == k)
    && (forall topic: Text :: Lookup(retained, Split(topic)) == Lookup(texts.retained, topic))
    && (forall levels <- retained :: exists topic: Text :: Split(topic) == levels)
  }

  datatype TextOp =
    | Subscribe(filter: Filter, client: Text, item: FilterItem)
    | Unsubscribe(filter: Filter, client: Text)
    | UnsubscribeAll(client: Text, order: seq<Option<Text>>)
    | SetRetainedMessage(topic: Text, message: Option<Message>)

  /** What the trie is asked to do. */
  function OpOf(op: TextOp): Op {
    match op
    case Subscribe(f, c, item) => Op.Subscribe(f.shareName, PathOf(f.path), c, item)
    case Unsubscribe(f, c) => Op.Unsubscribe(f.shareName, PathOf(f.path), c)
    case UnsubscribeAll(c, order) => Op.UnsubscribeAll(c, order)
    case SetRetainedMessage(topic, m) => Op.SetRetainedMessage(Split(topic), m)
  }

  function ApplyText(texts: Texts, op: TextOp): Texts {
    match op
    case Subscribe(f, c, item) => texts.(subs := texts.subs[TextKey(f.shareName, f.path, c) := item])
    case Unsubscribe(f, c) => texts.(subs := texts.subs - {TextKey(f.shareName, f.path, c)})
    case UnsubscribeAll(c, _) => texts.(subs := map k | k in texts.subs && k.client != c :: texts.subs[k])
    case SetRetainedMessage(topic, m) =>
      texts.(retained := if m.Some? then texts.retained[topic := m.value] else texts.retained - {topic})
  }

  lemma KeyOfInjective(a: TextKey, b: TextKey)
    requires KeyOf(a) == KeyOf(b)
    ensures a == b
  {
    PathOfInjective(a.filter, b.filter);
  }

  lemma SubsWritten(texts: Texts, subs: Subs, retained: Retained, op: TextOp)
    requires Written(texts, subs, retained)
    ensures forall k: TextKey :: Lookup(ApplySubs(subs, OpOf(op)), KeyOf(k)) == Lookup(ApplyText(texts, op).subs, k)
    ensures forall k <- ApplySubs(subs, OpOf(op)) :: exists t: TextKey :: KeyOf(t) == k
  {
    hide PathOf;
    var subs', texts' := ApplySubs(subs, OpOf(op)), ApplyText(texts, op);
    if op.Subscribe? || op.Unsubscribe? {
      var changed := TextKey(op.filter.shareName, op.filter.path, op.client);
      forall k: TextKey ensures Lookup(subs', KeyOf(k)) == Lookup(texts'.subs, k) {
        assert Lookup(subs, KeyOf(k)) == Lookup(texts.subs, k);
        if KeyOf(k) == KeyOf(changed) {
          KeyOfInjective(k, changed);
        }
      }
      forall k | k in subs' ensures exists t: TextKey :: KeyOf(t) == k {
        if k !in subs {
          assert KeyOf(changed) == k;
        }
      }
    } else {
      forall k: TextKey ensures Lookup(subs', KeyOf(k)) == Lookup(texts'.subs, k) {
        assert Lookup(subs, KeyOf(k)) == Lookup(texts.subs, k);
      }
    }
  }

  lemma RetainedWritten(texts: Texts, subs: Subs, retained: Retained, op: TextOp)
    requires Written(texts, subs, retained)
    ensures forall topic: Text ::
              Lookup(ApplyRetained(retained, OpOf(op)), Split(topic)) == Lookup(ApplyText(texts, op).retained, topic)
    ensures forall levels <- ApplyRetained(retained, OpOf(op)) :: exists topic: Text :: Split(topic) == levels
  {
    if op.SetRetainedMessage? {
      var retained', texts' := ApplyRetained(retained, OpOf(op)), ApplyText(texts, op);
      forall topic: Text ensures Lookup(retained', Split(topic)) == Lookup(texts'.retained, topic) {
        assert Lookup(retained, Split(topic)) == Lookup(texts.retained, topic);
        if Split(topic) == Split(op.topic) {
          SplitInjective(topic, op.topic);
        }
      }
      forall levels | levels in retained' ensures exists topic: Text :: Split(topic) == levels {
        if levels !in retained {
          assert Split(op.topic) == levels;
        }
      }
    }
  }

  /** Every operation on the texts is the operation on the tables. */
  lemma OpWritten(texts: Texts, subs: Subs, retained: Retained, op: TextOp)
    requires Written(texts, subs, retained)
    ensures Written(ApplyText(texts, op), ApplySubs(subs, OpOf(op)), ApplyRetained(retained, OpOf(op)))
  {
    SubsWritten(texts, subs, retained, op);
    RetainedWritten(texts, subs, retained, op);
    hide ApplySubs, ApplyRetained, ApplyText, OpOf, KeyOf;
  }

  const NO_TEXTS: Texts := Texts(map[], map[])

  function RunTexts(ops: seq<TextOp>): Texts {
    if ops == [] then NO_TEXTS else ApplyText(RunTexts(ops[..|ops| - 1]), ops[|ops| - 1])
  }

  function OpsOf(ops: seq<TextOp>): (r: seq<Op>)
    ensures |r| == |ops|
  {
    seq(|ops|, i requires 0 <= i < |ops| => OpOf(ops[i]))
  }

  /** Over every run the trie's tables are those of the texts. */
  lemma {:induction false} RunWritten(ops: seq<TextOp>)
    ensures Written(RunTexts(ops), RunSubs(OpsOf(ops)), RunRetained(OpsOf(ops)))
  {
    if ops != [] {
      var n := |ops| - 1;
      RunWritten(ops[..n]);
      assert OpsOf(ops)[..n] == OpsOf(ops[..n]);
      OpWritten(RunTexts(ops[..n]), RunSubs(OpsOf(ops[..n])), RunRetained(OpsOf(ops[..n])), ops[n]);
    }
  }

  // ----- what is found after a run -----

  /** The subscriptions of a client, in one share group or in none, with an item, that match. */
  ghost function Hits(texts: Texts, g: Option<Text>, topic: Text, c: Text, item: FilterItem): set<TextKey> {
    set k <- texts.subs.Keys | k.share == g && k.client == c && LiveText(k.filter, topic) && texts.subs[k] == item
  }

  /** The subscriptions of a client, in one share group or in none, to some filters, with an item. */
  function Having(subs: Subs, g: Option<Text>, ps: seq<Path>, c: Text, item: FilterItem): set<SubKey> {
    set k <- subs.Keys | k.share == g && k.client == c && k.path in ps && subs[k] == item
  }

  lemma HavingMore(subs: Subs, g: Option<Text>, ps: seq<Path>, c: Text, item: FilterItem)
    requires ps != [] && Distinct(ps) && SubKey(g, ps[|ps| - 1], c) in subs
    ensures var n := |ps| - 1;
            |Having(subs, g, ps, c, item)| ==
            |Having(subs, g, ps[..n], c, item)| + if subs[SubKey(g, ps[n], c)] == item then 1 else 0
  {
    var n := |ps| - 1;
    var last := SubKey(g, ps[n], c);
    forall p ensures p in ps <==> p in ps[..n] || p == ps[n] {
      assert ps == ps[..n] + [ps[n]];
    }
    OneMoreElement(Having(subs, g, ps[..n], c, item), Having(subs, g, ps, c, item), last, subs[last] == item);
  }

  lemma {:induction false} CountedItems(subs: Subs, g: Option<Text>, ps: seq<Path>, items: seq<FilterItem>, c: Text,
                                        item: FilterItem)
    requires Distinct(ps) && |items| == |ps|
    requires forall i | 0 <= i < |ps| :: SubKey(g, ps[i], c) in subs && items[i] == subs[SubKey(g, ps[i], c)]
    ensures multiset(items)[item] == |Having(subs, g, ps, c, item)|
  {
    if ps == [] {
      assert Having(subs, g, ps, c, item) == {};
    } else {
      hide Having;
      var n := |ps| - 1;
      CountedItems(subs, g, ps[..n], items[..n], c, item);
      HavingMore(subs, g, ps, c, item);
      assert items == items[..n] + [items[n]];
    }
  }

  lemma {:induction false} SizeOfKeys(keys: set<TextKey>)
    ensures |set k <- keys :: KeyOf(k)| == |keys|
  {
    if keys != {} {
      var k :| k in keys;
      SizeOfKeys(keys - {k});
      assert (set t <- keys :: KeyOf(t)) == (set t <- keys - {k} :: KeyOf(t)) + {KeyOf(k)};
      forall t | t in keys - {k} ensures KeyOf(t) != KeyOf(k) {
        if KeyOf(t) == KeyOf(k) {
          KeyOfInjective(t, k);
        }
      }
    }
  }

  lemma HitsOfPaths(texts: Texts, subs: Subs, retained: Retained, g: Option<Text>, topic: Text, c: Text, item: FilterItem)
    requires Written(texts, subs, retained)
    ensures (set k <- Hits(texts, g, topic, c, item) :: KeyOf(k)) ==
            set k <- subs.Keys | k.share == g && k.client == c && LiveMatch(k.path, Split(topic)) && subs[k] == item
  {
    hide LiveMatch, LiveText, PathOf;
    forall k | k in subs && k.share == g && k.client == c && LiveMatch(k.path, Split(topic)) && subs[k] == item
      ensures exists t: TextKey :: t in Hits(texts, g, topic, c, item) && KeyOf(t) == k
    {
      var t: TextKey :| KeyOf(t) == k;
      LiveTextExact(t.filter, topic);
      assert Lookup(subs, KeyOf(t)) == Lookup(texts.subs, t);
      assert t in Hits(texts, g, topic, c, item);
    }
    forall t | t in Hits(texts, g, topic, c, item)
      ensures KeyOf(t) in subs && LiveMatch(KeyOf(t).path, Split(topic)) && subs[KeyOf(t)] == item
    {
      LiveTextExact(t.filter, topic);
      assert Lookup(subs, KeyOf(t)) == Lookup(texts.subs, t);
    }
  }

  /** A topic finds each item of a client as often as the client's filters with that item match. */
  lemma CollectedTexts(f: Forest, texts: Texts, subs: Subs, retained: Retained, g: Option<Text>, topic: Text, c: Text,
                       item: FilterItem)
    requires Shows(f, subs, retained) && Written(texts, subs, retained)
    ensures multiset(Collected(TreeOf(f, g), Split(topic), c))[item] == |Hits(texts, g, topic, c, item)|
  {
    var ps := Matched(subs, g, Split(topic), c);
    CollectedIsMatched(f, subs, retained, g, Split(topic), c);
    MatchedExact(subs, g, Split(topic), c);
    CountedItems(subs, g, ps, MatchedItems(subs, g, Split(topic), c), c, item);
    HitsOfPaths(texts, subs, retained, g, topic, c, item);
    SizeOfKeys(Hits(texts, g, topic, c, item));
    HavingMatched(subs, g, Split(topic), c, item);
    hide Shows, Written, Collected, Hits, LiveMatch, MatchedItems, Matched, Having;
  }

  lemma HavingMatched(subs: Subs, g: Option<Text>, topic: Topic, c: Text, item: FilterItem)
    requires |topic| > 0
    ensures Having(subs, g, Matched(subs, g, topic, c), c, item) ==
            set k <- subs.Keys | k.share == g && k.client == c && LiveMatch(k.path, topic) && subs[k] == item
  {
    MatchedExact(subs, g, topic, c);
    hide LiveMatch, Matched;
    forall k | k in subs && k.share == g && k.client == c
      ensures k.path in Matched(subs, g, topic, c) <==> LiveMatch(k.path, topic)
    {
      assert k == SubKey(g, k.path, c);
    }
  }

  /** A client gets these items for a topic: some if and only if one of its filters matches, and each
      as often as filters with it match. */
  ghost predicate Matching(texts: Texts, topic: Text, c: Text, items: seq<FilterItem>) {
    && (items != [] <==> exists filter :: TextKey(None, filter, c) in texts.subs && LiveText(filter, topic))
    && (forall item :: multiset(items)[item] == |Hits(texts, None, topic, c, item)|)
  }

  lemma MatchesTexts(f: Forest, texts: Texts, subs: Subs, retained: Retained, topic: Text, c: Text, items: seq<FilterItem>)
    requires Shows(f, subs, retained) && Written(texts, subs, retained)
    requires items == Collected(TreeOf(f, None), Split(topic), c)
    ensures Matching(texts, topic, c, items)
  {
    hide LiveText, Written, Shows, Collected;
    forall item ensures multiset(items)[item] == |Hits(texts, None, topic, c, item)| {
      CollectedTexts(f, texts, subs, retained, None, topic, c, item);
    }
    if items != [] {
      assert items[0] in multiset(items);
      var k :| k in Hits(texts, None, topic, c, items[0]);
      assert k == TextKey(None, k.filter, c);
    }
    if filter :| TextKey(None, filter, c) in texts.subs && LiveText(filter, topic) {
      var k := TextKey(None, filter, c);
      assert k in Hits(texts, None, topic, c, texts.subs[k]);
      assert texts.subs[k] in multiset(items);
    }
  }

  /** After any run on texts, that is what `matches` gives, with no entry for the other clients. */
  lemma MatchesAfterRun(ops: seq<TextOp>, topic: Text, matched: map<Text, seq<FilterItem>>)
    requires PossibleRun(OpsOf(ops))
    requires forall c :: Lookup(matched, c) ==
                         NonEmpty(Collected(TreeOf(Run(NO_TRIE, OpsOf(ops)).trees, None), Split(topic), c))
    ensures forall c :: Matching(RunTexts(ops), topic, c, Listed(matched, c)) && (c in matched <==> Listed(matched, c) != [])
  {
    var trees := Run(NO_TRIE, OpsOf(ops)).trees;
    RunSound(OpsOf(ops));
    RunWritten(ops);
    hide LiveText, Run, RunTexts, RunSubs, RunRetained, Written, Shows, Collected, Matching, TreeOf, OpsOf;
    forall c
      ensures Matching(RunTexts(ops), topic, c, Listed(matched, c)) && (c in matched <==> Listed(matched, c) != [])
    {
      var items := Collected(TreeOf(trees, None), Split(topic), c);
      assert Lookup(matched, c) == NonEmpty(items);
      assert items == Listed(matched, c) && (c in matched <==> items != []);
      MatchesTexts(trees, RunTexts(ops), RunSubs(OpsOf(ops)), RunRetained(OpsOf(ops)), topic, c, items);
    }
  }

  /** A message is that of a topic which has these levels and which a filter matches. */
  ghost predicate Found(texts: Texts, filter: Text, topic: Text, levels: Topic, message: Message) {
    && topic in texts.retained && RetainedText(filter, topic)
    && Split(topic) == levels && texts.retained[topic] == message
  }

  ghost predicate FoundSome(texts: Texts, filter: Text, levels: Topic, message: Message) {
    exists topic :: Found(texts, filter, topic, levels, message)
  }

  /** One message for each topic that matches and has one, and no other. */
  ghost predicate FindsAll(texts: Texts, filter: Text, messages: seq<Message>, topics: seq<Topic>) {
    && |topics| == |messages|
    && (forall i, j | 0 <= i < j < |topics| :: topics[i] != topics[j])
    && (forall i | 0 <= i < |messages| :: FoundSome(texts, filter, topics[i], messages[i]))
    && (forall topic | topic in texts.retained && RetainedText(filter, topic) ::
          exists i :: 0 <= i < |messages| && Found(texts, filter, topic, topics[i], messages[i]))
  }

  /** After any run on texts, that is what `matches_retained_messages` gives. */
  lemma RetainedAfterRun(ops: seq<TextOp>, filter: Text, messages: seq<Message>, topics: seq<Topic>)
    requires PossibleRun(OpsOf(ops))
    requires var t := TreeOf(Run(NO_TRIE, OpsOf(ops)).trees, None); Lists(t, messages, topics, RetainedWalk(t, PathOf(filter)))
    ensures FindsAll(RunTexts(ops), filter, messages, topics)
  {
    var trees := Run(NO_TRIE, OpsOf(ops)).trees;
    RunSound(OpsOf(ops));
    RunWritten(ops);
    assert trees[None] == TreeOf(trees, None);
    hide *;
    ListedTexts(trees, RunTexts(ops), RunSubs(OpsOf(ops)), RunRetained(OpsOf(ops)), filter, messages, topics);
  }

  lemma ListedTexts(f: Forest, texts: Texts, subs: Subs, retained: Retained, filter: Text, messages: seq<Message>,
                    topics: seq<Topic>)
    requires Shows(f, subs, retained) && Written(texts, subs, retained)
    requires Lists(f[None], messages, topics, RetainedWalk(f[None], PathOf(filter)))
    ensures FindsAll(texts, filter, messages, topics)
  {
    ListsShown(f, subs, retained, PathOf(filter), messages, topics);
    hide RetainedText, RetainedMatch, PathOf, Shows, Lists, Found, Written;
    forall i | 0 <= i < |messages| ensures FoundSome(texts, filter, topics[i], messages[i]) {
      assert topics[i] in topics;
      var topic := TopicFound(texts, subs, retained, filter, topics[i]);
    }
    forall topic | topic in texts.retained && RetainedText(filter, topic)
      ensures exists i :: 0 <= i < |messages| && Found(texts, filter, topic, topics[i], messages[i])
    {
      FoundTopic(texts, subs, retained, filter, topic);
      assert Split(topic) in topics;
    }
  }

  lemma TopicFound(texts: Texts, subs: Subs, retained: Retained, filter: Text, levels: Topic) returns (topic: Text)
    requires Written(texts, subs, retained) && levels in retained && RetainedMatch(PathOf(filter), levels)
    ensures Found(texts, filter, topic, levels, retained[levels])
  {
    topic :| Split(topic) == levels;
    assert Lookup(retained, Split(topic)) == Lookup(texts.retained, topic);
    RetainedTextExact(filter, topic);
  }

  lemma FoundTopic(texts: Texts, subs: Subs, retained: Retained, filter: Text, topic: Text)
    requires Written(texts, subs, retained) && topic in texts.retained && RetainedText(filter, topic)
    ensures Split(topic) in retained && RetainedMatch(PathOf(filter), Split(topic))
    ensures Found(texts, filter, topic, Split(topic), retained[Split(topic)])
  {
    assert Lookup(retained, Split(topic)) == Lookup(texts.retained, topic);
    RetainedTextExact(filter, topic);
  }
}
