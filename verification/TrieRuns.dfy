/** The trie and its counters as a state machine: over every run they are those of the tables. */
module TrieRuns {
  import opened Types
  import opened Messages
  import opened TreeSpec
  import opened TreeShape
  import opened TreeMatch
  import opened TrieSpec

  // ----- the bytes counter -----

  /** What setting a retained message does to the bytes counter: a replacement leaves it alone. */
  function BytesAfter(bytes: int, previous: Option<Message>, message: Option<Message>): int {
    match (previous, message)
    case (None, Some(m)) => bytes + |m.payload|
    case (Some(m), None) => bytes - |m.payload|
    case _ => bytes
  }

  /** The bytes that are retained. */
  ghost function Bytes(retained: Retained): nat {
    if retained == map[] then 0
    else
      var topic :| topic in retained;
      |retained[topic].payload| + Bytes(retained - {topic})
  }

  lemma {:induction false} BytesWithout(retained: Retained, topic: Topic)
    requires topic in retained
    ensures Bytes(retained) == |retained[topic].payload| + Bytes(retained - {topic})
    decreases |retained|
  {
    var x :| x in retained && Bytes(retained) == |retained[x].payload| + Bytes(retained - {x});
    if x != topic {
      SizeWithout(retained, x);
      SizeWithout(retained, topic);
      BytesWithout(retained - {x}, topic);
      BytesWithout(retained - {topic}, x);
      assert retained - {x} - {topic} == retained - {topic} - {x};
    }
  }

  /** A counter that is exact stays exact, unless a message is replaced by one of another size. */
  lemma BytesExactIff(retained: Retained, topic: Topic, message: Option<Message>)
    ensures var previous := Lookup(retained, topic);
            BytesAfter(Bytes(retained), previous, message) == Bytes(RetainedAfter(retained, topic, message)) <==>
            !(previous.Some? && message.Some? && |previous.value.payload| != |message.value.payload|)
  {
    var after := RetainedAfter(retained, topic, message);
    if topic in retained {
      BytesWithout(retained, topic);
    } else {
      assert retained - {topic} == retained;
    }
    if message.Some? {
      BytesWithout(after, topic);
      assert after - {topic} == retained - {topic};
    }
  }

  // ----- the trie as a state machine -----

  datatype TrieState = TrieState(trees: Forest, subscribers: int, retainedCount: int, retainedBytes: int)

  const NO_TRIE: TrieState := TrieState(NOTHING, 0, 0, 0)

  function ItemAt(s: TrieState, g: Option<Text>, p: Path, c: Text): Option<FilterItem> {
    Get(TreeOf(s.trees, g), p, c)
  }

  function RetainedAt(s: TrieState, topic: Topic): Option<Message> {
    GetRetained(TreeOf(s.trees, None), Names(topic))
  }

  function Subscribing(s: TrieState, g: Option<Text>, p: Path, c: Text, item: FilterItem): TrieState {
    s.(trees := s.trees[g := Insert(TreeOf(s.trees, g), p, c, item)],
       subscribers := s.subscribers + if ItemAt(s, g, p, c).None? then 1 else 0)
  }

  function Unsubscribing(s: TrieState, g: Option<Text>, p: Path, c: Text): TrieState {
    s.(trees := s.trees[g := Remove(TreeOf(s.trees, g), p, c)],
       subscribers := s.subscribers - if ItemAt(s, g, p, c).Some? then 1 else 0)
  }

  function UnsubscribingAll(s: TrieState, c: Text, order: seq<Option<Text>>): TrieState {
    s.(trees := RemoveRoots(s.trees, c, order), subscribers := s.subscribers - CountRoots(s.trees, c, order))
  }

  function Retaining(s: TrieState, topic: Topic, m: Option<Message>): TrieState {
    var previous := RetainedAt(s, topic);
    s.(trees := s.trees[None := SetRetained(TreeOf(s.trees, None), topic, m)],
       retainedCount := s.retainedCount + (if m.Some? then 1 else 0) - (if previous.Some? then 1 else 0),
       retainedBytes := BytesAfter(s.retainedBytes, previous, m))
  }

  /** The trees show the tables, and the counters count them. */
  ghost predicate Sound(s: TrieState, subs: Subs, retained: Retained) {
    && Shows(s.trees, subs, retained)
    && s.subscribers == |subs|
    && s.retainedCount == |retained|
  }

  // ----- the order in which the roots are visited -----

  /** Where a client is subscribed, over some of the trees. */
  function ClientKeys(f: Forest, c: Text, groups: set<Option<Text>>): set<(Option<Text>, Path)>
    requires groups <= f.Keys
  {
    set g, p | g in groups && p in ClientPaths(f[g], c) :: (g, p)
  }

  lemma {:induction false} PairsSize(g: Option<Text>, paths: set<Path>)
    ensures |set p <- paths :: (g, p)| == |paths|
  {
    if paths == {} {
    } else {
      var p :| p in paths;
      PairsSize(g, paths - {p});
      assert (set q <- paths :: (g, q)) == (set q <- paths - {p} :: (g, q)) + {(g, p)};
    }
  }

  lemma {:induction false} CountRootsIsSize(f: Forest, c: Text, order: seq<Option<Text>>)
    requires Distinct(order) && forall g <- order :: g in f
    ensures CountRoots(f, c, order) == |ClientKeys(f, c, Groups(order))|
  {
    if order == [] {
      assert ClientKeys(f, c, {}) == {};
    } else {
      var g, rest := order[|order| - 1], order[..|order| - 1];
      CountRootsIsSize(f, c, rest);
      PairsSize(g, ClientPaths(f[g], c));
      assert order == rest + [g];
      ClientKeysMore(f, c, rest, g);
    }
  }

  lemma ClientKeysMore(f: Forest, c: Text, rest: seq<Option<Text>>, g: Option<Text>)
    requires g !in rest && g in f && forall h <- rest :: h in f
    ensures |ClientKeys(f, c, Groups(rest + [g]))| ==
            |ClientKeys(f, c, Groups(rest))| + |set p <- ClientPaths(f[g], c) :: (g, p)|
  {
    var more := set p <- ClientPaths(f[g], c) :: (g, p);
    assert ClientKeys(f, c, Groups(rest + [g])) == ClientKeys(f, c, Groups(rest)) + more;
    assert ClientKeys(f, c, Groups(rest)) !! more;
  }

  /** Removing a client gives the same trees and the same count in whatever order it goes. */
  lemma OrderDoesNotMatter(s: TrieState, c: Text, a: seq<Option<Text>>, b: seq<Option<Text>>)
    requires Taken(s.trees.Keys, {}, a) && Taken(s.trees.Keys, {}, b)
    ensures UnsubscribingAll(s, c, a) == UnsubscribingAll(s, c, b)
  {
    RemoveRootsAt(s.trees, c, a);
    RemoveRootsAt(s.trees, c, b);
    assert RemoveRoots(s.trees, c, a) == RemoveRoots(s.trees, c, b);
    CountRootsIsSize(s.trees, c, a);
    CountRootsIsSize(s.trees, c, b);
    assert Groups(a) == Groups(b);
  }

  datatype Op =
    | Subscribe(share: Option<Text>, path: Path, client: Text, item: FilterItem)
    | Unsubscribe(share: Option<Text>, path: Path, client: Text)
    | UnsubscribeAll(client: Text, order: seq<Option<Text>>)
    | SetRetainedMessage(topic: Topic, message: Option<Message>)

  /** Filters and topics have a level; the roots are visited once each, in any order. */
  ghost predicate Possible(s: TrieState, op: Op) {
    match op
    case Subscribe(_, p, _, _) => p != []
    case Unsubscribe(_, p, _) => p != []
    case UnsubscribeAll(_, order) => Taken(s.trees.Keys, {}, order)
    case SetRetainedMessage(topic, _) => topic != []
  }

  function Apply(s: TrieState, op: Op): TrieState {
    match op
    case Subscribe(g, p, c, item) => Subscribing(s, g, p, c, item)
    case Unsubscribe(g, p, c) => Unsubscribing(s, g, p, c)
    case UnsubscribeAll(c, order) => UnsubscribingAll(s, c, order)
    case SetRetainedMessage(topic, m) => Retaining(s, topic, m)
  }

  function ApplySubs(subs: Subs, op: Op): Subs {
    match op
    case Subscribe(g, p, c, item) => subs[SubKey(g, p, c) := item]
    case Unsubscribe(g, p, c) => subs - {SubKey(g, p, c)}
    case UnsubscribeAll(c, _) => WithoutClient(subs, c)
    case SetRetainedMessage(_, _) => subs
  }

  function ApplyRetained(retained: Retained, op: Op): Retained {
    if op.SetRetainedMessage? then RetainedAfter(retained, op.topic, op.message) else retained
  }

  /** What the two single look-ups of the source return is what the tables held. */
  lemma LookUpsExact(s: TrieState, subs: Subs, retained: Retained, g: Option<Text>, p: Path, c: Text, topic: Topic)
    requires Sound(s, subs, retained)
    ensures ItemAt(s, g, p, c) == Lookup(subs, SubKey(g, p, c))
    ensures RetainedAt(s, topic) == Lookup(retained, topic)
  {
    TreeOfShows(s.trees, subs, retained, g, p, c);
    assert GetRetained(s.trees[None], Names(topic)) == Lookup(retained, topic);
  }

  lemma SubscribeSound(s: TrieState, subs: Subs, retained: Retained, g: Option<Text>, p: Path, c: Text, item: FilterItem)
    requires Sound(s, subs, retained) && p != []
    ensures Sound(Subscribing(s, g, p, c, item), subs[SubKey(g, p, c) := item], retained)
  {
    LookUpsExact(s, subs, retained, g, p, c, []);
    SubscribeShows(s.trees, subs, retained, g, p, c, item);
  }

  lemma UnsubscribeSound(s: TrieState, subs: Subs, retained: Retained, g: Option<Text>, p: Path, c: Text)
    requires Sound(s, subs, retained)
    ensures Sound(Unsubscribing(s, g, p, c), subs - {SubKey(g, p, c)}, retained)
  {
    LookUpsExact(s, subs, retained, g, p, c, []);
    UnsubscribeShows(s.trees, subs, retained, g, p, c);
    SizeWithout(subs, SubKey(g, p, c));
  }

  lemma UnsubscribeAllSound(s: TrieState, subs: Subs, retained: Retained, c: Text, order: seq<Option<Text>>)
    requires Sound(s, subs, retained)
    ensures Taken(s.trees.Keys, {}, order) ==> Sound(UnsubscribingAll(s, c, order), WithoutClient(subs, c), retained)
  {
    if Taken(s.trees.Keys, {}, order) {
      RemoveRootsShows(s.trees, subs, retained, c, order);
      WithoutClientInAll(s.trees, subs, retained, c);
      assert Groups(order) == s.trees.Keys;
    }
  }

  lemma SetRetainedSound(s: TrieState, subs: Subs, retained: Retained, topic: Topic, m: Option<Message>)
    requires Sound(s, subs, retained) && topic != []
    ensures Sound(Retaining(s, topic, m), subs, RetainedAfter(retained, topic, m))
  {
    LookUpsExact(s, subs, retained, None, [], [], topic);
    SetRetainedShows(s.trees, subs, retained, topic, m);
    SizeWithout(retained, topic);
  }

  /** Every operation on the trie is the operation on the tables, and the counters follow. */
  lemma ApplySound(s: TrieState, subs: Subs, retained: Retained, op: Op)
    requires Sound(s, subs, retained) && Possible(s, op)
    ensures Sound(Apply(s, op), ApplySubs(subs, op), ApplyRetained(retained, op))
  {
    match op
    case Subscribe(g, p, c, item) => SubscribeSound(s, subs, retained, g, p, c, item);
    case Unsubscribe(g, p, c) => UnsubscribeSound(s, subs, retained, g, p, c);
    case UnsubscribeAll(c, order) => UnsubscribeAllSound(s, subs, retained, c, order);
    case SetRetainedMessage(topic, m) => SetRetainedSound(s, subs, retained, topic, m);
  }

  function Run(s: TrieState, ops: seq<Op>): TrieState {
    if ops == [] then s else Apply(Run(s, ops[..|ops| - 1]), ops[|ops| - 1])
  }

  function RunSubs(ops: seq<Op>): Subs {
    if ops == [] then map[] else ApplySubs(RunSubs(ops[..|ops| - 1]), ops[|ops| - 1])
  }

  function RunRetained(ops: seq<Op>): Retained {
    if ops == [] then map[] else ApplyRetained(RunRetained(ops[..|ops| - 1]), ops[|ops| - 1])
  }

  ghost predicate PossibleRun(ops: seq<Op>) {
    forall i | 0 <= i < |ops| :: Possible(Run(NO_TRIE, ops[..i]), ops[i])
  }

  /** Over every run from the empty trie. */
  lemma {:induction false} RunSound(ops: seq<Op>)
    requires PossibleRun(ops)
    ensures Sound(Run(NO_TRIE, ops), RunSubs(ops), RunRetained(ops))
  {
    if ops == [] {
      NothingShows();
    } else {
      var rest := ops[..|ops| - 1];
      assert forall i | 0 <= i < |rest| :: rest[..i] == ops[..i];
      RunSound(rest);
      ApplySound(Run(NO_TRIE, rest), RunSubs(rest), RunRetained(rest), ops[|ops| - 1]);
    }
  }

  /** Two runs that leave the same subscriptions and retained messages leave the same main tree and
      the same counters, whatever they did. */
  lemma RunsAgree(a: seq<Op>, b: seq<Op>)
    requires PossibleRun(a) && PossibleRun(b)
    requires RunSubs(a) == RunSubs(b) && RunRetained(a) == RunRetained(b)
    ensures TreeOf(Run(NO_TRIE, a).trees, None) == TreeOf(Run(NO_TRIE, b).trees, None)
    ensures Run(NO_TRIE, a).subscribers == Run(NO_TRIE, b).subscribers
    ensures Run(NO_TRIE, a).retainedCount == Run(NO_TRIE, b).retainedCount
  {
    RunSound(a);
    RunSound(b);
    ShowsUnique(Run(NO_TRIE, a).trees, Run(NO_TRIE, b).trees, RunSubs(a), RunRetained(a));
  }
}
