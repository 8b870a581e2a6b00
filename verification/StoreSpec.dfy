/** The session store of libs/service/src/storage.rs as a value: sessions, deadlines, trie. */
module StoreSpec {
  import opened Types
  import opened Seqs
  import opened Messages
  import opened FilterUtil
  import opened TreeSpec
  import opened TreeShape
  import opened TreeMatch
  import opened TrieSpec
  import opened TrieMatching
  import opened TrieRuns

  datatype TimeoutKey = TimeoutKey(clientId: Text, timeout: nat)

  datatype SessionState = SessionState(
    queue: seq<Message>,
    lastWill: Option<LastWill>,
    inflight: seq<Publish>,
    willKey: Option<TimeoutKey>,
    removeKey: Option<TimeoutKey>)

  datatype Store = Store(
    sessions: map<Text, SessionState>,
    trie: TrieState,
    willTimeouts: set<TimeoutKey>,
    removeTimeouts: set<TimeoutKey>,
    expired: nat)

  const NO_STORE: Store := Store(map[], NO_TRIE, {}, {}, 0)

  // ----- the copy of a message a session gets -----

  function MaxQos(items: seq<FilterItem>): Qos
    requires items != []
  {
    if |items| == 1 then items[0].qos else MaxQos(items[..|items| - 1]).Max(items[|items| - 1].qos)
  }

  function Ids(items: seq<FilterItem>): seq<NonZeroUsize> {
    if items == [] then [] else Ids(items[..|items| - 1]) + OptionSeq(items[|items| - 1].id)
  }

  predicate AllAsPublished(items: seq<FilterItem>) {
    forall item <- items :: item.retainAsPublished
  }

  /** What one more item adds. */
  lemma OneMoreItem(items: seq<FilterItem>, i: nat)
    requires 0 < i < |items|
    ensures MaxQos(items[..i + 1]) == MaxQos(items[..i]).Max(items[i].qos)
    ensures Ids(items[..i + 1]) == Ids(items[..i]) + OptionSeq(items[i].id)
    ensures AllAsPublished(items[..i + 1]) <==> AllAsPublished(items[..i]) && items[i].retainAsPublished
  {
    assert items[..i + 1][..i] == items[..i];
    assert items[..i + 1] == items[..i] + [items[i]];
  }

  function Copy(msg: Message, items: seq<FilterItem>, now: nat): Message
    requires items != []
  {
    Message(None, None, now, msg.topic, msg.qos.Min(MaxQos(items)), msg.payload,
            AllAsPublished(items) && msg.retain, msg.properties.(subscriptionIdentifiers := Ids(items)))
  }

  function Copies(msg: Message, items: seq<FilterItem>, now: nat): seq<Message> {
    if items == [] then [] else [Copy(msg, items, now)]
  }

  /** The quality of service is the highest of the items', and at most the message's. */
  lemma {:induction false} MaxQosExact(items: seq<FilterItem>)
    requires items != []
    ensures forall item <- items :: item.qos.ToNat() <= MaxQos(items).ToNat()
    ensures exists item <- items :: item.qos == MaxQos(items)
  {
    if |items| == 1 {
      assert items[0] in items;
    } else {
      var rest := items[..|items| - 1];
      MaxQosExact(rest);
      var top :| top in rest && top.qos == MaxQos(rest);
      assert top in items && items[|items| - 1] in items;
      assert items == rest + [items[|items| - 1]];
    }
  }

  /** The identifiers are those of the items that have one, as often as items have it. */
  lemma {:induction false} IdsExact(items: seq<FilterItem>, id: NonZeroUsize)
    ensures multiset(Ids(items))[id] == |set i | 0 <= i < |items| && items[i].id == Some(id)|
  {
    if items != [] {
      var n := |items| - 1;
      var rest := items[..n];
      IdsExact(rest, id);
      IdsMore(items, id);
      assert multiset(Ids(items)) == multiset(Ids(rest)) + multiset(OptionSeq(items[n].id));
    }
  }

  lemma IdsMore(items: seq<FilterItem>, id: NonZeroUsize)
    requires items != []
    ensures var n := |items| - 1;
            var rest := items[..n];
            |set i | 0 <= i < |items| && items[i].id == Some(id)| ==
            |set i | 0 <= i < |rest| && rest[i].id == Some(id)| + if items[n].id == Some(id) then 1 else 0
  {
    var n := |items| - 1;
    var rest := items[..n];
    var before := set i | 0 <= i < |rest| && rest[i].id == Some(id);
    assert (set i | 0 <= i < |items| && items[i].id == Some(id)) ==
           before + if items[n].id == Some(id) then {n} else {};
  }

  // ----- fan-out -----

  /** Without the items that may not be given back to the client they came from. */
  function Local(items: seq<FilterItem>, msg: Message, c: Text): seq<FilterItem> {
    if items == [] then []
    else
      var last := items[|items| - 1];
      Local(items[..|items| - 1], msg, c) + if !last.noLocal || msg.fromClientId != Some(c) then [last] else []
  }

  lemma {:induction false} LocalExact(items: seq<FilterItem>, msg: Message, c: Text)
    ensures msg.fromClientId != Some(c) ==> Local(items, msg, c) == items
    ensures forall item :: item in Local(items, msg, c) <==>
                           item in items && (!item.noLocal || msg.fromClientId != Some(c))
  {
    if items != [] {
      LocalExact(items[..|items| - 1], msg, c);
      assert items == items[..|items| - 1] + [items[|items| - 1]];
    }
  }

  /** What one message adds to the queue of a client. */
  function Fanned(f: Forest, msg: Message, picks: Picks, now: nat, c: Text): seq<Message> {
    var topic := Split(msg.topic);
    Copies(msg, Local(Collected(TreeOf(f, None), topic, c), msg, c), now) +
    Copies(msg, SharedItems(f, topic, picks, c), now)
  }

  function Queued(s: SessionState, messages: seq<Message>): SessionState {
    s.(queue := s.queue + messages)
  }

  function DeliveredTo(states: map<Text, SessionState>, f: Forest, msg: Message, picks: Picks, now: nat)
    : map<Text, SessionState>
  {
    if msg.IsExpired(now) then states
    else map c | c in states :: Queued(states[c], Fanned(f, msg, picks, now, c))
  }

  /** Picks for a message, if it goes out at all. */
  ghost predicate PicksFor(f: Forest, msg: Message, picks: Picks, now: nat) {
    !msg.IsExpired(now) ==> ValidPicks(f, Split(msg.topic), picks)
  }

  ghost predicate PicksForAll(f: Forest, msgs: seq<Message>, picks: seq<Picks>, now: nat) {
    |picks| == |msgs| && forall i | 0 <= i < |msgs| :: PicksFor(f, msgs[i], picks[i], now)
  }

  function DeliveredAll(states: map<Text, SessionState>, f: Forest, msgs: seq<Message>, picks: seq<Picks>, now: nat)
    : map<Text, SessionState>
    requires |msgs| == |picks|
  {
    if msgs == [] then states
    else
      var n := |msgs| - 1;
      DeliveredTo(DeliveredAll(states, f, msgs[..n], picks[..n], now), f, msgs[n], picks[n], now)
  }

  function DeliverAll(st: Store, msgs: seq<Message>, picks: seq<Picks>, now: nat): Store
    requires |msgs| == |picks|
  {
    st.(sessions := DeliveredAll(st.sessions, st.trie.trees, msgs, picks, now))
  }

  // ----- sessions come and go -----

  function Without<T>(keys: set<T>, key: Option<T>): set<T> {
    if key.Some? then keys - {key.value} else keys
  }

  function With<T>(keys: set<T>, key: Option<T>): set<T> {
    if key.Some? then keys + {key.value} else keys
  }

  function NewSession(will: Option<LastWill>): SessionState {
    SessionState([], will, [], None, None)
  }

  /** An order in which to visit the roots of a trie; `OrderDoesNotMatter` says which is no matter. */
  ghost function AnOrder(groups: set<Option<Text>>): (order: seq<Option<Text>>)
    ensures Taken(groups, {}, order)
  {
    if groups == {} then []
    else
      var g :| g in groups;
      AnOrder(groups - {g}) + [g]
  }

  ghost function WithoutClientTrie(t: TrieState, c: Text): TrieState {
    UnsubscribingAll(t, c, AnOrder(t.trees.Keys))
  }

  function DropSession(st: Store, c: Text): Store {
    if c in st.sessions then
      st.(sessions := st.sessions - {c},
          willTimeouts := Without(st.willTimeouts, st.sessions[c].willKey),
          removeTimeouts := Without(st.removeTimeouts, st.sessions[c].removeKey))
    else st
  }

  ghost function RemoveSession(st: Store, c: Text): Store {
    DropSession(st, c).(trie := WithoutClientTrie(st.trie, c))
  }

  function ResumeSession(st: Store, c: Text, will: Option<LastWill>): Store
    requires c in st.sessions
  {
    var s := st.sessions[c];
    st.(sessions := st.sessions[c := s.(lastWill := will, willKey := None, removeKey := None)],
        willTimeouts := Without(st.willTimeouts, s.willKey),
        removeTimeouts := Without(st.removeTimeouts, s.removeKey))
  }

  /** Whether a session was present, and the store with the session of a client that connects. */
  ghost function CreateSession(st: Store, c: Text, cleanStart: bool, will: Option<LastWill>): (r: (bool, Store)) {
    if !cleanStart && c in st.sessions then (true, ResumeSession(st, c, will))
    else
      var st' := if cleanStart then RemoveSession(st, c) else st;
      (false, st'.(sessions := st'.sessions[c := NewSession(will)]))
  }

  /** The deadline of a will that is still to be sent. */
  function WillDeadline(c: Text, will: LastWill, expiry: u32, now: nat): TimeoutKey {
    var delay := if will.delayInterval.Some? then will.delayInterval.value else 0;
    TimeoutKey(c, now + (if delay < expiry then delay else expiry) * SECOND)
  }

  function DisconnectSession(st: Store, c: Text, expiry: u32, now: nat): Store {
    if c !in st.sessions then st
    else
      var s := st.sessions[c];
      var willKey := if s.lastWill.Some? then Some(WillDeadline(c, s.lastWill.value, expiry, now)) else None;
      var removeKey := TimeoutKey(c, now + expiry * SECOND);
      st.(sessions := st.sessions[c := s.(willKey := if willKey.Some? then willKey else s.willKey,
                                          removeKey := Some(removeKey))],
          willTimeouts := With(st.willTimeouts, willKey),
          removeTimeouts := st.removeTimeouts + {removeKey})
  }

  // ----- deadlines, in order -----

  predicate TextLess(a: Text, b: Text) {
    b != [] && (a == [] || a[0] < b[0] || (a[0] == b[0] && TextLess(a[1..], b[1..])))
  }

  predicate KeyLess(a: TimeoutKey, b: TimeoutKey) {
    a.timeout < b.timeout || (a.timeout == b.timeout && TextLess(a.clientId, b.clientId))
  }

  lemma {:induction false} TextLessTransitive(a: Text, b: Text, c: Text)
    requires TextLess(a, b) && TextLess(b, c)
    ensures TextLess(a, c)
  {
    if a != [] && a[0] == b[0] == c[0] {
      TextLessTransitive(a[1..], b[1..], c[1..]);
    }
  }

  lemma {:induction false} TextLessTotal(a: Text, b: Text)
    ensures TextLess(a, b) || TextLess(b, a) || a == b
    ensures !(TextLess(a, b) && TextLess(b, a)) && !TextLess(a, a)
  {
    if a != [] {
      if b != [] && a[0] == b[0] {
        TextLessTotal(a[1..], b[1..]);
        assert a == [a[0]] + a[1..] && b == [b[0]] + b[1..];
      }
      TextLessIrreflexive(a);
    }
  }

  lemma {:induction false} TextLessIrreflexive(a: Text)
    ensures !TextLess(a, a)
  {
    if a != [] {
      TextLessIrreflexive(a[1..]);
    }
  }

  /** The order of the deadlines is a strict total order, so the ordered sets hold each key once. */
  lemma KeyOrder(a: TimeoutKey, b: TimeoutKey, c: TimeoutKey)
    ensures KeyLess(a, b) || KeyLess(b, a) || a == b
    ensures !(KeyLess(a, b) && KeyLess(b, a)) && !KeyLess(a, a)
    ensures KeyLess(a, b) && KeyLess(b, c) ==> KeyLess(a, c)
  {
    TextLessTotal(a.clientId, b.clientId);
    TextLessIrreflexive(a.clientId);
    if a.timeout == b.timeout == c.timeout && KeyLess(a, b) && KeyLess(b, c) {
      TextLessTransitive(a.clientId, b.clientId, c.clientId);
    }
  }

  predicate IsFirst(k: TimeoutKey, keys: set<TimeoutKey>) {
    k in keys && forall k' <- keys :: k' == k || KeyLess(k, k')
  }

  lemma {:induction false} FirstExists(keys: set<TimeoutKey>)
    requires keys != {}
    ensures exists first :: IsFirst(first, keys)
  {
    var k :| k in keys;
    if keys == {k} {
      assert IsFirst(k, keys);
    } else {
      FirstExists(keys - {k});
      var rest :| IsFirst(rest, keys - {k});
      KeyOrder(k, rest, rest);
      var first := if KeyLess(k, rest) then k else rest;
      forall k' | k' in keys ensures k' == first || KeyLess(first, k') {
        KeyOrder(first, rest, k');
      }
      assert IsFirst(first, keys);
    }
  }

  /** The earliest deadline (`iter().next()` of the ordered set). */
  ghost function First(keys: set<TimeoutKey>): (first: TimeoutKey)
    requires keys != {}
    ensures IsFirst(first, keys)
  {
    FirstExists(keys);
    var first :| IsFirst(first, keys);
    first
  }

  lemma FirstUnique(k: TimeoutKey, keys: set<TimeoutKey>)
    requires IsFirst(k, keys)
    ensures k == First(keys)
  {
    KeyOrder(k, First(keys), k);
  }

  // ----- the sweep -----

  /** The will of the earliest deadline is taken, if it has not been. */
  ghost function TakeWill(st: Store): (r: (Store, seq<(Text, LastWill)>))
    requires st.willTimeouts != {}
  {
    var k := First(st.willTimeouts);
    var st' := st.(willTimeouts := st.willTimeouts - {k});
    if k.clientId in st.sessions && st.sessions[k.clientId].lastWill.Some? then
      var s := st.sessions[k.clientId];
      (st'.(sessions := st.sessions[k.clientId := s.(lastWill := None)]), [(k.clientId, s.lastWill.value)])
    else (st', [])
  }

  ghost predicate Due(keys: set<TimeoutKey>, now: nat) {
    keys != {} && First(keys).timeout < now
  }

  ghost function SweepWills(st: Store, now: nat): (r: (Store, seq<(Text, LastWill)>))
    decreases |st.willTimeouts|
  {
    if !Due(st.willTimeouts, now) then (st, [])
    else
      var (st', will) := TakeWill(st);
      var (st'', wills) := SweepWills(st', now);
      (st'', will + wills)
  }

  lemma SweepWillsStep(st: Store, now: nat, wills: seq<(Text, LastWill)>)
    requires Due(st.willTimeouts, now)
    ensures var (st', will) := TakeWill(st);
            && SweepWills(st, now).0 == SweepWills(st', now).0
            && wills + SweepWills(st, now).1 == wills + will + SweepWills(st', now).1
  {
  }

  /** One session that has expired goes. */
  ghost function Expire(st: Store, k: TimeoutKey): Store {
    var st' := RemoveSession(st, k.clientId);
    st'.(removeTimeouts := st'.removeTimeouts - {k}, expired := st'.expired + 1)
  }

  lemma ExpireShrinks(st: Store, k: TimeoutKey)
    requires k in st.removeTimeouts
    ensures |Expire(st, k).removeTimeouts| < |st.removeTimeouts|
  {
    SubsetSize(Expire(st, k).removeTimeouts, st.removeTimeouts - {k});
  }

  ghost function SweepRemovals(st: Store, now: nat): Store
    decreases |st.removeTimeouts|
  {
    if !Due(st.removeTimeouts, now) then st
    else
      var k := First(st.removeTimeouts);
      ExpireShrinks(st, k);
      SweepRemovals(Expire(st, k), now)
  }

  lemma {:induction false} SubsetSize<T>(a: set<T>, b: set<T>)
    requires a <= b
    ensures |a| <= |b|
  {
    assert b == a + (b - a);
    assert |a + (b - a)| == |a| + |b - a|;
  }

  lemma SweepRemovalsStep(st: Store, now: nat)
    requires Due(st.removeTimeouts, now)
    ensures SweepRemovals(st, now) == SweepRemovals(Expire(st, First(st.removeTimeouts)), now)
  {
  }

  function WillMessages(wills: seq<(Text, LastWill)>, now: nat): (msgs: seq<Message>)
    ensures |msgs| == |wills|
  {
    seq(|wills|, i requires 0 <= i < |wills| => FromLastWill(wills[i].1, now))
  }

  /** What the sweep has made of the store before the wills go out. */
  ghost function Swept(st: Store, now: nat): Store {
    SweepRemovals(SweepWills(st, now).0, now)
  }

  ghost function UpdateSessions(st: Store, now: nat, picks: seq<Picks>): Store
    requires |picks| == |SweepWills(st, now).1|
  {
    DeliverAll(Swept(st, now), WillMessages(SweepWills(st, now).1, now), picks, now)
  }

  // ----- subscriptions and retained messages -----

  /** A retained message is sent to the new subscriber as if it were published now. */
  function RetainedCopies(msgs: seq<Message>, item: FilterItem, c: Text, now: nat): seq<Message> {
    if msgs == [] then []
    else
      var m := msgs[|msgs| - 1];
      RetainedCopies(msgs[..|msgs| - 1], item, c, now) +
      if m.IsExpired(now) || (item.noLocal && m.fromClientId == Some(c)) then [] else Copies(m, [item], now)
  }

  predicate SendsRetained(st: Store, c: Text, filter: Filter, item: FilterItem) {
    && filter.shareName.None?
    && (item.retainHandling == OnEverySubscribe ||
        (item.retainHandling == OnNewSubscribe && ItemAt(st.trie, None, PathOf(filter.path), c).None?))
  }

  function SubscribeSession(st: Store, c: Text, filter: Filter, item: FilterItem, msgs: seq<Message>, now: nat): Store {
    var st' := st.(trie := Subscribing(st.trie, filter.shareName, PathOf(filter.path), c, item));
    if SendsRetained(st, c, filter, item) && c in st.sessions then
      st'.(sessions := st.sessions[c := Queued(st.sessions[c], RetainedCopies(msgs, item, c, now))])
    else st'
  }

  function UpdateRetained(st: Store, msg: Message): Store {
    st.(trie := Retaining(st.trie, Split(msg.topic), if msg.payload == [] then None else Some(msg)))
  }

  function UnsubscribeSession(st: Store, c: Text, filter: Filter): Store {
    st.(trie := Unsubscribing(st.trie, filter.shareName, PathOf(filter.path), c))
  }

  // ----- the queues of one session -----

  function Batch(queue: seq<Message>, limit: Option<nat>): (n: nat)
    ensures n <= |queue|
  {
    var most := if limit.Some? then limit.value else USIZE_MAX;
    if most < |queue| then most else |queue|
  }

  /** The oldest in-flight packet, if it has this identifier. */
  function FrontInflight(inflight: seq<Publish>, id: NonZeroU16): Option<Publish> {
    if inflight != [] && inflight[0].packetId == Some(id) then Some(inflight[0]) else None
  }
}
